# Macro lowering for the `simple` assembler, in Dafny

The `simple` toolchain has an assembler for a small 32-bit machine with sixteen
registers. Register r0 is the program counter, r1 is the stack pointer, and r7
to r10 are scratch registers. Before assembling, `macros.py` rewrites the
program text: every line whose command word is an upper-case macro name
(`ADD`, `COPY`, `GJUMP`, `PUSH`, ...) becomes a `NOTH` line that takes the
call's label, followed by primitive instructions (`and`, `add`, `copy`,
`load`, `store`, `zjump`, ...). The rewrite is applied again and again until
the text no longer changes.

This project models that rewriter and states what it guarantees:

- **Operands** (`operands.dfy`). `parse_arg` and `parse_args` are modelled:
  registers `r0`..`r15`, decimal and `0x` numbers, register-plus-offset, and
  labels. A `+` or `-` token folds three tokens into one operand.
- **Labels** (`labels.dfy`). `new_label` is modelled with the module's
  counter and label list passed in and returned as a `LabelState`.
- **Line layout** (`layout.dfy`, `lines.dfy`). These model `line`, `ljust`,
  `str.split()`, `str.strip()` and `str.split("\n")`.
- **The macros** (`macros.dfy`). Each macro is a builder that turns parsed
  operands into a sequence of machine lines. `Expand` adds the error cases and
  the fresh label the negated jumps take.
- **One pass and the fixed point** (`rewriter.dfy`, `stable.dfy`,
  `source_macros.dfy`, `source_pass.dfy`, `fixpoint.dfy`). `replace_` comes
  twice:
  - `SourcePass.Pass` is `replace_` as written: the `ljust` layout and the
    macro code of `SourceMacros`, which is the source's code line for line;
  - `Rewriter.Pass` is the corrected pass: a blank after every field, and the
    corrected ADD-family and offset copies of `Macros`.

  `SourcePass.PassAgrees` proves the two equal on programs whose lines are
  safe: fields narrower than their columns, no aliased macro call. The
  properties proved of the corrected pass carry over to the source's on those
  programs. `replace` is the method `Fixpoint.Replace`, which runs either
  version.
- **What the expansions compute** (`machine.dfy`, `semantics.dfy`,
  `compose.dfy`, `arith.dfy`, `offset_alias.dfy`, `jumps.dfy`,
  `conditions.dfy`, `negated.dfy`, `memory.dfy`).
  - `Machine` is a straight-line interpreter for the primitive instructions.
  - Each "Runs" lemma runs one macro's code from an arbitrary state. It states
    the resulting registers, memory and program counter, and which registers
    may change.

The emulator itself is not part of this model. `Machine.Exec` follows the
instruction behaviour that the repository's unit tests expect:

- words are taken modulo 2^32;
- the `copy` immediate field is 24 bits wide;
- `zjump c t` continues at the address in `t` when `c` is zero;
- r0 holds the address of the instruction being executed.

Data words are label names that stand on a line of their own. The assembler
fills them with the label's address, and the model takes those addresses as
an environment `Env`.

Two macros read an operand after an earlier step has already overwritten it,
and the line layout can run a long label into the instruction word. All three
are listed under "## Findings". In each case the as-written code is kept, and
the corrected version is the one `Rewriter.Pass` uses.

## Model

| member | source | states |
|---|---|---|
| Operands.ParseRegIff | macros.py:36-37 | The register grammar accepts a token exactly when it is the name of one of the sixteen registers, and it yields that register. |
| Operands.ParseShown | macros.py:34-56 | Each kind of operand, written out, parses back to that operand: registers, decimal numbers, offsets in either sign, and labels that are no register or number. |
| Operands.ParseOffsetText | macros.py:43-52 | A register, a sign and a number written together parse as that register with the number as offset, negated for `-`. |
| Operands.DecIsNat | macros.py:38-42 | The decimal spelling of a number is read back as that number. |
| Operands.HexIsNat | macros.py:38-42 | `0x` followed by the hexadecimal digits of a number is read back as that number. |
| Operands.ParseFolded | macros.py:61-64 | Three tokens with a lone sign in the middle become one operand, parsed from the three glued together. Parsing then continues after them. |
| Operands.ParseSingle | macros.py:65-67 | A token that is not followed by a lone sign is parsed on its own. Parsing then continues with the next token. |
| Operands.ParseShowArgs | macros.py:58-69 | Parsing the printed tokens of any list of operands gives back the same list, in the same order. This holds even where offsets were printed as three tokens. |
| Operands.ParseNumberExamples | tests/tests.py:1494-1496 | `32` and `0xabc` are numbers. |
| Operands.DecimalLabelExample | tests/tests.py:1495 | `32z` is a label. A number grammar must match the whole token. |
| Operands.HexLabelExample | tests/tests.py:1497 | `0xabcz` is a label. |
| Operands.ParseRegisterExamples | tests/tests.py:1498-1503 | `r0` and `r15` are registers. |
| Operands.R16LabelExample | tests/tests.py:1504 | `r16` is past the last register and is a label. |
| Operands.R1yLabelExample | tests/tests.py:1505 | `r1y` is a label. |
| Operands.OffsetR3 | tests/tests.py:1506 | `r3+24` is r3 with offset 24. |
| Operands.OffsetR15 | tests/tests.py:1509 | `r15-0xabc` is r15 with offset -0xabc. |
| Operands.WordLabelExample | tests/tests.py:1510 | `label34` is a label. |
| Operands.ParseArgsExample | tests/tests.py:1532-1533 | `r7 + 6 r11 charlie` parses as three operands: an offset, a register and a label. |
| Text.DecRoundTrip | macros.py:42 | Reading the decimal spelling of a number gives the number back. |
| Text.HexRoundTrip | macros.py:40 | Reading the hexadecimal digits of a number gives the number back. |
| Text.DecInjective | macros.py:83 | Distinct numbers have distinct decimal spellings. |
| Labels.Probe | macros.py:84-86 | The search stops at the first counter from `k` on whose name is free. Every name it skipped is taken. |
| Labels.LargeCounterIsFree | macros.py:84-86 | A counter with more digits than the longest taken name is free, so the search always ends. |
| Labels.NewLabel | macros.py:79-89 | The label handed out was not in use. It is appended to the list. The counter moves forward to it, and every counter skipped was already taken. |
| Labels.NewLabelKeepsDistinct | macros.py:84-87 | A label list without repetitions keeps that property when a label is taken. |
| Labels.UniqueNameInjective | macros.py:83 | Different counter values give different label names. |
| Labels.NewLabelSequential | macros.py:79-89 | When nothing else adds names, the labels come out as `_unique_1`, `_unique_2`, ... in turn. |
| Labels.NewLabelExample | tests/tests.py:2461-2471 | The first label is `_unique_1`. Once someone else has taken `_unique_2`, the next label is `_unique_3`. |
| Layout.RenderRoundTrip | macros.py:71-77 | Splitting a written line at whitespace gives back exactly its label and its tokens. |
| Layout.RenderInjective | macros.py:71-77 | Two written lines are equal only when their labels and tokens are equal. |
| Layout.RenderAgreesWhenFieldsFit | macros.py:71-77 | When every field is narrower than its column, the corrected layout writes the same text as the source's `ljust` layout. |
| Layout.LongLabelGluedAsWritten | macros.py:100-103 | With the source's layout, a label of 18 or more characters merges with the instruction word that follows it. |
| Layout.LongLabelExample | macros.py:100-103 | `abcdefghijklmnopq: add r1 r2 r3` is written so that it reads back as `abcdefghijklmnopq:add r1 r2 r3`. |
| Lines.StripLeft | macros.py:93 | The result is a suffix of the input. Everything removed is whitespace, and the result does not start with whitespace. |
| Lines.StripRight | macros.py:93 | The result is a prefix of the input. Everything removed is whitespace, and the result does not end with whitespace. |
| Lines.JoinSplit | macros.py:93 | The pieces that `split("\n")` cuts a text into give the text back when they are joined with newlines. |
| Lines.SplitJoin | macros.py:93 | Pieces without newlines, joined and then split, come back as the same pieces. |
| Lines.NonBlank | macros.py:93 | The filter keeps exactly the non-empty pieces. |
| Lines.NonBlankAppend | macros.py:93 | Filtering two runs of pieces one after the other is filtering each run, and order is kept. |
| Lines.NonBlankKeeps | macros.py:93 | Pieces none of which is empty pass the filter unchanged. |
| Lines.OutputAppend | macros.py:92-105 | The output of two groups of lines is the first group's output followed by the second's. |
| Macros.Lookup | macros.py:98 | A command word that finds a macro is that macro's name. |
| Macros.LookupName | macros.py:98-101 | Every macro is found by its own name. |
| Macros.LookupOnlyName | macros.py:98-101 | A command word finds a given macro exactly when it is that macro's name. |
| Macros.ConstantsAreNotMacros | macros.py:18-29 | The module's upper-case constants name no macro. |
| Macros.Expand | macros.py:99-101 | A call expands exactly when it has the right number of operands, all parsed, with a register in the destination position. Only NZJUMP and NEJUMP take a fresh label: one not in use before, placed on the last (`NOTH`) line of their code. Every other call leaves the label state alone. |
| Rewriter.NothTokens | macros.py:116-117 | `NOTH` is written as the tokens `and r1 r1 r1`. |
| Rewriter.PlainLineKept | macros.py:102-103 | A line that is not a macro call becomes one line with the same tokens, and the label state does not change. |
| Rewriter.MacroLineExpanded | macros.py:98-101 | A macro call becomes a `NOTH` line carrying the call's label, followed by the macro's code. It fails exactly when the operands are not well formed, and only negated jumps use up a label. |
| Rewriter.PassLineFails | macros.py:94-101 | A line fails exactly when it has no instruction, when it names a constant, or when it calls a macro with operands that are not well formed. |
| Rewriter.PassLinesAppend | macros.py:93-105 | The pass keeps the program's order. Two runs of lines give the output of the first followed by that of the second, with the label state carried across. |
| Stable.StableLinesKept | macros.py:102-103 | Lines already in the rewriter's own layout, none of them a call, pass through unchanged and in order, and take no label. |
| Stable.PassLinesStable | macros.py:93-103 | Every line a pass writes is already in the rewriter's layout and is not a call. |
| Stable.StableOutputFixed | macros.py:91-105 | The text made of such lines is a fixed point of the pass, and the label state stays the same. |
| Stable.PassIdempotent | macros.py:91-105 | Passing a pass's output again writes the same text and takes no label, so `replace` stops after two passes. |
| Fixpoint.SecondPassSame | macros.py:107-114 | On a program that settles, one pass and two passes give the same text and label state, for the source's pass and for the corrected one. |
| Fixpoint.Replace | macros.py:107-114 | The text returned is a fixed point: the last pass of the chosen version wrote it back unchanged. It is what some number of passes within the bound make of the input. Errors come from a pass. A settling program comes out as its first pass wrote it, in either version. |
| Fixpoint.LongLabelNeverSettles | macros.py:100-114 | `abcdefghijklmnopq: add r1 r2 r3` never settles under the source's passes: the second pass's text differs from the first's, and the fifth pass fails for want of an instruction. The corrected pass writes it back unchanged. |
| SourceMacros.BuildAgrees | macros.py:116-254 | The source's code for an unaliased call is exactly the corrected code. |
| SourceMacros.AliasedCompareAsWritten | macros.py:146-147 | `GJUMP r10 r2 t` is aliased. The source's code starts with `and r2 r2 r10`, the as-written ADD-family order. The corrected code starts with `and r10 r10 r9`. |
| SourcePass.PassLineAgrees | macros.py:94-103 | A safe line comes out of the source's pass as it comes out of the corrected pass: same lines, same error, same label state. |
| SourcePass.PassAgrees | macros.py:91-105 | On a program whose lines are all safe, the source's `replace_` is the corrected pass. |
| SourcePass.FitOutputFixed | macros.py:91-105 | Text made of lines in the rewriter's layout, none a call, and all fields narrower than their columns, is a fixed point of the source's pass. The label state stays the same. |
| SourcePass.PassIdempotentAsWritten | macros.py:91-114 | On a safe program, the source's pass writes what the corrected pass writes. A second pass writes that text back unchanged and takes no label, so the source's `replace` stops after two passes. |
| SourcePass.StableLineRelaid | macros.py:102-103 | The source's pass writes a line already in the corrected layout in its own `ljust` layout. |
| SourcePass.GluedLineShifts | macros.py:94-103 | A line the source wrote with a label of 18 or more characters comes back with its instruction word moved into the label. With nothing after that word, the pass fails for want of an instruction. |
| SourcePass.GluedLinePass | macros.py:91-105 | The same for a whole program of that one line. |
| Bits.MaskIsMod | macros.py:205 | Masking with `2^k - 1` keeps exactly the value modulo `2^k`. |
| Bits.TopBitQuotient | macros.py:148 | A word divided by 2^31 is 0 or 1, and it equals the word's top bit. The top bit is set exactly from 2^31 up. |
| Bits.FlipIsComplement | macros.py:132-137 | Inverting every bit of an n-bit number is subtracting it from `2^n - 1`. |
| Semantics.HalfWordSplit | macros.py:205-206 | The low half-word and the high part put back together give the literal. The low half is below 2^16, and for literals below 2^40 the high part fits the 24-bit immediate. |
| Semantics.HighHalfRuns | macros.py:208-211 | The four high-half instructions add or subtract `(v >> 16) * 2^16` modulo 2^32 to `d`. Only `d`, r7 and r8 change. |
| Semantics.CopyNatRuns | macros.py:204-211 | `COPY n d` leaves `n` modulo 2^32 in `d` in five instructions. Only `d`, r7 and r8 change. |
| Semantics.CopyRegRuns | macros.py:202-203 | `COPY r d` copies the register's value to `d` and changes nothing else. |
| Semantics.CopyOffsetAsWrittenRuns | macros.py:212-217 | The source's offset copy leaves `b + k` modulo 2^32 in `d` when the base `b` is not `d`. |
| Semantics.OffsetInPlaceRuns | macros.py:212-217 | The in-place offset leaves `d + k` modulo 2^32 in `d`, adding or subtracting one half-word at a time. |
| Semantics.CopyOffsetRuns | macros.py:212-217 | `COPY b±k d` leaves `b ± k` modulo 2^32 in `d` for every base, the destination included. Only `d`, r7 and r8 change. |
| Semantics.LabelOffsetIsEightWords | macros.py:219-227 | The constant 0x20 is eight words. Every label copy is nine lines long, and its line 8 is the data word holding that label. |
| Semantics.LabelAddressRuns | macros.py:219-223 | After the first five lines of a label copy, r7 and r8 hold the addresses eight and nine words past the copy's first line. |
| Semantics.LabelTailRuns | macros.py:224-227 | The load reads the data word through r7. The closing `zjump` is always taken, because r7 was just set to zero, and it lands past the data word. |
| Semantics.CopyLabelRuns | macros.py:218-227 | `COPY label d` leaves the label's address in `d`. It never executes the data word and ends nine words on. |
| Semantics.CopyRuns | macros.py:201-229 | `COPY a d` leaves the value of any operand in `d`. Only `d`, r7 and r8 change, and control reaches the end of the copy. |
| Machine.Exec | tests/tests.py:344-538 | An instruction changes only its target register and the program counter. Only `store` changes memory. `zjump` moves to the target exactly when its condition register is zero. Dividing by zero and an oversized immediate fail. |
| Compose.TwoCopiesRuns | macros.py:168-170 | Two consecutive copies deliver both values when the second operand does not read the first destination. |
| ArithSemantics.InOrderRuns | macros.py:119-127 | The source's order, first operand into `d` and then the second into r9, computes `a1 op a2` when the second operand does not read `d`. |
| ArithSemantics.ArithRuns | macros.py:119-130 | `ADD`/`SUB`/`MULT`/`DIV`/`AND`/`OR a1 a2 d` leave `a1 op a2` in `d`, taken on the values before the call and modulo 2^32. Only `d` and the scratch registers change. |
| ArithSemantics.AliasedAsWrittenRuns | macros.py:119-127 | With the source's order, `ADD a1 d d` computes `a1 op a1`. |
| ArithSemantics.AliasedAddExample | macros.py:121-123 | As written, `ADD r1 r2 r2` with r1 = 1 and r2 = 2 leaves 2 in r2, not 3. |
| Conditions.AliasedGreaterRuns | macros.py:146-153 | As written, `GJUMP r10 r2 t` never jumps, whatever the registers hold: it tests `r2 - r2`, so the test value 0 / 2^31 - 1 is never zero, and control falls off the end. |
| ArithSemantics.AliasedAddFixed | macros.py:121-123 | The corrected code for the same call leaves 3. |
| ArithSemantics.NotComplement | macros.py:134-135 | Multiplying by 0xffffffff and subtracting 1, both modulo 2^32, gives the 32-bit bitwise complement. |
| ArithSemantics.NotRuns | macros.py:132-137 | `NOT a d` leaves the bitwise complement of `a` in `d`. Only `d` and the scratch registers change. |
| ArithSemantics.NotExample | tests/tests.py:2541-2560 | The complement of 0x17 is 0xffffffe8. |
| OffsetAlias.OffsetAliasedAsWrittenRuns | macros.py:212-217 | As written, `COPY d±k d` leaves `|k| ± |k|` in `d`. The base value is lost. |
| OffsetAlias.OffsetAliasExample | macros.py:212-217 | As written, `COPY r3 + 5 r3` with r3 = 0 leaves 10, not 5. |
| OffsetAlias.OffsetAliasFixed | macros.py:212-217 | The corrected code for the same call leaves 5. |
| OffsetAlias.NotOffsetAliasedRuns | macros.py:132-137 | As written, `NOT d±k d` leaves the complement of twice the magnitude of k (or of 0 for a negative k), because its first copy is the offset copy into `d`. The base value is lost. |
| OffsetAlias.NotOffsetAliasExample | macros.py:132-137 | As written, `NOT r3+5 r3` with r3 = 0 leaves 0xfffffff5, the complement of 10, not 0xfffffffa. |
| JumpSemantics.ZJumpTaken | macros.py:142 | A taken `zjump` sends control to its target. It goes on with the next line when that is the target, and otherwise ends or leaves the block. |
| JumpSemantics.ZJumpNotTaken | macros.py:142 | A `zjump` that is not taken continues with the next line, and only the program counter moves. |
| JumpSemantics.ZeroScratchRuns | macros.py:141 | `COPY 0 r7` leaves r7 zero, although its high half is written to r7 as well. |
| JumpSemantics.JumpThenRuns | macros.py:139-144 | `JUMP t` always transfers control to the value `t` had before the macro. Only r7, r8 and r9 change on the way. |
| JumpSemantics.JumpRuns | macros.py:139-144 | A standalone `JUMP t` reaches `t`. |
| Conditions.SignOfDifference | macros.py:146-161 | Without signed overflow, the 32-bit difference `x - y` has its top bit set exactly when `x < y` as signed numbers. |
| Conditions.GreaterTestValue | macros.py:148-149 | GJUMP's test value is zero exactly when the difference has its top bit set. |
| Conditions.AtLeastTestValue | macros.py:157 | GEJUMP's test value is zero exactly when the difference has its top bit clear. |
| Conditions.GJumpRuns | macros.py:146-153 | `GJUMP a b t` goes to `t` exactly when `b - a` has its top bit set, and otherwise falls through. Without overflow, that is when `a > b` as signed numbers. |
| Conditions.GEJumpRuns | macros.py:155-161 | `GEJUMP a b t` goes to `t` exactly when `a - b` has its top bit clear. Without overflow, that is when `a >= b` as signed numbers. |
| Conditions.LJumpBuild | macros.py:163 | `LJUMP a b t` is GJUMP's code on `b a t`. |
| Conditions.LEJumpBuild | macros.py:165 | `LEJUMP a b t` is GEJUMP's code on `b a t`. |
| Conditions.LJumpRuns | macros.py:163 | `LJUMP a b t` goes to `t` exactly when `a - b` has its top bit set. Without overflow, that is when `a < b` as signed numbers. |
| Conditions.LEJumpRuns | macros.py:165 | `LEJUMP a b t` goes to `t` exactly when `b - a` has its top bit clear. Without overflow, that is when `a <= b` as signed numbers. |
| Conditions.GJumpOverflowExample | macros.py:146-153 | With r2 = 0x7fffffff and r3 = 0x80000002, `GJUMP r2 r3 t` falls through, although r2 > r3 as signed numbers. |
| Conditions.EJumpRuns | macros.py:184-189 | `EJUMP a b t` goes to `t` exactly when `a` and `b` are equal. |
| Conditions.ZJumpMacroRuns | macros.py:167-172 | `ZJUMP c t` goes to `t` exactly when `c` is zero. |
| NegatedJumps.NothRuns | macros.py:116-117 | `NOTH` changes nothing but the program counter. |
| NegatedJumps.NZJumpRuns | macros.py:174-182 | `NZJUMP c t` goes to `t` exactly when `c` is not zero, and otherwise falls off the end onto the line after its labelled `NOTH`. |
| NegatedJumps.NEJumpRuns | macros.py:191-199 | `NEJUMP a b t` goes to `t` exactly when `a` and `b` differ, and otherwise falls off the end. |
| MemorySemantics.LoadRuns | macros.py:231-235 | `LOAD a d` leaves in `d` the word at the address `a` stands for. Only `d`, r7 and r8 change, and memory is untouched. |
| MemorySemantics.StoreRuns | macros.py:237-242 | `STORE s a` writes the value of `s` to the word at the address `a` stands for, and no other word. Only the scratch registers change. |
| MemorySemantics.PushRuns | macros.py:244-248 | `PUSH a` moves r1 one word down modulo 2^32 and writes the value of `a` there. |
| MemorySemantics.PopRuns | macros.py:250-254 | `POP d` loads the word r1 points at into `d` and moves r1 one word up. Memory is unchanged. |
| MemorySemantics.PopStackPointerRuns | macros.py:250-254 | `POP r1` loads the word r1 points at into r1 and then adds a word to it, so r1 ends as that word plus 4, modulo 2^32. Only the scratch registers change besides. |
| MemorySemantics.PushPopRuns | macros.py:244-254 | `PUSH a` then `POP d` leaves the value of `a` in `d` and restores r1. |
| MemorySemantics.LastInFirstOut | macros.py:244-254 | After `PUSH a`, `PUSH b`, `POP d`, `POP e`, `e` holds `a` and `d` holds `b`, and r1 is back where it was. |

## Left out

- Input and output are not modelled. The module-level `labels` list and `label_count` are passed in and returned explicitly as a `Labels.LabelState`.
- The emulator and assembler are not part of this model.
  - `Machine` models only what the macro code needs: straight-line execution, and a forward transfer that stays inside a block continues there.
  - Label addresses come in as an environment `Env`. The assembler is trusted to put each label's address into its data word.
- `test_label_sys` (tests/tests.py:2461-2477) expects `new_label()` to return a one-element list. `macros.py` returns the string, and the model follows the code.
- User-written labels are not added to the label list, as in the source. So a user label spelled `_unique_<n>` can collide with a generated one.
- A macro destination that is not a register is not modelled as the source handles it.
  - The source writes text that cannot be assembled, such as `and r1 r1 None`.
  - The model returns `Err(NotARegister)` instead.
- Some input lines make the source raise Python exceptions; the model returns an error instead:
  - a line that is only whitespace inside the text, or only a label, raises `IndexError`; the model returns `Err(NoInstruction)`;
  - a constant name used as a command raises a `TypeError`; the model returns `Err(NotCallable)`;
  - a macro call with the wrong number of operands raises a `TypeError`; the model returns `Err(BadCall)`;
  - an operand that no grammar parses reaches `COPY` as `None`, whose branches all miss, so `return result` raises `UnboundLocalError` (macros.py:201-229); the model returns `Err(BadCall)`.
- Macros.Expand and Rewriter.PassLine: the two exception cases just above are both `Err(BadCall)`. The model does not tell a wrong operand count from an unparsed operand.
- Operands.ParseNat: the `NAT` grammar's `\d` and Python's `int()` accept every Unicode decimal digit. The model accepts the ASCII digits only.
- Text.IsWordChar: the label grammar `\w` is taken as ASCII letters, digits and `_`. Unicode word characters are not modelled.
- Layout.IsSpace: the separators are the ASCII and Unicode whitespace characters that `str.split()` uses. No other Unicode handling is modelled.
- Rewriter.Pass, Rewriter.PlainLineKept, Rewriter.MacroLineExpanded, Stable.StableLinesKept, Stable.PassLinesStable, Stable.StableOutputFixed, Stable.PassIdempotent and Fixpoint.SecondPassSame (with `Corrected`) describe the corrected pass: a blank after every field, and the corrected ADD-family and offset copies. The source's pass is `SourcePass.Pass`.
  - On programs whose lines are safe (`SourcePass.SafeLines`) the two are equal (`SourcePass.PassAgrees`), so these properties carry over (`SourcePass.PassIdempotentAsWritten`).
  - Outside that they can differ. A label of 18 or more characters runs into the instruction word; `abcdefghijklmnopq: add r1 r2 r3` then never settles, and the fifth pass raises `IndexError` (`Fixpoint.LongLabelNeverSettles`). An aliased call such as `ADD r1 r2 r2` or `GJUMP r10 r2 t` gets different code (first row of "## Findings").
- PlainLineKept, MacroLineExpanded, StableLinesKept, PassLinesStable, StableOutputFixed, PassIdempotent and SecondPassSame: as the line above says, these promise the corrected layout and code. For the source's pass the model promises them only on safe programs.
- SourcePass.LineSafe: this also asks a macro call for literals and offsets below 2^40 and a fresh label shorter than 17 characters. A larger literal makes a `copy` immediate the machine cannot take (see the "Runs" line below). A longer label runs into the `NOTH` line's instruction word, as a long user label does.
- Fixpoint.Replace: the source loops without bound. The method takes a `fuel` bound and returns `Err(OutOfFuel)` when the bound is used up. It is proved to finish within two passes for programs that settle, which for the source's pass (`AsWritten`) includes that their lines are safe.
- Stable.PassIdempotent: this requires that no macro call uses an upper-case module name as a label operand (`OperandsOk`). Such an operand would be written back as a command word and expanded again on the next pass.
- Semantics.CopyRuns and every other "Runs" lemma assume these conditions (`Fit`, `Clean`):
  - no operand reads r0, r7 or r8 (`Fit`);
  - an operand copied after an earlier copy of the same call does not read the register that copy wrote (`Clean`, and the requires of each lemma);
  - literals and offsets are below 2^40, so that the high half fits the 24-bit `copy` immediate.

  Outside the first two conditions the code can compute something else. With a larger literal, `Machine.Exec` faults on a `copy` immediate of 2^24 or more. These conditions still admit two kinds of call where the corrected code (`Macros`) and the source's code (`SourceMacros`) differ, and the lemmas describe the corrected code:
  - an ADD-family call whose second operand reads the destination, and the compare jumps built on it. The corrected code reorders the copies. The lines below say what the source does there.
  - an operand that is an offset `r±k` from the very register its own copy writes. The corrected code adds `k` in place; the source's copy leaves the magnitude of k added to or taken from itself (`OffsetAlias.OffsetAliasedAsWrittenRuns`). The lines below that start with each lemma's name give an example.

  On every call that `SourceMacros.Unaliased` accepts, the two codes are equal (`SourceMacros.BuildAgrees`), and the lemmas describe the source.
- Compose.TwoCopiesRuns: this describes the corrected offset copy. When `a` is an offset `d±k` from its own destination `d`, the source's first copy leaves the magnitude of k added to or taken from itself in `d`, not `d ± k`. For example, `ZJUMP r9+1 t` starts with such a copy into r9. It matches the source on `SourceMacros.Unaliased` calls (`SourceMacros.BuildAgrees`).
- ArithSemantics.ArithRuns: this describes the corrected code, and matches the source only on `SourceMacros.Unaliased` calls (`SourceMacros.BuildAgrees`). Besides the reorder below, the source differs on an offset from the copy's own target. `ADD r2+4 r5 r2` leaves `8 + r5` in r2, and `ADD r5 r9+4 r2` leaves `r5 + 8`.
- ArithSemantics.NotRuns: this describes the corrected in-place offset copy, and matches the source only on `SourceMacros.Unaliased` calls (`SourceMacros.BuildAgrees`). As written, `NOT r3+5 r3` with r3 = 0 leaves 0xfffffff5, where this lemma gives 0xfffffffa (`OffsetAlias.NotOffsetAliasExample`).
- MemorySemantics.LoadRuns: this describes the corrected in-place offset copy, and matches the source only on `SourceMacros.Unaliased` calls (`SourceMacros.BuildAgrees`). As written, `LOAD r3+5 r3` with r3 = 0 loads from address 10, not 5.
- MemorySemantics.StoreRuns: this describes the corrected in-place offset copy, and matches the source only on `SourceMacros.Unaliased` calls (`SourceMacros.BuildAgrees`). As written, `STORE r9+4 r2` stores the word 8, whatever r9 holds, and `STORE r2 r10+4` stores at address 8.
- JumpSemantics.JumpThenRuns and JumpRuns: these describe the corrected in-place offset copy, and match the source only on `SourceMacros.Unaliased` calls (`SourceMacros.BuildAgrees`). As written, `JUMP r9+8` goes to 16, whatever r9 holds.
- JumpRuns and JumpThenRuns: see the JumpSemantics line above.
- Conditions.ZJumpMacroRuns: this describes the corrected in-place offset copy, and matches the source only on `SourceMacros.Unaliased` calls (`SourceMacros.BuildAgrees`). As written, `ZJUMP r9+1 t` tests 2, so with r9 = 0xffffffff it does not jump, where this lemma says it does. `ZJUMP c r10+4` goes to 8, whatever r10 holds.
- NegatedJumps.NZJumpRuns: this describes the corrected in-place offset copy, and matches the source only on `SourceMacros.Unaliased` calls (`SourceMacros.BuildAgrees`). As written, `NZJUMP r9+1 t` tests 2 and so always jumps; with r9 = 0xffffffff this lemma says it falls through.
- Conditions.GJumpRuns, GEJumpRuns, LJumpRuns, LEJumpRuns, EJumpRuns and NegatedJumps.NEJumpRuns describe the corrected code, which copies the subtrahend into r9 first when it reads r10. Their requires accept such a call, and there the source computes something else:
  - `GJUMP r10 r2 t` and `LJUMP r2 r10 t` test `r2 - r2`, and so never jump;
  - `GEJUMP r2 r10 t` and `LEJUMP r10 r2 t` also test `r2 - r2`, and so always jump;
  - `EJUMP r2 r10 t` always jumps, and `NEJUMP r2 r10 t` never does;
  - an offset from r10 as the minuend, or from r9 as the subtrahend, is copied into its own target. `GJUMP r9+4 r2 t` and `GEJUMP r10+4 r2 t` compare `r2` with 8, whatever r9 or r10 holds.

  On unaliased calls (`SourceMacros.Unaliased`) the source's code is the corrected code (`SourceMacros.BuildAgrees`), and these lemmas describe the source.
- GJumpRuns, GEJumpRuns, LJumpRuns, LEJumpRuns, EJumpRuns and NEJumpRuns: see the line above. `Conditions.AliasedGreaterRuns` proves the first case over a whole run: the source's `GJUMP r10 r2 t` never jumps.
- Conditions.GJumpRuns, GEJumpRuns, LJumpRuns and LEJumpRuns: the signed comparison holds only when the difference does not overflow, because the source tests the top bit of the 32-bit difference. The lemmas state the top-bit test for every input, and the comparison only under `NoOverflow`. `GJumpOverflowExample` shows an input where the two differ.
- Machine.Exec, MemorySemantics.StoreRuns, LoadRuns, PushRuns, PopRuns, PushPopRuns and LastInFirstOut: memory is a map from address to whole word. The emulator stores four bytes, big-endian, at any byte address (tests/tests.py:428-494), so a store at `a` also changes the words read at `a - 3` to `a + 3`. The model is faithful when every address involved is a multiple of 4. `Apart` and "no other word" mean no other aligned word.
- StoreRuns, PushRuns, PushPopRuns and LastInFirstOut: see the line above; their frame statements hold for 4-aligned addresses.
- MemorySemantics.PopRuns: this requires `d` not to be r1. `POP r1` is covered by `PopStackPointerRuns`: r1 ends as the loaded word plus 4.
- PopRuns: see the line above.
- MemorySemantics.PushRuns: this requires that `a` does not read r1. The source decrements r1 before copying `a`, so `PUSH r1` stores the decremented stack pointer.
- MemorySemantics.LastInFirstOut: this requires that the first pushed word does not land on the second `PUSH`'s own code (`Apart`). A label operand's copy reads its address from a data word in that code, so a push onto it would change what the second `PUSH` stores.
- NegatedJumps.NZJumpRuns and NEJumpRuns: these require the environment to place the fresh label on the macro's last line. That is the assembler's job.

## Findings

| source | as written | input that shows it | evidently intended | confidence | as-written member | corrected member |
|---|---|---|---|---|---|---|
| macros.py:119-127 | `ADD a1 a2 d` copies `a1` into `d` first and then copies `a2` into r9, so an `a2` that reads `d` sees `a1`. GJUMP, GEJUMP, LJUMP, LEJUMP, EJUMP and NEJUMP subtract with this code into r10, so an operand r10 in the subtrahend is lost too | `ADD r1 r2 r2` with r1 = 1 and r2 = 2 leaves 2 in r2; `GJUMP r10 r2 t` tests `r2 - r2` and never jumps | `d := a1 op a2` on the values before the call (here 3); copy `a2` into r9 first when it reads `d` | not executed | ArithSemantics.AliasedAsWrittenRuns, ArithSemantics.AliasedAddExample, SourceMacros.AliasedCompareAsWritten, Conditions.AliasedGreaterRuns | ArithSemantics.ArithRuns, ArithSemantics.AliasedAddFixed, Conditions.GJumpRuns |
| macros.py:212-217 | `COPY b±k d` copies `|k|` into `d`, then adds `b`; when `b` is `d` the base is already overwritten. Every macro that copies an operand inherits this: NOT, LOAD, STORE, JUMP, the ADD family and the conditional jumps (`NOT r3+5 r3`, `LOAD r3+5 r3`, `JUMP r9+8`, `ZJUMP r9+1 t`) | `COPY r3 + 5 r3` with r3 = 0 leaves 10 in r3; `NOT r3+5 r3` with r3 = 0 leaves 0xfffffff5 | `d := b ± k` (here 5); add `|k|` to `d` in place when `b` is `d` | not executed | OffsetAlias.OffsetAliasedAsWrittenRuns, OffsetAlias.OffsetAliasExample, OffsetAlias.NotOffsetAliasedRuns, OffsetAlias.NotOffsetAliasExample | Semantics.CopyOffsetRuns, OffsetAlias.OffsetAliasFixed, ArithSemantics.NotRuns |
| macros.py:100-103 | `label.ljust(18)` and `str(e).ljust(18)` add no space after a field of 18 or more characters, so it merges with the next field | `abcdefghijklmnopq: add r1 r2 r3` is written as `abcdefghijklmnopq:add     r1 ...`; the next pass reads `r1` as the instruction, and the fifth finds none left, so `replace` raises `IndexError` | at least one space after every field, so the line reads back as the same tokens | not executed | Layout.LongLabelGluedAsWritten, Layout.LongLabelExample, SourcePass.GluedLinePass, Fixpoint.LongLabelNeverSettles | Layout.RenderRoundTrip, Layout.RenderInjective, Stable.PassIdempotent |
