/**
 Why `replace` stops. Every line a pass writes is one the next pass writes
 back unchanged: a primitive instruction, a data word naming a label, or a
 label on a `NOTH` line, all in the column layout and none a macro call. So
 the second pass over a first pass's output is the identity, provided no
 macro call used an upper-case module name (`ADD`, `WORD_LEN`, ...) as a
 label operand: `COPY` writes such a label as a line of its own, which the
 next pass would then take for a call.
 */
module Stable {
  import opened Wrappers
  import opened Layout
  import opened Lines
  import Machine
  import Operands
  import Macros
  import Labels
  import Text
  import opened Rewriter

  /** A line the rewriter writes back as it is: its own tokens re-rendered, not a call. */
  predicate StableText(t: string) {
    var toks := Split(t);
    && |toks| >= 1
    && var (lab, rest) := Fields(toks);
    && |rest| >= 1 && !IsCommand(rest[0]) && t == Render(lab, rest)
  }

  /** A stable line passes through unchanged and takes no label. */
  lemma StableLineKept(t: string, ls: LabelState)
    requires StableText(t)
    ensures PassLine(t, ls) == Ok(([t], ls))
  {
  }

  /** Every upper-case module name starts with an upper-case letter. */
  lemma CommandsStartUpper(s: string)
    ensures IsCommand(s) ==> |s| >= 1 && 'A' <= s[0] <= 'Z'
  {
    if Macros.Lookup(s).Some? {
      var m := Macros.Lookup(s).value;
      Macros.LookupOnlyName(s, m);
      match m {
        case Arith(op) =>
          match op {
            case Add =>
            case Sub =>
            case Mult =>
            case Div =>
            case And =>
            case Or =>
          }
        case _ =>
      }
    }
  }

  lemma ValidNoNewline(t: string)
    requires ValidToken(t)
    ensures NoNewline(t) && !IsSpace(t[|t| - 1])
  {
    forall i | 0 <= i < |t|
      ensures t[i] != '\n'
    {
      assert !IsSpace(t[i]);
    }
  }

  lemma PadNoNewline(s: string, w: nat, b: bool)
    requires NoNewline(s)
    ensures NoNewline(Pad(s, w, b))
  {
    var r := Pad(s, w, b);
    forall i | 0 <= i < |r|
      ensures r[i] != '\n'
    {
      if i < |s| {
        assert r[i] == r[..|s|][i] == s[i];
        assert s[i] in s;
      }
    }
  }

  /** The token columns hold no newline and end in the last token's last character. */
  lemma {:induction false} ColumnsEnd(ts: seq<string>, w: nat, b: bool)
    requires |ts| >= 1 && ValidTokens(ts)
    ensures var c, l := Columns(ts, w, b), ts[|ts| - 1];
            NoNewline(c) && |c| >= 1 && c[|c| - 1] == l[|l| - 1]
    decreases |ts|
  {
    ValidNoNewline(ts[0]);
    if |ts| > 1 {
      assert ValidTokens(ts[1..]) by {
        forall i | 0 <= i < |ts| - 1 ensures ValidToken(ts[1..][i]) {
          assert ts[1..][i] == ts[i + 1];
        }
      }
      ColumnsEnd(ts[1..], SECT_LEN, b);
      PadNoNewline(ts[0], w, b);
    }
  }

  /** A rendered line is one line of text ending in a character that is not a separator. */
  lemma RenderEnd(lab: string, toks: seq<string>)
    requires lab == "" || ValidToken(lab)
    requires |toks| >= 1 && ValidTokens(toks)
    ensures var t := Render(lab, toks);
            NoNewline(t) && |t| >= 1 && !IsSpace(t[|t| - 1])
  {
    ColumnsEnd(toks, FUNC_LEN, true);
    ValidNoNewline(toks[|toks| - 1]);
    if lab != "" {
      ValidNoNewline(lab);
    }
    PadNoNewline(lab, SECT_LEN, true);
  }

  /** A label token, or no label. */
  predicate GoodLab(s: string) {
    s == "" || (ValidToken(s) && ':' in s)
  }

  /**
   The line `lab` + `toks` is stable when the label is read back as the label,
   the first token as the instruction, and that is not an upper-case name.
   */
  lemma RenderStable(lab: string, toks: seq<string>)
    requires GoodLab(lab)
    requires |toks| >= 1 && ValidTokens(toks)
    requires lab == "" ==> ':' !in toks[0]
    requires !IsCommand(toks[0])
    ensures StableText(Render(lab, toks))
  {
    RenderRoundTrip(lab, toks);
    var lt := LineTokens(lab, toks);
    if lab == "" {
      assert lt == toks;
    } else {
      assert lt[0] == lab && lt[1..] == toks;
    }
  }

  /** A label name a generated line may carry as data: one token, no colon, not an upper-case name. */
  predicate GoodName(s: string) {
    ValidToken(s) && ':' !in s && !IsCommand(s)
  }

  predicate GoodOperand(a: Operands.Operand) {
    a.Label? ==> GoodName(a.name)
  }

  /** A generated line whose label and data word are well formed. */
  predicate GoodLine(l: Machine.Line) {
    GoodLab(l.lab) && (l.body.Data? ==> GoodName(l.body.name))
  }

  predicate GoodCode(code: seq<Machine.Line>) {
    forall l :: l in code ==> GoodLine(l)
  }

  /** A well-formed generated line is written stably. */
  lemma LineStable(l: Machine.Line)
    requires GoodLine(l)
    ensures StableText(LineText(l))
  {
    var toks := Machine.BodyTokens(l.body);
    match l.body {
      case Instr(p) =>
        PrimTokensShape(p);
        CommandsStartUpper(toks[0]);
      case Data(name) =>
    }
    RenderStable(l.lab, toks);
  }

  /** A label name followed by a colon is a label token. */
  lemma LabelToken(name: string)
    requires ValidToken(name)
    ensures GoodLab(name + ":")
  {
    var s := name + ":";
    assert s[|s| - 1] == ':';
    assert forall i :: 0 <= i < |name| ==> s[i] == name[i];
  }

  /** The names `new_label` hands out are good label names. */
  lemma UniqueNameGood(k: nat)
    ensures GoodName(Labels.UniqueName(k))
  {
    var s := Labels.UniqueName(k);
    assert forall i :: 8 <= i < |s| ==> s[i] == Text.Dec(k)[i - 8];
    WordToken(s);
    CommandsStartUpper(s);
  }

  lemma CopyLabelGood(name: string, d: Machine.Reg)
    requires GoodName(name)
    ensures GoodCode(Macros.CopyLabelCode(name, d))
  {
  }

  lemma CopyOffsetGood(b: Machine.Reg, k: int, d: Machine.Reg)
    ensures GoodCode(Macros.CopyOffsetCode(b, k, d))
  {
  }

  lemma CopyGood(a: Operands.Operand, d: Machine.Reg)
    requires GoodOperand(a)
    ensures GoodCode(Macros.CopyCode(a, d))
  {
    hide Macros.CopyLabelCode, Macros.CopyOffsetCode;
    match a {
      case Reg(r) =>
      case Nat(v) =>
      case RegOff(b, k) => CopyOffsetGood(b, k, d);
      case Label(name) => CopyLabelGood(name, d);
    }
  }

  lemma ArithGood(op: Machine.AluOp, a1: Operands.Operand, a2: Operands.Operand, d: Machine.Reg)
    requires GoodOperand(a1) && GoodOperand(a2)
    ensures GoodCode(Macros.ArithCode(op, a1, a2, d))
  {
    hide Macros.CopyCode;
    CopyGood(a1, d);
    CopyGood(a2, Machine.WS2);
  }

  lemma JumpGood(t: Operands.Operand)
    requires GoodOperand(t)
    ensures GoodCode(Macros.JumpCode(t))
  {
    hide Macros.CopyCode;
    CopyGood(t, Machine.WS2);
    CopyGood(Operands.Nat(0), Machine.WS0);
  }

  /** The tail of the negated jumps: the fresh label's address, the jump over, the labelled `NOTH`. */
  lemma NegatedGood(c: Machine.Reg, name: string, t: Operands.Operand, c2: Machine.Reg)
    requires GoodName(name) && GoodOperand(t)
    ensures GoodCode(Macros.CopyCode(Operands.Label(name), c) + [Macros.Plain(Machine.ZJump(c2, c))]
                     + Macros.CopyCode(t, c2) + Macros.JumpCode(Operands.Reg(c2))
                     + [Macros.LabelledNoth(name)])
  {
    hide Macros.CopyCode, Macros.JumpCode;
    CopyGood(Operands.Label(name), c);
    CopyGood(t, c2);
    JumpGood(Operands.Reg(c2));
    LabelToken(name);
  }

  /** Every line of a well-formed call's code is well formed, when its label operands are. */
  lemma BuildGood(m: Macros.Macro, args: seq<Option<Operands.Operand>>, name: string)
    requires Macros.WellFormed(m, args)
    requires forall i :: 0 <= i < |args| ==> GoodOperand(args[i].value)
    requires Macros.NeedsLabel(m) ==> GoodName(name)
    ensures GoodCode(Macros.Build(m, args, name))
  {
    hide Macros.CopyCode, Macros.ArithCode, Macros.JumpCode;
    var a := seq(|args|, i requires 0 <= i < |args| => args[i].value);
    assert forall i :: 0 <= i < |a| ==> GoodOperand(a[i]);
    var one := Operands.Nat(1);
    var ws3 := Operands.Reg(Machine.WS3);
    var word := Operands.Nat(Machine.WORD_LEN);
    var sp := Operands.Reg(Machine.STACK_PTR);
    match m {
      case Noth =>
      case Arith(op) =>
        ArithGood(op, a[0], a[1], a[2].r);
      case Not =>
        CopyGood(a[0], a[1].r);
        ArithGood(Machine.Mult, Operands.Reg(a[1].r), Operands.Nat(Macros.ALL_ONES), a[1].r);
        ArithGood(Machine.Sub, Operands.Reg(a[1].r), one, a[1].r);
      case Jump =>
        JumpGood(a[0]);
      case GJump =>
        ArithGood(Machine.Sub, a[1], a[0], Machine.WS3);
        ArithGood(Machine.Div, ws3, Operands.Nat(Macros.SIGN_DIVISOR), Machine.WS3);
        ArithGood(Machine.Sub, ws3, one, Machine.WS3);
        CopyGood(a[2], Machine.WS2);
      case GEJump =>
        ArithGood(Machine.Sub, a[0], a[1], Machine.WS3);
        ArithGood(Machine.Div, ws3, Operands.Nat(Macros.SIGN_DIVISOR), Machine.WS3);
        CopyGood(a[2], Machine.WS2);
      case LJump =>
        ArithGood(Machine.Sub, a[0], a[1], Machine.WS3);
        ArithGood(Machine.Div, ws3, Operands.Nat(Macros.SIGN_DIVISOR), Machine.WS3);
        ArithGood(Machine.Sub, ws3, one, Machine.WS3);
        CopyGood(a[2], Machine.WS2);
      case LEJump =>
        ArithGood(Machine.Sub, a[1], a[0], Machine.WS3);
        ArithGood(Machine.Div, ws3, Operands.Nat(Macros.SIGN_DIVISOR), Machine.WS3);
        CopyGood(a[2], Machine.WS2);
      case ZJump =>
        CopyGood(a[0], Machine.WS2);
        CopyGood(a[1], Machine.WS3);
      case NZJump =>
        CopyGood(a[0], Machine.WS2);
        NegatedGood(Machine.WS3, name, a[1], Machine.WS2);
      case EJump =>
        ArithGood(Machine.Sub, a[0], a[1], Machine.WS3);
        CopyGood(a[2], Machine.WS2);
      case NEJump =>
        ArithGood(Machine.Sub, a[0], a[1], Machine.WS3);
        NegatedGood(Machine.WS2, name, a[2], Machine.WS3);
      case Copy =>
        CopyGood(a[0], a[1].r);
      case Load =>
        CopyGood(a[0], a[1].r);
      case Store =>
        CopyGood(a[0], Machine.WS2);
        CopyGood(a[1], Machine.WS3);
      case Push =>
        ArithGood(Machine.Sub, sp, word, Machine.STACK_PTR);
        CopyGood(a[0], Machine.WS2);
        CopyGood(sp, Machine.WS3);
      case Pop =>
        CopyGood(sp, a[0].r);
        ArithGood(Machine.Add, sp, word, Machine.STACK_PTR);
    }
  }

  /** The parser only produces label operands from runs of word characters. */
  lemma {:induction false} ParsedLabels(toks: seq<string>)
    ensures forall o :: o in Operands.ParseArgs(toks) && o.Some? && o.value.Label? ==>
              |o.value.name| >= 1 && Text.AllWordChars(o.value.name)
    decreases |toks|
  {
    if toks != [] {
      if |toks| >= 3 && (toks[1] == "+" || toks[1] == "-") {
        ParsedLabels(toks[3..]);
      } else {
        ParsedLabels(toks[1..]);
      }
    }
  }

  /** A macro call on this line uses no upper-case module name as a label operand. */
  predicate CallOperandsOk(e: string) {
    var toks := Split(e);
    toks != [] && Fields(toks).1 != [] && Macros.Lookup(Fields(toks).1[0]).Some? ==>
      forall o :: o in Operands.ParseArgs(Fields(toks).1[1..]) && o.Some? && o.value.Label? ==>
        !IsCommand(o.value.name)
  }

  predicate OperandsOk(asm: string) {
    forall e :: e in Entries(asm) ==> CallOperandsOk(e)
  }

  /** The `NOTH` line a call becomes is stable. */
  lemma NothStable(lab: string)
    requires GoodLab(lab)
    ensures StableText(NothText(lab))
  {
    NothTokens();
    PrimTokensShape(Macros.NOTH_PRIM);
    CommandsStartUpper("and");
    RenderStable(lab, ["and", "r1", "r1", "r1"]);
  }

  /** Every line a stably expanded call writes is stable. */
  lemma CodeStable(code: seq<Machine.Line>)
    requires GoodCode(code)
    ensures forall t :: t in Texts(code) ==> StableText(t)
  {
    forall t | t in Texts(code)
      ensures StableText(t)
    {
      var i :| 0 <= i < |code| && Texts(code)[i] == t;
      assert code[i] in code;
      LineStable(code[i]);
    }
  }

  /** The code a well-formed call writes is well formed, when the call names no upper-case module as a label. */
  lemma CallCodeGood(e: string, ls: LabelState, m: Macros.Macro)
    requires CallOperandsOk(e)
    requires var toks := Split(e); |toks| >= 1 && |Fields(toks).1| >= 1
    requires Macros.Lookup(Fields(Split(e)).1[0]) == Some(m)
    requires Macros.WellFormed(m, Operands.ParseArgs(Fields(Split(e)).1[1..]))
    ensures GoodCode(Macros.Build(m, Operands.ParseArgs(Fields(Split(e)).1[1..]), CallLabel(m, ls)))
  {
    var rest := Fields(Split(e)).1;
    var args := Operands.ParseArgs(rest[1..]);
    ParsedLabels(rest[1..]);
    forall i | 0 <= i < |args|
      ensures GoodOperand(args[i].value)
    {
      assert args[i] in args;
      if args[i].value.Label? {
        WordToken(args[i].value.name);
      }
    }
    var (name, ls') := Labels.NewLabel(ls);
    UniqueNameGood(ls'.count);
    BuildGood(m, args, CallLabel(m, ls));
  }

  /** Every line one line of the program becomes is stable. */
  lemma PassLineStable(e: string, ls: LabelState)
    requires CallOperandsOk(e) && PassLine(e, ls).Ok?
    ensures forall t :: t in PassLine(e, ls).value.0 ==> StableText(t)
  {
    var toks := Split(e);
    var (lab, rest) := Fields(toks);
    assert ValidTokens(rest) by {
      if lab != "" {
        assert forall i :: 0 <= i < |rest| ==> rest[i] == toks[i + 1];
      }
    }
    assert GoodLab(lab);
    if Macros.Lookup(rest[0]).None? {
      RenderStable(lab, rest);
    } else {
      var m := Macros.Lookup(rest[0]).value;
      Macros.LookupOnlyName(rest[0], m);
      MacroLineExpanded(e, ls, m);
      var args := Operands.ParseArgs(rest[1..]);
      CallCodeGood(e, ls, m);
      CodeStable(Macros.Build(m, args, CallLabel(m, ls)));
      NothStable(lab);
      var out := PassLine(e, ls).value.0;
      assert out == [out[0]] + out[1..];
    }
  }

  /** Stable lines pass through unchanged, all of them, in order. */
  lemma {:induction false} StableLinesKept(ts: seq<string>, ls: LabelState)
    requires forall t :: t in ts ==> StableText(t)
    ensures PassLines(ts, ls) == Ok((ts, ls))
    decreases |ts|
  {
    if ts != [] {
      assert ts[0] in ts;
      StableLineKept(ts[0], ls);
      assert forall t :: t in ts[1..] ==> t in ts;
      StableLinesKept(ts[1..], ls);
      assert [ts[0]] + ts[1..] == ts;
    }
  }

  /** A stable line is one line of text, ending in a character that is not a separator. */
  lemma StableEnd(t: string)
    requires StableText(t)
    ensures NoNewline(t) && |t| >= 1 && !IsSpace(t[|t| - 1])
  {
    var toks := Split(t);
    var (lab, rest) := Fields(toks);
    assert ValidTokens(rest) by {
      if lab != "" {
        assert forall i :: 0 <= i < |rest| ==> rest[i] == toks[i + 1];
      }
    }
    RenderEnd(lab, rest);
  }

  lemma NewlineIsSpace()
    ensures forall i :: 0 <= i < |"\n"| ==> IsSpace("\n"[i])
  {
  }

  lemma OutputCons(ts: seq<string>)
    requires |ts| >= 1
    ensures Output(ts) == ts[0] + ("\n" + Output(ts[1..]))
  {
  }

  /** The indentation of a stable line comes off and leaves a line with the same tokens and end. */
  lemma StripFirst(t: string)
    requires StableText(t)
    ensures var f := StripLeft(t);
            && f != [] && NoNewline(f) && !IsSpace(f[|f| - 1])
            && Split(f) == Split(t)
  {
    hide StableText, Split, Render, IsSpace;
    StableEnd(t);
    var f := StripLeft(t);
    assert f != [] by {
      assert !IsSpace(t[|t| - 1]);
    }
    assert f[|f| - 1] == t[|t| - |f|..][|f| - 1] == t[|t| - 1];
    forall c | c in f ensures c in t {
      var i :| 0 <= i < |f| && f[i] == c;
      assert t[|t| - |f| + i] == c;
    }
    SplitStripLeft(t);
  }

  /** Stripping lines whose first has something besides indentation and whose last ends in a non-separator. */
  lemma StripOutput(ts: seq<string>, ts': seq<string>, last: string)
    requires |ts| >= 1 && StripLeft(ts[0]) != [] && ts' == [StripLeft(ts[0])] + ts[1..]
    requires last == ts'[|ts'| - 1] && last != [] && !IsSpace(last[|last| - 1])
    ensures Strip(Output(ts)) == JoinLines(ts')
  {
    hide Split, Render, PassLine, PassLines, SplitLines, NonBlank, JoinLines, StripRight;
    hide StripLeft, IsSpace, Output;
    var first := StripLeft(ts[0]);
    var rest := "\n" + Output(ts[1..]);
    OutputCons(ts);
    StripLeftAppend(ts[0], rest);
    OutputCons(ts');
    assert ts'[0] == first && ts'[1..] == ts[1..];
    OutputIsJoin(ts');
    JoinLast(ts');
    NewlineIsSpace();
    StripRightEnd(JoinLines(ts'), "\n");
  }

  /** The lines of stable text with the first line's indentation removed, and the last of them. */
  lemma StrippedLast(ts: seq<string>) returns (ts': seq<string>, last: string)
    requires |ts| >= 1 && forall i :: 0 <= i < |ts| ==> StableText(ts[i])
    ensures ts' == [StripLeft(ts[0])] + ts[1..] && |ts'| == |ts| && ts'[0] != []
    ensures last == ts'[|ts'| - 1] && last != [] && !IsSpace(last[|last| - 1])
  {
    hide StableText, Split, Render, IsSpace, StripLeft;
    ts' := [StripLeft(ts[0])] + ts[1..];
    last := ts'[|ts| - 1];
    StripFirst(ts[0]);
    if |ts| > 1 {
      StableEnd(ts[|ts| - 1]);
      assert last == ts[|ts| - 1];
    }
  }

  /** The lines of the text of stable lines are those lines, the first without its indentation. */
  lemma StripStable(ts: seq<string>)
    requires |ts| >= 1 && forall i :: 0 <= i < |ts| ==> StableText(ts[i])
    ensures Entries(Output(ts)) == [StripLeft(ts[0])] + ts[1..]
  {
    hide StableText, Split, Render, PassLine, PassLines, JoinLines, StripRight, StripLeft, IsSpace, Output;
    hide NonBlank, SplitLines, Strip, Entries;
    var ts', last := StrippedLast(ts);
    StripOutput(ts, ts', last);
    StrippedClean(ts, ts');
    EntriesOfJoin(Output(ts), ts');
  }

  lemma StrippedClean(ts: seq<string>, ts': seq<string>)
    requires |ts| >= 1 && forall i :: 0 <= i < |ts| ==> StableText(ts[i])
    requires ts' == [StripLeft(ts[0])] + ts[1..]
    ensures forall i :: 0 <= i < |ts'| ==> NoNewline(ts'[i]) && ts'[i] != ""
  {
    hide StableText, Split, Render, IsSpace, StripLeft;
    forall i | 0 <= i < |ts'|
      ensures NoNewline(ts'[i]) && ts'[i] != ""
    {
      if i > 0 {
        assert ts'[i] == ts[i];
        StableEnd(ts[i]);
      } else {
        StripFirst(ts[0]);
      }
    }
  }

  /** A text that strips to non-empty pieces without newlines, joined, has those pieces as its lines. */
  lemma EntriesOfJoin(x: string, ps: seq<string>)
    requires |ps| >= 1 && Strip(x) == JoinLines(ps)
    requires forall i :: 0 <= i < |ps| ==> NoNewline(ps[i]) && ps[i] != ""
    ensures Entries(x) == ps
  {
    SplitJoin(ps);
    NonBlankKeeps(ps);
  }

  /** An empty program passes to an empty program. */
  lemma EmptyPass(ls: LabelState)
    ensures Pass("", ls) == Ok(("", ls))
  {
    assert Strip("") == "";
    assert SplitLines("") == [""];
    assert Entries("") == [];
  }

  /** A line's pass depends only on its tokens. */
  lemma SameTokensSamePass(e1: string, e2: string, ls: LabelState)
    requires Split(e1) == Split(e2)
    ensures PassLine(e1, ls) == PassLine(e2, ls)
  {
  }

  /** The stripped lines of stable text pass to the stable lines themselves. */
  lemma StrippedPass(ts: seq<string>, ls: LabelState)
    requires |ts| >= 1 && forall t :: t in ts ==> StableText(t)
    ensures PassLines([StripLeft(ts[0])] + ts[1..], ls) == Ok((ts, ls))
  {
    hide StableText, Render, StripLeft, Split, PassLine, IsSpace;
    var first := StripLeft(ts[0]);
    assert ts[0] in ts;
    StripFirst(ts[0]);
    StableLineKept(ts[0], ls);
    SameTokensSamePass(first, ts[0], ls);
    assert ([first] + ts[1..])[0] == first;
    assert ([first] + ts[1..])[1..] == ts[1..];
    assert forall t :: t in ts[1..] ==> t in ts;
    StableLinesKept(ts[1..], ls);
    assert [ts[0]] + ts[1..] == ts;
  }

  /** The text of stable lines is a fixed point of the pass, and the label state stays as it is. */
  lemma StableOutputFixed(ts: seq<string>, ls: LabelState)
    requires forall t :: t in ts ==> StableText(t)
    ensures Pass(Output(ts), ls) == Ok((Output(ts), ls))
  {
    if ts == [] {
      EmptyPass(ls);
    } else {
      hide StableText, Render, SplitLines, NonBlank, JoinLines, StripRight, StripLeft;
      hide Split, PassLine, PassLines, IsSpace, Output, Entries;
      StripStable(ts);
      StrippedPass(ts, ls);
    }
  }

  /** Every line a pass writes is stable. */
  lemma {:induction false} PassLinesStable(es: seq<string>, ls: LabelState)
    requires forall e :: e in es ==> CallOperandsOk(e)
    requires PassLines(es, ls).Ok?
    ensures forall t :: t in PassLines(es, ls).value.0 ==> StableText(t)
    decreases |es|
  {
    if es != [] {
      assert es[0] in es;
      PassLineStable(es[0], ls);
      var ls1 := PassLine(es[0], ls).value.1;
      assert forall e :: e in es[1..] ==> e in es;
      PassLinesStable(es[1..], ls1);
    }
  }

  /**
   `replace_` is idempotent: a second pass over a pass's output writes the same
   text and takes no label. So `replace` stops after at most two passes.
   */
  lemma PassIdempotent(asm: string, ls: LabelState)
    requires OperandsOk(asm) && Pass(asm, ls).Ok?
    ensures var (out, ls') := Pass(asm, ls).value;
            Pass(out, ls') == Ok((out, ls'))
  {
    hide Render, Split;
    PassLinesStable(Entries(asm), ls);
    StableOutputFixed(PassLines(Entries(asm), ls).value.0, PassLines(Entries(asm), ls).value.1);
  }
}
