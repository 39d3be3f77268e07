/**
 What the expansions do when run. Each lemma runs a macro's code on the
 machine of module Machine from an arbitrary state and states the registers,
 memory and program counter it leaves behind.

 Conventions the lemmas assume, as the library's users must: operands do not
 name the program counter r0 or the scratch registers r7..r10, a literal
 operand is below 2^40 (its high half must fit the 24-bit immediate field of
 `copy`), and a label's data word holds the label's address (the assembler's
 part, which is not modelled).
 */
module Semantics {
  import opened Wrappers
  import opened Machine
  import Operands
  import Macros
  import Bits

  /** The literals `COPY` can materialise: the high half must fit the `copy` immediate field. */
  const LITERAL_LIMIT: nat := 0x100_0000_0000

  // ---------------------------------------------------------------------------
  // Word arithmetic

  lemma ModShift(x: int, k: int)
    ensures (x + k * MODULUS) % MODULUS == x % MODULUS
  {
    var q, r := x / MODULUS, x % MODULUS;
    assert x + k * MODULUS == (q + k) * MODULUS + r;
    Bits.DivModUnique(x + k * MODULUS, MODULUS, q + k, r);
  }

  /** Reducing an addend first does not change a sum modulo 2^32. */
  lemma AddMod(a: int, b: int)
    ensures (a + b % MODULUS) % MODULUS == (a + b) % MODULUS
    ensures (a - b % MODULUS) % MODULUS == (a - b) % MODULUS
  {
    var q := b / MODULUS;
    assert b == q * MODULUS + b % MODULUS;
    ModShift(a + b % MODULUS, q);
    assert a + b % MODULUS + q * MODULUS == a + b;
    ModShift(a - b % MODULUS, -q);
    assert a - b % MODULUS + (-q) * MODULUS == a - b;
  }

  lemma AdvanceAdd(pc: Word, m: nat, n: nat)
    ensures Advance(Advance(pc, m), n) == Advance(pc, m + n)
  {
    AddMod(WORD_LEN * n, pc + WORD_LEN * m);
  }

  // ---------------------------------------------------------------------------
  // Running code line by line

  /** An instruction that writes a register other than the program counter and cannot fault on `st`. */
  predicate Writes(p: Prim, st: State) {
    && (p.Alu? || p.Copy? || p.Load?)
    && Target(p) != Some(PC)
    && (p.Alu? && p.op == Div ==> st.regs[p.b] != 0)
    && (p.Copy? ==> p.imm < IMM_LIMIT)
  }

  /** The value such an instruction writes. */
  function Written(p: Prim, st: State): Word
    requires Writes(p, st)
  {
    match p
    case Alu(op, a, b, _) => AluValue(op, st.regs[a], st.regs[b])
    case Copy(imm, _, _) => imm
    case Load(a, _) => Read(st.mem, st.regs[a])
  }

  /** `p` writes its register on `st` and leaves `st'`. */
  predicate Moves(p: Prim, st: State, st': State) {
    Writes(p, st) && st' == Put(st, Target(p).value, Written(p, st))
  }

  /** One register-writing instruction; the program counter is tracked as `n` words past `pc0`. */
  lemma Move(p: Prim, st: State, pc0: Word, n: nat) returns (st': State)
    requires Writes(p, st) && st.regs[PC] == Advance(pc0, n)
    ensures Moves(p, st, st')
    ensures st'.regs[Target(p).value] == Written(p, st)
    ensures st'.regs[PC] == Advance(pc0, n + 1)
  {
    st' := Put(st, Target(p).value, Written(p, st));
    AdvanceAdd(pc0, n, 1);
  }

  /** `states` are the states a block of register-writing instructions passes through. */
  predicate Trace(code: seq<Line>, states: seq<State>) {
    && |states| == |code| + 1
    && forall i :: 0 <= i < |code| ==> code[i].body.Instr? && Moves(code[i].body.p, states[i], states[i + 1])
  }

  /** A block of register-writing instructions runs to its end, through the states of its trace. */
  lemma {:induction false} RunTrace(code: seq<Line>, states: seq<State>)
    requires Trace(code, states)
    ensures Run(code, states[0]) == Done(states[|code|])
    decreases |code|
  {
    if code != [] {
      var p := code[0].body.p;
      assert Moves(p, states[0], states[1]);
      assert Exec(p, states[0]) == Some(states[1]);
      RunStep(code, states[0]);
      assert Trace(code[1..], states[1..]) by {
        forall i | 0 <= i < |code| - 1
          ensures code[1..][i].body.Instr? && Moves(code[1..][i].body.p, states[1..][i], states[1..][i + 1])
        {
          assert code[1..][i] == code[i + 1];
        }
      }
      RunTrace(code[1..], states[1..]);
    }
  }

  lemma AdvanceZero(pc: Word)
    ensures Advance(pc, 0) == pc
  {
  }

  /** `st'` agrees with `st` on memory and on every register but the program counter and `clobber`. */
  predicate Keeps(st: State, st': State, clobber: set<Reg>) {
    st'.mem == st.mem && forall q: Reg :: q != PC && q !in clobber ==> st'.regs[q] == st.regs[q]
  }

  /** The addresses the assembler gives the labels of the program. */
  type Env = map<string, Word>

  /**
   The assembler's part: every data line of `code`, placed from address `base`
   on, holds the address of the label it names.
   */
  predicate Loaded(code: seq<Line>, mem: map<Word, Word>, base: Word, env: Env)
    decreases |code|
  {
    code != [] ==>
      && (code[0].body.Data? ==> code[0].body.name in env && Read(mem, base) == env[code[0].body.name])
      && Loaded(code[1..], mem, Advance(base, 1), env)
  }

  /** The data word on line `i` of a loaded block holds its label's address. */
  lemma {:induction false} LoadedAt(code: seq<Line>, mem: map<Word, Word>, base: Word, env: Env, i: nat)
    requires Loaded(code, mem, base, env) && i < |code| && code[i].body.Data?
    ensures code[i].body.name in env && Read(mem, Advance(base, i)) == env[code[i].body.name]
    decreases i
  {
    if i == 0 {
      AdvanceZero(base);
    } else {
      assert code[1..][i - 1] == code[i];
      LoadedAt(code[1..], mem, Advance(base, 1), env, i - 1);
      AdvanceAdd(base, 1, i - 1);
    }
  }

  /** The operands whose value is known: every label is in `env`. */
  predicate Known(a: Operands.Operand, env: Env) {
    a.Label? ==> a.name in env
  }

  /** The value an operand stands for. */
  function Val(a: Operands.Operand, st: State, env: Env): Word
    requires Known(a, env)
  {
    match a
    case Reg(r) => st.regs[r]
    case Nat(v) => v % MODULUS
    case RegOff(b, k) => (st.regs[b] + k) % MODULUS
    case Label(name) => env[name]
  }

  /**
   The operands the expansions handle faithfully: literals and offsets below
   2^40, and no reading of the program counter or of the copy scratch registers.
   */
  predicate Fit(a: Operands.Operand) {
    && (a.Nat? ==> a.v < LITERAL_LIMIT)
    && (a.RegOff? ==> Macros.Magnitude(a.k) < LITERAL_LIMIT)
    && !Macros.Reads(a, PC) && !Macros.Reads(a, WS0) && !Macros.Reads(a, WS1)
  }

  /** The data lines of two consecutive blocks: each block is loaded at its own address. */
  lemma {:induction false} LoadedSplit(a: seq<Line>, b: seq<Line>, mem: map<Word, Word>, base: Word, env: Env)
    requires Loaded(a + b, mem, base, env)
    ensures Loaded(a, mem, base, env)
    ensures Loaded(b, mem, Advance(base, |a|), env)
    decreases |a|
  {
    if a == [] {
      assert a + b == b;
      AdvanceZero(base);
    } else {
      assert (a + b)[0] == a[0];
      assert (a + b)[1..] == a[1..] + b;
      LoadedSplit(a[1..], b, mem, Advance(base, 1), env);
      AdvanceAdd(base, 1, |a| - 1);
    }
  }

  /** An operand's value does not depend on registers it does not read. */
  lemma ValKeeps(a: Operands.Operand, st: State, st': State, clobber: set<Reg>, env: Env)
    requires Known(a, env) && Keeps(st, st', clobber)
    requires a.Reg? ==> a.r != PC && a.r !in clobber
    requires a.RegOff? ==> a.base != PC && a.base !in clobber
    ensures Val(a, st', env) == Val(a, st, env)
  {
  }

  /** The distance from the `m`-th word to the `n`-th word after `pc`. */
  lemma AdvanceDelta(pc: Word, m: nat, n: nat)
    requires m <= n && WORD_LEN * (n - m) < MODULUS
    ensures (Advance(pc, n) - Advance(pc, m)) % MODULUS == WORD_LEN * (n - m)
  {
    var a := Advance(pc, m);
    AdvanceAdd(pc, m, n - m);
    AddMod(-a, a + WORD_LEN * (n - m));
  }

  /** A `zjump` whose condition is zero and whose target is `j` lines on continues there. */
  lemma JumpForward(code: seq<Line>, st: State, j: nat) returns (st': State)
    requires |code| >= 1 && code[0].body.Instr? && code[0].body.p.ZJump?
    requires st.regs[code[0].body.p.c] == 0
    requires 1 <= j <= |code| && WORD_LEN * j < MODULUS
    requires st.regs[code[0].body.p.t] == Advance(st.regs[PC], j)
    ensures st' == st.(regs := st.regs[PC := Advance(st.regs[PC], j)])
    ensures Run(code, st) == Run(code[j..], st')
  {
    var pc := st.regs[PC];
    st' := st.(regs := st.regs[PC := Advance(pc, j)]);
    assert Exec(code[0].body.p, st) == Some(st');
    if j != 1 {
      AdvanceDelta(pc, 1, j);
      assert Advance(pc, j) != Advance(pc, 1);
      AdvanceZero(pc);
      AdvanceDelta(pc, 0, j);
    }
  }

  // ---------------------------------------------------------------------------
  // COPY

  /** The two half-words of a literal: `v & 0xffff` and `v >> 16` put back together give `v`. */
  lemma HalfWordSplit(v: nat)
    ensures Macros.Lsb(v) < Macros.HALF_MODULUS
    ensures Macros.Lsb(v) + Macros.Msb(v) * Macros.HALF_MODULUS == v
    ensures v < LITERAL_LIMIT ==> Macros.Msb(v) < IMM_LIMIT
  {
    Bits.Pow2Values();
    Bits.MaskIsMod(v, 16);
  }

  /** The high half of a literal: `d := d op (v >> 16) * 2^16`, clobbering r7 and r8. */
  lemma HighHalfRuns(op: AluOp, v: nat, d: Reg, st: State, pc0: Word, n: nat) returns (st': State)
    requires op == Add || op == Sub
    requires v < LITERAL_LIMIT && d != PC && d != WS0 && d != WS1
    requires st.regs[PC] == Advance(pc0, n)
    ensures Run(Macros.HighHalfCode(op, v, d), st) == Done(st')
    ensures st'.regs[d] == AluValue(op, st.regs[d], (Macros.Msb(v) * Macros.HALF_MODULUS) % MODULUS)
    ensures st'.regs[PC] == Advance(pc0, n + 4)
    ensures Keeps(st, st', {d, WS0, WS1})
  {
    HalfWordSplit(v);
    var msb := Macros.Msb(v);
    var c := Macros.HighHalfCode(op, v, d);
    var s1 := Move(c[0].body.p, st, pc0, n);
    var s2 := Move(c[1].body.p, s1, pc0, n + 1);
    var s3 := Move(c[2].body.p, s2, pc0, n + 2);
    st' := Move(c[3].body.p, s3, pc0, n + 3);
    RunTrace(c, [st, s1, s2, s3, st']);
    assert s3.regs[d] == st.regs[d] && s3.regs[WS0] == AluValue(Mult, msb, Macros.HALF_MODULUS);
  }

  /** `COPY n d`: five instructions leave `n` modulo 2^32 in `d`, clobbering only r7 and r8. */
  lemma CopyNatRuns(v: nat, d: Reg, st: State) returns (st': State)
    requires v < LITERAL_LIMIT && d != PC && d != WS0 && d != WS1
    ensures Run(Macros.CopyNatCode(v, d), st) == Done(st')
    ensures st'.regs[d] == v % MODULUS
    ensures st'.regs[PC] == Advance(st.regs[PC], 5)
    ensures Keeps(st, st', {d, WS0, WS1})
  {
    HalfWordSplit(v);
    var lsb, msb := Macros.Lsb(v), Macros.Msb(v);
    var pc := st.regs[PC];
    AdvanceZero(pc);
    var first := [Macros.Plain(Copy(lsb, false, d))];
    var s1 := MoveLast(first, st, pc, 0);
    RunAppend(first, Macros.HighHalfCode(Add, v, d), st);
    st' := HighHalfRuns(Add, v, d, s1, pc, 1);
    HalvesValue(lsb, msb, v);
  }

  lemma HalvesValue(lsb: nat, msb: nat, v: nat)
    requires lsb < Macros.HALF_MODULUS && msb < IMM_LIMIT && lsb + msb * Macros.HALF_MODULUS == v
    ensures AluValue(Add, lsb, AluValue(Mult, msb, Macros.HALF_MODULUS)) == v % MODULUS
  {
    AddMod(lsb, msb * Macros.HALF_MODULUS);
  }

  lemma KeepsTrans(s0: State, s1: State, s2: State, a: set<Reg>, b: set<Reg>)
    requires Keeps(s0, s1, a) && Keeps(s1, s2, b)
    ensures Keeps(s0, s2, a + b)
  {
  }

  /** A block of one register-writing line. */
  lemma MoveLast(code: seq<Line>, st: State, pc0: Word, n: nat) returns (st': State)
    requires |code| == 1 && code[0].body.Instr? && Writes(code[0].body.p, st)
    requires st.regs[PC] == Advance(pc0, n)
    ensures Run(code, st) == Done(st')
    ensures st'.regs[Target(code[0].body.p).value] == Written(code[0].body.p, st)
    ensures st'.regs[PC] == Advance(pc0, n + 1)
    ensures Keeps(st, st', {Target(code[0].body.p).value})
  {
    st' := Move(code[0].body.p, st, pc0, n);
    RunTrace(code, [st, st']);
  }

  /** `COPY r d` is `and r r d`. */
  lemma CopyRegRuns(r: Reg, d: Reg, st: State) returns (st': State)
    requires d != PC
    ensures Run(Macros.CopyCode(Operands.Reg(r), d), st) == Done(st')
    ensures st'.regs[d] == st.regs[r]
    ensures st'.regs[PC] == Advance(st.regs[PC], 1)
    ensures Keeps(st, st', {d})
  {
    AdvanceZero(st.regs[PC]);
    st' := MoveLast(Macros.CopyCode(Operands.Reg(r), d), st, st.regs[PC], 0);
    Bits.BitAndSelf(st.regs[r]);
  }

  lemma OffsetValue(x: Word, k: int)
    ensures AluValue(Macros.OffsetOp(k), x, Macros.Magnitude(k) % MODULUS) == (x + k) % MODULUS
  {
    AddMod(x, Macros.Magnitude(k));
  }

  /** `COPY b±k d` as the source writes it runs through: `|k|` into `d`, then `d := b ± d`. */
  lemma CopyOffsetAsWrittenSteps(b: Reg, k: int, d: Reg, st: State) returns (st': State)
    requires Macros.Magnitude(k) < LITERAL_LIMIT
    requires d != PC && d != WS0 && d != WS1 && b != PC && b != WS0 && b != WS1 && b != d
    ensures Run(Macros.CopyOffsetAsWritten(b, k, d), st) == Done(st')
    ensures st'.regs[d] == AluValue(Macros.OffsetOp(k), st.regs[b], Macros.Magnitude(k) % MODULUS)
    ensures st'.regs[PC] == Advance(st.regs[PC], 6)
    ensures Keeps(st, st', {d, WS0, WS1})
  {
    var v := Macros.Magnitude(k);
    var s1 := CopyNatRuns(v, d, st);
    var last := [Macros.Plain(Alu(Macros.OffsetOp(k), b, d, d))];
    RunAppend(Macros.CopyNatCode(v, d), last, st);
    st' := MoveLast(last, s1, st.regs[PC], 5);
  }

  /** `COPY b±k d` as the source writes it is right when `b` is not `d`. */
  lemma CopyOffsetAsWrittenRuns(b: Reg, k: int, d: Reg, st: State) returns (st': State)
    requires Macros.Magnitude(k) < LITERAL_LIMIT
    requires d != PC && d != WS0 && d != WS1 && b != PC && b != WS0 && b != WS1 && b != d
    ensures Run(Macros.CopyOffsetAsWritten(b, k, d), st) == Done(st')
    ensures st'.regs[d] == (st.regs[b] + k) % MODULUS
    ensures st'.regs[PC] == Advance(st.regs[PC], 6)
    ensures Keeps(st, st', {d, WS0, WS1})
  {
    st' := CopyOffsetAsWrittenSteps(b, k, d, st);
    OffsetValue(st.regs[b], k);
  }

  lemma InPlaceValue(x: Word, k: int, lsb: nat, msb: nat)
    requires lsb < Macros.HALF_MODULUS && lsb + msb * Macros.HALF_MODULUS == Macros.Magnitude(k)
    ensures var y := AluValue(Macros.OffsetOp(k), x, lsb);
            AluValue(Macros.OffsetOp(k), y, (msb * Macros.HALF_MODULUS) % MODULUS) == (x + k) % MODULUS
  {
    var h := msb * Macros.HALF_MODULUS;
    if k >= 0 {
      AddMod(x, lsb);
      AddMod(x + lsb, h);
      assert ((x + lsb) % MODULUS + h % MODULUS) % MODULUS == (x + lsb + h % MODULUS) % MODULUS by {
        AddMod(h % MODULUS, x + lsb);
      }
    } else {
      AddMod(x, lsb);
      AddMod(x - lsb, h);
      assert ((x - lsb) % MODULUS - h % MODULUS) % MODULUS == (x - lsb - h % MODULUS) % MODULUS by {
        AddMod(-(h % MODULUS), x - lsb);
      }
    }
  }

  /** The in-place offset runs through: `d` gets the low half, then the high half, of `|k|`. */
  lemma OffsetInPlaceSteps(k: int, d: Reg, st: State) returns (st': State)
    requires Macros.Magnitude(k) < LITERAL_LIMIT
    requires d != PC && d != WS0 && d != WS1
    ensures Run(Macros.OffsetInPlaceCode(k, d), st) == Done(st')
    ensures var v := Macros.Magnitude(k);
            var y := AluValue(Macros.OffsetOp(k), st.regs[d], Macros.Lsb(v));
            st'.regs[d] == AluValue(Macros.OffsetOp(k), y, (Macros.Msb(v) * Macros.HALF_MODULUS) % MODULUS)
    ensures st'.regs[PC] == Advance(st.regs[PC], 6)
    ensures Keeps(st, st', {d, WS0, WS1})
  {
    var v := Macros.Magnitude(k);
    HalfWordSplit(v);
    var pc := st.regs[PC];
    AdvanceZero(pc);
    var low := [Macros.Plain(Copy(Macros.Lsb(v), false, WS1)), Macros.Plain(Alu(Macros.OffsetOp(k), d, WS1, d))];
    var s1 := Move(low[0].body.p, st, pc, 0);
    var s2 := Move(low[1].body.p, s1, pc, 1);
    RunTrace(low, [st, s1, s2]);
    RunAppend(low, Macros.HighHalfCode(Macros.OffsetOp(k), v, d), st);
    st' := HighHalfRuns(Macros.OffsetOp(k), v, d, s2, pc, 2);
  }

  /** The in-place offset: `d := d ± |k|`, one half-word at a time. */
  lemma OffsetInPlaceRuns(k: int, d: Reg, st: State) returns (st': State)
    requires Macros.Magnitude(k) < LITERAL_LIMIT
    requires d != PC && d != WS0 && d != WS1
    ensures Run(Macros.OffsetInPlaceCode(k, d), st) == Done(st')
    ensures st'.regs[d] == (st.regs[d] + k) % MODULUS
    ensures st'.regs[PC] == Advance(st.regs[PC], 6)
    ensures Keeps(st, st', {d, WS0, WS1})
  {
    var v := Macros.Magnitude(k);
    HalfWordSplit(v);
    st' := OffsetInPlaceSteps(k, d, st);
    InPlaceValue(st.regs[d], k, Macros.Lsb(v), Macros.Msb(v));
  }

  /** The first five lines of a label `COPY`: r7 := (r0 & r0) + 0x20 and r8 := r7 + 4. */
  lemma LabelAddressSteps(name: string, d: Reg, st: State) returns (st': State)
    requires d != PC && d != WS0 && d != WS1
    ensures Run(Macros.CopyLabelCode(name, d)[..5], st) == Done(st')
    ensures st'.regs[WS0] == AluValue(Add, AluValue(And, st.regs[PC], st.regs[PC]), 0x20)
    ensures st'.regs[WS1] == AluValue(Add, st'.regs[WS0], 4)
    ensures st'.regs[PC] == Advance(st.regs[PC], 5)
    ensures Keeps(st, st', {d, WS0, WS1})
  {
    var pc := st.regs[PC];
    AdvanceZero(pc);
    var c := Macros.CopyLabelCode(name, d)[..5];
    var s1 := Move(Alu(And, PC, PC, d), st, pc, 0);
    var s2 := Move(Copy(0x20, true, WS0), s1, pc, 1);
    var s3 := Move(Copy(0x4, true, WS1), s2, pc, 2);
    var s4 := Move(Alu(Add, d, WS0, WS0), s3, pc, 3);
    st' := Move(Alu(Add, WS0, WS1, WS1), s4, pc, 4);
    RunTrace(c, [st, s1, s2, s3, s4, st']);
  }

  lemma LabelPointerValue(pc: Word)
    ensures AluValue(Add, AluValue(And, pc, pc), 0x20) == Advance(pc, 8)
    ensures AluValue(Add, Advance(pc, 8), 4) == Advance(pc, 9)
  {
    Bits.BitAndSelf(pc);
    AdvanceAdd(pc, 8, 1);
  }

  /** The first five lines of a label `COPY` leave in r7 and r8 the addresses eight and nine words on. */
  lemma LabelAddressRuns(name: string, d: Reg, st: State) returns (st': State)
    requires d != PC && d != WS0 && d != WS1
    ensures Run(Macros.CopyLabelCode(name, d)[..5], st) == Done(st')
    ensures st'.regs[WS0] == Advance(st.regs[PC], 8) && st'.regs[WS1] == Advance(st.regs[PC], 9)
    ensures st'.regs[PC] == Advance(st.regs[PC], 5)
    ensures Keeps(st, st', {d, WS0, WS1})
  {
    var pc := st.regs[PC];
    st' := LabelAddressSteps(name, d, st);
    LabelPointerValue(pc);
  }

  /**
   The 0x20 bytes the label `COPY` steps from the address of its first line are
   eight words, and eight lines on sits the unlabelled data word naming the label.
   */
  lemma LabelOffsetIsEightWords(name: string, d: Reg)
    ensures 0x20 == 8 * WORD_LEN
    ensures |Macros.CopyLabelCode(name, d)| == 9
    ensures Macros.CopyLabelCode(name, d)[8] == Line("", Data(name))
  {
  }

  /** The last lines of a label `COPY`: load through r7, then the always-taken jump through r8 over the data word. */
  lemma LabelTailRuns(name: string, d: Reg, st: State, pc: Word) returns (st': State)
    requires d != PC && d != WS0 && d != WS1
    requires st.regs[WS0] == Advance(pc, 8) && st.regs[WS1] == Advance(pc, 9) && st.regs[PC] == Advance(pc, 5)
    ensures Run(Macros.CopyLabelCode(name, d)[5..], st) == Done(st')
    ensures st'.regs[d] == Read(st.mem, Advance(pc, 8))
    ensures st'.regs[PC] == Advance(pc, 9)
    ensures Keeps(st, st', {d, WS0})
  {
    var c := Macros.CopyLabelCode(name, d)[5..];
    var mid := c[..2];
    var s6 := Move(Load(WS0, d), st, pc, 5);
    var s7 := Move(Copy(0x0, true, WS0), s6, pc, 6);
    RunTrace(mid, [st, s6, s7]);
    assert c == mid + c[2..];
    RunAppend(mid, c[2..], st);
    AdvanceAdd(pc, 7, 2);
    st' := JumpForward(c[2..], s7, 2);
    assert c[2..][2..] == [];
  }

  /**
   `COPY label d`: `d` gets the label's address from the data word, and the
   closing `zjump` always jumps, over the data word to the end of the block.
   */
  lemma CopyLabelRuns(name: string, d: Reg, st: State, env: Env) returns (st': State)
    requires d != PC && d != WS0 && d != WS1
    requires Loaded(Macros.CopyLabelCode(name, d), st.mem, st.regs[PC], env)
    ensures name in env
    ensures Run(Macros.CopyLabelCode(name, d), st) == Done(st')
    ensures st'.regs[d] == env[name]
    ensures st'.regs[PC] == Advance(st.regs[PC], 9)
    ensures Keeps(st, st', {d, WS0, WS1})
  {
    var c := Macros.CopyLabelCode(name, d);
    LoadedAt(c, st.mem, st.regs[PC], env, 8);
    var s5 := LabelAddressRuns(name, d, st);
    assert c == c[..5] + c[5..];
    RunAppend(c[..5], c[5..], st);
    st' := LabelTailRuns(name, d, s5, st.regs[PC]);
  }

  /** `COPY b±k d`, in place when `b` is `d`: `d` gets `b ± k` modulo 2^32. */
  lemma CopyOffsetRuns(b: Reg, k: int, d: Reg, st: State) returns (st': State)
    requires Macros.Magnitude(k) < LITERAL_LIMIT
    requires d != PC && d != WS0 && d != WS1 && b != PC && b != WS0 && b != WS1
    ensures Run(Macros.CopyOffsetCode(b, k, d), st) == Done(st')
    ensures st'.regs[d] == (st.regs[b] + k) % MODULUS
    ensures st'.regs[PC] == Advance(st.regs[PC], |Macros.CopyOffsetCode(b, k, d)|)
    ensures Keeps(st, st', {d, WS0, WS1})
  {
    if b == d {
      st' := OffsetInPlaceRuns(k, d, st);
    } else {
      st' := CopyOffsetAsWrittenRuns(b, k, d, st);
    }
  }

  /** A loaded copy of a label names a label the assembler has placed. */
  lemma CopyKnown(a: Operands.Operand, d: Reg, mem: map<Word, Word>, base: Word, env: Env)
    requires Loaded(Macros.CopyCode(a, d), mem, base, env)
    ensures Known(a, env)
  {
    if a.Label? {
      LoadedAt(Macros.CopyCode(a, d), mem, base, env, 8);
    }
  }

  /** `COPY a d` leaves the value of `a` in `d`, clobbering at most r7 and r8, and falls off its end. */
  lemma CopyRuns(a: Operands.Operand, d: Reg, st: State, env: Env) returns (st': State)
    requires Fit(a) && d != PC && d != WS0 && d != WS1
    requires Loaded(Macros.CopyCode(a, d), st.mem, st.regs[PC], env)
    ensures Known(a, env)
    ensures Run(Macros.CopyCode(a, d), st) == Done(st')
    ensures st'.regs[d] == Val(a, st, env)
    ensures st'.regs[PC] == Advance(st.regs[PC], |Macros.CopyCode(a, d)|)
    ensures Keeps(st, st', {d, WS0, WS1})
  {
    match a
    case Reg(r) =>
      st' := CopyRegRuns(r, d, st);
      assert Val(a, st, env) == st.regs[r];
    case Nat(v) =>
      st' := CopyNatRuns(v, d, st);
      assert Val(a, st, env) == v % MODULUS;
    case RegOff(b, k) =>
      st' := CopyOffsetRuns(b, k, d, st);
      assert Val(a, st, env) == (st.regs[b] + k) % MODULUS;
    case Label(name) =>
      st' := CopyLabelRuns(name, d, st, env);
      assert Val(a, st, env) == env[name];
  }
}
