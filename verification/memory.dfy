/**
 The memory macros. LOAD and STORE go through working storage; PUSH moves
 the stack pointer r1 down one word and stores there, POP loads from r1 and
 moves it back up, so a POP undoes the PUSH before it and pops in reverse
 order of pushing.
 */
module MemorySemantics {
  import opened Machine
  import Operands
  import Macros
  import opened Semantics
  import Compose
  import ArithSemantics
  import opened Conditions

  /** Registers other than the program counter and `clobber` are unchanged; memory may differ. */
  predicate KeepsRegs(st: State, st': State, clobber: set<Reg>) {
    forall q: Reg :: q != PC && q !in clobber ==> st'.regs[q] == st.regs[q]
  }

  /** Every line is an instruction: the block has no data word. */
  predicate NoData(code: seq<Line>) {
    forall i :: 0 <= i < |code| ==> code[i].body.Instr?
  }

  /** A block without data words is loaded in every memory. */
  lemma {:induction false} NoDataLoaded(code: seq<Line>, mem: map<Word, Word>, base: Word, env: Env)
    requires NoData(code)
    ensures Loaded(code, mem, base, env)
    decreases |code|
  {
    if code != [] {
      assert code[0].body.Instr?;
      NoDataLoaded(code[1..], mem, Advance(base, 1), env);
    }
  }

  /** Only a label's copy has a data word. */
  lemma CopyNoData(a: Operands.Operand, d: Reg)
    requires !a.Label?
    ensures NoData(Macros.CopyCode(a, d))
  {
  }

  /** POP's code has no data word, so it is loaded whatever the memory holds. */
  lemma PopLoaded(d: Reg, mem: map<Word, Word>, base: Word, env: Env)
    ensures Loaded(Macros.PopCode(d), mem, base, env)
  {
    hide Macros.CopyCode;
    CopyNoData(Operands.Reg(STACK_PTR), d);
    CopyNoData(Operands.Reg(STACK_PTR), STACK_PTR);
    CopyNoData(Operands.Nat(WORD_LEN), WS2);
    NoDataLoaded(Macros.PopCode(d), mem, base, env);
  }

  /** The memory after `store s a`: the word at the address in `a` becomes the value in `s`. */
  function Stored(st: State, s: Reg, a: Reg): map<Word, Word> {
    st.mem[st.regs[a] := st.regs[s]]
  }

  /** A block that ends at `st1`, then one `store s a`. */
  lemma ThenStore(code: seq<Line>, s: Reg, a: Reg, st: State, st1: State) returns (st': State)
    requires Run(code, st) == Done(st1) && st1.regs[PC] == Advance(st.regs[PC], |code|)
    ensures Run(code + [Macros.Plain(Store(s, a))], st) == Done(st')
    ensures st'.mem == Stored(st1, s, a)
    ensures st'.regs[PC] == Advance(st.regs[PC], |code| + 1)
    ensures KeepsRegs(st1, st', {})
  {
    var line := [Macros.Plain(Store(s, a))];
    assert line[0].body.p == Store(s, a);
    st' := Exec(Store(s, a), st1).value;
    assert line[1..] == [];
    assert Run(line, st1) == Done(st');
    RunAppend(code, line, st);
    AdvanceAdd(st.regs[PC], |code|, 1);
  }

  /** `LOAD a d`: `d` gets the word at the address `a` stands for. */
  lemma LoadRuns(a: Operands.Operand, d: Reg, st: State, env: Env) returns (st': State)
    requires Fit(a) && d != PC && d != WS0 && d != WS1
    requires Loaded(Macros.LoadCode(a, d), st.mem, st.regs[PC], env)
    ensures Known(a, env)
    ensures Run(Macros.LoadCode(a, d), st) == Done(st')
    ensures st'.regs[d] == Read(st.mem, Val(a, st, env))
    ensures st'.regs[PC] == Advance(st.regs[PC], |Macros.LoadCode(a, d)|)
    ensures Keeps(st, st', {d, WS0, WS1})
  {
    hide Run, Macros.CopyCode;
    var c := Macros.CopyCode(a, d);
    LoadedSplit(c, [Macros.Plain(Load(d, d))], st.mem, st.regs[PC], env);
    var s1 := CopyRuns(a, d, st, env);
    st' := Compose.ThenWrite(c, Load(d, d), st, s1);
    KeepsTrans(st, s1, st', {d, WS0, WS1}, {d});
    assert {d, WS0, WS1} + {d} == {d, WS0, WS1};
  }

  /** `STORE s a`: the word at the address `a` stands for becomes the value of `s`; no register but r7 to r10 changes. */
  lemma StoreRuns(s: Operands.Operand, a: Operands.Operand, st: State, env: Env) returns (st': State)
    requires Fit(s) && Fit(a) && !Macros.Reads(a, WS2)
    requires Loaded(Macros.StoreCode(s, a), st.mem, st.regs[PC], env)
    ensures Known(s, env) && Known(a, env)
    ensures Run(Macros.StoreCode(s, a), st) == Done(st')
    ensures st'.mem == st.mem[Val(a, st, env) := Val(s, st, env)]
    ensures st'.regs[PC] == Advance(st.regs[PC], |Macros.StoreCode(s, a)|)
    ensures KeepsRegs(st, st', SCRATCH)
  {
    hide Run, Macros.CopyCode;
    var copies := Macros.CopyCode(s, WS2) + Macros.CopyCode(a, WS3);
    LoadedSplit(copies, [Macros.Plain(Store(WS2, WS3))], st.mem, st.regs[PC], env);
    var s1 := Compose.TwoCopiesRuns(s, a, WS2, WS3, st, env);
    st' := ThenStore(copies, WS2, WS3, st, s1);
    assert {WS2, WS3, WS0, WS1} == SCRATCH;
  }

  /** One word below `sp`, modulo 2^32. */
  function Below(sp: Word): Word {
    (sp - WORD_LEN) % MODULUS
  }

  /** A word back up from the word below `sp` is `sp` again. */
  lemma AboveBelow(sp: Word)
    ensures (Below(sp) + WORD_LEN) % MODULUS == sp
  {
    AddMod(WORD_LEN, sp - WORD_LEN);
  }

  /**
   `PUSH a`: r1 moves one word down and the word there becomes the value of
   `a`; no register but r1 and r7 to r10 changes. An operand that reads r1
   would see the moved stack pointer.
   */
  lemma PushRuns(a: Operands.Operand, st: State, env: Env) returns (st': State)
    requires Fit(a) && !Macros.Reads(a, WS2) && !Macros.Reads(a, STACK_PTR)
    requires Loaded(Macros.PushCode(a), st.mem, st.regs[PC], env)
    ensures Known(a, env)
    ensures Run(Macros.PushCode(a), st) == Done(st')
    ensures st'.regs[STACK_PTR] == Below(st.regs[STACK_PTR])
    ensures st'.mem == st.mem[Below(st.regs[STACK_PTR]) := Val(a, st, env)]
    ensures st'.regs[PC] == Advance(st.regs[PC], |Macros.PushCode(a)|)
    ensures KeepsRegs(st, st', {STACK_PTR} + SCRATCH)
  {
    hide Run, Macros.ArithCode, Macros.StoreCode;
    var sp := Operands.Reg(STACK_PTR);
    var c1, c2 := Macros.ArithCode(Sub, sp, Operands.Nat(WORD_LEN), STACK_PTR), Macros.StoreCode(a, sp);
    LoadedSplit(c1, c2, st.mem, st.regs[PC], env);
    var s1 := ArithSemantics.ArithRuns(Sub, sp, Operands.Nat(WORD_LEN), STACK_PTR, st, env);
    st' := StoreRuns(a, sp, s1, env);
    Compose.Chain(c1, c2, st, s1, st');
    ValKeeps(a, st, s1, {STACK_PTR, WS0, WS1, WS2}, env);
  }

  /**
   `POP d`: `d` gets the word r1 points at and r1 moves one word up; memory
   and every register but `d`, r1 and r7 to r9 are unchanged.
   */
  lemma PopRuns(d: Reg, st: State, env: Env) returns (st': State)
    requires d != PC && d != STACK_PTR && d != WS0 && d != WS1 && d != WS2
    ensures Run(Macros.PopCode(d), st) == Done(st')
    ensures st'.regs[d] == Read(st.mem, st.regs[STACK_PTR])
    ensures st'.regs[STACK_PTR] == (st.regs[STACK_PTR] + WORD_LEN) % MODULUS
    ensures st'.regs[PC] == Advance(st.regs[PC], |Macros.PopCode(d)|)
    ensures Keeps(st, st', {d, STACK_PTR, WS0, WS1, WS2})
  {
    hide Run, Macros.ArithCode, Macros.LoadCode;
    var sp := Operands.Reg(STACK_PTR);
    var c1, c2 := Macros.LoadCode(sp, d), Macros.ArithCode(Add, sp, Operands.Nat(WORD_LEN), STACK_PTR);
    PopLoaded(d, st.mem, st.regs[PC], env);
    LoadedSplit(c1, c2, st.mem, st.regs[PC], env);
    var s1 := LoadRuns(sp, d, st, env);
    st' := ArithSemantics.ArithRuns(Add, sp, Operands.Nat(WORD_LEN), STACK_PTR, s1, env);
    Compose.Chain(c1, c2, st, s1, st');
    KeepsTrans(st, s1, st', {d, WS0, WS1}, {STACK_PTR, WS0, WS1, WS2});
    assert {d, WS0, WS1} + {STACK_PTR, WS0, WS1, WS2} == {d, STACK_PTR, WS0, WS1, WS2};
  }

  /**
   `POP r1`: the load overwrites the stack pointer with the popped word, and the
   step up then adds a word to that, so r1 ends as the popped word plus four.
   */
  lemma PopStackPointerRuns(st: State, env: Env) returns (st': State)
    ensures Run(Macros.PopCode(STACK_PTR), st) == Done(st')
    ensures st'.regs[STACK_PTR] == (Read(st.mem, st.regs[STACK_PTR]) + WORD_LEN) % MODULUS
    ensures st'.regs[PC] == Advance(st.regs[PC], |Macros.PopCode(STACK_PTR)|)
    ensures Keeps(st, st', {STACK_PTR, WS0, WS1, WS2})
  {
    hide Run, Macros.ArithCode, Macros.LoadCode;
    var sp := Operands.Reg(STACK_PTR);
    var c1, c2 := Macros.LoadCode(sp, STACK_PTR), Macros.ArithCode(Add, sp, Operands.Nat(WORD_LEN), STACK_PTR);
    PopLoaded(STACK_PTR, st.mem, st.regs[PC], env);
    LoadedSplit(c1, c2, st.mem, st.regs[PC], env);
    var s1 := LoadRuns(sp, STACK_PTR, st, env);
    st' := ArithSemantics.ArithRuns(Add, sp, Operands.Nat(WORD_LEN), STACK_PTR, s1, env);
    Compose.Chain(c1, c2, st, s1, st');
    KeepsTrans(st, s1, st', {STACK_PTR, WS0, WS1}, {STACK_PTR, WS0, WS1, WS2});
    assert {STACK_PTR, WS0, WS1} + {STACK_PTR, WS0, WS1, WS2} == {STACK_PTR, WS0, WS1, WS2};
  }

  /** A register-only change keeps every operand's value that reads none of the changed registers. */
  lemma ValKeepsRegs(a: Operands.Operand, st: State, st': State, clobber: set<Reg>, env: Env)
    requires Known(a, env) && KeepsRegs(st, st', clobber)
    requires a.Reg? ==> a.r != PC && a.r !in clobber
    requires a.RegOff? ==> a.base != PC && a.base !in clobber
    ensures Val(a, st', env) == Val(a, st, env)
  {
  }

  /** The word at `addr` is none of the `n` words from `base` on. */
  predicate Apart(addr: Word, base: Word, n: nat) {
    forall i :: 0 <= i < n ==> Advance(base, i) != addr
  }

  /** A store outside a block keeps the block loaded. */
  lemma {:induction false} LoadedStore(code: seq<Line>, mem: map<Word, Word>, base: Word, env: Env, addr: Word, v: Word)
    requires Loaded(code, mem, base, env) && Apart(addr, base, |code|)
    ensures Loaded(code, mem[addr := v], base, env)
    decreases |code|
  {
    if code != [] {
      AdvanceZero(base);
      forall i | 0 <= i < |code| - 1
        ensures Advance(Advance(base, 1), i) != addr
      {
        AdvanceAdd(base, 1, i);
        assert Advance(base, 1 + i) != addr;
      }
      LoadedStore(code[1..], mem, Advance(base, 1), env, addr, v);
    }
  }

  /**
   `PUSH a` then `POP d`: `d` gets the pushed value and r1 is back where it
   was; the pushed word stays in memory below the stack pointer.
   */
  lemma PushPopRuns(a: Operands.Operand, d: Reg, st: State, env: Env) returns (st': State)
    requires Fit(a) && !Macros.Reads(a, WS2) && !Macros.Reads(a, STACK_PTR)
    requires d != PC && d != STACK_PTR && d != WS0 && d != WS1 && d != WS2
    requires Loaded(Macros.PushCode(a), st.mem, st.regs[PC], env)
    ensures Known(a, env)
    ensures Run(Macros.PushCode(a) + Macros.PopCode(d), st) == Done(st')
    ensures st'.regs[d] == Val(a, st, env)
    ensures st'.regs[STACK_PTR] == st.regs[STACK_PTR]
    ensures st'.mem == st.mem[Below(st.regs[STACK_PTR]) := Val(a, st, env)]
    ensures st'.regs[PC] == Advance(st.regs[PC], |Macros.PushCode(a) + Macros.PopCode(d)|)
    ensures KeepsRegs(st, st', {d} + SCRATCH)
  {
    hide Run, Macros.PushCode, Macros.PopCode;
    var s1 := PushRuns(a, st, env);
    st' := PopRuns(d, s1, env);
    Compose.Chain(Macros.PushCode(a), Macros.PopCode(d), st, s1, st');
    AboveBelow(st.regs[STACK_PTR]);
  }

  /**
   `PUSH a`, `PUSH b`, `POP d`, `POP e`: pops come in reverse order of pushes,
   so `d` gets `b` and `e` gets `a`, and r1 is back where it was. The first
   pushed word must not be one of the second PUSH's data words.
   */
  lemma LastInFirstOut(a: Operands.Operand, b: Operands.Operand, d: Reg, e: Reg, st: State, env: Env)
    returns (st': State)
    requires Fit(a) && !Macros.Reads(a, WS2) && !Macros.Reads(a, STACK_PTR)
    requires Clean(b) && !Macros.Reads(b, STACK_PTR)
    requires d != PC && d != STACK_PTR && d != WS0 && d != WS1 && d != WS2
    requires e != PC && e != STACK_PTR && e != WS0 && e != WS1 && e != WS2
    requires Loaded(Macros.PushCode(a) + Macros.PushCode(b), st.mem, st.regs[PC], env)
    requires Apart(Below(st.regs[STACK_PTR]), Advance(st.regs[PC], |Macros.PushCode(a)|), |Macros.PushCode(b)|)
    ensures Known(a, env) && Known(b, env)
    ensures var code := Macros.PushCode(a) + Macros.PushCode(b) + Macros.PopCode(d) + Macros.PopCode(e);
            Run(code, st) == Done(st')
    ensures st'.regs[e] == Val(a, st, env)
    ensures d != e ==> st'.regs[d] == Val(b, st, env)
    ensures st'.regs[STACK_PTR] == st.regs[STACK_PTR]
  {
    hide Run, Macros.PushCode, Macros.PopCode;
    var pc, sp := st.regs[PC], st.regs[STACK_PTR];
    var pa, pb, pd, pe := Macros.PushCode(a), Macros.PushCode(b), Macros.PopCode(d), Macros.PopCode(e);
    LoadedSplit(pa, pb, st.mem, pc, env);
    var s1 := PushRuns(a, st, env);
    LoadedStore(pb, st.mem, s1.regs[PC], env, Below(sp), Val(a, st, env));
    var s2 := PushPopRuns(b, d, s1, env);
    ValKeepsRegs(b, st, s1, {STACK_PTR} + SCRATCH, env);
    Compose.Chain(pa, pb + pd, st, s1, s2);
    st' := PopRuns(e, s2, env);
    RunAppend(pa + (pb + pd), pe, st);
    assert pa + pb + pd + pe == (pa + (pb + pd)) + pe;
    assert Below(Below(sp)) != Below(sp);
    AboveBelow(sp);
  }
}
