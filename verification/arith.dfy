/**
 What `ADD SUB MULT DIV AND OR` and `NOT` do when run: the destination gets
 the operation's 32-bit result on the operands' values, and only the scratch
 registers r7, r8 and r9 change besides it.
 */
module ArithSemantics {
  import opened Machine
  import Operands
  import Macros
  import Bits
  import opened Semantics
  import Compose

  /** The first operand into `d`, the second into r9, then `d := d op r9`: right when the second operand does not read `d`. */
  lemma InOrderRuns(op: AluOp, a1: Operands.Operand, a2: Operands.Operand, d: Reg, st: State, env: Env)
    returns (st': State)
    requires Fit(a1) && Fit(a2) && !Macros.Reads(a2, d)
    requires d != PC && d != WS0 && d != WS1 && d != WS2
    requires op == Div ==> Known(a2, env) && Val(a2, st, env) != 0
    requires Loaded(Macros.ArithCodeAsWritten(op, a1, a2, d), st.mem, st.regs[PC], env)
    ensures Known(a1, env) && Known(a2, env)
    ensures Run(Macros.ArithCodeAsWritten(op, a1, a2, d), st) == Done(st')
    ensures st'.regs[d] == AluValue(op, Val(a1, st, env), Val(a2, st, env))
    ensures st'.regs[PC] == Advance(st.regs[PC], |Macros.ArithCodeAsWritten(op, a1, a2, d)|)
    ensures Keeps(st, st', {d, WS0, WS1, WS2})
  {
    hide Run, Macros.CopyCode;
    var c1, c2 := Macros.CopyCode(a1, d), Macros.CopyCode(a2, WS2);
    var p := Alu(op, d, WS2, d);
    assert Macros.ArithCodeAsWritten(op, a1, a2, d) == (c1 + c2) + [Macros.Plain(p)];
    LoadedSplit(c1 + c2, [Macros.Plain(p)], st.mem, st.regs[PC], env);
    var s2 := Compose.TwoCopiesRuns(a1, a2, d, WS2, st, env);
    st' := Compose.ThenWrite(c1 + c2, p, st, s2);
    KeepsTrans(st, s2, st', {d, WS2, WS0, WS1}, {d});
    assert {d, WS2, WS0, WS1} + {d} == {d, WS0, WS1, WS2};
  }

  /** The second operand into r9 first, then the first into `d`: right when the first operand does not read r9. */
  lemma SwappedRuns(op: AluOp, a1: Operands.Operand, a2: Operands.Operand, d: Reg, st: State, env: Env)
    returns (st': State)
    requires Fit(a1) && Fit(a2) && !Macros.Reads(a1, WS2)
    requires d != PC && d != WS0 && d != WS1 && d != WS2
    requires op == Div ==> Known(a2, env) && Val(a2, st, env) != 0
    requires Loaded(Macros.CopyCode(a2, WS2) + Macros.CopyCode(a1, d) + [Macros.Plain(Alu(op, d, WS2, d))],
                    st.mem, st.regs[PC], env)
    ensures Known(a1, env) && Known(a2, env)
    ensures Run(Macros.CopyCode(a2, WS2) + Macros.CopyCode(a1, d) + [Macros.Plain(Alu(op, d, WS2, d))], st) == Done(st')
    ensures st'.regs[d] == AluValue(op, Val(a1, st, env), Val(a2, st, env))
    ensures st'.regs[PC]
         == Advance(st.regs[PC], |Macros.CopyCode(a2, WS2) + Macros.CopyCode(a1, d) + [Macros.Plain(Alu(op, d, WS2, d))]|)
    ensures Keeps(st, st', {d, WS0, WS1, WS2})
  {
    hide Run, Macros.CopyCode;
    var c1, c2 := Macros.CopyCode(a2, WS2), Macros.CopyCode(a1, d);
    var p := Alu(op, d, WS2, d);
    LoadedSplit(c1 + c2, [Macros.Plain(p)], st.mem, st.regs[PC], env);
    var s2 := Compose.TwoCopiesRuns(a2, a1, WS2, d, st, env);
    st' := Compose.ThenWrite(c1 + c2, p, st, s2);
    KeepsTrans(st, s2, st', {WS2, d, WS0, WS1}, {d});
    assert {WS2, d, WS0, WS1} + {d} == {d, WS0, WS1, WS2};
  }

  /**
   `ADD a1 a2 d` and its kin: `d` ends up holding `a1 op a2` on the values the
   operands had before the macro, modulo 2^32; nothing but `d` and the scratch
   registers r7, r8, r9 changes, and the memory is untouched.
   */
  lemma ArithRuns(op: AluOp, a1: Operands.Operand, a2: Operands.Operand, d: Reg, st: State, env: Env)
    returns (st': State)
    requires Fit(a1) && Fit(a2) && (Macros.Reads(a2, d) ==> !Macros.Reads(a1, WS2))
    requires d != PC && d != WS0 && d != WS1 && d != WS2
    requires op == Div ==> Known(a2, env) && Val(a2, st, env) != 0
    requires Loaded(Macros.ArithCode(op, a1, a2, d), st.mem, st.regs[PC], env)
    ensures Known(a1, env) && Known(a2, env)
    ensures Run(Macros.ArithCode(op, a1, a2, d), st) == Done(st')
    ensures st'.regs[d] == AluValue(op, Val(a1, st, env), Val(a2, st, env))
    ensures st'.regs[PC] == Advance(st.regs[PC], |Macros.ArithCode(op, a1, a2, d)|)
    ensures Keeps(st, st', {d, WS0, WS1, WS2})
  {
    if Macros.Reads(a2, d) {
      st' := SwappedRuns(op, a1, a2, d, st, env);
    } else {
      st' := InOrderRuns(op, a1, a2, d, st, env);
    }
  }

  /**
   The source's order goes wrong when the second operand is the destination:
   `ADD a1 d d` computes `a1 op a1`, because `d` already holds `a1` when it is
   copied into r9.
   */
  lemma AliasedAsWrittenRuns(op: AluOp, a1: Operands.Operand, d: Reg, st: State, env: Env)
    returns (st': State)
    requires Fit(a1) && d != PC && d != WS0 && d != WS1 && d != WS2
    requires op == Div ==> Known(a1, env) && Val(a1, st, env) != 0
    requires Loaded(Macros.ArithCodeAsWritten(op, a1, Operands.Reg(d), d), st.mem, st.regs[PC], env)
    ensures Known(a1, env)
    ensures Run(Macros.ArithCodeAsWritten(op, a1, Operands.Reg(d), d), st) == Done(st')
    ensures st'.regs[d] == AluValue(op, Val(a1, st, env), Val(a1, st, env))
    ensures st'.regs[PC] == Advance(st.regs[PC], |Macros.ArithCodeAsWritten(op, a1, Operands.Reg(d), d)|)
    ensures Keeps(st, st', {d, WS0, WS1, WS2})
  {
    hide Run, Macros.CopyCode;
    var c1, c2 := Macros.CopyCode(a1, d), Macros.CopyCode(Operands.Reg(d), WS2);
    var p := Alu(op, d, WS2, d);
    assert Macros.ArithCodeAsWritten(op, a1, Operands.Reg(d), d) == (c1 + c2) + [Macros.Plain(p)];
    LoadedSplit(c1 + c2, [Macros.Plain(p)], st.mem, st.regs[PC], env);
    LoadedSplit(c1, c2, st.mem, st.regs[PC], env);
    var s1 := CopyRuns(a1, d, st, env);
    var s2 := CopyRuns(Operands.Reg(d), WS2, s1, env);
    AdvanceAdd(st.regs[PC], |c1|, |c2|);
    RunAppend(c1, c2, st);
    st' := Compose.ThenWrite(c1 + c2, p, st, s2);
    KeepsTrans(st, s1, s2, {d, WS0, WS1}, {WS2, WS0, WS1});
    KeepsTrans(st, s2, st', {d, WS0, WS1} + {WS2, WS0, WS1}, {d});
    assert {d, WS0, WS1} + {WS2, WS0, WS1} + {d} == {d, WS0, WS1, WS2};
  }

  /** `ADD r1 r2 r2` with r1 = 1 and r2 = 2 leaves 2 in r2 as the source writes it, where 1 + 2 = 3 is meant. */
  lemma AliasedAddExample(st: State, env: Env) returns (st': State)
    requires st.regs[1] == 1 && st.regs[2] == 2
    requires Loaded(Macros.ArithCodeAsWritten(Add, Operands.Reg(1), Operands.Reg(2), 2), st.mem, st.regs[PC], env)
    ensures Run(Macros.ArithCodeAsWritten(Add, Operands.Reg(1), Operands.Reg(2), 2), st) == Done(st')
    ensures st'.regs[2] == 2 != AluValue(Add, 1, 2)
  {
    st' := AliasedAsWrittenRuns(Add, Operands.Reg(1), 2, st, env);
  }

  /** The corrected code on the same call gives 3. */
  lemma AliasedAddFixed(st: State, env: Env) returns (st': State)
    requires st.regs[1] == 1 && st.regs[2] == 2
    requires Loaded(Macros.ArithCode(Add, Operands.Reg(1), Operands.Reg(2), 2), st.mem, st.regs[PC], env)
    ensures Run(Macros.ArithCode(Add, Operands.Reg(1), Operands.Reg(2), 2), st) == Done(st')
    ensures st'.regs[2] == 3
  {
    st' := ArithRuns(Add, Operands.Reg(1), Operands.Reg(2), 2, st, env);
  }

  /** Multiplying by 2^32 - 1 and subtracting 1, both modulo 2^32, is the complement. */
  lemma NotValue(x: Word)
    ensures AluValue(Sub, AluValue(Mult, x, Macros.ALL_ONES), 1) == Macros.ALL_ONES - x
  {
    var y := AluValue(Mult, x, Macros.ALL_ONES);
    if x == 0 {
      assert y == 0;
    } else {
      Bits.DivModUnique(x * Macros.ALL_ONES, MODULUS, x - 1, MODULUS - x);
      assert y == MODULUS - x;
    }
  }

  /**
   `NOT a d`: `d` ends up holding the bitwise complement of `a`'s 32-bit value;
   only `d` and the scratch registers r7, r8, r9 change.
   */
  lemma NotRuns(a: Operands.Operand, d: Reg, st: State, env: Env) returns (st': State)
    requires Fit(a) && d != PC && d != WS0 && d != WS1 && d != WS2
    requires Loaded(Macros.NotCode(a, d), st.mem, st.regs[PC], env)
    ensures Known(a, env)
    ensures Run(Macros.NotCode(a, d), st) == Done(st')
    ensures st'.regs[d] == Bits.Flip(Val(a, st, env), 32) == Macros.ALL_ONES - Val(a, st, env)
    ensures st'.regs[PC] == Advance(st.regs[PC], |Macros.NotCode(a, d)|)
    ensures Keeps(st, st', {d, WS0, WS1, WS2})
  {
    hide Run, Macros.CopyCode, Macros.ArithCode;
    var pc := st.regs[PC];
    var c0 := Macros.CopyCode(a, d);
    var c1 := Macros.ArithCode(Mult, Operands.Reg(d), Operands.Nat(Macros.ALL_ONES), d);
    var c2 := Macros.ArithCode(Sub, Operands.Reg(d), Operands.Nat(1), d);
    assert Macros.NotCode(a, d) == (c0 + c1) + c2;
    LoadedSplit(c0 + c1, c2, st.mem, pc, env);
    LoadedSplit(c0, c1, st.mem, pc, env);
    var s0 := CopyRuns(a, d, st, env);
    AdvanceAdd(pc, |c0|, |c1|);
    var s1 := ArithRuns(Mult, Operands.Reg(d), Operands.Nat(Macros.ALL_ONES), d, s0, env);
    Compose.Chain(c0, c1, st, s0, s1);
    st' := ArithRuns(Sub, Operands.Reg(d), Operands.Nat(1), d, s1, env);
    Compose.Chain(c0 + c1, c2, st, s1, st');
    NotComplement(s0.regs[d]);
    KeepsNot(st, s0, s1, st', d);
  }

  /** Multiplying by 0xffffffff and subtracting one gives the 32-bit complement. */
  lemma NotComplement(x: Word)
    ensures AluValue(Sub, AluValue(Mult, x, Macros.ALL_ONES), 1) == Bits.Flip(x, 32) == Macros.ALL_ONES - x
  {
    NotValue(x);
    Bits.Pow2Values();
    Bits.FlipIsComplement(x, 32);
  }

  lemma KeepsNot(st: State, s0: State, s1: State, s2: State, d: Reg)
    requires Keeps(st, s0, {d, WS0, WS1}) && Keeps(s0, s1, {d, WS0, WS1, WS2}) && Keeps(s1, s2, {d, WS0, WS1, WS2})
    ensures Keeps(st, s2, {d, WS0, WS1, WS2})
  {
  }

  /** The complement of `0x17` is `0xffffffe8`. */
  lemma NotExample(st: State, env: Env) returns (st': State)
    requires Loaded(Macros.NotCode(Operands.Nat(0x17), 2), st.mem, st.regs[PC], env)
    ensures Run(Macros.NotCode(Operands.Nat(0x17), 2), st) == Done(st')
    ensures st'.regs[2] == 0xffff_ffe8
  {
    st' := NotRuns(Operands.Nat(0x17), 2, st, env);
  }
}
