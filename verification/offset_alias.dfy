/**
 `COPY b±k d` when the base register is the destination. The source first
 puts `|k|` into `d` and then adds `b`, which by then is `d` itself and holds
 `|k|`: the result is `|k| ± |k|`, whatever `b` held. The corrected code adds
 `|k|` to `d` in place.
 */
module OffsetAlias {
  import opened Machine
  import Operands
  import Macros
  import opened Semantics
  import Compose
  import SourceMacros
  import ArithSemantics

  /** The source's code for `COPY d±k d` leaves `|k| op |k|` in `d`. */
  lemma OffsetAliasedAsWrittenRuns(k: int, d: Reg, st: State) returns (st': State)
    requires Macros.Magnitude(k) < LITERAL_LIMIT && d != PC && d != WS0 && d != WS1
    ensures Run(Macros.CopyOffsetAsWritten(d, k, d), st) == Done(st')
    ensures var m := Macros.Magnitude(k) % MODULUS; st'.regs[d] == AluValue(Macros.OffsetOp(k), m, m)
    ensures st'.regs[PC] == Advance(st.regs[PC], |Macros.CopyOffsetAsWritten(d, k, d)|)
    ensures Keeps(st, st', {d, WS0, WS1})
  {
    hide Run;
    var s1 := CopyNatRuns(Macros.Magnitude(k), d, st);
    st' := Compose.ThenWrite(Macros.CopyNatCode(Macros.Magnitude(k), d), Alu(Macros.OffsetOp(k), d, d, d), st, s1);
    KeepsTrans(st, s1, st', {d, WS0, WS1}, {d});
    assert {d, WS0, WS1} + {d} == {d, WS0, WS1};
  }

  /**
   The source's `NOT d±k d` complements `|k| ± |k|` rather than `d ± k`: its
   first step is the offset copy above, and the rest is the complement.
   */
  lemma NotOffsetAliasedRuns(k: int, d: Reg, st: State, env: Env) returns (st': State)
    requires Macros.Magnitude(k) < LITERAL_LIMIT && d != PC && d != WS0 && d != WS1 && d != WS2
    requires Loaded(SourceMacros.NotCode(Operands.RegOff(d, k), d), st.mem, st.regs[PC], env)
    ensures Run(SourceMacros.NotCode(Operands.RegOff(d, k), d), st) == Done(st')
    ensures var m := Macros.Magnitude(k) % MODULUS;
            st'.regs[d] == Macros.ALL_ONES - AluValue(Macros.OffsetOp(k), m, m)
  {
    hide Run, Macros.CopyCode, Macros.CopyOffsetAsWritten;
    var pc := st.regs[PC];
    var c0 := Macros.CopyOffsetAsWritten(d, k, d);
    var c1 := Macros.ArithCodeAsWritten(Mult, Operands.Reg(d), Operands.Nat(Macros.ALL_ONES), d);
    var c2 := Macros.ArithCodeAsWritten(Sub, Operands.Reg(d), Operands.Nat(1), d);
    SourceMacros.PlainCopyAgrees(Operands.Reg(d), d);
    SourceMacros.PlainCopyAgrees(Operands.Nat(Macros.ALL_ONES), WS2);
    SourceMacros.PlainCopyAgrees(Operands.Nat(1), WS2);
    assert SourceMacros.NotCode(Operands.RegOff(d, k), d) == (c0 + c1) + c2;
    LoadedSplit(c0 + c1, c2, st.mem, pc, env);
    LoadedSplit(c0, c1, st.mem, pc, env);
    var s0 := OffsetAliasedAsWrittenRuns(k, d, st);
    AdvanceAdd(pc, |c0|, |c1|);
    var s1 := ArithSemantics.InOrderRuns(Mult, Operands.Reg(d), Operands.Nat(Macros.ALL_ONES), d, s0, env);
    Compose.Chain(c0, c1, st, s0, s1);
    st' := ArithSemantics.InOrderRuns(Sub, Operands.Reg(d), Operands.Nat(1), d, s1, env);
    Compose.Chain(c0 + c1, c2, st, s1, st');
    ArithSemantics.NotComplement(s0.regs[d]);
  }

  /** `NOT r3+5 r3` with r3 = 0 leaves 0xfffffff5, the complement of 10, as the source writes it; the complement of 5 is meant. */
  lemma NotOffsetAliasExample(st: State, env: Env) returns (st': State)
    requires st.regs[3] == 0
    requires Loaded(SourceMacros.NotCode(Operands.RegOff(3, 5), 3), st.mem, st.regs[PC], env)
    ensures Run(SourceMacros.NotCode(Operands.RegOff(3, 5), 3), st) == Done(st')
    ensures st'.regs[3] == 0xffff_fff5 != Macros.ALL_ONES - (st.regs[3] + 5)
  {
    hide Run, SourceMacros.NotCode;
    st' := NotOffsetAliasedRuns(5, 3, st, env);
  }

  /** `COPY r3 + 5 r3` with r3 = 0 leaves 10 in r3 as the source writes it, where 0 + 5 = 5 is meant. */
  lemma OffsetAliasExample(st: State) returns (st': State)
    requires st.regs[3] == 0
    ensures Run(Macros.CopyOffsetAsWritten(3, 5, 3), st) == Done(st')
    ensures st'.regs[3] == 10 != (st.regs[3] + 5) % MODULUS
  {
    hide Run, Macros.CopyOffsetAsWritten;
    st' := OffsetAliasedAsWrittenRuns(5, 3, st);
  }

  /** The corrected code on the same call gives 5. */
  lemma OffsetAliasFixed(st: State) returns (st': State)
    requires st.regs[3] == 0
    ensures Run(Macros.CopyCode(Operands.RegOff(3, 5), 3), st) == Done(st')
    ensures st'.regs[3] == 5
  {
    hide Run, Macros.CopyOffsetCode;
    st' := CopyOffsetRuns(3, 5, 3, st);
  }
}
