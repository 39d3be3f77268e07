/**
 Two building blocks most macros share: two operand copies in a row, and a
 block followed by one register-writing instruction.
 */
module Compose {
  import opened Machine
  import Operands
  import Macros
  import opened Semantics

  /** `a` into `d`, then `b` into `e`: both arrive intact when `b` does not read `d`. */
  lemma TwoCopiesRuns(a: Operands.Operand, b: Operands.Operand, d: Reg, e: Reg, st: State, env: Env)
    returns (st': State)
    requires Fit(a) && Fit(b) && !Macros.Reads(b, d)
    requires d != PC && d != WS0 && d != WS1 && e != PC && e != WS0 && e != WS1 && d != e
    requires Loaded(Macros.CopyCode(a, d) + Macros.CopyCode(b, e), st.mem, st.regs[PC], env)
    ensures Known(a, env) && Known(b, env)
    ensures Run(Macros.CopyCode(a, d) + Macros.CopyCode(b, e), st) == Done(st')
    ensures st'.regs[d] == Val(a, st, env) && st'.regs[e] == Val(b, st, env)
    ensures st'.regs[PC] == Advance(st.regs[PC], |Macros.CopyCode(a, d)| + |Macros.CopyCode(b, e)|)
    ensures Keeps(st, st', {d, e, WS0, WS1})
  {
    hide Run, Macros.CopyCode;
    var pc := st.regs[PC];
    var c1, c2 := Macros.CopyCode(a, d), Macros.CopyCode(b, e);
    LoadedSplit(c1, c2, st.mem, pc, env);
    var s1 := CopyRuns(a, d, st, env);
    st' := CopyRuns(b, e, s1, env);
    ValKeeps(b, st, s1, {d, WS0, WS1}, env);
    assert st'.regs[d] == s1.regs[d];
    AdvanceAdd(pc, |c1|, |c2|);
    RunAppend(c1, c2, st);
  }

  /** A block that ends at `st1`, then one instruction writing its target register. */
  lemma ThenWrite(code: seq<Line>, p: Prim, st: State, st1: State) returns (st': State)
    requires Run(code, st) == Done(st1) && Writes(p, st1)
    requires st1.regs[PC] == Advance(st.regs[PC], |code|)
    ensures Run(code + [Macros.Plain(p)], st) == Done(st')
    ensures st'.regs[Target(p).value] == Written(p, st1)
    ensures st'.regs[PC] == Advance(st.regs[PC], |code| + 1)
    ensures Keeps(st1, st', {Target(p).value})
  {
    hide Run;
    st' := MoveLast([Macros.Plain(p)], st1, st.regs[PC], |code|);
    RunAppend(code, [Macros.Plain(p)], st);
  }

  /** Advancing past one block, then past another, is advancing past both. */
  lemma AdvanceTwice(pc: Word, p1: Word, p2: Word, c1: seq<Line>, c2: seq<Line>)
    requires p1 == Advance(pc, |c1|) && p2 == Advance(p1, |c2|)
    ensures p2 == Advance(pc, |c1 + c2|)
  {
    AdvanceAdd(pc, |c1|, |c2|);
  }

  /** Two blocks that each fall off their end, one after the other. */
  lemma Chain(c1: seq<Line>, c2: seq<Line>, st: State, s1: State, s2: State)
    requires Run(c1, st) == Done(s1) && s1.regs[PC] == Advance(st.regs[PC], |c1|)
    requires Run(c2, s1) == Done(s2) && s2.regs[PC] == Advance(s1.regs[PC], |c2|)
    ensures Run(c1 + c2, st) == Done(s2)
    ensures s2.regs[PC] == Advance(st.regs[PC], |c1 + c2|)
  {
    hide Run, Advance;
    AdvanceTwice(st.regs[PC], s1.regs[PC], s2.regs[PC], c1, c2);
    RunAppend(c1, c2, st);
  }
}
