/**
 What the jump macros do when run. Each ends in `zjump c t`: control leaves
 the macro's code for the address in `t` when `c` is zero and falls off its
 end otherwise. `Reaches` names the address control is at afterwards.
 */
module JumpSemantics {
  import opened Wrappers
  import opened Machine
  import Operands
  import Macros
  import Bits
  import opened Semantics
  import Compose
  import ArithSemantics

  /** The block ends without a fault, with the program counter at `addr`. */
  predicate Reaches(o: Outcome, addr: Word) {
    !o.Fault? && o.st.regs[PC] == addr
  }

  /** The state `zjump c t` leaves: only the program counter moves, to `t` when `c` is zero, to the next word otherwise. */
  function JumpState(st: State, c: Reg, t: Reg): State {
    st.(regs := st.regs[PC := if st.regs[c] == 0 then st.regs[t] else Advance(st.regs[PC], 1)])
  }

  /** Forward distances that are whole words lead back to the address they were taken from. */
  lemma DeltaTarget(pc: Word, tgt: Word)
    ensures (pc + (tgt - pc) % MODULUS) % MODULUS == tgt
  {
    var q := (tgt - pc) / MODULUS;
    assert pc + (tgt - pc) % MODULUS == tgt + (-q) * MODULUS;
    ModShift(tgt, -q);
  }

  /** A taken `zjump` whose target is not the next word leaves the block, or ends it when the target is the end. */
  lemma ZJumpFar(c: Reg, t: Reg, rest: seq<Line>, st: State)
    requires |rest| <= 1 && st.regs[c] == 0 && st.regs[t] != Advance(st.regs[PC], 1)
    ensures var code, js := [Macros.Plain(ZJump(c, t))] + rest, JumpState(st, c, t);
            Run(code, st) == Done(js) || Run(code, st) == Exit(js)
  {
    var code := [Macros.Plain(ZJump(c, t))] + rest;
    var pc := st.regs[PC];
    var js := JumpState(st, c, t);
    assert code[0].body.p == ZJump(c, t);
    assert Exec(ZJump(c, t), st) == Some(js);
    ZJumpElsewhere(code, st, js);
  }

  /** An instruction that sends control anywhere but the next word ends a block of two or leaves it. */
  lemma ZJumpElsewhere(code: seq<Line>, st: State, js: State)
    requires |code| <= 2 && code != [] && code[0].body.Instr? && Exec(code[0].body.p, st) == Some(js)
    requires js.regs[PC] != Advance(st.regs[PC], 1)
    ensures Run(code, st) == Done(js) || Run(code, st) == Exit(js)
  {
    hide Exec, Advance, Landing;
    var l := Landing(st.regs[PC], js.regs[PC], |code|);
    if l.Some? {
      FarLanding(st.regs[PC], js.regs[PC], |code|);
      assert code[2..] == [];
      assert Run(code, st) == Run(code[2..], js);
    }
  }

  /** A landing in a block of two that is not the next line is the end of the block. */
  lemma FarLanding(pc: Word, tgt: Word, n: nat)
    requires tgt != Advance(pc, 1) && n <= 2 && Landing(pc, tgt, n).Some?
    ensures Landing(pc, tgt, n) == Some(2) && n == 2
  {
    DeltaTarget(pc, tgt);
  }

  /**
   A taken `zjump` followed by at most one line: control goes to the target.
   When the target is the following line, execution goes on there.
   */
  lemma ZJumpTaken(c: Reg, t: Reg, rest: seq<Line>, st: State)
    requires |rest| <= 1 && st.regs[c] == 0
    ensures var code, js := [Macros.Plain(ZJump(c, t))] + rest, JumpState(st, c, t);
            if st.regs[t] == Advance(st.regs[PC], 1) then Run(code, st) == Run(rest, js)
            else Run(code, st) == Done(js) || Run(code, st) == Exit(js)
  {
    if st.regs[t] == Advance(st.regs[PC], 1) {
      var code := [Macros.Plain(ZJump(c, t))] + rest;
      assert code[0].body.p == ZJump(c, t);
      assert Exec(ZJump(c, t), st) == Some(JumpState(st, c, t));
      assert code[1..] == rest;
    } else {
      ZJumpFar(c, t, rest, st);
    }
  }

  /** A `zjump` not taken goes on with the following lines. */
  lemma ZJumpNotTaken(c: Reg, t: Reg, rest: seq<Line>, st: State)
    requires st.regs[c] != 0
    ensures Run([Macros.Plain(ZJump(c, t))] + rest, st) == Run(rest, JumpState(st, c, t))
  {
    var code := [Macros.Plain(ZJump(c, t))] + rest;
    assert code[0].body.p == ZJump(c, t);
    assert Exec(ZJump(c, t), st) == Some(JumpState(st, c, t));
    assert code[1..] == rest;
  }

  lemma RunEmpty(st: State)
    ensures Run([], st) == Done(st)
  {
  }

  /** A block that ends at `s1`, then `zjump c t` as the last line. */
  lemma ThenZJump(prefix: seq<Line>, c: Reg, t: Reg, st: State, s1: State)
    requires Run(prefix, st) == Done(s1) && s1.regs[PC] == Advance(st.regs[PC], |prefix|)
    ensures Reaches(Run(prefix + [Macros.Plain(ZJump(c, t))], st),
                    if s1.regs[c] == 0 then s1.regs[t] else Advance(st.regs[PC], |prefix| + 1))
    ensures Run(prefix + [Macros.Plain(ZJump(c, t))], st).st == JumpState(s1, c, t)
  {
    hide Run;
    var zj := [Macros.Plain(ZJump(c, t))];
    RunAppend(prefix, zj, st);
    assert zj + [] == zj;
    AdvanceAdd(st.regs[PC], |prefix|, 1);
    if s1.regs[c] == 0 {
      ZJumpTaken(c, t, [], s1);
      RunEmpty(JumpState(s1, c, t));
    } else {
      ZJumpNotTaken(c, t, [], s1);
      RunEmpty(JumpState(s1, c, t));
    }
  }

  /** Every operand's copy is between one and nine lines long. */
  lemma CopySize(a: Operands.Operand, d: Reg)
    ensures 1 <= |Macros.CopyCode(a, d)| <= 9
  {
  }

  /** `JUMP t` is at most fifteen lines long. */
  lemma JumpSize(t: Operands.Operand)
    ensures |Macros.JumpCode(t)| <= 15
  {
    CopySize(t, WS2);
  }

  /** The high half of `COPY 0 r7`: r7 holds zero, so `r7 := r7 + 0 * 2^16` leaves it zero. */
  lemma ZeroHighRuns(st: State, pc0: Word) returns (st': State)
    requires st.regs[WS0] == 0 && st.regs[PC] == Advance(pc0, 1)
    ensures Run(Macros.HighHalfCode(Add, 0, WS0), st) == Done(st')
    ensures st'.regs[WS0] == 0
    ensures st'.regs[PC] == Advance(pc0, 5)
    ensures Keeps(st, st', {WS0, WS1})
  {
    assert Macros.Msb(0) == 0;
    var c := Macros.HighHalfCode(Add, 0, WS0);
    var s1 := Move(c[0].body.p, st, pc0, 1);
    var s2 := Move(c[1].body.p, s1, pc0, 2);
    var s3 := Move(c[2].body.p, s2, pc0, 3);
    st' := Move(c[3].body.p, s3, pc0, 4);
    RunTrace(c, [st, s1, s2, s3, st']);
  }

  /** `COPY 0 r7`: the high half lands on r7 too, but it is zero, so r7 ends up zero. */
  lemma ZeroScratchRuns(st: State) returns (st': State)
    ensures |Macros.CopyCode(Operands.Nat(0), WS0)| == 5
    ensures Run(Macros.CopyCode(Operands.Nat(0), WS0), st) == Done(st')
    ensures st'.regs[WS0] == 0
    ensures st'.regs[PC] == Advance(st.regs[PC], 5)
    ensures Keeps(st, st', {WS0, WS1})
  {
    var pc := st.regs[PC];
    AdvanceZero(pc);
    assert Macros.Lsb(0) == 0;
    var first := [Macros.Plain(Copy(0, false, WS0))];
    var high := Macros.HighHalfCode(Add, 0, WS0);
    assert Macros.CopyCode(Operands.Nat(0), WS0) == first + high;
    hide Run, Macros.CopyCode, Macros.HighHalfCode;
    var s1 := MoveLast(first, st, pc, 0);
    st' := ZeroHighRuns(s1, pc);
    RunAppend(first, high, st);
    KeepsTrans(st, s1, st', {WS0}, {WS0, WS1});
    assert {WS0} + {WS0, WS1} == {WS0, WS1};
  }

  /**
   `JUMP t`, possibly followed by one more line: control goes to the value
   `t` had before the macro, and only r7, r8 and r9 change on the way. A
   target that is the following line is where execution goes on.
   */
  lemma JumpThenRuns(t: Operands.Operand, rest: seq<Line>, st: State, env: Env) returns (js: State)
    requires Fit(t) && |rest| <= 1
    requires Loaded(Macros.JumpCode(t), st.mem, st.regs[PC], env)
    ensures Known(t, env)
    ensures js.regs[PC] == Val(t, st, env) && Keeps(st, js, {WS0, WS1, WS2})
    ensures var code := Macros.JumpCode(t) + rest;
            if Val(t, st, env) == Advance(st.regs[PC], |Macros.JumpCode(t)|) then Run(code, st) == Run(rest, js)
            else Run(code, st) == Done(js) || Run(code, st) == Exit(js)
  {
    hide Run, Macros.CopyCode;
    var pc := st.regs[PC];
    var c1, c2 := Macros.CopyCode(t, WS2), Macros.CopyCode(Operands.Nat(0), WS0);
    var zj := [Macros.Plain(ZJump(WS0, WS2))];
    assert Macros.JumpCode(t) == c1 + (c2 + zj);
    assert Macros.JumpCode(t) + rest == (c1 + c2) + (zj + rest);
    LoadedSplit(c1, c2 + zj, st.mem, pc, env);
    var s1 := CopyRuns(t, WS2, st, env);
    var s2 := ZeroScratchRuns(s1);
    Compose.Chain(c1, c2, st, s1, s2);
    RunAppend(c1 + c2, zj + rest, st);
    AdvanceAdd(pc, |c1| + |c2|, 1);
    ZJumpTaken(WS0, WS2, rest, s2);
    js := JumpState(s2, WS0, WS2);
    KeepsTrans(st, s1, s2, {WS2, WS0, WS1}, {WS0, WS1});
  }

  /** `JUMP t` on its own: control always goes to `t`. */
  lemma JumpRuns(t: Operands.Operand, st: State, env: Env)
    requires Fit(t) && Loaded(Macros.JumpCode(t), st.mem, st.regs[PC], env)
    ensures Known(t, env)
    ensures Reaches(Run(Macros.JumpCode(t), st), Val(t, st, env))
    ensures Keeps(st, Run(Macros.JumpCode(t), st).st, {WS0, WS1, WS2})
  {
    hide Run;
    var js := JumpThenRuns(t, [], st, env);
    assert Macros.JumpCode(t) + [] == Macros.JumpCode(t);
    RunEmpty(js);
  }
}
