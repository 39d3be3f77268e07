/**
 NOTH, and the two negated jumps built on it. NZJUMP and NEJUMP test a value,
 skip over a JUMP to the fresh label on a NOTH line at their end when the
 value is zero, and take that JUMP otherwise.
 */
module NegatedJumps {
  import opened Machine
  import Operands
  import Macros
  import Bits
  import opened Semantics
  import Compose
  import ArithSemantics
  import opened JumpSemantics
  import opened Conditions

  /** A NOTH line, labelled or not, changes nothing but the program counter. */
  lemma NothLineRuns(line: Line, st: State) returns (st': State)
    requires line.body == Machine.Instr(Macros.NOTH_PRIM)
    ensures Run([line], st) == Done(st')
    ensures st'.regs[PC] == Advance(st.regs[PC], 1)
    ensures Keeps(st, st', {})
  {
    AdvanceZero(st.regs[PC]);
    st' := MoveLast([line], st, st.regs[PC], 0);
    Bits.BitAndSelf(st.regs[1]);
  }

  /** `NOTH` does nothing: every register but the program counter and all of memory are unchanged. */
  lemma NothRuns(st: State) returns (st': State)
    ensures Run(Macros.NothCode(), st) == Done(st')
    ensures st'.regs[PC] == Advance(st.regs[PC], |Macros.NothCode()|)
    ensures Keeps(st, st', {})
  {
    st' := NothLineRuns(Macros.NothCode()[0], st);
  }

  /** The code after the test of a negated jump: skip, copy the target, JUMP, the labelled NOTH. */
  function Tail(c: Reg, l: Reg, t: Operands.Operand, name: string): seq<Line> {
    [Macros.Plain(ZJump(c, l))] + (Macros.CopyCode(t, c) + (Macros.JumpCode(Operands.Reg(c)) + [Macros.LabelledNoth(name)]))
  }

  /** The skip taken: control lands on the NOTH line and falls off the end. */
  lemma SkipRuns(c: Reg, l: Reg, t: Operands.Operand, name: string, s1: State) returns (st': State)
    requires s1.regs[c] == 0 && s1.regs[l] == Advance(s1.regs[PC], |Tail(c, l, t, name)| - 1)
    ensures Run(Tail(c, l, t, name), s1) == Done(st')
    ensures st'.regs[PC] == Advance(s1.regs[PC], |Tail(c, l, t, name)|)
    ensures Keeps(s1, st', {})
  {
    hide Run, Macros.CopyCode, Macros.JumpCode;
    var tail := Tail(c, l, t, name);
    var n := |tail| - 1;
    CopySize(t, c);
    JumpSize(Operands.Reg(c));
    var s2 := JumpForward(tail, s1, n);
    assert tail[n..] == [Macros.LabelledNoth(name)];
    st' := NothLineRuns(Macros.LabelledNoth(name), s2);
    AdvanceAdd(s1.regs[PC], n, 1);
  }

  /** The skip not taken: the target is copied into the tested register and the JUMP taken. */
  lemma NoSkipRuns(c: Reg, l: Reg, t: Operands.Operand, name: string, s1: State, env: Env)
    returns (js: State)
    requires c == WS2 || c == WS3
    requires s1.regs[c] != 0 && Fit(t)
    requires Loaded(Tail(c, l, t, name), s1.mem, s1.regs[PC], env)
    ensures Known(t, env)
    ensures js.regs[PC] == Val(t, s1, env) && Keeps(s1, js, {c, WS0, WS1, WS2})
    ensures var nothAt := Advance(s1.regs[PC], |Tail(c, l, t, name)| - 1);
            if Val(t, s1, env) == nothAt then Run(Tail(c, l, t, name), s1) == Run([Macros.LabelledNoth(name)], js)
            else Run(Tail(c, l, t, name), s1) == Done(js) || Run(Tail(c, l, t, name), s1) == Exit(js)
  {
    hide Run, Macros.CopyCode, Macros.JumpCode;
    var pc := s1.regs[PC];
    var zj := [Macros.Plain(ZJump(c, l))];
    var ct, jc, ln := Macros.CopyCode(t, c), Macros.JumpCode(Operands.Reg(c)), [Macros.LabelledNoth(name)];
    assert Tail(c, l, t, name) == zj + (ct + (jc + ln));
    ZJumpNotTaken(c, l, ct + (jc + ln), s1);
    var s2 := JumpState(s1, c, l);
    assert Keeps(s1, s2, {});
    LoadedSplit(zj, ct + (jc + ln), s1.mem, pc, env);
    LoadedSplit(ct, jc + ln, s1.mem, Advance(pc, 1), env);
    LoadedSplit(jc, ln, s1.mem, Advance(Advance(pc, 1), |ct|), env);
    var s3 := CopyRuns(t, c, s2, env);
    ValKeeps(t, s1, s2, {}, env);
    RunAppend(ct, jc + ln, s2);
    js := JumpThenRuns(Operands.Reg(c), ln, s3, env);
    AdvanceAdd(pc, 1, |ct|);
    AdvanceAdd(pc, 1 + |ct|, |jc|);
    KeepsTrans(s1, s2, s3, {}, {c, WS0, WS1});
    KeepsTrans(s1, s3, js, {} + {c, WS0, WS1}, {WS0, WS1, WS2});
    assert {} + {c, WS0, WS1} + {WS0, WS1, WS2} == {c, WS0, WS1, WS2};
  }

  /**
   A test block that leaves its value in `c` and the NOTH line's address in
   `l`, then the tail: when the value is zero control falls off the end of the
   macro, otherwise it goes to `t`; a `t` equal to the NOTH line's address
   also ends at the end, one NOTH later.
   */
  lemma NegatedTailRuns(head: seq<Line>, c: Reg, l: Reg, t: Operands.Operand, name: string,
                        st: State, s1: State, env: Env)
    requires (c == WS2 && l == WS3) || (c == WS3 && l == WS2)
    requires Run(head, st) == Done(s1) && s1.regs[PC] == Advance(st.regs[PC], |head|)
    requires Keeps(st, s1, SCRATCH) && Clean(t)
    requires Loaded(head + Tail(c, l, t, name), st.mem, st.regs[PC], env)
    requires s1.regs[l] == Advance(st.regs[PC], |head + Tail(c, l, t, name)| - 1)
    ensures Known(t, env)
    ensures var code := head + Tail(c, l, t, name);
            var nothAt := Advance(st.regs[PC], |code| - 1);
            && Reaches(Run(code, st), if s1.regs[c] == 0 || Val(t, st, env) == nothAt
                                      then Advance(st.regs[PC], |code|) else Val(t, st, env))
            && Keeps(st, Run(code, st).st, SCRATCH)
  {
    hide Run, Macros.CopyCode, Macros.JumpCode;
    var pc := st.regs[PC];
    var tail := Tail(c, l, t, name);
    var code := head + tail;
    RunAppend(head, tail, st);
    LoadedSplit(head, tail, st.mem, pc, env);
    AdvanceAdd(pc, |head|, |tail| - 1);
    AdvanceAdd(pc, |head|, |tail|);
    if s1.regs[c] == 0 {
      assert tail == [Macros.Plain(ZJump(c, l))] + (Macros.CopyCode(t, c) + (Macros.JumpCode(Operands.Reg(c)) + [Macros.LabelledNoth(name)]));
      LoadedSplit([Macros.Plain(ZJump(c, l))], Macros.CopyCode(t, c) + (Macros.JumpCode(Operands.Reg(c)) + [Macros.LabelledNoth(name)]), st.mem, Advance(pc, |head|), env);
      LoadedSplit(Macros.CopyCode(t, c), Macros.JumpCode(Operands.Reg(c)) + [Macros.LabelledNoth(name)], st.mem, Advance(Advance(pc, |head|), 1), env);
      CopyKnown(t, c, st.mem, Advance(Advance(pc, |head|), 1), env);
      var s2 := SkipRuns(c, l, t, name, s1);
      KeepsTrans(st, s1, s2, SCRATCH, {});
      assert SCRATCH + {} == SCRATCH;
    } else {
      var js := NoSkipRuns(c, l, t, name, s1, env);
      ValKeeps(t, st, s1, SCRATCH, env);
      KeepsTrans(st, s1, js, SCRATCH, {c, WS0, WS1, WS2});
      assert SCRATCH + {c, WS0, WS1, WS2} == SCRATCH;
      if Val(t, st, env) == Advance(pc, |code| - 1) {
        var s2 := NothLineRuns(Macros.LabelledNoth(name), js);
        AdvanceAdd(pc, |code| - 1, 1);
        KeepsTrans(st, js, s2, SCRATCH, {});
        assert SCRATCH + {} == SCRATCH;
      }
    }
  }

  /**
   `NZJUMP c t`, whose fresh label `name` the assembler places on its last
   line: control goes to `t` exactly when `c` is not zero, and otherwise
   falls off the end of the macro.
   */
  lemma NZJumpRuns(c: Operands.Operand, t: Operands.Operand, name: string, st: State, env: Env)
    requires Fit(c) && Clean(t)
    requires Loaded(Macros.NZJumpCode(c, t, name), st.mem, st.regs[PC], env)
    requires name in env && env[name] == Advance(st.regs[PC], |Macros.NZJumpCode(c, t, name)| - 1)
    ensures Known(c, env) && Known(t, env)
    ensures var code := Macros.NZJumpCode(c, t, name);
            Reaches(Run(code, st), if Val(c, st, env) == 0 || Val(t, st, env) == env[name]
                                   then Advance(st.regs[PC], |code|) else Val(t, st, env))
    ensures Keeps(st, Run(Macros.NZJumpCode(c, t, name), st).st, SCRATCH)
  {
    hide Run, Macros.CopyCode, Macros.JumpCode;
    var head := Macros.CopyCode(c, WS2) + Macros.CopyCode(Operands.Label(name), WS3);
    assert Macros.NZJumpCode(c, t, name) == head + Tail(WS2, WS3, t, name);
    LoadedSplit(head, Tail(WS2, WS3, t, name), st.mem, st.regs[PC], env);
    var s1 := Compose.TwoCopiesRuns(c, Operands.Label(name), WS2, WS3, st, env);
    assert {WS2, WS3, WS0, WS1} == SCRATCH;
    NegatedTailRuns(head, WS2, WS3, t, name, st, s1, env);
  }

  /**
   `NEJUMP a b t`, whose fresh label `name` the assembler places on its last
   line: control goes to `t` exactly when `a` and `b` differ, and otherwise
   falls off the end of the macro.
   */
  lemma NEJumpRuns(a: Operands.Operand, b: Operands.Operand, t: Operands.Operand, name: string,
                   st: State, env: Env)
    requires Fit(a) && Fit(b) && (Macros.Reads(b, WS3) ==> !Macros.Reads(a, WS2)) && Clean(t)
    requires Loaded(Macros.NEJumpCode(a, b, t, name), st.mem, st.regs[PC], env)
    requires name in env && env[name] == Advance(st.regs[PC], |Macros.NEJumpCode(a, b, t, name)| - 1)
    ensures Known(a, env) && Known(b, env) && Known(t, env)
    ensures var code := Macros.NEJumpCode(a, b, t, name);
            Reaches(Run(code, st), if Val(a, st, env) == Val(b, st, env) || Val(t, st, env) == env[name]
                                   then Advance(st.regs[PC], |code|) else Val(t, st, env))
    ensures Keeps(st, Run(Macros.NEJumpCode(a, b, t, name), st).st, SCRATCH)
  {
    hide Run, Macros.CopyCode, Macros.JumpCode, Macros.ArithCode;
    var pc := st.regs[PC];
    var test, copy := Macros.ArithCode(Sub, a, b, WS3), Macros.CopyCode(Operands.Label(name), WS2);
    var head := test + copy;
    assert Macros.NEJumpCode(a, b, t, name) == head + Tail(WS3, WS2, t, name);
    LoadedSplit(head, Tail(WS3, WS2, t, name), st.mem, pc, env);
    LoadedSplit(test, copy, st.mem, pc, env);
    var s0 := ArithSemantics.ArithRuns(Sub, a, b, WS3, st, env);
    var s1 := CopyRuns(Operands.Label(name), WS2, s0, env);
    Compose.Chain(test, copy, st, s0, s1);
    KeepsTrans(st, s0, s1, {WS3, WS0, WS1, WS2}, {WS2, WS0, WS1});
    assert {WS3, WS0, WS1, WS2} + {WS2, WS0, WS1} == SCRATCH;
    ZeroDifference(Val(a, st, env), Val(b, st, env));
    NegatedTailRuns(head, WS3, WS2, t, name, st, s1, env);
  }
}
