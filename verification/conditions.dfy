/**
 The conditional jumps. GJUMP, GEJUMP and EJUMP compute a test value into
 r10 and end in `zjump r10 r9` with the target in r9; LJUMP and LEJUMP are
 GJUMP and GEJUMP with the first two operands swapped; ZJUMP tests its
 operand directly. The sign tests read bit 31 of a 32-bit difference, which
 orders the operands as signed numbers as long as the difference does not
 overflow.
 */
module Conditions {
  import opened Wrappers
  import opened Machine
  import Operands
  import Macros
  import Bits
  import opened Semantics
  import Compose
  import ArithSemantics
  import opened JumpSemantics
  import SourceMacros

  /** The four registers the macros use as working storage. */
  const SCRATCH: set<Reg> := {WS0, WS1, WS2, WS3}

  /** An operand whose value survives the working storage being written. */
  predicate Clean(a: Operands.Operand) {
    Fit(a) && !Macros.Reads(a, WS2) && !Macros.Reads(a, WS3)
  }

  /** A word read as a 32-bit two's-complement number. */
  function Signed(w: Word): int {
    if w >= Macros.SIGN_DIVISOR then w - MODULUS else w
  }

  /** The signed difference `x - y` fits in 32 bits. */
  predicate NoOverflow(x: Word, y: Word) {
    -(Macros.SIGN_DIVISOR as int) <= Signed(x) - Signed(y) < Macros.SIGN_DIVISOR
  }

  /** Without overflow, the 32-bit difference `x - y` has its sign bit set exactly when `x < y` as signed numbers. */
  lemma SignOfDifference(x: Word, y: Word)
    requires NoOverflow(x, y)
    ensures (x - y) % MODULUS >= Macros.SIGN_DIVISOR <==> Signed(x) < Signed(y)
  {
    var s := Signed(x) - Signed(y);
    var kx := if x >= Macros.SIGN_DIVISOR then 1 else 0;
    var ky := if y >= Macros.SIGN_DIVISOR then 1 else 0;
    assert x - y == s + (kx - ky) * MODULUS;
    ModShift(s, kx - ky);
    if s < 0 {
      ModShift(s, 1);
      assert (s + MODULUS) % MODULUS == s + MODULUS;
    }
  }

  /** Two words are equal exactly when their 32-bit difference is zero. */
  lemma ZeroDifference(x: Word, y: Word)
    ensures (x - y) % MODULUS == 0 <==> x == y
  {
    if x < y {
      ModShift(x - y, 1);
    }
  }

  /**
   The tail the three sign and equality tests share: after a block that
   leaves its test value in r10, copy `t` into r9 and `zjump r10 r9`.
   */
  lemma TargetJumpRuns(prefix: seq<Line>, t: Operands.Operand, st: State, s1: State, env: Env)
    requires Run(prefix, st) == Done(s1) && s1.regs[PC] == Advance(st.regs[PC], |prefix|)
    requires Keeps(st, s1, SCRATCH) && Clean(t)
    requires Loaded(prefix + Macros.CopyCode(t, WS2), st.mem, st.regs[PC], env)
    ensures Known(t, env)
    ensures var code := prefix + Macros.CopyCode(t, WS2) + [Macros.Plain(ZJump(WS3, WS2))];
            && Reaches(Run(code, st), if s1.regs[WS3] == 0 then Val(t, st, env) else Advance(st.regs[PC], |code|))
            && Keeps(st, Run(code, st).st, SCRATCH)
  {
    hide Run, Macros.CopyCode;
    var ct := Macros.CopyCode(t, WS2);
    LoadedSplit(prefix, ct, st.mem, st.regs[PC], env);
    var s2 := CopyRuns(t, WS2, s1, env);
    ValKeeps(t, st, s1, SCRATCH, env);
    Compose.Chain(prefix, ct, st, s1, s2);
    ThenZJump(prefix + ct, WS3, WS2, st, s2);
    KeepsTrans(st, s1, s2, SCRATCH, {WS2, WS0, WS1});
    assert SCRATCH + {WS2, WS0, WS1} == SCRATCH;
  }

  /** GJUMP's test value: the difference over 2^31, minus one, is zero exactly when the sign bit is set. */
  lemma GreaterTestValue(d: Word)
    ensures AluValue(Sub, AluValue(Div, d, Macros.SIGN_DIVISOR), 1) == 0 <==> d >= Macros.SIGN_DIVISOR
  {
    Bits.TopBitQuotient(d);
  }

  /** The first three blocks of GJUMP leave zero in r10 exactly when `b - a` has its sign bit set. */
  lemma GreaterTestRuns(a: Operands.Operand, b: Operands.Operand, st: State, env: Env) returns (st': State)
    requires Fit(a) && Fit(b) && (Macros.Reads(a, WS3) ==> !Macros.Reads(b, WS2))
    requires var code := Macros.ArithCode(Sub, b, a, WS3)
                         + Macros.ArithCode(Div, Operands.Reg(WS3), Operands.Nat(Macros.SIGN_DIVISOR), WS3)
                         + Macros.ArithCode(Sub, Operands.Reg(WS3), Operands.Nat(1), WS3);
             Loaded(code, st.mem, st.regs[PC], env)
    ensures Known(a, env) && Known(b, env)
    ensures var code := Macros.ArithCode(Sub, b, a, WS3)
                        + Macros.ArithCode(Div, Operands.Reg(WS3), Operands.Nat(Macros.SIGN_DIVISOR), WS3)
                        + Macros.ArithCode(Sub, Operands.Reg(WS3), Operands.Nat(1), WS3);
            && Run(code, st) == Done(st')
            && st'.regs[PC] == Advance(st.regs[PC], |code|)
    ensures st'.regs[WS3] == 0 <==> (Val(b, st, env) - Val(a, st, env)) % MODULUS >= Macros.SIGN_DIVISOR
    ensures Keeps(st, st', SCRATCH)
  {
    hide Run, Macros.ArithCode;
    var pc := st.regs[PC];
    var c1 := Macros.ArithCode(Sub, b, a, WS3);
    var c2 := Macros.ArithCode(Div, Operands.Reg(WS3), Operands.Nat(Macros.SIGN_DIVISOR), WS3);
    var c3 := Macros.ArithCode(Sub, Operands.Reg(WS3), Operands.Nat(1), WS3);
    LoadedSplit(c1 + c2, c3, st.mem, pc, env);
    LoadedSplit(c1, c2, st.mem, pc, env);
    var s1 := ArithSemantics.ArithRuns(Sub, b, a, WS3, st, env);
    var d := s1.regs[WS3];
    assert Val(Operands.Nat(Macros.SIGN_DIVISOR), s1, env) == Macros.SIGN_DIVISOR;
    var s2 := ArithSemantics.ArithRuns(Div, Operands.Reg(WS3), Operands.Nat(Macros.SIGN_DIVISOR), WS3, s1, env);
    Compose.Chain(c1, c2, st, s1, s2);
    st' := ArithSemantics.ArithRuns(Sub, Operands.Reg(WS3), Operands.Nat(1), WS3, s2, env);
    Compose.Chain(c1 + c2, c3, st, s2, st');
    GreaterTestValue(d);
    KeepsTrans(st, s1, s2, {WS3, WS0, WS1, WS2}, {WS3, WS0, WS1, WS2});
    KeepsTrans(st, s2, st', {WS3, WS0, WS1, WS2} + {WS3, WS0, WS1, WS2}, {WS3, WS0, WS1, WS2});
    assert {WS3, WS0, WS1, WS2} + {WS3, WS0, WS1, WS2} + {WS3, WS0, WS1, WS2} == SCRATCH;
  }

  /**
   `GJUMP a b t`: control goes to `t` exactly when `b - a` has its sign bit
   set, that is, without overflow, when `a > b` as signed numbers; otherwise it
   falls off the end of the macro.
   */
  lemma GJumpRuns(a: Operands.Operand, b: Operands.Operand, t: Operands.Operand, st: State, env: Env)
    requires Fit(a) && Fit(b) && (Macros.Reads(a, WS3) ==> !Macros.Reads(b, WS2)) && Clean(t)
    requires Loaded(Macros.GJumpCode(a, b, t), st.mem, st.regs[PC], env)
    ensures Known(a, env) && Known(b, env) && Known(t, env)
    ensures var taken := (Val(b, st, env) - Val(a, st, env)) % MODULUS >= Macros.SIGN_DIVISOR;
            Reaches(Run(Macros.GJumpCode(a, b, t), st),
                    if taken then Val(t, st, env) else Advance(st.regs[PC], |Macros.GJumpCode(a, b, t)|))
    ensures NoOverflow(Val(b, st, env), Val(a, st, env)) ==>
              ((Val(b, st, env) - Val(a, st, env)) % MODULUS >= Macros.SIGN_DIVISOR
               <==> Signed(Val(a, st, env)) > Signed(Val(b, st, env)))
    ensures Keeps(st, Run(Macros.GJumpCode(a, b, t), st).st, SCRATCH)
  {
    hide Run, Macros.ArithCode, Macros.CopyCode;
    var prefix := Macros.ArithCode(Sub, b, a, WS3)
                  + Macros.ArithCode(Div, Operands.Reg(WS3), Operands.Nat(Macros.SIGN_DIVISOR), WS3)
                  + Macros.ArithCode(Sub, Operands.Reg(WS3), Operands.Nat(1), WS3);
    var ct := Macros.CopyCode(t, WS2);
    assert Macros.GJumpCode(a, b, t) == prefix + ct + [Macros.Plain(ZJump(WS3, WS2))];
    LoadedSplit(prefix + ct, [Macros.Plain(ZJump(WS3, WS2))], st.mem, st.regs[PC], env);
    LoadedSplit(prefix, ct, st.mem, st.regs[PC], env);
    var s1 := GreaterTestRuns(a, b, st, env);
    TargetJumpRuns(prefix, t, st, s1, env);
    if NoOverflow(Val(b, st, env), Val(a, st, env)) {
      SignOfDifference(Val(b, st, env), Val(a, st, env));
    }
  }

  /**
   The source's `GJUMP r10 r2 t` never jumps, whatever the registers hold:
   its first block copies r2 into r10 before reading r10, so it tests
   `r2 - r2`, and the test value is then 0 / 2^31 - 1, which is not zero.
   */
  lemma AliasedGreaterRuns(t: Operands.Operand, st: State, env: Env)
    requires Clean(t)
    requires Loaded(SourceMacros.GJumpCode(Operands.Reg(WS3), Operands.Reg(2), t), st.mem, st.regs[PC], env)
    ensures var code := SourceMacros.GJumpCode(Operands.Reg(WS3), Operands.Reg(2), t);
            Reaches(Run(code, st), Advance(st.regs[PC], |code|))
  {
    hide Run, Macros.ArithCode, Macros.CopyCode;
    var a, b := Operands.Reg(WS3), Operands.Reg(2);
    var pc := st.regs[PC];
    var c1 := Macros.ArithCodeAsWritten(Sub, b, a, WS3);
    var c2 := Macros.ArithCode(Div, Operands.Reg(WS3), Operands.Nat(Macros.SIGN_DIVISOR), WS3);
    var c3 := Macros.ArithCode(Sub, Operands.Reg(WS3), Operands.Nat(1), WS3);
    var ct := Macros.CopyCode(t, WS2);
    SourceMacros.PlainCopyAgrees(b, WS3);
    SourceMacros.PlainCopyAgrees(a, WS2);
    assert SourceMacros.ArithCode(Sub, b, a, WS3) == c1;
    SourceMacros.RegNatAgrees(Div, WS3, Macros.SIGN_DIVISOR, WS3);
    SourceMacros.RegNatAgrees(Sub, WS3, 1, WS3);
    SourceMacros.CopyAgrees(t, WS2);
    var code := SourceMacros.GJumpCode(a, b, t);
    assert code == (c1 + c2 + c3) + ct + [Macros.Plain(ZJump(WS3, WS2))];
    LoadedSplit((c1 + c2 + c3) + ct, [Macros.Plain(ZJump(WS3, WS2))], st.mem, pc, env);
    LoadedSplit(c1 + c2 + c3, ct, st.mem, pc, env);
    LoadedSplit(c1 + c2, c3, st.mem, pc, env);
    LoadedSplit(c1, c2, st.mem, pc, env);
    var s1 := ArithSemantics.AliasedAsWrittenRuns(Sub, b, WS3, st, env);
    assert s1.regs[WS3] == 0;
    assert Val(Operands.Nat(Macros.SIGN_DIVISOR), s1, env) == Macros.SIGN_DIVISOR;
    var s2 := ArithSemantics.ArithRuns(Div, Operands.Reg(WS3), Operands.Nat(Macros.SIGN_DIVISOR), WS3, s1, env);
    Compose.Chain(c1, c2, st, s1, s2);
    var s3 := ArithSemantics.ArithRuns(Sub, Operands.Reg(WS3), Operands.Nat(1), WS3, s2, env);
    Compose.Chain(c1 + c2, c3, st, s2, s3);
    assert s3.regs[WS3] == MODULUS - 1;
    KeepsTrans(st, s1, s2, {WS3, WS0, WS1, WS2}, {WS3, WS0, WS1, WS2});
    KeepsTrans(st, s2, s3, {WS3, WS0, WS1, WS2} + {WS3, WS0, WS1, WS2}, {WS3, WS0, WS1, WS2});
    assert {WS3, WS0, WS1, WS2} + {WS3, WS0, WS1, WS2} + {WS3, WS0, WS1, WS2} == SCRATCH;
    TargetJumpRuns(c1 + c2 + c3, t, st, s3, env);
  }

  /** GEJUMP's test value: the difference over 2^31 is zero exactly when the sign bit is clear. */
  lemma AtLeastTestValue(d: Word)
    ensures AluValue(Div, d, Macros.SIGN_DIVISOR) == 0 <==> d < Macros.SIGN_DIVISOR
  {
    Bits.TopBitQuotient(d);
  }

  /** The first two blocks of GEJUMP leave zero in r10 exactly when `a - b` has its sign bit clear. */
  lemma AtLeastTestRuns(a: Operands.Operand, b: Operands.Operand, st: State, env: Env) returns (st': State)
    requires Fit(a) && Fit(b) && (Macros.Reads(b, WS3) ==> !Macros.Reads(a, WS2))
    requires var code := Macros.ArithCode(Sub, a, b, WS3)
                         + Macros.ArithCode(Div, Operands.Reg(WS3), Operands.Nat(Macros.SIGN_DIVISOR), WS3);
             Loaded(code, st.mem, st.regs[PC], env)
    ensures Known(a, env) && Known(b, env)
    ensures var code := Macros.ArithCode(Sub, a, b, WS3)
                        + Macros.ArithCode(Div, Operands.Reg(WS3), Operands.Nat(Macros.SIGN_DIVISOR), WS3);
            && Run(code, st) == Done(st')
            && st'.regs[PC] == Advance(st.regs[PC], |code|)
    ensures st'.regs[WS3] == 0 <==> (Val(a, st, env) - Val(b, st, env)) % MODULUS < Macros.SIGN_DIVISOR
    ensures Keeps(st, st', SCRATCH)
  {
    hide Run, Macros.ArithCode;
    var pc := st.regs[PC];
    var c1 := Macros.ArithCode(Sub, a, b, WS3);
    var c2 := Macros.ArithCode(Div, Operands.Reg(WS3), Operands.Nat(Macros.SIGN_DIVISOR), WS3);
    LoadedSplit(c1, c2, st.mem, pc, env);
    var s1 := ArithSemantics.ArithRuns(Sub, a, b, WS3, st, env);
    assert Val(Operands.Nat(Macros.SIGN_DIVISOR), s1, env) == Macros.SIGN_DIVISOR;
    st' := ArithSemantics.ArithRuns(Div, Operands.Reg(WS3), Operands.Nat(Macros.SIGN_DIVISOR), WS3, s1, env);
    Compose.Chain(c1, c2, st, s1, st');
    AtLeastTestValue(s1.regs[WS3]);
    KeepsTrans(st, s1, st', {WS3, WS0, WS1, WS2}, {WS3, WS0, WS1, WS2});
    assert {WS3, WS0, WS1, WS2} + {WS3, WS0, WS1, WS2} == SCRATCH;
  }

  /**
   `GEJUMP a b t`: control goes to `t` exactly when `a - b` has its sign bit
   clear, that is, without overflow, when `a >= b` as signed numbers.
   */
  lemma GEJumpRuns(a: Operands.Operand, b: Operands.Operand, t: Operands.Operand, st: State, env: Env)
    requires Fit(a) && Fit(b) && (Macros.Reads(b, WS3) ==> !Macros.Reads(a, WS2)) && Clean(t)
    requires Loaded(Macros.GEJumpCode(a, b, t), st.mem, st.regs[PC], env)
    ensures Known(a, env) && Known(b, env) && Known(t, env)
    ensures var taken := (Val(a, st, env) - Val(b, st, env)) % MODULUS < Macros.SIGN_DIVISOR;
            Reaches(Run(Macros.GEJumpCode(a, b, t), st),
                    if taken then Val(t, st, env) else Advance(st.regs[PC], |Macros.GEJumpCode(a, b, t)|))
    ensures NoOverflow(Val(a, st, env), Val(b, st, env)) ==>
              ((Val(a, st, env) - Val(b, st, env)) % MODULUS < Macros.SIGN_DIVISOR
               <==> Signed(Val(a, st, env)) >= Signed(Val(b, st, env)))
    ensures Keeps(st, Run(Macros.GEJumpCode(a, b, t), st).st, SCRATCH)
  {
    hide Run, Macros.ArithCode, Macros.CopyCode;
    var prefix := Macros.ArithCode(Sub, a, b, WS3)
                  + Macros.ArithCode(Div, Operands.Reg(WS3), Operands.Nat(Macros.SIGN_DIVISOR), WS3);
    var ct := Macros.CopyCode(t, WS2);
    assert Macros.GEJumpCode(a, b, t) == prefix + ct + [Macros.Plain(ZJump(WS3, WS2))];
    LoadedSplit(prefix + ct, [Macros.Plain(ZJump(WS3, WS2))], st.mem, st.regs[PC], env);
    LoadedSplit(prefix, ct, st.mem, st.regs[PC], env);
    var s1 := AtLeastTestRuns(a, b, st, env);
    TargetJumpRuns(prefix, t, st, s1, env);
    if NoOverflow(Val(a, st, env), Val(b, st, env)) {
      SignOfDifference(Val(a, st, env), Val(b, st, env));
    }
  }

  /** `EJUMP a b t`: control goes to `t` exactly when `a` and `b` are equal. */
  lemma EJumpRuns(a: Operands.Operand, b: Operands.Operand, t: Operands.Operand, st: State, env: Env)
    requires Fit(a) && Fit(b) && (Macros.Reads(b, WS3) ==> !Macros.Reads(a, WS2)) && Clean(t)
    requires Loaded(Macros.EJumpCode(a, b, t), st.mem, st.regs[PC], env)
    ensures Known(a, env) && Known(b, env) && Known(t, env)
    ensures Reaches(Run(Macros.EJumpCode(a, b, t), st),
                    if Val(a, st, env) == Val(b, st, env) then Val(t, st, env)
                    else Advance(st.regs[PC], |Macros.EJumpCode(a, b, t)|))
    ensures Keeps(st, Run(Macros.EJumpCode(a, b, t), st).st, SCRATCH)
  {
    hide Run, Macros.ArithCode, Macros.CopyCode;
    var prefix := Macros.ArithCode(Sub, a, b, WS3);
    var ct := Macros.CopyCode(t, WS2);
    assert Macros.EJumpCode(a, b, t) == prefix + ct + [Macros.Plain(ZJump(WS3, WS2))];
    LoadedSplit(prefix + ct, [Macros.Plain(ZJump(WS3, WS2))], st.mem, st.regs[PC], env);
    LoadedSplit(prefix, ct, st.mem, st.regs[PC], env);
    var s1 := ArithSemantics.ArithRuns(Sub, a, b, WS3, st, env);
    ZeroDifference(Val(a, st, env), Val(b, st, env));
    assert {WS3, WS0, WS1, WS2} == SCRATCH;
    TargetJumpRuns(prefix, t, st, s1, env);
  }

  /** `ZJUMP c t`: control goes to `t` exactly when `c` is zero. */
  lemma ZJumpMacroRuns(c: Operands.Operand, t: Operands.Operand, st: State, env: Env)
    requires Fit(c) && Fit(t) && !Macros.Reads(t, WS2)
    requires Loaded(Macros.ZJumpCode(c, t), st.mem, st.regs[PC], env)
    ensures Known(c, env) && Known(t, env)
    ensures Reaches(Run(Macros.ZJumpCode(c, t), st),
                    if Val(c, st, env) == 0 then Val(t, st, env)
                    else Advance(st.regs[PC], |Macros.ZJumpCode(c, t)|))
    ensures Keeps(st, Run(Macros.ZJumpCode(c, t), st).st, SCRATCH)
  {
    hide Run, Macros.CopyCode;
    var copies := Macros.CopyCode(c, WS2) + Macros.CopyCode(t, WS3);
    assert Macros.ZJumpCode(c, t) == copies + [Macros.Plain(ZJump(WS2, WS3))];
    LoadedSplit(copies, [Macros.Plain(ZJump(WS2, WS3))], st.mem, st.regs[PC], env);
    var s1 := Compose.TwoCopiesRuns(c, t, WS2, WS3, st, env);
    ThenZJump(copies, WS2, WS3, st, s1);
    assert {WS2, WS3, WS0, WS1} == SCRATCH;
  }

  /** The three operands of a jump macro as the parser delivers them. */
  function Operands3(a: Operands.Operand, b: Operands.Operand, t: Operands.Operand): seq<Option<Operands.Operand>> {
    [Some(a), Some(b), Some(t)]
  }

  /** LJUMP's operands are well formed, and it builds GJUMP's code on the swapped operands. */
  lemma LJumpBuild(a: Operands.Operand, b: Operands.Operand, t: Operands.Operand, name: string)
    ensures Macros.WellFormed(Macros.LJump, Operands3(a, b, t))
    ensures Macros.Build(Macros.LJump, Operands3(a, b, t), name) == Macros.GJumpCode(b, a, t)
   {
    hide Macros.GJumpCode, Macros.GEJumpCode, Macros.ArithCode, Macros.CopyCode;
  }

  /** LEJUMP's operands are well formed, and it builds GEJUMP's code on the swapped operands. */
  lemma LEJumpBuild(a: Operands.Operand, b: Operands.Operand, t: Operands.Operand, name: string)
    ensures Macros.WellFormed(Macros.LEJump, Operands3(a, b, t))
    ensures Macros.Build(Macros.LEJump, Operands3(a, b, t), name) == Macros.GEJumpCode(b, a, t)
   {
    hide Macros.GJumpCode, Macros.GEJumpCode, Macros.ArithCode, Macros.CopyCode;
  }

  /**
   `LJUMP a b t`, which builds GJUMP's code on `b a t`: control goes to `t`
   exactly when `a - b` has its sign bit set, without overflow when `a < b`.
   */
  lemma LJumpRuns(a: Operands.Operand, b: Operands.Operand, t: Operands.Operand, st: State, env: Env)
    requires Fit(a) && Fit(b) && (Macros.Reads(b, WS3) ==> !Macros.Reads(a, WS2)) && Clean(t)
    requires Loaded(Macros.GJumpCode(b, a, t), st.mem, st.regs[PC], env)
    ensures Known(a, env) && Known(b, env) && Known(t, env)
    ensures var code := Macros.GJumpCode(b, a, t);
            var taken := (Val(a, st, env) - Val(b, st, env)) % MODULUS >= Macros.SIGN_DIVISOR;
            && Reaches(Run(code, st), if taken then Val(t, st, env) else Advance(st.regs[PC], |code|))
            && (NoOverflow(Val(a, st, env), Val(b, st, env)) ==> (taken <==> Signed(Val(a, st, env)) < Signed(Val(b, st, env))))
            && Keeps(st, Run(code, st).st, SCRATCH)
  {
    GJumpRuns(b, a, t, st, env);
  }

  /**
   `LEJUMP a b t`, which builds GEJUMP's code on `b a t`: control goes to `t`
   exactly when `b - a` has its sign bit clear, without overflow when `a <= b`.
   */
  lemma LEJumpRuns(a: Operands.Operand, b: Operands.Operand, t: Operands.Operand, st: State, env: Env)
    requires Fit(a) && Fit(b) && (Macros.Reads(a, WS3) ==> !Macros.Reads(b, WS2)) && Clean(t)
    requires Loaded(Macros.GEJumpCode(b, a, t), st.mem, st.regs[PC], env)
    ensures Known(a, env) && Known(b, env) && Known(t, env)
    ensures var code := Macros.GEJumpCode(b, a, t);
            var taken := (Val(b, st, env) - Val(a, st, env)) % MODULUS < Macros.SIGN_DIVISOR;
            && Reaches(Run(code, st), if taken then Val(t, st, env) else Advance(st.regs[PC], |code|))
            && (NoOverflow(Val(b, st, env), Val(a, st, env)) ==> (taken <==> Signed(Val(a, st, env)) <= Signed(Val(b, st, env))))
            && Keeps(st, Run(code, st).st, SCRATCH)
  {
    GEJumpRuns(b, a, t, st, env);
  }

  /**
   Overflow: with r2 = 0x7fffffff (the largest signed word) and r3 = 0x80000002
   (a negative one), `GJUMP r2 r3 t` falls through although r2 > r3 as signed
   numbers, because `r3 - r2` wraps around to 3.
   */
  lemma GJumpOverflowExample(t: Operands.Operand, st: State, env: Env)
    requires st.regs[2] == 0x7fff_ffff && st.regs[3] == 0x8000_0002 && Clean(t)
    requires Loaded(Macros.GJumpCode(Operands.Reg(2), Operands.Reg(3), t), st.mem, st.regs[PC], env)
    ensures Signed(st.regs[2]) > Signed(st.regs[3])
    ensures !NoOverflow(st.regs[3], st.regs[2])
    ensures Reaches(Run(Macros.GJumpCode(Operands.Reg(2), Operands.Reg(3), t), st),
                    Advance(st.regs[PC], |Macros.GJumpCode(Operands.Reg(2), Operands.Reg(3), t)|))
  {
    hide Macros.GJumpCode;
    GJumpRuns(Operands.Reg(2), Operands.Reg(3), t, st, env);
    assert (0x8000_0002 - 0x7fff_ffff) % MODULUS == 3;
  }
}
