/**
 One pass of the rewriter exactly as the source writes it (`replace_`): the
 source's column layout, which pads a field with `ljust` and so adds nothing
 to a field that fills its column, and the source's macro code.

 On a program whose lines are safe it is the pass of the Rewriter module, and
 its second pass then changes nothing, as there. A line is safe when every
 field it is written with is narrower than its column, every number a macro
 call copies is below 2^40, a fresh label is shorter than 17 characters, and
 no macro call is aliased (SourceMacros.Unaliased). Outside those conditions
 the two passes can differ: a label of 18 characters or more runs into the
 mnemonic, and each further pass moves one more token into the label until
 the line has no instruction left.
 */
module SourcePass {
  import opened Wrappers
  import opened Layout
  import opened Lines
  import Machine
  import Operands
  import Macros
  import Labels
  import Text
  import Semantics
  import SourceMacros
  import Rewriter
  import Stable

  type LabelState = Labels.LabelState
  type Error = Rewriter.Error

  /** The text of a generated line, in the source's layout. */
  function LineText(l: Machine.Line): string {
    RenderAsWritten(l.lab, Machine.BodyTokens(l.body))
  }

  function Texts(code: seq<Machine.Line>): (r: seq<string>)
    ensures |r| == |code|
    ensures forall i :: 0 <= i < |code| ==> r[i] == LineText(code[i])
  {
    seq(|code|, i requires 0 <= i < |code| => LineText(code[i]))
  }

  /** The `NOTH` line that takes a macro call's label. */
  function NothText(lab: string): string {
    RenderAsWritten(lab, Machine.PrimTokens(Macros.NOTH_PRIM))
  }

  /** One macro call: the source's code, the same errors and label state as `Macros.Expand`. */
  function Expand(m: Macros.Macro, args: seq<Option<Operands.Operand>>, ls: LabelState)
    : Result<(seq<Machine.Line>, LabelState), Macros.Error>
  {
    match Macros.Expand(m, args, ls)
    case Err(e) => Err(e)
    case Ok((_, ls')) => Ok((SourceMacros.Build(m, args, Rewriter.CallLabel(m, ls)), ls'))
  }

  /** One line of the program, as the source passes it. */
  function PassLine(e: string, ls: LabelState): Result<(seq<string>, LabelState), Error> {
    var toks := Split(e);
    if toks == [] then Err(Rewriter.NoInstruction)
    else
      var (lab, rest) := Rewriter.Fields(toks);
      if rest == [] then Err(Rewriter.NoInstruction)
      else if rest[0] in Macros.CONSTANT_NAMES then Err(Rewriter.NotCallable(rest[0]))
      else match Macros.Lookup(rest[0])
        case None => Ok(([RenderAsWritten(lab, rest)], ls))
        case Some(m) =>
          match Expand(m, Operands.ParseArgs(rest[1..]), ls)
          case Err(reason) => Err(Rewriter.BadCall(reason))
          case Ok((code, ls')) => Ok(([NothText(lab)] + Texts(code), ls'))
  }

  function PassLines(es: seq<string>, ls: LabelState): Result<(seq<string>, LabelState), Error>
    decreases |es|
  {
    if es == [] then Ok(([], ls))
    else
      match PassLine(es[0], ls)
      case Err(e) => Err(e)
      case Ok((out, ls1)) =>
        match PassLines(es[1..], ls1)
        case Err(e) => Err(e)
        case Ok((outs, ls2)) => Ok((out + outs, ls2))
  }

  /** `replace_` as the source writes it. */
  function Pass(asm: string, ls: LabelState): Result<(string, LabelState), Error> {
    match PassLines(Rewriter.Entries(asm), ls)
    case Err(e) => Err(e)
    case Ok((lines, ls')) => Ok((Output(lines), ls'))
  }

  // ---------------------------------------------------------------------------
  // Safe lines

  /** Every field narrower than its column: label below 18 characters, mnemonic below 8, middle operands below 18. */
  predicate Fits(lab: string, toks: seq<string>) {
    |lab| < SECT_LEN && FitsColumns(toks, FUNC_LEN)
  }

  predicate LineFits(l: Machine.Line) {
    Fits(l.lab, Machine.BodyTokens(l.body))
  }

  predicate CodeFits(code: seq<Machine.Line>) {
    forall l :: l in code ==> LineFits(l)
  }

  /** A number the copy code splits into half-words below 2^24 each. */
  predicate Short(a: Operands.Operand) {
    && (a.Nat? ==> a.v < Semantics.LITERAL_LIMIT)
    && (a.RegOff? ==> Macros.Magnitude(a.k) < Semantics.LITERAL_LIMIT)
  }

  /** A macro call whose code the source writes as the model does. */
  predicate CallSafe(m: Macros.Macro, args: seq<Option<Operands.Operand>>, ls: LabelState) {
    Macros.WellFormed(m, args) ==>
      && SourceMacros.Unaliased(m, args)
      && (forall i :: 0 <= i < |args| ==> Short(args[i].value))
      && (Macros.NeedsLabel(m) ==> |Labels.NewLabel(ls).0| < SECT_LEN - 1)
  }

  /** A program line the source passes as the model does. */
  predicate LineSafe(e: string, ls: LabelState) {
    var toks := Split(e);
    toks != [] && Rewriter.Fields(toks).1 != [] ==>
      var (lab, rest) := Rewriter.Fields(toks);
      || rest[0] in Macros.CONSTANT_NAMES
      || (&& |lab| < SECT_LEN
          && match Macros.Lookup(rest[0])
             case None => FitsColumns(rest, FUNC_LEN)
             case Some(m) => CallSafe(m, Operands.ParseArgs(rest[1..]), ls))
  }

  /** Every line safe in the label state the lines before it leave. */
  predicate SafeLines(es: seq<string>, ls: LabelState)
    decreases |es|
  {
    es == [] ||
    (&& LineSafe(es[0], ls)
     && match Rewriter.PassLine(es[0], ls)
        case Err(_) => true
        case Ok((_, ls1)) => SafeLines(es[1..], ls1))
  }

  // ---------------------------------------------------------------------------
  // Generated lines fit their columns

  lemma RegNameShort(r: Machine.Reg)
    ensures |Machine.RegName(r)| <= 3
  {
    Text.DigitsShort(r, 10, 2);
  }

  /** A primitive whose immediate the machine accepts is written in fitting columns. */
  lemma PlainFits(p: Machine.Prim)
    requires p.Copy? ==> p.imm < Machine.IMM_LIMIT
    ensures LineFits(Macros.Plain(p))
  {
    match p {
      case Alu(op, a, b, d) =>
        RegNameShort(a);
        RegNameShort(b);
      case Copy(imm, hex, d) =>
        if hex {
          Text.DigitsShort(imm, 16, 6);
        } else {
          Text.DigitsShort(imm, 10, 8);
        }
      case Load(a, d) =>
        RegNameShort(a);
      case Store(s, a) =>
        RegNameShort(s);
      case ZJump(c, t) =>
        RegNameShort(c);
    }
  }

  lemma HighHalfFits(op: Machine.AluOp, v: nat, d: Machine.Reg)
    requires v < Semantics.LITERAL_LIMIT
    ensures CodeFits(Macros.HighHalfCode(op, v, d))
  {
    Semantics.HalfWordSplit(v);
    PlainFits(Machine.Copy(Macros.Msb(v), false, Machine.WS0));
    PlainFits(Machine.Copy(Macros.HALF_MODULUS, false, Machine.WS1));
    PlainFits(Machine.Alu(Machine.Mult, Machine.WS0, Machine.WS1, Machine.WS0));
    PlainFits(Machine.Alu(op, d, Machine.WS0, d));
  }

  lemma NatFits(v: nat, d: Machine.Reg)
    requires v < Semantics.LITERAL_LIMIT
    ensures CodeFits(Macros.CopyNatCode(v, d))
  {
    hide Macros.HighHalfCode;
    Semantics.HalfWordSplit(v);
    PlainFits(Machine.Copy(Macros.Lsb(v), false, d));
    HighHalfFits(Machine.Add, v, d);
  }

  lemma OffsetFits(b: Machine.Reg, k: int, d: Machine.Reg)
    requires Macros.Magnitude(k) < Semantics.LITERAL_LIMIT
    ensures CodeFits(Macros.CopyOffsetCode(b, k, d))
  {
    hide Macros.HighHalfCode, Macros.CopyNatCode;
    var v := Macros.Magnitude(k);
    Semantics.HalfWordSplit(v);
    PlainFits(Machine.Copy(Macros.Lsb(v), false, Machine.WS1));
    PlainFits(Machine.Alu(Macros.OffsetOp(k), d, Machine.WS1, d));
    HighHalfFits(Macros.OffsetOp(k), v, d);
    NatFits(v, d);
    PlainFits(Machine.Alu(Macros.OffsetOp(k), b, d, d));
  }

  lemma LabelFits(name: string, d: Machine.Reg)
    ensures CodeFits(Macros.CopyLabelCode(name, d))
  {
    PlainFits(Machine.Alu(Machine.And, Machine.PC, Machine.PC, d));
    PlainFits(Machine.Copy(0x20, true, Machine.WS0));
    PlainFits(Machine.Copy(0x4, true, Machine.WS1));
    PlainFits(Machine.Alu(Machine.Add, d, Machine.WS0, Machine.WS0));
    PlainFits(Machine.Alu(Machine.Add, Machine.WS0, Machine.WS1, Machine.WS1));
    PlainFits(Machine.Load(Machine.WS0, d));
    PlainFits(Machine.Copy(0x0, true, Machine.WS0));
    PlainFits(Machine.ZJump(Machine.WS0, Machine.WS1));
  }

  lemma CopyFits(a: Operands.Operand, d: Machine.Reg)
    requires Short(a)
    ensures CodeFits(Macros.CopyCode(a, d))
  {
    hide Macros.CopyNatCode, Macros.CopyOffsetCode, Macros.CopyLabelCode;
    match a {
      case Reg(r) => PlainFits(Machine.Alu(Machine.And, r, r, d));
      case Nat(v) => NatFits(v, d);
      case RegOff(b, k) => OffsetFits(b, k, d);
      case Label(name) => LabelFits(name, d);
    }
  }

  lemma ArithFits(op: Machine.AluOp, a1: Operands.Operand, a2: Operands.Operand, d: Machine.Reg)
    requires Short(a1) && Short(a2)
    ensures CodeFits(Macros.ArithCode(op, a1, a2, d))
  {
    hide Macros.CopyCode;
    CopyFits(a1, d);
    CopyFits(a2, Machine.WS2);
    PlainFits(Machine.Alu(op, d, Machine.WS2, d));
  }

  lemma JumpFits(t: Operands.Operand)
    requires Short(t)
    ensures CodeFits(Macros.JumpCode(t))
  {
    hide Macros.CopyCode;
    CopyFits(t, Machine.WS2);
    CopyFits(Operands.Nat(0), Machine.WS0);
    PlainFits(Machine.ZJump(Machine.WS0, Machine.WS2));
  }

  /** The `NOTH` line fits whenever its label does. */
  lemma NothFits(lab: string)
    requires |lab| < SECT_LEN
    ensures Fits(lab, Machine.PrimTokens(Macros.NOTH_PRIM))
  {
    Rewriter.NothTokens();
  }

  /** The tail of the negated jumps: the fresh label's address, the jump over, the labelled `NOTH`. */
  lemma NegatedFits(c: Machine.Reg, name: string, t: Operands.Operand, c2: Machine.Reg)
    requires |name| < SECT_LEN - 1 && Short(t)
    ensures CodeFits(Macros.CopyCode(Operands.Label(name), c) + [Macros.Plain(Machine.ZJump(c2, c))]
                     + Macros.CopyCode(t, c2) + Macros.JumpCode(Operands.Reg(c2))
                     + [Macros.LabelledNoth(name)])
  {
    hide Macros.CopyCode, Macros.JumpCode;
    CopyFits(Operands.Label(name), c);
    PlainFits(Machine.ZJump(c2, c));
    CopyFits(t, c2);
    JumpFits(Operands.Reg(c2));
    NothFits(name + ":");
  }

  /** Every line of a call's code fits its columns when its numbers are below 2^40 and its fresh label is short. */
  lemma BuildFits(m: Macros.Macro, args: seq<Option<Operands.Operand>>, name: string)
    requires Macros.WellFormed(m, args)
    requires forall i :: 0 <= i < |args| ==> Short(args[i].value)
    requires Macros.NeedsLabel(m) ==> |name| < SECT_LEN - 1
    ensures CodeFits(Macros.Build(m, args, name))
  {
    hide Macros.CopyCode, Macros.ArithCode, Macros.JumpCode;
    var a := seq(|args|, i requires 0 <= i < |args| => args[i].value);
    assert forall i :: 0 <= i < |a| ==> Short(a[i]);
    var one := Operands.Nat(1);
    var ws3 := Operands.Reg(Machine.WS3);
    var word := Operands.Nat(Machine.WORD_LEN);
    var sp := Operands.Reg(Machine.STACK_PTR);
    var half := Operands.Nat(Macros.SIGN_DIVISOR);
    match m {
      case Noth =>
        PlainFits(Macros.NOTH_PRIM);
      case Arith(op) =>
        ArithFits(op, a[0], a[1], a[2].r);
      case Not =>
        CopyFits(a[0], a[1].r);
        ArithFits(Machine.Mult, Operands.Reg(a[1].r), Operands.Nat(Macros.ALL_ONES), a[1].r);
        ArithFits(Machine.Sub, Operands.Reg(a[1].r), one, a[1].r);
      case Jump =>
        JumpFits(a[0]);
      case GJump =>
        ArithFits(Machine.Sub, a[1], a[0], Machine.WS3);
        ArithFits(Machine.Div, ws3, half, Machine.WS3);
        ArithFits(Machine.Sub, ws3, one, Machine.WS3);
        CopyFits(a[2], Machine.WS2);
        PlainFits(Machine.ZJump(Machine.WS3, Machine.WS2));
      case GEJump =>
        ArithFits(Machine.Sub, a[0], a[1], Machine.WS3);
        ArithFits(Machine.Div, ws3, half, Machine.WS3);
        CopyFits(a[2], Machine.WS2);
        PlainFits(Machine.ZJump(Machine.WS3, Machine.WS2));
      case LJump =>
        ArithFits(Machine.Sub, a[0], a[1], Machine.WS3);
        ArithFits(Machine.Div, ws3, half, Machine.WS3);
        ArithFits(Machine.Sub, ws3, one, Machine.WS3);
        CopyFits(a[2], Machine.WS2);
        PlainFits(Machine.ZJump(Machine.WS3, Machine.WS2));
      case LEJump =>
        ArithFits(Machine.Sub, a[1], a[0], Machine.WS3);
        ArithFits(Machine.Div, ws3, half, Machine.WS3);
        CopyFits(a[2], Machine.WS2);
        PlainFits(Machine.ZJump(Machine.WS3, Machine.WS2));
      case ZJump =>
        CopyFits(a[0], Machine.WS2);
        CopyFits(a[1], Machine.WS3);
        PlainFits(Machine.ZJump(Machine.WS2, Machine.WS3));
      case NZJump =>
        CopyFits(a[0], Machine.WS2);
        NegatedFits(Machine.WS3, name, a[1], Machine.WS2);
      case EJump =>
        ArithFits(Machine.Sub, a[0], a[1], Machine.WS3);
        CopyFits(a[2], Machine.WS2);
        PlainFits(Machine.ZJump(Machine.WS3, Machine.WS2));
      case NEJump =>
        ArithFits(Machine.Sub, a[0], a[1], Machine.WS3);
        NegatedFits(Machine.WS2, name, a[2], Machine.WS3);
      case Copy =>
        CopyFits(a[0], a[1].r);
      case Load =>
        CopyFits(a[0], a[1].r);
        PlainFits(Machine.Load(a[1].r, a[1].r));
      case Store =>
        CopyFits(a[0], Machine.WS2);
        CopyFits(a[1], Machine.WS3);
        PlainFits(Machine.Store(Machine.WS2, Machine.WS3));
      case Push =>
        ArithFits(Machine.Sub, sp, word, Machine.STACK_PTR);
        CopyFits(a[0], Machine.WS2);
        CopyFits(sp, Machine.WS3);
        PlainFits(Machine.Store(Machine.WS2, Machine.WS3));
      case Pop =>
        CopyFits(sp, a[0].r);
        PlainFits(Machine.Load(a[0].r, a[0].r));
        ArithFits(Machine.Add, sp, word, Machine.STACK_PTR);
    }
  }

  // ---------------------------------------------------------------------------
  // On safe lines the source's pass is the model's

  lemma NothAgrees(lab: string)
    requires |lab| < SECT_LEN
    ensures NothText(lab) == Rewriter.NothText(lab)
  {
    NothFits(lab);
    RenderAgreesWhenFieldsFit(lab, Machine.PrimTokens(Macros.NOTH_PRIM));
  }

  lemma TextsAgree(code: seq<Machine.Line>)
    requires CodeFits(code)
    ensures Texts(code) == Rewriter.Texts(code)
  {
    hide Render, RenderAsWritten, FitsColumns;
    var a, b := Texts(code), Rewriter.Texts(code);
    forall i | 0 <= i < |code|
      ensures a[i] == b[i]
    {
      var l := code[i];
      assert l in code;
      assert LineFits(l);
      RenderAgreesWhenFieldsFit(l.lab, Machine.BodyTokens(l.body));
      assert a[i] == LineText(l);
      assert b[i] == Rewriter.LineText(l);
    }
    assert a == b;
  }

  /** A safe line: the source writes the same lines as the model, or fails the same way, and leaves the same label state. */
  lemma PassLineAgrees(e: string, ls: LabelState)
    requires LineSafe(e, ls)
    ensures PassLine(e, ls) == Rewriter.PassLine(e, ls)
  {
    hide Macros.Build, SourceMacros.Build, Operands.ParseArgs, Render, RenderAsWritten, Texts, Rewriter.Texts;
    var toks := Split(e);
    if toks != [] {
      var (lab, rest) := Rewriter.Fields(toks);
      if rest != [] && rest[0] !in Macros.CONSTANT_NAMES {
        match Macros.Lookup(rest[0]) {
          case None =>
            RenderAgreesWhenFieldsFit(lab, rest);
          case Some(m) =>
            var args := Operands.ParseArgs(rest[1..]);
            if Macros.WellFormed(m, args) {
              var name := Rewriter.CallLabel(m, ls);
              SourceMacros.BuildAgrees(m, args, name);
              BuildFits(m, args, name);
              TextsAgree(Macros.Build(m, args, name));
              NothAgrees(lab);
            }
        }
      }
    }
  }

  lemma {:induction false} PassLinesAgree(es: seq<string>, ls: LabelState)
    requires SafeLines(es, ls)
    ensures PassLines(es, ls) == Rewriter.PassLines(es, ls)
    decreases |es|
  {
    if es != [] {
      PassLineAgrees(es[0], ls);
      match Rewriter.PassLine(es[0], ls) {
        case Err(_) =>
        case Ok((_, ls1)) => PassLinesAgree(es[1..], ls1);
      }
    }
  }

  /** On a program whose lines are safe, the source's pass is the model's. */
  lemma PassAgrees(asm: string, ls: LabelState)
    requires SafeLines(Rewriter.Entries(asm), ls)
    ensures Pass(asm, ls) == Rewriter.Pass(asm, ls)
  {
    PassLinesAgree(Rewriter.Entries(asm), ls);
  }

  // ---------------------------------------------------------------------------
  // The second pass

  /** A line read back as a label and tokens that fit their columns. */
  predicate FitText(t: string) {
    var toks := Split(t);
    |toks| >= 1 && var (lab, rest) := Rewriter.Fields(toks); Fits(lab, rest)
  }

  /** A rendered line is read back as the label and tokens it was written with. */
  lemma FieldsOfRender(lab: string, toks: seq<string>)
    requires Stable.GoodLab(lab)
    requires |toks| >= 1 && ValidTokens(toks)
    requires lab == "" ==> ':' !in toks[0]
    ensures |Split(Render(lab, toks))| >= 1 && Rewriter.Fields(Split(Render(lab, toks))) == (lab, toks)
  {
    RenderRoundTrip(lab, toks);
    var lt := LineTokens(lab, toks);
    if lab == "" {
      assert lt == toks;
    } else {
      assert lt[0] == lab && lt[1..] == toks;
    }
  }

  lemma LineFields(l: Machine.Line)
    requires Stable.GoodLine(l)
    ensures |Split(Rewriter.LineText(l))| >= 1
    ensures Rewriter.Fields(Split(Rewriter.LineText(l))) == (l.lab, Machine.BodyTokens(l.body))
  {
    match l.body {
      case Instr(p) => Rewriter.PrimTokensShape(p);
      case Data(name) =>
    }
    FieldsOfRender(l.lab, Machine.BodyTokens(l.body));
  }

  /** Every line the model's pass writes for a safe line is read back as fitting fields. */
  lemma PassLineFits(e: string, ls: LabelState)
    requires Stable.CallOperandsOk(e) && LineSafe(e, ls) && Rewriter.PassLine(e, ls).Ok?
    ensures forall t :: t in Rewriter.PassLine(e, ls).value.0 ==> FitText(t)
  {
    var toks := Split(e);
    var (lab, rest) := Rewriter.Fields(toks);
    assert ValidTokens(rest) by {
      if lab != "" {
        assert forall i :: 0 <= i < |rest| ==> rest[i] == toks[i + 1];
      }
    }
    assert Stable.GoodLab(lab);
    if Macros.Lookup(rest[0]).None? {
      FieldsOfRender(lab, rest);
    } else {
      var m := Macros.Lookup(rest[0]).value;
      Macros.LookupOnlyName(rest[0], m);
      Rewriter.MacroNameNotConstant(m);
      var args := Operands.ParseArgs(rest[1..]);
      var name := Rewriter.CallLabel(m, ls);
      var code := Macros.Build(m, args, name);
      Stable.CallCodeGood(e, ls, m);
      BuildFits(m, args, name);
      Rewriter.NothTokens();
      Rewriter.PrimTokensShape(Macros.NOTH_PRIM);
      FieldsOfRender(lab, Machine.PrimTokens(Macros.NOTH_PRIM));
      NothFits(lab);
      forall i | 0 <= i < |code|
        ensures FitText(Rewriter.LineText(code[i]))
      {
        assert code[i] in code;
        LineFields(code[i]);
      }
      var out := Rewriter.PassLine(e, ls).value.0;
      assert out == [Rewriter.NothText(lab)] + Rewriter.Texts(code);
    }
  }

  lemma {:induction false} PassLinesFit(es: seq<string>, ls: LabelState)
    requires forall e :: e in es ==> Stable.CallOperandsOk(e)
    requires SafeLines(es, ls) && Rewriter.PassLines(es, ls).Ok?
    ensures forall t :: t in Rewriter.PassLines(es, ls).value.0 ==> FitText(t)
    decreases |es|
  {
    if es != [] {
      assert es[0] in es;
      PassLineFits(es[0], ls);
      var ls1 := Rewriter.PassLine(es[0], ls).value.1;
      assert forall e :: e in es[1..] ==> e in es;
      PassLinesFit(es[1..], ls1);
    }
  }

  /** A stable line whose fields fit is written back by the source's pass as it is. */
  lemma FitLineKept(t: string, ls: LabelState)
    requires Stable.StableText(t) && FitText(t)
    ensures PassLine(t, ls) == Ok(([t], ls))
  {
    var (lab, rest) := Rewriter.Fields(Split(t));
    RenderAgreesWhenFieldsFit(lab, rest);
  }

  lemma SameTokensSamePass(e1: string, e2: string, ls: LabelState)
    requires Split(e1) == Split(e2)
    ensures PassLine(e1, ls) == PassLine(e2, ls)
  {
  }

  lemma {:induction false} FitLinesKept(ts: seq<string>, ls: LabelState)
    requires forall t :: t in ts ==> Stable.StableText(t) && FitText(t)
    ensures PassLines(ts, ls) == Ok((ts, ls))
    decreases |ts|
  {
    if ts != [] {
      assert ts[0] in ts;
      FitLineKept(ts[0], ls);
      assert forall t :: t in ts[1..] ==> t in ts;
      FitLinesKept(ts[1..], ls);
      assert [ts[0]] + ts[1..] == ts;
    }
  }

  lemma EmptyPass(ls: LabelState)
    ensures Pass("", ls) == Ok(("", ls))
  {
    assert Strip("") == "";
    assert SplitLines("") == [""];
    assert Rewriter.Entries("") == [];
  }

  /** The stripped lines of stable, fitting text pass to those lines themselves. */
  lemma StrippedPass(ts: seq<string>, ls: LabelState)
    requires |ts| >= 1 && forall t :: t in ts ==> Stable.StableText(t) && FitText(t)
    ensures PassLines([StripLeft(ts[0])] + ts[1..], ls) == Ok((ts, ls))
  {
    hide Stable.StableText, FitText, Render, RenderAsWritten, StripLeft, Split, PassLine, IsSpace;
    var first := StripLeft(ts[0]);
    assert ts[0] in ts;
    Stable.StripFirst(ts[0]);
    FitLineKept(ts[0], ls);
    SameTokensSamePass(first, ts[0], ls);
    assert ([first] + ts[1..])[0] == first;
    assert ([first] + ts[1..])[1..] == ts[1..];
    assert forall t :: t in ts[1..] ==> t in ts;
    FitLinesKept(ts[1..], ls);
    assert [ts[0]] + ts[1..] == ts;
  }

  /** The text of stable, fitting lines is a fixed point of the source's pass. */
  lemma FitOutputFixed(ts: seq<string>, ls: LabelState)
    requires forall t :: t in ts ==> Stable.StableText(t) && FitText(t)
    ensures Pass(Output(ts), ls) == Ok((Output(ts), ls))
  {
    if ts == [] {
      EmptyPass(ls);
    } else {
      hide Stable.StableText, FitText, Render, RenderAsWritten, SplitLines, NonBlank, JoinLines;
      hide StripRight, StripLeft, Split, PassLine, PassLines, IsSpace, Output, Rewriter.Entries;
      assert forall i :: 0 <= i < |ts| ==> ts[i] in ts;
      Stable.StripStable(ts);
      StrippedPass(ts, ls);
    }
  }

  /**
   `replace_` as the source writes it is idempotent on a safe program whose
   calls name no upper-case module as a label operand: it writes what the
   model's pass writes, and a second pass over that writes it back unchanged
   and takes no label.
   */
  lemma PassIdempotentAsWritten(asm: string, ls: LabelState)
    requires Stable.OperandsOk(asm) && SafeLines(Rewriter.Entries(asm), ls)
    requires Rewriter.Pass(asm, ls).Ok?
    ensures Pass(asm, ls) == Rewriter.Pass(asm, ls)
    ensures var (out, ls') := Rewriter.Pass(asm, ls).value;
            Pass(out, ls') == Ok((out, ls'))
  {
    hide Render, RenderAsWritten, Split;
    var es := Rewriter.Entries(asm);
    PassAgrees(asm, ls);
    Stable.PassLinesStable(es, ls);
    PassLinesFit(es, ls);
    var (ts, ls') := Rewriter.PassLines(es, ls).value;
    FitOutputFixed(ts, ls');
  }

  // ---------------------------------------------------------------------------
  // Long labels

  /** A single line that begins and ends with a non-blank is the program's only line. */
  lemma OneLineEntries(t: string)
    requires NoNewline(t) && |t| >= 1 && !IsSpace(t[0]) && !IsSpace(t[|t| - 1])
    ensures Rewriter.Entries(Output([t])) == [t]
  {
    assert StripLeft(t) == t;
    assert [t] == [StripLeft(t)] + [t][1..];
    Stable.StripOutput([t], [t], t);
    Stable.EntriesOfJoin(Output([t]), [t]);
  }

  lemma LabelledEnds(lab: string, toks: seq<string>)
    requires ValidToken(lab) && |toks| >= 1 && ValidTokens(toks)
    ensures var t := RenderAsWritten(lab, toks);
            NoNewline(t) && |t| >= 1 && !IsSpace(t[0]) && !IsSpace(t[|t| - 1])
  {
    Stable.ColumnsEnd(toks, FUNC_LEN, false);
    Stable.ValidNoNewline(toks[|toks| - 1]);
    Stable.ValidNoNewline(lab);
    Stable.PadNoNewline(lab, SECT_LEN, false);
    var p := Pad(lab, SECT_LEN, false);
    assert p[0] == p[..|lab|][0] == lab[0];
  }

  /** The label a long label and the mnemonic glued after it are read back as. */
  lemma GluedLabel(lab: string, t: string)
    requires ValidToken(lab) && ':' in lab && ValidToken(t)
    ensures ValidToken(lab + t) && ':' in lab + t && |lab + t| > |lab|
  {
    var i :| 0 <= i < |lab| && lab[i] == ':';
    assert (lab + t)[i] == ':';
  }

  /**
   A line the source wrote with a label of 18 characters or more. Its mnemonic
   is read back as the end of the label, so the line comes out with that token
   moved into its label; a line with nothing after its mnemonic fails for want
   of an instruction.
   */
  lemma GluedLineShifts(lab: string, toks: seq<string>, ls: LabelState)
    requires ValidToken(lab) && ':' in lab && |lab| >= SECT_LEN
    requires |toks| >= 1 && ValidTokens(toks) && FitsColumns(toks, FUNC_LEN)
    ensures |toks| == 1 ==> PassLine(RenderAsWritten(lab, toks), ls) == Err(Rewriter.NoInstruction)
    ensures |toks| >= 2 && !Rewriter.IsCommand(toks[1]) ==>
              PassLine(RenderAsWritten(lab, toks), ls)
              == Ok(([RenderAsWritten(lab + toks[0], toks[1..])], ls))
  {
    hide RenderAsWritten, Render;
    LongLabelGluedAsWritten(lab, toks);
    GluedLabel(lab, toks[0]);
  }

  /** The same, for a whole program of that one line. */
  lemma GluedLinePass(lab: string, toks: seq<string>, ls: LabelState)
    requires ValidToken(lab) && ':' in lab && |lab| >= SECT_LEN
    requires |toks| >= 1 && ValidTokens(toks) && FitsColumns(toks, FUNC_LEN)
    ensures |toks| == 1 ==>
              Pass(Output([RenderAsWritten(lab, toks)]), ls) == Err(Rewriter.NoInstruction)
    ensures |toks| >= 2 && !Rewriter.IsCommand(toks[1]) ==>
              Pass(Output([RenderAsWritten(lab, toks)]), ls)
              == Ok((Output([RenderAsWritten(lab + toks[0], toks[1..])]), ls))
  {
    hide RenderAsWritten, Render, Split, PassLine, Rewriter.Entries;
    var t := RenderAsWritten(lab, toks);
    LabelledEnds(lab, toks);
    OneLineEntries(t);
    GluedLineShifts(lab, toks, ls);
    assert [t][1..] == [];
    if |toks| >= 2 && !Rewriter.IsCommand(toks[1]) {
      var t' := RenderAsWritten(lab + toks[0], toks[1..]);
      assert PassLines([], ls) == Ok(([], ls));
      assert [t'] + [] == [t'];
      assert PassLines([t], ls) == Ok(([t'], ls));
    }
  }

  /** The source's pass lays a stable line out again in its own layout. */
  lemma StableLineLaidOut(t: string, ls: LabelState)
    requires Stable.StableText(t)
    ensures |Split(t)| >= 1 && |Rewriter.Fields(Split(t)).1| >= 1
    ensures var (lab, rest) := Rewriter.Fields(Split(t));
            PassLine(t, ls) == Ok(([RenderAsWritten(lab, rest)], ls))
  {
    hide Render, RenderAsWritten;
  }

  /** The same, for a whole program of that one line. */
  lemma StableLineRelaid(t: string, ls: LabelState)
    requires Stable.StableText(t)
    ensures |Split(t)| >= 1 && |Rewriter.Fields(Split(t)).1| >= 1
    ensures var (lab, rest) := Rewriter.Fields(Split(t));
            Pass(Output([t]), ls) == Ok((Output([RenderAsWritten(lab, rest)]), ls))
  {
    hide Stable.StableText, Render, RenderAsWritten, Split, PassLine, IsSpace, StripLeft;
    hide SplitLines, NonBlank, JoinLines, StripRight, Output, Rewriter.Entries, Rewriter.Fields;
    StableLineLaidOut(t, ls);
    var (lab, rest) := Rewriter.Fields(Split(t));
    var t' := RenderAsWritten(lab, rest);
    Stable.StripStable([t]);
    Stable.StripFirst(t);
    SameTokensSamePass(StripLeft(t), t, ls);
    assert [StripLeft(t)][1..] == [];
    assert PassLines([], ls) == Ok(([], ls));
    assert [t'] + [] == [t'];
    assert PassLines([StripLeft(t)], ls) == Ok(([t'], ls));
  }
}
