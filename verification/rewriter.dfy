/**
 One pass of the macro rewriter over a program text (`replace_`). The text is
 stripped, cut at newlines, and the empty pieces are dropped. Each remaining
 line is split into tokens; a first token containing a colon is the line's
 label. When the next token is a macro's name the line becomes a `NOTH` line
 carrying the label, followed by the macro's expansion; any other line is
 written back in the column layout. Every output line ends in a newline.

 The library looks the command word up among all its upper-case module names,
 so a constant's name (`WORD_LEN`, say) is found too and then fails when it is
 called. The label counter and list are threaded through the pass.
 */
module Rewriter {
  import opened Wrappers
  import opened Layout
  import opened Lines
  import Machine
  import Operands
  import Macros
  import Labels
  import Text

  type LabelState = Labels.LabelState

  /** Why a pass fails; in the library each of these is a Python exception. */
  datatype Error =
    | NoInstruction
    | NotCallable(name: string)
    | BadCall(reason: Macros.Error)
    | OutOfFuel

  /** An upper-case module name: a macro or one of the constants. */
  predicate IsCommand(s: string) {
    Macros.Lookup(s).Some? || s in Macros.CONSTANT_NAMES
  }

  /** The label token, if the first token has a colon, and the tokens after it. */
  function Fields(toks: seq<string>): (string, seq<string>)
    requires |toks| >= 1
  {
    if ':' in toks[0] then (toks[0], toks[1..]) else ("", toks)
  }

  /** The text of a generated line. */
  function LineText(l: Machine.Line): string {
    Render(l.lab, Machine.BodyTokens(l.body))
  }

  function Texts(code: seq<Machine.Line>): (r: seq<string>)
    ensures |r| == |code|
    ensures forall i :: 0 <= i < |code| ==> r[i] == LineText(code[i])
    decreases |code|
  {
    if code == [] then [] else [LineText(code[0])] + Texts(code[1..])
  }

  /** The `NOTH` line that takes a macro call's label. */
  function NothText(lab: string): string {
    Render(lab, Machine.PrimTokens(Macros.NOTH_PRIM))
  }

  /** One line of the program: the lines it becomes and the label state after it. */
  function PassLine(e: string, ls: LabelState): Result<(seq<string>, LabelState), Error> {
    var toks := Split(e);
    if toks == [] then Err(NoInstruction)
    else
      var (lab, rest) := Fields(toks);
      if rest == [] then Err(NoInstruction)
      else if rest[0] in Macros.CONSTANT_NAMES then Err(NotCallable(rest[0]))
      else match Macros.Lookup(rest[0])
        case None => Ok(([Render(lab, rest)], ls))
        case Some(m) =>
          match Macros.Expand(m, Operands.ParseArgs(rest[1..]), ls)
          case Err(reason) => Err(BadCall(reason))
          case Ok((code, ls')) => Ok(([NothText(lab)] + Texts(code), ls'))
  }

  /** The lines in turn, each seeing the label state the previous one left. */
  function PassLines(es: seq<string>, ls: LabelState): Result<(seq<string>, LabelState), Error>
    decreases |es|
  {
    if es == [] then Ok(([], ls))
    else
      match PassLine(es[0], ls)
      case Err(e) => Err(e)
      case Ok((out, ls1)) =>
        match PassLines(es[1..], ls1)
        case Err(e) => Err(e)
        case Ok((outs, ls2)) => Ok((out + outs, ls2))
  }

  /** The lines a pass works on: the stripped text cut at newlines, empty pieces dropped. */
  function Entries(asm: string): seq<string> {
    NonBlank(SplitLines(Strip(asm)))
  }

  /** `replace_`: one pass over the whole text. */
  function Pass(asm: string, ls: LabelState): Result<(string, LabelState), Error> {
    match PassLines(Entries(asm), ls)
    case Err(e) => Err(e)
    case Ok((lines, ls')) => Ok((Output(lines), ls'))
  }

  /** A line that is not a macro call keeps its tokens and leaves the label state alone. */
  lemma PlainLineKept(e: string, ls: LabelState)
    requires var toks := Split(e); |toks| >= 1 && |Fields(toks).1| >= 1 && !IsCommand(Fields(toks).1[0])
    ensures var r := PassLine(e, ls);
            && r.Ok? && r.value.1 == ls && |r.value.0| == 1
            && Split(r.value.0[0]) == Split(e)
  {
    var toks := Split(e);
    var (lab, rest) := Fields(toks);
    RenderRoundTrip(lab, rest);
    if lab == "" {
      assert LineTokens(lab, rest) == rest == toks;
    } else {
      assert LineTokens(lab, rest) == [toks[0]] + toks[1..] == toks;
    }
  }

  /** A token made of word characters has no separator and no colon in it. */
  lemma WordToken(s: string)
    requires |s| >= 1 && Text.AllWordChars(s)
    ensures ValidToken(s) && ':' !in s
  {
  }

  /** A register's name is a single token. */
  lemma RegNameToken(r: Machine.Reg)
    ensures ValidToken(Machine.RegName(r)) && ':' !in Machine.RegName(r)
  {
    var s := Machine.RegName(r);
    assert forall i :: 1 <= i < |s| ==> s[i] == Text.Dec(r)[i - 1];
    WordToken(s);
  }

  /** The mnemonic: one lower-case word. */
  lemma MnemonicShape(p: Machine.Prim)
    ensures var t := Machine.PrimTokens(p)[0];
            ValidToken(t) && ':' !in t && 'a' <= t[0] <= 'z'
  {
    match p {
      case Alu(op, a, b, d) =>
        WordToken(Machine.AluMnemonic(op));
      case _ =>
    }
  }

  /** The operands: register names and numbers. */
  lemma OperandTokensValid(p: Machine.Prim)
    ensures |Machine.PrimTokens(p)| >= 3 && ValidTokens(Machine.PrimTokens(p)[1..])
  {
    match p {
      case Alu(op, a, b, d) =>
        RegNameToken(a);
        RegNameToken(b);
        RegNameToken(d);
      case Copy(imm, hex, d) =>
        RegNameToken(d);
        if hex {
          var h := "0x" + Text.Hex(imm);
          assert forall i :: 2 <= i < |h| ==> h[i] == Text.Hex(imm)[i - 2];
          WordToken(h);
        } else {
          WordToken(Text.Dec(imm));
        }
      case Load(a, d) =>
        RegNameToken(a);
        RegNameToken(d);
      case Store(s, a) =>
        RegNameToken(s);
        RegNameToken(a);
      case ZJump(c, t) =>
        RegNameToken(c);
        RegNameToken(t);
    }
  }

  /**
   A primitive instruction is written as valid tokens whose first is a
   lower-case mnemonic: never a label, never an upper-case module name.
   */
  lemma PrimTokensShape(p: Machine.Prim)
    ensures var toks := Machine.PrimTokens(p);
            && |toks| >= 3 && ValidTokens(toks)
            && ':' !in toks[0] && 'a' <= toks[0][0] <= 'z'
  {
    var toks := Machine.PrimTokens(p);
    MnemonicShape(p);
    OperandTokensValid(p);
    assert forall i :: 1 <= i < |toks| ==> toks[i] == toks[1..][i - 1];
  }

  /** `NOTH` is written `and r1 r1 r1`. */
  lemma NothTokens()
    ensures Machine.PrimTokens(Macros.NOTH_PRIM) == ["and", "r1", "r1", "r1"]
  {
    Operands.RegNameShape(1);
  }

  /** No macro is named like one of the constants. */
  lemma MacroNameNotConstant(m: Macros.Macro)
    ensures Macros.Name(m) !in Macros.CONSTANT_NAMES
  {
    match m {
      case Arith(op) =>
        match op {
          case Add =>
          case Sub =>
          case Mult =>
          case Div =>
          case And =>
          case Or =>
        }
      case _ =>
    }
  }

  /** The fresh label a macro call takes, if it takes one. */
  function CallLabel(m: Macros.Macro, ls: LabelState): string {
    if Macros.NeedsLabel(m) then Labels.NewLabel(ls).0 else ""
  }

  /** The label state after a macro call. */
  function CallState(m: Macros.Macro, ls: LabelState): LabelState {
    if Macros.NeedsLabel(m) then Labels.NewLabel(ls).1 else ls
  }

  /**
   A macro call becomes a `NOTH` line with the call's label (the tokens
   `and r1 r1 r1` behind it), then the macro's lines. The call fails exactly
   when its operands are not well formed; only the negated jumps take a label.
   */
  lemma MacroLineExpanded(e: string, ls: LabelState, m: Macros.Macro)
    requires var toks := Split(e); |toks| >= 1 && |Fields(toks).1| >= 1
    requires Fields(Split(e)).1[0] == Macros.Name(m)
    ensures var (lab, rest) := Fields(Split(e));
            var args := Operands.ParseArgs(rest[1..]);
            var r := PassLine(e, ls);
            && (r.Ok? <==> Macros.WellFormed(m, args))
            && (r.Ok? ==>
                  && |r.value.0| >= 1
                  && Split(r.value.0[0]) == LineTokens(lab, ["and", "r1", "r1", "r1"])
                  && r.value.0[1..] == Texts(Macros.Build(m, args, CallLabel(m, ls)))
                  && r.value.1 == CallState(m, ls))
  {
    hide Macros.Build, Operands.ParseArgs, Split, Render, Texts;
    var (lab, rest) := Fields(Split(e));
    Macros.LookupName(m);
    MacroNameNotConstant(m);
    NothTokens();
    PrimTokensShape(Macros.NOTH_PRIM);
    RenderRoundTrip(lab, ["and", "r1", "r1", "r1"]);
  }

  /**
   A line fails exactly when it has no instruction (it is blank but for
   separators, or only a label), names a constant, or calls a macro with
   operands that are not well formed.
   */
  lemma PassLineFails(e: string, ls: LabelState)
    ensures PassLine(e, ls).Err? <==>
      var toks := Split(e);
      || toks == []
      || Fields(toks).1 == []
      || Fields(toks).1[0] in Macros.CONSTANT_NAMES
      || (Macros.Lookup(Fields(toks).1[0]).Some?
          && !Macros.WellFormed(Macros.Lookup(Fields(toks).1[0]).value,
                                Operands.ParseArgs(Fields(toks).1[1..])))
  {
    hide Macros.Build, Operands.ParseArgs, Split, Render, Texts;
  }

  /** The output of lines already passed, followed by that of `es` in the label state they left. */
  function Continue(r: Result<(seq<string>, LabelState), Error>, es: seq<string>)
    : Result<(seq<string>, LabelState), Error>
  {
    match r
    case Err(e) => Err(e)
    case Ok((out, ls)) =>
      match PassLines(es, ls)
      case Err(e) => Err(e)
      case Ok((outs, ls')) => Ok((out + outs, ls'))
  }

  /**
   The pass keeps the order of the program: the lines of `a` then `b` give
   the output of `a` followed by that of `b`, the label state carried across.
   */
  lemma {:induction false} PassLinesAppend(a: seq<string>, b: seq<string>, ls: LabelState)
    ensures PassLines(a + b, ls) == Continue(PassLines(a, ls), b)
    decreases |a|
  {
    hide PassLine;
    if a == [] {
      assert a + b == b;
      match PassLines(b, ls) {
        case Err(e) =>
        case Ok((outs, ls')) => assert [] + outs == outs;
      }
    } else {
      assert (a + b)[0] == a[0] && (a + b)[1..] == a[1..] + b;
      match PassLine(a[0], ls) {
        case Err(e) =>
        case Ok((out, ls1)) =>
          PassLinesAppend(a[1..], b, ls1);
          match PassLines(a[1..], ls1) {
            case Err(e) =>
            case Ok((o1, ls2)) =>
              match PassLines(b, ls2) {
                case Err(e) =>
                case Ok((o2, ls3)) => assert out + (o1 + o2) == (out + o1) + o2;
              }
          }
      }
    }
  }
}
