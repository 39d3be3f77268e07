/**
 `replace`: passes of the rewriter until the text no longer changes. The
 library loops without a bound; here the loop is given a number of passes it
 may make, and `Replace` reports running out of them as an error of its own.

 The loop runs either the source's pass (`AsWritten`, the SourcePass module)
 or the corrected one (`Corrected`, the Rewriter module). Two passes of the
 corrected one suffice for a program whose macro calls name no upper-case
 module as a label operand; so do two of the source's when the program's
 lines are also safe. A label of 18 characters or more makes the source's
 passes move one token into the label each time until a pass fails.
 */
module Fixpoint {
  import opened Wrappers
  import opened Rewriter
  import Layout
  import Lines
  import Stable
  import SourcePass

  datatype Version = AsWritten | Corrected

  /** One pass of the chosen version. */
  function Step(v: Version, asm: string, ls: LabelState): Result<(string, LabelState), Error> {
    match v
    case AsWritten => SourcePass.Pass(asm, ls)
    case Corrected => Pass(asm, ls)
  }

  /** The text and label state after `n` passes, or the first pass's error. */
  function Passes(v: Version, asm: string, ls: LabelState, n: nat): Result<(string, LabelState), Error>
    decreases n
  {
    if n == 0 then Ok((asm, ls))
    else
      match Passes(v, asm, ls, n - 1)
      case Err(e) => Err(e)
      case Ok((t, s)) => Step(v, t, s)
  }

  lemma PassesZero(v: Version, asm: string, ls: LabelState)
    ensures Passes(v, asm, ls, 0) == Ok((asm, ls))
  {
  }

  /** One more pass continues from where `n` passes left off. */
  lemma PassesStep(v: Version, asm: string, ls: LabelState, n: nat, cur: string, st: LabelState)
    requires Passes(v, asm, ls, n) == Ok((cur, st))
    ensures Passes(v, asm, ls, n + 1) == Step(v, cur, st)
  {
  }

  /**
   A program a pass accepts, and whose calls keep to label operands the next
   pass leaves alone; for the source's pass, also one whose lines are safe.
   */
  predicate Settles(v: Version, asm: string, ls: LabelState) {
    && Stable.OperandsOk(asm)
    && Pass(asm, ls).Ok?
    && (v == AsWritten ==> SourcePass.SafeLines(Entries(asm), ls))
  }

  /** The second pass over such a program gives back the first pass's text and state, in either version. */
  lemma SecondPassSame(v: Version, asm: string, ls: LabelState)
    requires Settles(v, asm, ls)
    ensures Passes(v, asm, ls, 1) == Pass(asm, ls)
    ensures Passes(v, asm, ls, 2) == Pass(asm, ls)
  {
    if v == AsWritten {
      SourcePass.PassIdempotentAsWritten(asm, ls);
    } else {
      Stable.PassIdempotent(asm, ls);
    }
  }

  /**
   `replace`. The text returned is a fixed point: the last pass, from the
   state `prior`, wrote it back unchanged. It is what some number of passes
   within the bound make of the input. A failing pass's error is returned as
   it is. With room for two passes, a program that settles comes out as the
   corrected first pass writes it.
   */
  method Replace(v: Version, asm: string, ls: LabelState, fuel: nat)
    returns (r: Result<string, Error>, last: LabelState, prior: LabelState)
    ensures r.Ok? ==> Step(v, r.value, prior) == Ok((r.value, last))
    ensures r.Ok? ==> exists n: nat :: n <= fuel && Passes(v, asm, ls, n) == Ok((r.value, last))
    ensures r.Err? && r.error != OutOfFuel ==> exists n: nat :: n <= fuel && Passes(v, asm, ls, n) == Err(r.error)
    ensures fuel >= 2 && Settles(v, asm, ls) ==> r == Ok(Pass(asm, ls).value.0) && last == Pass(asm, ls).value.1
  {
    hide Pass, SourcePass.Pass, Passes, Stable.OperandsOk, SourcePass.SafeLines;
    PassesZero(v, asm, ls);
    var orig, cur := "", asm;
    var st, before := ls, ls;
    var n: nat := 0;
    var settles := Settles(v, asm, ls);
    if settles {
      SecondPassSame(v, asm, ls);
    }
    while cur != orig
      invariant n <= fuel
      invariant Passes(v, asm, ls, n) == Ok((cur, st))
      invariant n == 0 ==> orig == "" && cur == asm && st == ls && before == ls
      invariant n > 0 ==> Step(v, orig, before) == Ok((cur, st))
      invariant settles ==> n <= 2 && (n >= 1 ==> Pass(asm, ls) == Ok((cur, st)))
      invariant settles && n == 2 ==> cur == orig
      decreases fuel - n
    {
      if n == fuel {
        return Err(OutOfFuel), st, before;
      }
      PassesStep(v, asm, ls, n, cur, st);
      match Step(v, cur, st)
      case Err(e) =>
        assert Passes(v, asm, ls, n + 1) == Err(e);
        return Err(e), st, st;
      case Ok((t, s)) =>
        orig, before := cur, st;
        cur, st := t, s;
        n := n + 1;
    }
    if n == 0 {
      Stable.EmptyPass(ls);
      SourcePass.EmptyPass(ls);
    }
    assert Step(v, cur, before) == Ok((cur, st));
    assert Passes(v, asm, ls, n) == Ok((cur, st));
    return Ok(cur), st, before;
  }

  // ---------------------------------------------------------------------------
  // A long label

  lemma OneLineOutput(t: string)
    ensures Lines.Output([t]) == t + "\n"
  {
  }

  /** `abcdefghijklmnopq: add r1 r2 r3`, laid out by the corrected pass. */
  function LongLabelLine(): string {
    Layout.Render(Layout.EXAMPLE_LABEL, Layout.EXAMPLE_TOKENS)
  }

  lemma NotCommands()
    ensures !IsCommand("add") && !IsCommand("r1") && !IsCommand("r2") && !IsCommand("r3")
  {
  }

  lemma LongLabelLineStable()
    ensures Stable.StableText(LongLabelLine())
    ensures Layout.Split(LongLabelLine()) == [Layout.EXAMPLE_LABEL] + Layout.EXAMPLE_TOKENS
  {
    var lab := Layout.EXAMPLE_LABEL;
    var toks := Layout.EXAMPLE_TOKENS;
    Layout.ExampleIsWellFormed();
    Layout.RenderRoundTrip(lab, toks);
    NotCommands();
    hide Layout.Render, Layout.Split, IsCommand, Layout.ValidToken;
    var all := [lab] + toks;
    assert all[0] == lab && all[1..] == toks;
    assert ':' == lab[17];
    assert Fields(all) == (lab, toks);
  }

  /** A program of one line in the source's layout. */
  function OneLine(lab: string, toks: seq<string>): string
    requires |toks| >= 1
  {
    Lines.Output([Layout.RenderAsWritten(lab, toks)])
  }

  const LABEL2: string := Layout.EXAMPLE_LABEL + "add"
  const LABEL3: string := LABEL2 + "r1"
  const LABEL4: string := LABEL3 + "r2"

  lemma LongLabelFirstPass(ls: LabelState)
    ensures var p := Lines.Output([LongLabelLine()]);
            && Step(Corrected, p, ls) == Ok((p, ls))
            && Step(AsWritten, p, ls) == Ok((OneLine(Layout.EXAMPLE_LABEL, Layout.EXAMPLE_TOKENS), ls))
  {
    var t := LongLabelLine();
    LongLabelLineStable();
    Stable.StableOutputFixed([t], ls);
    SourcePass.StableLineRelaid(t, ls);
    assert Fields(Layout.Split(t)) == (Layout.EXAMPLE_LABEL, Layout.EXAMPLE_TOKENS) by {
      assert ':' == Layout.EXAMPLE_LABEL[17];
    }
  }

  lemma LongLabelLaterPasses(ls: LabelState)
    ensures Step(AsWritten, OneLine(Layout.EXAMPLE_LABEL, Layout.EXAMPLE_TOKENS), ls)
            == Ok((OneLine(LABEL2, ["r1", "r2", "r3"]), ls))
    ensures Step(AsWritten, OneLine(LABEL2, ["r1", "r2", "r3"]), ls) == Ok((OneLine(LABEL3, ["r2", "r3"]), ls))
    ensures Step(AsWritten, OneLine(LABEL3, ["r2", "r3"]), ls) == Ok((OneLine(LABEL4, ["r3"]), ls))
    ensures Step(AsWritten, OneLine(LABEL4, ["r3"]), ls) == Err(NoInstruction)
  {
    var lab := Layout.EXAMPLE_LABEL;
    var toks := Layout.EXAMPLE_TOKENS;
    Layout.ExampleIsWellFormed();
    NotCommands();
    hide SourcePass.Pass, Layout.RenderAsWritten, Lines.Output, IsCommand;
    assert ':' == lab[17];
    SourcePass.GluedLinePass(lab, toks, ls);
    SourcePass.GluedLabel(lab, "add");
    assert toks[0] == "add" && toks[1..] == ["r1", "r2", "r3"];
    SourcePass.GluedLinePass(LABEL2, ["r1", "r2", "r3"], ls);
    SourcePass.GluedLabel(LABEL2, "r1");
    assert ["r1", "r2", "r3"][1..] == ["r2", "r3"];
    SourcePass.GluedLinePass(LABEL3, ["r2", "r3"], ls);
    SourcePass.GluedLabel(LABEL3, "r2");
    assert ["r2", "r3"][1..] == ["r3"];
    SourcePass.GluedLinePass(LABEL4, ["r3"], ls);
  }

  lemma FirstTwoDiffer()
    ensures OneLine(Layout.EXAMPLE_LABEL, Layout.EXAMPLE_TOKENS) != OneLine(LABEL2, ["r1", "r2", "r3"])
  {
    var lab := Layout.EXAMPLE_LABEL;
    var toks := Layout.EXAMPLE_TOKENS;
    Layout.ExampleIsWellFormed();
    SourcePass.GluedLabel(lab, "add");
    var a := Layout.RenderAsWritten(lab, toks);
    var b := Layout.RenderAsWritten(LABEL2, ["r1", "r2", "r3"]);
    Layout.LongLabelGluedAsWritten(lab, toks);
    Layout.LongLabelGluedAsWritten(LABEL2, ["r1", "r2", "r3"]);
    OneLineOutput(a);
    OneLineOutput(b);
  }

  /**
   The line `abcdefghijklmnopq: add r1 r2 r3` never settles under the
   source's passes: each pass moves one more token into the label, and the
   fifth finds no instruction left. The corrected pass writes it back as it
   is.
   */
  lemma LongLabelNeverSettles(ls: LabelState)
    ensures var p := Lines.Output([LongLabelLine()]);
            && Passes(Corrected, p, ls, 1) == Ok((p, ls))
            && Passes(AsWritten, p, ls, 1).Ok?
            && Passes(AsWritten, p, ls, 2).Ok?
            && Passes(AsWritten, p, ls, 1) != Passes(AsWritten, p, ls, 2)
            && Passes(AsWritten, p, ls, 5) == Err(NoInstruction)
  {
    LongLabelFirstPass(ls);
    LongLabelLaterPasses(ls);
    FirstTwoDiffer();
    hide Step, OneLine, LongLabelLine;
    var p := Lines.Output([LongLabelLine()]);
    assert Passes(AsWritten, p, ls, 1) == Ok((OneLine(Layout.EXAMPLE_LABEL, Layout.EXAMPLE_TOKENS), ls));
    assert Passes(AsWritten, p, ls, 2) == Ok((OneLine(LABEL2, ["r1", "r2", "r3"]), ls));
    assert Passes(AsWritten, p, ls, 3) == Ok((OneLine(LABEL3, ["r2", "r3"]), ls));
    assert Passes(AsWritten, p, ls, 4) == Ok((OneLine(LABEL4, ["r3"]), ls));
  }
}
