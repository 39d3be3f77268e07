/**
 The textual form of one program line. A line is split into tokens the way
 Python's `str.split()` splits on whitespace, and is written back in fixed
 columns: an 18-character label column, an 8-character mnemonic column and
 18-character operand columns, with trailing blanks removed.

 The source pads each field with `ljust`, which adds nothing to a field that
 already fills its column, so such a field runs into the next one. `Render`
 is the corrected layout the rest of the model uses (a field always ends in at
 least one blank); `RenderAsWritten` is the source's layout, kept to exhibit the
 defect.
 */
module Layout {

  const SECT_LEN: nat := 18
  const FUNC_LEN: nat := 8

  /** The characters Python's `str.split()` treats as separators. */
  predicate IsSpace(c: char) {
    var n := c as int;
    n == 0x20 || 0x09 <= n <= 0x0d || 0x1c <= n <= 0x1f || n == 0x85 || n == 0xa0
    || n == 0x1680 || 0x2000 <= n <= 0x200a || n == 0x2028 || n == 0x2029
    || n == 0x202f || n == 0x205f || n == 0x3000
  }

  /** A token as `str.split()` can produce it: non-empty, no separator inside. */
  predicate ValidToken(t: string) {
    |t| > 0 && forall i :: 0 <= i < |t| ==> !IsSpace(t[i])
  }

  predicate ValidTokens(ts: seq<string>) {
    forall i :: 0 <= i < |ts| ==> ValidToken(ts[i])
  }

  function Spaces(n: nat): (s: string)
    ensures |s| == n && forall i :: 0 <= i < n ==> s[i] == ' '
  {
    seq(n, _ => ' ')
  }

  /** Length of the leading run of non-separator characters. */
  function WordLen(s: string): (n: nat)
    ensures n <= |s|
    ensures forall i :: 0 <= i < n ==> !IsSpace(s[i])
    ensures n < |s| ==> IsSpace(s[n])
  {
    if s == [] || IsSpace(s[0]) then 0 else 1 + WordLen(s[1..])
  }

  /** Python's `s.split()`: the maximal runs of non-separator characters, in order. */
  function Split(s: string): (r: seq<string>)
    ensures ValidTokens(r)
    decreases |s|
  {
    if s == [] then []
    else if IsSpace(s[0]) then Split(s[1..])
    else
      var n := WordLen(s);
      [s[..n]] + Split(s[n..])
  }

  /**
   Padding of one field to width `w`. With `atLeastOne` false this is Python's
   `s.ljust(w)`; with it true a field as wide as its column still gets one blank.
   */
  function Pad(s: string, w: nat, atLeastOne: bool): (r: string)
    ensures |r| == if |s| < w then w else if atLeastOne then |s| + 1 else |s|
    ensures r[..|s|] == s
    ensures forall i :: |s| <= i < |r| ==> r[i] == ' '
  {
    if |s| < w then s + Spaces(w - |s|) else if atLeastOne then s + " " else s
  }

  /** The mnemonic or operand columns; the last field is not padded (the `rstrip`). */
  function Columns(ts: seq<string>, w: nat, atLeastOne: bool): string
    requires |ts| >= 1
    decreases |ts|
  {
    if |ts| == 1 then ts[0] else Pad(ts[0], w, atLeastOne) + Columns(ts[1..], SECT_LEN, atLeastOne)
  }

  /** A line: the label column (blank when `lab` is empty), then the instruction's tokens. */
  function Layout(lab: string, toks: seq<string>, atLeastOne: bool): string
    requires |toks| >= 1
  {
    Pad(lab, SECT_LEN, atLeastOne) + Columns(toks, FUNC_LEN, atLeastOne)
  }

  /** The corrected layout used by the rest of the model. */
  function Render(lab: string, toks: seq<string>): string
    requires |toks| >= 1
  {
    Layout(lab, toks, true)
  }

  /** The layout as the source writes it (`label.ljust(18) + line(*toks)[18:]`). */
  function RenderAsWritten(lab: string, toks: seq<string>): string
    requires |toks| >= 1
  {
    Layout(lab, toks, false)
  }

  /** The tokens a rendered line is made of. */
  function LineTokens(lab: string, toks: seq<string>): seq<string> {
    (if lab == "" then [] else [lab]) + toks
  }

  lemma {:induction false} SplitLeadingSpaces(n: nat, x: string)
    ensures Split(Spaces(n) + x) == Split(x)
    decreases n
  {
    if n > 0 {
      var s := Spaces(n) + x;
      assert s[0] == ' ' && IsSpace(s[0]);
      assert s[1..] == Spaces(n - 1) + x;
      assert Split(s) == Split(s[1..]);
      SplitLeadingSpaces(n - 1, x);
    } else {
      assert Spaces(n) + x == x;
    }
  }

  lemma {:induction false} WordLenOfToken(t: string, x: string)
    requires ValidToken(t) || t == []
    requires x == [] || IsSpace(x[0])
    ensures WordLen(t + x) == |t|
    decreases |t|
  {
    if t != [] {
      assert (t + x)[1..] == t[1..] + x;
      WordLenOfToken(t[1..], x);
    }
  }

  /** A token followed by the end of the line or by a separator splits off as itself. */
  lemma SplitToken(t: string, x: string)
    requires ValidToken(t)
    requires x == [] || IsSpace(x[0])
    ensures Split(t + x) == [t] + Split(x)
  {
    WordLenOfToken(t, x);
    var s := t + x;
    assert s[..|t|] == t;
    assert s[|t|..] == x;
  }

  /** A token padded with at least one blank, then more text. */
  lemma SplitPadded(t: string, w: nat, rest: string)
    requires ValidToken(t)
    ensures Split(Pad(t, w, true) + rest) == [t] + Split(rest)
  {
    var p := Pad(t, w, true);
    var n := |p| - |t|;
    assert p == t + Spaces(n);
    assert p + rest == t + (Spaces(n) + rest);
    SplitToken(t, Spaces(n) + rest);
    SplitLeadingSpaces(n, rest);
  }

  lemma {:induction false} SplitColumns(ts: seq<string>, w: nat)
    requires |ts| >= 1 && ValidTokens(ts)
    ensures Split(Columns(ts, w, true)) == ts
    decreases |ts|
  {
    if |ts| == 1 {
      SplitToken(ts[0], []);
      assert ts[0] + [] == ts[0];
    } else {
      SplitPadded(ts[0], w, Columns(ts[1..], SECT_LEN, true));
      SplitColumns(ts[1..], SECT_LEN);
    }
  }

  /**
   Reading a rendered line back gives exactly its label and tokens: the
   corrected layout loses nothing, so a line can be represented by its tokens.
   */
  lemma RenderRoundTrip(lab: string, toks: seq<string>)
    requires lab == "" || ValidToken(lab)
    requires |toks| >= 1 && ValidTokens(toks)
    ensures Split(Render(lab, toks)) == LineTokens(lab, toks)
  {
    var c := Columns(toks, FUNC_LEN, true);
    SplitColumns(toks, FUNC_LEN);
    if lab == "" {
      assert Pad(lab, SECT_LEN, true) == Spaces(SECT_LEN);
      SplitLeadingSpaces(SECT_LEN, c);
    } else {
      SplitPadded(lab, SECT_LEN, c);
    }
  }

  /** Rendering is one-to-one on the lines it is used for. */
  lemma RenderInjective(l1: string, t1: seq<string>, l2: string, t2: seq<string>)
    requires l1 == "" || ValidToken(l1)
    requires l2 == "" || ValidToken(l2)
    requires |t1| >= 1 && ValidTokens(t1) && |t2| >= 1 && ValidTokens(t2)
    requires Render(l1, t1) == Render(l2, t2)
    ensures LineTokens(l1, t1) == LineTokens(l2, t2)
  {
    RenderRoundTrip(l1, t1);
    RenderRoundTrip(l2, t2);
  }

  predicate FitsColumns(ts: seq<string>, w: nat) {
    forall i :: 0 <= i < |ts| - 1 ==> |ts[i]| < (if i == 0 then w else SECT_LEN)
  }

  lemma {:induction false} ColumnsAgree(ts: seq<string>, w: nat)
    requires |ts| >= 1 && FitsColumns(ts, w)
    ensures Columns(ts, w, true) == Columns(ts, w, false)
    decreases |ts|
  {
    if |ts| > 1 {
      assert FitsColumns(ts[1..], SECT_LEN) by {
        forall i | 0 <= i < |ts[1..]| - 1
          ensures |ts[1..][i]| < (if i == 0 then SECT_LEN else SECT_LEN)
        {
          assert ts[1..][i] == ts[i + 1];
        }
      }
      ColumnsAgree(ts[1..], SECT_LEN);
    }
  }

  /** Where every field is narrower than its column the correction changes nothing. */
  lemma RenderAgreesWhenFieldsFit(lab: string, toks: seq<string>)
    requires |toks| >= 1
    requires |lab| < SECT_LEN && FitsColumns(toks, FUNC_LEN)
    ensures Render(lab, toks) == RenderAsWritten(lab, toks)
  {
    ColumnsAgree(toks, FUNC_LEN);
  }

  /** A token written directly in front of a word merges with that word. */
  lemma SplitGlued(a: string, s: string)
    requires ValidToken(a)
    requires |s| > 0 && !IsSpace(s[0])
    ensures Split(a + s) == [a + Split(s)[0]] + Split(s)[1..]
  {
    var n := WordLen(s);
    assert s == s[..n] + s[n..];
    assert a + s == (a + s[..n]) + s[n..];
    assert ValidToken(a + s[..n]);
    SplitToken(a + s[..n], s[n..]);
  }

  /**
   The defect: a label of 18 or more characters is written with no blank after
   it, so reading the line back glues the label to the mnemonic.
   */
  lemma LongLabelGluedAsWritten(lab: string, toks: seq<string>)
    requires ValidToken(lab) && |lab| >= SECT_LEN
    requires |toks| >= 1 && ValidTokens(toks) && FitsColumns(toks, FUNC_LEN)
    ensures Split(RenderAsWritten(lab, toks)) == [lab + toks[0]] + toks[1..]
  {
    var c := Columns(toks, FUNC_LEN, false);
    ColumnsAgree(toks, FUNC_LEN);
    SplitColumns(toks, FUNC_LEN);
    assert Pad(lab, SECT_LEN, false) == lab;
    assert c[0] == toks[0][0];
    SplitGlued(lab, c);
  }

  const EXAMPLE_LABEL: string := "abcdefghijklmnopq:"
  const EXAMPLE_TOKENS: seq<string> := ["add", "r1", "r2", "r3"]

  lemma ExampleIsWellFormed()
    ensures ValidToken(EXAMPLE_LABEL) && |EXAMPLE_LABEL| >= SECT_LEN
    ensures |EXAMPLE_TOKENS| >= 1 && ValidTokens(EXAMPLE_TOKENS)
    ensures FitsColumns(EXAMPLE_TOKENS, FUNC_LEN)
  {
    var lab := EXAMPLE_LABEL;
    var toks := EXAMPLE_TOKENS;
    forall i | 0 <= i < |lab| ensures !IsSpace(lab[i]) {
      assert 0x3a <= lab[i] as int <= 0x7a;
    }
    forall i, j | 0 <= i < |toks| && 0 <= j < |toks[i]| ensures !IsSpace(toks[i][j]) {
      assert 0x31 <= toks[i][j] as int <= 0x7a;
    }
  }

  lemma ExampleGlued()
    ensures [EXAMPLE_LABEL + EXAMPLE_TOKENS[0]] + EXAMPLE_TOKENS[1..]
         == ["abcdefghijklmnopq:add", "r1", "r2", "r3"]
  {
    assert EXAMPLE_LABEL + EXAMPLE_TOKENS[0] == "abcdefghijklmnopq:add";
    assert EXAMPLE_TOKENS[1..] == ["r1", "r2", "r3"];
  }

  /** The line that shows it: `abcdefghijklmnopq: add r1 r2 r3` loses its `add`. */
  lemma LongLabelExample()
    ensures Split(RenderAsWritten(EXAMPLE_LABEL, EXAMPLE_TOKENS))
         == ["abcdefghijklmnopq:add", "r1", "r2", "r3"]
  {
    ExampleIsWellFormed();
    LongLabelGluedAsWritten(EXAMPLE_LABEL, EXAMPLE_TOKENS);
    ExampleGlued();
  }
}
