/**
 Macro operands and their parser. An operand token is, tried in this order, a
 register `r0`..`r15`, a natural number in decimal or `0x` hexadecimal, a
 register with a signed offset (`r3+24`, `r15-0xabc`), or a label (a run of
 word characters). Anything else does not parse. In an operand list the
 three tokens `reg`, `+`/`-`, `n` are folded into one offset operand.
 */
module Operands {
  import opened Wrappers
  import opened Text
  import Machine

  datatype Operand =
    | Reg(r: Machine.Reg)
    | Nat(v: nat)
    | RegOff(base: Machine.Reg, k: int)
    | Label(name: string)

  /** The register grammar `r1[0-5]|r[0-9]`. */
  function ParseReg(s: string): Option<Machine.Reg> {
    if |s| == 2 && s[0] == 'r' && IsDigit(s[1]) then Some(DigitValue(s[1]))
    else if |s| == 3 && s[0] == 'r' && s[1] == '1' && '0' <= s[2] <= '5' then Some(10 + DigitValue(s[2]))
    else None
  }

  /** The number grammar `0x[0-9a-f]+|\d+`, read as `int(s, 16)` or `int(s)`. */
  function ParseNat(s: string): Option<nat> {
    if |s| >= 3 && s[0] == '0' && s[1] == 'x' && AllHexDigits(s[2..]) then Some(Value(s[2..], 16))
    else if |s| >= 1 && AllDigits(s) then Some(Value(s, 10))
    else None
  }

  predicate IsSign(c: char) {
    c == '+' || c == '-'
  }

  /** Index of the first `+` or `-` in `s`, or `|s|` when there is none. */
  function SignIndex(s: string): (i: nat)
    ensures i <= |s|
    ensures forall j :: 0 <= j < i ==> !IsSign(s[j])
    ensures i < |s| ==> IsSign(s[i])
  {
    if s == [] || IsSign(s[0]) then 0 else 1 + SignIndex(s[1..])
  }

  /** The offset grammar `(REG)[+-](NAT)`: base register, whether the sign is `-`, and the magnitude. */
  function ParseOffset(s: string): Option<(Machine.Reg, bool, nat)> {
    var i := SignIndex(s);
    if i < |s| && ParseReg(s[..i]).Some? && ParseNat(s[i + 1..]).Some? then
      Some((ParseReg(s[..i]).value, s[i] == '-', ParseNat(s[i + 1..]).value))
    else None
  }

  /** `parse_arg`: the first grammar that matches the whole token decides. */
  function ParseArg(s: string): Option<Operand> {
    if ParseReg(s).Some? then Some(Reg(ParseReg(s).value))
    else if ParseNat(s).Some? then Some(Nat(ParseNat(s).value))
    else if ParseOffset(s).Some? then
      var (r, neg, v) := ParseOffset(s).value;
      Some(RegOff(r, if neg then -(v as int) else v as int))
    else if |s| > 0 && AllWordChars(s) then Some(Label(s))
    else None
  }

  /** `parse_args`: one operand per token, except that `reg`, `+`/`-`, `n` form one. */
  function ParseArgs(toks: seq<string>): (r: seq<Option<Operand>>)
    ensures |r| <= |toks|
    decreases |toks|
  {
    if toks == [] then []
    else if |toks| >= 3 && (toks[1] == "+" || toks[1] == "-") then
      [ParseArg(toks[0] + toks[1] + toks[2])] + ParseArgs(toks[3..])
    else [ParseArg(toks[0])] + ParseArgs(toks[1..])
  }

  /** A label that the parser reads back as a label, not as a register or a number. */
  predicate LabelName(s: string) {
    |s| > 0 && AllWordChars(s) && ParseReg(s).None? && ParseNat(s).None?
  }

  predicate Printable(op: Operand) {
    op.Label? ==> LabelName(op.name)
  }

  /** The tokens a programmer writes for an operand. */
  function Show(op: Operand): seq<string> {
    match op
    case Reg(r) => [Machine.RegName(r)]
    case Nat(v) => [Dec(v)]
    case RegOff(r, k) => [Machine.RegName(r), if k < 0 then "-" else "+", Dec(if k < 0 then -k else k)]
    case Label(s) => [s]
  }

  function ShowArgs(ops: seq<Operand>): seq<string> {
    if ops == [] then [] else Show(ops[0]) + ShowArgs(ops[1..])
  }

  function AsSome(ops: seq<Operand>): (r: seq<Option<Operand>>)
    ensures |r| == |ops| && forall i :: 0 <= i < |ops| ==> r[i] == Some(ops[i])
  {
    seq(|ops|, i requires 0 <= i < |ops| => Some(ops[i]))
  }

  lemma RegNameShape(r: Machine.Reg)
    ensures r < 10 ==> Machine.RegName(r) == ['r', DigitChar(r)]
    ensures r >= 10 ==> Machine.RegName(r) == ['r', '1', DigitChar(r - 10)]
  {
    if r >= 10 {
      assert Dec(r) == Dec(r / 10) + [DigitChar(r % 10)];
    }
  }

  /** The register grammar accepts exactly the sixteen register names. */
  lemma ParseRegIff(s: string, r: Machine.Reg)
    ensures ParseReg(s) == Some(r) <==> s == Machine.RegName(r)
  {
    RegNameShape(r);
    DigitRoundTrip(r % 10);
    if ParseReg(s) == Some(r) {
      if |s| == 2 {
        assert DigitChar(DigitValue(s[1])) == s[1];
      } else {
        assert DigitChar(DigitValue(s[2])) == s[2];
      }
    }
  }

  lemma DecIsNat(v: nat)
    ensures ParseNat(Dec(v)) == Some(v)
  {
    DecRoundTrip(v);
    var s := Dec(v);
    assert !(|s| >= 3 && s[1] == 'x');
  }

  lemma HexIsNat(v: nat)
    ensures ParseNat("0x" + Hex(v)) == Some(v)
  {
    HexRoundTrip(v);
    var s := "0x" + Hex(v);
    assert s[2..] == Hex(v);
  }

  lemma ParseRegName(r: Machine.Reg)
    ensures ParseArg(Machine.RegName(r)) == Some(Reg(r))
  {
    ParseRegIff(Machine.RegName(r), r);
  }

  lemma ParseDecimal(v: nat)
    ensures ParseArg(Dec(v)) == Some(Nat(v))
  {
    DecIsNat(v);
    var s := Dec(v);
    assert ParseReg(s).None? by {
      assert !IsDigit('r');
      assert s[0] != 'r';
    }
  }

  lemma ParseHexadecimal(v: nat)
    ensures ParseArg("0x" + Hex(v)) == Some(Nat(v))
  {
    HexIsNat(v);
  }

  /** `r3+24` is base `r3` with offset 24 and `r15-0xabc` is `r15` with offset `-0xabc`. */
  lemma ParseOffsetText(r: Machine.Reg, neg: bool, digits: string, v: nat)
    requires ParseNat(digits) == Some(v)
    ensures ParseArg(Machine.RegName(r) + (if neg then "-" else "+") + digits)
         == Some(RegOff(r, if neg then -(v as int) else v as int))
  {
    var name := Machine.RegName(r);
    var s := name + (if neg then "-" else "+") + digits;
    RegNameShape(r);
    assert SignIndex(s) == |name| by {
      assert !IsSign(s[0]) && !IsSign(s[1]);
      if |name| == 3 {
        assert !IsSign(s[2]);
      }
      assert IsSign(s[|name|]);
    }
    assert s[..|name|] == name;
    assert s[|name| + 1..] == digits;
    ParseRegIff(name, r);
    assert ParseReg(s).None?;
    assert ParseNat(s).None? by {
      assert !IsDigit(s[0]);
    }
  }

  lemma ParseShown(op: Operand)
    requires Printable(op)
    ensures |Show(op)| == 1 ==> ParseArg(Show(op)[0]) == Some(op)
    ensures |Show(op)| == 3 ==> ParseArg(Show(op)[0] + Show(op)[1] + Show(op)[2]) == Some(op)
  {
    hide ParseArg, ParseNat, ParseReg;
    match op
    case Reg(r) => ParseRegName(r);
    case Nat(v) => ParseDecimal(v);
    case RegOff(r, k) =>
      var v := if k < 0 then -k else k;
      DecIsNat(v);
      ParseOffsetText(r, k < 0, Dec(v), v);
    case Label(s) => LabelParse(s);
  }

  lemma ShowArgsCons(ops: seq<Operand>)
    requires |ops| >= 1
    ensures ShowArgs(ops) == Show(ops[0]) + ShowArgs(ops[1..])
  {
  }

  /** No printed operand list starts with a lone sign, so a single token is never folded with the next two. */
  lemma ShowArgsHead(ops: seq<Operand>)
    requires forall i :: 0 <= i < |ops| ==> Printable(ops[i])
    requires |ShowArgs(ops)| >= 1
    ensures ShowArgs(ops)[0] != "+" && ShowArgs(ops)[0] != "-"
  {
    var t := Show(ops[0]);
    assert ShowArgs(ops)[0] == t[0];
    match ops[0]
    case Reg(r) => RegNameShape(r);
    case Nat(v) => assert IsDigit(Dec(v)[0]);
    case RegOff(r, k) => RegNameShape(r);
    case Label(s) => assert IsWordChar(s[0]);
  }

  /** Printing operands and parsing the tokens back gives the same operands. */
  lemma {:induction false} ParseShowArgs(ops: seq<Operand>)
    requires forall i :: 0 <= i < |ops| ==> Printable(ops[i])
    ensures ParseArgs(ShowArgs(ops)) == AsSome(ops)
    decreases |ops|
  {
    if ops != [] {
      ParseShowArgs(ops[1..]);
      ParseShowStep(ops);
    }
  }

  /** One more printed operand in front parses to one more operand in front. */
  lemma ParseShowStep(ops: seq<Operand>)
    requires |ops| >= 1 && forall i :: 0 <= i < |ops| ==> Printable(ops[i])
    requires ParseArgs(ShowArgs(ops[1..])) == AsSome(ops[1..])
    ensures ParseArgs(ShowArgs(ops)) == AsSome(ops)
  {
    hide ParseArg, Printable, ParseArgs, ShowArgs;
    ShowArgsCons(ops);
    assert Printable(ops[0]);
    ParseShown(ops[0]);
    var rest := ShowArgs(ops[1..]);
    if ops[0].RegOff? {
      ParseFolded(Show(ops[0]), rest);
    } else {
      if |rest| >= 1 {
        ShowArgsHead(ops[1..]);
      }
      ParseSingle(Show(ops[0]), rest);
    }
    assert AsSome(ops) == [Some(ops[0])] + AsSome(ops[1..]);
  }

  /** Three tokens with a sign in the middle are parsed as one operand. */
  lemma ParseFolded(t: seq<string>, rest: seq<string>)
    requires |t| == 3 && (t[1] == "+" || t[1] == "-")
    ensures ParseArgs(t + rest) == [ParseArg(t[0] + t[1] + t[2])] + ParseArgs(rest)
  {
    hide ParseArg;
    assert (t + rest)[3..] == rest;
  }

  /** A single token not followed by a lone sign is parsed on its own. */
  lemma ParseSingle(t: seq<string>, rest: seq<string>)
    requires |t| == 1 && (|rest| >= 1 ==> rest[0] != "+" && rest[0] != "-")
    ensures ParseArgs(t + rest) == [ParseArg(t[0])] + ParseArgs(rest)
  {
    hide ParseArg;
    assert (t + rest)[1..] == rest;
  }

  lemma ThirtyTwo()
    ensures ParseNat("32") == Some(32)
  {
    assert Value("32", 10) == 32 by {
      assert "32"[..1] == "3";
    }
  }

  lemma TwentyFour()
    ensures ParseNat("24") == Some(24)
  {
    assert Value("24", 10) == 24 by {
      assert "24"[..1] == "2";
    }
  }

  lemma HexAbc()
    ensures ParseNat("0xabc") == Some(0xabc)
  {
    assert "0xabc"[2..] == "abc";
    assert Value("abc", 16) == 0xabc by {
      assert "abc"[..2] == "ab" && "ab"[..1] == "a";
    }
  }

  /** The parser's verdicts on the sample numbers of the library's own unit tests. */
  lemma ParseNumberExamples()
    ensures ParseArg("32") == Some(Nat(32))
    ensures ParseArg("0xabc") == Some(Nat(0xabc))
  {
    ThirtyTwo();
    HexAbc();
  }

  /** A word that is neither a register, a number nor an offset is a label. */
  lemma LabelParse(s: string)
    requires |s| > 0 && AllWordChars(s)
    requires ParseReg(s).None? && ParseNat(s).None? && SignIndex(s) == |s|
    ensures ParseArg(s) == Some(Label(s))
  {
  }

  /** A number with a trailing letter is a label: `32z`. */
  lemma DecimalLabelExample()
    ensures ParseArg("32z") == Some(Label("32z"))
  {
    var a := "32z";
    assert !IsDigit(a[2]) && a[0] != 'r';
    assert AllWordChars(a) by { assert forall i | 0 <= i < |a| :: IsWordChar(a[i]); }
    assert SignIndex(a) == |a|;
    LabelParse(a);
  }

  /** A hexadecimal number with a trailing letter is a label: `0xabcz`. */
  lemma HexLabelExample()
    ensures ParseArg("0xabcz") == Some(Label("0xabcz"))
  {
    var b := "0xabcz";
    assert !IsHexDigit(b[5]) && b[2..][3] == b[5] && !IsDigit(b[1]) && b[0] != 'r';
    assert AllWordChars(b) by { assert forall i | 0 <= i < |b| :: IsWordChar(b[i]); }
    assert SignIndex(b) == |b|;
    LabelParse(b);
  }

  /** The sample registers of the library's own unit tests: `r0` and `r15` are registers. */
  lemma ParseRegisterExamples()
    ensures ParseArg("r0") == Some(Reg(0))
    ensures ParseArg("r15") == Some(Reg(15))
  {
  }

  /** `r16` is past the last register: a label. */
  lemma R16LabelExample()
    ensures ParseArg("r16") == Some(Label("r16"))
  {
    var a := "r16";
    assert !IsDigit(a[0]) && a[2] == '6';
    assert AllWordChars(a) by { assert forall i | 0 <= i < |a| :: IsWordChar(a[i]); }
    assert SignIndex(a) == 3;
    LabelParse(a);
  }

  /** `r1y` is a label. */
  lemma R1yLabelExample()
    ensures ParseArg("r1y") == Some(Label("r1y"))
  {
    var b := "r1y";
    assert !IsDigit(b[0]) && b[2] == 'y';
    assert AllWordChars(b) by { assert forall i | 0 <= i < |b| :: IsWordChar(b[i]); }
    assert SignIndex(b) == 3;
    LabelParse(b);
  }

  /** `label34` is a label. */
  lemma WordLabelExample()
    ensures ParseArg("label34") == Some(Label("label34"))
  {
    var c := "label34";
    assert !IsDigit(c[0]) && c[0] != 'r';
    assert AllWordChars(c) by { assert forall i | 0 <= i < |c| :: IsWordChar(c[i]); }
    assert SignIndex(c) == 7;
    LabelParse(c);
  }

  lemma OffsetR3()
    ensures ParseArg("r3+24") == Some(RegOff(3, 24))
  {
    var a := "r3+24";
    assert SignIndex(a) == 2 && a[..2] == "r3" && a[3..] == "24";
    TwentyFour();
  }

  lemma OffsetR15()
    ensures ParseArg("r15-0xabc") == Some(RegOff(15, -0xabc))
  {
    var b := "r15-0xabc";
    assert !IsDigit(b[0]) && b[0] != '0';
    OffsetR15Parts();
  }

  lemma OffsetR15Parts()
    ensures ParseOffset("r15-0xabc") == Some((15, true, 0xabc))
  {
    var b := "r15-0xabc";
    assert SignIndex(b) == 3 && b[..3] == "r15" && b[4..] == "0xabc";
    HexAbc();
  }

  lemma OffsetR7()
    ensures ParseArg("r7" + "+" + "6") == Some(RegOff(7, 6))
  {
    var a := "r7+6";
    assert "r7" + "+" + "6" == a;
    assert a[1..][1..] == "+6";
    assert SignIndex(a) == 2 && a[..2] == "r7" && a[3..] == "6";
  }

  /** Operand folding on a sample of the library's own unit tests: `r7 + 6` is one operand, the rest one each. */
  lemma ParseArgsExample()
    ensures ParseArgs(["r7", "+", "6", "r11", "charlie"])
         == [Some(RegOff(7, 6)), Some(Reg(11)), Some(Label("charlie"))]
  {
    hide ParseArg;
    var toks := ["r7", "+", "6", "r11", "charlie"];
    var rest := ["r11", "charlie"];
    OffsetR7();
    assert toks[3..] == rest && toks[1] == "+";
    assert ParseArgs(toks) == [ParseArg("r7" + "+" + "6")] + ParseArgs(rest);
    assert rest[1..] == ["charlie"] && rest[1] != "+" && rest[1] != "-";
    assert ParseArgs(rest) == [ParseArg("r11")] + ParseArgs(["charlie"]);
    R11Reg();
    CharlieLabel();
    assert ParseArgs(["charlie"]) == [ParseArg("charlie")] + ParseArgs([]);
  }

  lemma R11Reg()
    ensures ParseArg("r11") == Some(Reg(11))
  {
  }

  lemma CharlieLabel()
    ensures ParseArg("charlie") == Some(Label("charlie"))
  {
    var c := "charlie";
    assert AllWordChars(c) by { assert forall i | 0 <= i < |c| :: IsWordChar(c[i]); }
    assert !IsDigit(c[0]) && c[0] != 'r' && SignIndex(c) == 7;
    LabelParse(c);
  }

}
