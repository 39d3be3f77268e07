/**
 The string handling around one pass over a program: Python's `str.strip()`
 and `str.split("\n")`, dropping the empty pieces, and writing lines back with
 a newline after each.
 */
module Lines {
  import opened Layout

  /** `s` without its leading separators. */
  function StripLeft(s: string): (r: string)
    ensures |r| <= |s| && r == s[|s| - |r|..]
    ensures forall i :: 0 <= i < |s| - |r| ==> IsSpace(s[i])
    ensures r == [] || !IsSpace(r[0])
    decreases |s|
  {
    if s == [] || !IsSpace(s[0]) then s else StripLeft(s[1..])
  }

  /** `s` without its trailing separators. */
  function StripRight(s: string): (r: string)
    ensures |r| <= |s| && r == s[..|r|]
    ensures forall i :: |r| <= i < |s| ==> IsSpace(s[i])
    ensures r == [] || !IsSpace(r[|r| - 1])
    decreases |s|
  {
    if s == [] || !IsSpace(s[|s| - 1]) then s else StripRight(s[..|s| - 1])
  }

  /** Python's `s.strip()`. */
  function Strip(s: string): string {
    StripRight(StripLeft(s))
  }

  /** The pieces joined back with a newline between each two. */
  function JoinLines(ps: seq<string>): string
    requires |ps| >= 1
    decreases |ps|
  {
    if |ps| == 1 then ps[0] else ps[0] + "\n" + JoinLines(ps[1..])
  }

  predicate NoNewline(p: string) {
    '\n' !in p
  }

  /** Python's `s.split("\n")`: the pieces between newlines, empty ones included. */
  function SplitLines(s: string): (r: seq<string>)
    ensures |r| >= 1 && forall p :: p in r ==> NoNewline(p)
    decreases |s|
  {
    if s == [] then [""]
    else
      var rest := SplitLines(s[1..]);
      if s[0] == '\n' then [""] + rest
      else
        assert rest[0] in rest;
        assert forall p :: p in rest[1..] ==> p in rest;
        [[s[0]] + rest[0]] + rest[1..]
  }

  /** The pieces of a string give the string back when joined. */
  lemma {:induction false} JoinSplit(s: string)
    ensures JoinLines(SplitLines(s)) == s
    decreases |s|
  {
    if s != [] {
      JoinSplit(s[1..]);
      if s[0] == '\n' {
        JoinSplitNewline(s);
      } else {
        JoinSplitChar(s);
      }
    }
  }

  /** A leading newline starts an empty first piece. */
  lemma JoinSplitNewline(s: string)
    requires s != [] && s[0] == '\n' && JoinLines(SplitLines(s[1..])) == s[1..]
    ensures JoinLines(SplitLines(s)) == s
  {
    var rest := SplitLines(s[1..]);
    assert SplitLines(s) == [""] + rest;
    assert ([""] + rest)[1..] == rest;
    assert s == "" + "\n" + s[1..];
  }

  /** Any other leading character goes in front of the first piece. */
  lemma JoinSplitChar(s: string)
    requires s != [] && s[0] != '\n' && JoinLines(SplitLines(s[1..])) == s[1..]
    ensures JoinLines(SplitLines(s)) == s
  {
    var rest := SplitLines(s[1..]);
    SplitCons(s);
    hide SplitLines;
    var r := SplitLines(s);
    assert r[0] == [s[0]] + rest[0] && r[1..] == rest[1..];
    JoinFront([s[0]], rest, r);
    assert [s[0]] + s[1..] == s;
  }

  lemma SplitCons(s: string)
    requires s != [] && s[0] != '\n'
    ensures var rest := SplitLines(s[1..]);
            SplitLines(s) == [[s[0]] + rest[0]] + rest[1..]
  {
  }

  /** Putting `x` in front of the first piece puts it in front of the joined text. */
  lemma JoinFront(x: string, ps: seq<string>, qs: seq<string>)
    requires |qs| == |ps| >= 1 && qs[0] == x + ps[0] && qs[1..] == ps[1..]
    ensures JoinLines(qs) == x + JoinLines(ps)
  {
    JoinHead(qs);
    JoinHead(ps);
    hide JoinLines;
    if |ps| > 1 {
      var j := JoinLines(ps[1..]);
      assert (x + ps[0]) + "\n" + j == x + (ps[0] + "\n" + j);
    }
  }

  /** The first piece, then the rest joined behind a newline if there is a rest. */
  lemma JoinHead(ps: seq<string>)
    requires |ps| >= 1
    ensures JoinLines(ps) == if |ps| == 1 then ps[0] else ps[0] + "\n" + JoinLines(ps[1..])
  {
  }

  /** A string without a newline is one piece. */
  lemma {:induction false} SplitOne(p: string)
    requires NoNewline(p)
    ensures SplitLines(p) == [p]
    decreases |p|
  {
    if p != [] {
      assert p[0] in p;
      assert NoNewline(p[1..]) by {
        forall c | c in p[1..] ensures c in p { }
      }
      SplitOne(p[1..]);
      assert [p[0]] + p[1..] == p;
    }
  }

  /** A piece without a newline in front of a newline comes off as the first piece. */
  lemma {:induction false} SplitFirst(p: string, s: string)
    requires NoNewline(p)
    ensures SplitLines(p + "\n" + s) == [p] + SplitLines(s)
    decreases |p|
  {
    if p == [] {
      assert p + "\n" + s == "\n" + s;
      assert ("\n" + s)[1..] == s;
    } else {
      assert p[0] in p;
      assert NoNewline(p[1..]) by {
        forall c | c in p[1..] ensures c in p { }
      }
      SplitFirst(p[1..], s);
      assert (p + "\n" + s)[1..] == p[1..] + "\n" + s;
      assert [p[0]] + p[1..] == p;
    }
  }

  /** Joined pieces without newlines split back into the same pieces. */
  lemma {:induction false} SplitJoin(ps: seq<string>)
    requires |ps| >= 1 && forall p :: p in ps ==> NoNewline(p)
    ensures SplitLines(JoinLines(ps)) == ps
    decreases |ps|
  {
    assert ps[0] in ps;
    if |ps| == 1 {
      SplitOne(ps[0]);
    } else {
      assert forall p :: p in ps[1..] ==> p in ps;
      SplitJoin(ps[1..]);
      SplitFirst(ps[0], JoinLines(ps[1..]));
      assert [ps[0]] + ps[1..] == ps;
    }
  }

  /** The pieces that are not empty, in their order: the source's `if e` filter. */
  function NonBlank(ps: seq<string>): (r: seq<string>)
    ensures |r| <= |ps|
    ensures forall p :: p in r <==> p in ps && p != ""
    decreases |ps|
  {
    if ps == [] then []
    else
      var rest := NonBlank(ps[1..]);
      assert forall p :: p in ps <==> p == ps[0] || p in ps[1..];
      if ps[0] == "" then rest else [ps[0]] + rest
  }

  /** Filtering a concatenation filters each part, keeping their order. */
  lemma {:induction false} NonBlankAppend(a: seq<string>, b: seq<string>)
    ensures NonBlank(a + b) == NonBlank(a) + NonBlank(b)
    decreases |a|
  {
    if a != [] {
      assert (a + b)[1..] == a[1..] + b;
      NonBlankAppend(a[1..], b);
    } else {
      assert a + b == b;
    }
  }

  /** Pieces none of which is empty pass the filter unchanged. */
  lemma {:induction false} NonBlankKeeps(ps: seq<string>)
    requires forall p :: p in ps ==> p != ""
    ensures NonBlank(ps) == ps
    decreases |ps|
  {
    if ps != [] {
      assert ps[0] in ps;
      assert forall p :: p in ps[1..] ==> p in ps;
      NonBlankKeeps(ps[1..]);
      assert [ps[0]] + ps[1..] == ps;
    }
  }

  /** Lines written out, each followed by a newline. */
  function Output(lines: seq<string>): string
    decreases |lines|
  {
    if lines == [] then "" else lines[0] + "\n" + Output(lines[1..])
  }

  /** Writing lines out is joining them and ending with a newline. */
  lemma {:induction false} OutputIsJoin(lines: seq<string>)
    requires |lines| >= 1
    ensures Output(lines) == JoinLines(lines) + "\n"
    decreases |lines|
  {
    if |lines| > 1 {
      OutputIsJoin(lines[1..]);
    }
  }

  /** Output of two groups of lines is the output of the first followed by that of the second. */
  lemma {:induction false} OutputAppend(a: seq<string>, b: seq<string>)
    ensures Output(a + b) == Output(a) + Output(b)
    decreases |a|
  {
    if a != [] {
      assert (a + b)[1..] == a[1..] + b;
      OutputAppend(a[1..], b);
    } else {
      assert a + b == b;
    }
  }

  /** Leading separators of a string that has something else come off before anything after it is reached. */
  lemma {:induction false} StripLeftAppend(x: string, y: string)
    requires StripLeft(x) != []
    ensures StripLeft(x + y) == StripLeft(x) + y
    decreases |x|
  {
    assert (x + y)[0] == x[0];
    if IsSpace(x[0]) {
      assert (x + y)[1..] == x[1..] + y;
      StripLeftAppend(x[1..], y);
    }
  }

  /** Trailing separators after a last character that is not one come off, and nothing more. */
  lemma {:induction false} StripRightEnd(z: string, y: string)
    requires z != [] && !IsSpace(z[|z| - 1])
    requires forall i :: 0 <= i < |y| ==> IsSpace(y[i])
    ensures StripRight(z + y) == z
    decreases |y|
  {
    if y != [] {
      var s := z + y;
      assert s[|s| - 1] == y[|y| - 1];
      assert s[..|s| - 1] == z + y[..|y| - 1];
      StripRightEnd(z, y[..|y| - 1]);
    } else {
      assert z + y == z;
    }
  }

  /** Joined pieces end where the last piece ends. */
  lemma {:induction false} JoinLast(ps: seq<string>)
    requires |ps| >= 1 && ps[|ps| - 1] != []
    ensures var j, l := JoinLines(ps), ps[|ps| - 1];
            |j| >= 1 && j[|j| - 1] == l[|l| - 1]
    decreases |ps|
  {
    if |ps| > 1 {
      JoinLast(ps[1..]);
    }
  }

  /** Splitting on separators does not see leading separators. */
  lemma {:induction false} SplitStripLeft(x: string)
    ensures Split(StripLeft(x)) == Split(x)
    decreases |x|
  {
    if x != [] && IsSpace(x[0]) {
      SplitStripLeft(x[1..]);
    }
  }
}
