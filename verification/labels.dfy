/**
 Fresh label generation. The library keeps a counter and the list of label
 names it has handed out (callers may add names of their own to that list).
 A new label is `_unique_<n>` for the first counter value `n`, past the
 current one, whose name is not yet on the list. The counter and the list
 are threaded explicitly here instead of living in module globals.
 */
module Labels {
  import opened Text

  datatype LabelState = LabelState(count: nat, used: seq<string>)

  /** The initial state: counter zero, no labels handed out. */
  const INITIAL: LabelState := LabelState(0, [])

  function UniqueName(k: nat): string {
    "_unique_" + Dec(k)
  }

  /** The length of the longest name in `used`. */
  function MaxLen(used: seq<string>): (m: nat)
    ensures forall s :: s in used ==> |s| <= m
  {
    if used == [] then 0
    else
      var m := MaxLen(used[1..]);
      assert forall s :: s in used ==> s == used[0] || s in used[1..];
      if |used[0]| > m then |used[0]| else m
  }

  /** Every name with a long enough counter is longer than anything in `used`. */
  lemma LargeCounterIsFree(k: nat, used: seq<string>)
    requires k >= Pow(10, MaxLen(used))
    ensures UniqueName(k) !in used
  {
    var m := MaxLen(used);
    DecBound(k);
    if |Dec(k)| <= m {
      PowMonotone(10, |Dec(k)|, m);
    }
  }

  /** The first counter value from `k` on whose name is not in `used`. */
  function Probe(k: nat, used: seq<string>): (j: nat)
    ensures j >= k && UniqueName(j) !in used
    ensures forall i :: k <= i < j ==> UniqueName(i) in used
    decreases Pow(10, MaxLen(used)) - k
  {
    if UniqueName(k) !in used then k
    else
      assert k < Pow(10, MaxLen(used)) by {
        if k >= Pow(10, MaxLen(used)) {
          LargeCounterIsFree(k, used);
        }
      }
      Probe(k + 1, used)
  }

  /**
   `new_label`: the name handed out is not in use, it is recorded, and it is
   the first free `_unique_<n>` past the old counter, which moves to `n`.
   */
  function NewLabel(st: LabelState): (r: (string, LabelState))
    ensures r.0 !in st.used
    ensures r.1.used == st.used + [r.0]
    ensures r.1.count > st.count && r.0 == UniqueName(r.1.count)
    ensures forall i :: st.count < i < r.1.count ==> UniqueName(i) in st.used
  {
    var n := Probe(st.count + 1, st.used);
    (UniqueName(n), LabelState(n, st.used + [UniqueName(n)]))
  }

  predicate NoDuplicates(s: seq<string>) {
    forall i, j :: 0 <= i < j < |s| ==> s[i] != s[j]
  }

  /** A list of names without repetitions stays so when a new label is taken. */
  lemma NewLabelKeepsDistinct(st: LabelState)
    requires NoDuplicates(st.used)
    ensures NoDuplicates(NewLabel(st).1.used)
  {
    var (name, st') := NewLabel(st);
    forall i, j | 0 <= i < j < |st'.used|
      ensures st'.used[i] != st'.used[j]
    {
      if j == |st.used| {
        assert st.used[i] in st.used;
      }
    }
  }

  lemma UniqueNameInjective(m: nat, n: nat)
    requires UniqueName(m) == UniqueName(n)
    ensures m == n
  {
    assert UniqueName(m)[8..] == Dec(m);
    assert UniqueName(n)[8..] == Dec(n);
    DecInjective(m, n);
  }

  /** The names `_unique_1` .. `_unique_n`. */
  function Sequential(n: nat): (s: seq<string>)
    ensures |s| == n && forall i :: 0 <= i < n ==> s[i] == UniqueName(i + 1)
  {
    seq(n, i requires 0 <= i => UniqueName(i + 1))
  }

  /** When nobody else adds names, the labels come out as `_unique_1`, `_unique_2`, ... in turn. */
  lemma NewLabelSequential(n: nat)
    ensures NewLabel(LabelState(n, Sequential(n))) == (UniqueName(n + 1), LabelState(n + 1, Sequential(n + 1)))
  {
    var used := Sequential(n);
    if UniqueName(n + 1) in used {
      var i :| 0 <= i < n && used[i] == UniqueName(n + 1);
      UniqueNameInjective(i + 1, n + 1);
    }
    assert Probe(n + 1, used) == n + 1;
    assert used + [UniqueName(n + 1)] == Sequential(n + 1);
  }

  /** The first label is `_unique_1`; once `_unique_2` is taken by someone else, the next is `_unique_3`. */
  lemma NewLabelExample()
    ensures NewLabel(INITIAL).0 == UniqueName(1)
    ensures var st := NewLabel(INITIAL).1;
            NewLabel(LabelState(st.count, st.used + [UniqueName(2)])).0 == UniqueName(3)
  {
    NewLabelSequential(0);
    var st := NewLabel(INITIAL).1;
    var st2 := LabelState(st.count, st.used + [UniqueName(2)]);
    assert st.count == 1 && st.used == [UniqueName(1)];
    assert st2.used == [UniqueName(1), UniqueName(2)];
    var r := NewLabel(st2);
    assert r.1.count >= 2;
    if r.1.count > 3 {
      assert UniqueName(3) in st2.used;
      if UniqueName(3) == UniqueName(1) {
        UniqueNameInjective(3, 1);
      } else {
        UniqueNameInjective(3, 2);
      }
    }
  }
}
