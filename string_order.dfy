/** `Array.prototype.sort()` without a comparator, on strings: ascending by
    code unit, a proper prefix first. Branch names are ASCII, where code
    units and characters coincide. */
module StringOrder {

  /** `a` sorts no later than `b`. */
  predicate LexLessEq(a: string, b: string)
    decreases |a|
  {
    a == [] || (b != [] && (a[0] < b[0] || (a[0] == b[0] && LexLessEq(a[1..], b[1..]))))
  }

  lemma {:induction false} LexLessEqReflexive(a: string)
    ensures LexLessEq(a, a)
    decreases |a|
  {
    if a != [] {
      LexLessEqReflexive(a[1..]);
    }
  }

  lemma {:induction false} LexLessEqTotal(a: string, b: string)
    ensures LexLessEq(a, b) || LexLessEq(b, a)
    decreases |a|
  {
    if a != [] && b != [] && a[0] == b[0] {
      LexLessEqTotal(a[1..], b[1..]);
    }
  }

  lemma {:induction false} LexLessEqAntisymmetric(a: string, b: string)
    requires LexLessEq(a, b) && LexLessEq(b, a)
    ensures a == b
    decreases |a|
  {
    if a != [] {
      LexLessEqAntisymmetric(a[1..], b[1..]);
      assert a == [a[0]] + a[1..] && b == [b[0]] + b[1..];
    }
  }

  lemma {:induction false} LexLessEqTransitive(a: string, b: string, c: string)
    requires LexLessEq(a, b) && LexLessEq(b, c)
    ensures LexLessEq(a, c)
    decreases |a|
  {
    if a != [] && b != [] && c != [] && a[0] == b[0] && b[0] == c[0] {
      LexLessEqTransitive(a[1..], b[1..], c[1..]);
    }
  }

  predicate Sorted(s: seq<string>) {
    forall i, j :: 0 <= i < j < |s| ==> LexLessEq(s[i], s[j])
  }

  /** `x` put into the sorted `s` before the first element it sorts before. */
  function Insert(x: string, s: seq<string>): (r: seq<string>)
    ensures |r| == |s| + 1
  {
    if s == [] then [x]
    else if LexLessEq(x, s[0]) then [x] + s
    else [s[0]] + Insert(x, s[1..])
  }

  lemma {:induction false} InsertPermutes(x: string, s: seq<string>)
    ensures multiset(Insert(x, s)) == multiset(s) + multiset{x}
  {
    if s != [] {
      assert s == [s[0]] + s[1..];
      if !LexLessEq(x, s[0]) {
        InsertPermutes(x, s[1..]);
      }
    }
  }

  /** The branch names in sorted order. */
  function SortStrings(s: seq<string>): (r: seq<string>)
    ensures |r| == |s|
  {
    if s == [] then []
    else Insert(s[0], SortStrings(s[1..]))
  }

  lemma {:induction false} InsertSorted(x: string, s: seq<string>)
    requires Sorted(s)
    ensures Sorted(Insert(x, s))
  {
    if s != [] {
      if LexLessEq(x, s[0]) {
        InsertFront(x, s);
      } else {
        InsertSorted(x, s[1..]);
        InsertBehind(x, s);
      }
    }
  }

  lemma InsertFront(x: string, s: seq<string>)
    requires Sorted(s) && s != [] && LexLessEq(x, s[0])
    ensures Sorted([x] + s)
  {
    var r := [x] + s;
    forall i, j | 0 <= i < j < |r|
      ensures LexLessEq(r[i], r[j])
    {
      if i == 0 && j > 1 {
        LexLessEqTransitive(x, s[0], s[j - 1]);
      }
    }
  }

  lemma InsertBehind(x: string, s: seq<string>)
    requires Sorted(s) && s != [] && !LexLessEq(x, s[0])
    requires Sorted(Insert(x, s[1..]))
    ensures Sorted([s[0]] + Insert(x, s[1..]))
  {
    var tail := Insert(x, s[1..]);
    var r := [s[0]] + tail;
    LexLessEqTotal(x, s[0]);
    assert forall i :: 0 <= i < |s[1..]| ==> LexLessEq(s[0], s[1..][i]) by {
      assert forall i :: 0 <= i < |s[1..]| ==> s[1..][i] == s[i + 1];
    }
    InsertAboveBound(s[0], x, s[1..]);
    forall i, j | 0 <= i < j < |r|
      ensures LexLessEq(r[i], r[j])
    {
      assert r[j] == tail[j - 1];
      if i > 0 {
        assert r[i] == tail[i - 1];
      }
    }
  }

  /** Inserting an element that is no smaller than `lo` into a list whose
      elements are no smaller than `lo` keeps every element above `lo`. */
  lemma {:induction false} InsertAboveBound(lo: string, x: string, s: seq<string>)
    requires LexLessEq(lo, x)
    requires forall i :: 0 <= i < |s| ==> LexLessEq(lo, s[i])
    ensures forall i :: 0 <= i < |Insert(x, s)| ==> LexLessEq(lo, Insert(x, s)[i])
  {
    if s != [] && !LexLessEq(x, s[0]) {
      assert forall i :: 0 <= i < |s[1..]| ==> s[1..][i] == s[i + 1];
      InsertAboveBound(lo, x, s[1..]);
      var t := Insert(x, s[1..]);
      assert Insert(x, s) == [s[0]] + t;
      assert forall i :: 1 <= i < |Insert(x, s)| ==> Insert(x, s)[i] == t[i - 1];
    }
  }

  /** The list `sort()` produces is ordered and holds the same names. */
  lemma {:induction false} SortStringsSorts(s: seq<string>)
    ensures Sorted(SortStrings(s)) && multiset(SortStrings(s)) == multiset(s)
  {
    if s != [] {
      SortStringsSorts(s[1..]);
      InsertSorted(s[0], SortStrings(s[1..]));
      InsertPermutes(s[0], SortStrings(s[1..]));
      assert s == [s[0]] + s[1..];
    }
  }
}
