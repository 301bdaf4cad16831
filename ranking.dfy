/** The "popular" ranking of `fetchPopularBooks`: the fetched window is sorted in place by
    number of sources, most first, with JavaScript's stable `Array.prototype.sort`.
    A stable sort's output is determined by its comparator, so the ranking is specified by
    a stable insertion sort (`RankBySources`) and carried out in place by `SortBySourceCount`. */
module Ranking {
  import opened Types
  import opened JsArray

  /** The score `b.sources?.length ?? 0`. */
  function SourceCount(b: Book): nat {
    |b.sources|
  }

  /** The book at `i` has at least as many sources as the one at `j`. */
  predicate RanksAtOrAbove(s: seq<Book>, i: nat, j: nat)
    requires i < |s| && j < |s|
  {
    SourceCount(s[i]) >= SourceCount(s[j])
  }

  /** Sorted by number of sources, most first. */
  predicate SortedBySourcesDesc(s: seq<Book>) {
    forall i, j :: 0 <= i < j < |s| ==> RanksAtOrAbove(s, i, j)
  }

  lemma SortedTail(s: seq<Book>)
    requires s != [] && SortedBySourcesDesc(s)
    ensures SortedBySourcesDesc(s[1..])
  {
    forall i, j | 0 <= i < j < |s| - 1 ensures RanksAtOrAbove(s[1..], i, j) {
      assert RanksAtOrAbove(s, i + 1, j + 1);
    }
  }

  lemma SortedPrefix(s: seq<Book>, n: nat)
    requires n <= |s| && SortedBySourcesDesc(s)
    ensures SortedBySourcesDesc(s[..n])
  {
    forall i, j | 0 <= i < j < n ensures RanksAtOrAbove(s[..n], i, j) {
      assert RanksAtOrAbove(s, i, j);
    }
  }

  /** Where a stable descending sort puts `x` after `s`: past every leading book that has at
      least as many sources. */
  function InsertionPoint(x: Book, s: seq<Book>): (k: nat)
    ensures k <= |s|
    ensures forall i :: 0 <= i < k ==> SourceCount(s[i]) >= SourceCount(x)
  {
    if s == [] || SourceCount(s[0]) < SourceCount(x) then 0 else 1 + InsertionPoint(x, s[1..])
  }

  /** On a sorted sequence, everything from the insertion point on has fewer sources. */
  lemma {:induction false} InsertionPointSplits(x: Book, s: seq<Book>)
    requires SortedBySourcesDesc(s)
    ensures forall i :: InsertionPoint(x, s) <= i < |s| ==> SourceCount(s[i]) < SourceCount(x)
    decreases |s|
  {
    if s != [] {
      if SourceCount(s[0]) >= SourceCount(x) {
        SortedTail(s);
        InsertionPointSplits(x, s[1..]);
        forall i | InsertionPoint(x, s) <= i < |s| ensures SourceCount(s[i]) < SourceCount(x) {
          assert s[i] == s[1..][i - 1];
        }
      } else {
        forall i | 0 < i < |s| ensures SourceCount(s[i]) < SourceCount(x) {
          assert RanksAtOrAbove(s, 0, i);
        }
      }
    }
  }

  /** The insertion point is the only split with "at least as many" before it and
      "fewer" from it on. */
  lemma {:induction false} InsertionPointUnique(x: Book, s: seq<Book>, j: nat)
    requires SortedBySourcesDesc(s) && j <= |s|
    requires forall t :: j <= t < |s| ==> SourceCount(s[t]) < SourceCount(x)
    requires j > 0 ==> SourceCount(s[j - 1]) >= SourceCount(x)
    ensures InsertionPoint(x, s) == j
    decreases |s|
  {
    if j > 0 {
      if j > 1 { assert RanksAtOrAbove(s, 0, j - 1); }
      SortedTail(s);
      InsertionPointUnique(x, s[1..], j - 1);
    }
  }

  /** One step of the stable sort: `x` placed after the books that rank at or above it. */
  function Insert(x: Book, s: seq<Book>): seq<Book> {
    var k := InsertionPoint(x, s);
    s[..k] + [x] + s[k..]
  }

  lemma InsertKeepsSorted(x: Book, s: seq<Book>)
    requires SortedBySourcesDesc(s)
    ensures SortedBySourcesDesc(Insert(x, s))
  {
    var k := InsertionPoint(x, s);
    InsertionPointSplits(x, s);
    var r := Insert(x, s);
    forall i, j | 0 <= i < j < |r| ensures RanksAtOrAbove(r, i, j) {
      var si := if i < k then i else i - 1;
      var sj := if j <= k then j else j - 1;
      if i != k && j != k {
        assert r[i] == s[si] && r[j] == s[sj];
        assert RanksAtOrAbove(s, si, sj);
      } else if i == k {
        assert r[j] == s[sj];
      } else {
        assert r[i] == s[si];
      }
    }
  }

  lemma InsertIsRearrangement(x: Book, s: seq<Book>)
    ensures multiset(Insert(x, s)) == multiset(s) + multiset{x}
  {
    var k := InsertionPoint(x, s);
    assert s == s[..k] + s[k..];
  }

  /** The popular order of a window: sorted by number of sources, most first, and a
      rearrangement of the window. */
  function RankBySources(s: seq<Book>): (r: seq<Book>)
    ensures SortedBySourcesDesc(r)
    ensures multiset(r) == multiset(s)
    ensures |r| == |s|
    decreases |s|
  {
    if s == [] then []
    else
      var init := s[..|s| - 1];
      var done := RankBySources(init);
      InsertKeepsSorted(s[|s| - 1], done);
      InsertIsRearrangement(s[|s| - 1], done);
      assert s == init + [s[|s| - 1]];
      assert |Insert(s[|s| - 1], done)| == |multiset(Insert(s[|s| - 1], done))|;
      Insert(s[|s| - 1], done)
  }

  /** The books with exactly `n` sources. */
  function HasSourceCount(n: nat): Book -> bool {
    b => SourceCount(b) == n
  }

  /** Re-bracketing around an empty part: both orders of the parts give the same sequence. */
  lemma DropEmpty(a: seq<Book>, c: seq<Book>, e: seq<Book>)
    requires e == []
    ensures (a + c) + e == (a + e) + c
  {
    assert (a + c) + e == a + c;
    assert a + e == a;
  }

  lemma InsertStable(x: Book, s: seq<Book>, n: nat)
    requires SortedBySourcesDesc(s)
    ensures Filter(Insert(x, s), HasSourceCount(n)) == Filter(s + [x], HasSourceCount(n))
  {
    var p, k := HasSourceCount(n), InsertionPoint(x, s);
    var front, back := s[..k], s[k..];
    var f, b, m := Filter(front, p), Filter(back, p), Filter([x], p);
    assert Filter(Insert(x, s), p) == (f + m) + b by {
      assert Insert(x, s) == (front + [x]) + back;
      FilterAppend(front + [x], back, p);
      FilterAppend(front, [x], p);
    }
    assert Filter(s + [x], p) == (f + b) + m by {
      SplitJoin(s, k);
      FilterAppend(front, back, p);
      FilterAppend(s, [x], p);
    }
    if SourceCount(x) == n {
      assert b == [] by {
        InsertionPointSplits(x, s);
        assert forall i :: 0 <= i < |back| ==> !p(back[i]);
        FilterNone(back, p);
      }
      DropEmpty(f, m, b);
    } else {
      assert m == [];
      DropEmpty(f, b, m);
    }
  }

  /** Ties keep their window order: for every source count, the books with that count
      appear in the ranking in the order they arrived. */
  lemma {:induction false} RankIsStable(s: seq<Book>, n: nat)
    ensures Filter(RankBySources(s), HasSourceCount(n)) == Filter(s, HasSourceCount(n))
    decreases |s|
  {
    if s != [] {
      var init, x, p := s[..|s| - 1], s[|s| - 1], HasSourceCount(n);
      var r := RankBySources(init);
      calc {
        Filter(RankBySources(s), p);
        Filter(Insert(x, r), p);
        { InsertStable(x, r, n); }
        Filter(r + [x], p);
        { FilterAppend(r, [x], p); }
        Filter(r, p) + Filter([x], p);
        { RankIsStable(init, n); }
        Filter(init, p) + Filter([x], p);
        { FilterAppend(init, [x], p); }
        Filter(init + [x], p);
        { assert init + [x] == s; }
        Filter(s, p);
      }
    }
  }

  lemma RankOneMore(w: seq<Book>, i: nat)
    requires i < |w|
    ensures RankBySources(w[..i + 1]) == Insert(w[i], RankBySources(w[..i]))
  {
    assert w[..i + 1][..i] == w[..i];
  }

  /** Moves `a[i]` left past the books with fewer sources, within the sorted prefix. */
  method InsertLast(a: array<Book>, i: nat)
    requires i < a.Length && SortedBySourcesDesc(a[..i])
    modifies a
    ensures a[..i + 1] == Insert(old(a[i]), old(a[..i]))
    ensures a[i + 1..] == old(a[i + 1..])
  {
    ghost var s := a[..i];
    ghost var rest := a[i + 1..];
    var x := a[i];
    var j := i;
    while j > 0 && SourceCount(a[j - 1]) < SourceCount(x)
      invariant 0 <= j <= i
      invariant forall t :: 0 <= t < j ==> a[t] == s[t]
      invariant forall t :: j < t <= i ==> a[t] == s[t - 1]
      invariant forall t :: j <= t < i ==> SourceCount(s[t]) < SourceCount(x)
      invariant a[i + 1..] == rest
    {
      a[j] := a[j - 1];
      j := j - 1;
    }
    a[j] := x;
    ShiftedIsInsert(x, s, j, a[..i + 1]);
  }

  /** The array after the shifting loop, read back as a sequence, is the insertion. */
  lemma ShiftedIsInsert(x: Book, s: seq<Book>, j: nat, u: seq<Book>)
    requires SortedBySourcesDesc(s) && j <= |s| && |u| == |s| + 1
    requires forall t :: 0 <= t < j ==> u[t] == s[t]
    requires u[j] == x
    requires forall t :: j < t < |u| ==> u[t] == s[t - 1]
    requires forall t :: j <= t < |s| ==> SourceCount(s[t]) < SourceCount(x)
    requires j > 0 ==> SourceCount(s[j - 1]) >= SourceCount(x)
    ensures u == Insert(x, s)
  {
    InsertionPointUnique(x, s, j);
    var r := Insert(x, s);
    forall t | 0 <= t < |u|
      ensures u[t] == r[t]
    {
      if t < j {
        assert r[t] == s[t];
      } else if t > j {
        assert r[t] == s[t - 1];
      }
    }
  }

  /** `window.sort((a, b) => count(b) - count(a))`, in place. */
  method SortBySourceCount(a: array<Book>)
    modifies a
    ensures a[..] == RankBySources(old(a[..]))
  {
    ghost var w := a[..];
    var i := 0;
    while i < a.Length
      invariant 0 <= i <= a.Length
      invariant a[..i] == RankBySources(w[..i])
      invariant a[i..] == w[i..]
    {
      assert a[i] == w[i] && a[i + 1..] == w[i + 1..];
      InsertLast(a, i);
      RankOneMore(w, i);
      i := i + 1;
    }
    assert a[..] == a[..a.Length] && w == w[..a.Length];
  }
}
