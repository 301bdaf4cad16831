/** The array built-ins the core relies on: `filter`, `slice(0, end)`, and de-duplication
    through a `Set` (which remembers insertion order), together with the subsequence
    relation in which their results stand to their inputs. */
module JsArray {

  /** `a` can be obtained from `b` by deleting elements, without reordering the rest. */
  predicate IsSubsequence<T(==)>(a: seq<T>, b: seq<T>)
    decreases |b|
  {
    || a == []
    || (b != [] &&
        (|| (a[|a| - 1] == b[|b| - 1] && IsSubsequence(a[..|a| - 1], b[..|b| - 1]))
         || IsSubsequence(a, b[..|b| - 1])))
  }

  lemma {:induction false} SubsequenceMembers<T>(a: seq<T>, b: seq<T>)
    requires IsSubsequence(a, b)
    ensures |a| <= |b|
    ensures forall x :: x in a ==> x in b
    decreases |b|
  {
    if a != [] {
      var a', b' := a[..|a| - 1], b[..|b| - 1];
      assert b == b' + [b[|b| - 1]];
      if a[|a| - 1] == b[|b| - 1] && IsSubsequence(a', b') {
        SubsequenceMembers(a', b');
        assert a == a' + [a[|a| - 1]];
      } else {
        SubsequenceMembers(a, b');
      }
    }
  }

  lemma {:induction false} SubsequenceReflexive<T>(s: seq<T>)
    ensures IsSubsequence(s, s)
    decreases |s|
  {
    if s != [] {
      SubsequenceReflexive(s[..|s| - 1]);
    }
  }

  lemma SubsequenceExtend<T>(a: seq<T>, b: seq<T>, x: T)
    requires IsSubsequence(a, b)
    ensures IsSubsequence(a, b + [x])
  {
    assert (b + [x])[..|b|] == b;
  }

  lemma {:induction false} SubsequenceTransitive<T>(a: seq<T>, b: seq<T>, c: seq<T>)
    requires IsSubsequence(a, b) && IsSubsequence(b, c)
    ensures IsSubsequence(a, c)
    decreases |c|
  {
    if a == [] || b == [] {
      if b == [] && a != [] { assert false; }
    } else {
      var c' := c[..|c| - 1];
      if IsSubsequence(b, c') {
        SubsequenceTransitive(a, b, c');
      } else {
        var b' := b[..|b| - 1];
        if a[|a| - 1] == b[|b| - 1] && IsSubsequence(a[..|a| - 1], b') {
          SubsequenceTransitive(a[..|a| - 1], b', c');
        } else {
          SubsequenceTransitive(a, b', c');
        }
      }
    }
  }

  lemma {:induction false} PrefixIsSubsequence<T>(s: seq<T>, n: nat)
    requires n <= |s|
    ensures IsSubsequence(s[..n], s)
    decreases |s|
  {
    if n == |s| {
      assert s[..n] == s;
      SubsequenceReflexive(s);
    } else {
      var s' := s[..|s| - 1];
      PrefixIsSubsequence(s', n);
      assert s'[..n] == s[..n];
    }
  }

  lemma SplitJoin<T>(s: seq<T>, k: nat)
    requires k <= |s|
    ensures s[..k] + s[k..] == s
  {
  }

  /** `s.filter(p)`: the elements satisfying `p`, in their original order. */
  function Filter<T(==)>(s: seq<T>, p: T -> bool): (r: seq<T>)
    ensures |r| <= |s|
    ensures forall k :: 0 <= k < |r| ==> p(r[k])
    decreases |s|
  {
    if s == [] then []
    else Filter(s[..|s| - 1], p) + (if p(s[|s| - 1]) then [s[|s| - 1]] else [])
  }

  /** An element is kept exactly when it occurs in `s` and passes `p`. */
  lemma {:induction false} FilterMembers<T>(s: seq<T>, p: T -> bool, x: T)
    ensures x in Filter(s, p) <==> x in s && p(x)
    decreases |s|
  {
    if s != [] {
      var s' := s[..|s| - 1];
      FilterMembers(s', p, x);
      assert s == s' + [s[|s| - 1]];
    }
  }

  lemma {:induction false} FilterIsSubsequence<T>(s: seq<T>, p: T -> bool)
    ensures IsSubsequence(Filter(s, p), s)
    decreases |s|
  {
    if s != [] {
      var s' := s[..|s| - 1];
      FilterIsSubsequence(s', p);
      if p(s[|s| - 1]) {
        var r := Filter(s, p);
        assert r[..|r| - 1] == Filter(s', p);
      } else {
        assert Filter(s, p) == Filter(s', p);
        SubsequenceExtend(Filter(s', p), s', s[|s| - 1]);
        assert s' + [s[|s| - 1]] == s;
      }
    }
  }

  lemma {:induction false} FilterAppend<T>(a: seq<T>, b: seq<T>, p: T -> bool)
    ensures Filter(a + b, p) == Filter(a, p) + Filter(b, p)
    decreases |b|
  {
    if b != [] {
      var b' := b[..|b| - 1];
      FilterAppend(a, b', p);
      assert (a + b)[..|a + b| - 1] == a + b';
    } else {
      assert a + b == a;
    }
  }

  /** Filtering keeps everything when every element passes. */
  lemma {:induction false} FilterAll<T>(s: seq<T>, p: T -> bool)
    requires forall k :: 0 <= k < |s| ==> p(s[k])
    ensures Filter(s, p) == s
    decreases |s|
  {
    if s != [] {
      FilterAll(s[..|s| - 1], p);
    }
  }

  /** Filtering keeps nothing when no element passes. */
  lemma {:induction false} FilterNone<T>(s: seq<T>, p: T -> bool)
    requires forall k :: 0 <= k < |s| ==> !p(s[k])
    ensures Filter(s, p) == []
    decreases |s|
  {
    if s != [] {
      FilterNone(s[..|s| - 1], p);
    }
  }

  /** `s.slice(0, end)`: a prefix of `s`; a negative `end` counts back from the end. */
  function Take<T>(s: seq<T>, end: int): (r: seq<T>)
    ensures |r| <= |s| && r == s[..|r|]
    ensures end >= 0 ==> |r| == (if end < |s| then end else |s|)
    ensures end < 0 ==> |r| == (if |s| + end > 0 then |s| + end else 0)
  {
    if end >= 0 then (if end < |s| then s[..end] else s)
    else if |s| + end > 0 then s[..|s| + end]
    else []
  }

  /** The keys of the elements of `s`. */
  function KeysOf<T, K>(s: seq<T>, key: T -> K): set<K> {
    set k | 0 <= k < |s| :: key(s[k])
  }

  lemma KeysOfSnoc<T, K>(s: seq<T>, x: T, key: T -> K)
    ensures KeysOf(s + [x], key) == KeysOf(s, key) + {key(x)}
  {
    var l, r := KeysOf(s + [x], key), KeysOf(s, key) + {key(x)};
    forall y | y in l ensures y in r {
      var k :| 0 <= k < |s| + 1 && y == key((s + [x])[k]);
      if k < |s| { assert (s + [x])[k] == s[k]; }
    }
    forall y | y in r ensures y in l {
      if y == key(x) {
        assert (s + [x])[|s|] == x;
      } else {
        var k :| 0 <= k < |s| && y == key(s[k]);
        assert (s + [x])[k] == s[k];
      }
    }
  }

  /** No two elements of `s` share a key. */
  predicate DistinctKeys<T, K(==)>(s: seq<T>, key: T -> K) {
    forall i, j :: 0 <= i < j < |s| ==> key(s[i]) != key(s[j])
  }

  /** Keeps the first element of `s` for each key and drops later ones, as a `filter`
      against a growing `Set` of seen keys does (and, with the identity as key,
      `Array.from(new Set(s))`). The result has the same keys as `s`, each once. */
  function Dedup<T, K(==)>(s: seq<T>, key: T -> K): (r: seq<T>)
    ensures |r| <= |s|
    ensures KeysOf(r, key) == KeysOf(s, key)
    ensures DistinctKeys(r, key)
    decreases |s|
  {
    if s == [] then []
    else
      var init, x := s[..|s| - 1], s[|s| - 1];
      var r' := Dedup(init, key);
      KeysOfSnoc(init, x, key);
      assert s == init + [x];
      if key(x) in KeysOf(init, key) then r'
      else
        KeysOfSnoc(r', x, key);
        assert forall i :: 0 <= i < |r'| ==> key(r'[i]) in KeysOf(r', key);
        r' + [x]
  }

  /** One more element of `s`: kept exactly when its key is new. */
  lemma DedupStep<T, K>(s: seq<T>, i: nat, key: T -> K)
    requires i < |s|
    ensures KeysOf(s[..i + 1], key) == KeysOf(s[..i], key) + {key(s[i])}
    ensures Dedup(s[..i + 1], key)
         == if key(s[i]) in KeysOf(s[..i], key) then Dedup(s[..i], key) else Dedup(s[..i], key) + [s[i]]
  {
    assert s[..i + 1] == s[..i] + [s[i]];
    KeysOfSnoc(s[..i], s[i], key);
    assert s[..i + 1][..i] == s[..i];
  }

  lemma {:induction false} DedupIsSubsequence<T, K>(s: seq<T>, key: T -> K)
    ensures IsSubsequence(Dedup(s, key), s)
    decreases |s|
  {
    if s != [] {
      var init, x := s[..|s| - 1], s[|s| - 1];
      DedupIsSubsequence(init, key);
      var r := Dedup(s, key);
      if key(x) in KeysOf(init, key) {
        SubsequenceExtend(r, init, x);
        assert init + [x] == s;
      } else {
        assert r[..|r| - 1] == Dedup(init, key);
      }
    }
  }

  /** Every element that is the first of its key in `s` is kept. Together with
      `DistinctKeys`, the element kept for each key is the first one. */
  lemma {:induction false} DedupKeepsFirst<T, K>(s: seq<T>, key: T -> K, i: nat)
    requires i < |s| && key(s[i]) !in KeysOf(s[..i], key)
    ensures s[i] in Dedup(s, key)
    decreases |s|
  {
    var init, x := s[..|s| - 1], s[|s| - 1];
    if i < |s| - 1 {
      assert init[..i] == s[..i];
      DedupKeepsFirst(init, key, i);
    } else {
      assert init == s[..i];
    }
  }
  /** One more element of `s` passes `p` or not. */
  lemma FilterStep<T>(s: seq<T>, p: T -> bool, n: nat)
    requires n < |s|
    ensures Filter(s[..n + 1], p) == Filter(s[..n], p) + (if p(s[n]) then [s[n]] else [])
  {
    assert s[..n + 1][..n] == s[..n];
  }

  /** Filtering a prefix of `s` gives a prefix of the filtered `s`. */
  lemma {:induction false} FilterPrefix<T>(s: seq<T>, p: T -> bool, n: nat)
    requires n <= |s|
    ensures var f := Filter(s[..n], p); |f| <= |Filter(s, p)| && f == Filter(s, p)[..|f|]
    decreases |s| - n
  {
    if n < |s| {
      FilterStep(s, p, n);
      FilterPrefix(s, p, n + 1);
    } else {
      assert s[..n] == s;
    }
  }

  /** De-duplicating a prefix of `s` gives a prefix of the de-duplicated `s`: the kept
      elements come in the order in which their keys first appear. */
  lemma {:induction false} DedupPrefix<T, K>(s: seq<T>, key: T -> K, n: nat)
    requires n <= |s|
    ensures var d := Dedup(s[..n], key); |d| <= |Dedup(s, key)| && d == Dedup(s, key)[..|d|]
    decreases |s| - n
  {
    if n < |s| {
      var d, e, e' := Dedup(s, key), Dedup(s[..n], key), Dedup(s[..n + 1], key);
      DedupStep(s, n, key);
      assert |e| <= |e'| && e == e'[..|e|];
      DedupPrefix(s, key, n + 1);
      assert e' == d[..|e'|];
      assert d[..|e'|][..|e|] == d[..|e|];
    } else {
      assert s[..n] == s;
    }
  }

  /** If `m` is where the key of the kept element `d[j]` first appears in `s`, every key
      that appears before `m` is the key of a kept element before `d[j]`. */
  lemma DedupFirstSeen<T, K>(s: seq<T>, key: T -> K, j: nat, m: nat)
    requires j < |Dedup(s, key)| && m < |s|
    requires key(s[m]) == key(Dedup(s, key)[j]) && key(s[m]) !in KeysOf(s[..m], key)
    ensures KeysOf(s[..m], key) <= KeysOf(Dedup(s, key)[..j], key)
  {
    var d := Dedup(s, key);
    var e := Dedup(s[..m], key);
    DedupPrefix(s, key, m);
    assert |e| <= j;
    forall y | y in KeysOf(s[..m], key) ensures y in KeysOf(d[..j], key) {
      var k :| 0 <= k < |e| && y == key(e[k]);
      assert e[k] == d[..j][k];
    }
  }

  /** Distinct keys: as many keys as elements. */
  lemma {:induction false} DistinctKeysCount<T, K>(s: seq<T>, key: T -> K)
    requires DistinctKeys(s, key)
    ensures |KeysOf(s, key)| == |s|
    decreases |s|
  {
    if s != [] {
      var init, x := s[..|s| - 1], s[|s| - 1];
      assert s == init + [x];
      KeysOfSnoc(init, x, key);
      DistinctKeysCount(init, key);
      assert key(x) !in KeysOf(init, key);
    }
  }
}
