/** components/FilterSidebar.tsx: `toggle` adds a value to a selection list or removes it.
    The rest of the sidebar (state hooks, the debounced topic lookup) is not modelled. */
module FilterSidebar {
  import opened JsArray

  /** The predicate `x => x !== val`. */
  function NotEqualTo(val: string): string -> bool {
    x => x != val
  }

  /** `arr.filter((x) => x !== val)`: every other value keeps its place, `val` is gone. */
  function Without(arr: seq<string>, val: string): (r: seq<string>)
    ensures forall x :: x in r <==> x in arr && x != val
    ensures IsSubsequence(r, arr)
  {
    var r := Filter(arr, NotEqualTo(val));
    assert forall x :: x in r <==> x in arr && x != val by {
      forall x ensures x in r <==> x in arr && x != val {
        FilterMembers(arr, NotEqualTo(val), x);
      }
    }
    FilterIsSubsequence(arr, NotEqualTo(val));
    r
  }

  /** Removing a value shortens the list by exactly its number of occurrences. */
  lemma {:induction false} WithoutCount(arr: seq<string>, val: string)
    ensures |Without(arr, val)| == |arr| - multiset(arr)[val]
    decreases |arr|
  {
    if arr != [] {
      var init, x := arr[..|arr| - 1], arr[|arr| - 1];
      WithoutCount(init, val);
      assert arr == init + [x];
      assert multiset(arr) == multiset(init) + multiset{x};
    }
  }

  /** `toggle`: a selected value is removed (every copy of it), an unselected one is
      appended; either way the value's membership flips and no other value's changes. */
  function Toggle(arr: seq<string>, val: string): (r: seq<string>)
    ensures val in r <==> val !in arr
    ensures forall x :: x != val ==> (x in r <==> x in arr)
    ensures val !in arr ==> r == arr + [val]
    ensures val in arr ==> IsSubsequence(r, arr) && |r| == |arr| - multiset(arr)[val]
  {
    if val in arr then
      WithoutCount(arr, val);
      Without(arr, val)
    else
      arr + [val]
  }

  /** Toggling an unselected value twice restores the list; toggling a selected one twice
      leaves it selected once, at the end. */
  lemma ToggleTwice(arr: seq<string>, val: string)
    ensures val !in arr ==> Toggle(Toggle(arr, val), val) == arr
    ensures val in arr ==> Toggle(Toggle(arr, val), val) == Without(arr, val) + [val]
  {
    if val !in arr {
      FilterAppend(arr, [val], NotEqualTo(val));
      FilterAll(arr, NotEqualTo(val));
      assert Filter([val], NotEqualTo(val)) == [];
    }
  }
}
