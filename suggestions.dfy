/** lib/supabase/suggestions.ts: `fetchSuggestions` looks a trimmed query up in titles,
    authors and topics, concatenates the hits (titles, then authors, then topics, skipping
    empty values), drops repeats of the same kind and lower-cased value, keeping the first,
    and keeps the first `limit` of what remains. The three lookups are requests to the
    store parameter; their concurrency is not modelled. */
module Suggestions {
  import opened Wrappers
  import opened JsString
  import opened JsArray
  import opened Store

  datatype Kind = Title | Author | Topic

  datatype Suggestion = Suggestion(kind: Kind, value: string)

  function KindName(k: Kind): string {
    match k
    case Title => "title"
    case Author => "author"
    case Topic => "topic"
  }

  /** The de-duplication key `${kind}:${value.toLowerCase()}`. */
  function Key(s: Suggestion): string {
    KindName(s.kind) + ":" + Lower(s.value)
  }

  /** Two suggestions share a key exactly when they have the same kind and the same
      lower-cased value: the kind names differ in their second letter and contain no colon,
      so the key cannot confuse a title with an author or a topic. */
  lemma KeyIdentifiesKindAndValue(a: Suggestion, b: Suggestion)
    ensures Key(a) == Key(b) <==> a.kind == b.kind && Lower(a.value) == Lower(b.value)
  {
    if Key(a) == Key(b) {
      assert Key(a)[1] == KindName(a.kind)[1] && Key(b)[1] == KindName(b.kind)[1];
      assert a.kind == b.kind;
      var n := |KindName(a.kind)| + 1;
      assert Key(a)[n..] == Lower(a.value) && Key(b)[n..] == Lower(b.value);
    }
  }

  /** A looked-up value that JavaScript treats as true: neither `null` nor empty. */
  predicate Truthy(v: Option<string>) {
    v.Some? && v.value != ""
  }

  /** The looked-up values a sequence of suggestions carries. */
  function ValuesOf(s: seq<Suggestion>): (r: seq<Option<string>>)
    ensures |r| == |s|
    ensures forall k :: 0 <= k < |s| ==> r[k] == Some(s[k].value)
  {
    seq(|s|, k requires 0 <= k < |s| => Some(s[k].value))
  }

  /** What one lookup contributes: every truthy value, in the order returned, tagged with
      the lookup's kind. */
  function Tagged(kind: Kind, values: seq<Option<string>>): (r: seq<Suggestion>)
    ensures forall k :: 0 <= k < |r| ==> r[k].kind == kind
    ensures ValuesOf(r) == Filter(values, Truthy)
    decreases |values|
  {
    if values == [] then []
    else
      var init, v := values[..|values| - 1], values[|values| - 1];
      var r' := Tagged(kind, init);
      var r := if Truthy(v) then r' + [Suggestion(kind, v.value)] else r';
      assert Truthy(v) ==> ValuesOf(r) == ValuesOf(r') + [v];
      r
  }

  /** Where a lookup's hits stand in the `out` array: titles, then authors, then topics. */
  function LookupOrder(k: Kind): int {
    match k
    case Title => 0
    case Author => 1
    case Topic => 2
  }

  /** The `out` array: title hits, then author hits, then topic hits. */
  function Merged(titles: seq<Option<string>>, authors: seq<Option<string>>, topics: seq<Option<string>>)
    : (r: seq<Suggestion>)
    ensures ValuesOf(r) == Filter(titles, Truthy) + Filter(authors, Truthy) + Filter(topics, Truthy)
    ensures forall i, j :: 0 <= i < j < |r| ==> LookupOrder(r[i].kind) <= LookupOrder(r[j].kind)
    ensures forall k :: 0 <= k < |r| ==>
      && (r[k].kind == Title <==> k < |Filter(titles, Truthy)|)
      && (r[k].kind == Topic <==> |Filter(titles, Truthy)| + |Filter(authors, Truthy)| <= k)
  {
    var t, a, p := Tagged(Title, titles), Tagged(Author, authors), Tagged(Topic, topics);
    ValuesOfAppend(t, a);
    ValuesOfAppend(t + a, p);
    KindsInOrder(t, a, p);
    assert |t| == |ValuesOf(t)| && |a| == |ValuesOf(a)|;
    KindsByPosition(t, a, p);
    t + a + p
  }

  /** Each hit of the merge carries the kind of the lookup whose stretch it falls in. */
  lemma KindsByPosition(t: seq<Suggestion>, a: seq<Suggestion>, p: seq<Suggestion>)
    requires forall k :: 0 <= k < |t| ==> t[k].kind == Title
    requires forall k :: 0 <= k < |a| ==> a[k].kind == Author
    requires forall k :: 0 <= k < |p| ==> p[k].kind == Topic
    ensures var r := t + a + p;
      forall k :: 0 <= k < |r| ==>
        && (r[k].kind == Title <==> k < |t|)
        && (r[k].kind == Topic <==> |t| + |a| <= k)
  {
    var r := t + a + p;
    forall k | 0 <= k < |r|
      ensures (r[k].kind == Title <==> k < |t|) && (r[k].kind == Topic <==> |t| + |a| <= k)
    {
      if k < |t| {
        assert r[k] == t[k];
      } else if k < |t| + |a| {
        assert r[k] == a[k - |t|];
      } else {
        assert r[k] == p[k - |t| - |a|];
      }
    }
  }

  /** The values of two runs of suggestions are the values of each, in turn. */
  lemma ValuesOfAppend(s: seq<Suggestion>, u: seq<Suggestion>)
    ensures ValuesOf(s + u) == ValuesOf(s) + ValuesOf(u)
  {
    assert forall k :: 0 <= k < |u| ==> (s + u)[|s| + k] == u[k];
  }

  /** Title hits, then author hits, then topic hits are in lookup order. */
  lemma KindsInOrder(t: seq<Suggestion>, a: seq<Suggestion>, p: seq<Suggestion>)
    requires forall k :: 0 <= k < |t| ==> t[k].kind == Title
    requires forall k :: 0 <= k < |a| ==> a[k].kind == Author
    requires forall k :: 0 <= k < |p| ==> p[k].kind == Topic
    ensures var r := t + a + p;
      forall i, j :: 0 <= i < j < |r| ==> LookupOrder(r[i].kind) <= LookupOrder(r[j].kind)
  {
    var r := t + a + p;
    forall i, j | 0 <= i < j < |r|
      ensures LookupOrder(r[i].kind) <= LookupOrder(r[j].kind)
    {
      if j < |t| {
        assert r[i] == t[i] && r[j] == t[j];
      } else if j < |t| + |a| {
        assert r[j] == a[j - |t|];
      } else {
        assert r[i].kind == Title || r[i].kind == Author || r[i].kind == Topic;
        assert r[j] == p[j - |t| - |a|];
      }
    }
  }

  /** The three lookups of a non-blank trimmed query: a substring match on the kind's
      column, capped at `limit` rows, topics from the topic join table and the rest from
      the books table, unordered and without a count. */
  function Lookup(kind: Kind, q: string, limit: int): (r: Request)
    ensures r.table == "book_topics" <==> kind == Topic
    ensures r.table == "books" <==> kind != Topic
    ensures r.predicates == [Contains(KindName(kind), q)]
    ensures r.order == None && r.window == Limit(limit) && !r.exactCount
  {
    var table := if kind == Topic then "book_topics" else "books";
    Request(table, [Contains(KindName(kind), q)], None, Limit(limit), false)
  }

  /** What the source does once the three lookups have answered: the first error, in the
      order titles, authors, topics, is thrown and nothing else is returned; otherwise the
      merged hits are de-duplicated by key and cut with `slice(0, limit)`. */
  function Outcome(titles: Response<Option<string>>, authors: Response<Option<string>>,
                   topics: Response<Option<string>>, limit: int): (r: Result<seq<Suggestion>, StoreError>)
    ensures r.Failure? <==> titles.error.Some? || authors.error.Some? || topics.error.Some?
    ensures titles.error.Some? ==> r == Failure(titles.error.value)
    ensures titles.error.None? && authors.error.Some? ==> r == Failure(authors.error.value)
    ensures titles.error.None? && authors.error.None? && topics.error.Some? ==>
      r == Failure(topics.error.value)
    ensures r.Success? ==>
      r.value == Take(Dedup(Merged(titles.data.GetOr([]), authors.data.GetOr([]), topics.data.GetOr([])), Key), limit)
  {
    if titles.error.Some? then Failure(titles.error.value)
    else if authors.error.Some? then Failure(authors.error.value)
    else if topics.error.Some? then Failure(topics.error.value)
    else
      var merged := Merged(titles.data.GetOr([]), authors.data.GetOr([]), topics.data.GetOr([]));
      Success(Take(Dedup(merged, Key), limit))
  }

  /** One of the loops pushing `{ kind, value }` for every truthy value of a lookup. */
  method AppendHits(out: seq<Suggestion>, kind: Kind, values: seq<Option<string>>)
    returns (out': seq<Suggestion>)
    ensures out' == out + Tagged(kind, values)
  {
    out' := out;
    for i := 0 to |values|
      invariant out' == out + Tagged(kind, values[..i])
    {
      if Truthy(values[i]) {
        out' := out' + [Suggestion(kind, values[i].value)];
      }
      assert values[..i + 1][..i] == values[..i];
    }
    assert values[..|values|] == values;
  }

  /** The `filter` against the growing `seen` set of keys. */
  method KeepFirstByKey(out: seq<Suggestion>) returns (unique: seq<Suggestion>)
    ensures unique == Dedup(out, Key)
  {
    var seen: set<string> := {};
    unique := [];
    for i := 0 to |out|
      invariant unique == Dedup(out[..i], Key)
      invariant seen == KeysOf(out[..i], Key)
    {
      var key := Key(out[i]);
      DedupStep(out, i, Key);
      if key !in seen {
        seen := seen + {key};
        unique := unique + [out[i]];
      }
    }
    assert out[..|out|] == out;
  }

  /** `fetchSuggestions`: a blank query yields no suggestions whatever the store holds (no
      lookup is made); otherwise the outcome of the three lookups of the trimmed query. */
  method FetchSuggestions(query: string, limit: int, store: Request -> Response<Option<string>>)
    returns (r: Result<seq<Suggestion>, StoreError>)
    ensures IsBlank(query) ==> r == Success([])
    ensures !IsBlank(query) ==>
      var q := Trim(query);
      r == Outcome(store(Lookup(Title, q, limit)), store(Lookup(Author, q, limit)),
                   store(Lookup(Topic, q, limit)), limit)
  {
    var q := Trim(query);
    if q == "" {
      return Success([]);
    }
    var titlesRes := store(Lookup(Title, q, limit));
    var authorsRes := store(Lookup(Author, q, limit));
    var topicsRes := store(Lookup(Topic, q, limit));
    if titlesRes.error.Some? {
      return Failure(titlesRes.error.value);
    }
    if authorsRes.error.Some? {
      return Failure(authorsRes.error.value);
    }
    if topicsRes.error.Some? {
      return Failure(topicsRes.error.value);
    }
    ghost var t := Tagged(Title, titlesRes.data.GetOr([]));
    ghost var a := Tagged(Author, authorsRes.data.GetOr([]));
    ghost var p := Tagged(Topic, topicsRes.data.GetOr([]));
    var out: seq<Suggestion> := [];
    out := AppendHits(out, Title, titlesRes.data.GetOr([]));
    assert out == t;
    out := AppendHits(out, Author, authorsRes.data.GetOr([]));
    assert out == t + a;
    out := AppendHits(out, Topic, topicsRes.data.GetOr([]));
    assert out == t + a + p;
    var unique := KeepFirstByKey(out);
    r := Success(Take(unique, limit));
    assert r == Outcome(titlesRes, authorsRes, topicsRes, limit);
  }

  /** What the suggestions promise when no lookup fails: they keep the merged order, never
      repeat a kind with a lower-cased value, and number at most `limit`. */
  lemma SuggestionsProperties(titles: seq<Option<string>>, authors: seq<Option<string>>,
                              topics: seq<Option<string>>, limit: int)
    ensures var merged := Merged(titles, authors, topics);
      var r := Take(Dedup(merged, Key), limit);
      && IsSubsequence(r, merged)
      && (forall i, j :: 0 <= i < j < |r| ==>
            !(r[i].kind == r[j].kind && Lower(r[i].value) == Lower(r[j].value)))
      && (limit >= 0 ==> |r| <= limit)
  {
    var merged := Merged(titles, authors, topics);
    var d := Dedup(merged, Key);
    var r := Take(d, limit);
    PrefixIsSubsequence(d, |r|);
    DedupIsSubsequence(merged, Key);
    SubsequenceTransitive(r, d, merged);
    forall i, j | 0 <= i < j < |r|
      ensures !(r[i].kind == r[j].kind && Lower(r[i].value) == Lower(r[j].value))
    {
      assert r[i] == d[i] && r[j] == d[j];
      KeyIdentifiesKindAndValue(r[i], r[j]);
    }
  }

  /** The suggestions come in the order in which their keys first appear among the merged
      hits: a suggestion is listed only after every key seen before its own key first
      appears. */
  lemma SuggestionsInFirstSeenOrder(merged: seq<Suggestion>, limit: int)
    ensures var r := Take(Dedup(merged, Key), limit);
      forall j, m ::
        0 <= j < |r| && 0 <= m < |merged| && Key(merged[m]) == Key(r[j]) &&
        Key(merged[m]) !in KeysOf(merged[..m], Key) ==>
          KeysOf(merged[..m], Key) <= KeysOf(r[..j], Key)
  {
    var d := Dedup(merged, Key);
    var r := Take(d, limit);
    forall j, m | 0 <= j < |r| && 0 <= m < |merged| && Key(merged[m]) == Key(r[j])
                  && Key(merged[m]) !in KeysOf(merged[..m], Key)
      ensures KeysOf(merged[..m], Key) <= KeysOf(r[..j], Key)
    {
      assert r[j] == d[j] && r[..j] == d[..j];
      DedupFirstSeen(merged, Key, j, m);
    }
  }

  /** Before truncation, the first hit of every kind and lower-cased value is kept. */
  lemma FirstOccurrenceKept(merged: seq<Suggestion>, i: nat)
    requires i < |merged|
    requires forall j :: 0 <= j < i ==>
      !(merged[j].kind == merged[i].kind && Lower(merged[j].value) == Lower(merged[i].value))
    ensures merged[i] in Dedup(merged, Key)
  {
    if Key(merged[i]) in KeysOf(merged[..i], Key) {
      var j :| 0 <= j < i && Key(merged[..i][j]) == Key(merged[i]);
      KeyIdentifiesKindAndValue(merged[j], merged[i]);
    }
    DedupKeepsFirst(merged, Key, i);
  }

  /** The same text found as a title and as an author yields two suggestions. */
  lemma SameTextDifferentKinds(v: string)
    requires v != ""
    ensures Dedup(Merged([Some(v)], [Some(v)], []), Key) == [Suggestion(Title, v), Suggestion(Author, v)]
  {
    var a, b := Suggestion(Title, v), Suggestion(Author, v);
    assert [Some(v)][..0] == [];
    assert Tagged(Title, [Some(v)]) == [a];
    assert Tagged(Author, [Some(v)]) == [b];
    assert Tagged(Topic, []) == [];
    var m := [a, b];
    assert Merged([Some(v)], [Some(v)], []) == m;
    KeyIdentifiesKindAndValue(a, b);
    assert m[..1] == [a] && [a][..0] == [];
    assert KeysOf([a][..0], Key) == {};
    assert Dedup([a], Key) == [a];
    assert KeysOf([a], Key) == {Key(a)};
  }
}
