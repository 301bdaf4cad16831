/** lib/supabase/topics.ts: `fetchTopicsSuggestions` asks the store for topics in ascending
    order, at most `limit` rows, filtered by the trimmed query when it is non-empty; then it
    drops empty topics and repeats and keeps the first `limit`. */
module Topics {
  import opened Wrappers
  import opened JsString
  import opened JsArray
  import opened Store

  /** The request for a query: a substring constraint on `topic` is added exactly when the
      trimmed query is non-empty, and then it carries the trimmed query. */
  function TopicsRequest(query: string, limit: int): (req: Request)
    ensures req.table == "book_topics" && req.order == Some(Order("topic", true))
    ensures req.window == Limit(limit) && !req.exactCount
    ensures |req.predicates| <= 1
    ensures req.predicates != [] <==> !IsBlank(query)
    ensures forall p :: p in req.predicates ==> p == Contains("topic", Trim(query))
  {
    var q := Trim(query);
    var req := Request("book_topics", [], Some(Order("topic", true)), Limit(limit), false);
    if q != "" then req.Where(Contains("topic", q)) else req
  }

  predicate NonEmpty(s: string) {
    s != ""
  }

  /** The key under which `new Set` compares topics: the topic itself. */
  function Id(s: string): string {
    s
  }

  /** `Array.from(new Set(topics.filter(Boolean))).slice(0, limit)`: no empty topic and
      no topic twice. */
  function CleanTopics(topics: seq<string>, limit: int): (r: seq<string>)
    ensures forall k :: 0 <= k < |r| ==> r[k] != ""
    ensures forall i, j :: 0 <= i < j < |r| ==> r[i] != r[j]
  {
    var f := Filter(topics, NonEmpty);
    var d := Dedup(f, Id);
    var r := Take(d, limit);
    assert forall k :: 0 <= k < |r| ==> r[k] != "" by {
      DedupIsSubsequence(f, Id);
      SubsequenceMembers(d, f);
      forall k | 0 <= k < |r| ensures r[k] != "" {
        assert r[k] == d[k] && d[k] in f;
        var m :| 0 <= m < |f| && f[m] == d[k];
      }
    }
    assert forall i, j :: 0 <= i < j < |r| ==> r[i] != r[j] by {
      forall i, j | 0 <= i < j < |r| ensures r[i] != r[j] {
        assert r[i] == d[i] && r[j] == d[j] && Id(d[i]) != Id(d[j]);
      }
    }
    r
  }

  /** `fetchTopicsSuggestions`: a store error is thrown; otherwise the cleaned topics of the
      rows returned (a null data array reads as no rows). */
  function FetchTopicsSuggestions(query: string, limit: int, store: Request -> Response<string>)
    : (r: Result<seq<string>, StoreError>)
    ensures var resp := store(TopicsRequest(query, limit));
      && (r.Failure? <==> resp.error.Some?)
      && (r.Failure? ==> r.error == resp.error.value)
      && (r.Success? ==> r.value == CleanTopics(resp.data.GetOr([]), limit))
  {
    match Rows(store(TopicsRequest(query, limit)))
    case Failure(e) => Failure(e)
    case Success(rows) => Success(CleanTopics(rows, limit))
  }

  /** The cleaned topics are non-empty, distinct, in the order the store returned them, at
      most `limit` of them, and, when `limit` is no smaller than the number of rows, every
      non-empty topic returned appears. Each topic is kept only after every non-empty topic
      seen before its first appearance, and there are as many as `limit` allows of the
      distinct non-empty topics: the first ones in order of first appearance. */
  lemma CleanTopicsProperties(topics: seq<string>, limit: int)
    ensures var r := CleanTopics(topics, limit);
      && (forall k :: 0 <= k < |r| ==> r[k] != "")
      && (forall i, j :: 0 <= i < j < |r| ==> r[i] != r[j])
      && IsSubsequence(r, topics)
      && (limit >= 0 ==> |r| <= limit)
      && (limit >= |topics| ==> forall t :: t in topics && t != "" ==> t in r)
      && (forall j, m :: 0 <= j < |r| && 0 <= m < |topics| && topics[m] == r[j] && r[j] !in topics[..m] ==>
            forall t :: t in topics[..m] && t != "" ==> t in r[..j])
      && (limit >= 0 ==>
            var n := |set t | t in topics && t != ""|;
            |r| == if limit < n then limit else n)
  {
    var f := Filter(topics, NonEmpty);
    var d := Dedup(f, Id);
    var r := Take(d, limit);
    PrefixIsSubsequence(d, |r|);
    DedupIsSubsequence(f, Id);
    FilterIsSubsequence(topics, NonEmpty);
    SubsequenceTransitive(d, f, topics);
    SubsequenceTransitive(r, d, topics);
    SubsequenceMembers(r, d);
    forall k | 0 <= k < |r| ensures r[k] != "" {
      assert r[k] in d;
      SubsequenceMembers(d, f);
      FilterMembers(topics, NonEmpty, r[k]);
    }
    forall i, j | 0 <= i < j < |r| ensures r[i] != r[j] {
      assert r[i] == d[i] && r[j] == d[j] && Id(d[i]) != Id(d[j]);
    }
    if limit >= |topics| {
      forall t | t in topics && t != "" ensures t in r {
        FilterMembers(topics, NonEmpty, t);
        var k :| 0 <= k < |f| && f[k] == t;
        assert Id(t) in KeysOf(f, Id);
        var m :| 0 <= m < |d| && Id(d[m]) == Id(t);
        assert r == d;
      }
    }
    forall j, m, t | 0 <= j < |r| && 0 <= m < |topics| && topics[m] == r[j] && r[j] !in topics[..m]
                     && t in topics[..m] && t != ""
      ensures t in r[..j]
    {
      KeptAfterEarlier(topics, limit, j, m, t);
    }
    CleanTopicsCount(topics, limit);
  }

  /** A topic seen before the first appearance of a kept topic is kept before it. */
  lemma KeptAfterEarlier(topics: seq<string>, limit: int, j: nat, m: nat, t: string)
    requires j < |CleanTopics(topics, limit)| && m < |topics|
    requires topics[m] == CleanTopics(topics, limit)[j] && topics[m] !in topics[..m]
    requires t in topics[..m] && t != ""
    ensures t in CleanTopics(topics, limit)[..j]
  {
    var f := Filter(topics, NonEmpty);
    var d := Dedup(f, Id);
    var r := Take(d, limit);
    assert r == CleanTopics(topics, limit);
    var fm := Filter(topics[..m], NonEmpty);
    FilterStep(topics, NonEmpty, m);
    FilterPrefix(topics, NonEmpty, m + 1);
    var n := |fm|;
    assert f[..n + 1] == fm + [topics[m]];
    assert fm == f[..n] && f[n] == topics[m];
    FilterMembers(topics[..m], NonEmpty, t);
    var k :| 0 <= k < n && fm[k] == t;
    assert t in KeysOf(f[..n], Id) by { assert Id(f[..n][k]) == t; }
    FilterMembers(topics[..m], NonEmpty, topics[m]);
    assert topics[m] !in KeysOf(f[..n], Id);
    assert r[j] == d[j];
    DedupFirstSeen(f, Id, j, n);
    var i :| 0 <= i < j && Id(d[..j][i]) == t;
    assert r[..j][i] == t;
  }

  /** As many topics as `limit` allows of the distinct non-empty ones. */
  lemma CleanTopicsCount(topics: seq<string>, limit: int)
    ensures limit >= 0 ==>
      var n := |set t | t in topics && t != ""|;
      |CleanTopics(topics, limit)| == if limit < n then limit else n
  {
    var f := Filter(topics, NonEmpty);
    var d := Dedup(f, Id);
    DistinctKeysCount(d, Id);
    forall t ensures t in KeysOf(f, Id) <==> t in topics && t != "" {
      FilterMembers(topics, NonEmpty, t);
      if t in f {
        var k :| 0 <= k < |f| && f[k] == t;
        assert Id(f[k]) == t;
      }
    }
    assert KeysOf(f, Id) == set t | t in topics && t != "";
  }
}
