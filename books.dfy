/** lib/supabase/books.ts: how each fetch shapes its store request and how it turns the
    store's answer into books. The store is a parameter (`store`), a function from request
    to response. */
module Books {
  import opened Wrappers
  import opened JsString
  import opened JsArray
  import opened Types
  import opened Store
  import opened Ranking

  const PageSizeDefault := 50
  /** The candidate window `fetchPopularBooks` ranks client-side. */
  const PopularWindowSize := 200
  /** The columns the free-text query is matched against, any one sufficing. */
  const TextColumns := ["title", "author", "isbn"]
  const LabelColumn := "book_labels.label"
  const TopicColumn := "book_topics.topic"
  const TypeColumn := "sources.type"
  const NewestFirst := Order("created_at", false)

  /** `buildSearchQuery`: no search for a missing, empty or blank query; otherwise the
      trimmed query, which is never empty. */
  function BuildSearchQuery(query: Option<string>): (r: Option<string>)
    ensures r.None? <==> query.None? || IsBlank(query.value)
    ensures r.Some? ==> r.value == Trim(query.value) && r.value != []
  {
    match query
    case None => None
    case Some(q) =>
      if q == "" then None
      else
        var t := Trim(q);
        if t == "" then None else Some(t)
  }

  /** The arguments of `fetchBooks`; `page` defaults to 1 and `pageSize` to 50. */
  datatype BooksQuery = BooksQuery(
    query: Option<string>,
    filters: Option<SearchFilters>,
    page: Option<int>,
    pageSize: Option<int>)
  {
    function Page(): int { page.GetOr(1) }
    function PageSize(): int { pageSize.GetOr(PageSizeDefault) }
  }

  /** The rows of page `page`: zero-based and inclusive, exactly `pageSize` slots, starting
      after the `page - 1` pages before it. */
  function PageWindow(page: int, pageSize: int): (w: Window)
    ensures w.Range?
    ensures w.from == (page - 1) * pageSize
    ensures w.to - w.from + 1 == pageSize
  {
    var from := (page - 1) * pageSize;
    Range(from, from + pageSize - 1)
  }

  /** Consecutive pages neither overlap nor leave a gap. */
  lemma PagesTile(page: int, pageSize: int)
    ensures PageWindow(page + 1, pageSize).from == PageWindow(page, pageSize).to + 1
  {
    assert page * pageSize == (page - 1) * pageSize + pageSize;
  }

  function TextConstraint(query: Option<string>): seq<Predicate> {
    match BuildSearchQuery(query)
    case Some(q) => [AnyContains(TextColumns, q)]
    case None => []
  }

  /** `filters.author && filters.author.trim()` guards an `ilike` on the trimmed author. */
  function AuthorConstraint(author: Option<string>): seq<Predicate> {
    match author
    case Some(a) => if Trim(a) != "" then [Contains("author", Trim(a))] else []
    case None => []
  }

  /** `values && values.length > 0` guards an `in` constraint. */
  function MembershipConstraint(column: string, values: Option<seq<string>>): seq<Predicate> {
    match values
    case Some(vs) => if |vs| > 0 then [In(column, vs)] else []
    case None => []
  }

  /** Optional chaining on the filters: `filters?.author`, `filters?.labels`, ... */
  function AuthorOf(filters: Option<SearchFilters>): Option<string> {
    if filters.Some? then filters.value.author else None
  }
  function LabelsOf(filters: Option<SearchFilters>): Option<seq<string>> {
    if filters.Some? then filters.value.labels else None
  }
  function TopicsOf(filters: Option<SearchFilters>): Option<seq<string>> {
    if filters.Some? then filters.value.topics else None
  }
  function TypesOf(filters: Option<SearchFilters>): Option<seq<string>> {
    if filters.Some? then filters.value.types else None
  }

  /** Every predicate of a `fetchBooks` request, in the order they are added. */
  function BooksConstraints(query: Option<string>, filters: Option<SearchFilters>): seq<Predicate> {
    TextConstraint(query)
    + AuthorConstraint(AuthorOf(filters))
    + MembershipConstraint(LabelColumn, LabelsOf(filters))
    + MembershipConstraint(TopicColumn, TopicsOf(filters))
    + MembershipConstraint(TypeColumn, TypesOf(filters))
  }

  lemma ColumnsDistinct()
    ensures LabelColumn != TopicColumn && LabelColumn != TypeColumn && TopicColumn != TypeColumn
  {
    assert LabelColumn[5] != TopicColumn[5];
    assert LabelColumn[0] != TypeColumn[0];
    assert TopicColumn[0] != TypeColumn[0];
  }

  /** The request `fetchBooks` sends: books newest first, exactly one page of rows, with an
      exact count, under at most one predicate per kind of constraint. */
  function BooksRequest(args: BooksQuery): (r: Request)
    ensures r.table == "books" && r.exactCount && r.order == Some(NewestFirst)
    ensures r.window.Range? && r.window.from == (args.Page() - 1) * args.PageSize()
    ensures r.window.to - r.window.from + 1 == args.PageSize()
    ensures r.predicates == BooksConstraints(args.query, args.filters) && |r.predicates| <= 5
  {
    Request("books", BooksConstraints(args.query, args.filters), Some(NewestFirst),
            PageWindow(args.Page(), args.PageSize()), true)
  }

  /** The text predicate is present exactly when `buildSearchQuery` yields a search, and it
      matches that search against title, author and ISBN. */
  lemma TextSearchAddedIff(query: Option<string>, filters: Option<SearchFilters>, q: string)
    ensures AnyContains(TextColumns, q) in BooksConstraints(query, filters)
        <==> BuildSearchQuery(query) == Some(q)
  {
    var x := AnyContains(TextColumns, q);
    assert x !in AuthorConstraint(AuthorOf(filters));
    assert x !in MembershipConstraint(LabelColumn, LabelsOf(filters));
    assert x !in MembershipConstraint(TopicColumn, TopicsOf(filters));
    assert x !in MembershipConstraint(TypeColumn, TypesOf(filters));
  }

  /** The author predicate is present exactly when a non-blank author is given, and it uses
      the trimmed author. */
  lemma AuthorAddedIff(query: Option<string>, filters: Option<SearchFilters>, a: string)
    ensures Contains("author", a) in BooksConstraints(query, filters)
        <==> (&& filters.Some? && filters.value.author.Some?
              && Trim(filters.value.author.value) != "" && a == Trim(filters.value.author.value))
  {
    var x := Contains("author", a);
    assert x !in TextConstraint(query);
    assert x !in MembershipConstraint(LabelColumn, LabelsOf(filters));
    assert x !in MembershipConstraint(TopicColumn, TopicsOf(filters));
    assert x !in MembershipConstraint(TypeColumn, TypesOf(filters));
    assert x in BooksConstraints(query, filters) <==> x in AuthorConstraint(AuthorOf(filters));
  }

  /** A label, topic or source-type predicate is present exactly when that list is given
      and non-empty, and it carries the list unchanged. */
  lemma MembershipAddedIff(query: Option<string>, filters: Option<SearchFilters>, vs: seq<string>)
    ensures In(LabelColumn, vs) in BooksConstraints(query, filters)
        <==> filters.Some? && filters.value.labels == Some(vs) && |vs| > 0
    ensures In(TopicColumn, vs) in BooksConstraints(query, filters)
        <==> filters.Some? && filters.value.topics == Some(vs) && |vs| > 0
    ensures In(TypeColumn, vs) in BooksConstraints(query, filters)
        <==> filters.Some? && filters.value.types == Some(vs) && |vs| > 0
  {
    ColumnsDistinct();
    var text, author := TextConstraint(query), AuthorConstraint(AuthorOf(filters));
    var l, t, y := MembershipConstraint(LabelColumn, LabelsOf(filters)),
      MembershipConstraint(TopicColumn, TopicsOf(filters)), MembershipConstraint(TypeColumn, TypesOf(filters));
    var xl, xt, xy := In(LabelColumn, vs), In(TopicColumn, vs), In(TypeColumn, vs);
    assert xl !in text && xl !in author && xl !in t && xl !in y;
    assert xt !in text && xt !in author && xt !in l && xt !in y;
    assert xy !in text && xy !in author && xy !in l && xy !in t;
  }

  /** An empty list constrains nothing: the request is the one with the list left out. */
  lemma EmptyListIsAbsent(args: BooksQuery, f: SearchFilters)
    ensures BooksRequest(args.(filters := Some(f.(labels := Some([])))))
         == BooksRequest(args.(filters := Some(f.(labels := None))))
    ensures BooksRequest(args.(filters := Some(f.(topics := Some([])))))
         == BooksRequest(args.(filters := Some(f.(topics := None))))
    ensures BooksRequest(args.(filters := Some(f.(types := Some([])))))
         == BooksRequest(args.(filters := Some(f.(types := None))))
  {
  }

  /** Filters with no non-blank author and no non-empty list are no filters at all. */
  lemma VacuousFiltersAreAbsent(args: BooksQuery, f: SearchFilters)
    requires f.author.None? || IsBlank(f.author.value)
    requires f.labels.None? || f.labels == Some([])
    requires f.topics.None? || f.topics == Some([])
    requires f.types.None? || f.types == Some([])
    ensures BooksRequest(args.(filters := Some(f))) == BooksRequest(args.(filters := None))
  {
  }

  /** The request of `fetchBooks`, built as the source builds it: the base select, then one
      reassignment per guard that holds. */
  method BuildBooksRequest(args: BooksQuery) returns (req: Request)
    ensures req == BooksRequest(args)
  {
    var page, pageSize := args.Page(), args.PageSize();
    var from := (page - 1) * pageSize;
    var to := from + pageSize - 1;
    req := Request("books", [], Some(NewestFirst), Range(from, to), true);
    ghost var base := req;
    req := WhereSearch(req, args.query);
    assert req.predicates == TextConstraint(args.query);
    req := WhereAuthor(req, AuthorOf(args.filters));
    req := WhereIn(req, LabelColumn, LabelsOf(args.filters));
    req := WhereIn(req, TopicColumn, TopicsOf(args.filters));
    req := WhereIn(req, TypeColumn, TypesOf(args.filters));
    assert req.predicates == BooksConstraints(args.query, args.filters);
    assert req == base.(predicates := BooksConstraints(args.query, args.filters));
  }

  /** `if (search) select = select.or(...)` over title, author and ISBN. */
  method WhereSearch(req: Request, query: Option<string>) returns (req': Request)
    ensures req' == req.(predicates := req.predicates + TextConstraint(query))
  {
    req' := req;
    var search := BuildSearchQuery(query);
    if search.Some? {
      req' := req'.Where(AnyContains(TextColumns, search.value));
    } else {
      assert req.predicates + [] == req.predicates;
    }
  }

  /** `if (filters?.author && filters.author.trim()) select = select.ilike(...)`. */
  method WhereAuthor(req: Request, author: Option<string>) returns (req': Request)
    ensures req' == req.(predicates := req.predicates + AuthorConstraint(author))
  {
    req' := req;
    if author.Some? && author.value != "" && Trim(author.value) != "" {
      req' := req'.Where(Contains("author", Trim(author.value)));
    } else {
      assert req.predicates + [] == req.predicates;
    }
  }

  /** `if (values && values.length > 0) select = select.in(column, values)`. */
  method WhereIn(req: Request, column: string, values: Option<seq<string>>) returns (req': Request)
    ensures req' == req.(predicates := req.predicates + MembershipConstraint(column, values))
  {
    req' := req;
    if values.Some? && |values.value| > 0 {
      req' := req'.Where(In(column, values.value));
    } else {
      assert req.predicates + [] == req.predicates;
    }
  }

  /** Why `fetchBooks` throws: the store's error, rethrown, or the `TypeError` of calling
      `.map` on a `null` data array. */
  datatype FetchError = Rejected(cause: StoreError) | NullData

  /** `fetchBooks`: one request; the store's error is thrown; otherwise every row is
      normalised, `total` is the store's count (0 when absent) and page and page size are
      echoed. */
  method FetchBooks(args: BooksQuery, store: Request -> Response<BookJoined>)
    returns (r: Result<PaginatedResult<Book>, FetchError>)
    ensures var resp := store(BooksRequest(args));
      && (resp.error.Some? ==> r == Failure(Rejected(resp.error.value)))
      && (resp.error.None? && resp.data.None? ==> r == Failure(NullData))
      && (resp.error.None? && resp.data.Some? ==>
            && r.Success?
            && r.value.data == MapRows(resp.data.value)
            && r.value.total == resp.count.GetOr(0)
            && r.value.page == args.Page() && r.value.pageSize == args.PageSize())
  {
    var req := BuildBooksRequest(args);
    var resp := store(req);
    if resp.error.Some? {
      return Failure(Rejected(resp.error.value));
    }
    if resp.data.None? {
      return Failure(NullData);
    }
    var mapped := MapRows(resp.data.value);
    r := Success(PaginatedResult(mapped, resp.count.GetOr(0), args.Page(), args.PageSize()));
  }

  /** The request of `fetchNewBooks` and `fetchTopBooks`: newest first, rows 0 to
      `max(0, limit - 1)`, so the upper index is never negative; `limit` rows for a positive
      limit, one row otherwise. */
  function RecentRequest(limit: int): (req: Request)
    ensures req.window.Range? && req.window.from == 0 && req.window.to >= 0
    ensures limit >= 1 ==> req.window.to - req.window.from + 1 == limit
    ensures limit < 1 ==> req.window.to == 0
    ensures req.order == Some(NewestFirst) && req.predicates == []
    ensures req.table == "books" && !req.exactCount
  {
    Request("books", [], Some(NewestFirst), Range(0, if limit - 1 > 0 then limit - 1 else 0), false)
  }

  /** `fetchNewBooks` and `fetchTopBooks` (their bodies are the same): the store's error is
      thrown, otherwise the returned rows are normalised in order. */
  function FetchRecentBooks(limit: int, store: Request -> Response<BookJoined>)
    : (r: Result<seq<Book>, StoreError>)
    ensures var resp := store(RecentRequest(limit));
      && (r.Failure? <==> resp.error.Some?)
      && (r.Failure? ==> r.error == resp.error.value)
      && (r.Success? ==> r.value == MapRows(resp.data.GetOr([])))
  {
    match Rows(store(RecentRequest(limit)))
    case Failure(e) => Failure(e)
    case Success(rows) => Success(MapRows(rows))
  }

  /** The request of `fetchPopularBooks`: any 200 books, in no particular order. */
  function PopularRequest(): (r: Request)
    ensures r.table == "books" && r.predicates == [] && r.order == None && !r.exactCount
    ensures r.window == Limit(PopularWindowSize)
  {
    Request("books", [], None, Limit(PopularWindowSize), false)
  }

  /** `fetchPopularBooks`: the window is normalised, sorted in place by number of sources,
      most first (stably), and cut to `limit` with `slice(0, limit)`. */
  method FetchPopularBooks(limit: int, store: Request -> Response<BookJoined>)
    returns (r: Result<seq<Book>, StoreError>)
    ensures var resp := store(PopularRequest());
      && (resp.error.Some? ==> r == Failure(resp.error.value))
      && (resp.error.None? ==> r == Success(Take(RankBySources(MapRows(resp.data.GetOr([]))), limit)))
  {
    var resp := store(PopularRequest());
    if resp.error.Some? {
      return Failure(resp.error.value);
    }
    var mapped := MapRows(resp.data.GetOr([]));
    var a := new Book[|mapped|](k requires 0 <= k < |mapped| => mapped[k]);
    assert a[..] == mapped;
    SortBySourceCount(a);
    r := Success(Take(a[..], limit));
  }

  /** What the popular list promises about any window: sorted by number of sources, most
      first; `min(limit, |window|)` books for a non-negative limit; no omitted book has more
      sources than a returned one; and returned plus omitted books are the window. */
  lemma PopularTopDominates(window: seq<BookJoined>, limit: int)
    ensures var ranked := RankBySources(MapRows(window));
      var top := Take(ranked, limit);
      && SortedBySourcesDesc(top)
      && (limit >= 0 ==> |top| == if limit < |window| then limit else |window|)
      && (forall i, j :: 0 <= i < |top| <= j < |ranked| ==> SourceCount(top[i]) >= SourceCount(ranked[j]))
      && multiset(top) + multiset(ranked[|top|..]) == multiset(MapRows(window))
  {
    var ranked := RankBySources(MapRows(window));
    var top := Take(ranked, limit);
    SortedPrefix(ranked, |top|);
    forall i, j | 0 <= i < |top| <= j < |ranked| ensures SourceCount(top[i]) >= SourceCount(ranked[j]) {
      assert RanksAtOrAbove(ranked, i, j);
    }
    SplitJoin(ranked, |top|);
  }

  /** The request of `fetchRelatedByTopics` for a non-empty topic list. */
  function RelatedRequest(topics: seq<string>, limit: int): (r: Request)
    ensures r.table == "books" && r.predicates == [In(TopicColumn, topics)]
    ensures r.order == None && r.window == Limit(limit) && !r.exactCount
  {
    Request("books", [In(TopicColumn, topics)], None, Limit(limit), false)
  }

  /** `fetchRelatedByTopics`: a missing or empty topic list yields no books whatever the
      store holds (no request is made); otherwise one request constrained to those topics. */
  function FetchRelatedByTopics(topics: Option<seq<string>>, limit: int, store: Request -> Response<BookJoined>)
    : (r: Result<seq<Book>, StoreError>)
    ensures topics.None? || topics.value == [] ==> r == Success([])
    ensures topics.Some? && topics.value != [] ==>
      var resp := store(RelatedRequest(topics.value, limit));
      && (r.Failure? <==> resp.error.Some?)
      && (r.Failure? ==> r.error == resp.error.value)
      && (r.Success? ==> r.value == MapRows(resp.data.GetOr([])))
  {
    if topics.None? || |topics.value| == 0 then Success([])
    else
      match Rows(store(RelatedRequest(topics.value, limit)))
      case Failure(e) => Failure(e)
      case Success(rows) => Success(MapRows(rows))
  }
}
