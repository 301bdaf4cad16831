/** The remote store as the core sees it: a request is a table, a list of row predicates,
    an optional ordering, a row window and whether an exact count is wanted; the answer is
    the `{ data, error, count }` record. How the store evaluates a request is not modelled. */
module Store {
  import opened Wrappers

  datatype Order = Order(column: string, ascending: bool)

  /** `.range(from, to)` (inclusive, zero-based), `.limit(n)`, or no window. */
  datatype Window = Unbounded | Limit(count: int) | Range(from: int, to: int)

  /** `.or(...)` of case-insensitive substring matches, `.ilike(column, "%needle%")`,
      and `.in(column, values)`. */
  datatype Predicate =
    | AnyContains(columns: seq<string>, needle: string)
    | Contains(column: string, needle: string)
    | In(column: string, values: seq<string>)

  datatype Request = Request(
    table: string,
    predicates: seq<Predicate>,
    order: Option<Order>,
    window: Window,
    exactCount: bool)
  {
    /** The builder call that adds one more predicate. */
    function Where(p: Predicate): Request {
      this.(predicates := predicates + [p])
    }
  }

  datatype StoreError = StoreError(message: string)

  /** What awaiting a request yields. */
  datatype Response<T> = Response(data: Option<seq<T>>, error: Option<StoreError>, count: Option<int>)

  /** The common epilogue `if (error) throw error; ... (data ?? [])`: the error is rethrown
      unchanged, otherwise a missing data array reads as an empty one. */
  function Rows<T>(resp: Response<T>): (r: Result<seq<T>, StoreError>)
    ensures r.Failure? <==> resp.error.Some?
    ensures r.Failure? ==> r.error == resp.error.value
    ensures r.Success? ==> r.value == resp.data.GetOr([])
  {
    match resp.error
    case Some(e) => Failure(e)
    case None => Success(resp.data.GetOr([]))
  }
}
