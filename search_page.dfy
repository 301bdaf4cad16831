/** app/search/page.tsx: the "Related by topic" list drops books already in the results
    and keeps at most eight; the "Page X of Y" count uses the pager's formula. Data loading,
    URL syncing and rendering are not modelled. */
module SearchPage {
  import opened Types
  import opened JsArray
  import Pagination

  const RelatedCap := 8

  /** `new Set(result.data.map((b) => b.id))`. */
  function IdsOf(books: seq<Book>): set<string> {
    set k | 0 <= k < |books| :: books[k].id
  }

  /** The predicate `(b) => !shownIds.has(b.id)`. */
  function NotShown(shownIds: set<string>): Book -> bool {
    (b: Book) => b.id !in shownIds
  }

  /** `related`: at most eight related books, none of them already shown, in the order
      the related lookup returned them: the first eight of those not shown, or all of them
      when there are fewer. */
  function Related(shown: seq<Book>, relatedRaw: seq<Book>): (r: seq<Book>)
    ensures var q := Filter(relatedRaw, NotShown(IdsOf(shown)));
      |r| == (if |q| < RelatedCap then |q| else RelatedCap) && r == q[..|r|]
    ensures |r| <= RelatedCap
    ensures forall k :: 0 <= k < |r| ==> r[k].id !in IdsOf(shown)
    ensures IsSubsequence(r, relatedRaw)
  {
    var f := Filter(relatedRaw, NotShown(IdsOf(shown)));
    var r := Take(f, RelatedCap);
    FilterIsSubsequence(relatedRaw, NotShown(IdsOf(shown)));
    PrefixIsSubsequence(f, |r|);
    SubsequenceTransitive(r, f, relatedRaw);
    r
  }

  /** Nothing related is lost but for the cap: every related book not already shown is
      listed when fewer than eight qualify, and with no overlap the list is the first eight
      related books. */
  lemma RelatedLosesOnlyShown(shown: seq<Book>, relatedRaw: seq<Book>)
    ensures |Filter(relatedRaw, NotShown(IdsOf(shown)))| <= RelatedCap ==>
      forall b :: b in relatedRaw && b.id !in IdsOf(shown) ==> b in Related(shown, relatedRaw)
    ensures (forall k :: 0 <= k < |relatedRaw| ==> relatedRaw[k].id !in IdsOf(shown)) ==>
      Related(shown, relatedRaw) == Take(relatedRaw, RelatedCap)
  {
    var p := NotShown(IdsOf(shown));
    forall b | b in relatedRaw && b.id !in IdsOf(shown) {
      FilterMembers(relatedRaw, p, b);
    }
    if forall k :: 0 <= k < |relatedRaw| ==> relatedRaw[k].id !in IdsOf(shown) {
      FilterAll(relatedRaw, p);
    }
  }

  /** The count in "Page X of Y": `Math.max(1, Math.ceil(result.total / result.pageSize))`. */
  function PageCount(total: int, pageSize: int): (r: int)
    requires pageSize > 0
    ensures r >= 1
  {
    var c := -((-total) / pageSize);
    if c >= 1 then c else 1
  }

  /** The label and the pager below it always agree on the number of pages. */
  lemma PageCountMatchesPager(total: int, pageSize: int)
    requires pageSize > 0
    ensures PageCount(total, pageSize) == Pagination.TotalPages(total, pageSize)
  {
  }
}
