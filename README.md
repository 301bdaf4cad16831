# BookTrace core, modelled in Dafny

BookTrace is a catalogue of books and of the places where each book can be read: free,
paid, open-source or verified sources. This project models the logic of its data layer and
of its search interface:

- the record types and the normaliser that turns a joined database row into a UI book
  (`types.dfy`);
- the book fetches (`books.dfy`). This covers how `fetchBooks` turns a query, filters and
  a page into one store request, and how it turns the answer into a page of books. It also
  covers the newest and top lists, the popular list and the related-by-topic list. The
  popular list is a stable client-side ranking by number of sources, done by an in-place
  sort (`ranking.dfy`);
- the search-box suggestions: title, author and topic hits merged, de-duplicated and
  capped (`suggestions.dfy`);
- the topic autocomplete (`topics.dfy`);
- the pager: page count, Prev/Next, the `go` guard, the five-button window and its
  ellipses (`pagination.dfy`);
- the filter sidebar's `toggle` (`filter_sidebar.dfy`);
- the source badge's text, colours and emoji (`source_badge.dfy`);
- the search page's "related" list and its "Page X of Y" count (`search_page.dfy`).

The database is never called. Each fetch receives a parameter `store`, a function from a
request to a response, and the model states what request is made and what is done with any
response. Requests are values (`store.dfy`): a table, constraints, an order, a row window
and whether an exact count is asked for. The JavaScript built-ins the code relies on are
modelled in `js_string.dfy` and `js_array.dfy`:

- `trim`, with ECMAScript's whitespace set;
- `toLowerCase` on ASCII letters;
- `filter`;
- `slice(0, n)`, including a negative `n`;
- a `Set`-based de-duplication that keeps first occurrences.

## Model

| member | source | states |
|---|---|---|
| Types.MapBookJoinedToBook | lib/types.ts:80-102 | every scalar field is copied under its UI name; labels, topics and sources are the embedded rows in order, a missing array reading as empty; a source is verified exactly when its stored flag is `true` |
| Types.MapRows | lib/supabase/books.ts:68 | every row is normalised, one book per row, in order |
| Types.NormaliserToleratesMissingData | lib/types.ts:88-100 | missing label and topic arrays give empty lists, no source row is dropped, and a `null` or `false` flag reads as unverified |
| Store.Rows | lib/supabase/books.ts:105-106 | a response with an error fails with that error; otherwise its rows, with a `null` data array read as no rows |
| JsString.Trim | lib/supabase/topics.ts:4 | the result is empty exactly for blank strings; otherwise it neither starts nor ends with whitespace |
| JsString.TrimKeepsMiddle | lib/supabase/topics.ts:4 | the trimmed string is a run of consecutive characters of the input with only whitespace before and after it |
| JsString.Lower | lib/supabase/suggestions.ts:29 | same length; every ASCII capital becomes its small letter and every other character is kept |
| JsArray.Take | lib/supabase/suggestions.ts:35 | `slice(0, end)` is a prefix of length `min(end, length)` for `end >= 0`, and `max(0, length + end)` otherwise |
| JsArray.Dedup | lib/supabase/suggestions.ts:27-33 | the kept elements have exactly the keys of the input, each key once |
| JsArray.DedupKeepsFirst | lib/supabase/suggestions.ts:27-33 | the first element with a given key is always kept |
| JsArray.DedupIsSubsequence | lib/supabase/suggestions.ts:27-33 | de-duplication keeps the input's order |
| JsArray.DedupPrefix | lib/supabase/suggestions.ts:27-33 | de-duplicating a prefix of the input gives a prefix of the result: elements are kept in the order in which their keys first appear |
| JsArray.DedupFirstSeen | lib/supabase/suggestions.ts:27-33 | every key that appears before the first appearance of a kept element's key belongs to a kept element before it |
| JsArray.FilterMembers | components/FilterSidebar.tsx:39 | an element survives `filter` exactly when it is in the input and satisfies the predicate |
| Ranking.RankBySources | lib/supabase/books.ts:138-139 | the ranking is sorted by source count, most first, and is a permutation of its input |
| Ranking.RankIsStable | lib/supabase/books.ts:139 | books with the same number of sources keep their relative order, as a stable sort keeps them |
| Ranking.InsertLast | lib/supabase/books.ts:139 | one insertion step in place: the element at `i` moves into the sorted prefix before it, and the rest of the array is untouched |
| Ranking.SortBySourceCount | lib/supabase/books.ts:139 | sorting the array in place leaves exactly the stable ranking of its old contents |
| Books.BuildSearchQuery | lib/supabase/books.ts:7-13 | no search for a missing or blank query; otherwise the trimmed query, which is never empty |
| Books.PageWindow | lib/supabase/books.ts:26-27 | page `p` covers exactly `pageSize` rows and starts after `p - 1` full pages |
| Books.PagesTile | lib/supabase/books.ts:26-27 | consecutive pages neither overlap nor leave a gap |
| Books.TextSearchAddedIff | lib/supabase/books.ts:41-46 | the title/author/isbn constraint is present exactly when the query is non-blank, and it carries the trimmed query |
| Books.AuthorAddedIff | lib/supabase/books.ts:48-50 | the author constraint is present exactly when the author filter is non-blank, and it carries the trimmed author |
| Books.MembershipAddedIff | lib/supabase/books.ts:52-63 | each of the label, topic and type constraints is present exactly when its list is given and non-empty, and it carries that list |
| Books.EmptyListIsAbsent | lib/supabase/books.ts:52-63 | an empty label, topic or type list yields the same request as no list |
| Books.VacuousFiltersAreAbsent | lib/supabase/books.ts:48-63 | filters that are all blank or empty yield the same request as no filters |
| Books.BooksRequest | lib/supabase/books.ts:29-63 | the books table, counted exactly, newest first, exactly one page of rows starting after the earlier pages, with at most one constraint per kind (five in all) |
| Books.BuildBooksRequest | lib/supabase/books.ts:15-63 | the request built step by step is the books table, counted exactly, newest first, windowed to the page, with the constraints above |
| Books.WhereSearch | lib/supabase/books.ts:41-46 | the title/author/ISBN constraint is appended exactly when `buildSearchQuery` yields a search, and nothing else changes |
| Books.WhereAuthor | lib/supabase/books.ts:48-50 | the author constraint is appended exactly when the author is non-blank, and nothing else changes |
| Books.WhereIn | lib/supabase/books.ts:52-63 | a membership constraint is appended exactly when its list is non-empty, and nothing else changes |
| Books.FetchBooks | lib/supabase/books.ts:65-74 | a store error is thrown; a `null` data array fails; otherwise the normalised rows, the count (0 when absent) and the page and page size asked for |
| Books.RecentRequest | lib/supabase/books.ts:109-120 | rows `0..max(0, limit - 1)` of the books table, newest first, unconstrained and uncounted: exactly `limit` rows for a positive limit, one row otherwise, never a negative index |
| Books.PopularRequest | lib/supabase/books.ts:127-135 | any 200 rows of the books table, unconstrained, unordered and uncounted |
| Books.FetchRecentBooks | lib/supabase/books.ts:93-107 | the store's error is thrown; otherwise the returned rows normalised in order |
| Books.FetchPopularBooks | lib/supabase/books.ts:125-141 | the error is thrown; otherwise the window of 200, normalised, ranked stably by sources and cut with `slice(0, limit)` |
| Books.PopularTopDominates | lib/supabase/books.ts:138-140 | the popular list is sorted, has `min(limit, window)` books, no omitted book has more sources than a listed one, and listed plus omitted books are the window |
| Books.RelatedRequest | lib/supabase/books.ts:172-181 | the books table under one membership constraint on `book_topics.topic` carrying the given list, at most `limit` rows, unordered and uncounted |
| Books.FetchRelatedByTopics | lib/supabase/books.ts:170-184 | a missing or empty topic list gives no books whatever the store holds; otherwise the error is thrown or the matching rows are normalised |
| Suggestions.KeyIdentifiesKindAndValue | lib/supabase/suggestions.ts:29 | two suggestions share a key exactly when they have the same kind and the same lower-cased value |
| Suggestions.Lookup | lib/supabase/suggestions.ts:12-16 | a substring match of the query on the kind's column, at most `limit` rows, topics from the topic table and titles and authors from the books table, unordered and uncounted |
| Suggestions.Tagged | lib/supabase/suggestions.ts:23-25 | a lookup contributes exactly its truthy values, in order, tagged with its kind |
| Suggestions.Merged | lib/supabase/suggestions.ts:22-25 | the merged hits carry exactly the truthy title values, then author values, then topic values, with every title before every author and every author before every topic; a hit is tagged `title` exactly when it lies in the stretch of truthy titles, and `topic` exactly when it lies past the titles and authors |
| Suggestions.Outcome | lib/supabase/suggestions.ts:18-35 | the result fails exactly when some lookup fails, with the first error in the order titles, authors, topics; otherwise it is the merged hits de-duplicated by key and cut to `limit` |
| Suggestions.AppendHits | lib/supabase/suggestions.ts:23-25 | each push loop appends the tagged truthy values of its lookup |
| Suggestions.KeepFirstByKey | lib/supabase/suggestions.ts:27-33 | the filter against the growing `seen` set keeps the first suggestion of each key |
| Suggestions.FetchSuggestions | lib/supabase/suggestions.ts:8-36 | a blank query gives no suggestions and makes no lookup; otherwise the outcome of the three lookups of the trimmed query |
| Suggestions.SuggestionsProperties | lib/supabase/suggestions.ts:22-35 | suggestions keep the merged order, never repeat a kind with a lower-cased value, and number at most `limit` |
| Suggestions.SuggestionsInFirstSeenOrder | lib/supabase/suggestions.ts:27-35 | a suggestion is listed only after every key seen among the merged hits before its own key first appears |
| Suggestions.KindsByPosition | lib/supabase/suggestions.ts:23-25 | after the three push loops, a hit's kind is that of the loop whose stretch of the array it lies in |
| Suggestions.FirstOccurrenceKept | lib/supabase/suggestions.ts:27-33 | before the cut, the first hit of every kind and lower-cased value is kept |
| Suggestions.SameTextDifferentKinds | lib/supabase/suggestions.ts:29 | the same text found as a title and as an author gives two suggestions |
| Topics.TopicsRequest | lib/supabase/topics.ts:4-13 | topics in ascending order, at most `limit` rows; the substring constraint is present exactly when the trimmed query is non-empty, and it carries the trimmed query |
| Topics.FetchTopicsSuggestions | lib/supabase/topics.ts:15-19 | the store's error is thrown; otherwise the cleaned topics of the returned rows |
| Topics.CleanTopics | lib/supabase/topics.ts:17-19 | the cleaned topics are non-empty and pairwise distinct |
| Topics.CleanTopicsProperties | lib/supabase/topics.ts:17-19 | topics are non-empty, distinct, in store order and at most `limit`; with a large enough limit no non-empty topic is lost; a topic is kept only after every non-empty topic seen before its first appearance; and there are `min(limit, number of distinct non-empty topics)` of them, so the result is the first ones in order of first appearance |
| Topics.KeptAfterEarlier | lib/supabase/topics.ts:19 | a non-empty topic seen before the first appearance of a kept topic is kept before it |
| Topics.CleanTopicsCount | lib/supabase/topics.ts:17-19 | for a non-negative limit, exactly `min(limit, number of distinct non-empty topics)` topics are kept |
| Pagination.TotalPages | components/Pagination.tsx:11 | there is always at least one page |
| Pagination.CeilDivBounds | components/Pagination.tsx:11 | `Math.ceil(total / pageSize)` is the least number of pages of `pageSize` that hold `total` |
| Pagination.TotalPagesHoldsTotal | components/Pagination.tsx:11 | a single page while the items fit on one; otherwise exactly as many pages as it takes to hold `total` items |
| Pagination.Go | components/Pagination.tsx:15-18 | `onPageChange` is called exactly for an existing page, with that page |
| Pagination.ShownPages | components/Pagination.tsx:20-28 | `min(totalPages, 5)` consecutive pages, each between 1 and `totalPages` |
| Pagination.ShownPagesProperties | components/Pagination.tsx:20-28 | the shown pages include the current page whenever it exists and centre on it where the ends allow; for pages 1 and 2 the row starts at page 1 and for the last two pages it ends at the last page; page 1 or the last page is shown exactly when the window starts or ends there |
| Pagination.PagesToShow | components/Pagination.tsx:20-28 | the start/end adjustment and the loop pushing pages give the shown pages |
| Pagination.Paginate | components/Pagination.tsx:11-59 | Prev is enabled exactly above page 1 and Next exactly below the last page; the leading ellipsis appears exactly when page 1 is hidden and the trailing one exactly when the last page is hidden |
| Pagination.ButtonsNavigate | components/Pagination.tsx:32-66 | on an existing page, enabled Prev/Next, every page button and the first/last buttons all pass the `go` guard to the page they name |
| FilterSidebar.Without | components/FilterSidebar.tsx:39 | exactly the other values remain, in their original order |
| FilterSidebar.WithoutCount | components/FilterSidebar.tsx:39 | removing a value shortens the list by its number of occurrences |
| FilterSidebar.Toggle | components/FilterSidebar.tsx:38-40 | the value's membership flips and no other value's changes; an absent value is appended, a present one is removed with every copy and the rest keep their order |
| FilterSidebar.ToggleTwice | components/FilterSidebar.tsx:38-40 | toggling an unselected value twice restores the list; a selected one ends up selected once, at the end |
| SourceBadge.RenderBadge | components/SourceBadge.tsx:6-21 | the text is the label when there is one, else "Verified" or "Source"; the emoji is missing exactly when the style is neutral, i.e. for an unknown label on an unverified source; the check-mark goes with the emerald style |
| SourceBadge.KnownLabelIgnoresVerified | components/SourceBadge.tsx:8-21 | a known label fixes colour and emoji whatever the verified flag, and "Free Access" looks like "Free" |
| SearchPage.Related | app/search/page.tsx:50-53 | the first eight related books not already in the results, or all of them when fewer than eight qualify, in the order returned |
| SearchPage.RelatedLosesOnlyShown | app/search/page.tsx:50-53 | with fewer than eight qualifying, every related book not already shown is listed; with no overlap the list is the first eight |
| SearchPage.PageCount | app/search/page.tsx:81 | the page count is at least one |
| SearchPage.PageCountMatchesPager | app/search/page.tsx:81 | "Page X of Y" and the pager always agree on the number of pages |

## Left out

- The database itself. The store is a parameter. How it evaluates `ilike`, `or` and `in` on embedded tables is not modelled. The `%` and `_` in a query are not escaped before it reaches `ilike`. The select column lists are not modelled either.
- `fetchTrendingBooks`: its score depends on the clock (`Date.now`) and on floating-point division.
- `fetchBookById` is not part of this model.
- `Promise.all` in the suggestions. The three lookups are modelled in sequence, and only their responses matter.
- The debounce timer and cancellation flags of the sidebar and search box, React state, effects, rendering and URL syncing.
- The header, footer, contribution form, book card, seed route and seed page are not part of this model.
- Books.TextSearchAddedIff: the search text goes unescaped into the comma-separated filter string of `or` (lib/supabase/books.ts:43-45). A query containing `,` or parentheses, such as "Gödel, Escher, Bach", is split by the store into other conditions. The model treats every query as one substring constraint on title, author and ISBN; `Books.TextConstraint` and `Books.BuildBooksRequest` share this simplification.
- Ranking.SortBySourceCount: the engine's sort algorithm is replaced by an insertion sort. A stable sort by one key has only one possible result, and `Ranking.RankIsStable` with `Ranking.RankBySources` pins that result down.
- JsString.Lower: only ASCII capitals are lowered; JavaScript's full Unicode case mapping is not modelled.
- Pagination.TotalPages: requires a positive page size and integer totals. With a page size of 0 JavaScript yields `Infinity` or `NaN`, and those are not modelled. Every caller passes 50.
- The `limit = 10` default of `fetchNewBooks`, `fetchTopBooks`, `fetchPopularBooks`, `fetchRelatedByTopics`, `fetchSuggestions` and `fetchTopicsSuggestions` is not modelled: every fetch of the model takes `limit` explicitly, so callers that rely on the default (the search bar and the filter sidebar) are modelled as passing 10.
- Numbers are unbounded integers. Fractional pages, totals and limits are not modelled.
- Topics.FetchTopicsSuggestions: topic rows are strings, as the row type declares. A `null` topic is not modelled.
- SourceBadge.RenderBadge: an absent `verified` prop is passed as `false`, which JavaScript's truthiness makes equivalent.
