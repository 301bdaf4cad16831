/** The record types of lib/types.ts and the row normaliser `mapBookJoinedToBook`.
    Raw rows keep the store's snake_case column names; the UI records use the
    camelCase names the normaliser gives them. `None` is `null` or `undefined`. */
module Types {
  import opened Wrappers

  /** A `book_labels` row as embedded in a joined book (only its `label` is selected, here `label_`, `label` being a keyword). */
  datatype LabelRow = LabelRow(label_: string)

  /** A `book_topics` row as embedded in a joined book (only its `topic` is selected). */
  datatype TopicRow = TopicRow(topic: string)

  /** A `sources` row. The `type` column is `type_` here, `type` being a keyword. */
  datatype SourceRow = SourceRow(
    id: string,
    book_id: string,
    source_name: Option<string>,
    url: string,
    type_: Option<string>,
    verified: Option<bool>,
    format: Option<string>,
    added_at: string)

  /** A `books` row with its label, topic and source rows, as a joined select returns it.
      The embedded arrays may be missing, which the normaliser tolerates. */
  datatype BookJoined = BookJoined(
    id: string,
    title: string,
    isbn: Option<string>,
    author: Option<string>,
    cover_url: Option<string>,
    description: Option<string>,
    published_year: Option<int>,
    created_at: string,
    book_labels: Option<seq<LabelRow>>,
    book_topics: Option<seq<TopicRow>>,
    sources: Option<seq<SourceRow>>)

  /** A source as the UI sees it: `verified` is always a boolean, `book_id` is dropped. */
  datatype Source = Source(
    id: string,
    sourceName: Option<string>,
    url: string,
    type_: Option<string>,
    verified: bool,
    format: Option<string>,
    addedAt: string)

  /** The UI-ready book. */
  datatype Book = Book(
    id: string,
    title: string,
    isbn: Option<string>,
    author: Option<string>,
    coverUrl: Option<string>,
    description: Option<string>,
    publishedYear: Option<int>,
    createdAt: string,
    labels: seq<string>,
    topics: seq<string>,
    sources: seq<Source>)

  /** Optional, conjunctive search constraints; a missing field constrains nothing. */
  datatype SearchFilters = SearchFilters(
    labels: Option<seq<string>>,
    topics: Option<seq<string>>,
    types: Option<seq<string>>,
    author: Option<string>)

  /** One page of results, with the total count of matching rows and the page echoed. */
  datatype PaginatedResult<T> = PaginatedResult(data: seq<T>, total: int, page: int, pageSize: int)

  /** `s` is `row` with its fields renamed, `book_id` dropped and `verified` coerced with
      `Boolean(...)`, which is true only for a stored `true`. */
  predicate RenamesSource(row: SourceRow, s: Source) {
    && s.id == row.id
    && s.sourceName == row.source_name
    && s.url == row.url
    && s.type_ == row.type_
    && s.format == row.format
    && s.addedAt == row.added_at
    && (s.verified <==> row.verified == Some(true))
  }

  function ToSource(row: SourceRow): Source {
    Source(row.id, row.source_name, row.url, row.type_, row.verified == Some(true), row.format, row.added_at)
  }

  /** `mapBookJoinedToBook`: scalar fields are copied, a missing embedded array becomes an
      empty one, and each embedded row is flattened (labels, topics) or renamed (sources),
      keeping length and order. */
  function MapBookJoinedToBook(input: BookJoined): (b: Book)
    ensures && b.id == input.id && b.title == input.title && b.isbn == input.isbn
            && b.author == input.author && b.coverUrl == input.cover_url
            && b.description == input.description && b.createdAt == input.created_at
    ensures b.publishedYear == input.published_year
    ensures var rows := input.book_labels.GetOr([]);
      |b.labels| == |rows| && forall k :: 0 <= k < |rows| ==> b.labels[k] == rows[k].label_
    ensures var rows := input.book_topics.GetOr([]);
      |b.topics| == |rows| && forall k :: 0 <= k < |rows| ==> b.topics[k] == rows[k].topic
    ensures var rows := input.sources.GetOr([]);
      |b.sources| == |rows| && forall k :: 0 <= k < |rows| ==> RenamesSource(rows[k], b.sources[k])
  {
    var labelRows, topicRows, sourceRows :=
      input.book_labels.GetOr([]), input.book_topics.GetOr([]), input.sources.GetOr([]);
    Book(
      input.id, input.title, input.isbn, input.author, input.cover_url, input.description,
      input.published_year, input.created_at,
      seq(|labelRows|, k requires 0 <= k < |labelRows| => labelRows[k].label_),
      seq(|topicRows|, k requires 0 <= k < |topicRows| => topicRows[k].topic),
      seq(|sourceRows|, k requires 0 <= k < |sourceRows| => ToSource(sourceRows[k])))
  }

  /** `rows.map(mapBookJoinedToBook)`. */
  function MapRows(rows: seq<BookJoined>): (books: seq<Book>)
    ensures |books| == |rows|
    ensures forall k :: 0 <= k < |rows| ==> books[k] == MapBookJoinedToBook(rows[k])
  {
    seq(|rows|, k requires 0 <= k < |rows| => MapBookJoinedToBook(rows[k]))
  }

  /** A stored `verified` of `null` or `false` reads as unverified; missing label and topic
      arrays read as empty ones; nothing is dropped from the embedded rows. */
  lemma NormaliserToleratesMissingData(input: BookJoined, sourceRows: seq<SourceRow>, k: nat)
    requires input.book_labels.None? && input.book_topics.None?
    requires input.sources == Some(sourceRows) && k < |sourceRows|
    requires sourceRows[k].verified != Some(true)
    ensures var b := MapBookJoinedToBook(input);
      b.labels == [] && b.topics == [] && |b.sources| == |sourceRows| && !b.sources[k].verified
  {
  }
}
