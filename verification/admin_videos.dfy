/** The admin queue of videos waiting for review: the row each pending
    video becomes, the difficulty options, and the searched, filtered and
    sorted list. `API_BASE` is the parameter `base`; turning `created_at`
    into a timestamp is the parameter `parseDate`, which answers `None`
    where `new Date(...).getTime()` is not finite. */
module AdminVideos {
  import opened Common
  import opened Text
  import opened Seqs
  import opened Ordering
  import VideoUrl

  /** A pending video as the backend lists it; `trainerId` is already the
      string form of `trainer_id` when that is present. */
  datatype PendingVideo = PendingVideo(
    id: string,
    title: Option<string>,
    trainerId: Option<string>,
    trainerName: Option<string>,
    difficulty: Option<string>,
    createdAt: Option<string>,
    s3Url: Option<string>)

  datatype Row = Row(
    id: string,
    src: string,
    title: string,
    trainerId: string,
    trainerName: string,
    created: int,
    difficulty: string)

  const Unspecified: string := "Unspecified"

  /** `String(v.difficulty || "Unspecified").trim()`: the fallback is
      substituted before trimming. */
  function Difficulty(d: Option<string>): (r: string)
    ensures d.None? || d.value == "" ==> r == Unspecified
    ensures d.Some? && d.value != "" ==> r == Trim(d.value)
    ensures r != "" ==> !IsWhitespace(r[0]) && !IsWhitespace(r[|r| - 1])
  {
    if d.Some? && d.value != "" then Trim(d.value)
    else
      UnspecifiedIsTrimmed();
      Trim(Unspecified)
  }

  lemma UnspecifiedIsTrimmed()
    ensures Trim(Unspecified) == Unspecified
  {
    TrimUnchanged(Unspecified);
  }

  /** A difficulty made only of spaces is truthy, so it is not replaced,
      and trims to the empty string. */
  lemma BlankDifficultyBecomesEmpty()
    ensures Difficulty(Some("  ")) == ""
  {
    assert forall i | 0 <= i < |"  "| :: IsWhitespace("  "[i]);
  }

  /** `v.created_at ? new Date(v.created_at).getTime() : 0`, with a
      non-finite time read as 0. */
  function Created(parseDate: string -> Option<int>, createdAt: Option<string>): (t: int)
    ensures createdAt.None? || createdAt.value == "" ==> t == 0
    ensures createdAt.Some? && createdAt.value != "" && parseDate(createdAt.value).None? ==> t == 0
    ensures createdAt.Some? && createdAt.value != "" && parseDate(createdAt.value).Some? ==>
              t == parseDate(createdAt.value).value
  {
    if createdAt.None? || createdAt.value == "" then 0
    else parseDate(createdAt.value).GetOr(0)
  }

  function MapRow(base: string, parseDate: string -> Option<int>, v: PendingVideo): (r: Row)
    ensures r.id == v.id
    ensures r.src == VideoUrl.EnsureVideoUrl(base, v.s3Url)
    // the search keys: title and trainer name lowercased, the id as it is
    ensures r.title == Lower(OrElse(v.title, ""))
    ensures r.trainerId == v.trainerId.GetOr("")
    ensures r.trainerName == Lower(OrElse(v.trainerName, ""))
    ensures r.created == Created(parseDate, v.createdAt)
    ensures r.difficulty == Difficulty(v.difficulty)
  {
    Row(v.id, VideoUrl.EnsureVideoUrl(base, v.s3Url), Lower(OrElse(v.title, "")),
        v.trainerId.GetOr(""), Lower(OrElse(v.trainerName, "")),
        Created(parseDate, v.createdAt), Difficulty(v.difficulty))
  }

  // ---------------------------------------------------------------------
  // Difficulty options
  // ---------------------------------------------------------------------

  function Difficulties(rows: seq<Row>): (ds: seq<string>)
    ensures |ds| == |rows|
    ensures forall i | 0 <= i < |rows| :: ds[i] == rows[i].difficulty
  {
    seq(|rows|, i requires 0 <= i < |rows| => rows[i].difficulty)
  }

  /** Each option is its own sort key. */
  function Itself(d: string): string {
    d
  }

  /** The distinct non-empty difficulties, ordered by the page's collation
      `less` (`less(a, b)` when `a.localeCompare(b)` is negative), which is
      any strict total order on strings. */
  function LevelOptions(rows: seq<Row>, less: (string, string) -> bool): (opts: seq<string>)
    requires StrictTotalOrder(less)
    ensures NoDuplicates(opts)
    ensures forall k :: k in opts <==> k != "" && k in Difficulties(rows)
    ensures SortedBy(opts, Itself, less)
  {
    var present := Filter(Difficulties(rows), (d: string) => d != "");
    var keys := Dedupe(present);
    var opts := Sort(keys, Itself, less);
    assert forall k :: k in opts <==> k in keys by {
      forall k ensures k in opts <==> k in keys {
        assert k in opts <==> k in multiset(opts);
        assert k in keys <==> k in multiset(keys);
      }
    }
    assert forall k :: k in present <==> k != "" && k in Difficulties(rows) by {
      forall k ensures k in present <==> k != "" && k in Difficulties(rows) {
        FilterMembers(Difficulties(rows), (d: string) => d != "", k);
      }
    }
    opts
  }

  /** Strictly increasing: after removing duplicates no two options tie. */
  lemma LevelOptionsStrictlyIncreasing(rows: seq<Row>, less: (string, string) -> bool, i: nat, j: nat)
    requires StrictTotalOrder(less)
    requires i < j < |LevelOptions(rows, less)|
    ensures less(LevelOptions(rows, less)[i], LevelOptions(rows, less)[j])
  {
    var opts := LevelOptions(rows, less);
    assert !less(Itself(opts[j]), Itself(opts[i]));
    NoDuplicatesDistinct(opts, i, j);
  }

  // ---------------------------------------------------------------------
  // Search, filter and sort
  // ---------------------------------------------------------------------

  /** A blank query keeps every row; otherwise the trimmed, lowercased query
      must occur in the title, the trainer id or a non-empty trainer name. */
  predicate MatchesQuery(r: Row, q: string) {
    IsBlank(q) ||
    var qq := Lower(Trim(q));
    Contains(r.title, qq) || Contains(r.trainerId, qq) || (r.trainerName != "" && Contains(r.trainerName, qq))
  }

  predicate MatchesLevel(r: Row, level: string) {
    level == "all" || r.difficulty == level
  }

  /** The sort select; any other value sorts by creation time. */
  datatype SortField = ByCreated | ByTitle | ByTrainer

  /** `_trainerName || _trainerId` */
  function TrainerKey(r: Row): string {
    if r.trainerName != "" then r.trainerName else r.trainerId
  }

  function RowKey(field: SortField): Row -> SortKey {
    (r: Row) =>
      match field
      case ByTitle => Str(r.title)
      case ByTrainer => Str(TrainerKey(r))
      case ByCreated => Num(r.created)
  }

  predicate Keep(r: Row, q: string, level: string) {
    MatchesQuery(r, q) && MatchesLevel(r, level)
  }

  /** The test both filters apply together. */
  function Kept(q: string, level: string): Row -> bool {
    (x: Row) => Keep(x, q, level)
  }

  /** The search, then the level filter: the rows passing both, in their
      order. */
  function Filtered(rows: seq<Row>, q: string, level: string): (r: seq<Row>)
    ensures r == Filter(rows, Kept(q, level))
  {
    var byQuery := if IsBlank(q) then rows else Filter(rows, (x: Row) => MatchesQuery(x, q));
    var byLevel := if level == "all" then byQuery else Filter(byQuery, (x: Row) => MatchesLevel(x, level));
    FilteredStages(rows, q, level, byQuery, byLevel);
    byLevel
  }

  lemma FilteredStages(rows: seq<Row>, q: string, level: string, byQuery: seq<Row>, byLevel: seq<Row>)
    requires byQuery == if IsBlank(q) then rows else Filter(rows, (x: Row) => MatchesQuery(x, q))
    requires byLevel == if level == "all" then byQuery else Filter(byQuery, (x: Row) => MatchesLevel(x, level))
    ensures byLevel == Filter(rows, Kept(q, level))
  {
    var p1 := (x: Row) => MatchesQuery(x, q);
    if IsBlank(q) {
      FilterAll(rows, p1);
    }
    assert byQuery == Filter(rows, p1);
    if level == "all" {
      FilterExt(rows, p1, Kept(q, level));
    } else {
      FilterFilter(rows, p1, (x: Row) => MatchesLevel(x, level), Kept(q, level));
    }
  }

  /** The `list` memo: search, level filter, then the stable sort. */
  function List(rows: seq<Row>, q: string, level: string, field: SortField, dir: Direction): (r: seq<Row>)
    ensures forall x :: multiset(r)[x] == if MatchesQuery(x, q) && MatchesLevel(x, level) then multiset(rows)[x] else 0
    ensures SortedBy(r, RowKey(field), Comparator(dir))
    // rows with equal sort keys keep their order among the kept rows
    ensures forall k :: KeyClass(r, RowKey(field), k) == KeyClass(Filter(rows, Kept(q, level)), RowKey(field), k)
  {
    ComparatorIsStrictTotal(dir);
    Sort(Filtered(rows, q, level), RowKey(field), Comparator(dir))
  }

  /** A non-blank query keeps a row exactly when one of its three search
      keys contains the query. */
  lemma ListQuery(rows: seq<Row>, q: string, field: SortField, dir: Direction, x: Row)
    requires !IsBlank(q) && x in rows
    ensures x in List(rows, q, "all", field, dir) <==>
      var qq := Lower(Trim(q));
      Contains(x.title, qq) || Contains(x.trainerId, qq) || (x.trainerName != "" && Contains(x.trainerName, qq))
  {
    var r := List(rows, q, "all", field, dir);
    assert x in r <==> multiset(r)[x] > 0;
    assert multiset(rows)[x] > 0;
  }

  /** The level filter keeps exactly the rows of the chosen difficulty. */
  lemma ListLevel(rows: seq<Row>, q: string, level: string, field: SortField, dir: Direction, x: Row)
    requires IsBlank(q) && level != "all" && x in rows
    ensures x in List(rows, q, level, field, dir) <==> x.difficulty == level
  {
    var r := List(rows, q, level, field, dir);
    assert x in r <==> multiset(r)[x] > 0;
    assert multiset(rows)[x] > 0;
  }
}
