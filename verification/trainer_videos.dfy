/** The trainer's video library: how each video returned by the backend is
    turned into a row (playable address, calories, `mm:ss` duration,
    status, level key), the level options offered in the filter, the
    filtered and sorted list, and removal of a deleted video. The page's
    own `API_BASE` constant is the parameter `base` (see `PageBase`); the
    row's timestamp (`created_at`,
    `updated_at` or the id, as a number) is taken as already computed. */
module TrainerVideos {
  import opened Common
  import opened Text
  import opened Seqs
  import opened Ordering
  import VideoUrl

  /** The `duration` field as the backend sends it: missing, a number of
      seconds, or already a label. */
  datatype Duration = NoDuration | Seconds(n: nat) | Label(s: string)

  datatype RawVideo = RawVideo(
    id: string,
    title: Option<string>,
    s3Url: Option<string>,
    kcal: Option<nat>,
    description: Option<string>,
    duration: Duration,
    rejected: bool,
    approved: bool,
    difficulty: Option<string>,
    level: Option<string>,
    sortableDate: int)

  // ---------------------------------------------------------------------
  // Address
  // ---------------------------------------------------------------------

  /** The page's own `API_BASE`: `NEXT_PUBLIC_API_BASE ||
      NEXT_PUBLIC_BACKEND_URL || "/api/backend"`, unlike the shared one,
      which skips the backend variable. */
  function PageBase(apiBaseVar: Option<string>, backendUrlVar: Option<string>): (b: string)
    ensures b != ""
    ensures apiBaseVar.Some? && apiBaseVar.value != "" ==> b == apiBaseVar.value
    ensures (apiBaseVar.None? || apiBaseVar.value == "") && backendUrlVar.Some? && backendUrlVar.value != "" ==>
              b == backendUrlVar.value
    ensures (apiBaseVar.None? || apiBaseVar.value == "") && (backendUrlVar.None? || backendUrlVar.value == "") ==>
              b == VideoUrl.DefaultBase
  {
    OrElse(apiBaseVar, OrElse(backendUrlVar, VideoUrl.DefaultBase))
  }

  /** The two constants agree exactly when the API variable is set, or the
      backend variable is unset or names the default. */
  lemma PageBaseAgreesWithApiBase(apiBaseVar: Option<string>, backendUrlVar: Option<string>)
    ensures PageBase(apiBaseVar, backendUrlVar) == VideoUrl.ApiBase(apiBaseVar) <==>
      || (apiBaseVar.Some? && apiBaseVar.value != "")
      || backendUrlVar.None? || backendUrlVar.value == "" || backendUrlVar.value == VideoUrl.DefaultBase
  {
  }

  /** With only the backend variable set, the library and the admin queue
      build different addresses for the same stored file. */
  lemma BackendOnlyAddressesDiffer()
    ensures var url := Some("clips/squat.mp4");
      TrainerUrl(PageBase(None, Some("https://api.example")), url)
        != VideoUrl.EnsureVideoUrl(VideoUrl.ApiBase(None), url)
  {
    var u := "clips/squat.mp4";
    var lu := Lower(u);
    assert lu[0] == LowerChar('c') == 'c';
    assert !VideoUrl.HasHttpScheme(u) by {
      assert lu[..7][0] == 'c';
      assert lu[..8][0] == 'c';
    }
    var pb := PageBase(None, Some("https://api.example"));
    assert pb == "https://api.example";
    var a := TrainerUrl(pb, Some(u));
    assert StartsWith(a, pb + VideoUrl.StaticPath);
    assert a[0] == (pb + VideoUrl.StaticPath)[0] == 'h';
    var ab := VideoUrl.ApiBase(None);
    assert ab == VideoUrl.DefaultBase;
    var b := VideoUrl.EnsureVideoUrl(ab, Some(u));
    assert StartsWith(b, ab + VideoUrl.StaticPath);
    assert b[0] == (ab + VideoUrl.StaticPath)[0] == '/';
  }

  /** The page's own copy of the address rule: `v.s3_url || ""`, kept when
      it is empty or absolute, otherwise reduced to its file name under
      `/static/`. */
  function TrainerUrl(base: string, s3Url: Option<string>): (r: string)
    ensures r == VideoUrl.EnsureVideoUrl(base, s3Url)
  {
    var url := OrElse(s3Url, "");
    if url != "" && !VideoUrl.HasHttpScheme(url) then base + VideoUrl.StaticPath + VideoUrl.FileName(url)
    else url
  }

  // ---------------------------------------------------------------------
  // Level
  // ---------------------------------------------------------------------

  /** `v.difficulty ?? v.level ?? ""`: only a missing value falls through. */
  function RawLevel(v: RawVideo): string {
    match v.difficulty
    case Some(d) => d
    case None => v.level.GetOr("")
  }

  const LevelPrefix: string := "Level "
  const Unspecified: string := "Unspecified"

  /** `getLevelKey` on the raw level: "Level <first digit run>" when the
      value has digits, otherwise the trimmed value, or "Unspecified" when
      that is empty. */
  function LevelKey(raw: string): (k: string)
    ensures k != ""
    ensures FirstDigitRun(raw).Some? ==> k == LevelPrefix + FirstDigitRun(raw).value
    ensures FirstDigitRun(raw).None? && IsBlank(raw) ==> k == Unspecified
    ensures FirstDigitRun(raw).None? && !IsBlank(raw) ==> k == Trim(raw)
  {
    var s := Trim(raw);
    FirstDigitRunOfTrim(raw);
    match FirstDigitRun(s)
    case Some(d) => LevelPrefix + d
    case None => if s == "" then Unspecified else s
  }

  /** `Number.MAX_SAFE_INTEGER` */
  const MaxSafeInteger: int := 9007199254740991

  /** `levelOrderKey`: the value of the first digit run, or
      `MAX_SAFE_INTEGER` when there is none. */
  function LevelOrderKey(key: string): (n: int)
    ensures n >= 0
    ensures FirstDigitRun(key).Some? ==> n == ParseDigits(FirstDigitRun(key).value)
    ensures FirstDigitRun(key).None? ==> n == MaxSafeInteger
  {
    match FirstDigitRun(key)
    case Some(d) => ParseDigits(d)
    case None => MaxSafeInteger
  }

  /** A level key orders by the number in the raw level, and a level with
      no number orders last. */
  lemma LevelOrderOfLevelKey(raw: string)
    ensures FirstDigitRun(raw).Some? ==> LevelOrderKey(LevelKey(raw)) == ParseDigits(FirstDigitRun(raw).value)
    ensures FirstDigitRun(raw).None? ==> LevelOrderKey(LevelKey(raw)) == MaxSafeInteger
  {
    match FirstDigitRun(raw)
    case Some(d) =>
      FirstDigitRunSkipsPrefix(LevelPrefix, d);
      FirstDigitRunOfDigits(d);
    case None =>
      var k := LevelKey(raw);
      if !IsBlank(raw) {
        FirstDigitRunOfTrim(raw);
      }
      assert FirstDigitRun(k).None?;
  }

  /** Numbered levels (below `MAX_SAFE_INTEGER`) come before unnumbered ones. */
  lemma NumberedLevelsFirst(a: string, b: string)
    requires FirstDigitRun(a).Some? && ParseDigits(FirstDigitRun(a).value) < MaxSafeInteger
    requires FirstDigitRun(b).None?
    ensures LevelOrderKey(a) < LevelOrderKey(b)
  {
  }

  /** `v.difficulty || v.level || 1`: the label shown on the card. */
  function LevelLabel(v: RawVideo): string {
    OrElse(v.difficulty, OrElse(v.level, "1"))
  }

  // ---------------------------------------------------------------------
  // Calories
  // ---------------------------------------------------------------------

  const KcalTag: string := "kcal:"

  /** `/kcal:(\d+)/` matches at index `i`. */
  predicate KcalMatchAt(s: string, i: nat) {
    OccursAt(s, KcalTag, i) && i + |KcalTag| < |s| && IsDigit(s[i + |KcalTag|])
  }

  /** The leftmost match at or after `from`. */
  function FirstKcalMatch(s: string, from: nat): (r: Option<nat>)
    requires from <= |s|
    ensures r.None? <==> forall i | from <= i < |s| :: !KcalMatchAt(s, i)
    ensures r.Some? ==> from <= r.value < |s| && KcalMatchAt(s, r.value)
    ensures r.Some? ==> forall i | from <= i < r.value :: !KcalMatchAt(s, i)
    decreases |s| - from
  {
    if from == |s| then None
    else if KcalMatchAt(s, from) then Some(from)
    else FirstKcalMatch(s, from + 1)
  }

  /** `Number(description.match(/kcal:(\d+)/)[1])`, when the tag is there. */
  function KcalInDescription(desc: string): (r: Option<nat>)
    ensures r.None? <==> forall i | 0 <= i < |desc| :: !KcalMatchAt(desc, i)
    // the number is the whole digit run after the leftmost tag
    ensures r.Some? ==>
      && FirstKcalMatch(desc, 0).Some?
      && r.value == ParseDigits(DigitRunAt(desc, FirstKcalMatch(desc, 0).value + |KcalTag|))
  {
    match FirstKcalMatch(desc, 0)
    case None => None
    case Some(i) => Some(ParseDigits(DigitRunAt(desc, i + |KcalTag|)))
  }

  /** A description carrying `kcal:<n>` yields `n`, provided nothing
      before the tag contains a colon and the number ends the run. */
  lemma KcalTagRoundTrip(p: string, n: nat, rest: string)
    requires forall k | 0 <= k < |p| :: p[k] != ':'
    requires rest == [] || !IsDigit(rest[0])
    ensures KcalInDescription(p + KcalTag + NatToString(n) + rest) == Some(n)
  {
    var digits := NatToString(n);
    var s := p + KcalTag + digits + rest;
    assert s == p + KcalTag + (digits + rest);
    KcalTagFirstAt(p, digits + rest);
    KcalDigitsAt(p + KcalTag, digits, rest);
    ParseNatToString(n);
  }

  /** The tag right after a colon-free prefix is the leftmost match. */
  lemma KcalTagFirstAt(p: string, tail: string)
    requires forall k | 0 <= k < |p| :: p[k] != ':'
    requires tail != [] && IsDigit(tail[0])
    ensures FirstKcalMatch(p + KcalTag + tail, 0) == Some(|p|)
  {
    var s := p + KcalTag + tail;
    forall i | 0 <= i < |p| ensures !KcalMatchAt(s, i) {
      if i + 4 < |p| {
        assert s[i + 4] == p[i + 4];
      } else {
        assert s[i + 4] == KcalTag[i + 4 - |p|];
      }
      assert s[i..i + |KcalTag|][4] == s[i + 4];
    }
    assert s[|p|..|p| + |KcalTag|] == KcalTag;
    assert s[|p| + |KcalTag|] == tail[0];
    assert KcalMatchAt(s, |p|);
  }

  /** The digits written after the tag are the run read back there. */
  lemma KcalDigitsAt(head: string, digits: string, rest: string)
    requires AllDigits(digits)
    requires rest == [] || !IsDigit(rest[0])
    ensures DigitRunAt(head + (digits + rest), |head|) == digits
  {
    var s := head + (digits + rest);
    var at := |head|;
    assert s[at..at + |digits|] == digits;
    if at + |digits| < |s| {
      assert s[at + |digits|] == rest[0];
    }
    DigitRunAtUnique(s, at, digits);
  }

  /** `let kcal = v.kcal; if (!kcal && typeof description === "string")`
      take the tag's number when there is one. */
  function ResolveKcal(kcal: Option<nat>, description: Option<string>): (r: Option<nat>)
    // a truthy kcal is kept as it is
    ensures kcal.Some? && kcal.value != 0 ==> r == kcal
    // a falsy one is replaced by the description's tag, if any
    ensures (kcal.None? || kcal.value == 0) && description.Some? && KcalInDescription(description.value).Some? ==>
              r == KcalInDescription(description.value)
    ensures r != kcal ==> description.Some? && r == KcalInDescription(description.value) && r.Some?
  {
    if (kcal.None? || kcal.value == 0) && description.Some? then
      match KcalInDescription(description.value)
      case Some(n) => Some(n)
      case None => kcal
    else kcal
  }

  /** `parseNumber(kcal)` on what `ResolveKcal` leaves: a number is kept, a
      missing value reads 0. */
  function KcalSortKey(kcal: Option<nat>): (n: nat)
    ensures kcal.Some? ==> n == kcal.value
    ensures kcal.None? ==> n == 0
  {
    kcal.GetOr(0)
  }

  // ---------------------------------------------------------------------
  // Duration
  // ---------------------------------------------------------------------

  /** `${m < 10 ? '0' : ''}${m}` */
  function Pad2(m: nat): (r: string)
    ensures AllDigits(r) && |r| >= 2
    ensures m < 100 ==> |r| == 2
    ensures ParseDigits(r) == m
    // a zero is added only in front of a single digit
    ensures m < 10 ==> r == "0" + NatToString(m)
    ensures m >= 10 ==> r == NatToString(m)
  {
    ParseNatToString(m);
    if m < 10 then
      ParseLeadingZero(NatToString(m));
      "0" + NatToString(m)
    else
      assert NatToString(m) == NatToString(m / 10) + [DigitChar(m % 10)];
      NatToString(m)
  }

  const ZeroDuration: string := "00:00"

  /** The duration label: seconds as `mm:ss` (minutes are not capped), a
      non-empty label as given, anything else "00:00". */
  function FormatDuration(d: Duration): (r: string)
    ensures d.NoDuration? ==> r == ZeroDuration
    ensures d.Label? ==> r == if d.s == "" then ZeroDuration else d.s
    // seconds become `mm:ss`, which reads back as the same number
    ensures d.Seconds? ==> |r| >= 5 && r[|r| - 3] == ':' && ParseClock(r) == Some(d.n)
    // the fields are the whole minutes and the remaining seconds
    ensures d.Seconds? ==> AllDigits(r[..|r| - 3]) && ParseDigits(r[..|r| - 3]) == d.n / 60
    ensures d.Seconds? ==> |r[|r| - 2..]| == 2 && AllDigits(r[|r| - 2..]) && ParseDigits(r[|r| - 2..]) == d.n % 60
  {
    match d
    case Seconds(n) =>
      ClockRoundTrip(n);
      var mm, ss := Pad2(n / 60), Pad2(n % 60);
      var r := mm + ":" + ss;
      assert r[..|r| - 3] == mm && r[|r| - 2..] == ss;
      r
    case Label(s) => if s != "" then s else ZeroDuration
    case NoDuration => ZeroDuration
  }

  /** Reads `m:ss` back as seconds: the independent reading of a label. */
  function ParseClock(s: string): (r: Option<nat>)
    ensures r.Some? ==> |s| >= 4 && s[|s| - 3] == ':'
  {
    if |s| >= 4 && s[|s| - 3] == ':' && AllDigits(s[..|s| - 3]) && AllDigits(s[|s| - 2..])
    then Some(ParseDigits(s[..|s| - 3]) * 60 + ParseDigits(s[|s| - 2..]))
    else None
  }

  /** Every number of seconds survives formatting as `mm:ss`. */
  lemma ClockRoundTrip(n: nat)
    ensures ParseClock(Pad2(n / 60) + ":" + Pad2(n % 60)) == Some(n)
  {
    var mm := Pad2(n / 60);
    var ss := Pad2(n % 60);
    var r := mm + ":" + ss;
    assert r[..|r| - 3] == mm;
    assert r[|r| - 2..] == ss;
  }

  /** `v.duration || 0` as a sort key; a label is not a number and is
      taken as 0. */
  function DurationSortKey(d: Duration): (n: nat)
    ensures d.Seconds? ==> n == d.n
    ensures !d.Seconds? ==> n == 0
  {
    if d.Seconds? then d.n else 0
  }

  // ---------------------------------------------------------------------
  // Status
  // ---------------------------------------------------------------------

  datatype Status = Draft | Rejected | Active | Verifying

  function StatusLabel(s: Status): string {
    match s
    case Draft => "Draft"
    case Rejected => "Rejected"
    case Active => "Active"
    case Verifying => "Verifying"
  }

  const DraftTag: string := "draft:true"

  predicate IsDraft(description: Option<string>) {
    description.Some? && Contains(description.value, DraftTag)
  }

  /** Draft beats rejected, which beats approved; otherwise verifying. */
  function DeriveStatus(description: Option<string>, rejected: bool, approved: bool): (s: Status)
    ensures s == Draft <==> IsDraft(description)
    ensures s == Rejected <==> !IsDraft(description) && rejected
    ensures s == Active <==> !IsDraft(description) && !rejected && approved
    ensures s == Verifying <==> !IsDraft(description) && !rejected && !approved
  {
    if IsDraft(description) then Draft
    else if rejected then Rejected
    else if approved then Active
    else Verifying
  }

  /** The status filter compares lowercased labels, and no two statuses
      share a lowercased label: a filter value selects one status at most. */
  lemma StatusLabelsDistinct(a: Status, b: Status)
    requires Lower(StatusLabel(a)) == Lower(StatusLabel(b))
    ensures a == b
  {
    assert Lower(StatusLabel(a))[0] == LowerChar(StatusLabel(a)[0]);
    assert Lower(StatusLabel(b))[0] == LowerChar(StatusLabel(b)[0]);
  }

  // ---------------------------------------------------------------------
  // Rows
  // ---------------------------------------------------------------------

  /** A mapped video; `thumbnail` is the same address as `url`. */
  datatype VideoRow = VideoRow(
    id: string,
    url: string,
    kcal: Option<nat>,
    duration: string,
    titleKey: string,
    durationKey: nat,
    kcalKey: nat,
    date: int,
    status: Status,
    level: string,
    levelKey: string)

  function MapVideo(base: string, v: RawVideo): (r: VideoRow)
    ensures r.id == v.id && r.date == v.sortableDate
    ensures r.url == VideoUrl.EnsureVideoUrl(base, v.s3Url)
    ensures r.kcal == ResolveKcal(v.kcal, v.description) && r.kcalKey == KcalSortKey(r.kcal)
    ensures r.titleKey == Lower(OrElse(v.title, ""))
    ensures v.duration.Seconds? ==> ParseClock(r.duration) == Some(v.duration.n)
    ensures r.duration == FormatDuration(v.duration) && r.durationKey == DurationSortKey(v.duration)
    ensures r.level == LevelLabel(v)
    ensures r.status == DeriveStatus(v.description, v.rejected, v.approved)
    ensures r.levelKey == LevelKey(RawLevel(v)) && r.levelKey != ""
  {
    var kcal := ResolveKcal(v.kcal, v.description);
    VideoRow(
      v.id,
      TrainerUrl(base, v.s3Url),
      kcal,
      FormatDuration(v.duration),
      Lower(OrElse(v.title, "")),
      DurationSortKey(v.duration),
      KcalSortKey(kcal),
      v.sortableDate,
      DeriveStatus(v.description, v.rejected, v.approved),
      LevelLabel(v),
      LevelKey(RawLevel(v)))
  }

  function MapVideos(base: string, vs: seq<RawVideo>): (rows: seq<VideoRow>)
    ensures |rows| == |vs|
    ensures forall i | 0 <= i < |vs| :: rows[i] == MapVideo(base, vs[i])
  {
    seq(|vs|, i requires 0 <= i < |vs| => MapVideo(base, vs[i]))
  }

  /** `v.__levelKey || "Unspecified"` */
  function RowLevel(r: VideoRow): string {
    if r.levelKey == "" then Unspecified else r.levelKey
  }

  // ---------------------------------------------------------------------
  // Level options
  // ---------------------------------------------------------------------

  function RowLevels(rows: seq<VideoRow>): (ks: seq<string>)
    ensures |ks| == |rows|
    ensures forall i | 0 <= i < |rows| :: ks[i] == RowLevel(rows[i])
  {
    seq(|rows|, i requires 0 <= i < |rows| => RowLevel(rows[i]))
  }

  function LevelOrder(k: string): SortKey {
    Num(LevelOrderKey(k))
  }

  /** The distinct level keys of the rows, numbered levels in increasing
      order and unnumbered ones last; keys with the same order key keep
      the order in which they first appear among the rows. */
  function LevelOptions(rows: seq<VideoRow>): (opts: seq<string>)
    ensures NoDuplicates(opts)
    ensures forall k :: k in opts <==> k in RowLevels(rows)
    ensures SortedBy(opts, LevelOrder, Comparator(Asc))
    ensures forall k :: KeyClass(opts, LevelOrder, k) == KeyClass(Dedupe(RowLevels(rows)), LevelOrder, k)
  {
    var keys := Dedupe(RowLevels(rows));
    ComparatorIsStrictTotal(Asc);
    var opts := Sort(keys, LevelOrder, Comparator(Asc));
    assert forall k :: k in opts <==> k in keys by {
      forall k ensures k in opts <==> k in keys {
        assert k in opts <==> k in multiset(opts);
        assert k in keys <==> k in multiset(keys);
      }
    }
    opts
  }

  /** Two options with the same order key (all the unnumbered ones, for
      instance) are listed in the order of their first row. */
  lemma {:induction false} LevelOptionsTiesKeepFirstAppearance(rows: seq<VideoRow>, i: nat, j: nat)
    requires i < j < |LevelOptions(rows)|
    requires LevelOrderKey(LevelOptions(rows)[i]) == LevelOrderKey(LevelOptions(rows)[j])
    ensures FirstIndex(RowLevels(rows), LevelOptions(rows)[i]) < FirstIndex(RowLevels(rows), LevelOptions(rows)[j])
  {
    var opts, keys := LevelOptions(rows), Dedupe(RowLevels(rows));
    var x, y := opts[i], opts[j];
    assert Precedes(keys, x, y) by {
      ComparatorIsStrictTotal(Asc);
      assert opts == Sort(keys, LevelOrder, Comparator(Asc));
      assert Precedes(opts, x, y) by {
        assert opts[i] == x && opts[j] == y;
      }
      SortKeepsTieOrder(keys, LevelOrder, Comparator(Asc), x, y);
    }
    var a, b :| 0 <= a < b < |keys| && keys[a] == x && keys[b] == y;
    assert FirstIndex(RowLevels(rows), keys[a]) < FirstIndex(RowLevels(rows), keys[b]);
  }

  // ---------------------------------------------------------------------
  // Filtering and sorting
  // ---------------------------------------------------------------------

  /** The search box: a blank query keeps everything, otherwise the
      lowercased title must contain the trimmed, lowercased query. */
  predicate MatchesQuery(r: VideoRow, q: string) {
    IsBlank(q) || Contains(r.titleKey, Lower(Trim(q)))
  }

  /** The status select ("all", "active", "rejected", "draft"). */
  predicate MatchesStatus(r: VideoRow, status: string) {
    status == "all" || Lower(StatusLabel(r.status)) == Lower(status)
  }

  predicate MatchesLevel(r: VideoRow, level: string) {
    level == "all" || RowLevel(r) == level
  }

  predicate Keep(r: VideoRow, q: string, status: string, level: string) {
    MatchesQuery(r, q) && MatchesStatus(r, status) && MatchesLevel(r, level)
  }

  /** The `sortBy` select; any other value sorts by date. */
  datatype SortField = ByDate | ByTitle | ByDuration | ByKcal | ByLevel

  function RowKey(field: SortField): VideoRow -> SortKey {
    (r: VideoRow) =>
      match field
      case ByTitle => Str(r.titleKey)
      case ByDuration => Num(r.durationKey)
      case ByKcal => Num(r.kcalKey)
      case ByLevel => Num(LevelOrderKey(RowLevel(r)))
      case ByDate => Num(r.date)
  }

  /** The test all three filters apply together. */
  function Kept(q: string, status: string, level: string): VideoRow -> bool {
    (x: VideoRow) => Keep(x, q, status, level)
  }

  /** The three filters in turn: the rows passing all of them, in their
      order. */
  function Filtered(rows: seq<VideoRow>, q: string, status: string, level: string): (r: seq<VideoRow>)
    ensures r == Filter(rows, Kept(q, status, level))
  {
    var byQuery := if IsBlank(q) then rows else Filter(rows, (x: VideoRow) => MatchesQuery(x, q));
    var byStatus := if status == "all" then byQuery else Filter(byQuery, (x: VideoRow) => MatchesStatus(x, status));
    var byLevel := if level == "all" then byStatus else Filter(byStatus, (x: VideoRow) => MatchesLevel(x, level));
    FilteredStages(rows, q, status, level, byQuery, byStatus, byLevel);
    byLevel
  }

  lemma FilteredStages(rows: seq<VideoRow>, q: string, status: string, level: string,
                       byQuery: seq<VideoRow>, byStatus: seq<VideoRow>, byLevel: seq<VideoRow>)
    requires byQuery == if IsBlank(q) then rows else Filter(rows, (x: VideoRow) => MatchesQuery(x, q))
    requires byStatus == if status == "all" then byQuery else Filter(byQuery, (x: VideoRow) => MatchesStatus(x, status))
    requires byLevel == if level == "all" then byStatus else Filter(byStatus, (x: VideoRow) => MatchesLevel(x, level))
    ensures byLevel == Filter(rows, Kept(q, status, level))
  {
    var p1 := (x: VideoRow) => MatchesQuery(x, q);
    var p2 := (x: VideoRow) => MatchesQuery(x, q) && MatchesStatus(x, status);
    if IsBlank(q) {
      FilterAll(rows, p1);
    }
    assert byQuery == Filter(rows, p1);
    if status == "all" {
      FilterExt(rows, p1, p2);
    } else {
      FilterFilter(rows, p1, (x: VideoRow) => MatchesStatus(x, status), p2);
    }
    assert byStatus == Filter(rows, p2);
    if level == "all" {
      FilterExt(rows, p2, Kept(q, status, level));
    } else {
      FilterFilter(rows, p2, (x: VideoRow) => MatchesLevel(x, level), Kept(q, status, level));
    }
  }

  /** The `list` memo: the three filters in turn, then the stable sort. */
  function List(rows: seq<VideoRow>, q: string, status: string, level: string,
                field: SortField, dir: Direction): (r: seq<VideoRow>)
    // exactly the rows passing every filter, each as often as before
    ensures forall x :: multiset(r)[x] == if Keep(x, q, status, level) then multiset(rows)[x] else 0
    ensures SortedBy(r, RowKey(field), Comparator(dir))
    // rows with equal sort keys keep their order among the kept rows
    ensures forall k :: KeyClass(r, RowKey(field), k) == KeyClass(Filter(rows, Kept(q, status, level)), RowKey(field), k)
  {
    ComparatorIsStrictTotal(dir);
    Sort(Filtered(rows, q, status, level), RowKey(field), Comparator(dir))
  }

  /** Every listed row passes all three filters. */
  lemma ListRowsMatch(rows: seq<VideoRow>, q: string, status: string, level: string,
                      field: SortField, dir: Direction, x: VideoRow)
    requires x in List(rows, q, status, level, field, dir)
    ensures x in rows && Keep(x, q, status, level)
  {
    var r := List(rows, q, status, level, field, dir);
    assert multiset(r)[x] > 0;
    assert multiset(rows)[x] > 0;
  }

  /** With a blank query and both selects on "all" the list is a
      permutation of the rows. */
  lemma ListUnfiltered(rows: seq<VideoRow>, q: string, field: SortField, dir: Direction)
    requires IsBlank(q)
    ensures multiset(List(rows, q, "all", "all", field, dir)) == multiset(rows)
  {
    var r := List(rows, q, "all", "all", field, dir);
    assert forall x :: multiset(r)[x] == multiset(rows)[x];
  }

  // ---------------------------------------------------------------------
  // Deleting
  // ---------------------------------------------------------------------

  /** After a successful delete: `videos.filter(v => v.id !== videoId)`. */
  function Delete(rows: seq<VideoRow>, id: string): (r: seq<VideoRow>)
    ensures forall x :: multiset(r)[x] == if x.id != id then multiset(rows)[x] else 0
    ensures forall x | x in r :: x.id != id
  {
    var r := Filter(rows, (x: VideoRow) => x.id != id);
    assert forall x | x in r :: x.id != id by {
      forall x | x in r ensures x.id != id {
        assert multiset(r)[x] > 0;
      }
    }
    r
  }

  /** The remaining rows keep their order, and deleting an id no row has
      changes nothing. */
  lemma DeleteKeepsOrder(rows: seq<VideoRow>, id: string)
    ensures IsSubseq(Delete(rows, id), rows)
    ensures (forall i | 0 <= i < |rows| :: rows[i].id != id) ==> Delete(rows, id) == rows
  {
    FilterIsSubseq(rows, (x: VideoRow) => x.id != id);
    if forall i | 0 <= i < |rows| :: rows[i].id != id {
      FilterAll(rows, (x: VideoRow) => x.id != id);
    }
  }
}
