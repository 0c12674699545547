/** The admin page that lists trainers: the view model built from each
    trainer record, the name search, the summary statistics and the invite
    form's guard. `API_BASE` is the parameter `base`; the invite request
    itself and the reload after it are outside the model, which records
    only the address a request would be sent for. */
module AdminUsers {
  import opened Common
  import opened Text
  import opened Seqs

  /** A trainer as the backend returns it; a count or flag the backend
      leaves out is `None`. */
  datatype RawTrainer = RawTrainer(
    id: string,
    name: Option<string>,
    email: Option<string>,
    membersCount: Option<nat>,
    videosCount: Option<nat>,
    online: Option<bool>)

  datatype TrainerVM = TrainerVM(
    id: string,
    name: string,
    profileImage: string,
    isOnline: bool,
    membersCount: nat,
    videosCount: nat,
    usagePeriod: string,
    resetDays: nat)

  /** The em dash shown for missing values. */
  const Dash: string := "\U{2014}"

  /** `s.trim() || "—"` */
  function TrimOrDash(s: string): (r: string)
    ensures r != ""
    ensures IsBlank(s) ==> r == Dash
    ensures !IsBlank(s) ==> r == Trim(s) && !IsWhitespace(r[0]) && !IsWhitespace(r[|r| - 1])
  {
    var t := Trim(s);
    if t == "" then Dash else t
  }

  /** `(t.name || t.email || "—").trim() || "—"`: the first of name and
      e-mail that is non-empty, trimmed, and the dash when nothing is left. */
  function TrainerName(name: Option<string>, email: Option<string>): (r: string)
    ensures r != "" && !IsWhitespace(r[0]) && !IsWhitespace(r[|r| - 1])
    // a non-empty name wins, even one that trims to nothing
    ensures name.Some? && name.value != "" ==> r == TrimOrDash(name.value)
    ensures (name.None? || name.value == "") && email.Some? && email.value != "" ==> r == TrimOrDash(email.value)
    ensures (name.None? || name.value == "") && (email.None? || email.value == "") ==> r == Dash
  {
    if name.Some? && name.value != "" then TrimOrDash(name.value)
    else if email.Some? && email.value != "" then TrimOrDash(email.value)
    else
      DashIsTrimmed();
      TrimOrDash(Dash)
  }

  lemma DashIsTrimmed()
    ensures Trim(Dash) == Dash
  {
    TrimUnchanged(Dash);
  }

  /** A name of spaces does not fall back to the e-mail address: it is
      truthy before trimming, and only the trimmed result is replaced. */
  lemma BlankNameHidesEmail()
    ensures TrainerName(Some(" "), Some("coach@example.com")) == Dash
  {
    assert IsWhitespace(" "[0]);
  }

  /** `${API_BASE}/profile-image/${userId}` */
  function ProfileImageUrl(base: string, id: string): (r: string)
    ensures StartsWith(r, base) && r[|base|..] == "/profile-image/" + id
  {
    var r := base + "/profile-image/" + id;
    assert r[..|base|] == base;
    r
  }

  function ToViewModel(base: string, t: RawTrainer): (vm: TrainerVM)
    ensures vm.id == t.id && vm.name == TrainerName(t.name, t.email)
    ensures vm.profileImage == ProfileImageUrl(base, t.id)
    // `Boolean(t.online)` and `Number(count || 0)`
    ensures vm.isOnline <==> t.online == Some(true)
    ensures vm.membersCount == (if t.membersCount.Some? then t.membersCount.value else 0)
    ensures vm.videosCount == (if t.videosCount.Some? then t.videosCount.value else 0)
    ensures vm.usagePeriod == Dash && vm.resetDays == 0
  {
    var name := TrainerName(t.name, t.email);
    var image := ProfileImageUrl(base, t.id);
    TrainerVM(t.id, name, image, t.online.GetOr(false), t.membersCount.GetOr(0), t.videosCount.GetOr(0), Dash, 0)
  }

  function ToViewModels(base: string, ts: seq<RawTrainer>): (vms: seq<TrainerVM>)
    ensures |vms| == |ts|
    ensures forall i | 0 <= i < |ts| :: vms[i] == ToViewModel(base, ts[i])
  {
    seq(|ts|, i requires 0 <= i < |ts| => ToViewModel(base, ts[i]))
  }

  // ---------------------------------------------------------------------
  // Search
  // ---------------------------------------------------------------------

  predicate NameMatches(t: TrainerVM, q: string) {
    Contains(Lower(t.name), q)
  }

  /** `filteredTrainers`: all trainers for a blank search, otherwise those
      whose lowercased name contains the trimmed, lowercased search. */
  function FilteredTrainers(trainers: seq<TrainerVM>, search: string): (r: seq<TrainerVM>)
    ensures IsBlank(search) ==> r == trainers
    ensures !IsBlank(search) ==>
      forall x :: multiset(r)[x] == if NameMatches(x, Lower(Trim(search))) then multiset(trainers)[x] else 0
  {
    var q := Lower(Trim(search));
    if q == "" then trainers else Filter(trainers, (t: TrainerVM) => NameMatches(t, q))
  }

  /** The matches keep their original order. */
  lemma FilteredKeepsOrder(trainers: seq<TrainerVM>, search: string)
    ensures IsSubseq(FilteredTrainers(trainers, search), trainers)
  {
    var q := Lower(Trim(search));
    if q == "" {
      FilterAll(trainers, (t: TrainerVM) => true);
      FilterIsSubseq(trainers, (t: TrainerVM) => true);
    } else {
      FilterIsSubseq(trainers, (t: TrainerVM) => NameMatches(t, q));
    }
  }

  // ---------------------------------------------------------------------
  // Statistics
  // ---------------------------------------------------------------------

  datatype Stats = Stats(totalMembers: nat, totalVideos: nat, activeTrainers: nat, onlineCount: nat)

  function SumMembers(ts: seq<TrainerVM>): nat {
    if ts == [] then 0 else SumMembers(ts[..|ts| - 1]) + ts[|ts| - 1].membersCount
  }

  function SumVideos(ts: seq<TrainerVM>): nat {
    if ts == [] then 0 else SumVideos(ts[..|ts| - 1]) + ts[|ts| - 1].videosCount
  }

  predicate Online(t: TrainerVM) {
    t.isOnline
  }

  function OnlineCount(ts: seq<TrainerVM>): nat {
    if ts == [] then 0 else OnlineCount(ts[..|ts| - 1]) + (if ts[|ts| - 1].isOnline then 1 else 0)
  }

  /** The running count is `trainers.filter(t => t.isOnline).length`. */
  lemma {:induction false} OnlineCountIsFilterLength(ts: seq<TrainerVM>)
    ensures OnlineCount(ts) == |Filter(ts, Online)|
    ensures OnlineCount(ts) <= |ts|
  {
    if ts != [] {
      var init := ts[..|ts| - 1];
      assert ts == init + [ts[|ts| - 1]];
      FilterAppend(init, ts[|ts| - 1], Online);
      OnlineCountIsFilterLength(init);
    }
  }

  /** Totals are additive: the members of a list split in two add up. */
  lemma {:induction false} SumMembersAppend(a: seq<TrainerVM>, b: seq<TrainerVM>)
    ensures SumMembers(a + b) == SumMembers(a) + SumMembers(b)
    decreases |b|
  {
    if b == [] {
      assert a + b == a;
    } else {
      assert (a + b)[..|a + b| - 1] == a + b[..|b| - 1];
      assert (a + b)[|a + b| - 1] == b[|b| - 1];
      SumMembersAppend(a, b[..|b| - 1]);
    }
  }

  /** One more trainer adds its counts and, when online, one to the count. */
  lemma StatsStep(ts: seq<TrainerVM>, i: nat)
    requires i < |ts|
    ensures SumMembers(ts[..i + 1]) == SumMembers(ts[..i]) + ts[i].membersCount
    ensures SumVideos(ts[..i + 1]) == SumVideos(ts[..i]) + ts[i].videosCount
    ensures OnlineCount(ts[..i + 1]) == OnlineCount(ts[..i]) + (if ts[i].isOnline then 1 else 0)
  {
    assert ts[..i + 1][..i] == ts[..i];
    assert ts[..i + 1] == ts[..i] + [ts[i]];
    SumMembersAppend(ts[..i], [ts[i]]);
    assert [ts[i]][..0] == [];
  }

  /** `stats`: the two sums, the number of trainers and the number online. */
  method ComputeStats(ts: seq<TrainerVM>) returns (s: Stats)
    ensures s.totalMembers == SumMembers(ts) && s.totalVideos == SumVideos(ts)
    ensures s.activeTrainers == |ts|
    ensures s.onlineCount == |Filter(ts, Online)|
    ensures s.onlineCount <= s.activeTrainers
  {
    var members, videos, online := 0, 0, 0;
    var i := 0;
    while i < |ts|
      invariant 0 <= i <= |ts|
      invariant members == SumMembers(ts[..i]) && videos == SumVideos(ts[..i])
      invariant online == OnlineCount(ts[..i])
    {
      StatsStep(ts, i);
      members := members + ts[i].membersCount;
      videos := videos + ts[i].videosCount;
      if ts[i].isOnline {
        online := online + 1;
      }
      i := i + 1;
    }
    assert ts[..i] == ts;
    OnlineCountIsFilterLength(ts);
    s := Stats(members, videos, |ts|, online);
  }

  // ---------------------------------------------------------------------
  // Inviting
  // ---------------------------------------------------------------------

  datatype InviteForm = InviteForm(email: string, status: string, inviting: bool)

  const Sending: string := "Sending..."
  const Sent: string := "Invitation sent"
  const InviteFailed: string := "Invite failed"

  /** `onInvite` up to the request: a blank address changes nothing and
      sends nothing; otherwise the trimmed address is sent and the form
      shows that it is sending. */
  function OnInvite(f: InviteForm): (r: (InviteForm, Option<string>))
    ensures IsBlank(f.email) ==> r == (f, None)
    ensures !IsBlank(f.email) ==> r.1 == Some(Trim(f.email)) && r.0 == f.(status := Sending, inviting := true)
    ensures r.1.Some? ==> r.1.value != "" && !IsWhitespace(r.1.value[0]) && !IsWhitespace(r.1.value[|r.1.value| - 1])
  {
    var email := Trim(f.email);
    if email == "" then (f, None)
    else (f.(status := Sending, inviting := true), Some(email))
  }

  /** After the request settles: on success the field is cleared, on
      failure the error's message (or a default) is shown. */
  function InviteSettled(f: InviteForm, ok: bool, message: Option<string>): (r: InviteForm)
    ensures !r.inviting
    ensures ok ==> r.email == "" && r.status == Sent
    ensures !ok ==> r.email == f.email && r.status == OrElse(message, InviteFailed) && r.status != ""
  {
    if ok then InviteForm("", Sent, false)
    else InviteForm(f.email, OrElse(message, InviteFailed), false)
  }
}
