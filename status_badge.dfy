/** The status badge component: the thirteen status literals, the display
    configuration of each, the numeric priority and criticality tables, the
    flags a badge renders with, and the priority ordering of a status group. */
module StatusBadge {
  import opened Seqs

  /** `StatusType`, one constructor per string literal of the union. */
  datatype StatusType =
    | OnTime | Delayed | OnTrack | Active | Maintenance | Blocked | Offline
    | Error | Critical | Warning | Scheduled | Approaching | Departed

  /** The string literal each status stands for. */
  function Literal(s: StatusType): string {
    match s
    case OnTime => "on-time"
    case Delayed => "delayed"
    case OnTrack => "on-track"
    case Active => "active"
    case Maintenance => "maintenance"
    case Blocked => "blocked"
    case Offline => "offline"
    case Error => "error"
    case Critical => "critical"
    case Warning => "warning"
    case Scheduled => "scheduled"
    case Approaching => "approaching"
    case Departed => "departed"
  }

  /** Reads a status literal back; `None` for a string outside the union. */
  function ParseStatus(lit: string): (r: Option<StatusType>)
    ensures r.Some? ==> Literal(r.value) == lit
  {
    if lit == "on-time" then Some(OnTime)
    else if lit == "delayed" then Some(Delayed)
    else if lit == "on-track" then Some(OnTrack)
    else if lit == "active" then Some(Active)
    else if lit == "maintenance" then Some(Maintenance)
    else if lit == "blocked" then Some(Blocked)
    else if lit == "offline" then Some(Offline)
    else if lit == "error" then Some(Error)
    else if lit == "critical" then Some(Critical)
    else if lit == "warning" then Some(Warning)
    else if lit == "scheduled" then Some(Scheduled)
    else if lit == "approaching" then Some(Approaching)
    else if lit == "departed" then Some(Departed)
    else None
  }

  /** The thirteen literals are distinct: every status reads back as itself. */
  lemma LiteralsAreDistinct(s: StatusType)
    ensures ParseStatus(Literal(s)) == Some(s)
  {
  }

  /** The `priority` string of a status configuration. */
  datatype ConfigPriority = LowPriority | MediumPriority | HighPriority | CriticalPriority

  /** The icon components the configurations refer to. */
  datatype Icon = CheckCircle | Clock | TrendingUp | Play | Settings | XCircle | AlertCircle | Calendar | Zap

  datatype StatusConfig = StatusConfig(caption: string, icon: Icon, priority: ConfigPriority, description: string)

  /** `getStatusConfig`: the record lookup, total over the thirteen statuses. */
  function GetStatusConfig(s: StatusType): (c: StatusConfig)
    ensures c.caption != [] && c.description != []
    ensures c.priority == CriticalPriority <==> s == Blocked || s == Critical
    ensures c.priority == CriticalPriority <==> GetStatusPriority(s) == 4
  {
    match s
    case OnTime => StatusConfig("On Time", CheckCircle, HighPriority, "Operating according to schedule")
    case Delayed => StatusConfig("Delayed", Clock, MediumPriority, "Behind scheduled time")
    case OnTrack => StatusConfig("On Track", TrendingUp, HighPriority, "Following designated route")
    case Active => StatusConfig("Active", Play, HighPriority, "Currently operational")
    case Maintenance => StatusConfig("Maintenance", Settings, LowPriority, "Under maintenance")
    case Blocked => StatusConfig("Blocked", XCircle, CriticalPriority, "Path obstructed or blocked")
    case Offline => StatusConfig("Offline", XCircle, LowPriority, "System not operational")
    case Error => StatusConfig("Error", AlertCircle, HighPriority, "System error detected")
    case Critical => StatusConfig("Critical", AlertCircle, CriticalPriority, "Immediate attention required")
    case Warning => StatusConfig("Warning", AlertCircle, MediumPriority, "Caution advised")
    case Scheduled => StatusConfig("Scheduled", Calendar, MediumPriority, "Planned operation")
    case Approaching => StatusConfig("Approaching", Zap, MediumPriority, "Nearing destination")
    case Departed => StatusConfig("Departed", CheckCircle, LowPriority, "Left the station")
  }

  /** `getStatusPriority`. The record covers every status, so its `?? 1`
      fallback is never taken and does not appear here. */
  function GetStatusPriority(s: StatusType): (p: nat)
    ensures p <= 4
    ensures p >= 3 <==> IsStatusCritical(s)
    ensures p == 0 <==> s == Departed || s == Offline
  {
    match s
    case Critical => 4
    case Blocked => 4
    case Error => 3
    case Delayed => 3
    case Warning => 2
    case Maintenance => 2
    case Approaching => 2
    case Scheduled => 2
    case Active => 1
    case OnTime => 1
    case OnTrack => 1
    case Departed => 0
    case Offline => 0
  }

  /** `isStatusCritical`: membership in the four-element list. */
  predicate IsStatusCritical(s: StatusType) {
    s in [Critical, Blocked, Error, Delayed]
  }

  // ---------------------------------------------------------------------
  // The badge

  /** The props of `StatusBadge` that decide its flags; `onClick` is present
      or not, `tooltip` is an optional string. */
  datatype BadgeProps = BadgeProps(
    status: StatusType, showIcon: bool, animated: bool, pulse: bool,
    hasOnClick: bool, tooltip: Option<string>)

  /** The props as a caller that only passes `status` gets them. */
  function DefaultProps(s: StatusType): BadgeProps {
    BadgeProps(s, true, false, false, false, None)
  }

  /** What the badge renders, apart from class strings and the icon component. */
  datatype BadgeView = BadgeView(
    clickable: bool, bounce: bool, pulse: bool, role: Option<string>, tabIndex: Option<int>,
    title: string, caption: string, iconShown: bool, iconSpin: bool, iconPulse: bool)

  /** A `tooltip || config.description` fallback: an absent or empty tooltip is falsy. */
  function TitleOf(tooltip: Option<string>, description: string): string {
    if tooltip.Some? && tooltip.value != "" then tooltip.value else description
  }

  function RenderBadge(p: BadgeProps): (v: BadgeView)
    ensures v.bounce <==> p.animated && (p.status == Blocked || p.status == Critical)
    ensures v.pulse <==> p.pulse || p.status == Blocked || p.status == Critical
    ensures v.bounce ==> v.pulse
    ensures v.clickable <==> p.hasOnClick
    ensures v.clickable <==> v.role == Some("button")
    ensures p.hasOnClick ==> v.role == Some("button")
    ensures v.role.Some? <==> p.hasOnClick
    ensures v.tabIndex.Some? <==> p.hasOnClick
    ensures v.tabIndex.Some? ==> v.tabIndex.value == 0
    ensures v.title != []
    ensures p.tooltip.Some? && p.tooltip.value != "" ==> v.title == p.tooltip.value
    ensures p.tooltip.None? || p.tooltip == Some("") ==> v.title == GetStatusConfig(p.status).description
    ensures v.iconSpin ==> v.iconShown && p.status == Maintenance
    ensures v.iconSpin <==> p.showIcon && p.status == Maintenance && p.animated
    ensures v.caption == GetStatusConfig(p.status).caption
    ensures v.iconPulse ==> v.pulse
  {
    var config := GetStatusConfig(p.status);
    var critical := config.priority == CriticalPriority;
    BadgeView(
      clickable := p.hasOnClick,
      bounce := p.animated && critical,
      pulse := p.pulse || critical,
      role := if p.hasOnClick then Some("button") else None,
      tabIndex := if p.hasOnClick then Some(0) else None,
      title := TitleOf(p.tooltip, config.description),
      caption := config.caption,
      iconShown := p.showIcon,
      iconSpin := p.showIcon && p.status == Maintenance && p.animated,
      iconPulse := p.showIcon && critical)
  }

  /** With default props a badge never bounces and pulses exactly for the two
      statuses of critical priority, which are also the two of priority 4. */
  lemma DefaultBadgeFlags(s: StatusType)
    ensures !RenderBadge(DefaultProps(s)).bounce
    ensures RenderBadge(DefaultProps(s)).pulse <==> GetStatusPriority(s) == 4
    ensures RenderBadge(DefaultProps(s)).role.None?
  {
  }

  // ---------------------------------------------------------------------
  // The status group ordering

  /** One entry of a `StatusGroup`'s `statuses` array. */
  datatype StatusCount = StatusCount(status: StatusType, count: int)

  function Rank(e: StatusCount): nat {
    GetStatusPriority(e.status)
  }

  /** Entries in non-increasing priority. */
  ghost predicate Descending(s: seq<StatusCount>) {
    forall i, j :: 0 <= i < j < |s| ==> Rank(s[i]) >= Rank(s[j])
  }

  /** The entries of priority `p`, in order. */
  function WithRank(s: seq<StatusCount>, p: nat): seq<StatusCount> {
    Filter(RankIs(p), s)
  }

  function RankIs(p: nat): StatusCount -> bool {
    e => Rank(e) == p
  }

  /** Where `x` goes in `s`: after every entry of priority at least its own,
      found by scanning back from the end of `s`. */
  function InsertionPoint(s: seq<StatusCount>, x: StatusCount): (k: nat)
    ensures k <= |s|
  {
    if s == [] then 0
    else if Rank(s[|s| - 1]) < Rank(x) then InsertionPoint(s[..|s| - 1], x)
    else |s|
  }

  function Insert(s: seq<StatusCount>, x: StatusCount): (r: seq<StatusCount>)
    ensures |r| == |s| + 1
  {
    var k := InsertionPoint(s, x);
    s[..k] + [x] + s[k..]
  }

  /** The order `statuses.sort((a, b) => getStatusPriority(b.status) -
      getStatusPriority(a.status))` leaves: the stable sort by descending
      priority, stated as insertion of each entry in turn. */
  function SortByPriority(s: seq<StatusCount>): (r: seq<StatusCount>)
    ensures |r| == |s|
  {
    if s == [] then [] else Insert(SortByPriority(s[..|s| - 1]), s[|s| - 1])
  }

  /** In a descending sequence, the insertion point separates the entries of
      priority at least `x`'s from those of lower priority. */
  lemma {:induction false} InsertionPointSplits(s: seq<StatusCount>, x: StatusCount)
    requires Descending(s)
    ensures forall i :: 0 <= i < InsertionPoint(s, x) ==> Rank(s[i]) >= Rank(x)
    ensures forall i :: InsertionPoint(s, x) <= i < |s| ==> Rank(s[i]) < Rank(x)
    decreases |s|
  {
    if s != [] {
      var n := |s| - 1;
      if Rank(s[n]) < Rank(x) {
        var front := s[..n];
        InsertionPointSplits(front, x);
        assert forall i :: 0 <= i < n ==> front[i] == s[i];
      }
    }
  }

  lemma {:induction false} InsertKeepsDescending(s: seq<StatusCount>, x: StatusCount)
    requires Descending(s)
    ensures Descending(Insert(s, x))
  {
    InsertionPointSplits(s, x);
    var k := InsertionPoint(s, x);
    var r := Insert(s, x);
    assert forall i :: 0 <= i < |r| ==> r[i] == if i < k then s[i] else if i == k then x else s[i - 1];
  }

  /** The priority order holds entries in non-increasing priority. */
  lemma {:induction false} SortIsDescending(s: seq<StatusCount>)
    ensures Descending(SortByPriority(s))
    decreases |s|
  {
    if s != [] {
      SortIsDescending(s[..|s| - 1]);
      InsertKeepsDescending(SortByPriority(s[..|s| - 1]), s[|s| - 1]);
    }
  }

  /** The priority order is a permutation of its input. */
  lemma {:induction false} SortIsPermutation(s: seq<StatusCount>)
    ensures multiset(SortByPriority(s)) == multiset(s)
    decreases |s|
  {
    if s != [] {
      var front, x := s[..|s| - 1], s[|s| - 1];
      SortIsPermutation(front);
      InsertAddsOne(SortByPriority(front), x);
      assert s == front + [x];
    }
  }

  /** Inserting adds `x` and nothing else. */
  lemma {:induction false} InsertAddsOne(t: seq<StatusCount>, x: StatusCount)
    ensures multiset(Insert(t, x)) == multiset(t) + multiset{x}
  {
    var k := InsertionPoint(t, x);
    assert t == t[..k] + t[k..];
  }

  /** In the priority order every critical entry comes before every
      entry that is not critical. */
  lemma CriticalEntriesSortFirst(s: seq<StatusCount>)
    ensures var r := SortByPriority(s);
      forall i, j :: 0 <= i < j < |r| && IsStatusCritical(r[j].status) ==> IsStatusCritical(r[i].status)
  {
    SortIsDescending(s);
  }

  /** In a descending sequence, no entry from the insertion point on has
      `x`'s priority. */
  lemma {:induction false} AfterInsertionPointOutranked(t: seq<StatusCount>, x: StatusCount)
    requires Descending(t)
    ensures WithRank(t[InsertionPoint(t, x)..], Rank(x)) == []
  {
    InsertionPointSplits(t, x);
    var after := t[InsertionPoint(t, x)..];
    assert forall i :: 0 <= i < |after| ==> Rank(after[i]) < Rank(x);
    LowerRanksFilteredOut(after, Rank(x));
  }

  /** No entry of a sequence ranked below `p` has priority `p`. */
  lemma {:induction false} LowerRanksFilteredOut(s: seq<StatusCount>, p: nat)
    requires forall i :: 0 <= i < |s| ==> Rank(s[i]) < p
    ensures WithRank(s, p) == []
  {
    FilterKeepsNone(RankIs(p), s);
  }

  /** Inserting into a descending sequence puts `x` after every entry of
      its own priority. */
  lemma {:induction false} InsertIsStable(t: seq<StatusCount>, x: StatusCount, p: nat)
    requires Descending(t)
    ensures WithRank(Insert(t, x), p) == WithRank(t, p) + WithRank([x], p)
  {
    if Rank(x) == p {
      AfterInsertionPointOutranked(t, x);
    }
    FilterInsertAt(RankIs(p), t, InsertionPoint(t, x), x);
  }

  /** The priority order is stable: the entries of each priority appear in
      the order they had in the input. */
  lemma {:induction false} SortIsStable(s: seq<StatusCount>, p: nat)
    ensures WithRank(SortByPriority(s), p) == WithRank(s, p)
    decreases |s|
  {
    if s != [] {
      var front, x := s[..|s| - 1], s[|s| - 1];
      SortIsStable(front, p);
      SortIsDescending(front);
      InsertIsStable(SortByPriority(front), x, p);
      assert s == front + [x];
      FilterAppend(RankIs(p), front, [x]);
    }
  }

  /** The scan back from the end of `s` stops at `j` when every entry from
      `j` on ranks below `x` and the one before `j`, if any, does not. */
  lemma {:induction false} InsertionPointAt(s: seq<StatusCount>, x: StatusCount, j: nat)
    requires j <= |s|
    requires forall k :: j <= k < |s| ==> Rank(s[k]) < Rank(x)
    requires j == 0 || Rank(s[j - 1]) >= Rank(x)
    ensures InsertionPoint(s, x) == j
    decreases |s|
  {
    if |s| > j {
      var front := s[..|s| - 1];
      assert forall k :: j <= k < |front| ==> front[k] == s[k];
      if j > 0 {
        assert front[j - 1] == s[j - 1];
      }
      InsertionPointAt(front, x, j);
    }
  }

  /** The state the inner loop of `SortStatusGroup` leaves: the entries
      before position `j` kept, `x` at `j`, the rest shifted up by one. */
  lemma ShiftedIsInsert(sorted: seq<StatusCount>, x: StatusCount, j: nat, b: seq<StatusCount>)
    requires j <= |sorted| && |b| == |sorted| + 1
    requires forall k :: 0 <= k < j ==> b[k] == sorted[k]
    requires b[j] == x
    requires forall k :: j < k <= |sorted| ==> b[k] == sorted[k - 1]
    requires forall k :: j <= k < |sorted| ==> Rank(sorted[k]) < Rank(x)
    requires j == 0 || Rank(sorted[j - 1]) >= Rank(x)
    ensures b == Insert(sorted, x)
  {
    InsertionPointAt(sorted, x, j);
    var r := Insert(sorted, x);
    assert r == sorted[..j] + [x] + sorted[j..];
    assert forall k :: 0 <= k < |b| ==> b[k] == r[k];
  }

  lemma SortOneMore(s: seq<StatusCount>, i: nat)
    requires i < |s|
    ensures SortByPriority(s[..i + 1]) == Insert(SortByPriority(s[..i]), s[i])
  {
    assert s[..i + 1][..i] == s[..i];
  }

  /** One pass of the insertion sort: the entry at `i` moves down past
      every entry of lower rank before it, which shift up by one. */
  method InsertEntry(a: array<StatusCount>, i: int)
    requires 0 <= i < a.Length
    modifies a
    ensures a[..i + 1] == Insert(old(a[..i]), old(a[i]))
    ensures forall k :: i < k < a.Length ==> a[k] == old(a[k])
  {
    ghost var sorted := a[..i];
    var x := a[i];
    var j := i;
    while j > 0 && Rank(a[j - 1]) < Rank(x)
      invariant 0 <= j <= i
      invariant forall k :: 0 <= k < j ==> a[k] == sorted[k]
      invariant forall k :: j < k <= i ==> a[k] == sorted[k - 1]
      invariant forall k :: i < k < a.Length ==> a[k] == old(a[k])
      invariant forall k :: j <= k < i ==> Rank(sorted[k]) < Rank(x)
    {
      a[j] := a[j - 1];
      j := j - 1;
    }
    a[j] := x;
    ShiftedIsInsert(sorted, x, j, a[..i + 1]);
  }

  /** `StatusGroup`'s `statuses.sort(...)`: sorts the caller's array in place. */
  method SortStatusGroup(a: array<StatusCount>)
    modifies a
    ensures a[..] == SortByPriority(old(a[..]))
  {
    ghost var s0 := a[..];
    var i := 0;
    while i < a.Length
      invariant 0 <= i <= a.Length
      invariant a[..i] == SortByPriority(s0[..i])
      invariant forall k :: i <= k < a.Length ==> a[k] == s0[k]
    {
      InsertEntry(a, i);
      SortOneMore(s0, i);
      i := i + 1;
    }
    assert a[..] == a[..a.Length] && s0 == s0[..a.Length];
  }
}
