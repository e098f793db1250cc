/** The systems status page: the list of infrastructure components, the two
    update-by-id operations its switches and buttons call, the per-status
    counts shown in the header, and the status changes the buttons offer. */
module Systems {
  import opened Seqs

  datatype ComponentType = Signal | Track | Power | Communication

  datatype ComponentStatus = Active | Maintenance | Error | Offline

  /** `SystemComponent`. */
  datatype SystemComponent = SystemComponent(
    id: string,
    name: string,
    kind: ComponentType,
    status: ComponentStatus,
    location: string,
    lastCheck: string,
    autoMode: bool)

  /** The `lastCheck` stamp a status change writes. */
  const JustNow := "Just now"

  // ------------------------------------------------------------- updates

  function Toggle(c: SystemComponent, id: string): SystemComponent {
    if c.id == id then c.(autoMode := !c.autoMode) else c
  }

  /** The list `toggleAutoMode(id)` builds: `autoMode` flips on exactly the
      components with that id; every other field of every component, the
      length and the order stay as they were. */
  function AutoModeToggled(comps: seq<SystemComponent>, id: string): (r: seq<SystemComponent>)
    ensures |r| == |comps|
    ensures forall i :: 0 <= i < |r| ==> (r[i].autoMode != comps[i].autoMode <==> comps[i].id == id)
    ensures forall i :: 0 <= i < |r| ==> r[i].(autoMode := comps[i].autoMode) == comps[i]
  {
    seq(|comps|, i requires 0 <= i < |comps| => Toggle(comps[i], id))
  }

  function Restamp(c: SystemComponent, id: string, s: ComponentStatus): SystemComponent {
    if c.id == id then c.(status := s, lastCheck := JustNow) else c
  }

  /** The list `changeComponentStatus(id, s)` builds: the components with
      that id get status `s` and the stamp `Just now`; the others are kept
      as they were, and no component changes any other field. */
  function StatusChanged(comps: seq<SystemComponent>, id: string, s: ComponentStatus): (r: seq<SystemComponent>)
    ensures |r| == |comps|
    ensures forall i :: 0 <= i < |r| && comps[i].id == id ==> r[i].status == s && r[i].lastCheck == JustNow
    ensures forall i :: 0 <= i < |r| && comps[i].id != id ==> r[i] == comps[i]
    ensures forall i :: 0 <= i < |r| ==> r[i].(status := comps[i].status, lastCheck := comps[i].lastCheck) == comps[i]
  {
    seq(|comps|, i requires 0 <= i < |comps| => Restamp(comps[i], id, s))
  }

  /** Toggling the same id twice gives back the original list. */
  lemma ToggleTwiceRestores(comps: seq<SystemComponent>, id: string)
    ensures AutoModeToggled(AutoModeToggled(comps, id), id) == comps
  {
    var once := AutoModeToggled(comps, id);
    var twice := AutoModeToggled(once, id);
    forall i | 0 <= i < |comps|
      ensures twice[i] == comps[i]
    {
      assert once[i].id == comps[i].id;
    }
  }

  /** Changing the status of the same id twice in a row is the same as the
      second change alone. */
  lemma LastStatusChangeWins(comps: seq<SystemComponent>, id: string, s: ComponentStatus, t: ComponentStatus)
    ensures StatusChanged(StatusChanged(comps, id, s), id, t) == StatusChanged(comps, id, t)
  {
    var once := StatusChanged(comps, id, s);
    forall i | 0 <= i < |comps|
      ensures StatusChanged(once, id, t)[i] == StatusChanged(comps, id, t)[i]
    {
      assert once[i].id == comps[i].id;
    }
  }

  /** An id that names no component leaves the list unchanged under both updates. */
  lemma UnknownIdChangesNothing(comps: seq<SystemComponent>, id: string, s: ComponentStatus)
    requires forall c :: c in comps ==> c.id != id
    ensures AutoModeToggled(comps, id) == comps
    ensures StatusChanged(comps, id, s) == comps
  {
    forall i | 0 <= i < |comps|
      ensures AutoModeToggled(comps, id)[i] == comps[i]
    {
      assert comps[i] in comps;
    }
  }

  // -------------------------------------------------------------- counts

  /** The number of components with status `st`. */
  function Count(comps: seq<SystemComponent>, st: ComponentStatus): (n: nat)
    ensures n <= |comps|
  {
    if comps == [] then 0
    else Count(comps[..|comps| - 1], st) + (if comps[|comps| - 1].status == st then 1 else 0)
  }

  /** Some component has status `st` exactly when its count is positive. */
  lemma {:induction false} CountPositive(comps: seq<SystemComponent>, st: ComponentStatus)
    ensures Count(comps, st) > 0 <==> exists i :: 0 <= i < |comps| && comps[i].status == st
    decreases |comps|
  {
    if comps != [] {
      var front := comps[..|comps| - 1];
      CountPositive(front, st);
      if exists i :: 0 <= i < |front| && front[i].status == st {
        var i :| 0 <= i < |front| && front[i].status == st;
        assert comps[i] == front[i];
      }
      if exists i :: 0 <= i < |comps| && comps[i].status == st {
        var i :| 0 <= i < |comps| && comps[i].status == st;
        if i < |front| {
          assert front[i] == comps[i];
        }
      }
    }
  }

  /** Every component is counted under exactly one status. */
  lemma {:induction false} CountsSumToLength(comps: seq<SystemComponent>)
    ensures Count(comps, Active) + Count(comps, Maintenance) + Count(comps, Error) + Count(comps, Offline) == |comps|
    decreases |comps|
  {
    if comps != [] {
      CountsSumToLength(comps[..|comps| - 1]);
    }
  }

  /** `statusCounts`: the `reduce` that adds one to the entry of each
      component's status, starting from an empty record. A status no
      component has gets no entry. */
  method StatusCounts(comps: seq<SystemComponent>) returns (acc: map<ComponentStatus, nat>)
    ensures forall st :: st in acc <==> Count(comps, st) > 0
    ensures forall st :: st in acc ==> acc[st] == Count(comps, st)
    ensures forall st :: Displayed(acc, st) == Count(comps, st)
    ensures ErrorBadgeShown(acc) <==> exists i :: 0 <= i < |comps| && comps[i].status == Error
  {
    acc := map[];
    var i := 0;
    while i < |comps|
      invariant 0 <= i <= |comps|
      invariant forall st :: st in acc <==> Count(comps[..i], st) > 0
      invariant forall st :: st in acc ==> acc[st] == Count(comps[..i], st)
    {
      var st := comps[i].status;
      var previous := if st in acc then acc[st] else 0;
      acc := acc[st := previous + 1];
      assert comps[..i + 1][..i] == comps[..i];
      i := i + 1;
    }
    assert comps[..|comps|] == comps;
    CountPositive(comps, Error);
  }

  /** `statusCounts.x || 0`: a missing entry shows as 0. */
  function Displayed(acc: map<ComponentStatus, nat>, st: ComponentStatus): nat {
    if st in acc then acc[st] else 0
  }

  /** `statusCounts.error > 0`: a missing entry is not greater than 0. */
  predicate ErrorBadgeShown(acc: map<ComponentStatus, nat>) {
    Error in acc && acc[Error] > 0
  }

  // ------------------------------------------------------------- actions

  /** The status-changing buttons of a component card. */
  datatype ComponentAction = MarkActive | ScheduleMaintenance | Reset

  /** The button a card shows for its component's status; `offline` has none. */
  function ActionFor(s: ComponentStatus): (a: Option<ComponentAction>)
    ensures a.None? <==> s == Offline
    ensures a.Some? ==> Target(a.value) != s
  {
    match s
    case Maintenance => Some(MarkActive)
    case Active => Some(ScheduleMaintenance)
    case Error => Some(Reset)
    case Offline => None
  }

  /** The status each button passes to `changeComponentStatus`. */
  function Target(a: ComponentAction): (s: ComponentStatus)
    ensures s != Error && s != Offline
  {
    match a
    case MarkActive => Active
    case ScheduleMaintenance => Maintenance
    case Reset => Active
  }

  /** A card in status `from` offers a button that sets status `to`. */
  predicate Offered(from: ComponentStatus, to: ComponentStatus) {
    ActionFor(from).Some? && Target(ActionFor(from).value) == to
  }

  /** The buttons offer exactly three transitions: maintenance to active,
      active to maintenance and error to active. */
  lemma OfferedTransitions(from: ComponentStatus, to: ComponentStatus)
    ensures Offered(from, to) <==>
      || (from == Maintenance && to == Active)
      || (from == Active && to == Maintenance)
      || (from == Error && to == Active)
  {
  }

  /** If, position by position, a component of `r` has status `st` only when
      the one of `comps` did, `r` has no more components with status `st`. */
  lemma {:induction false} CountDoesNotGrow(comps: seq<SystemComponent>, r: seq<SystemComponent>, st: ComponentStatus)
    requires |r| == |comps|
    requires forall i :: 0 <= i < |r| && r[i].status == st ==> comps[i].status == st
    ensures Count(r, st) <= Count(comps, st)
    decreases |comps|
  {
    if comps != [] {
      var n := |comps| - 1;
      CountDoesNotGrow(comps[..n], r[..n], st);
    }
  }

  /** Pressing a card's button never adds a component in error or offline. */
  lemma PressAddsNoErrorOrOffline(comps: seq<SystemComponent>, i: int)
    requires 0 <= i < |comps| && ActionFor(comps[i].status).Some?
    ensures var r := StatusChanged(comps, comps[i].id, Target(ActionFor(comps[i].status).value));
      Count(r, Error) <= Count(comps, Error) && Count(r, Offline) <= Count(comps, Offline)
  {
    var r := StatusChanged(comps, comps[i].id, Target(ActionFor(comps[i].status).value));
    CountDoesNotGrow(comps, r, Error);
    CountDoesNotGrow(comps, r, Offline);
  }

  // ---------------------------------------------------------- page state

  /** The page's `components` state. */
  class SystemsPage {
    var components: seq<SystemComponent>

    constructor(initial: seq<SystemComponent>)
      ensures components == initial
    {
      components := initial;
    }

    /** `toggleAutoMode`: the auto-mode switch of a card. */
    method ToggleAutoMode(id: string)
      modifies this
      ensures components == AutoModeToggled(old(components), id)
    {
      components := AutoModeToggled(components, id);
    }

    /** `changeComponentStatus`. */
    method ChangeComponentStatus(id: string, s: ComponentStatus)
      modifies this
      ensures components == StatusChanged(old(components), id, s)
    {
      components := StatusChanged(components, id, s);
    }

    /** Confirming the button of the card at position `i`. */
    method PressAction(i: int)
      requires 0 <= i < |components| && ActionFor(components[i].status).Some?
      modifies this
      ensures components == StatusChanged(old(components), old(components[i].id), Target(ActionFor(old(components[i].status)).value))
      ensures Count(components, Error) <= old(Count(components, Error))
      ensures Count(components, Offline) <= old(Count(components, Offline))
    {
      PressAddsNoErrorOrOffline(components, i);
      var c := components[i];
      ChangeComponentStatus(c.id, Target(ActionFor(c.status).value));
    }
  }
}
