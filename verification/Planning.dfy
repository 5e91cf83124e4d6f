/** Building a plan: a prediction of what applying it will do, and how far it can be trusted. */
module Planning {
  import opened Common
  import opened FleetModel
  import opened Fleet
  import FleetRuns

  /* ---- The clock of a plan ---- */

  /** A state without timestamps is planned at the epoch. */
  const FLOOR := 0

  function AssignmentStamps(a: Assignment): (r: seq<int>) {
    [a.issuedAt] + if a.releasedAt.Some? then [a.releasedAt.value] else []
  }

  function DrainStamps(d: Drain): (r: seq<int>) {
    [d.requestedAt] + (if d.completedAt.Some? then [d.completedAt.value] else []) + if d.endedAt.Some? then [d.endedAt.value] else []
  }

  function RolloutStamps(r: Rollout): (stamps: seq<int>) {
    [r.startedAt]
  }

  function Flatten<T>(items: seq<T>, stamps: T -> seq<int>): (r: seq<int>) {
    if items == [] then [] else stamps(items[0]) + Flatten(items[1..], stamps)
  }

  /** Every timestamp a state carries. */
  function Stamps(s: DesiredState): (r: seq<int>) {
    Flatten(s.assignments, AssignmentStamps) + Flatten(s.drains, DrainStamps) + Flatten(s.rollouts, RolloutStamps)
  }

  function Latest(stamps: seq<int>): (at: int)
    requires stamps != []
    ensures at in stamps && forall x :: x in stamps ==> x <= at
  {
    var n := |stamps| - 1;
    if n == 0 then stamps[0]
    else
      var before := Latest(stamps[..n]);
      assert stamps == stamps[..n] + [stamps[n]];
      if before < stamps[n] then stamps[n] else before
  }

  /** The newest instant the state carries, so that nothing is planned before the work it acts on. */
  function PlanClock(s: DesiredState): (at: int) {
    if Stamps(s) == [] then FLOOR else Latest(Stamps(s))
  }

  lemma {:induction false} FlattenHolds<T>(items: seq<T>, stamps: T -> seq<int>, k: nat, x: int)
    requires k < |items| && x in stamps(items[k])
    ensures x in Flatten(items, stamps)
  {
    if k > 0 {
      FlattenHolds(items[1..], stamps, k - 1, x);
    }
  }

  /** A time stamp of the state: of an assignment, a drain or a rollout. */
  ghost predicate Stamped(s: DesiredState, x: int) {
    || (exists i :: 0 <= i < |s.assignments| && (s.assignments[i].issuedAt == x || s.assignments[i].releasedAt == Some(x)))
    || (exists i :: 0 <= i < |s.drains| && (s.drains[i].requestedAt == x || s.drains[i].completedAt == Some(x) || s.drains[i].endedAt == Some(x)))
    || (exists i :: 0 <= i < |s.rollouts| && s.rollouts[i].startedAt == x)
  }

  lemma {:induction false} FlattenFrom<T>(items: seq<T>, stamps: T -> seq<int>, x: int) returns (k: nat)
    requires x in Flatten(items, stamps)
    ensures k < |items| && x in stamps(items[k])
  {
    if x in stamps(items[0]) {
      k := 0;
    } else {
      k := FlattenFrom(items[1..], stamps, x);
      k := k + 1;
    }
  }

  lemma {:induction false} StampsIff(s: DesiredState, x: int)
    ensures x in Stamps(s) <==> Stamped(s, x)
  {
    if x in Flatten(s.assignments, AssignmentStamps) {
      var k := FlattenFrom(s.assignments, AssignmentStamps, x);
    }
    if x in Flatten(s.drains, DrainStamps) {
      var k := FlattenFrom(s.drains, DrainStamps, x);
    }
    if x in Flatten(s.rollouts, RolloutStamps) {
      var k := FlattenFrom(s.rollouts, RolloutStamps, x);
    }
    forall i | 0 <= i < |s.assignments| && (s.assignments[i].issuedAt == x || s.assignments[i].releasedAt == Some(x)) ensures x in Stamps(s) {
      FlattenHolds(s.assignments, AssignmentStamps, i, x);
    }
    forall i | 0 <= i < |s.drains| && (s.drains[i].requestedAt == x || s.drains[i].completedAt == Some(x) || s.drains[i].endedAt == Some(x))
      ensures x in Stamps(s)
    {
      FlattenHolds(s.drains, DrainStamps, i, x);
    }
    forall i | 0 <= i < |s.rollouts| && s.rollouts[i].startedAt == x ensures x in Stamps(s) {
      FlattenHolds(s.rollouts, RolloutStamps, i, x);
    }
  }

  /** The clock of a plan is the newest time stamp the state carries, or the epoch when it carries none. */
  lemma {:induction false} ClockIsNewest(s: DesiredState)
    ensures (exists x :: Stamped(s, x)) ==> Stamped(s, PlanClock(s)) && forall x :: Stamped(s, x) ==> x <= PlanClock(s)
    ensures !(exists x :: Stamped(s, x)) ==> PlanClock(s) == 0
  {
    forall x ensures x in Stamps(s) <==> Stamped(s, x) {
      StampsIff(s, x);
    }
    if Stamps(s) != [] {
      assert Stamps(s)[0] in Stamps(s);
    }
  }

  lemma {:induction false} ClockIsLate(s: DesiredState, k: nat)
    requires k < |s.assignments|
    ensures s.assignments[k].issuedAt <= PlanClock(s)
  {
    FlattenHolds(s.assignments, AssignmentStamps, k, s.assignments[k].issuedAt);
    assert s.assignments[k].issuedAt in Stamps(s);
  }

  /* ---- Building ---- */

  /** A host's free slots before the first change that touches it and after the last one. */
  datatype Impact = Impact(before: int, after: int)

  datatype Building = Accepted(plan: Plan, impacts: map<string, Impact>) | NoChanges | NotPossible(index: nat) | Malformed(index: nat)

  /** How far planning has come. */
  datatype Draft = Draft(state: DesiredState, impacts: map<string, Impact>) | Rejected(index: nat, malformed: bool)

  /** A host that is not known, or over its slots, has nothing free. */
  function Free(s: DesiredState, host: string): (n: int) {
    var h := FindHost(s.hosts, host);
    if h == |s.hosts| || InUse(s.assignments, host) > s.hosts[h].slots then 0 else s.hosts[h].slots - InUse(s.assignments, host)
  }

  /** The host a change is about; a rollout moves an image, not a slot. */
  function Touches(s: DesiredState, c: Change): (host: Option<string>) {
    match c.kind
    case Assign => if "host_id" in c.parameters then Some(c.parameters["host_id"]) else None
    case Release =>
      var k := FindAssignment(s.assignments, c.subject);
      if k < |s.assignments| then Some(s.assignments[k].hostId) else None
    case RollOut => None
    case _ => Some(c.subject)
  }

  function Record(impacts: map<string, Impact>, host: Option<string>, before: DesiredState, after: DesiredState): (r: map<string, Impact>) {
    if host.None? then impacts
    else
      var h := host.value;
      impacts[h := Impact(if h in impacts then impacts[h].before else Free(before, h), Free(after, h))]
  }

  function DraftOf(s: DesiredState, changes: seq<Change>): (d: Draft) {
    if changes == [] then Draft(s, map[])
    else
      var n := |changes| - 1;
      match DraftOf(s, changes[..n])
      case Draft(mid, impacts) => Extended(mid, impacts, n, changes[n], Simulate(mid, changes[n], PlanClock(mid)))
      case other => other
  }

  /** A draft and what became of its next change. */
  function Extended(mid: DesiredState, impacts: map<string, Impact>, n: nat, c: Change, following: Result): (d: Draft) {
    match following
    case Ok(next) => Draft(next, Record(impacts, Touches(mid, c), mid, next))
    case ModelError => Rejected(n, false)
    case PlanError => Rejected(n, true)
  }

  /** What planning these changes against this state answers. */
  function Build(s: DesiredState, changes: seq<Change>): (b: Building) {
    if changes == [] then NoChanges
    else
      match DraftOf(s, changes)
      case Rejected(i, malformed) => if malformed then Malformed(i) else NotPossible(i)
      case Draft(_, impacts) => Accepted(Plan(s.revision, changes, s.revision + |changes|), impacts)
  }

  lemma {:induction false} DraftEnds(s: DesiredState, changes: seq<Change>, n: nat)
    requires n <= |changes| && !DraftOf(s, changes[..n]).Draft?
    ensures DraftOf(s, changes) == DraftOf(s, changes[..n])
  {
    if n < |changes| {
      assert changes[..|changes| - 1][..n] == changes[..n];
      DraftEnds(s, changes[..|changes| - 1], n);
    } else {
      assert changes[..n] == changes;
    }
  }

  lemma {:induction false} DraftNext(s: DesiredState, changes: seq<Change>, i: nat, working: DesiredState, impacts: map<string, Impact>)
    requires i < |changes| && DraftOf(s, changes[..i]) == Draft(working, impacts)
    ensures DraftOf(s, changes[..i + 1]) == Extended(working, impacts, i, changes[i], Simulate(working, changes[i], PlanClock(working)))
  {
    assert changes[..i + 1][..i] == changes[..i];
  }

  /** The two dictionaries a planner keeps, read as one. */
  ghost predicate Recorded(before: map<string, int>, after: map<string, int>, impacts: map<string, Impact>) {
    && before.Keys == impacts.Keys && after.Keys == impacts.Keys
    && forall h :: h in impacts ==> impacts[h] == Impact(before[h], after[h])
  }

  function SetDefault(m: map<string, int>, key: string, value: int): (m': map<string, int>) {
    if key in m then m else m[key := value]
  }

  lemma {:induction false} RecordedNext(
    before: map<string, int>, after: map<string, int>, impacts: map<string, Impact>, h: string, s: DesiredState, t: DesiredState)
    requires Recorded(before, after, impacts)
    ensures Recorded(SetDefault(before, h, Free(s, h)), after[h := Free(t, h)], Record(impacts, Some(h), s, t))
  {
  }

  /** The impacts as they are reported. */
  function Table(before: map<string, int>, after: map<string, int>): (r: map<string, Impact>)
    requires before.Keys == after.Keys
  {
    map h | h in before :: Impact(before[h], after[h])
  }

  lemma {:induction false} TableIsRecord(before: map<string, int>, after: map<string, int>, impacts: map<string, Impact>)
    requires Recorded(before, after, impacts)
    ensures Table(before, after) == impacts
  {
  }

  method BuildPlan(s: DesiredState, changes: seq<Change>) returns (b: Building)
    ensures b == Build(s, changes)
  {
    if changes == [] {
      return NoChanges;
    }
    var working := s;
    var firstBefore: map<string, int>, lastAfter: map<string, int> := map[], map[];
    ghost var impacts: map<string, Impact> := map[];
    for i := 0 to |changes|
      invariant DraftOf(s, changes[..i]) == Draft(working, impacts)
      invariant Recorded(firstBefore, lastAfter, impacts)
    {
      var following := Simulate(working, changes[i], PlanClock(working));
      DraftNext(s, changes, i, working, impacts);
      if !following.Ok? {
        DraftEnds(s, changes, i + 1);
        return if following.ModelError? then NotPossible(i) else Malformed(i);
      }
      var host := Touches(working, changes[i]);
      if host.Some? {
        RecordedNext(firstBefore, lastAfter, impacts, host.value, working, following.state);
        firstBefore := SetDefault(firstBefore, host.value, Free(working, host.value));
        lastAfter := lastAfter[host.value := Free(following.state, host.value)];
      }
      impacts := Record(impacts, host, working, following.state);
      working := following.state;
    }
    assert changes[..|changes|] == changes;
    TableIsRecord(firstBefore, lastAfter, impacts);
    return Accepted(Plan(s.revision, changes, s.revision + |changes|), Table(firstBefore, lastAfter));
  }

  /* ---- States that differ in their timestamps only ---- */

  predicate TwinAssignments(a: Assignment, b: Assignment) {
    && a.assignmentId == b.assignmentId && a.requestId == b.requestId && a.poolId == b.poolId && a.hostId == b.hostId
    && (a.releasedAt.Some? <==> b.releasedAt.Some?)
  }

  predicate TwinDrains(a: Drain, b: Drain) {
    a.hostId == b.hostId && a.reason == b.reason && a.state == b.state
  }

  predicate TwinRollouts(a: Rollout, b: Rollout) {
    a.rolloutId == b.rolloutId && a.poolId == b.poolId && a.fromImage == b.fromImage && a.toImage == b.toImage
  }

  predicate SameAssignments(a: seq<Assignment>, b: seq<Assignment>) {
    |a| == |b| && forall i :: 0 <= i < |a| ==> TwinAssignments(a[i], b[i])
  }

  predicate SameDrains(a: seq<Drain>, b: seq<Drain>) {
    |a| == |b| && forall i :: 0 <= i < |a| ==> TwinDrains(a[i], b[i])
  }

  predicate SameRollouts(a: seq<Rollout>, b: seq<Rollout>) {
    |a| == |b| && forall i :: 0 <= i < |a| ==> TwinRollouts(a[i], b[i])
  }

  /** The same world but for when things happened. */
  predicate Twins(s: DesiredState, t: DesiredState) {
    && s.revision == t.revision && s.pools == t.pools && s.hosts == t.hosts
    && SameAssignments(s.assignments, t.assignments) && SameDrains(s.drains, t.drains) && SameRollouts(s.rollouts, t.rollouts)
  }

  lemma {:induction false} SameInUse(a: seq<Assignment>, b: seq<Assignment>, host: string)
    requires SameAssignments(a, b)
    ensures InUse(a, host) == InUse(b, host)
  {
    if a != [] {
      var n := |a| - 1;
      assert TwinAssignments(a[n], b[n]);
      SameInUse(a[..n], b[..n], host);
    }
  }

  lemma {:induction false} SameFind(a: seq<Assignment>, b: seq<Assignment>, id: string)
    requires SameAssignments(a, b)
    ensures FindAssignment(a, id) == FindAssignment(b, id)
  {
    var i, j := FindAssignment(a, id), FindAssignment(b, id);
    if i < |a| {
      assert TwinAssignments(a[i], b[i]);
    }
    if j < |a| {
      assert TwinAssignments(a[j], b[j]);
    }
  }

  lemma {:induction false} SameFree(s: DesiredState, t: DesiredState, host: string)
    requires Twins(s, t)
    ensures Free(s, host) == Free(t, host)
  {
    SameInUse(s.assignments, t.assignments, host);
  }

  lemma {:induction false} TwinAssign(s: DesiredState, t: DesiredState, assignmentId: string, requestId: string, poolId: string, hostId: string, a: int, b: int)
    requires Twins(s, t) && WithAssignment(s, assignmentId, requestId, poolId, hostId, a).Ok?
    ensures var r := WithAssignment(t, assignmentId, requestId, poolId, hostId, b);
            r.Ok? && Twins(WithAssignment(s, assignmentId, requestId, poolId, hostId, a).state, r.state)
  {
    SameInUse(s.assignments, t.assignments, hostId);
    SameFind(s.assignments, t.assignments, assignmentId);
  }

  /** Only a release looks at the time. */
  lemma {:induction false} TwinRelease(s: DesiredState, t: DesiredState, assignmentId: string, a: int, b: int)
    requires Twins(s, t) && WithRelease(s, assignmentId, a).Ok?
    ensures var k, r := FindAssignment(t.assignments, assignmentId), WithRelease(t, assignmentId, b);
            && k < |t.assignments|
            && if b < t.assignments[k].issuedAt then r.ModelError? else r.Ok? && Twins(WithRelease(s, assignmentId, a).state, r.state)
  {
    SameFind(s.assignments, t.assignments, assignmentId);
    var k := FindAssignment(t.assignments, assignmentId);
    assert TwinAssignments(s.assignments[k], t.assignments[k]);
  }

  lemma {:induction false} TwinSettle(s: seq<Drain>, t: seq<Drain>, host: string, from: DrainState, a: int, b: int)
    requires SameDrains(s, t)
    ensures SameDrains(SettleDrains(s, host, from, a), SettleDrains(t, host, from, b))
  {
    var s', t' := SettleDrains(s, host, from, a), SettleDrains(t, host, from, b);
    forall i | 0 <= i < |s'| ensures TwinDrains(s'[i], t'[i]) {
      assert TwinDrains(s[i], t[i]);
    }
  }

  lemma {:induction false} TwinRollout(s: DesiredState, t: DesiredState, rolloutId: string, poolId: string, toImage: string, a: int, b: int)
    requires Twins(s, t) && WithRollout(s, rolloutId, poolId, toImage, a).Ok?
    ensures var r := WithRollout(t, rolloutId, poolId, toImage, b);
            r.Ok? && Twins(WithRollout(s, rolloutId, poolId, toImage, a).state, r.state)
  {
    forall i | 0 <= i < |t.rollouts| ensures t.rollouts[i].rolloutId != rolloutId {
      assert TwinRollouts(s.rollouts[i], t.rollouts[i]);
    }
  }

  /** A release of an assignment that is issued after `at`. */
  predicate TooEarly(s: DesiredState, c: Change, at: int) {
    && c.kind.Release?
    && var k := FindAssignment(s.assignments, c.subject);
    && k < |s.assignments| && at < s.assignments[k].issuedAt
  }

  /** What is possible in one world is possible in its twin at any other time, unless it is a release that comes too early there. */
  lemma {:induction false} TwinStep(s: DesiredState, t: DesiredState, c: Change, a: int, b: int)
    requires Twins(s, t) && Simulate(s, c, a).Ok?
    ensures var r := Simulate(t, c, b);
            if TooEarly(t, c, b) then r.ModelError? else r.Ok? && Twins(Simulate(s, c, a).state, r.state)
  {
    var p := c.parameters;
    match c.kind
    case Assign => TwinAssign(s, t, p["assignment_id"], p["request_id"], p["pool_id"], p["host_id"], a, b);
    case Release => TwinRelease(s, t, c.subject, a, b);
    case DrainHost =>
    case CompleteDrain =>
      SameInUse(s.assignments, t.assignments, c.subject);
      TwinSettle(s.drains, t.drains, c.subject, DrainOpen, a, b);
    case ReturnToService => TwinSettle(s.drains, t.drains, c.subject, DrainDone, a, b);
    case RollOut => TwinRollout(s, t, p["rollout_id"], c.subject, p["to_image_digest"], a, b);
  }

  /* ---- A plan as a prediction ---- */

  /** `t` came from `s` by changes made at `at`: old assignments keep their issue times, new ones have this one. */
  predicate Dated(s: seq<Assignment>, t: seq<Assignment>, at: int) {
    && |s| <= |t|
    && (forall k :: 0 <= k < |s| ==> t[k].assignmentId == s[k].assignmentId && t[k].issuedAt == s[k].issuedAt)
    && (forall k :: |s| <= k < |t| ==> t[k].issuedAt == at)
  }

  lemma {:induction false} DatedAppend(s: seq<Assignment>, t: seq<Assignment>, at: int, a: Assignment)
    requires Dated(s, t, at) && a.issuedAt == at
    ensures Dated(s, t + [a], at)
  {
  }

  lemma {:induction false} DatedRelease(s: seq<Assignment>, t: seq<Assignment>, at: int, k: nat)
    requires Dated(s, t, at) && k < |t|
    ensures Dated(s, t[k := t[k].(releasedAt := Some(at))], at)
  {
  }

  lemma {:induction false} DatedStep(s: seq<Assignment>, t: DesiredState, c: Change, at: int)
    requires Dated(s, t.assignments, at) && Simulate(t, c, at).Ok?
    ensures Dated(s, Simulate(t, c, at).state.assignments, at)
  {
    if c.kind.Assign? {
      var p := c.parameters;
      DatedAppend(s, t.assignments, at, Assignment(p["assignment_id"], p["request_id"], p["pool_id"], p["host_id"], at, None));
    } else if c.kind.Release? {
      DatedRelease(s, t.assignments, at, FindAssignment(t.assignments, c.subject));
    }
  }

  /** Within one plan, what is too early was too early from the start. */
  lemma {:induction false} EarlyFromTheStart(s: DesiredState, t: DesiredState, c: Change, at: int)
    requires Dated(s.assignments, t.assignments, at)
    ensures TooEarly(t, c, at) <==> TooEarly(s, c, at)
  {
    var i, j := FindAssignment(s.assignments, c.subject), FindAssignment(t.assignments, c.subject);
    if i < |s.assignments| {
      assert t.assignments[i].assignmentId == c.subject;
      assert j <= i;
    }
    if j < |s.assignments| {
      assert s.assignments[j].assignmentId == c.subject;
      assert i <= j;
    }
  }

  /** The first change that releases something issued after `at`. */
  function FirstEarly(s: DesiredState, changes: seq<Change>, at: int): (k: nat)
    ensures k <= |changes| && (k < |changes| ==> TooEarly(s, changes[k], at))
    ensures forall j :: 0 <= j < k ==> !TooEarly(s, changes[j], at)
  {
    IndexOf(changes, (c: Change) => TooEarly(s, c, at))
  }

  lemma {:induction false} FirstEarlyPrefix(s: DesiredState, changes: seq<Change>, at: int, n: nat)
    requires n == |changes| - 1
    ensures FirstEarly(s, changes, at) ==
            if FirstEarly(s, changes[..n], at) < n then FirstEarly(s, changes[..n], at)
            else if TooEarly(s, changes[n], at) then n else n + 1
  {
    var i, j := FirstEarly(s, changes, at), FirstEarly(s, changes[..n], at);
    if i < n {
      assert changes[..n][i] == changes[i];
    }
    if j < n {
      assert changes[..n][j] == changes[j];
    }
    assert forall k :: 0 <= k < j ==> changes[k] == changes[..n][k];
  }

  /** What an accepted plan does at another time: everything but the timestamps as planned, or it halts at the first release that comes too early. */
  ghost predicate AsPlanned(s: DesiredState, changes: seq<Change>, planned: DesiredState, at: int, p: Progress) {
    var k := FirstEarly(s, changes, at);
    if k < |changes| then p == Stuck(k) else p.Reached? && Twins(planned, p.state) && Dated(s.assignments, p.state.assignments, at)
  }

  lemma {:induction false} Foretold(s: DesiredState, changes: seq<Change>, at: int)
    requires DraftOf(s, changes).Draft?
    ensures AsPlanned(s, changes, DraftOf(s, changes).state, at, Advance(Simulate, s, changes, at))
  {
    if changes != [] {
      var n := |changes| - 1;
      Foretold(s, changes[..n], at);
      FirstEarlyPrefix(s, changes, at, n);
      var p := Advance(Simulate, s, changes[..n], at);
      if p.Reached? {
        var mid := DraftOf(s, changes[..n]).state;
        TwinStep(mid, p.state, changes[n], PlanClock(mid), at);
        EarlyFromTheStart(s, p.state, changes[n], at);
        if !TooEarly(s, changes[n], at) {
          DatedStep(s.assignments, p.state, changes[n], at);
        }
      }
    }
  }

  /** Whatever could be applied at some moment can be planned. */
  lemma {:induction false} PossibleIsPlanned(s: DesiredState, changes: seq<Change>, at: int)
    requires Advance(Simulate, s, changes, at).Reached?
    ensures var d := DraftOf(s, changes); d.Draft? && Twins(Advance(Simulate, s, changes, at).state, d.state)
  {
    if changes != [] {
      var n := |changes| - 1;
      PossibleIsPlanned(s, changes[..n], at);
      var t, mid := Advance(Simulate, s, changes[..n], at).state, DraftOf(s, changes[..n]).state;
      TwinStep(t, mid, changes[n], at, PlanClock(mid));
      if TooEarly(mid, changes[n], PlanClock(mid)) {
        ClockIsLate(mid, FindAssignment(mid.assignments, changes[n].subject));
      }
    }
  }

  /** Planning accepts exactly the changes that could be applied at some moment, and the state's own clock is such a moment. */
  lemma {:induction false} PlannedIffPossible(s: DesiredState, changes: seq<Change>)
    ensures Build(s, changes).Accepted? <==> changes != [] && exists at :: Advance(Simulate, s, changes, at).Reached?
    ensures Build(s, changes).Accepted? <==> changes != [] && Advance(Simulate, s, changes, PlanClock(s)).Reached?
  {
    if at :| Advance(Simulate, s, changes, at).Reached? {
      PossibleIsPlanned(s, changes, at);
    }
    if DraftOf(s, changes).Draft? {
      var k := FirstEarly(s, changes, PlanClock(s));
      Foretold(s, changes, PlanClock(s));
      if k < |changes| {
        ClockIsLate(s, FindAssignment(s.assignments, changes[k].subject));
      }
    }
  }

  /* ---- The capacity a plan promises ---- */

  predicate SameSlots(a: seq<Host>, b: seq<Host>) {
    |a| == |b| && forall i :: 0 <= i < |a| ==> a[i].hostId == b[i].hostId && a[i].slots == b[i].slots
  }

  lemma {:induction false} FreeDependsOn(s: DesiredState, s': DesiredState, host: string)
    requires SameSlots(s.hosts, s'.hosts) && InUse(s'.assignments, host) == InUse(s.assignments, host)
    ensures Free(s', host) == Free(s, host)
  {
    var i, j := FindHost(s.hosts, host), FindHost(s'.hosts, host);
    if i < |s.hosts| {
      assert s'.hosts[i].hostId == host;
    }
    if j < |s.hosts| {
      assert s.hosts[j].hostId == host;
    }
  }

  lemma {:induction false} OtherUse(s: DesiredState, c: Change, at: int, host: string)
    requires Simulate(s, c, at).Ok? && Touches(s, c) != Some(host)
    ensures InUse(Simulate(s, c, at).state.assignments, host) == InUse(s.assignments, host)
  {
    if c.kind.Assign? {
      InUseAppend(s.assignments, Simulate(s, c, at).state.assignments[|s.assignments|], host);
    } else if c.kind.Release? {
      InUseRelease(s.assignments, FindAssignment(s.assignments, c.subject), at, host);
    }
  }

  lemma {:induction false} SlotsOf(hosts: seq<Host>, k: nat, state: HostState)
    requires k < |hosts|
    ensures SameSlots(hosts, hosts[k := hosts[k].(state := state)])
  {
  }

  lemma {:induction false} SlotsStay(s: DesiredState, c: Change, at: int)
    requires Simulate(s, c, at).Ok?
    ensures SameSlots(s.hosts, Simulate(s, c, at).state.hosts)
  {
    var k := FindHost(s.hosts, c.subject);
    if c.kind.DrainHost? || c.kind.CompleteDrain? || c.kind.ReturnToService? {
      SlotsOf(s.hosts, k, Simulate(s, c, at).state.hosts[k].state);
    }
  }

  /** A change leaves the free slots of every other host alone. */
  lemma {:induction false} OtherHosts(s: DesiredState, c: Change, at: int, host: string)
    requires Simulate(s, c, at).Ok? && Touches(s, c) != Some(host)
    ensures Free(Simulate(s, c, at).state, host) == Free(s, host)
  {
    OtherUse(s, c, at, host);
    SlotsStay(s, c, at);
    FreeDependsOn(s, Simulate(s, c, at).state, host);
  }

  /** A host has `n` slots free: what is in use and what is free are all its slots; an unknown or overbooked host has none. */
  ghost predicate Vacant(s: DesiredState, host: string, n: int) {
    var h := FindHost(s.hosts, host);
    if h < |s.hosts| && InUse(s.assignments, host) <= s.hosts[h].slots then InUse(s.assignments, host) + n == s.hosts[h].slots else n == 0
  }

  lemma {:induction false} VacantIff(s: DesiredState, host: string, n: int)
    ensures Vacant(s, host, n) <==> n == Free(s, host)
  {
  }

  /** The impacts name how many slots are free before and after; a host they do not name has as many as before. */
  ghost predicate Accurate(impacts: map<string, Impact>, before: DesiredState, after: DesiredState) {
    forall h: string ::
      if h in impacts then Vacant(before, h, impacts[h].before) && Vacant(after, h, impacts[h].after)
      else exists n :: Vacant(before, h, n) && Vacant(after, h, n)
  }

  lemma {:induction false} TallyIsAccurate(impacts: map<string, Impact>, before: DesiredState, after: DesiredState)
    requires Tallied(impacts, before, after)
    ensures Accurate(impacts, before, after)
  {
    forall h: string
      ensures if h in impacts then Vacant(before, h, impacts[h].before) && Vacant(after, h, impacts[h].after)
              else exists n :: Vacant(before, h, n) && Vacant(after, h, n)
    {
      if h in impacts {
        VacantIff(before, h, impacts[h].before);
        VacantIff(after, h, impacts[h].after);
      } else {
        VacantIff(before, h, Free(before, h));
        VacantIff(after, h, Free(before, h));
      }
    }
  }

  ghost predicate Tallied(impacts: map<string, Impact>, before: DesiredState, after: DesiredState) {
    forall h: string :: if h in impacts then impacts[h] == Impact(Free(before, h), Free(after, h)) else Free(after, h) == Free(before, h)
  }

  lemma {:induction false} DraftTallies(s: DesiredState, changes: seq<Change>)
    requires DraftOf(s, changes).Draft?
    ensures Tallied(DraftOf(s, changes).impacts, s, DraftOf(s, changes).state)
  {
    if changes != [] {
      var n := |changes| - 1;
      DraftTallies(s, changes[..n]);
      var mid, next := DraftOf(s, changes[..n]), DraftOf(s, changes);
      forall h: string
        ensures if h in next.impacts then next.impacts[h] == Impact(Free(s, h), Free(next.state, h)) else Free(next.state, h) == Free(s, h)
      {
        if Touches(mid.state, changes[n]) != Some(h) {
          OtherHosts(mid.state, changes[n], PlanClock(mid.state), h);
        }
      }
    }
  }

  lemma {:induction false} TalliedForTwins(impacts: map<string, Impact>, before: DesiredState, after: DesiredState, t: DesiredState)
    requires Tallied(impacts, before, after) && Twins(after, t)
    ensures Tallied(impacts, before, t)
  {
    forall h: string ensures Free(t, h) == Free(after, h) {
      SameFree(after, t, h);
    }
  }

  /* ---- Applying what was planned ---- */

  lemma {:induction false} HaltedIsRefused(sim: Simulator, w: World, c: Call, k: nat)
    requires ValidKey(c.key) && c.at.Some? && Authorized(c.principal, c.plan) && InOrder(w.log, c.at.value)
    requires Lookup(w.ledger, c.key) == |w.ledger| && c.plan.base == w.state.revision
    requires Advance(sim, w.state, c.plan.changes, c.at.value) == Stuck(k)
    ensures Apply(sim, w, c).Refused? && Apply(sim, w, c).reason == Reason.Impossible(k)
  {
  }

  /** A call that nothing but the plan itself can fail: a usable key, the right to apply, and a log that does not run backwards. */
  ghost predicate Admissible(w: World, c: Call) {
    && Audible(w, c) && MayApply(c.principal, c.plan.changes)
    && forall i :: 0 <= i < |w.ledger| ==> w.ledger[i].key != c.key
  }

  /**
   A plan accepted on a state applies to that state, by an admissible call, exactly when no
   assignment of that state it releases was issued after the moment of the call; otherwise it
   is refused at the first release that comes too early.
   */
  lemma {:induction false} PlanApplies(w: World, c: Call)
    requires Build(w.state, c.plan.changes).Accepted? && c.plan == Build(w.state, c.plan.changes).plan
    ensures Apply(Simulate, w, c).Applied? <==>
            Admissible(w, c) && forall i :: 0 <= i < |c.plan.changes| ==> !TooEarly(w.state, c.plan.changes[i], c.at.value)
    ensures Admissible(w, c) && !Apply(Simulate, w, c).Applied? ==>
              var o := Apply(Simulate, w, c);
              o.Refused? && o.reason == Reason.Impossible(FirstEarly(w.state, c.plan.changes, c.at.value))
  {
    FleetRuns.SimulateMakesOneRevision();
    FleetRuns.CommitsIff(Simulate, w, c);
    if Admissible(w, c) {
      AuthorizedIff(c.principal, c.plan);
      Foretold(w.state, c.plan.changes, c.at.value);
      var k := FirstEarly(w.state, c.plan.changes, c.at.value);
      if k < |c.plan.changes| {
        HaltedIsRefused(Simulate, w, c, k);
      }
    }
  }

  lemma {:induction false} AppliedReaches(sim: Simulator, w: World, c: Call)
    requires Apply(sim, w, c).Applied?
    ensures c.at.Some? && Advance(sim, w.state, c.plan.changes, c.at.value) == Reached(After(sim, w, c).state)
  {
  }

  /** And then it does what it promised: the planned state in everything but its timestamps, and the announced capacity on every host. */
  lemma {:induction false} PlanKeepsItsPromise(w: World, c: Call)
    requires Build(w.state, c.plan.changes).Accepted? && c.plan == Build(w.state, c.plan.changes).plan
    requires Apply(Simulate, w, c).Applied?
    ensures Twins(DraftOf(w.state, c.plan.changes).state, After(Simulate, w, c).state)
    ensures Accurate(Build(w.state, c.plan.changes).impacts, w.state, After(Simulate, w, c).state)
  {
    var changes := c.plan.changes;
    AppliedReaches(Simulate, w, c);
    Foretold(w.state, changes, c.at.value);
    DraftTallies(w.state, changes);
    TalliedForTwins(DraftOf(w.state, changes).impacts, w.state, DraftOf(w.state, changes).state, After(Simulate, w, c).state);
    TallyIsAccurate(DraftOf(w.state, changes).impacts, w.state, After(Simulate, w, c).state);
  }

  /* ---- What a plan announces ---- */

  /** A change is about a host: it assigns work there, releases work from there, or moves the host itself. */
  ghost predicate Concerns(s: DesiredState, c: Change, host: string) {
    match c.kind
    case Assign => "host_id" in c.parameters && c.parameters["host_id"] == host
    case Release =>
      var k := FindAssignment(s.assignments, c.subject);
      k < |s.assignments| && s.assignments[k].hostId == host
    case RollOut => false
    case _ => c.subject == host
  }

  /** The state a plan has come to before its change `i`, in planning. */
  ghost predicate ConcernedAt(s: DesiredState, changes: seq<Change>, i: nat, host: string) {
    i < |changes| && DraftOf(s, changes[..i]).Draft? && Concerns(DraftOf(s, changes[..i]).state, changes[i], host)
  }

  lemma {:induction false} ConcernedPrefix(s: DesiredState, changes: seq<Change>, n: nat, i: nat, host: string)
    requires i < n <= |changes|
    ensures ConcernedAt(s, changes[..n], i, host) <==> ConcernedAt(s, changes, i, host)
  {
    assert changes[..n][..i] == changes[..i];
  }

  lemma {:induction false} ConcernsIsTouches(s: DesiredState, c: Change, host: string)
    ensures Concerns(s, c, host) <==> Touches(s, c) == Some(host)
  {
  }

  /** The hosts a draft announces, as a set. */
  ghost function Announced(s: DesiredState, changes: seq<Change>): (hosts: set<string>) {
    if DraftOf(s, changes).Draft? then DraftOf(s, changes).impacts.Keys else {}
  }

  lemma {:induction false} AnnouncedNext(s: DesiredState, changes: seq<Change>, n: nat)
    requires n == |changes| - 1 && DraftOf(s, changes).Draft?
    ensures DraftOf(s, changes[..n]).Draft?
    ensures var host := Touches(DraftOf(s, changes[..n]).state, changes[n]);
            Announced(s, changes) == Announced(s, changes[..n]) + if host.Some? then {host.value} else {}
  {
  }

  /** A host that a plan announces is one that some change of it is about ... */
  lemma {:induction false} AnnouncedIsConcerned(s: DesiredState, changes: seq<Change>, host: string) returns (i: nat)
    requires DraftOf(s, changes).Draft? && host in Announced(s, changes)
    ensures ConcernedAt(s, changes, i, host)
  {
    var n := |changes| - 1;
    AnnouncedNext(s, changes, n);
    if host in Announced(s, changes[..n]) {
      i := AnnouncedIsConcerned(s, changes[..n], host);
      ConcernedPrefix(s, changes, n, i, host);
    } else {
      i := n;
      ConcernsIsTouches(DraftOf(s, changes[..n]).state, changes[n], host);
    }
  }

  /** ... and a host that some change is about is announced. */
  lemma {:induction false} ConcernedIsAnnounced(s: DesiredState, changes: seq<Change>, host: string, i: nat)
    requires DraftOf(s, changes).Draft? && ConcernedAt(s, changes, i, host)
    ensures host in Announced(s, changes)
  {
    var n := |changes| - 1;
    if i == n {
      AnnouncedNext(s, changes, i);
      ConcernsIsTouches(DraftOf(s, changes[..i]).state, changes[i], host);
    } else {
      AnnouncedNext(s, changes, n);
      ConcernedPrefix(s, changes, n, i, host);
      ConcernedIsAnnounced(s, changes[..n], host, i);
    }
  }

  /** One change moves the free slots of the host it is about: one fewer for an assignment, one more for a release, and as many for a drain, its completion and a return. */
  lemma {:induction false} ChangeMovesSlots(s: DesiredState, c: Change, at: int, host: string, before: int, after: int)
    requires WithinCapacity(s) && Simulate(s, c, at).Ok? && Concerns(s, c, host)
    requires Vacant(s, host, before) && Vacant(Simulate(s, c, at).state, host, after)
    ensures after == before + if c.kind == Assign then -1 else if c.kind == Release && FindHost(s.hosts, host) < |s.hosts| then 1 else 0
  {
    var s' := Simulate(s, c, at).state;
    SimulateKeeps(s, c, at);
    SlotsStay(s, c, at);
    SameHosts(s.hosts, s'.hosts, host);
    if FindHost(s.hosts, host) < |s.hosts| {
      assert HostFits(s, FindHost(s.hosts, host)) && HostFits(s', FindHost(s.hosts, host));
      UseMoves(s, c, at, host);
    }
    if c.kind == Assign {
      AssignAdds(s, c, at);
    }
  }

  lemma {:induction false} SameHosts(a: seq<Host>, b: seq<Host>, host: string)
    requires SameSlots(a, b)
    ensures FindHost(a, host) == FindHost(b, host)
  {
    var i, j := FindHost(a, host), FindHost(b, host);
    if i < |a| {
      assert b[i].hostId == host;
    }
    if j < |a| {
      assert a[j].hostId == host;
    }
  }

  lemma {:induction false} UseMoves(s: DesiredState, c: Change, at: int, host: string)
    requires Simulate(s, c, at).Ok? && Concerns(s, c, host)
    ensures InUse(Simulate(s, c, at).state.assignments, host) ==
            InUse(s.assignments, host) + if c.kind == Assign then 1 else if c.kind == Release then -1 else 0
  {
    if c.kind == Assign {
      AssignAdds(s, c, at);
      InUseAppend(s.assignments, Simulate(s, c, at).state.assignments[|s.assignments|], host);
    } else {
      OthersMove(s, c, at);
      if c.kind == Release {
        InUseRelease(s.assignments, FindAssignment(s.assignments, c.subject), at, host);
      }
    }
  }

  /** So a plan of one change announces one slot fewer, one more, or as many, on the host it is about. */
  lemma {:induction false} OneChangeAnnounces(s: DesiredState, c: Change, host: string)
    requires WithinCapacity(s) && Build(s, [c]).Accepted? && Concerns(s, c, host) && FindHost(s.hosts, host) < |s.hosts|
    ensures var impacts := Build(s, [c]).impacts;
            host in impacts && impacts[host].after - impacts[host].before == if c.kind == Assign then -1 else if c.kind == Release then 1 else 0
  {
    assert [c][..0] == [];
    var d := DraftOf(s, [c]);
    AnnouncedNext(s, [c], 0);
    ConcernsIsTouches(s, c, host);
    DraftTallies(s, [c]);
    VacantIff(s, host, d.impacts[host].before);
    VacantIff(d.state, host, d.impacts[host].after);
    ChangeMovesSlots(s, c, PlanClock(s), host, d.impacts[host].before, d.impacts[host].after);
  }

  /** What became of the last change of a list that cannot be planned. */
  lemma {:induction false} RejectedStep(s: DesiredState, changes: seq<Change>, n: nat)
    requires n == |changes| - 1 && DraftOf(s, changes).Rejected?
    ensures var d, front := DraftOf(s, changes), DraftOf(s, changes[..n]);
            if front.Rejected? then d == front
            else d.index == n && var r := Simulate(front.state, changes[n], PlanClock(front.state)); if d.malformed then r.PlanError? else r.ModelError?
  {
  }

  /** A refused list of changes: everything before the change it names could be planned, and that change could not, for want of a parameter or for want of a possibility. */
  lemma {:induction false} RejectedAt(s: DesiredState, changes: seq<Change>, i: nat, malformed: bool)
    requires DraftOf(s, changes) == Rejected(i, malformed)
    ensures Build(s, changes) == if malformed then Malformed(i) else NotPossible(i)
    ensures i < |changes| && DraftOf(s, changes[..i]).Draft?
    ensures var mid := DraftOf(s, changes[..i]).state;
            var r := Simulate(mid, changes[i], PlanClock(mid));
            if malformed then r.PlanError? else r.ModelError?
  {
    var n := |changes| - 1;
    RejectedStep(s, changes, n);
    if DraftOf(s, changes[..n]).Rejected? {
      RejectedAt(s, changes[..n], i, malformed);
      assert changes[..n][..i] == changes[..i];
    }
  }
}
