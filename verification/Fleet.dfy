/** Applying reviewed plans: once per key, all or nothing, on the revision that was reviewed. */
module Fleet {
  import opened Common
  import opened FleetModel

  datatype Kind = Assign | Release | DrainHost | CompleteDrain | ReturnToService | RollOut

  datatype Change = Change(kind: Kind, subject: string, parameters: map<string, string>)

  /** A plan's id is a digest of exactly these two things; it is modelled as the pair itself. */
  datatype PlanId = PlanId(base: int, changes: seq<Change>)

  datatype Plan = Plan(base: int, changes: seq<Change>, resulting: int)

  /** What building a plan guarantees about it. */
  predicate Built(p: Plan) {
    p.changes != [] && p.resulting == p.base + |p.changes|
  }

  function IdOf(p: Plan): (id: PlanId) {
    PlanId(p.base, p.changes)
  }

  predicate Destructive(p: Plan) {
    exists i :: 0 <= i < |p.changes| && p.changes[i].kind in {Release, DrainHost, CompleteDrain, RollOut}
  }

  /** The state after one change, or why there is none. */
  function Simulate(s: DesiredState, c: Change, at: int): (r: Result) {
    var p := c.parameters;
    match c.kind
    case Assign =>
      if "assignment_id" in p && "request_id" in p && "pool_id" in p && "host_id" in p
      then WithAssignment(s, p["assignment_id"], p["request_id"], p["pool_id"], p["host_id"], at) else PlanError
    case Release => WithRelease(s, c.subject, at)
    case DrainHost => if "reason" in p then WithDrain(s, c.subject, p["reason"], at) else PlanError
    case CompleteDrain => WithDrainComplete(s, c.subject, at)
    case ReturnToService => WithHostReturned(s, c.subject, at)
    case RollOut =>
      if "rollout_id" in p && "to_image_digest" in p
      then WithRollout(s, p["rollout_id"], c.subject, p["to_image_digest"], at) else PlanError
  }

  /** A change is malformed exactly when a parameter its kind needs is not there. */
  lemma {:induction false} MalformedIff(s: DesiredState, c: Change, at: int)
    ensures Simulate(s, c, at).PlanError? <==>
            || (c.kind == Assign && !({"assignment_id", "request_id", "pool_id", "host_id"} <= c.parameters.Keys))
            || (c.kind == DrainHost && "reason" !in c.parameters)
            || (c.kind == RollOut && !({"rollout_id", "to_image_digest"} <= c.parameters.Keys))
  {
    var p := c.parameters;
    match c.kind
    case Assign =>
      if {"assignment_id", "request_id", "pool_id", "host_id"} <= p.Keys {
        AssignsIff(s, p["assignment_id"], p["request_id"], p["pool_id"], p["host_id"], at);
      }
    case Release => ReleasesIff(s, c.subject, at);
    case DrainHost =>
    case CompleteDrain => CompletesIff(s, c.subject, at);
    case ReturnToService => ReturnsIff(s, c.subject, at);
    case RollOut =>
  }

  /** What an assign change adds, and what it takes to add it. */
  lemma {:induction false} AssignAdds(s: DesiredState, c: Change, at: int)
    requires c.kind == Assign && Simulate(s, c, at).Ok?
    ensures {"assignment_id", "request_id", "pool_id", "host_id"} <= c.parameters.Keys
    ensures var p := c.parameters;
            && Admits(s, p["pool_id"], p["host_id"])
            && Simulate(s, c, at).state == DesiredState(s.revision + 1, s.pools, s.hosts,
                 s.assignments + [Assignment(p["assignment_id"], p["request_id"], p["pool_id"], p["host_id"], at, None)], s.drains, s.rollouts)
  {
    var p := c.parameters;
    AssignsIff(s, p["assignment_id"], p["request_id"], p["pool_id"], p["host_id"], at);
  }

  /** What the other changes do to their subjects: a release ends the assignment, a drain and its completion and a return move the host on, a rollout moves the pool's image. */
  lemma {:induction false} OthersMove(s: DesiredState, c: Change, at: int)
    requires c.kind != Assign && Simulate(s, c, at).Ok?
    ensures var s' := Simulate(s, c, at).state;
            var a, h, q := FindAssignment(s.assignments, c.subject), FindHost(s.hosts, c.subject), FindPool(s.pools, c.subject);
            && (if c.kind == Release then
                  && a < |s.assignments| && s.assignments[a].releasedAt.None? && s.assignments[a].issuedAt <= at
                  && s'.assignments == s.assignments[a := s.assignments[a].(releasedAt := Some(at))]
                else s'.assignments == s.assignments)
            && (match c.kind
                case DrainHost =>
                  h < |s.hosts| && s.hosts[h].state == Active && s'.hosts == HostsWith(s.hosts, h, Draining) && "reason" in c.parameters
                  && s'.drains == s.drains + [Drain(c.subject, c.parameters["reason"], at, DrainOpen, None, None)]
                case CompleteDrain =>
                  h < |s.hosts| && s.hosts[h].state == Draining && InUse(s.assignments, c.subject) == 0 && s'.hosts == HostsWith(s.hosts, h, Drained)
                case ReturnToService => h < |s.hosts| && s.hosts[h].state == Drained && s'.hosts == HostsWith(s.hosts, h, Active)
                case _ => s'.hosts == s.hosts && s'.drains == s.drains)
            && (if c.kind == RollOut then
                  && q < |s.pools| && {"rollout_id", "to_image_digest"} <= c.parameters.Keys
                  && var to := c.parameters["to_image_digest"];
                  && s'.pools == s.pools[q := s.pools[q].(revision := s.pools[q].revision + 1, image := to, rollback := s.pools[q].image)]
                  && s'.rollouts == s.rollouts + [Rollout(c.parameters["rollout_id"], c.subject, s.pools[q].image, to, at)]
                else s'.pools == s.pools && s'.rollouts == s.rollouts)
  {
    match c.kind
    case Release => ReleasesIff(s, c.subject, at);
    case DrainHost => DrainsIff(s, c.subject, c.parameters["reason"], at);
    case CompleteDrain => CompletesIff(s, c.subject, at);
    case ReturnToService => ReturnsIff(s, c.subject, at);
    case RollOut => RollsOutIff(s, c.parameters["rollout_id"], c.subject, c.parameters["to_image_digest"], at);
  }

  /** Every change is one revision, and keeps every host within its slots. */
  lemma {:induction false} SimulateKeeps(s: DesiredState, c: Change, at: int)
    requires Simulate(s, c, at).Ok?
    ensures Simulate(s, c, at).state.revision == s.revision + 1
    ensures WithinCapacity(s) ==> WithinCapacity(Simulate(s, c, at).state)
  {
    if WithinCapacity(s) {
      var p := c.parameters;
      var s' := Simulate(s, c, at).state;
      match c.kind
      case Assign => AssignmentKeeps(s, p["assignment_id"], p["request_id"], p["pool_id"], p["host_id"], at);
      case Release => ReleaseKeeps(s, c.subject, at);
      case DrainHost => HostStateKeeps(s, s', FindHost(s.hosts, c.subject), Draining);
      case CompleteDrain => HostStateKeeps(s, s', FindHost(s.hosts, c.subject), Drained);
      case ReturnToService => HostStateKeeps(s, s', FindHost(s.hosts, c.subject), Active);
      case RollOut => RolloutKeeps(s, p["rollout_id"], c.subject, p["to_image_digest"], at);
    }
  }

  /* ---- Authorization, ledger, audit log ---- */

  datatype Scope = FleetRead | FleetPlan | FleetApply | FleetAdmin

  datatype Principal = Principal(id: string, scopes: set<Scope>)

  function SatisfiedBy(scope: Scope): (r: set<Scope>) {
    match scope
    case FleetRead => {FleetRead, FleetPlan, FleetApply, FleetAdmin}
    case FleetPlan => {FleetPlan, FleetApply, FleetAdmin}
    case FleetApply => {FleetApply, FleetAdmin}
    case FleetAdmin => {FleetAdmin}
  }

  predicate Holds(p: Principal, scope: Scope) {
    exists s :: s in p.scopes && s in SatisfiedBy(scope)
  }

  predicate Authorized(who: Principal, p: Plan) {
    Holds(who, FleetApply) && (Destructive(p) ==> Holds(who, FleetAdmin))
  }

  /** An administrator may apply any plan; a principal with the apply scope only one that assigns work and returns hosts to service. */
  ghost predicate MayApply(who: Principal, changes: seq<Change>) {
    || FleetAdmin in who.scopes
    || (FleetApply in who.scopes && forall i :: 0 <= i < |changes| ==> changes[i].kind == Assign || changes[i].kind == ReturnToService)
  }

  lemma {:induction false} AuthorizedIff(who: Principal, p: Plan)
    ensures Authorized(who, p) <==> MayApply(who, p.changes)
  {
    if FleetAdmin in who.scopes {
      assert FleetAdmin in SatisfiedBy(FleetApply) && FleetAdmin in SatisfiedBy(FleetAdmin);
    }
    if FleetApply in who.scopes {
      assert FleetApply in SatisfiedBy(FleetApply);
    }
    if Holds(who, FleetApply) {
      var s :| s in who.scopes && s in SatisfiedBy(FleetApply);
    }
  }

  predicate ValidKey(key: string) {
    RequestId(key)
  }

  datatype LedgerEntry = LedgerEntry(key: string, planId: PlanId, revision: int)

  /** The first entry of this key; `|ledger|` when there is none. */
  function Lookup(ledger: seq<LedgerEntry>, key: string): (k: nat)
    ensures k <= |ledger| && (k < |ledger| ==> ledger[k].key == key)
    ensures forall j :: 0 <= j < k ==> ledger[j].key != key
  {
    IndexOf(ledger, (e: LedgerEntry) => e.key == key)
  }

  datatype Verdict = WasApplied | WasRefused | WasReplayed

  datatype Reason =
    | NoReason | NotAuthorized | KeyCoversAnotherPlan(recorded: PlanId) | StalePlan(planned: int, actual: int) | Impossible(index: nat)

  /** What an audit event is about: a whole plan, or the subject of one change. */
  datatype Subject = OfPlan(id: PlanId) | Named(name: string)

  datatype AuditEvent = AuditEvent(
    seqNo: int, at: int, actor: string, action: string, subject: Subject, verdict: Verdict,
    planId: PlanId, key: string, reason: Reason)

  function KindName(k: Kind): (s: string) {
    match k
    case Assign => "assign"
    case Release => "release"
    case DrainHost => "drain"
    case CompleteDrain => "complete_drain"
    case ReturnToService => "return_to_service"
    case RollOut => "rollout"
  }

  /** The log is a log: numbered 1..n without a gap, and it does not run backwards. */
  ghost predicate LogSound(log: seq<AuditEvent>) {
    forall i :: 0 <= i < |log| ==> log[i].seqNo == i + 1 && (i > 0 ==> log[i - 1].at <= log[i].at)
  }

  predicate InOrder(log: seq<AuditEvent>, at: int) {
    log == [] || log[|log| - 1].at <= at
  }

  /** Append one event, numbered by its position; refused when it would be back-dated. */
  function Append(log: seq<AuditEvent>, e: AuditEvent): (r: Option<seq<AuditEvent>>) {
    if InOrder(log, e.at) then Some(log + [e.(seqNo := |log| + 1)]) else None
  }

  /* ---- One call ---- */

  /** How a change is applied to a working copy; the engine asks nothing of it. */
  type Simulator = (DesiredState, Change, int) -> Result


  /** The arguments of one call; `at` is `None` when the timestamp does not parse. */
  datatype Call = Call(plan: Plan, principal: Principal, at: Option<int>, key: string)

  datatype World = World(state: DesiredState, ledger: seq<LedgerEntry>, log: seq<AuditEvent>)

  datatype Outcome =
    | Applied(world: World, revision: int)
    | Replayed(world: World, revision: int)
    | Refused(log: seq<AuditEvent>, reason: Reason)
    | Fault

  /** How far the changes of a plan get. */
  datatype Progress = Reached(state: DesiredState) | Stuck(index: nat) | Broken

  function Advance(sim: Simulator, s: DesiredState, changes: seq<Change>, at: int): (p: Progress) {
    if changes == [] then Reached(s)
    else
      var n := |changes| - 1;
      match Advance(sim, s, changes[..n], at)
      case Reached(mid) =>
        (match sim(mid, changes[n], at)
         case Ok(next) => Reached(next)
         case ModelError => Stuck(n)
         case PlanError => Broken)
      case other => other
  }

  /** The audit entries of a whole plan. */
  function PlanEvents(c: Call, at: int): (r: seq<AuditEvent>)
    ensures |r| == |c.plan.changes|
  {
    seq(|c.plan.changes|, i requires 0 <= i < |c.plan.changes| =>
      AuditEvent(0, at, c.principal.id, KindName(c.plan.changes[i].kind), Named(c.plan.changes[i].subject), WasApplied,
                 IdOf(c.plan), c.key, NoReason))
  }

  /** Append all events, numbered by their positions. */
  function AppendAll(log: seq<AuditEvent>, events: seq<AuditEvent>): (r: seq<AuditEvent>)
    ensures |r| == |log| + |events|
  {
    log + seq(|events|, i requires 0 <= i < |events| => events[i].(seqNo := |log| + i + 1))
  }

  /** The execution of a plan on a working copy, with its pending log. */
  datatype Execution = Done(state: DesiredState, log: seq<AuditEvent>) | Halted(index: nat) | Failed

  /** A back-dated entry cannot be appended, so a back-dated plan fails at its first possible change. */
  function Execute(sim: Simulator, s: DesiredState, log: seq<AuditEvent>, c: Call, at: int): (x: Execution) {
    match Advance(sim, s, c.plan.changes, at)
    case Stuck(i) => if i > 0 && !InOrder(log, at) then Failed else Halted(i)
    case Broken => Failed
    case Reached(state) =>
      if c.plan.changes != [] && !InOrder(log, at) then Failed else Done(state, AppendAll(log, PlanEvents(c, at)))
  }

  function Refusal(w: World, c: Call, at: int, reason: Reason): (o: Outcome) {
    var e := AuditEvent(0, at, c.principal.id, "apply", OfPlan(IdOf(c.plan)), WasRefused, IdOf(c.plan), c.key, reason);
    match Append(w.log, e)
    case Some(log) => Refused(log, reason)
    case None => Fault
  }

  /** What a call does: authorization first, then the ledger, then the reviewed revision, then the whole plan or nothing. */
  function Apply(sim: Simulator, w: World, c: Call): (o: Outcome) {
    if !ValidKey(c.key) || c.at.None? then Fault
    else
      var at := c.at.value;
      var k := Lookup(w.ledger, c.key);
      if !Authorized(c.principal, c.plan) then Refusal(w, c, at, NotAuthorized)
      else if k < |w.ledger| then
        if w.ledger[k].planId != IdOf(c.plan) then Refusal(w, c, at, KeyCoversAnotherPlan(w.ledger[k].planId))
        else
          var e := AuditEvent(0, at, c.principal.id, "apply", OfPlan(IdOf(c.plan)), WasReplayed, IdOf(c.plan), c.key, NoReason);
          match Append(w.log, e)
          case Some(log) => Replayed(w.(log := log), w.ledger[k].revision)
          case None => Fault
      else if c.plan.base != w.state.revision then Refusal(w, c, at, StalePlan(c.plan.base, w.state.revision))
      else
        match Execute(sim, w.state, w.log, c, at)
        case Halted(i) => Refusal(w, c, at, Impossible(i))
        case Failed => Fault
        case Done(state, log) =>
          if state.revision != c.plan.resulting then Fault
          else Applied(World(state, w.ledger + [LedgerEntry(c.key, IdOf(c.plan), state.revision)], log), state.revision)
  }

  /** The world after a call: a refusal leaves only its log entry, a fault nothing. */
  function After(sim: Simulator, w: World, c: Call): (w': World) {
    match Apply(sim, w, c)
    case Applied(world, _) => world
    case Replayed(world, _) => world
    case Refused(log, _) => w.(log := log)
    case Fault => w
  }

  /* ---- Every answer, exactly ---- */

  /** A call that can be heard at all: a well-shaped key, a time, and a log that this time does not run backwards. */
  predicate Audible(w: World, c: Call) {
    RequestId(c.key) && c.at.Some? && (w.log == [] || w.log[|w.log| - 1].at <= c.at.value)
  }

  /** The entry a refused or a replayed call leaves: who, when, which plan, under which key, and why not. */
  function CallEntry(w: World, c: Call, at: int, verdict: Verdict, reason: Reason): (e: AuditEvent) {
    var id := PlanId(c.plan.base, c.plan.changes);
    AuditEvent(|w.log| + 1, at, c.principal.id, "apply", OfPlan(id), verdict, id, c.key, reason)
  }

  /** A call that may not be made is refused for that, before its key is looked at. */
  lemma {:induction false} RefusesCaller(sim: Simulator, w: World, c: Call)
    ensures var o := Apply(sim, w, c);
            (o.Refused? && o.reason == NotAuthorized) <==> Audible(w, c) && !MayApply(c.principal, c.plan.changes)
  {
    AuthorizedIff(c.principal, c.plan);
  }

  /** A key that is in the ledger answers for its own plan and refuses every other. */
  lemma {:induction false} AnswersKnownKey(sim: Simulator, w: World, c: Call, n: nat)
    requires n < |w.ledger| && w.ledger[n].key == c.key && forall i :: 0 <= i < n ==> w.ledger[i].key != c.key
    ensures var o, e, heard := Apply(sim, w, c), w.ledger[n], Audible(w, c) && MayApply(c.principal, c.plan.changes);
            && (o.Replayed? <==> heard && e.planId == PlanId(c.plan.base, c.plan.changes))
            && (o.Replayed? ==> o == Replayed(World(w.state, w.ledger, w.log + [CallEntry(w, c, c.at.value, WasReplayed, NoReason)]), e.revision))
            && ((o.Refused? && o.reason == KeyCoversAnotherPlan(e.planId)) <==> heard && e.planId != PlanId(c.plan.base, c.plan.changes))
            && !o.Applied?
  {
    AuthorizedIff(c.principal, c.plan);
    assert Lookup(w.ledger, c.key) == n;
  }

  /** An unused key: a plan for another revision is stale, and one that gets stuck is refused at the change it gets stuck at. */
  lemma {:induction false} AnswersNewKey(sim: Simulator, w: World, c: Call, planned: int, actual: int, i: nat)
    requires forall j :: 0 <= j < |w.ledger| ==> w.ledger[j].key != c.key
    ensures var o, heard := Apply(sim, w, c), Audible(w, c) && MayApply(c.principal, c.plan.changes);
            && !o.Replayed?
            && ((o.Refused? && o.reason == StalePlan(planned, actual)) <==>
                  heard && planned == c.plan.base && actual == w.state.revision && planned != actual)
            && ((o.Refused? && o.reason == Impossible(i)) <==>
                  heard && c.plan.base == w.state.revision && Advance(sim, w.state, c.plan.changes, c.at.value) == Stuck(i))
  {
    AuthorizedIff(c.principal, c.plan);
    assert Lookup(w.ledger, c.key) == |w.ledger|;
  }

  /** A refusal leaves one entry, and no call that cannot be heard leaves anything. */
  lemma {:induction false} RefusalIsLogged(sim: Simulator, w: World, c: Call)
    ensures var o := Apply(sim, w, c);
            && (!Audible(w, c) ==> o.Fault? || (o.Applied? && c.plan.changes == []))
            && (o.Refused? ==> Audible(w, c) && o.log == w.log + [CallEntry(w, c, c.at.value, WasRefused, o.reason)])
            && (o.Refused? ==> After(sim, w, c) == World(w.state, w.ledger, o.log))
  {
  }

  lemma {:induction false} AdvanceNext(sim: Simulator, s: DesiredState, changes: seq<Change>, at: int, i: nat)
    requires i < |changes| && Advance(sim, s, changes[..i], at).Reached?
    ensures var next := sim(Advance(sim, s, changes[..i], at).state, changes[i], at);
            Advance(sim, s, changes[..i + 1], at)
            == if next.Ok? then Reached(next.state) else if next.ModelError? then Stuck(i) else Broken
  {
    assert changes[..i + 1][..i] == changes[..i];
  }

  lemma {:induction false} StuckEarly(sim: Simulator, s: DesiredState, changes: seq<Change>, at: int, n: nat)
    requires n <= |changes| && !Advance(sim, s, changes[..n], at).Reached?
    ensures Advance(sim, s, changes, at) == Advance(sim, s, changes[..n], at)
  {
    if n < |changes| {
      assert changes[..|changes| - 1][..n] == changes[..n];
      StuckEarly(sim, s, changes[..|changes| - 1], at, n);
    } else {
      assert changes[..n] == changes;
    }
  }

  lemma {:induction false} FirstChangePossible(sim: Simulator, s: DesiredState, changes: seq<Change>, at: int)
    requires changes != [] && sim(s, changes[0], at).Ok?
    ensures Advance(sim, s, changes, at).Stuck? ==> Advance(sim, s, changes, at).index > 0
  {
    var n := |changes| - 1;
    if n > 0 {
      FirstChangePossible(sim, s, changes[..n], at);
    } else {
      assert changes[..0] == [];
    }
  }

  /** Entries made at one moment leave a log in order exactly when it was. */
  lemma {:induction false} PendingInOrder(log: seq<AuditEvent>, events: seq<AuditEvent>, at: int)
    requires forall i :: 0 <= i < |events| ==> events[i].at == at
    requires events != [] ==> InOrder(log, at)
    ensures InOrder(AppendAll(log, events), at) <==> InOrder(log, at)
  {
    if events == [] {
      assert AppendAll(log, events) == log;
    }
  }

  lemma {:induction false} AppendAllOne(log: seq<AuditEvent>, events: seq<AuditEvent>, i: nat)
    requires i < |events|
    ensures AppendAll(log, events[..i + 1]) == AppendAll(log, events[..i]) + [events[i].(seqNo := |log| + i + 1)]
  {
  }

  /** One more entry of a plan on the pending log. */
  lemma {:induction false} AppendNext(log: seq<AuditEvent>, c: Call, at: int, i: nat)
    requires i < |c.plan.changes| && (i > 0 ==> InOrder(log, at))
    ensures var events := PlanEvents(c, at);
            Append(AppendAll(log, events[..i]), events[i])
            == if InOrder(log, at) then Some(AppendAll(log, events[..i + 1])) else None
  {
    var events := PlanEvents(c, at);
    PendingInOrder(log, events[..i], at);
    AppendAllOne(log, events, i);
  }

  method ExecuteChanges(sim: Simulator, s: DesiredState, log: seq<AuditEvent>, c: Call, at: int) returns (x: Execution)
    ensures x == Execute(sim, s, log, c, at)
  {
    var working := s;
    var pending := log;
    var changes := c.plan.changes;
    ghost var events := PlanEvents(c, at);
    for i := 0 to |changes|
      invariant Advance(sim, s, changes[..i], at) == Reached(working)
      invariant i > 0 ==> InOrder(log, at)
      invariant pending == AppendAll(log, events[..i])
    {
      AdvanceNext(sim, s, changes, at, i);
      var next := sim(working, changes[i], at);
      if !next.Ok? {
        StuckEarly(sim, s, changes, at, i + 1);
        return if next.PlanError? then Failed else Halted(i);
      }
      AppendNext(log, c, at, i);
      var appended := Append(pending, AuditEvent(0, at, c.principal.id, KindName(changes[i].kind), Named(changes[i].subject),
                                                 WasApplied, IdOf(c.plan), c.key, NoReason));
      if appended.None? {
        assert changes[..0] == [];
        FirstChangePossible(sim, s, changes, at);
        return Failed;
      }
      working := next.state;
      pending := appended.value;
    }
    assert changes[..|changes|] == changes && events[..|changes|] == events;
    return Done(working, pending);
  }

  /** `apply_plan`: a working copy of the state and a pending log, committed together or not at all. */
  method ApplyPlan(sim: Simulator, w: World, c: Call) returns (o: Outcome)
    ensures o == Apply(sim, w, c)
    ensures o.Applied? ==> MayApply(c.principal, c.plan.changes) && forall i :: 0 <= i < |w.ledger| ==> w.ledger[i].key != c.key
  {
    AuthorizedIff(c.principal, c.plan);
    if !ValidKey(c.key) || c.at.None? {
      return Fault;
    }
    var at := c.at.value;
    if !Authorized(c.principal, c.plan) {
      return Refusal(w, c, at, NotAuthorized);
    }
    var k := Lookup(w.ledger, c.key);
    if k < |w.ledger| {
      if w.ledger[k].planId != IdOf(c.plan) {
        return Refusal(w, c, at, KeyCoversAnotherPlan(w.ledger[k].planId));
      }
      var log := Append(w.log, AuditEvent(0, at, c.principal.id, "apply", OfPlan(IdOf(c.plan)), WasReplayed, IdOf(c.plan), c.key, NoReason));
      if log.None? {
        return Fault;
      }
      return Replayed(w.(log := log.value), w.ledger[k].revision);
    }
    if c.plan.base != w.state.revision {
      return Refusal(w, c, at, StalePlan(c.plan.base, w.state.revision));
    }
    var x := ExecuteChanges(sim, w.state, w.log, c, at);
    match x
    case Failed => return Fault;
    case Halted(i) => return Refusal(w, c, at, Impossible(i));
    case Done(working, pending) =>
      if working.revision != c.plan.resulting {
        return Fault;
      }
      return Applied(World(working, w.ledger + [LedgerEntry(c.key, IdOf(c.plan), working.revision)], pending), working.revision);
  }
}
