/** Where the fleet's work and its audit trail came from: over every run, what was issued, by which call, and with which right. */
module FleetHistory {
  import opened Common
  import opened FleetModel
  import opened Fleet
  import opened FleetRuns

  /* ---- Every assignment was admitted ---- */

  /** The same assignment, released or not. */
  predicate SameWork(a: Assignment, b: Assignment) {
    a.assignmentId == b.assignmentId && a.requestId == b.requestId && a.poolId == b.poolId && a.hostId == b.hostId && a.issuedAt == b.issuedAt
  }

  /** Assignments are never dropped, reordered or rewritten. */
  ghost predicate WorkKept(s: seq<Assignment>, t: seq<Assignment>) {
    |s| <= |t| && forall n :: 0 <= n < |s| ==> SameWork(s[n], t[n])
  }

  /** In state `s`, change `c` issued this assignment, to a host that admits its pool. */
  ghost predicate Issues(s: DesiredState, c: Change, at: int, a: Assignment) {
    && c.kind == Assign && {"assignment_id", "request_id", "pool_id", "host_id"} <= c.parameters.Keys
    && SameWork(a, Assignment(c.parameters["assignment_id"], c.parameters["request_id"], c.parameters["pool_id"], c.parameters["host_id"], at, None))
    && Admits(s, a.poolId, a.hostId)
  }

  lemma {:induction false} StepKeepsWork(s: DesiredState, c: Change, at: int)
    requires Simulate(s, c, at).Ok?
    ensures var t := Simulate(s, c, at).state;
            && WorkKept(s.assignments, t.assignments) && |t.assignments| <= |s.assignments| + 1
            && (|t.assignments| > |s.assignments| ==> Issues(s, c, at, t.assignments[|s.assignments|]))
  {
    if c.kind == Assign {
      AssignAdds(s, c, at);
    } else {
      OthersMove(s, c, at);
    }
  }

  lemma {:induction false} WorkKeptTwice(a: seq<Assignment>, b: seq<Assignment>, c: seq<Assignment>)
    requires WorkKept(a, b) && WorkKept(b, c)
    ensures WorkKept(a, c)
  {
    forall n | 0 <= n < |a| ensures SameWork(a[n], c[n]) {
      assert SameWork(a[n], b[n]) && SameWork(b[n], c[n]);
    }
  }

  lemma {:induction false} PlanKeepsWork(s: DesiredState, changes: seq<Change>, at: int)
    requires Advance(Simulate, s, changes, at).Reached?
    ensures WorkKept(s.assignments, Advance(Simulate, s, changes, at).state.assignments)
  {
    if changes != [] {
      var n := |changes| - 1;
      var mid := Advance(Simulate, s, changes[..n], at).state;
      PlanKeepsWork(s, changes[..n], at);
      StepKeepsWork(mid, changes[n], at);
      WorkKeptTwice(s.assignments, mid.assignments, Advance(Simulate, s, changes, at).state.assignments);
    }
  }

  lemma {:induction false} IssuesSame(s: DesiredState, c: Change, at: int, a: Assignment, b: Assignment)
    requires Issues(s, c, at, a) && SameWork(a, b)
    ensures Issues(s, c, at, b)
  {
  }

  /** A new assignment of a plan, and the change of the plan that issued it. */
  lemma {:induction false} PlanIssues(s: DesiredState, changes: seq<Change>, at: int, n: nat) returns (i: nat)
    requires Advance(Simulate, s, changes, at).Reached? && |s.assignments| <= n < |Advance(Simulate, s, changes, at).state.assignments|
    ensures i < |changes| && Advance(Simulate, s, changes[..i], at).Reached?
    ensures Issues(Advance(Simulate, s, changes[..i], at).state, changes[i], at, Advance(Simulate, s, changes, at).state.assignments[n])
  {
    var m := |changes| - 1;
    var mid, t := Advance(Simulate, s, changes[..m], at).state, Advance(Simulate, s, changes, at).state;
    StepKeepsWork(mid, changes[m], at);
    if n < |mid.assignments| {
      i := PlanIssues(s, changes[..m], at, n);
      assert changes[..m][..i] == changes[..i];
      IssuesSame(Advance(Simulate, s, changes[..i], at).state, changes[i], at, mid.assignments[n], t.assignments[n]);
    } else {
      i := m;
    }
  }

  /** Call `j` of the run committed, and its change `i` issued this assignment. */
  ghost predicate IssuedBy(run: Run, j: nat, i: nat, a: Assignment)
    requires |run.worlds| == |run.calls| + 1
  {
    && j < |run.calls| && CommitsAt(run, j) && run.calls[j].at.Some? && i < |run.calls[j].plan.changes|
    && var c := run.calls[j];
    && var mid := Advance(Simulate, run.worlds[j].state, c.plan.changes[..i], c.at.value);
    && mid.Reached? && Issues(mid.state, c.plan.changes[i], c.at.value, a)
  }

  lemma {:induction false} StrideWork(run: Run, k: nat)
    requires IsRun(run) && run.sim == Simulate && k < |run.calls|
    ensures var s, t := run.worlds[k].state, run.worlds[k + 1].state;
            if CommitsAt(run, k) then run.calls[k].at.Some? && Advance(Simulate, s, run.calls[k].plan.changes, run.calls[k].at.value) == Reached(t)
            else t == s
  {
    StrideEffect(run, k);
  }

  lemma {:induction false} OldWork(run: Run, k: nat, n: nat)
    requires IsRun(run) && run.sim == Simulate && k < |run.calls| && n < |run.worlds[k].state.assignments|
    ensures n < |run.worlds[k + 1].state.assignments| && SameWork(run.worlds[k].state.assignments[n], run.worlds[k + 1].state.assignments[n])
  {
    StrideWork(run, k);
    if CommitsAt(run, k) {
      PlanKeepsWork(run.worlds[k].state, run.calls[k].plan.changes, run.calls[k].at.value);
    }
  }

  lemma {:induction false} NewWork(run: Run, k: nat, n: nat) returns (i: nat)
    requires IsRun(run) && run.sim == Simulate && k < |run.calls|
    requires |run.worlds[k].state.assignments| <= n < |run.worlds[k + 1].state.assignments|
    ensures IssuedBy(run, k, i, run.worlds[k + 1].state.assignments[n])
  {
    StrideWork(run, k);
    i := PlanIssues(run.worlds[k].state, run.calls[k].plan.changes, run.calls[k].at.value, n);
  }

  /**
   Whatever a run adds to the fleet's work was issued by a change of a committed plan, at a
   moment when its host was active, offered the pool's runtime and architecture, allowed the
   pool and had a slot free.
   */
  lemma {:induction false} EveryAssignmentWasAdmitted(run: Run, k: nat, n: nat) returns (j: nat, i: nat)
    requires IsRun(run) && run.sim == Simulate && k <= |run.calls|
    requires |run.worlds[0].state.assignments| <= n < |run.worlds[k].state.assignments|
    ensures j < k && IssuedBy(run, j, i, run.worlds[k].state.assignments[n])
  {
    if n < |run.worlds[k - 1].state.assignments| {
      j, i := EveryAssignmentWasAdmitted(run, k - 1, n);
      OldWork(run, k - 1, n);
      IssuedStill(run, j, i, run.worlds[k - 1].state.assignments[n], run.worlds[k].state.assignments[n]);
    } else {
      j := k - 1;
      i := NewWork(run, j, n);
    }
  }

  lemma {:induction false} IssuedStill(run: Run, j: nat, i: nat, a: Assignment, b: Assignment)
    requires |run.worlds| == |run.calls| + 1 && IssuedBy(run, j, i, a) && SameWork(a, b)
    ensures IssuedBy(run, j, i, b)
  {
  }

  /* ---- Every applied event was authorized ---- */

  /** The audit entry of change `i` of a plan, whole. */
  function ChangeEntry(c: Call, at: int, i: nat): (e: AuditEvent)
    requires i < |c.plan.changes|
  {
    var action := match c.plan.changes[i].kind
                  case Assign => "assign"
                  case Release => "release"
                  case DrainHost => "drain"
                  case CompleteDrain => "complete_drain"
                  case ReturnToService => "return_to_service"
                  case RollOut => "rollout";
    AuditEvent(0, at, c.principal.id, action, Named(c.plan.changes[i].subject), WasApplied, PlanId(c.plan.base, c.plan.changes), c.key, NoReason)
  }

  /** Whoever's plan commits may apply it: an administrator, or, for a plan that only assigns work and returns hosts, a principal with the apply scope. */
  lemma {:induction false} CommitNeedsScope(sim: Simulator, w: World, c: Call, i: nat)
    requires Apply(sim, w, c).Applied?
    ensures FleetApply in c.principal.scopes || FleetAdmin in c.principal.scopes
    ensures i < |c.plan.changes| && c.plan.changes[i].kind in {Release, DrainHost, CompleteDrain, RollOut} ==> FleetAdmin in c.principal.scopes
  {
    AuthorizedIff(c.principal, c.plan);
  }

  /** A plan of assignments and returns needs no more than the apply scope, and without any scope nothing is touched. */
  lemma {:induction false} ApplyScopeSuffices(sim: Simulator, w: World, c: Call)
    ensures FleetApply in c.principal.scopes && (forall i :: 0 <= i < |c.plan.changes| ==> c.plan.changes[i].kind == Assign || c.plan.changes[i].kind == ReturnToService) ==>
              !(Apply(sim, w, c).Refused? && Apply(sim, w, c).reason == NotAuthorized)
    ensures FleetApply !in c.principal.scopes && FleetAdmin !in c.principal.scopes ==>
              var w' := After(sim, w, c);
              w'.state == w.state && w'.ledger == w.ledger && (Audible(w, c) ==> Apply(sim, w, c).Refused? && Apply(sim, w, c).reason == NotAuthorized)
  {
    AuthorizedIff(c.principal, c.plan);
    RefusesCaller(sim, w, c);
    RefusalIsLogged(sim, w, c);
  }

  lemma {:induction false} StrideEvents(run: Run, k: nat)
    requires IsRun(run) && k < |run.calls|
    ensures var a, b := AppliedEvents(run.worlds[k].log), AppliedEvents(run.worlds[k + 1].log);
            if CommitsAt(run, k) then run.calls[k].at.Some? && b == a + PlanEvents(run.calls[k], run.calls[k].at.value) else b == a
  {
    StrideEffect(run, k);
  }

  lemma {:induction false} EntryOfPlan(c: Call, at: int, i: nat)
    requires i < |c.plan.changes|
    ensures PlanEvents(c, at)[i] == ChangeEntry(c, at, i)
  {
  }

  /** Change `i` of call `j`, which committed, and its entry. */
  ghost predicate EntryBy(run: Run, j: nat, i: nat, e: AuditEvent)
    requires |run.worlds| == |run.calls| + 1
  {
    && j < |run.calls| && CommitsAt(run, j) && run.calls[j].at.Some? && i < |run.calls[j].plan.changes|
    && e == ChangeEntry(run.calls[j], run.calls[j].at.value, i)
  }

  lemma {:induction false} NewEntry(run: Run, k: nat, n: nat, i: nat, e: AuditEvent)
    requires IsRun(run) && k < |run.calls| && |AppliedEvents(run.worlds[k].log)| <= n < |AppliedEvents(run.worlds[k + 1].log)|
    requires i == n - |AppliedEvents(run.worlds[k].log)| && e == AppliedEvents(run.worlds[k + 1].log)[n]
    ensures EntryBy(run, k, i, e)
  {
    StrideEvents(run, k);
    EntryOfPlan(run.calls[k], run.calls[k].at.value, i);
  }

  lemma {:induction false} OldEntry(run: Run, k: nat, n: nat)
    requires IsRun(run) && k < |run.calls| && n < |AppliedEvents(run.worlds[k].log)|
    ensures n < |AppliedEvents(run.worlds[k + 1].log)| && AppliedEvents(run.worlds[k + 1].log)[n] == AppliedEvents(run.worlds[k].log)[n]
  {
    StrideEvents(run, k);
  }

  lemma {:induction false} EntryHasScope(run: Run, j: nat, i: nat, e: AuditEvent)
    requires |run.worlds| == |run.calls| + 1 && EntryBy(run, j, i, e)
    ensures var scopes, kind := run.calls[j].principal.scopes, run.calls[j].plan.changes[i].kind;
            FleetAdmin in scopes || (FleetApply in scopes && (kind == Assign || kind == ReturnToService))
  {
    CommitNeedsScope(run.sim, run.worlds[j], run.calls[j], i);
    var kind := run.calls[j].plan.changes[i].kind;
    assert kind == Assign || kind == ReturnToService || kind in {Release, DrainHost, CompleteDrain, RollOut};
  }

  /** The call during which the event was logged. */
  lemma {:induction false} LoggedDuring(run: Run, k: nat, n: nat) returns (j: nat)
    requires IsRun(run) && k <= |run.calls|
    requires |AppliedEvents(run.worlds[0].log)| <= n < |AppliedEvents(run.worlds[k].log)|
    ensures j < k && |AppliedEvents(run.worlds[j].log)| <= n < |AppliedEvents(run.worlds[j + 1].log)|
    ensures AppliedEvents(run.worlds[j + 1].log)[n] == AppliedEvents(run.worlds[k].log)[n]
  {
    if n < |AppliedEvents(run.worlds[k - 1].log)| {
      OldEntry(run, k - 1, n);
      j := LoggedDuring(run, k - 1, n);
    } else {
      j := k - 1;
    }
  }

  /**
   Every applied event of a run, in full, is the entry of one change of one committed call,
   whose principal had the scope for it.
   */
  lemma {:induction false} EveryAppliedEventWasAuthorized(run: Run, k: nat, n: nat, e: AuditEvent) returns (j: nat, i: nat)
    requires IsRun(run) && k <= |run.calls|
    requires |AppliedEvents(run.worlds[0].log)| <= n < |AppliedEvents(run.worlds[k].log)| && e == AppliedEvents(run.worlds[k].log)[n]
    ensures j < k && EntryBy(run, j, i, e)
    ensures var scopes, kind := run.calls[j].principal.scopes, run.calls[j].plan.changes[i].kind;
            FleetAdmin in scopes || (FleetApply in scopes && (kind == Assign || kind == ReturnToService))
  {
    j := LoggedDuring(run, k, n);
    i := n - |AppliedEvents(run.worlds[j].log)|;
    NewEntry(run, j, n, i, e);
    EntryHasScope(run, j, i, e);
  }
}
