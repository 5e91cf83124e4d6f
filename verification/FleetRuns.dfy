/** What holds over every run of `apply_plan` calls that threads state, ledger and log. */
module FleetRuns {
  import opened Common
  import opened FleetModel
  import opened Fleet

  /** The worlds before each call and after the last. */
  datatype Run = Run(sim: Simulator, worlds: seq<World>, calls: seq<Call>)

  ghost predicate Follows(run: Run, k: int) {
    0 <= k < |run.calls| && |run.worlds| == |run.calls| + 1 && run.worlds[k + 1] == After(run.sim, run.worlds[k], run.calls[k])
  }

  /** Any simulator that makes one revision per change, any calls: retries, duplicates, stale plans, refusals. */
  ghost predicate IsRun(run: Run) {
    && |run.worlds| == |run.calls| + 1
    && (forall k {:trigger Follows(run, k)} :: 0 <= k < |run.calls| ==> Follows(run, k))
    && DistinctKeys(run.worlds[0].ledger) && LogSound(run.worlds[0].log)
    && OneRevisionEach(run.sim)
  }

  ghost predicate OneRevisionEach(sim: Simulator) {
    forall s, c, at :: sim(s, c, at).Ok? ==> sim(s, c, at).state.revision == s.revision + 1
  }

  ghost predicate DistinctKeys(ledger: seq<LedgerEntry>) {
    forall i, j :: 0 <= i < j < |ledger| ==> ledger[i].key != ledger[j].key
  }

  ghost predicate CommitsAt(run: Run, k: nat)
    requires |run.worlds| == |run.calls| + 1
  {
    k < |run.calls| && Apply(run.sim, run.worlds[k], run.calls[k]).Applied?
  }

  /** The calls among the first `k` that committed, in order. */
  ghost function Committed(run: Run, k: nat): (cs: seq<Call>)
    requires |run.worlds| == |run.calls| + 1 && k <= |run.calls|
  {
    if k == 0 then []
    else if CommitsAt(run, k - 1) then Committed(run, k - 1) + [run.calls[k - 1]]
    else Committed(run, k - 1)
  }

  /* ---- What those calls amount to, read independently of the engine ---- */

  /** Simulating whole plans, one after the other. */
  function Replay(sim: Simulator, s: DesiredState, cs: seq<Call>): (p: Progress) {
    if cs == [] then Reached(s)
    else
      var n := |cs| - 1;
      match Replay(sim, s, cs[..n])
      case Reached(mid) => if cs[n].at.None? then Broken else Advance(sim, mid, cs[n].plan.changes, cs[n].at.value)
      case other => other
  }

  function TotalChanges(cs: seq<Call>): (n: nat) {
    if cs == [] then 0 else TotalChanges(cs[..|cs| - 1]) + |cs[|cs| - 1].plan.changes|
  }

  /** One ledger entry per plan, stamped with the revision the plan ends in. */
  function Ledgered(base: int, cs: seq<Call>): (r: seq<LedgerEntry>) {
    if cs == [] then []
    else
      var n := |cs| - 1;
      Ledgered(base, cs[..n]) + [LedgerEntry(cs[n].key, IdOf(cs[n].plan), base + TotalChanges(cs))]
  }

  /** The events of whole plans. */
  function EventsOf(cs: seq<Call>): (r: seq<AuditEvent>) {
    if cs == [] then []
    else
      var n := |cs| - 1;
      EventsOf(cs[..n]) + if cs[n].at.Some? then PlanEvents(cs[n], cs[n].at.value) else []
  }

  /** The `applied` events of a log, without their numbers. */
  function AppliedEvents(log: seq<AuditEvent>): (r: seq<AuditEvent>) {
    if log == [] then []
    else
      var n := |log| - 1;
      if log[n].verdict == WasApplied then AppliedEvents(log[..n]) + [log[n].(seqNo := 0)] else AppliedEvents(log[..n])
  }

  /* ---- One call ---- */

  lemma {:induction false} AdvanceRevision(sim: Simulator, s: DesiredState, changes: seq<Change>, at: int)
    requires OneRevisionEach(sim) && Advance(sim, s, changes, at).Reached?
    ensures Advance(sim, s, changes, at).state.revision == s.revision + |changes|
  {
    if changes != [] {
      AdvanceRevision(sim, s, changes[..|changes| - 1], at);
    }
  }

  lemma {:induction false} AppliedEventsAppend(log: seq<AuditEvent>, e: AuditEvent)
    ensures AppliedEvents(log + [e]) == AppliedEvents(log) + if e.verdict == WasApplied then [e.(seqNo := 0)] else []
  {
    assert (log + [e])[..|log|] == log;
  }

  lemma {:induction false} AppendAllLast(log: seq<AuditEvent>, events: seq<AuditEvent>)
    requires events != []
    ensures var n := |events| - 1;
            AppendAll(log, events) == AppendAll(log, events[..n]) + [events[n].(seqNo := |log| + n + 1)]
  {
  }

  lemma {:induction false} AppliedEventsAppendAll(log: seq<AuditEvent>, events: seq<AuditEvent>)
    requires forall i :: 0 <= i < |events| ==> events[i].verdict == WasApplied && events[i].seqNo == 0
    ensures AppliedEvents(AppendAll(log, events)) == AppliedEvents(log) + events
    decreases |events|
  {
    if events == [] {
      assert AppendAll(log, events) == log;
    } else {
      var n := |events| - 1;
      var e := events[n].(seqNo := |log| + n + 1);
      AppliedEventsAppendAll(log, events[..n]);
      AppendAllLast(log, events);
      AppliedEventsAppend(AppendAll(log, events[..n]), e);
      assert e.(seqNo := 0) == events[n];
      assert AppliedEvents(log) + events[..n] + [events[n]] == AppliedEvents(log) + events by {
        assert events[..n] + [events[n]] == events;
      }
    }
  }

  lemma {:induction false} AppendAllSound(log: seq<AuditEvent>, events: seq<AuditEvent>, at: int)
    requires LogSound(log) && (events != [] ==> InOrder(log, at))
    requires forall i :: 0 <= i < |events| ==> events[i].at == at
    ensures LogSound(AppendAll(log, events))
  {
  }

  /** A commit: the whole plan, under a key never used before. */
  ghost predicate Commit(sim: Simulator, w: World, c: Call, w': World) {
    && c.at.Some? && Lookup(w.ledger, c.key) == |w.ledger|
    && Advance(sim, w.state, c.plan.changes, c.at.value) == Reached(w'.state)
    && w'.ledger == w.ledger + [LedgerEntry(c.key, IdOf(c.plan), w'.state.revision)]
    && AppliedEvents(w'.log) == AppliedEvents(w.log) + PlanEvents(c, c.at.value)
  }

  /** Anything else: state and ledger untouched, at most one entry in the log and not an applied one. */
  ghost predicate NoCommit(w: World, w': World) {
    && w'.state == w.state && w'.ledger == w.ledger
    && (w'.log == w.log || (|w'.log| == |w.log| + 1 && w'.log[|w.log|].verdict != WasApplied))
    && AppliedEvents(w'.log) == AppliedEvents(w.log)
  }

  lemma {:induction false} CommitEffect(sim: Simulator, w: World, c: Call)
    requires LogSound(w.log) && Apply(sim, w, c).Applied?
    ensures Commit(sim, w, c, After(sim, w, c)) && LogSound(After(sim, w, c).log) && w.log <= After(sim, w, c).log
  {
    var events := PlanEvents(c, c.at.value);
    assert Execute(sim, w.state, w.log, c, c.at.value).Done?;
    AppliedEventsAppendAll(w.log, events);
    AppendAllSound(w.log, events, c.at.value);
  }

  lemma {:induction false} NoCommitShape(sim: Simulator, w: World, c: Call)
    requires !Apply(sim, w, c).Applied?
    ensures var w' := After(sim, w, c);
            && w'.state == w.state && w'.ledger == w.ledger && (w'.log == w.log || Annotated(w.log, w'.log))
  {
  }

  /** One entry, not an applied one, was appended in order. */
  ghost predicate Annotated(log: seq<AuditEvent>, log': seq<AuditEvent>) {
    && |log'| == |log| + 1 && log' == log + [log'[|log|]]
    && var e := log'[|log|];
    && e.verdict != WasApplied && e.seqNo == |log| + 1 && InOrder(log, e.at)
  }

  lemma {:induction false} NoCommitEffect(w: World, w': World)
    requires LogSound(w.log) && w'.state == w.state && w'.ledger == w.ledger && (w'.log == w.log || Annotated(w.log, w'.log))
    ensures NoCommit(w, w') && LogSound(w'.log) && w.log <= w'.log
  {
    if w'.log != w.log {
      AppliedEventsAppend(w.log, w'.log[|w.log|]);
    }
  }

  /** One stride of a run. */
  lemma {:induction false} Stride(run: Run, k: nat)
    requires IsRun(run) && k < |run.calls| && LogSound(run.worlds[k].log)
    ensures var w, w' := run.worlds[k], run.worlds[k + 1];
            && LogSound(w'.log) && w.log <= w'.log
            && (if CommitsAt(run, k) then Commit(run.sim, w, run.calls[k], w') else NoCommit(w, w'))
  {
    assert Follows(run, k);
    if CommitsAt(run, k) {
      CommitEffect(run.sim, run.worlds[k], run.calls[k]);
    } else {
      NoCommitShape(run.sim, run.worlds[k], run.calls[k]);
      NoCommitEffect(run.worlds[k], run.worlds[k + 1]);
    }
  }

  /* ---- Every run ---- */

  /** World `w` is `w0` after exactly the plans `cs`: their state, their ledger entries, their audit events. */
  ghost predicate Accounts(sim: Simulator, w0: World, cs: seq<Call>, w: World) {
    && Replay(sim, w0.state, cs) == Reached(w.state)
    && w.state.revision == w0.state.revision + TotalChanges(cs)
    && w.ledger == w0.ledger + Ledgered(w0.state.revision, cs)
    && DistinctKeys(w.ledger)
    && AppliedEvents(w.log) == AppliedEvents(w0.log) + EventsOf(cs)
    && LogSound(w.log)
  }

  /** One more committed plan, in each of the independent readings. */
  lemma {:induction false} OneMorePlan(sim: Simulator, s: DesiredState, base: int, cs: seq<Call>, c: Call)
    requires c.at.Some? && Replay(sim, s, cs).Reached?
    ensures Replay(sim, s, cs + [c]) == Advance(sim, Replay(sim, s, cs).state, c.plan.changes, c.at.value)
    ensures TotalChanges(cs + [c]) == TotalChanges(cs) + |c.plan.changes|
    ensures Ledgered(base, cs + [c]) == Ledgered(base, cs) + [LedgerEntry(c.key, IdOf(c.plan), base + TotalChanges(cs + [c]))]
    ensures EventsOf(cs + [c]) == EventsOf(cs) + PlanEvents(c, c.at.value)
  {
    var whole := cs + [c];
    assert whole[..|cs|] == cs && whole[|cs|] == c;
  }

  lemma {:induction false} KeysStayDistinct(ledger: seq<LedgerEntry>, e: LedgerEntry)
    requires DistinctKeys(ledger) && Lookup(ledger, e.key) == |ledger|
    ensures DistinctKeys(ledger + [e])
  {
  }

  lemma {:induction false} ConcatAssociates<T>(a: seq<T>, b: seq<T>, c: seq<T>)
    ensures a + (b + c) == (a + b) + c
  {
  }

  /** One more element on the right of a sum of two sequences. */
  lemma {:induction false} SumGrows<T>(x: seq<T>, y: seq<T>, z: seq<T>, xy: seq<T>, yz: seq<T>)
    requires xy == x + y && yz == y + z
    ensures xy + z == x + yz
  {
    ConcatAssociates(x, y, z);
  }

  lemma {:induction false} CommitState(sim: Simulator, w0: World, cs: seq<Call>, w: World, c: Call, w': World)
    requires OneRevisionEach(sim) && Accounts(sim, w0, cs, w) && Commit(sim, w, c, w')
    ensures Replay(sim, w0.state, cs + [c]) == Reached(w'.state)
    ensures w'.state.revision == w0.state.revision + TotalChanges(cs + [c])
  {
    AdvanceRevision(sim, w.state, c.plan.changes, c.at.value);
    OneMorePlan(sim, w0.state, w0.state.revision, cs, c);
  }

  lemma {:induction false} CommitLedger(sim: Simulator, w0: World, cs: seq<Call>, w: World, c: Call, w': World)
    requires Accounts(sim, w0, cs, w) && Commit(sim, w, c, w')
    requires w'.state.revision == w0.state.revision + TotalChanges(cs + [c])
    ensures w'.ledger == w0.ledger + Ledgered(w0.state.revision, cs + [c]) && DistinctKeys(w'.ledger)
  {
    var base := w0.state.revision;
    var e := LedgerEntry(c.key, IdOf(c.plan), w'.state.revision);
    OneMorePlan(sim, w0.state, base, cs, c);
    SumGrows(w0.ledger, Ledgered(base, cs), [e], w.ledger, Ledgered(base, cs + [c]));
    KeysStayDistinct(w.ledger, e);
  }

  lemma {:induction false} CommitLog(sim: Simulator, w0: World, cs: seq<Call>, w: World, c: Call, w': World)
    requires Accounts(sim, w0, cs, w) && Commit(sim, w, c, w')
    ensures AppliedEvents(w'.log) == AppliedEvents(w0.log) + EventsOf(cs + [c])
  {
    OneMorePlan(sim, w0.state, w0.state.revision, cs, c);
    SumGrows(AppliedEvents(w0.log), EventsOf(cs), PlanEvents(c, c.at.value), AppliedEvents(w.log), EventsOf(cs + [c]));
  }

  lemma {:induction false} CommitAccounts(sim: Simulator, w0: World, cs: seq<Call>, w: World, c: Call, w': World)
    requires OneRevisionEach(sim) && Accounts(sim, w0, cs, w) && Commit(sim, w, c, w') && LogSound(w'.log)
    ensures Accounts(sim, w0, cs + [c], w')
  {
    CommitState(sim, w0, cs, w, c, w');
    CommitLedger(sim, w0, cs, w, c, w');
    CommitLog(sim, w0, cs, w, c, w');
  }

  /** Over any run of calls, the state is the initial state with exactly the committed plans simulated, each once and in
      ledger order; the ledger names exactly those plans, each key once; the log's applied events are exactly theirs, whole. */
  lemma {:induction false} ExactlyOnce(run: Run, k: nat)
    requires IsRun(run) && k <= |run.calls|
    ensures Accounts(run.sim, run.worlds[0], Committed(run, k), run.worlds[k])
  {
    if k == 0 {
    } else {
      ExactlyOnce(run, k - 1);
      Stride(run, k - 1);
      var w0, cs, w, w' := run.worlds[0], Committed(run, k - 1), run.worlds[k - 1], run.worlds[k];
      if CommitsAt(run, k - 1) {
        CommitAccounts(run.sim, w0, cs, w, run.calls[k - 1], w');
      } else {
        NoCommitAccounts(run.sim, w0, cs, w, w');
      }
    }
  }

  lemma {:induction false} NoCommitAccounts(sim: Simulator, w0: World, cs: seq<Call>, w: World, w': World)
    requires Accounts(sim, w0, cs, w) && NoCommit(w, w') && LogSound(w'.log)
    ensures Accounts(sim, w0, cs, w')
  {
  }

  ghost predicate Grew(w: World, w': World) {
    w.ledger <= w'.ledger && w.log <= w'.log
  }

  lemma {:induction false} GrewTwice(a: World, b: World, c: World)
    requires Grew(a, b) && Grew(b, c)
    ensures Grew(a, c)
  {
  }

  lemma {:induction false} StrideEffect(run: Run, k: nat)
    requires IsRun(run) && k < |run.calls|
    ensures var w, w' := run.worlds[k], run.worlds[k + 1];
            if CommitsAt(run, k) then Commit(run.sim, w, run.calls[k], w') else NoCommit(w, w')
  {
    ExactlyOnce(run, k);
    Stride(run, k);
  }

  lemma {:induction false} StrideGrows(run: Run, k: nat)
    requires IsRun(run) && k < |run.calls|
    ensures Grew(run.worlds[k], run.worlds[k + 1])
  {
    ExactlyOnce(run, k);
    Stride(run, k);
  }

  lemma {:induction false} LedgerGrows(run: Run, j: nat, k: nat)
    requires IsRun(run) && j <= k <= |run.calls|
    ensures Grew(run.worlds[j], run.worlds[k])
  {
    if j < k {
      LedgerGrows(run, j, k - 1);
      StrideGrows(run, k - 1);
      GrewTwice(run.worlds[j], run.worlds[k - 1], run.worlds[k]);
    }
  }

  /** The ledger position a commit leaves for good. */
  lemma {:induction false} CommitIsOnRecord(run: Run, j: nat, k: nat)
    requires IsRun(run) && j < k <= |run.calls| && CommitsAt(run, j)
    ensures var n := Lookup(run.worlds[k].ledger, run.calls[j].key);
            && n < |run.worlds[k].ledger|
            && run.worlds[k].ledger[n] == LedgerEntry(run.calls[j].key, IdOf(run.calls[j].plan), run.worlds[j + 1].state.revision)
  {
    var n, e := |run.worlds[j].ledger|, LedgerEntry(run.calls[j].key, IdOf(run.calls[j].plan), run.worlds[j + 1].state.revision);
    StrideEffect(run, j);
    LedgerGrows(run, j + 1, k);
    KeysDistinct(run, k);
    LookupFinds(run.worlds[k].ledger, n, e);
  }

  lemma {:induction false} KeysDistinct(run: Run, k: nat)
    requires IsRun(run) && k <= |run.calls|
    ensures DistinctKeys(run.worlds[k].ledger)
  {
    ExactlyOnce(run, k);
  }

  lemma {:induction false} LookupFinds(ledger: seq<LedgerEntry>, n: nat, e: LedgerEntry)
    requires DistinctKeys(ledger) && n < |ledger| && ledger[n] == e
    ensures Lookup(ledger, e.key) == n
  {
  }

  /** How a call on a recorded key is answered. */
  lemma {:induction false} RecordedKeyAnswer(sim: Simulator, w: World, c: Call)
    requires Lookup(w.ledger, c.key) < |w.ledger|
    ensures var e, o := w.ledger[Lookup(w.ledger, c.key)], Apply(sim, w, c);
            && !o.Applied?
            && (o.Replayed? ==> e.planId == IdOf(c.plan) && o.revision == e.revision && o.world.state == w.state && o.world.ledger == w.ledger)
            && (Audible(w, c) && MayApply(c.principal, c.plan.changes) ==> if e.planId == IdOf(c.plan) then o.Replayed? else o.Refused?)
  {
    AuthorizedIff(c.principal, c.plan);
  }

  /** A key that committed never commits again: the same plan is answered from the ledger with the revision it produced,
      another plan under that key is refused, and neither touches the state. */
  lemma {:induction false} RetriesNeverReapply(run: Run, j: nat, k: nat)
    requires IsRun(run) && j < k < |run.calls| && CommitsAt(run, j) && run.calls[k].key == run.calls[j].key
    ensures var o, c := Apply(run.sim, run.worlds[k], run.calls[k]), run.calls[k];
            && !o.Applied?
            && (o.Replayed? ==> o.revision == run.worlds[j + 1].state.revision && o.world.state == run.worlds[k].state)
            && (Audible(run.worlds[k], c) && MayApply(c.principal, c.plan.changes) ==>
                  if IdOf(c.plan) == IdOf(run.calls[j].plan) then o.Replayed? else o.Refused?)
  {
    CommitIsOnRecord(run, j, k);
    RecordedKeyAnswer(run.sim, run.worlds[k], run.calls[k]);
  }

  /** Exactly when a call on a built plan commits. */
  lemma {:induction false} CommitsIff(sim: Simulator, w: World, c: Call)
    requires Fleet.Built(c.plan) && OneRevisionEach(sim)
    ensures Apply(sim, w, c).Applied? <==>
            && Audible(w, c) && MayApply(c.principal, c.plan.changes)
            && (forall i :: 0 <= i < |w.ledger| ==> w.ledger[i].key != c.key)
            && c.plan.base == w.state.revision
            && Advance(sim, w.state, c.plan.changes, c.at.value).Reached?
  {
    AuthorizedIff(c.principal, c.plan);
    if c.at.Some? && Advance(sim, w.state, c.plan.changes, c.at.value).Reached? {
      AdvanceRevision(sim, w.state, c.plan.changes, c.at.value);
    }
  }

  /* ---- With the fleet's own simulator ---- */

  lemma {:induction false} SimulateMakesOneRevision()
    ensures OneRevisionEach(Simulate)
  {
    forall s, c, at | Simulate(s, c, at).Ok? ensures Simulate(s, c, at).state.revision == s.revision + 1 {
      SimulateKeeps(s, c, at);
    }
  }

  lemma {:induction false} AdvanceCapacity(s: DesiredState, changes: seq<Change>, at: int)
    requires WithinCapacity(s) && Advance(Simulate, s, changes, at).Reached?
    ensures WithinCapacity(Advance(Simulate, s, changes, at).state)
  {
    if changes != [] {
      var n := |changes| - 1;
      AdvanceCapacity(s, changes[..n], at);
      SimulateKeeps(Advance(Simulate, s, changes[..n], at).state, changes[n], at);
    }
  }

  lemma {:induction false} StepCapacity(w: World, c: Call, w': World, commits: bool)
    requires WithinCapacity(w.state) && if commits then Commit(Simulate, w, c, w') else NoCommit(w, w')
    ensures WithinCapacity(w'.state)
  {
    if commits {
      AdvanceCapacity(w.state, c.plan.changes, c.at.value);
    }
  }

  lemma {:induction false} StrideCapacity(run: Run, k: nat)
    requires IsRun(run) && run.sim == Simulate && k < |run.calls| && WithinCapacity(run.worlds[k].state)
    ensures WithinCapacity(run.worlds[k + 1].state)
  {
    StrideEffect(run, k);
    StepCapacity(run.worlds[k], run.calls[k], run.worlds[k + 1], CommitsAt(run, k));
  }

  /** No run ever puts a host over its slots, or leaves work on a drained host. */
  lemma {:induction false} CapacityIsKept(run: Run, k: nat)
    requires IsRun(run) && run.sim == Simulate && k <= |run.calls| && WithinCapacity(run.worlds[0].state)
    ensures WithinCapacity(run.worlds[k].state)
  {
    if k > 0 {
      CapacityIsKept(run, k - 1);
      StrideCapacity(run, k - 1);
    }
  }
}
