/** What holds in every run of the hub: any steps, in any order, with any arguments. */
module HubRuns {
  import opened Common
  import opened Requests
  import opened Vocabulary
  import opened Store
  import opened Hub
  import Transitions
  import Evidence

  /** A run: the steps, and the document before each of them and after the last. */
  datatype Run = Run(docs: seq<Doc>, steps: seq<Step>)

  ghost predicate Follows(run: Run, k: int) {
    0 <= k < |run.steps| && |run.docs| == |run.steps| + 1 && run.docs[k + 1] == Next(run.docs[k], run.steps[k])
  }

  ghost predicate IsRun(run: Run) {
    && |run.docs| == |run.steps| + 1
    && run.docs[0] == INITIAL
    && forall k {:trigger Follows(run, k)} :: 0 <= k < |run.steps| ==> Follows(run, k)
  }

  /** Every sequence of steps has its run. */
  function RunOf(steps: seq<Step>): (run: Run)
    ensures |run.docs| == |steps| + 1 && run.steps == steps
  {
    if steps == [] then Run([INITIAL], [])
    else
      var front := RunOf(steps[..|steps| - 1]);
      Run(front.docs + [Next(front.docs[|steps| - 1], steps[|steps| - 1])], steps)
  }

  lemma {:induction false} ExtendRun(front: Run, run: Run)
    requires IsRun(front) && |run.steps| == |front.steps| + 1 && |run.docs| == |front.docs| + 1
    requires run.steps[..|front.steps|] == front.steps && run.docs[..|front.docs|] == front.docs
    requires Follows(run, |front.steps|)
    ensures IsRun(run)
  {
    forall k | 0 <= k < |run.steps| ensures Follows(run, k) {
      if k < |front.steps| {
        assert Follows(front, k);
        assert run.docs[k] == front.docs[k] && run.docs[k + 1] == front.docs[k + 1] && run.steps[k] == front.steps[k];
      }
    }
  }

  lemma {:induction false} EveryStepsRun(steps: seq<Step>)
    ensures IsRun(RunOf(steps))
  {
    if steps != [] {
      EveryStepsRun(steps[..|steps| - 1]);
      ExtendRun(RunOf(steps[..|steps| - 1]), RunOf(steps));
    }
  }

  lemma {:induction false} ReachedIsSound(run: Run, k: nat)
    requires IsRun(run) && k <= |run.steps|
    ensures Sound(run.docs[k])
  {
    if k > 0 {
      ReachedIsSound(run, k - 1);
      assert Follows(run, k - 1);
      NextKeepsSound(run.docs[k - 1], run.steps[k - 1]);
    }
  }

  /** One stride of a run, seen from one row. */
  lemma {:induction false} Stride(run: Run, k: nat, i: nat)
    requires IsRun(run) && k < |run.steps| && i < |run.docs[k].rows|
    ensures i < |run.docs[k + 1].rows|
    ensures var r, r' := run.docs[k].rows[i], run.docs[k + 1].rows[i];
            && RowInvariant(r) && RowInvariant(r') && RowStep(r, r')
            && (r'.version != r.version ==> MoveExplained(run.docs[k], run.steps[k], r, r'))
  {
    assert Follows(run, k);
    ReachedIsSound(run, k);
    ReachedIsSound(run, k + 1);
    NextKeepsSound(run.docs[k], run.steps[k]);
    MovesAreExplained(run.docs[k], run.steps[k], i);
  }

  /** Rows that appear in a stride are open and at version 1. */
  lemma {:induction false} Appears(run: Run, k: nat, i: nat)
    requires IsRun(run) && k < |run.steps| && |run.docs[k].rows| <= i < |run.docs[k + 1].rows|
    ensures run.docs[k + 1].rows[i].version == 1
  {
    assert Follows(run, k);
    ReachedIsSound(run, k);
    NextKeepsSound(run.docs[k], run.steps[k]);
  }

  /* ---- Histories ---- */

  /** Every row's history replays, by the table alone, to the row's own state and version; entry numbers are positions. */
  lemma {:induction false} HistoryReplays(run: Run, k: nat, i: nat)
    requires IsRun(run) && k <= |run.steps| && i < |run.docs[k].rows|
    ensures var r := run.docs[k].rows[i];
            && Replay(r.history) == Some(Standing(r.state, r.version))
            && (forall n :: 0 <= n < |r.history| ==> r.history[n].seqNo == n)
            && r.version == 1 + |Moves(r.history)|
  {
    ReachedIsSound(run, k);
    var r := run.docs[k].rows[i];
    forall n | 0 <= n < |r.history| ensures r.history[n].seqNo == n {
      ReplayNumbers(r.history, n);
    }
    VersionCountsMoves(r.history);
  }

  /** Between two moments of a run a row keeps its identity, its history only grows, and without a move nothing is gained. */
  lemma {:induction false} Between(run: Run, j: nat, k: nat, i: nat)
    requires IsRun(run) && j <= k <= |run.steps| && i < |run.docs[j].rows|
    ensures i < |run.docs[k].rows|
    ensures var r, r' := run.docs[j].rows[i], run.docs[k].rows[i];
            && SameIdentity(r, r') && r.history <= r'.history && r.version <= r'.version
            && (r'.version == r.version ==> r'.state == r.state && (r'.digest.Some? ==> r'.digest == r.digest))
  {
    if j < k {
      Between(run, j, k - 1, i);
      Stride(run, k - 1, i);
      var mid, r' := run.docs[k - 1].rows[i], run.docs[k].rows[i];
      RowStepPreserves(mid, r');
      if r'.version == mid.version {
        DigestOnlyComesByBuild(mid, r');
      }
    }
  }

  /** Step `m` brought row `i` to the version it has at `k`, for an allowed reason. */
  ghost predicate LastMovedAt(run: Run, i: nat, m: nat, k: nat)
    requires |run.docs| == |run.steps| + 1 && k <= |run.steps|
  {
    && m < k && i < |run.docs[m].rows| && i < |run.docs[m + 1].rows| && i < |run.docs[k].rows|
    && var r, r', now := run.docs[m].rows[i], run.docs[m + 1].rows[i], run.docs[k].rows[i];
    && r.version + 1 == r'.version == now.version && r'.state == now.state
    && MoveExplained(run.docs[m], run.steps[m], r, r')
    && (now.digest.Some? ==> now.digest == r'.digest)
  }

  lemma {:induction false} LastMove(run: Run, k: nat, i: nat) returns (m: nat)
    requires IsRun(run) && k <= |run.steps| && i < |run.docs[k].rows| && run.docs[k].rows[i].version > 1
    ensures LastMovedAt(run, i, m, k)
  {
    if i >= |run.docs[k - 1].rows| {
      Appears(run, k - 1, i);
    }
    Stride(run, k - 1, i);
    var before, now := run.docs[k - 1].rows[i], run.docs[k].rows[i];
    RowStepPreserves(before, now);
    if before.version != now.version {
      m := k - 1;
    } else {
      m := LastMove(run, k - 1, i);
      DigestOnlyComesByBuild(before, now);
    }
  }

  /* ---- Where a fulfilled row comes from ---- */

  /** Step `a` is an operator's approval of row `i`. */
  ghost predicate ApprovedAt(run: Run, i: nat, a: nat)
    requires |run.docs| == |run.steps| + 1
  {
    && a < |run.steps| && i < |run.docs[a].rows| && i < |run.docs[a + 1].rows|
    && var s, r, r' := run.steps[a], run.docs[a].rows[i], run.docs[a + 1].rows[i];
    && s.Decide? && s.id == r.id && s.decision.approve && Transitions.MayDecide(s.decision)
    && r.state == Open && r'.state == Approved && r'.version == r.version + 1
  }

  /** Step `b` is a builder's accepted build for row `i`, for the profile the row requires. */
  ghost predicate BuiltAt(run: Run, i: nat, b: nat)
    requires |run.docs| == |run.steps| + 1
  {
    && b < |run.steps| && i < |run.docs[b].rows| && i < |run.docs[b + 1].rows|
    && var s, r, r' := run.steps[b], run.docs[b].rows[i], run.docs[b + 1].rows[i];
    && s.Report? && s.id == r.id && s.build.credentialClass == Some("builder")
    && r.requiredProfile.Some? && s.build.profile == r.requiredProfile && Truthy(s.build.digest)
    && r.state == Approved && r'.state == Built && r'.version == r.version + 1
  }

  /** Step `c` is a verified heartbeat of the row's own lane: the digest on record is `digest`, the accepted list lacks the tool, the probe was not flagged incomplete. */
  ghost predicate ConvergedAt(run: Run, i: nat, c: nat, digest: Option<string>)
    requires |run.docs| == |run.steps| + 1
  {
    && c < |run.steps| && i < |run.docs[c].rows| && i < |run.docs[c + 1].rows|
    && var s, d, r, r' := run.steps[c], run.docs[c], run.docs[c].rows[i], run.docs[c + 1].rows[i];
    && s.Heartbeat? && s.beat.runner == r.lane && Verifies(d.runners, s.beat.runner, s.beat.presented)
    && var t := TickOf(d, FindRunner(d.runners, s.beat.runner), s.beat);
    && t.recorded == digest && t.accepted.Some? && r.tool !in t.accepted.value && t.probe != Some(false)
    && r.state == Built && r'.state == Fulfilled && r'.version == r.version + 1
  }

  /** Approval, build and convergence, in that order, with no other move of the row in between or after. */
  ghost predicate Chain(run: Run, i: nat, a: nat, b: nat, c: nat, k: nat)
    requires |run.docs| == |run.steps| + 1 && k <= |run.steps|
  {
    && a < b < c < k && i < |run.docs[k].rows|
    && ApprovedAt(run, i, a) && BuiltAt(run, i, b) && ConvergedAt(run, i, c, run.steps[b].build.digest)
    && run.docs[a + 1].rows[i].version == run.docs[b].rows[i].version
    && run.docs[b + 1].rows[i].version == run.docs[c].rows[i].version
    && run.docs[c + 1].rows[i].version == run.docs[k].rows[i].version
  }

  lemma {:induction false} MovedOnce(run: Run, k: nat, i: nat)
    requires IsRun(run) && k <= |run.steps| && i < |run.docs[k].rows| && run.docs[k].rows[i].state != Open
    ensures run.docs[k].rows[i].version > 1
  {
    HistoryReplays(run, k, i);
    ReachedIsSound(run, k);
  }

  lemma {:induction false} FindConvergence(run: Run, k: nat, i: nat) returns (c: nat)
    requires IsRun(run) && k <= |run.steps| && i < |run.docs[k].rows| && run.docs[k].rows[i].state == Fulfilled
    ensures c < k && i < |run.docs[c].rows| && ConvergedAt(run, i, c, run.docs[c].rows[i].digest)
    ensures Truthy(run.docs[c].rows[i].digest) && run.docs[c + 1].rows[i].version == run.docs[k].rows[i].version
  {
    MovedOnce(run, k, i);
    c := LastMove(run, k, i);
  }

  lemma {:induction false} FindBuild(run: Run, k: nat, i: nat) returns (b: nat)
    requires IsRun(run) && k <= |run.steps| && i < |run.docs[k].rows| && run.docs[k].rows[i].state == Built
    ensures b < k && BuiltAt(run, i, b) && run.docs[b + 1].rows[i].version == run.docs[k].rows[i].version
    ensures run.docs[k].rows[i].digest.Some? ==> run.docs[k].rows[i].digest == run.steps[b].build.digest
  {
    MovedOnce(run, k, i);
    b := LastMove(run, k, i);
  }

  lemma {:induction false} FindApproval(run: Run, k: nat, i: nat) returns (a: nat)
    requires IsRun(run) && k <= |run.steps| && i < |run.docs[k].rows| && run.docs[k].rows[i].state == Approved
    ensures a < k && ApprovedAt(run, i, a) && run.docs[a + 1].rows[i].version == run.docs[k].rows[i].version
  {
    MovedOnce(run, k, i);
    a := LastMove(run, k, i);
  }

  lemma {:induction false} FindChain(run: Run, k: nat, i: nat) returns (a: nat, b: nat, c: nat)
    requires IsRun(run) && k <= |run.steps| && i < |run.docs[k].rows| && run.docs[k].rows[i].state == Fulfilled
    ensures Chain(run, i, a, b, c, k) && run.docs[c].rows[i].digest.Some?
  {
    c := FindConvergence(run, k, i);
    b := FindBuild(run, c, i);
    a := FindApproval(run, b, i);
  }

  /** In every run, a fulfilled row was approved, then built for its required profile, then seen running that very digest with the tool present. */
  lemma {:induction false} FulfilledIsEarned(run: Run, k: nat, i: nat)
    requires IsRun(run) && k <= |run.steps| && i < |run.docs[k].rows| && run.docs[k].rows[i].state == Fulfilled
    ensures exists a, b, c :: Chain(run, i, a, b, c, k)
  {
    var a, b, c := FindChain(run, k, i);
  }

  /** ... and its history says so: the last three moves are the approval, the build and the convergence. */
  lemma {:induction false} FulfilledHistoryEnds(run: Run, k: nat, i: nat)
    requires IsRun(run) && k <= |run.steps| && i < |run.docs[k].rows| && run.docs[k].rows[i].state == Fulfilled
    ensures var m := Moves(run.docs[k].rows[i].history);
            var n := |m|;
            n >= 3 && m[n - 3] == DecideApprove && m[n - 2] == ReportBuilt && m[n - 1] == Converge
  {
    ReachedIsSound(run, k);
  }

  /** A row that has the same version at two moments has it, and the same state, in between. */
  lemma {:induction false} Steady(run: Run, x: nat, j: nat, y: nat, i: nat)
    requires IsRun(run) && x <= j <= y <= |run.steps| && i < |run.docs[x].rows| && i < |run.docs[y].rows|
    requires run.docs[x].rows[i].version == run.docs[y].rows[i].version
    ensures i < |run.docs[j].rows|
    ensures var r := run.docs[j].rows[i];
            && r.version == run.docs[y].rows[i].version && r.state == run.docs[x].rows[i].state
            && (run.docs[y].rows[i].digest.Some? ==> r.digest.Some?)
  {
    Between(run, x, j, i);
    Between(run, j, y, i);
  }

  /** With the versions and states of a chain, a moment at which the row is built without a digest lies before it. */
  lemma {:induction false} NotBuiltYet(run: Run, a: nat, b: nat, c: nat, j: nat, k: nat, i: nat)
    requires IsRun(run) && a < b < c < k <= |run.steps| && j <= k && i < |run.docs[j].rows|
    requires i < |run.docs[a + 1].rows| && i < |run.docs[b].rows| && i < |run.docs[b + 1].rows|
    requires i < |run.docs[c].rows| && i < |run.docs[c + 1].rows| && i < |run.docs[k].rows|
    requires run.docs[a + 1].rows[i].state == Approved && run.docs[c + 1].rows[i].state == Fulfilled
    requires run.docs[a + 1].rows[i].version == run.docs[b].rows[i].version
    requires run.docs[b + 1].rows[i].version == run.docs[c].rows[i].version && run.docs[c].rows[i].digest.Some?
    requires run.docs[c + 1].rows[i].version == run.docs[k].rows[i].version
    requires run.docs[j].rows[i].state == Built && run.docs[j].rows[i].digest.None?
    ensures j <= a
  {
    if a < j <= b {
      Steady(run, a + 1, j, b, i);
    } else if b < j <= c {
      Steady(run, b + 1, j, c, i);
    } else if c < j {
      Steady(run, c + 1, j, k, i);
    }
  }

  /** A built row whose awaited digest was given up gets fulfilled only through a fresh approval, build and convergence. */
  lemma {:induction false} GivenUpBuildStartsOver(run: Run, j: nat, k: nat, i: nat)
    requires IsRun(run) && j <= k <= |run.steps| && i < |run.docs[j].rows| && i < |run.docs[k].rows|
    requires run.docs[j].rows[i].state == Built && run.docs[j].rows[i].digest.None?
    requires run.docs[k].rows[i].state == Fulfilled
    ensures exists a, b, c :: j <= a && Chain(run, i, a, b, c, k)
  {
    var a, b, c := FindChain(run, k, i);
    NotBuiltYet(run, a, b, c, j, k, i);
  }

  /** Step by step: only a builder's failure report takes such a row anywhere, and it takes it to open. */
  lemma {:induction false} GivenUpBuildStays(run: Run, k: nat, i: nat)
    requires IsRun(run) && k < |run.steps| && i < |run.docs[k].rows|
    requires run.docs[k].rows[i].state == Built && run.docs[k].rows[i].digest.None?
    ensures i < |run.docs[k + 1].rows|
    ensures var s, r, r' := run.steps[k], run.docs[k].rows[i], run.docs[k + 1].rows[i];
            || (r'.state == Built && r'.digest.None? && r'.version == r.version)
            || (s.Report? && s.id == r.id && s.build.digest.None? && r'.state == Open)
  {
    Stride(run, k, i);
    RowStepPreserves(run.docs[k].rows[i], run.docs[k + 1].rows[i]);
  }

  /* ---- Giving up against the same digest twice ---- */

  /** Step `k` makes row `i` give up the digest it awaited. */
  ghost predicate GivesUpAt(run: Run, i: nat, k: nat)
    requires |run.docs| == |run.steps| + 1
  {
    k < |run.steps| && i < |run.docs[k].rows| && i < |run.docs[k + 1].rows| && Cleared(run.docs[k].rows[i], run.docs[k + 1].rows[i])
  }

  /** Step `k` makes row `i` converge. */
  ghost predicate ConvergesAt(run: Run, i: nat, k: nat)
    requires |run.docs| == |run.steps| + 1
  {
    k < |run.steps| && i < |run.docs[k].rows| && i < |run.docs[k + 1].rows| && Moved(run.docs[k].rows[i], run.docs[k + 1].rows[i], Converge)
  }

  /** The digest a row last gave up for, if it is still remembered. */
  function GivenUpFor(run: Run, i: nat, k: nat): (r: Option<string>) {
    if k < |run.docs| && i < |run.docs[k].rows| then run.docs[k].rows[i].awaitingCleared else None
  }

  /** A row gives up only on its own lane's verified evidence of an image that is neither the awaited one nor the one it gave up for last. */
  lemma {:induction false} GivingUpIsExplained(run: Run, k: nat, i: nat)
    requires IsRun(run) && GivesUpAt(run, i, k)
    ensures ClearExplained(run.docs[k], run.steps[k], run.docs[k].rows[i], run.docs[k + 1].rows[i])
  {
    ReachedIsSound(run, k);
    assert Follows(run, k);
    ClearsAreExplained(run.docs[k], run.steps[k], i);
  }

  lemma {:induction false} RowStays(run: Run, j: nat, k: nat, i: nat)
    requires IsRun(run) && j <= k <= |run.steps| && i < |run.docs[j].rows|
    ensures i < |run.docs[k].rows|
  {
    Between(run, j, k, i);
  }

  lemma {:induction false} MemoryStride(run: Run, k: nat, i: nat)
    requires IsRun(run) && k < |run.steps| && i < |run.docs[k].rows| && GivenUpFor(run, i, k + 1) != GivenUpFor(run, i, k)
    ensures GivesUpAt(run, i, k) || ConvergesAt(run, i, k)
  {
    Stride(run, k, i);
    AwaitingAfter(run.docs[k].rows[i], run.docs[k + 1].rows[i]);
  }

  /** What is remembered changes only when the row gives up again or converges. */
  lemma {:induction false} MemoryChanges(run: Run, j: nat, k: nat, i: nat) returns (m: nat)
    requires IsRun(run) && j <= k <= |run.steps| && i < |run.docs[j].rows| && GivenUpFor(run, i, j) != GivenUpFor(run, i, k)
    ensures j <= m < k && (GivesUpAt(run, i, m) || ConvergesAt(run, i, m)) && GivenUpFor(run, i, m + 1) != GivenUpFor(run, i, j)
  {
    RowStays(run, j, k - 1, i);
    if GivenUpFor(run, i, k - 1) != GivenUpFor(run, i, j) {
      m := MemoryChanges(run, j, k - 1, i);
    } else {
      m := k - 1;
      MemoryStride(run, m, i);
    }
  }

  /** A row never gives up twice for the same image, unless in between it converged or gave up for another one. */
  lemma {:induction false} GivesUpForAnImageOnce(run: Run, j: nat, k: nat, i: nat)
    requires IsRun(run) && j < k && GivesUpAt(run, i, j) && GivesUpAt(run, i, k)
    requires GivenUpFor(run, i, j + 1) == GivenUpFor(run, i, k + 1)
    ensures exists m :: j < m < k && (GivesUpAt(run, i, m) || ConvergesAt(run, i, m)) && GivenUpFor(run, i, m + 1) != GivenUpFor(run, i, j + 1)
  {
    GivingUpIsExplained(run, k, i);
    var m := MemoryChanges(run, j + 1, k, i);
  }

  /* ---- Refusals on record ---- */

  /** An entry that says who was refused what, and when, at which state and version. */
  predicate RecordsRefusal(e: Entry, r: Row, d: Transitions.Decision) {
    && e.seqNo == |r.history| && e.at == d.now && e.actor == d.actor && e.principal == d.principal && e.credentialId == d.credentialId
    && e.from == Some(r.state) && e.to == r.state && e.versionBefore == Some(r.version) && e.versionAfter == r.version
    && (|| e.event == RejectedCredentialClass || e.event == RejectedConflict || e.event == RejectedReplay
        || e.event == RejectedMissingNote || e.event == RejectedTransition)
  }

  /** The answers that go on record. */
  predicate OnRecord(reply: Transitions.Reply) {
    reply.RefusedClass? || reply.Conflict? || reply.Replayed? || reply.MissingNote? || reply.NotInTable?
  }

  lemma {:induction false} RefusalRecorded(r: Row, decision: Transitions.Decision, consumed: seq<string>)
    requires RowInvariant(r) && OnRecord(Transitions.Decide(r, decision, consumed).reply)
    ensures var o := Transitions.Decide(r, decision, consumed);
            var h := DecidedRow(o, decision.nonce).history;
            |h| == |r.history| + 1 && RecordsRefusal(h[|r.history|], r, decision)
  {
    Transitions.RefusedOnRecord(r, decision, consumed);
  }

  lemma {:induction false} RefusalInDoc(d: Doc, d': Doc, id: string, decision: Transitions.Decision, i: nat)
    requires Sound(d) && i < |d.rows| && d.rows[i].id == id && d' == DecideDoc(d, id, decision)
    requires OnRecord(DecideReply(d, id, decision))
    ensures && |d'.rows| == |d.rows|
            && |d'.rows[i].history| == |d.rows[i].history| + 1
            && RecordsRefusal(d'.rows[i].history[|d.rows[i].history|], d.rows[i], decision)
  {
    assert FindById(d.rows, id) == i;
    RefusalRecorded(d.rows[i], decision, d.consumed);
  }

  lemma {:induction false} RefusalAt(run: Run, j: nat, i: nat)
    requires IsRun(run) && j < |run.steps| && run.steps[j].Decide?
    requires i < |run.docs[j].rows| && run.docs[j].rows[i].id == run.steps[j].id
    requires OnRecord(DecideReply(run.docs[j], run.steps[j].id, run.steps[j].decision))
    ensures var r := run.docs[j].rows[i];
            && i < |run.docs[j + 1].rows| && |run.docs[j + 1].rows[i].history| == |r.history| + 1
            && RecordsRefusal(run.docs[j + 1].rows[i].history[|r.history|], r, run.steps[j].decision)
  {
    ReachedIsSound(run, j);
    DecideFollows(run, j);
    RefusalInDoc(run.docs[j], run.docs[j + 1], run.steps[j].id, run.steps[j].decision, i);
  }

  lemma {:induction false} DecideFollows(run: Run, j: nat)
    requires IsRun(run) && j < |run.steps| && run.steps[j].Decide?
    ensures run.docs[j + 1] == DecideDoc(run.docs[j], run.steps[j].id, run.steps[j].decision)
  {
    assert Follows(run, j);
  }

  lemma {:induction false} PrefixKeeps(h: seq<Entry>, h': seq<Entry>, n: nat)
    requires h <= h' && n < |h|
    ensures n < |h'| && h'[n] == h[n]
  {
  }

  /** A refused decision that goes on record leaves its entry for good. */
  lemma {:induction false} RefusalStaysOnRecord(run: Run, j: nat, k: nat, i: nat)
    requires IsRun(run) && j < k <= |run.steps| && run.steps[j].Decide?
    requires i < |run.docs[j].rows| && run.docs[j].rows[i].id == run.steps[j].id
    requires OnRecord(DecideReply(run.docs[j], run.steps[j].id, run.steps[j].decision))
    ensures i < |run.docs[k].rows|
    ensures var r, h := run.docs[j].rows[i], run.docs[k].rows[i].history;
            |r.history| < |h| && RecordsRefusal(h[|r.history|], r, run.steps[j].decision)
  {
    RefusalAt(run, j, i);
    Between(run, j + 1, k, i);
    PrefixKeeps(run.docs[j + 1].rows[i].history, run.docs[k].rows[i].history, |run.docs[j].rows[i].history|);
  }

  /* ---- Evidence, profiles, identity ---- */

  /** Build id, digest and fulfilment stamp agree with the state in every reachable document. */
  lemma {:induction false} EvidenceAgreesAlways(run: Run, k: nat, i: nat)
    requires IsRun(run) && k <= |run.steps| && i < |run.docs[k].rows|
    ensures var r := run.docs[k].rows[i];
            && (r.buildId.Some? <==> r.state == Built || r.state == Fulfilled)
            && (r.digest.Some? ==> r.state == Built || r.state == Fulfilled)
            && (r.state == Fulfilled ==> Truthy(r.digest))
            && (r.fulfilledAt.Some? <==> r.state == Fulfilled)
  {
    ReachedIsSound(run, k);
  }

  /** A row opened while its lane had no profile is never built or fulfilled, whatever is assigned later. */
  lemma {:induction false} ProfilelessNeverBuilt(run: Run, j: nat, k: nat, i: nat)
    requires IsRun(run) && j <= k <= |run.steps| && i < |run.docs[j].rows| && run.docs[j].rows[i].requiredProfile.None?
    ensures i < |run.docs[k].rows|
    ensures run.docs[k].rows[i].state != Built && run.docs[k].rows[i].state != Fulfilled
  {
    Between(run, j, k, i);
    ReachedIsSound(run, k);
  }

  /** A denied row stays denied: no implemented step uses the two table rows that leave it. */
  lemma {:induction false} DeniedStays(run: Run, j: nat, k: nat, i: nat)
    requires IsRun(run) && j <= k <= |run.steps| && i < |run.docs[j].rows| && run.docs[j].rows[i].state == Denied
    ensures i < |run.docs[k].rows|
    ensures run.docs[k].rows[i].state == Denied && run.docs[k].rows[i].version == run.docs[j].rows[i].version
  {
    if j < k {
      DeniedStays(run, j, k - 1, i);
      Stride(run, k - 1, i);
      RowStepPreserves(run.docs[k - 1].rows[i], run.docs[k].rows[i]);
    }
  }

  /** Rows are unique by (lane, tool) and by id in every reachable document. */
  lemma {:induction false} RowsStayUnique(run: Run, k: nat, i: nat, j: nat)
    requires IsRun(run) && k <= |run.steps| && i < j < |run.docs[k].rows|
    ensures var rows := run.docs[k].rows;
            rows[i].id != rows[j].id && (rows[i].lane != rows[j].lane || rows[i].tool != rows[j].tool)
  {
    ReachedIsSound(run, k);
  }

  /* ---- Nonces ---- */

  /** Step `j` is a decision that is applied. */
  ghost predicate DecidesAt(run: Run, j: nat)
    requires |run.docs| == |run.steps| + 1
  {
    j < |run.steps| && run.steps[j].Decide? && DecideReply(run.docs[j], run.steps[j].id, run.steps[j].decision).Applied?
  }

  lemma {:induction false} ConsumedGrowsOnce(d: Doc, s: Step)
    ensures d.consumed <= Next(d, s).consumed
  {
  }

  lemma {:induction false} ConsumedGrows(run: Run, j: nat, k: nat)
    requires IsRun(run) && j <= k <= |run.steps|
    ensures run.docs[j].consumed <= run.docs[k].consumed
  {
    if j < k {
      ConsumedGrows(run, j, k - 1);
      assert Follows(run, k - 1);
      ConsumedGrowsOnce(run.docs[k - 1], run.steps[k - 1]);
    }
  }

  lemma {:induction false} AppliedDecision(d: Doc, id: string, decision: Transitions.Decision)
    requires Sound(d) && DecideReply(d, id, decision).Applied?
    ensures decision.nonce.Some? && decision.nonce.value !in d.consumed
    ensures DecideDoc(d, id, decision).consumed == d.consumed + [decision.nonce.value]
  {
    DecisionOnRow(d.rows[FindById(d.rows, id)], decision, d.consumed);
  }

  lemma {:induction false} DecideStride(run: Run, j: nat)
    requires IsRun(run) && j < |run.steps| && run.steps[j].Decide?
    ensures run.docs[j + 1].consumed == DecideDoc(run.docs[j], run.steps[j].id, run.steps[j].decision).consumed
  {
    assert Follows(run, j);
  }

  lemma {:induction false} NonceSpentAt(run: Run, j: nat)
    requires IsRun(run) && DecidesAt(run, j)
    ensures var nonce := run.steps[j].decision.nonce;
            nonce.Some? && nonce.value !in run.docs[j].consumed && nonce.value in run.docs[j + 1].consumed
  {
    ReachedIsSound(run, j);
    DecideStride(run, j);
    AppliedDecision(run.docs[j], run.steps[j].id, run.steps[j].decision);
  }

  lemma {:induction false} NonceStaysSpent(run: Run, j: nat, k: nat, nonce: string)
    requires IsRun(run) && j <= k <= |run.steps| && nonce in run.docs[j].consumed
    ensures nonce in run.docs[k].consumed
  {
    ConsumedGrows(run, j, k);
    var n :| 0 <= n < |run.docs[j].consumed| && run.docs[j].consumed[n] == nonce;
    assert run.docs[k].consumed[n] == nonce;
  }

  lemma {:induction false} NonceSpentBy(run: Run, j: nat, k: nat)
    requires IsRun(run) && j < k <= |run.steps| && DecidesAt(run, j)
    ensures run.steps[j].decision.nonce.Some? && run.steps[j].decision.nonce.value in run.docs[k].consumed
  {
    NonceSpentAt(run, j);
    NonceStaysSpent(run, j + 1, k, run.steps[j].decision.nonce.value);
  }

  /** Each nonce drives at most one applied decision, over all rows and the whole run. */
  lemma {:induction false} NonceIsSingleUse(run: Run, j: nat, k: nat)
    requires IsRun(run) && j < k && DecidesAt(run, j) && DecidesAt(run, k)
    ensures run.steps[j].decision.nonce != run.steps[k].decision.nonce
  {
    NonceSpentBy(run, j, k);
    NonceSpentAt(run, k);
  }

  /** The consumed list has no duplicates and is exactly as long as the histories hold decisions. */
  lemma {:induction false} ConsumedCountsDecisions(run: Run, k: nat)
    requires IsRun(run) && k <= |run.steps|
    ensures NoDuplicates(run.docs[k].consumed)
    ensures |run.docs[k].consumed| == TotalDecisions(run.docs[k].rows)
  {
    ReachedIsSound(run, k);
  }

  /* ---- Compare-and-set ---- */

  /** A decision or build report on request `id` that names version `v` and is applied. */
  ghost predicate AppliesAtVersion(d: Doc, s: Step, id: string, v: int) {
    match s
    case Decide(id', decision) =>
      id' == id && decision.expectedVersion == Some(v) && DecideReply(d, id', decision).Applied?
    case Report(id', build) =>
      id' == id && build.expectedVersion == Some(v) && ReportReply(d, id', build).Applied?
    case _ => false
  }

  lemma {:induction false} AppliedMovesOn(d: Doc, s: Step, id: string, v: int)
    requires Sound(d) && AppliesAtVersion(d, s, id, v)
    ensures var i := FindById(d.rows, id);
            i < |d.rows| && i < |Next(d, s).rows| && d.rows[i].version == v && Next(d, s).rows[i].version == v + 1
  {
    var i := FindById(d.rows, id);
    match s
    case Decide(_, decision) =>
      Transitions.DecideAppliesIff(d.rows[i], decision, d.consumed);
      Transitions.DecideIsRowStep(d.rows[i], decision, d.consumed);
    case Report(_, build) =>
      Evidence.ReportBuildAppliesIff(d.rows[i], build);
      Evidence.ReportBuildIsRowStep(d.rows[i], build);
  }

  /** Step `j` applies at version `v` of request `id`. */
  ghost predicate WinsAt(run: Run, j: nat, id: string, v: int)
    requires |run.docs| == |run.steps| + 1
  {
    j < |run.steps| && AppliesAtVersion(run.docs[j], run.steps[j], id, v)
  }

  lemma {:induction false} WinnerMovesOn(run: Run, j: nat, id: string, v: int)
    requires IsRun(run) && WinsAt(run, j, id, v)
    ensures var i := FindById(run.docs[j].rows, id);
            && i < |run.docs[j].rows| && i < |run.docs[j + 1].rows|
            && run.docs[j].rows[i].version == v && run.docs[j + 1].rows[i].version == v + 1
  {
    ReachedIsSound(run, j);
    assert Follows(run, j);
    AppliedMovesOn(run.docs[j], run.steps[j], id, v);
  }

  /** Of all decisions and build reports that name the same version of the same request, at most one applies. */
  lemma {:induction false} AtMostOneWins(run: Run, j: nat, k: nat, id: string, v: int)
    requires IsRun(run) && j < k < |run.steps| && WinsAt(run, j, id, v)
    ensures !WinsAt(run, k, id, v)
  {
    WinnerMovesOn(run, j, id, v);
    var i := FindById(run.docs[j].rows, id);
    Between(run, j, j + 1, i);
    Between(run, j + 1, k, i);
    ReachedIsSound(run, k);
    SameRowFound(run.docs[k].rows, id, i);
    if WinsAt(run, k, id, v) {
      WinnerMovesOn(run, k, id, v);
    }
  }

  lemma {:induction false} SameRowFound(rows: seq<Row>, id: string, i: nat)
    requires UniqueRows(rows) && i < |rows| && rows[i].id == id
    ensures FindById(rows, id) == i
  {
  }

  /** An idempotent answer changes no state, version or history anywhere and consumes nothing. */
  lemma {:induction false} IdempotentAnswer(d: Doc, id: string, decision: Transitions.Decision)
    requires Sound(d) && DecideReply(d, id, decision).AlreadyApplied?
    ensures var d' := DecideDoc(d, id, decision);
            && d'.consumed == d.consumed && |d'.rows| == |d.rows|
            && forall i :: 0 <= i < |d.rows| ==> Idle(d.rows[i], d'.rows[i])
  {
    var k := FindById(d.rows, id);
    var row := DecidedRow(Transitions.Decide(d.rows[k], decision, d.consumed), decision.nonce);
    Transitions.DecideIsRowStep(d.rows[k], decision, d.consumed);
    OneIdle(d.rows, k, row);
  }

  lemma {:induction false} OneIdle(rows: seq<Row>, k: nat, r: Row)
    requires k < |rows| && Idle(rows[k], r)
    ensures forall i :: 0 <= i < |rows| ==> Idle(rows[i], rows[k := r][i])
  {
  }

  /* ---- One heartbeat ---- */

  /** The tick of a verified heartbeat for its own lane. */
  function BeatTick(d: Doc, b: Beat): (t: Option<Evidence.Tick>) {
    if Verifies(d.runners, b.runner, b.presented) then Some(TickOf(d, FindRunner(d.runners, b.runner), b)) else None
  }

  /** One heartbeat touches only its own lane, moves each row at most once, and fulfils a row, reopens it or gives up its digest exactly on its evidence. */
  lemma {:induction false} HeartbeatEffect(d: Doc, b: Beat, i: nat)
    requires Sound(d) && i < |d.rows|
    ensures |d.rows| <= |HeartbeatDoc(d, b).rows|
    ensures var r, r' := d.rows[i], HeartbeatDoc(d, b).rows[i];
            var t := BeatTick(d, b);
            && (r.lane != b.runner ==> r' == r)
            && r.version <= r'.version <= r.version + 1
            && (r.state != Fulfilled && r'.state == Fulfilled <==> t.Some? && Evidence.Fulfils(r, t.value))
            && (r.state == Fulfilled && r'.state == Open <==> t.Some? && Evidence.Reopens(r, t.value))
            && (Cleared(r, r') <==> t.Some? && Evidence.Clears(r, t.value))
            && (r'.history == r.history <==>
                  t.None? || !(Evidence.Fulfils(r, t.value) || Evidence.Reopens(r, t.value) || Evidence.Clears(r, t.value)))
  {
    HeartbeatSteps(d, b);
    RowStepPreserves(d.rows[i], HeartbeatDoc(d, b).rows[i]);
    if Verifies(d.runners, b.runner, b.presented) {
      var k := FindRunner(d.runners, b.runner);
      var t := TickOf(d, k, b);
      GapOfSteps(d, k, b);
      WeighAfterIdle(d.rows[i], GapOf(d, k, b).rows[i], t);
    }
  }

  /** What a heartbeat opens is its own lane's: open, at version 1, for the profile the lane has. */
  lemma {:induction false} HeartbeatOpens(d: Doc, b: Beat, i: nat)
    requires Sound(d) && |d.rows| <= i < |HeartbeatDoc(d, b).rows|
    ensures BeatTick(d, b).Some? && BeatTick(d, b).value.accepted.Some?
    ensures var r := HeartbeatDoc(d, b).rows[i];
            && r.lane == b.runner && r.tool in BeatTick(d, b).value.accepted.value
            && r.state == Open && r.version == 1 && r.nonces == [] && r.digest.None?
            && r.requiredProfile == d.runners[FindRunner(d.runners, b.runner)].profile
            && (forall j :: 0 <= j < |d.rows| ==> d.rows[j].id != r.id && (d.rows[j].lane != r.lane || d.rows[j].tool != r.tool))
  {
    var k := FindRunner(d.runners, b.runner);
    OpenedRow(d, k, b, i);
    BeatOnRow(d, k, b, i);
  }

  /** A row opened by a gap report. */
  lemma {:induction false} OpenedRow(d: Doc, k: nat, b: Beat, i: nat)
    requires Sound(d) && k < |d.runners| && |d.rows| <= i < |GapOf(d, k, b).rows|
    ensures var o := GapOf(d, k, b);
            && o.accepted.Some? && Fresh(o.rows[i], d.runners[k].name, d.runners[k].profile) && o.rows[i].tool in o.accepted.value
            && (forall j :: 0 <= j < |d.rows| ==>
                  d.rows[j].id != o.rows[i].id && (d.rows[j].lane != o.rows[i].lane || d.rows[j].tool != o.rows[i].tool))
  {
    var o := GapOf(d, k, b);
    GapOfSteps(d, k, b);
    assert Fresh(o.rows[i], d.runners[k].name, d.runners[k].profile);
    forall j | 0 <= j < |d.rows|
      ensures d.rows[j].id != o.rows[i].id && (d.rows[j].lane != o.rows[i].lane || d.rows[j].tool != o.rows[i].tool)
    {
      assert Idle(d.rows[j], o.rows[j]);
    }
    OpenedToolNamed(d.rows, d.runners[k].name, d.runners[k].profile, FirstOccurrences(o.accepted.value), b.gapAt, i);
    FirstOccurrencesDistinct(o.accepted.value);
    assert o.rows[i].tool in Elements(FirstOccurrences(o.accepted.value));
  }

  /** Only tools that were named are opened. */
  lemma {:induction false} OpenedToolNamed(rows: seq<Row>, lane: string, profile: Option<string>, tools: seq<string>, now: string, i: nat)
    requires |rows| <= i < |RecordTools(rows, lane, profile, tools, now)|
    ensures RecordTools(rows, lane, profile, tools, now)[i].tool in tools
    decreases |tools|
  {
    var n := |tools| - 1;
    var mid := RecordTools(rows, lane, profile, tools[..n], now);
    if i < |mid| {
      OpenedToolNamed(rows, lane, profile, tools[..n], now, i);
    }
  }

  /** Silence, a refused list (an unknown profile included) and an incomplete probe fulfil nothing. */
  lemma {:induction false} NoFulfilmentWithoutEvidence(d: Doc, b: Beat, i: nat)
    requires Sound(d) && i < |d.rows| && d.rows[i].state != Fulfilled
    requires || b.missing.None? || Validate(b.missing.value).Refused? || b.probe == Some(JBool(false))
             || (FindRunner(d.runners, b.runner) < |d.runners| && !KnownProfile(d.runners[FindRunner(d.runners, b.runner)].profile))
    ensures |d.rows| <= |HeartbeatDoc(d, b).rows| && HeartbeatDoc(d, b).rows[i].state != Fulfilled
  {
    HeartbeatEffect(d, b, i);
  }
}
