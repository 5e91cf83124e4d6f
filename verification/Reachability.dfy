/** Which rows can still be fulfilled, from any reachable document, and how. */
module Reachability {
  import opened Common
  import opened Requests
  import opened Vocabulary
  import opened Store
  import opened Hub
  import opened HubRuns
  import Enrollment
  import Transitions
  import Evidence

  /* ---- Runs that go on ---- */

  function Last(run: Run): (d: Doc)
    requires run.docs != []
  {
    run.docs[|run.docs| - 1]
  }

  /** `run'` is a run that begins with `run`. */
  ghost predicate Continues(run: Run, run': Run) {
    IsRun(run) && IsRun(run') && run.steps <= run'.steps && run.docs <= run'.docs
  }

  function Extend(run: Run, s: Step): (run': Run)
    requires run.docs != []
  {
    Run(run.docs + [Next(Last(run), s)], run.steps + [s])
  }

  lemma {:induction false} ExtendContinues(run: Run, s: Step)
    requires IsRun(run)
    ensures Continues(run, Extend(run, s)) && Last(Extend(run, s)) == Next(Last(run), s)
  {
    var run' := Extend(run, s);
    assert Follows(run', |run.steps|);
    ExtendRun(run, run');
  }

  lemma {:induction false} ContinuesTwice(a: Run, b: Run, c: Run)
    requires Continues(a, b) && Continues(b, c)
    ensures Continues(a, c)
  {
  }

  /* ---- Lanes and profiles are known ---- */

  /** Profiles are reviewed ones, and every row's lane is enrolled or was. */
  ghost predicate Grounded(d: Doc) {
    && (forall k :: 0 <= k < |d.runners| ==> KnownProfile(d.runners[k].profile))
    && (forall i :: 0 <= i < |d.rows| ==> KnownProfile(d.rows[i].requiredProfile))
    && (forall i :: 0 <= i < |d.rows| ==> FindRunner(d.runners, d.rows[i].lane) < |d.runners|)
  }

  /** Runners keep their places and names; a profile is only ever a reviewed one, a secret is kept or lost. */
  lemma {:induction false} RunnerAfter(d: Doc, s: Step, k: nat)
    requires k < |d.runners|
    ensures var d' := Next(d, s);
            && k < |d'.runners| && d'.runners[k].name == d.runners[k].name
            && (KnownProfile(d.runners[k].profile) ==> KnownProfile(d'.runners[k].profile))
            && (d'.runners[k].enrolled ==> d.runners[k].enrolled)
            && (d'.runners[k].secret.Some? ==> d'.runners[k].secret == d.runners[k].secret)
  {
  }

  lemma {:induction false} NewRunnersKnown(d: Doc, s: Step, k: nat)
    requires |d.runners| <= k < |Next(d, s).runners|
    ensures KnownProfile(Next(d, s).runners[k].profile)
  {
  }

  lemma {:induction false} StillFound(runners: seq<Runner>, k: nat, name: string)
    requires k < |runners| && runners[k].name == name
    ensures FindRunner(runners, name) < |runners|
  {
  }

  lemma {:induction false} RowGrounded(d: Doc, s: Step, i: nat)
    requires Sound(d) && Grounded(d) && i < |Next(d, s).rows|
    ensures KnownProfile(Next(d, s).rows[i].requiredProfile)
    ensures FindRunner(Next(d, s).runners, Next(d, s).rows[i].lane) < |Next(d, s).runners|
  {
    NextKeepsSound(d, s);
    var lane := Next(d, s).rows[i].lane;
    if i < |d.rows| {
      RowStepPreserves(d.rows[i], Next(d, s).rows[i]);
    } else {
      RowOpenedBy(d, s, i);
    }
    var k := FindRunner(d.runners, lane);
    RunnerAfter(d, s, k);
    StillFound(Next(d, s).runners, k, lane);
  }

  /** A new row is a heartbeat's, and its lane a runner's. */
  lemma {:induction false} RowOpenedBy(d: Doc, s: Step, i: nat)
    requires Sound(d) && |d.rows| <= i < |Next(d, s).rows|
    ensures var r := Next(d, s).rows[i];
            var k := FindRunner(d.runners, r.lane);
            k < |d.runners| && r.requiredProfile == d.runners[k].profile
  {
    if s.Heartbeat? {
      HeartbeatOpens(d, s.beat, i);
    }
  }

  lemma {:induction false} GroundedAfter(d: Doc, s: Step)
    requires Sound(d) && Grounded(d)
    ensures Grounded(Next(d, s))
  {
    var d' := Next(d, s);
    forall k | 0 <= k < |d'.runners| ensures KnownProfile(d'.runners[k].profile) {
      if k < |d.runners| {
        RunnerAfter(d, s, k);
      } else {
        NewRunnersKnown(d, s, k);
      }
    }
    forall i | 0 <= i < |d'.rows|
      ensures KnownProfile(d'.rows[i].requiredProfile) && FindRunner(d'.runners, d'.rows[i].lane) < |d'.runners|
    {
      RowGrounded(d, s, i);
    }
  }

  /** In every reachable document profiles are reviewed ones and lanes are runners. */
  lemma {:induction false} ReachedIsGrounded(run: Run, k: nat)
    requires IsRun(run) && k <= |run.steps|
    ensures Grounded(run.docs[k])
  {
    if k > 0 {
      ReachedIsGrounded(run, k - 1);
      ReachedIsSound(run, k - 1);
      assert Follows(run, k - 1);
      GroundedAfter(run.docs[k - 1], run.steps[k - 1]);
    }
  }

  /* ---- One step each ---- */

  /** A nonce longer than every consumed one. */
  function FreshNonce(consumed: seq<string>): (n: string)
    ensures n != ""
    ensures forall i :: 0 <= i < |consumed| ==> |consumed[i]| < |n|
  {
    if consumed == [] then "n"
    else
      var front := FreshNonce(consumed[..|consumed| - 1]);
      front + consumed[|consumed| - 1]
  }

  function Approval(r: Row, nonce: string): (s: Step) {
    Decide(r.id, Transitions.Decision(true, Some("operator"), Some(Transitions.DECIDE_SCOPE), None,
                                      Some("operator"), Some("operator"), Some(nonce), None, None, ""))
  }

  function Build(r: Row, digest: Option<string>): (s: Step) {
    Report(r.id, Evidence.BuildReport(Some("builder"), None, Some("builder"), r.requiredProfile,
                                      Some("build"), digest, Some("note"), Some(r.version), ""))
  }

  /** A heartbeat that runs `digest` and misses nothing. */
  function Healthy(r: Row, secret: string, digest: string): (s: Step) {
    Heartbeat(Beat(r.lane, secret, Some(JList([])), None, Some(JString(digest)), "", "", ""))
  }

  /** Row `i` is in `state` after the step, and still the same request; the runners are as they were. */
  ghost predicate Brings(d: Doc, s: Step, i: nat, state: State)
    requires i < |d.rows|
  {
    var d' := Next(d, s);
    i < |d'.rows| && d'.rows[i].state == state && SameIdentity(d.rows[i], d'.rows[i]) && d'.runners == d.runners
  }

  lemma {:induction false} DecideBrings(d: Doc, i: nat, decision: Transitions.Decision, state: State)
    requires Sound(d) && i < |d.rows|
    requires var r' := DecidedRow(Transitions.Decide(d.rows[i], decision, d.consumed), decision.nonce);
             r'.state == state && SameIdentity(d.rows[i], r')
    ensures Brings(d, Decide(d.rows[i].id, decision), i, state)
  {
    SameRowFound(d.rows, d.rows[i].id, i);
  }

  lemma {:induction false} ReportReplaces(d: Doc, i: nat, b: Evidence.BuildReport)
    requires UniqueRows(d.rows) && i < |d.rows|
    ensures Next(d, Report(d.rows[i].id, b)) == d.(rows := d.rows[i := Evidence.ReportBuild(d.rows[i], b).row])
  {
    SameRowFound(d.rows, d.rows[i].id, i);
  }

  /** A step that replaces row `i` and nothing else. */
  lemma {:induction false} ReplacedBrings(d: Doc, s: Step, i: nat, r': Row, state: State)
    requires i < |d.rows| && Next(d, s) == d.(rows := d.rows[i := r']) && r'.state == state && SameIdentity(d.rows[i], r')
    ensures Brings(d, s, i, state) && Next(d, s).rows[i] == r'
  {
  }

  lemma {:induction false} ReportBrings(d: Doc, i: nat, b: Evidence.BuildReport, r': Row, state: State)
    requires Sound(d) && i < |d.rows| && r' == Evidence.ReportBuild(d.rows[i], b).row
    requires r'.state == state && SameIdentity(d.rows[i], r')
    ensures Brings(d, Report(d.rows[i].id, b), i, state) && Next(d, Report(d.rows[i].id, b)).rows[i] == r'
  {
    ReportReplaces(d, i, b);
    ReplacedBrings(d, Report(d.rows[i].id, b), i, r', state);
  }

  lemma {:induction false} RowApproved(r: Row, consumed: seq<string>)
    requires RowInvariant(r) && r.state == Open
    ensures var decision := Approval(r, FreshNonce(consumed)).decision;
            var r' := DecidedRow(Transitions.Decide(r, decision, consumed), decision.nonce);
            r'.state == Approved && SameIdentity(r, r')
  {
    var decision := Approval(r, FreshNonce(consumed)).decision;
    Transitions.DecideAppliesIff(r, decision, consumed);
    DecisionOnRow(r, decision, consumed);
  }

  lemma {:induction false} Approves(d: Doc, i: nat)
    requires Sound(d) && i < |d.rows| && d.rows[i].state == Open
    ensures Brings(d, Approval(d.rows[i], FreshNonce(d.consumed)), i, Approved)
  {
    RowApproved(d.rows[i], d.consumed);
    DecideBrings(d, i, Approval(d.rows[i], FreshNonce(d.consumed)).decision, Approved);
  }

  lemma {:induction false} KnownIsTruthy(profile: Option<string>)
    requires KnownProfile(profile) && profile.Some?
    ensures Truthy(profile)
  {
  }

  lemma {:induction false} RowBuilt(r: Row, digest: string)
    requires RowInvariant(r) && r.state == Approved && digest != "" && r.requiredProfile.Some? && KnownProfile(r.requiredProfile)
    ensures var r' := Evidence.ReportBuild(r, Build(r, Some(digest)).build).row;
            r'.state == Built && SameIdentity(r, r') && r'.digest == Some(digest)
  {
    KnownIsTruthy(r.requiredProfile);
    Evidence.ReportBuildAppliesIff(r, Build(r, Some(digest)).build);
    Evidence.ReportBuildIsRowStep(r, Build(r, Some(digest)).build);
  }

  lemma {:induction false} Builds(d: Doc, i: nat, digest: string)
    requires Sound(d) && i < |d.rows| && d.rows[i].state == Approved && digest != ""
    requires d.rows[i].requiredProfile.Some? && KnownProfile(d.rows[i].requiredProfile)
    ensures Brings(d, Build(d.rows[i], Some(digest)), i, Built)
    ensures Next(d, Build(d.rows[i], Some(digest))).rows[i].digest == Some(digest)
  {
    var b := Build(d.rows[i], Some(digest)).build;
    RowBuilt(d.rows[i], digest);
    ReportBrings(d, i, b, Evidence.ReportBuild(d.rows[i], b).row, Built);
  }

  lemma {:induction false} RowFailed(r: Row)
    requires RowInvariant(r) && r.state == Built
    ensures var r' := Evidence.ReportBuild(r, Build(r, None).build).row;
            r'.state == Open && SameIdentity(r, r')
  {
    Evidence.ReportBuildAppliesIff(r, Build(r, None).build);
    Evidence.ReportBuildIsRowStep(r, Build(r, None).build);
  }

  lemma {:induction false} Fails(d: Doc, i: nat)
    requires Sound(d) && i < |d.rows| && d.rows[i].state == Built
    ensures Brings(d, Build(d.rows[i], None), i, Open)
  {
    var b := Build(d.rows[i], None).build;
    RowFailed(d.rows[i]);
    ReportBrings(d, i, b, Evidence.ReportBuild(d.rows[i], b).row, Open);
  }

  lemma {:induction false} EmptyListAccepted(rows: seq<Row>, lane: string, profile: Option<string>, now: string)
    requires KnownProfile(profile)
    ensures RecordGap(rows, lane, JList([]), profile, now).accepted == Some([])
  {
    assert Validate(JList([])).Accepted?;
  }

  lemma {:induction false} HealthyFulfils(d: Doc, i: nat, secret: string, digest: string)
    requires Grounded(d) && i < |d.rows| && d.rows[i].state == Built && d.rows[i].digest == Some(digest) && digest != ""
    requires Verifies(d.runners, d.rows[i].lane, secret)
    ensures var t := BeatTick(d, Healthy(d.rows[i], secret, digest).beat); t.Some? && Evidence.Fulfils(d.rows[i], t.value)
  {
    var b := Healthy(d.rows[i], secret, digest).beat;
    var k := FindRunner(d.runners, b.runner);
    EmptyListAccepted(d.rows, d.runners[k].name, d.runners[k].profile, b.gapAt);
  }

  lemma {:induction false} Converges(d: Doc, i: nat, secret: string, digest: string)
    requires Sound(d) && Grounded(d) && i < |d.rows| && d.rows[i].state == Built && d.rows[i].digest == Some(digest) && digest != ""
    requires Verifies(d.runners, d.rows[i].lane, secret)
    ensures var d' := Next(d, Healthy(d.rows[i], secret, digest)); i < |d'.rows| && d'.rows[i].state == Fulfilled
  {
    HealthyFulfils(d, i, secret, digest);
    HeartbeatEffect(d, Healthy(d.rows[i], secret, digest).beat, i);
  }

  /* ---- All of them together ---- */

  /** A row that nothing stands in the way of for good. */
  ghost predicate Hopeful(d: Doc, i: nat)
    requires i < |d.rows|
  {
    var r := d.rows[i];
    r.state == Fulfilled || (r.state != Denied && r.requiredProfile.Some? && exists secret :: Verifies(d.runners, r.lane, secret))
  }

  /** Row `i` is fulfilled at the end of a run that begins with `run`. */
  ghost predicate FulfilledIn(run: Run, run': Run, i: nat) {
    Continues(run, run') && i < |Last(run').rows| && Last(run').rows[i].state == Fulfilled
  }

  lemma {:induction false} LastIs(run: Run)
    requires IsRun(run)
    ensures Sound(Last(run)) && Grounded(Last(run))
  {
    ReachedIsSound(run, |run.steps|);
    ReachedIsGrounded(run, |run.steps|);
  }

  /** The next step of the way, with the row still the same request. */
  lemma {:induction false} Onward(run: Run, i: nat, s: Step, state: State, secret: string) returns (run': Run)
    requires IsRun(run) && i < |Last(run).rows| && Brings(Last(run), s, i, state) && Verifies(Last(run).runners, Last(run).rows[i].lane, secret)
    ensures run' == Extend(run, s) && Continues(run, run') && Last(run') == Next(Last(run), s) && i < |Last(run').rows| && Last(run').rows[i].state == state
    ensures SameIdentity(Last(run).rows[i], Last(run').rows[i]) && Verifies(Last(run').runners, Last(run').rows[i].lane, secret)
  {
    run' := Extend(run, s);
    ExtendContinues(run, s);
  }

  lemma {:induction false} FromApproved(run: Run, i: nat, secret: string) returns (run': Run)
    requires IsRun(run) && i < |Last(run).rows| && Last(run).rows[i].state == Approved
    requires Last(run).rows[i].requiredProfile.Some? && Verifies(Last(run).runners, Last(run).rows[i].lane, secret)
    ensures FulfilledIn(run, run', i) && |run'.steps| == |run.steps| + 2
  {
    LastIs(run);
    Builds(Last(run), i, "digest");
    var built := Onward(run, i, Build(Last(run).rows[i], Some("digest")), Built, secret);
    LastIs(built);
    Converges(Last(built), i, secret, "digest");
    ExtendContinues(built, Healthy(Last(built).rows[i], secret, "digest"));
    run' := Extend(built, Healthy(Last(built).rows[i], secret, "digest"));
    ContinuesTwice(run, built, run');
  }

  /** An open row is three steps from being fulfilled: an approval, a build and a heartbeat. */
  lemma {:induction false} FromOpen(run: Run, i: nat, secret: string) returns (run': Run)
    requires IsRun(run) && i < |Last(run).rows| && Last(run).rows[i].state == Open
    requires Last(run).rows[i].requiredProfile.Some? && Verifies(Last(run).runners, Last(run).rows[i].lane, secret)
    ensures FulfilledIn(run, run', i) && |run'.steps| == |run.steps| + 3
  {
    LastIs(run);
    Approves(Last(run), i);
    var approved := Onward(run, i, Approval(Last(run).rows[i], FreshNonce(Last(run).consumed)), Approved, secret);
    run' := FromApproved(approved, i, secret);
    ContinuesTwice(run, approved, run');
  }

  lemma {:induction false} FromBuilt(run: Run, i: nat, secret: string) returns (run': Run)
    requires IsRun(run) && i < |Last(run).rows| && Last(run).rows[i].state == Built
    requires Last(run).rows[i].requiredProfile.Some? && Verifies(Last(run).runners, Last(run).rows[i].lane, secret)
    ensures FulfilledIn(run, run', i) && |run'.steps| == |run.steps| + 4
  {
    LastIs(run);
    Fails(Last(run), i);
    var failed := Onward(run, i, Build(Last(run).rows[i], None), Open, secret);
    run' := FromOpen(failed, i, secret);
    ContinuesTwice(run, failed, run');
  }

  /** From any reachable document a hopeful row is fulfilled within four more steps. */
  lemma {:induction false} HopefulCanBeFulfilled(run: Run, i: nat) returns (run': Run)
    requires IsRun(run) && i < |Last(run).rows| && Hopeful(Last(run), i)
    ensures FulfilledIn(run, run', i) && |run'.steps| <= |run.steps| + 4
  {
    var r := Last(run).rows[i];
    if r.state == Fulfilled {
      run' := run;
    } else {
      var secret :| Verifies(Last(run).runners, r.lane, secret);
      match r.state
      case Open => run' := FromOpen(run, i, secret);
      case Approved => run' := FromApproved(run, i, secret);
      case Built => run' := FromBuilt(run, i, secret);
    }
  }

  /* ---- And nothing else can ---- */

  lemma {:induction false} RunnerKept(run: Run, j: nat, k: nat, n: nat)
    requires IsRun(run) && j <= k <= |run.steps| && n < |run.docs[j].runners|
    ensures n < |run.docs[k].runners| && run.docs[k].runners[n].name == run.docs[j].runners[n].name
    ensures run.docs[k].runners[n].enrolled ==> run.docs[j].runners[n].enrolled
    ensures run.docs[k].runners[n].secret.Some? ==> run.docs[k].runners[n].secret == run.docs[j].runners[n].secret
  {
    if j < k {
      RunnerKept(run, j, k - 1, n);
      assert Follows(run, k - 1);
      RunnerAfter(run.docs[k - 1], run.steps[k - 1], n);
    }
  }

  /** A lane that verifies later verified before, from the moment its runner exists. */
  lemma {:induction false} VerifiedBefore(run: Run, j: nat, k: nat, name: string, secret: string)
    requires IsRun(run) && j <= k <= |run.steps| && FindRunner(run.docs[j].runners, name) < |run.docs[j].runners|
    requires Verifies(run.docs[k].runners, name, secret)
    ensures Verifies(run.docs[j].runners, name, secret)
  {
    var n := FindRunner(run.docs[j].runners, name);
    RunnerKept(run, j, k, n);
    ReachedIsSound(run, k);
    assert FindRunner(run.docs[k].runners, name) == n;
  }

  lemma {:induction false} FulfilledLater(run: Run, c: nat, j: nat, k: nat, i: nat)
    requires IsRun(run) && c < k <= |run.steps| && j <= k && i < |run.docs[c + 1].rows| && i < |run.docs[j].rows| && i < |run.docs[k].rows|
    requires run.docs[c + 1].rows[i].version == run.docs[k].rows[i].version && run.docs[c + 1].rows[i].state == Fulfilled
    requires run.docs[j].rows[i].state != Fulfilled
    ensures j <= c
  {
    if c < j {
      Steady(run, c + 1, j, k, i);
    }
  }

  /** A row that is not fulfilled at `j` and is at `k` converged in between, on its own lane's verified heartbeat. */
  lemma {:induction false} ConvergedBetween(run: Run, j: nat, k: nat, i: nat) returns (c: nat)
    requires IsRun(run) && j <= k <= |run.steps| && i < |run.docs[j].rows| && i < |run.docs[k].rows|
    requires run.docs[j].rows[i].state != Fulfilled && run.docs[k].rows[i].state == Fulfilled
    ensures j <= c < k && i < |run.docs[c].rows| && ConvergedAt(run, i, c, run.docs[c].rows[i].digest)
  {
    c := FindConvergence(run, k, i);
    FulfilledLater(run, c, j, k, i);
  }

  lemma {:induction false} OnlyHopeful(run: Run, j: nat, k: nat, i: nat)
    requires IsRun(run) && j <= k <= |run.steps| && i < |run.docs[j].rows| && i < |run.docs[k].rows|
    requires run.docs[k].rows[i].state == Fulfilled
    ensures Hopeful(run.docs[j], i)
  {
    var r := run.docs[j].rows[i];
    if r.state != Fulfilled {
      if r.state == Denied {
        DeniedStays(run, j, k, i);
      }
      if r.requiredProfile.None? {
        ProfilelessNeverBuilt(run, j, k, i);
      }
      var c := ConvergedBetween(run, j, k, i);
      Between(run, j, c, i);
      ReachedIsGrounded(run, j);
      VerifiedBefore(run, j, c, r.lane, run.steps[c].beat.presented);
    }
  }

  /** From any reachable document, a row can still be fulfilled exactly when it is not denied, has a profile and its lane still verifies, or is fulfilled already. */
  lemma {:induction false} CanBeFulfilledIff(run: Run, i: nat)
    requires IsRun(run) && i < |Last(run).rows|
    ensures (exists run' :: FulfilledIn(run, run', i)) <==> Hopeful(Last(run), i)
  {
    if Hopeful(Last(run), i) {
      var run' := HopefulCanBeFulfilled(run, i);
    }
    if run' :| FulfilledIn(run, run', i) {
      assert run'.docs[|run.steps|] == Last(run);
      OnlyHopeful(run', |run.steps|, |run'.steps|, i);
    }
  }
}
