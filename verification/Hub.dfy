/** The hub's document and its atomic steps: every write runs alone, under one lock. */
module Hub {
  import opened Common
  import opened Requests
  import opened Vocabulary
  import opened Store
  import Transitions
  import Evidence

  /** One enrolled host. The heartbeat secret stands for the salted digest the registry keeps. */
  datatype Runner = Runner(
    name: string, enrolled: bool, secret: Option<string>,
    profile: Option<string>, imageRef: Option<string>, digest: Option<string>, lastHeartbeat: Option<string>)

  datatype Doc = Doc(tokens: seq<string>, runners: seq<Runner>, rows: seq<Row>, consumed: seq<string>)

  const INITIAL := Doc([], [], [], [])

  /** A heartbeat body: a field that is not mentioned is `None`, an explicit null is `Some(JNull)`. */
  datatype Beat = Beat(
    runner: string, presented: string, missing: Option<Json>, probe: Option<Json>, digest: Option<Json>,
    receivedAt: string, gapAt: string, evidenceAt: string)

  datatype Step =
    | AddToken(token: string)
    | Enroll(name: string, presented: string, secret: string)
    | Revoke(name: string, presented: string)
    | Heartbeat(beat: Beat)
    | Decide(id: string, decision: Transitions.Decision)
    | Report(id: string, build: Evidence.BuildReport)
    | SetProfile(name: string, profile: Option<string>, imageRef: Option<string>, imageDigest: Option<string>)

  /* ---- Enrollment ---- */

  /** The first runner of this name; `|runners|` when there is none. */
  function FindRunner(runners: seq<Runner>, name: string): (k: nat)
    ensures k <= |runners|
    ensures k < |runners| ==> runners[k].name == name
    ensures forall j :: 0 <= j < k ==> runners[j].name != name
  {
    IndexOf(runners, (r: Runner) => r.name == name)
  }

  lemma {:induction false} SameNames(a: seq<Runner>, b: seq<Runner>, name: string)
    requires |a| == |b| && forall j :: 0 <= j < |a| ==> a[j].name == b[j].name
    ensures FindRunner(a, name) == FindRunner(b, name)
  {
    var i, j := FindRunner(a, name), FindRunner(b, name);
    if i < |a| {
      assert b[i].name == name;
    }
    if j < |a| {
      assert a[j].name == name;
    }
  }

  lemma {:induction false} FindNewest(runners: seq<Runner>, r: Runner, name: string)
    ensures var k := FindRunner(runners, name);
            FindRunner(runners + [r], name) == if k < |runners| then k else if r.name == name then |runners| else |runners| + 1
  {
    var all, k := runners + [r], FindRunner(runners, name);
    var j := FindRunner(all, name);
    assert all[|runners|] == r && forall i :: 0 <= i < |runners| ==> all[i] == runners[i];
    if k < |runners| {
      assert all[k].name == name;
    }
  }

  /** The first stored token equal to the presented one; `|tokens|` when there is none or nothing was presented. */
  function FindToken(tokens: seq<string>, presented: string): (k: nat)
    ensures k <= |tokens|
    ensures k < |tokens| ==> presented != "" && tokens[k] == presented
    ensures k == |tokens| ==> presented == "" || presented !in tokens
    ensures forall j :: 0 <= j < k ==> presented == "" || tokens[j] != presented
  {
    IndexOf(tokens, (t: string) => presented != "" && t == presented)
  }

  predicate Verifies(runners: seq<Runner>, name: string, presented: string) {
    var k := FindRunner(runners, name);
    k < |runners| && runners[k].enrolled && presented != "" && runners[k].secret == Some(presented)
  }

  function NewRunner(name: string, secret: string): (r: Runner) {
    Runner(name, true, Some(secret), None, None, None, None)
  }

  function AddTokenDoc(d: Doc, token: string): (d': Doc) {
    if token in d.tokens then d else d.(tokens := d.tokens + [token])
  }

  function EnrollDoc(d: Doc, name: string, presented: string, secret: string): (d': Doc) {
    var t := FindToken(d.tokens, presented);
    if FindRunner(d.runners, name) < |d.runners| || t == |d.tokens| then d
    else d.(tokens := d.tokens[..t] + d.tokens[t + 1..], runners := d.runners + [NewRunner(name, secret)])
  }

  function RevokeDoc(d: Doc, name: string, presented: string): (d': Doc) {
    if !Verifies(d.runners, name, presented) then d
    else
      var k := FindRunner(d.runners, name);
      d.(runners := d.runners[k := d.runners[k].(enrolled := false, secret := None)])
  }

  /** What revoking writes: nothing unless the secret verifies, else one runner that is enrolled no more and has no secret. */
  lemma {:induction false} RevokeWrites(d: Doc, name: string, presented: string)
    ensures var d', k := RevokeDoc(d, name, presented), FindRunner(d.runners, name);
            if !Verifies(d.runners, name, presented) then d' == d
            else
              && d'.tokens == d.tokens && d'.rows == d.rows && d'.consumed == d.consumed && |d'.runners| == |d.runners|
              && (forall j :: 0 <= j < |d.runners| && j != k ==> d'.runners[j] == d.runners[j])
              && var r := d.runners[k];
              && d'.runners[k] == Runner(r.name, false, None, r.profile, r.imageRef, r.digest, r.lastHeartbeat)
  {
  }

  function SetProfileDoc(d: Doc, name: string, profile: Option<string>,
                         imageRef: Option<string>, imageDigest: Option<string>): (d': Doc) {
    var k := FindRunner(d.runners, name);
    if k == |d.runners| || !KnownProfile(profile) then d
    else
      var r := d.runners[k];
      d.(runners := d.runners[k := r.(profile := profile,
                                      imageRef := if imageRef.Some? then imageRef else r.imageRef,
                                      digest := if imageDigest.Some? then imageDigest else r.digest)])
  }

  /** What setting a profile writes: nothing for an unknown runner or profile, else the profile, and whatever else was given. */
  lemma {:induction false} SetProfileWrites(d: Doc, name: string, profile: Option<string>, imageRef: Option<string>, imageDigest: Option<string>)
    ensures var d', k := SetProfileDoc(d, name, profile, imageRef, imageDigest), FindRunner(d.runners, name);
            if k == |d.runners| || (profile.Some? && profile.value !in PROFILES) then d' == d
            else
              && d'.tokens == d.tokens && d'.rows == d.rows && d'.consumed == d.consumed && |d'.runners| == |d.runners|
              && (forall j :: 0 <= j < |d.runners| && j != k ==> d'.runners[j] == d.runners[j])
              && var r, r' := d.runners[k], d'.runners[k];
              && r'.name == r.name && r'.enrolled == r.enrolled && r'.secret == r.secret && r'.lastHeartbeat == r.lastHeartbeat
              && r'.profile == profile
              && (if imageRef.None? then r'.imageRef == r.imageRef else r'.imageRef == imageRef)
              && (if imageDigest.None? then r'.digest == r.digest else r'.digest == imageDigest)
  {
  }

  /* ---- Decisions and build reports ---- */

  function DecideReply(d: Doc, id: string, decision: Transitions.Decision): (r: Transitions.Reply) {
    var k := FindById(d.rows, id);
    if k == |d.rows| then Transitions.NotFound else Transitions.Decide(d.rows[k], decision, d.consumed).reply
  }

  /** The decided row: a success leaves its nonce on the row, a resubmission's included. */
  function DecidedRow(o: Transitions.Outcome, nonce: Option<string>): (r: Row) {
    if (o.reply.Applied? || o.reply.AlreadyApplied?) && nonce.Some? && nonce.value !in o.row.nonces
    then o.row.(nonces := o.row.nonces + [nonce.value]) else o.row
  }

  /** The nonce is consumed hub-wide only by a decision that applied. */
  function ConsumedAfter(consumed: seq<string>, o: Transitions.Outcome, nonce: Option<string>): (r: seq<string>) {
    if o.reply.Applied? && nonce.Some? && nonce.value !in consumed then consumed + [nonce.value] else consumed
  }

  function DecideDoc(d: Doc, id: string, decision: Transitions.Decision): (d': Doc) {
    var k := FindById(d.rows, id);
    if k == |d.rows| then d
    else
      var o := Transitions.Decide(d.rows[k], decision, d.consumed);
      d.(rows := d.rows[k := DecidedRow(o, decision.nonce)], consumed := ConsumedAfter(d.consumed, o, decision.nonce))
  }

  function ReportReply(d: Doc, id: string, b: Evidence.BuildReport): (r: Transitions.Reply) {
    var k := FindById(d.rows, id);
    if b.credentialClass.None? then Transitions.Unauthenticated
    else if k == |d.rows| then Transitions.NotFound
    else Evidence.ReportBuild(d.rows[k], b).reply
  }

  function ReportDoc(d: Doc, id: string, b: Evidence.BuildReport): (d': Doc) {
    var k := FindById(d.rows, id);
    if k == |d.rows| then d else d.(rows := d.rows[k := Evidence.ReportBuild(d.rows[k], b).row])
  }

  /** An id no row has: a decision is answered so before anything else, a build report once it comes with a credential, and neither writes anything. */
  lemma {:induction false} UnknownRow(d: Doc, id: string, decision: Transitions.Decision, b: Evidence.BuildReport)
    ensures var known := exists i :: 0 <= i < |d.rows| && d.rows[i].id == id;
            && (DecideReply(d, id, decision).NotFound? <==> !known)
            && (ReportReply(d, id, b).NotFound? <==> !known && b.credentialClass.Some?)
            && (ReportReply(d, id, b).Unauthenticated? <==> b.credentialClass.None?)
            && (!known ==> DecideDoc(d, id, decision) == d && ReportDoc(d, id, b) == d)
  {
    var k := FindById(d.rows, id);
    assert (exists i :: 0 <= i < |d.rows| && d.rows[i].id == id) <==> k < |d.rows|;
  }

  /* ---- Heartbeats ---- */

  /** A probe flag that is not a boolean counts as no opinion. */
  function ProbeOutcome(field: Option<Json>): (r: Option<bool>) {
    match field
    case Some(JBool(flag)) => Some(flag)
    case _ => None
  }

  function GapOf(d: Doc, k: nat, b: Beat): (o: GapOutcome)
    requires k < |d.runners|
  {
    if b.missing.None? then GapOutcome(d.rows, 0, None, None)
    else RecordGap(d.rows, d.runners[k].name, b.missing.value, d.runners[k].profile, b.gapAt)
  }

  /** The evidence a heartbeat carries for its own lane: the digest on record after it, and the list it got accepted. */
  function TickOf(d: Doc, k: nat, b: Beat): (t: Evidence.Tick)
    requires k < |d.runners|
  {
    Evidence.Tick(d.runners[k].name, Evidence.RecordedDigest(d.runners[k].digest, b.digest),
                  GapOf(d, k, b).accepted, ProbeOutcome(b.probe), b.evidenceAt)
  }

  function WeighAll(rows: seq<Row>, t: Evidence.Tick): (r: seq<Row>)
    ensures |r| == |rows| && forall i {:trigger r[i]} :: 0 <= i < |rows| ==> r[i] == Evidence.Weigh(rows[i], t)
  {
    seq(|rows|, i requires 0 <= i < |rows| => Evidence.Weigh(rows[i], t))
  }

  function HeartbeatDoc(d: Doc, b: Beat): (d': Doc) {
    if !Verifies(d.runners, b.runner, b.presented) then d
    else
      var k := FindRunner(d.runners, b.runner);
      var t := TickOf(d, k, b);
      d.(runners := d.runners[k := d.runners[k].(lastHeartbeat := Some(b.receivedAt), digest := t.recorded)],
         rows := WeighAll(GapOf(d, k, b).rows, t))
  }

  /** A heartbeat put together from its parts. */
  lemma {:induction false} HeartbeatAssembles(d: Doc, d': Doc, b: Beat, k: nat, gap: GapOutcome)
    requires Verifies(d.runners, b.runner, b.presented) && k == FindRunner(d.runners, b.runner) && gap == GapOf(d, k, b)
    requires var recorded := Evidence.RecordedDigest(d.runners[k].digest, b.digest);
             && d'.runners == d.runners[k := d.runners[k].(lastHeartbeat := Some(b.receivedAt), digest := recorded)]
             && d'.rows == WeighAll(gap.rows, Evidence.Tick(d.runners[k].name, recorded, gap.accepted, ProbeOutcome(b.probe), b.evidenceAt))
    requires d'.tokens == d.tokens && d'.consumed == d.consumed
    ensures d' == HeartbeatDoc(d, b)
  {
  }

  function Next(d: Doc, s: Step): (d': Doc) {
    match s
    case AddToken(token) => AddTokenDoc(d, token)
    case Enroll(name, presented, secret) => EnrollDoc(d, name, presented, secret)
    case Revoke(name, presented) => RevokeDoc(d, name, presented)
    case Heartbeat(beat) => HeartbeatDoc(d, beat)
    case Decide(id, decision) => DecideDoc(d, id, decision)
    case Report(id, build) => ReportDoc(d, id, build)
    case SetProfile(name, profile, imageRef, imageDigest) => SetProfileDoc(d, name, profile, imageRef, imageDigest)
  }

  /* ---- What every step keeps ---- */

  function TotalDecisions(rows: seq<Row>): (k: nat) {
    if rows == [] then 0
    else TotalDecisions(rows[..|rows| - 1]) + Decisions(rows[|rows| - 1].history)
  }

  ghost predicate RowsSound(rows: seq<Row>) {
    UniqueRows(rows) && forall i :: 0 <= i < |rows| ==> RowInvariant(rows[i])
  }

  ghost predicate DistinctNames(runners: seq<Runner>) {
    forall i, j :: 0 <= i < j < |runners| ==> runners[i].name != runners[j].name
  }

  ghost predicate Sound(d: Doc) {
    && RowsSound(d.rows)
    && NoDuplicates(d.consumed)
    && |d.consumed| == TotalDecisions(d.rows)
    && DistinctNames(d.runners)
  }

  /** Rows are never removed or reordered; each takes one allowed step, new ones start open at version 1. */
  ghost predicate RowsAdvance(rows: seq<Row>, rows': seq<Row>) {
    && |rows| <= |rows'|
    && (forall i :: 0 <= i < |rows| ==> RowStep(rows[i], rows'[i]))
    && (forall i :: |rows| <= i < |rows'| ==> rows'[i].state == Open && rows'[i].version == 1)
  }

  lemma {:induction false} TotalUnchanged(rows: seq<Row>, rows': seq<Row>)
    requires |rows| <= |rows'|
    requires forall i :: 0 <= i < |rows| ==> Decisions(rows'[i].history) == Decisions(rows[i].history)
    requires forall i :: |rows| <= i < |rows'| ==> Decisions(rows'[i].history) == 0
    ensures TotalDecisions(rows') == TotalDecisions(rows)
    decreases |rows'|
  {
    if rows' != [] {
      var n := |rows'| - 1;
      if |rows| == |rows'| {
        TotalUnchanged(rows[..n], rows'[..n]);
      } else {
        TotalUnchanged(rows, rows'[..n]);
      }
    }
  }

  lemma {:induction false} TotalAfterUpdate(rows: seq<Row>, k: nat, r: Row)
    requires k < |rows|
    ensures TotalDecisions(rows[k := r]) == TotalDecisions(rows) - Decisions(rows[k].history) + Decisions(r.history)
  {
    var n := |rows| - 1;
    if k == n {
      assert rows[k := r][..n] == rows[..n];
    } else {
      assert rows[k := r][..n] == rows[..n][k := r];
      TotalAfterUpdate(rows[..n], k, r);
    }
  }

  lemma {:induction false} DecisionsAfter(r: Row, r': Row)
    requires RowInvariant(r)
    ensures Idle(r, r') || Noted(r, r') || Cleared(r, r') ==> Decisions(r'.history) == Decisions(r.history)
    ensures forall e :: Moved(r, r', e) ==> Decisions(r'.history) == Decisions(r.history) + if IsDecision(e) then 1 else 0
  {
    if |r'.history| > 0 {
      ReplayExtend(r.history, r'.history[|r'.history| - 1]);
    }
  }

  /** Replacing one row by an allowed successor keeps the rows sound. */
  lemma {:induction false} OneRowAdvances(rows: seq<Row>, k: nat, r: Row)
    requires RowsSound(rows) && k < |rows| && RowStep(rows[k], r)
    ensures RowsSound(rows[k := r]) && RowsAdvance(rows, rows[k := r])
  {
    RowStepPreserves(rows[k], r);
    var rows' := rows[k := r];
    forall i | 0 <= i < |rows| ensures RowStep(rows[i], rows'[i]) {
      assert i == k || Idle(rows[i], rows'[i]);
    }
  }

  /** A decision on its row and on the consumed nonces. */
  lemma {:induction false} DecisionOnRow(r: Row, decision: Transitions.Decision, consumed: seq<string>)
    requires RowInvariant(r)
    ensures var o := Transitions.Decide(r, decision, consumed);
            var r', consumed' := DecidedRow(o, decision.nonce), ConsumedAfter(consumed, o, decision.nonce);
            if o.reply.Applied?
            then Moved(r, r', Transitions.EventOf(decision)) && decision.nonce.Some? && decision.nonce.value !in consumed
                 && consumed' == consumed + [decision.nonce.value]
            else (Idle(r, r') || Noted(r, r')) && consumed' == consumed
  {
    Transitions.DecideIsRowStep(r, decision, consumed);
    Transitions.DecideAppliesIff(r, decision, consumed);
  }

  /** Replacing one row, counted: the rows stay sound and each decision on record has its nonce. */
  lemma {:induction false} OneRowCounted(d: Doc, k: nat, r: Row, consumed: seq<string>)
    requires Sound(d) && k < |d.rows| && RowStep(d.rows[k], r)
    requires NoDuplicates(consumed) && |consumed| - |d.consumed| == Decisions(r.history) - Decisions(d.rows[k].history)
    ensures Sound(d.(rows := d.rows[k := r], consumed := consumed)) && RowsAdvance(d.rows, d.rows[k := r])
  {
    OneRowAdvances(d.rows, k, r);
    TotalAfterUpdate(d.rows, k, r);
  }

  lemma {:induction false} DecideSteps(d: Doc, id: string, decision: Transitions.Decision)
    requires Sound(d)
    ensures Sound(DecideDoc(d, id, decision)) && RowsAdvance(d.rows, DecideDoc(d, id, decision).rows)
  {
    var k := FindById(d.rows, id);
    if k < |d.rows| {
      var r, o := d.rows[k], Transitions.Decide(d.rows[k], decision, d.consumed);
      DecisionOnRow(r, decision, d.consumed);
      DecisionsAfter(r, DecidedRow(o, decision.nonce));
      OneRowCounted(d, k, DecidedRow(o, decision.nonce), ConsumedAfter(d.consumed, o, decision.nonce));
    } else {
      AllIdle(d.rows);
    }
  }

  lemma {:induction false} AllIdle(rows: seq<Row>)
    ensures RowsAdvance(rows, rows)
  {
    assert forall i :: 0 <= i < |rows| ==> Idle(rows[i], rows[i]);
  }

  lemma {:induction false} ReportSteps(d: Doc, id: string, b: Evidence.BuildReport)
    requires Sound(d)
    ensures Sound(ReportDoc(d, id, b)) && RowsAdvance(d.rows, ReportDoc(d, id, b).rows)
  {
    var k := FindById(d.rows, id);
    if k < |d.rows| {
      var r, r' := d.rows[k], Evidence.ReportBuild(d.rows[k], b).row;
      Evidence.ReportBuildIsRowStep(r, b);
      DecisionsAfter(r, r');
      OneRowCounted(d, k, r', d.consumed);
    } else {
      AllIdle(d.rows);
    }
  }

  /** `Weigh` after a row was merely seen again. */
  lemma {:induction false} WeighAfterIdle(r: Row, g: Row, t: Evidence.Tick)
    requires RowInvariant(r) && Idle(r, g)
    ensures var r' := Evidence.Weigh(g, t);
            && RowStep(r, r')
            && Decisions(r'.history) == Decisions(r.history)
            && (Evidence.Fulfils(r, t) ==> Moved(r, r', Converge))
            && (Evidence.Reopens(r, t) ==> Moved(r, r', GapRegressed))
            && (Evidence.Clears(r, t) ==> Evidence.ClearedFor(r, r', t))
            && (!Evidence.Fulfils(r, t) && !Evidence.Reopens(r, t) && !Evidence.Clears(r, t) ==> Idle(r, r') && r' == g)
  {
    RowStepPreserves(r, g);
    Evidence.WeighIsRowStep(g, t);
    DecisionsAfter(r, Evidence.Weigh(g, t));
  }

  lemma {:induction false} GapOfSteps(d: Doc, k: nat, b: Beat)
    requires Sound(d) && k < |d.runners|
    ensures GapStep(d.rows, GapOf(d, k, b).rows, d.runners[k].name, d.runners[k].profile)
    ensures UniqueRows(GapOf(d, k, b).rows)
  {
    if b.missing.Some? {
      RecordGapSteps(d.rows, d.runners[k].name, b.missing.value, d.runners[k].profile, b.gapAt);
    } else {
      AllIdle(d.rows);
    }
  }

  lemma {:induction false} IdentityKeepsUnique(rows: seq<Row>, rows': seq<Row>)
    requires UniqueRows(rows) && |rows| == |rows'|
    requires forall i :: 0 <= i < |rows| ==> SameIdentity(rows[i], rows'[i])
    ensures UniqueRows(rows')
  {
  }

  /** A verified heartbeat, row by row. */
  lemma {:induction false} BeatOnRow(d: Doc, k: nat, b: Beat, i: nat)
    requires Sound(d) && k < |d.runners|
    requires i < |GapOf(d, k, b).rows|
    ensures |d.rows| <= |GapOf(d, k, b).rows|
    ensures var g := GapOf(d, k, b).rows[i];
            var r' := Evidence.Weigh(g, TickOf(d, k, b));
            && RowInvariant(r') && SameIdentity(g, r')
            && (i < |d.rows| ==> RowStep(d.rows[i], r') && Decisions(r'.history) == Decisions(d.rows[i].history))
            && (i >= |d.rows| ==> r' == g && r'.state == Open && r'.version == 1 && Decisions(r'.history) == 0)
  {
    GapOfSteps(d, k, b);
    var g := GapOf(d, k, b).rows[i];
    if i < |d.rows| {
      var r' := Evidence.Weigh(g, TickOf(d, k, b));
      WeighAfterIdle(d.rows[i], g, TickOf(d, k, b));
      RowStepPreserves(d.rows[i], r');
    } else {
      FreshInvariant(g, d.runners[k].name, d.runners[k].profile);
    }
  }

  lemma {:induction false} HeartbeatSteps(d: Doc, b: Beat)
    requires Sound(d)
    ensures Sound(HeartbeatDoc(d, b)) && RowsAdvance(d.rows, HeartbeatDoc(d, b).rows)
  {
    if Verifies(d.runners, b.runner, b.presented) {
      var k := FindRunner(d.runners, b.runner);
      var mid := GapOf(d, k, b).rows;
      var rows' := WeighAll(mid, TickOf(d, k, b));
      GapOfSteps(d, k, b);
      forall i | 0 <= i < |mid|
        ensures RowInvariant(rows'[i]) && SameIdentity(mid[i], rows'[i])
        ensures i < |d.rows| ==> RowStep(d.rows[i], rows'[i]) && Decisions(rows'[i].history) == Decisions(d.rows[i].history)
        ensures i >= |d.rows| ==> rows'[i].state == Open && rows'[i].version == 1 && Decisions(rows'[i].history) == 0
      {
        BeatOnRow(d, k, b, i);
      }
      IdentityKeepsUnique(mid, rows');
      TotalUnchanged(d.rows, rows');
    } else {
      AllIdle(d.rows);
    }
  }

  lemma {:induction false} OtherSteps(d: Doc, s: Step)
    requires Sound(d) && !s.Heartbeat? && !s.Decide? && !s.Report?
    ensures Sound(Next(d, s)) && RowsAdvance(d.rows, Next(d, s).rows)
  {
    assert Next(d, s).rows == d.rows && Next(d, s).consumed == d.consumed;
    AllIdle(d.rows);
  }

  /** The invariant of the hub: every step keeps it, and no step loses, reorders or rewrites a row. */
  lemma {:induction false} NextKeepsSound(d: Doc, s: Step)
    requires Sound(d)
    ensures Sound(Next(d, s)) && RowsAdvance(d.rows, Next(d, s).rows)
  {
    match s
    case Heartbeat(beat) => HeartbeatSteps(d, beat);
    case Decide(id, decision) => DecideSteps(d, id, decision);
    case Report(id, build) => ReportSteps(d, id, build);
    case _ => OtherSteps(d, s);
  }

  /* ---- Why a row moved ---- */

  /** The only ways a row's version goes up: its own decision, its own build report, or its own lane's verified evidence. */
  ghost predicate MoveExplained(d: Doc, s: Step, r: Row, r': Row) {
    match s
    case Decide(id, decision) =>
      id == r.id && Transitions.MayDecide(decision) && Moved(r, r', Transitions.EventOf(decision))
    case Report(id, build) =>
      && id == r.id && build.credentialClass == Some("builder") && Moved(r, r', Evidence.BuildEvent(build))
      && (build.digest.Some? ==> Truthy(build.digest) && r'.digest == build.digest && build.profile == r.requiredProfile)
    case Heartbeat(beat) =>
      && Verifies(d.runners, beat.runner, beat.presented)
      && r.lane == beat.runner
      && var t := TickOf(d, FindRunner(d.runners, beat.runner), beat);
         (Evidence.Fulfils(r, t) && Moved(r, r', Converge)) || (Evidence.Reopens(r, t) && Moved(r, r', GapRegressed))
    case _ => false
  }

  lemma {:induction false} DecisionExplained(d: Doc, id: string, decision: Transitions.Decision, i: nat)
    requires Sound(d) && i < |d.rows|
    ensures var r' := DecideDoc(d, id, decision).rows[i];
            r'.version != d.rows[i].version ==> MoveExplained(d, Decide(id, decision), d.rows[i], r')
  {
    if FindById(d.rows, id) == i {
      DecisionOnRow(d.rows[i], decision, d.consumed);
      Transitions.DecideAppliesIff(d.rows[i], decision, d.consumed);
    }
  }

  lemma {:induction false} ReportExplained(d: Doc, id: string, b: Evidence.BuildReport, i: nat)
    requires Sound(d) && i < |d.rows|
    ensures var r' := ReportDoc(d, id, b).rows[i];
            r'.version != d.rows[i].version ==> MoveExplained(d, Report(id, b), d.rows[i], r')
  {
    if FindById(d.rows, id) == i {
      Evidence.ReportBuildIsRowStep(d.rows[i], b);
      Evidence.ReportBuildAppliesIff(d.rows[i], b);
    }
  }

  lemma {:induction false} BeatExplained(d: Doc, b: Beat, i: nat)
    requires Sound(d) && i < |d.rows| <= |HeartbeatDoc(d, b).rows|
    ensures var r' := HeartbeatDoc(d, b).rows[i];
            r'.version != d.rows[i].version ==> MoveExplained(d, Heartbeat(b), d.rows[i], r')
  {
    if Verifies(d.runners, b.runner, b.presented) {
      var k := FindRunner(d.runners, b.runner);
      GapOfSteps(d, k, b);
      WeighAfterIdle(d.rows[i], GapOf(d, k, b).rows[i], TickOf(d, k, b));
    }
  }

  /** A digest is given up only on the row's own lane's verified evidence. */
  ghost predicate ClearExplained(d: Doc, s: Step, r: Row, r': Row) {
    && s.Heartbeat? && Verifies(d.runners, s.beat.runner, s.beat.presented) && r.lane == s.beat.runner
    && var t := TickOf(d, FindRunner(d.runners, s.beat.runner), s.beat);
       Evidence.Clears(r, t) && Evidence.ClearedFor(r, r', t)
  }

  lemma {:induction false} BeatClears(d: Doc, b: Beat, i: nat)
    requires Sound(d) && i < |d.rows| <= |HeartbeatDoc(d, b).rows|
    ensures var r' := HeartbeatDoc(d, b).rows[i];
            Cleared(d.rows[i], r') ==> ClearExplained(d, Heartbeat(b), d.rows[i], r')
  {
    if Verifies(d.runners, b.runner, b.presented) {
      var k := FindRunner(d.runners, b.runner);
      GapOfSteps(d, k, b);
      WeighAfterIdle(d.rows[i], GapOf(d, k, b).rows[i], TickOf(d, k, b));
    }
  }

  lemma {:induction false} DecideClearsNothing(d: Doc, id: string, decision: Transitions.Decision, i: nat)
    requires Sound(d) && i < |d.rows|
    ensures |DecideDoc(d, id, decision).rows| == |d.rows| && !Cleared(d.rows[i], DecideDoc(d, id, decision).rows[i])
  {
    if FindById(d.rows, id) == i {
      DecisionOnRow(d.rows[i], decision, d.consumed);
    }
  }

  lemma {:induction false} ReportClearsNothing(d: Doc, id: string, b: Evidence.BuildReport, i: nat)
    requires Sound(d) && i < |d.rows|
    ensures |ReportDoc(d, id, b).rows| == |d.rows| && !Cleared(d.rows[i], ReportDoc(d, id, b).rows[i])
  {
    if FindById(d.rows, id) == i {
      Evidence.ReportBuildIsRowStep(d.rows[i], b);
    }
  }

  lemma {:induction false} OthersClearNothing(d: Doc, s: Step, i: nat)
    requires Sound(d) && i < |d.rows| <= |Next(d, s).rows| && !s.Heartbeat?
    ensures !Cleared(d.rows[i], Next(d, s).rows[i])
  {
    if s.Decide? {
      DecideClearsNothing(d, s.id, s.decision, i);
    } else if s.Report? {
      ReportClearsNothing(d, s.id, s.build, i);
    }
  }

  lemma {:induction false} ClearsAreExplained(d: Doc, s: Step, i: nat)
    requires Sound(d) && i < |d.rows|
    ensures |d.rows| <= |Next(d, s).rows|
    ensures Cleared(d.rows[i], Next(d, s).rows[i]) ==> ClearExplained(d, s, d.rows[i], Next(d, s).rows[i])
  {
    NextKeepsSound(d, s);
    if s.Heartbeat? {
      BeatClears(d, s.beat, i);
    } else {
      OthersClearNothing(d, s, i);
    }
  }

  lemma {:induction false} MovesAreExplained(d: Doc, s: Step, i: nat)
    requires Sound(d) && i < |d.rows|
    ensures |d.rows| <= |Next(d, s).rows|
    ensures Next(d, s).rows[i].version != d.rows[i].version ==> MoveExplained(d, s, d.rows[i], Next(d, s).rows[i])
  {
    NextKeepsSound(d, s);
    match s
    case Decide(id, decision) => DecisionExplained(d, id, decision, i);
    case Report(id, build) => ReportExplained(d, id, build, i);
    case Heartbeat(beat) => BeatExplained(d, beat, i);
    case _ =>
  }
}
