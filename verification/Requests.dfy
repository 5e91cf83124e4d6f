/**
 Toolchain request rows: the normative transition table, the append-only audit
 history, and the independent reading of that history that every run must respect.
 */
module Requests {
  import opened Common

  datatype State = Open | Approved | Built | Fulfilled | Denied

  datatype Event =
    | GapReported
    | DecideApprove | DecideDeny | ReportBuilt | Converge | BuildFailed | GapRegressed
    | ReportSuppressed | ReportAfterWindow
    | AwaitingDigestCleared
    | RejectedCredentialClass | RejectedConflict | RejectedReplay | RejectedMissingNote | RejectedTransition

  /** The normative table: the target of (state, event), when the pair is a row of it. */
  function Table(s: State, e: Event): (to: Option<State>) {
    match (s, e)
    case (Open, DecideApprove) => Some(Approved)
    case (Open, DecideDeny) => Some(Denied)
    case (Approved, ReportBuilt) => Some(Built)
    case (Built, Converge) => Some(Fulfilled)
    case (Approved, BuildFailed) => Some(Open)
    case (Built, BuildFailed) => Some(Open)
    case (Fulfilled, GapRegressed) => Some(Open)
    case (Denied, ReportSuppressed) => Some(Denied)
    case (Denied, ReportAfterWindow) => Some(Open)
    case _ => None
  }

  /** Events that occur in the table. */
  predicate Transition(e: Event) {
    e.DecideApprove? || e.DecideDeny? || e.ReportBuilt? || e.Converge? || e.BuildFailed? ||
    e.GapRegressed? || e.ReportSuppressed? || e.ReportAfterWindow?
  }

  predicate IsDecision(e: Event) {
    e.DecideApprove? || e.DecideDeny?
  }

  datatype Entry = Entry(
    seqNo: int, at: string, actor: Option<string>, principal: Option<string>, credentialId: Option<string>,
    event: Event, from: Option<State>, to: State, versionBefore: Option<int>, versionAfter: int, note: Option<string>)

  /** When a denial stops suppressing; calendar arithmetic stays symbolic. */
  datatype Deadline = Deadline(base: string, days: nat)

  datatype Row = Row(
    id: string, lane: string, tool: string, requiredProfile: Option<string>,
    state: State, version: int,
    observedAt: string, lastSeen: string, lastReportedAt: string,
    actor: Option<string>, principal: Option<string>, credentialId: Option<string>,
    decidedAt: Option<string>, decisionNote: Option<string>, nonces: seq<string>,
    buildId: Option<string>, builderIdentity: Option<string>, digest: Option<string>,
    fulfilledAt: Option<string>, suppressionUntil: Option<Deadline>, awaitingCleared: Option<string>,
    history: seq<Entry>)

  /** Who caused a history entry. */
  datatype Cause = Cause(actor: Option<string>, principal: Option<string>, credentialId: Option<string>)

  const NO_CAUSE := Cause(None, None, None)

  /** One audit record about `r`, numbered one past its last entry. */
  function AuditRecord(r: Row, at: string, cause: Cause, event: Event, from: State, to: State,
                       before: int, after: int, note: Option<string>): (e: Entry) {
    var n := if r.history == [] then 0 else r.history[|r.history| - 1].seqNo + 1;
    Entry(n, at, cause.actor, cause.principal, cause.credentialId, event, Some(from), to, Some(before), after, note)
  }

  function AppendHistory(r: Row, e: Entry): (r': Row) {
    r.(history := r.history + [e])
  }

  /** Record something that changes neither the state nor the version. */
  function Annotate(r: Row, at: string, cause: Cause, event: Event, note: Option<string>): (r': Row) {
    AppendHistory(r, AuditRecord(r, at, cause, event, r.state, r.state, r.version, r.version, note))
  }

  /** A freshly opened row with its first history entry. */
  function NewRow(lane: string, tool: string, profile: Option<string>, now: string, id: string): (r: Row) {
    Row(id, lane, tool, profile, Open, 1, now, now, now, None, None, None, None, None, [],
        None, None, None, None, None, None,
        [Entry(0, now, None, None, None, GapReported, None, Open, None, 1, None)])
  }

  /* ---- Reading a history back ---- */

  /** Where a history stands. */
  datatype Standing = Standing(state: State, version: int)

  predicate Opens(e: Entry) {
    e.seqNo == 0 && e.event == GapReported && e.from == None && e.to == Open && e.versionBefore == None && e.versionAfter == 1
  }

  /** The standing after entry number `n`, or `None` when that entry does not continue from `p`. */
  function Advance(p: Standing, e: Entry, n: nat): (r: Option<Standing>) {
    if e.seqNo != n || e.from != Some(p.state) || e.versionBefore != Some(p.version) || e.event == GapReported then None
    else if Transition(e.event) then
      if Table(p.state, e.event) == Some(e.to) && e.versionAfter == p.version + 1 then Some(Standing(e.to, p.version + 1)) else None
    else
      if e.to == p.state && e.versionAfter == p.version then Some(p) else None
  }

  /** What a history says on its own: the standing it ends in, or `None` when it is not a well-formed history. */
  function Replay(h: seq<Entry>): (r: Option<Standing>) {
    if h == [] then None
    else if |h| == 1 then
      if Opens(h[0]) then Some(Standing(Open, 1)) else None
    else
      var n := |h| - 1;
      var front := Replay(h[..n]);
      if front.None? then None else Advance(front.value, h[n], n)
  }

  /** The events that moved the row, in order. */
  function Moves(h: seq<Entry>): (r: seq<Event>) {
    if h == [] then []
    else
      var n := |h| - 1;
      if Transition(h[n].event) then Moves(h[..n]) + [h[n].event] else Moves(h[..n])
  }

  /** How many operator decisions a history records. */
  function Decisions(h: seq<Entry>): (k: nat) {
    if h == [] then 0
    else Decisions(h[..|h| - 1]) + if IsDecision(h[|h| - 1].event) then 1 else 0
  }

  /** One more entry, read back. */
  lemma {:induction false} ReplayExtend(h: seq<Entry>, e: Entry)
    requires Replay(h).Some?
    ensures Replay(h + [e]) == Advance(Replay(h).value, e, |h|)
    ensures Moves(h + [e]) == if Transition(e.event) then Moves(h) + [e.event] else Moves(h)
    ensures Decisions(h + [e]) == Decisions(h) + if IsDecision(e.event) then 1 else 0
  {
    assert (h + [e])[..|h|] == h;
  }

  lemma {:induction false} ReplayNumbers(h: seq<Entry>, i: nat)
    requires Replay(h).Some? && i < |h|
    ensures h[i].seqNo == i
    ensures h[|h| - 1].seqNo == |h| - 1
    ensures h[i].versionAfter <= Replay(h).value.version
    ensures h[i].versionAfter == Replay(h).value.version && Transition(h[i].event) ==> h[i].to == Replay(h).value.state
    ensures Transition(h[i].event) ==> h[i].from.Some? && Table(h[i].from.value, h[i].event) == Some(h[i].to)
  {
    var n := |h| - 1;
    if n > 0 {
      if i < n {
        ReplayNumbers(h[..n], i);
        assert h[..n][i] == h[i];
        if h[i].versionAfter == Replay(h).value.version {
          assert !Transition(h[n].event);
        }
      }
    }
  }

  /** The version counts the moves. */
  lemma {:induction false} VersionCountsMoves(h: seq<Entry>)
    requires Replay(h).Some?
    ensures Replay(h).value.version == 1 + |Moves(h)|
  {
    var n := |h| - 1;
    if n > 0 {
      VersionCountsMoves(h[..n]);
    } else {
      assert h[..0] == [];
    }
  }

  /* ---- What every step keeps ---- */

  /** Build evidence agrees with the state. */
  predicate EvidenceAgrees(r: Row) {
    && (r.buildId.Some? <==> r.state.Built? || r.state.Fulfilled?)
    && (r.digest.Some? ==> r.state.Built? || r.state.Fulfilled?)
    && (r.state.Fulfilled? ==> Truthy(r.digest))
    && (r.fulfilledAt.Some? <==> r.state.Fulfilled?)
  }

  /** Only a lane with a reviewed profile gets a build accepted. */
  predicate ProfileGuarded(r: Row) {
    r.state.Built? || r.state.Fulfilled? ==> r.requiredProfile.Some?
  }

  /** The last moves of a row, by state: where it must have come from. */
  predicate TailFits(s: State, m: seq<Event>) {
    var n := |m|;
    match s
    case Open => n == 0 || m[n - 1] == BuildFailed || m[n - 1] == GapRegressed || m[n - 1] == ReportAfterWindow
    case Approved => n >= 1 && m[n - 1] == DecideApprove
    case Built => n >= 2 && m[n - 2] == DecideApprove && m[n - 1] == ReportBuilt
    case Fulfilled => n >= 3 && m[n - 3] == DecideApprove && m[n - 2] == ReportBuilt && m[n - 1] == Converge
    case Denied => n >= 1 && (m[n - 1] == DecideDeny || m[n - 1] == ReportSuppressed)
  }

  predicate RowInvariant(r: Row) {
    && Replay(r.history) == Some(Standing(r.state, r.version))
    && TailFits(r.state, Moves(r.history))
    && EvidenceAgrees(r)
    && ProfileGuarded(r)
  }

  lemma {:induction false} NewRowInvariant(lane: string, tool: string, profile: Option<string>, now: string, id: string)
    ensures RowInvariant(NewRow(lane, tool, profile, now, id))
    ensures Decisions(NewRow(lane, tool, profile, now, id).history) == 0
  {
    var h := NewRow(lane, tool, profile, now, id).history;
    assert h[..0] == [];
  }

  /* ---- The ways a step may treat one row ---- */

  predicate SameIdentity(r: Row, r': Row) {
    r'.id == r.id && r'.lane == r.lane && r'.tool == r.tool && r'.requiredProfile == r.requiredProfile
  }

  predicate SameEvidence(r: Row, r': Row) {
    r'.buildId == r.buildId && r'.digest == r.digest && r'.fulfilledAt == r.fulfilledAt && r'.awaitingCleared == r.awaitingCleared
  }

  /** `e` was appended, numbered and stamped with the state and version it was appended at. */
  predicate Extends(r: Row, r': Row, e: Entry) {
    && r'.history == r.history + [e]
    && e.seqNo == |r.history|
    && e.from == Some(r.state) && e.versionBefore == Some(r.version)
    && e.to == r'.state && e.versionAfter == r'.version
  }

  /** Nothing the protocol reads changed. */
  predicate Idle(r: Row, r': Row) {
    SameIdentity(r, r') && SameEvidence(r, r') &&
    r'.state == r.state && r'.version == r.version && r'.history == r.history
  }

  /** A refusal was put on record. */
  ghost predicate Noted(r: Row, r': Row) {
    && SameIdentity(r, r') && SameEvidence(r, r')
    && r'.state == r.state && r'.version == r.version
    && |r'.history| > 0
    && var e := r'.history[|r'.history| - 1];
    && Extends(r, r', e) && !Transition(e.event) && e.event != GapReported
  }

  /** The awaited digest was given up, and what it was given up for is remembered. */
  ghost predicate Cleared(r: Row, r': Row) {
    && SameIdentity(r, r') && r.state == Built == r'.state && r'.version == r.version
    && r.digest.Some? && r'.digest.None? && r'.awaitingCleared != r.awaitingCleared && r'.buildId == r.buildId && r'.fulfilledAt == r.fulfilledAt
    && |r'.history| > 0
    && Extends(r, r', r'.history[|r'.history| - 1]) && r'.history[|r'.history| - 1].event == AwaitingDigestCleared
  }

  /** A table transition by event `e`, with the evidence that goes with it. */
  ghost predicate Moved(r: Row, r': Row, e: Event) {
    && SameIdentity(r, r')
    && Table(r.state, e) == Some(r'.state)
    && r'.version == r.version + 1
    && |r'.history| > 0
    && Extends(r, r', r'.history[|r'.history| - 1]) && r'.history[|r'.history| - 1].event == e
    && match e
       case DecideApprove => SameEvidence(r, r')
       case DecideDeny => SameEvidence(r, r')
       case ReportBuilt => r'.awaitingCleared == r.awaitingCleared && r'.buildId.Some? && Truthy(r'.digest) && r'.fulfilledAt == r.fulfilledAt && r.requiredProfile.Some?
       case Converge => r'.awaitingCleared.None? && r'.buildId == r.buildId && r'.digest == r.digest && Truthy(r.digest) && r'.fulfilledAt.Some?
       case BuildFailed => r'.awaitingCleared == r.awaitingCleared && r'.buildId.None? && r'.digest.None? && r'.fulfilledAt.None?
       case GapRegressed => r'.awaitingCleared == r.awaitingCleared && r'.buildId.None? && r'.digest.None? && r'.fulfilledAt.None?
       case _ => false
  }

  ghost predicate RowStep(r: Row, r': Row) {
    Idle(r, r') || Noted(r, r') || Cleared(r, r') ||
    Moved(r, r', DecideApprove) || Moved(r, r', DecideDeny) || Moved(r, r', ReportBuilt) ||
    Moved(r, r', BuildFailed) || Moved(r, r', Converge) || Moved(r, r', GapRegressed)
  }

  lemma {:induction false} TailFitsStep(s: State, s': State, m: seq<Event>, e: Event)
    requires TailFits(s, m) && Table(s, e) == Some(s')
    ensures TailFits(s', m + [e])
  {
  }

  lemma {:induction false} MovePreserves(r: Row, r': Row, e: Event)
    requires RowInvariant(r) && Moved(r, r', e)
    ensures RowInvariant(r') && r.history <= r'.history && SameIdentity(r, r') && r'.version == r.version + 1
  {
    ReplayExtend(r.history, r'.history[|r'.history| - 1]);
    TailFitsStep(r.state, r'.state, Moves(r.history), e);
  }

  lemma {:induction false} RowStepPreserves(r: Row, r': Row)
    requires RowInvariant(r) && RowStep(r, r')
    ensures RowInvariant(r')
    ensures r.history <= r'.history
    ensures SameIdentity(r, r')
    ensures r.version <= r'.version <= r.version + 1
    ensures r'.version == r.version ==> r'.state == r.state
  {
    if Idle(r, r') {
    } else if Noted(r, r') || Cleared(r, r') {
      ReplayExtend(r.history, r'.history[|r'.history| - 1]);
    } else {
      MovePreserves(r, r', r'.history[|r'.history| - 1].event);
    }
  }

  /** Appending an annotation is a `Noted` step. */
  lemma {:induction false} AnnotateIsNoted(r: Row, at: string, cause: Cause, event: Event, note: Option<string>)
    requires RowInvariant(r)
    requires !Transition(event) && event != GapReported
    ensures Noted(r, Annotate(r, at, cause, event, note))
  {
    ReplayNumbers(r.history, 0);
  }

  /** What a digest was given up for is forgotten only when the row converges, and replaced only when another digest is given up. */
  lemma {:induction false} AwaitingAfter(r: Row, r': Row)
    requires RowStep(r, r') && r'.awaitingCleared != r.awaitingCleared
    ensures Cleared(r, r') || Moved(r, r', Converge)
  {
  }

  /** A digest once given up stays given up as long as the row does not move. */
  lemma {:induction false} DigestOnlyComesByBuild(r: Row, r': Row)
    requires RowStep(r, r') && r'.version == r.version
    ensures r.digest.None? ==> r'.digest.None?
    ensures r'.digest.Some? ==> r'.digest == r.digest
  {
  }
}
