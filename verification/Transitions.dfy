/** The operator's side of the protocol: one decision applied to one request row. */
module Transitions {
  import opened Common
  import opened Requests
  import Vocabulary

  const DECIDE_SCOPE := "toolchain:decide"

  /** What an operator submits, together with what the hub found out about the credential. */
  datatype Decision = Decision(
    approve: bool, credentialClass: Option<string>, scope: Option<string>, credentialId: Option<string>,
    actor: Option<string>, principal: Option<string>, nonce: Option<string>,
    expectedVersion: Option<int>, note: Option<string>, now: string)

  datatype Reply =
    | Unauthenticated                                                            // 401
    | RefusedClass(class_: string)                                               // 403
    | IdentityMissing                                                            // 403
    | NotFound                                                                   // 404
    | Conflict(current: int, submitted: int)                                     // 409
    | Replayed                                                                   // 409
    | NotInTable(state: State, event: Event)                                     // 409
    | ProfileMismatch(approved: Option<string>)                                  // 409
    | ClaimIncomplete                                                            // 400
    | NoteTooLong                                                                // 400
    | MissingNote                                                                // 400
    | EvidenceIncomplete(fields: seq<string>)                                    // 400
    | VersionRequired                                                            // 400
    | AlreadyApplied(appliedAt: string, version: int, state: State)              // 200, idempotent
    | Applied(version: int, state: State)                                        // 200

  datatype Outcome = Outcome(row: Row, reply: Reply)

  predicate TooLong(note: Option<string>) {
    note.Some? && |note.value| > Vocabulary.DECISION_NOTE_MAX_CHARS
  }

  function EventOf(d: Decision): (e: Event) {
    if d.approve then DecideApprove else DecideDeny
  }

  predicate MayDecide(d: Decision) {
    d.credentialClass == Some("operator") && d.scope == Some(DECIDE_SCOPE)
  }

  /** The class a refusal names. */
  function ClassName(class_: string): (name: string) {
    if class_ == "" then "unknown" else class_
  }

  /** A history entry recording this very decision as the one that produced version `v`. */
  predicate Records(e: Entry, d: Decision, v: int) {
    e.versionAfter == v && e.event == EventOf(d) && e.actor == d.actor && e.note == d.note
  }

  /** The first entry that records the decision at version `v`; `|h|` when there is none. */
  function FindPrior(h: seq<Entry>, d: Decision, v: int): (k: nat)
    ensures k <= |h|
    ensures k < |h| ==> Records(h[k], d, v)
    ensures forall j :: 0 <= j < k ==> !Records(h[j], d, v)
  {
    IndexOf(h, (e: Entry) => Records(e, d, v))
  }

  /** The first check a decision fails, if any; answering a resubmission counts as one. */
  function Fault(r: Row, d: Decision, consumed: seq<string>): (f: Option<Reply>) {
    if d.credentialClass.None? then Some(Unauthenticated)
    else if !MayDecide(d) then Some(RefusedClass(ClassName(d.credentialClass.value)))
    else if d.expectedVersion.Some? && d.expectedVersion.value != r.version then Some(Conflict(r.version, d.expectedVersion.value))
    else
      var k := FindPrior(r.history, d, r.version);
      if d.expectedVersion.Some? && k < |r.history| then Some(AlreadyApplied(r.history[k].at, r.version, r.state))
      else if !Truthy(d.actor) || !Truthy(d.principal) || !Truthy(d.nonce) then Some(ClaimIncomplete)
      else if d.nonce.value in consumed then Some(Replayed)
      else if TooLong(d.note) then Some(NoteTooLong)
      else if !d.approve && !Truthy(d.note) then Some(MissingNote)
      else if Table(r.state, EventOf(d)).None? then Some(NotInTable(r.state, EventOf(d)))
      else None
  }

  /** The row after a fault: some faults are put on record, the malformed ones and the resubmissions are not. */
  function OnFault(r: Row, d: Decision, fault: Reply): (r': Row) {
    var cause := Cause(d.actor, d.principal, d.credentialId);
    match fault
    case RefusedClass(_) => Annotate(r, d.now, cause, RejectedCredentialClass, None)
    case Conflict(_, _) => Annotate(r, d.now, cause, RejectedConflict, d.note)
    case Replayed => Annotate(r, d.now, cause, RejectedReplay, None)
    case MissingNote => Annotate(r, d.now, cause, RejectedMissingNote, None)
    case NotInTable(_, _) => Annotate(r, d.now, cause, RejectedTransition, None)
    case _ => r
  }

  /** The row after a decision that applies. */
  function Commit(r: Row, d: Decision, to: State): (r': Row)
    requires d.nonce.Some?
  {
    var cause := Cause(d.actor, d.principal, d.credentialId);
    var e := AuditRecord(r, d.now, cause, EventOf(d), r.state, to, r.version, r.version + 1, d.note);
    AppendHistory(
      r.(state := to, version := r.version + 1, actor := d.actor, principal := d.principal,
         credentialId := d.credentialId, decidedAt := Some(d.now), decisionNote := d.note,
         nonces := r.nonces + [d.nonce.value],
         suppressionUntil := if to == Denied
                             then Some(Deadline(d.now, Vocabulary.TOOL_REQUEST_SUPPRESSION_DAYS))
                             else r.suppressionUntil), e)
  }

  function Decide(r: Row, d: Decision, consumed: seq<string>): (o: Outcome) {
    var fault := Fault(r, d, consumed);
    if fault.Some? then Outcome(OnFault(r, d, fault.value), fault.value)
    else
      var to := Table(r.state, EventOf(d)).value;
      Outcome(Commit(r, d, to), Applied(r.version + 1, to))
  }

  /** What an outcome may mean for a row: a move by `e`, answered as such, or a refusal that moves nothing. */
  ghost predicate Warranted(r: Row, o: Outcome, e: Event) {
    if o.reply.Applied? then Moved(r, o.row, e) && o.reply == Applied(o.row.version, o.row.state)
    else Idle(r, o.row) || Noted(r, o.row)
  }

  lemma {:induction false} RefusalWarranted(r: Row, at: string, cause: Cause, event: Event, note: Option<string>, reply: Reply, e: Event)
    requires RowInvariant(r) && !Transition(event) && event != GapReported && !reply.Applied?
    ensures Warranted(r, Outcome(Annotate(r, at, cause, event, note), reply), e)
  {
    AnnotateIsNoted(r, at, cause, event, note);
  }

  lemma {:induction false} SilenceWarranted(r: Row, reply: Reply, e: Event)
    requires !reply.Applied?
    ensures Warranted(r, Outcome(r, reply), e)
  {
  }

  lemma {:induction false} CommitMoves(r: Row, d: Decision, to: State)
    requires RowInvariant(r) && d.nonce.Some? && Table(r.state, EventOf(d)) == Some(to)
    ensures Moved(r, Commit(r, d, to), EventOf(d))
  {
    ReplayNumbers(r.history, 0);
  }

  lemma {:induction false} FaultWarranted(r: Row, d: Decision, fault: Reply)
    requires RowInvariant(r) && !fault.Applied?
    ensures Warranted(r, Outcome(OnFault(r, d, fault), fault), EventOf(d))
  {
    var cause := Cause(d.actor, d.principal, d.credentialId);
    match fault
    case RefusedClass(_) => RefusalWarranted(r, d.now, cause, RejectedCredentialClass, None, fault, EventOf(d));
    case Conflict(_, _) => RefusalWarranted(r, d.now, cause, RejectedConflict, d.note, fault, EventOf(d));
    case Replayed => RefusalWarranted(r, d.now, cause, RejectedReplay, None, fault, EventOf(d));
    case MissingNote => RefusalWarranted(r, d.now, cause, RejectedMissingNote, None, fault, EventOf(d));
    case NotInTable(_, _) => RefusalWarranted(r, d.now, cause, RejectedTransition, None, fault, EventOf(d));
    case _ => SilenceWarranted(r, fault, EventOf(d));
  }

  /** What a decision can do to a row: move it by its own event exactly when it answers `Applied`. */
  lemma {:induction false} DecideIsRowStep(r: Row, d: Decision, consumed: seq<string>)
    requires RowInvariant(r)
    ensures Warranted(r, Decide(r, d, consumed), EventOf(d))
    ensures Decide(r, d, consumed).reply.AlreadyApplied? ==> Decide(r, d, consumed).row == r
  {
    if Fault(r, d, consumed).Some? {
      FaultWarranted(r, d, Fault(r, d, consumed).value);
    } else {
      CommitMoves(r, d, Table(r.state, EventOf(d)).value);
    }
  }

  /** Exactly when a decision applies. */
  lemma {:induction false} DecideAppliesIff(r: Row, d: Decision, consumed: seq<string>)
    requires RowInvariant(r)
    ensures Decide(r, d, consumed).reply.Applied? <==>
            && MayDecide(d)
            && (d.expectedVersion.None? || d.expectedVersion.value == r.version)
            && Truthy(d.actor) && Truthy(d.principal) && Truthy(d.nonce)
            && d.nonce.value !in consumed
            && !TooLong(d.note)
            && (d.approve || Truthy(d.note))
            && r.state == Open
  {
    var k := FindPrior(r.history, d, r.version);
    if k < |r.history| {
      ReplayNumbers(r.history, k);
    }
  }

  /** What a caller sees before submitting: the row stands at the version named, and its history records this very decision as what produced that version. */
  ghost predicate Repeats(r: Row, d: Decision) {
    && d.credentialClass == Some("operator") && d.scope == Some("toolchain:decide") && d.expectedVersion == Some(r.version)
    && exists k :: 0 <= k < |r.history| && r.history[k].versionAfter == r.version
                   && r.history[k].event == (if d.approve then DecideApprove else DecideDeny)
                   && r.history[k].actor == d.actor && r.history[k].note == d.note
  }

  /** Exactly when a decision is answered as already applied. */
  lemma {:induction false} AlreadyAppliedIff(r: Row, d: Decision, consumed: seq<string>)
    ensures Decide(r, d, consumed).reply.AlreadyApplied? <==> Repeats(r, d)
  {
    var k := FindPrior(r.history, d, r.version);
    if k < |r.history| {
      assert Records(r.history[k], d, r.version);
    }
  }

  /* ---- Every answer, exactly ---- */

  /** An operator with the decide scope, naming no version or the current one. */
  predicate Heard(r: Row, d: Decision) {
    && d.credentialClass == Some("operator") && d.scope == Some("toolchain:decide")
    && (d.expectedVersion.None? || d.expectedVersion.value == r.version)
  }

  /** A field that holds at least one character. */
  predicate Given(s: Option<string>) {
    s.Some? && |s.value| > 0
  }

  /** Actor, principal and nonce are given. */
  predicate Claimed(d: Decision) {
    Given(d.actor) && Given(d.principal) && Given(d.nonce)
  }

  /** The decision is news: heard, not a repeat, with a claim and a nonce nobody consumed. */
  ghost predicate News(r: Row, d: Decision, consumed: seq<string>) {
    Heard(r, d) && !Repeats(r, d) && Claimed(d) && d.nonce.value !in consumed
  }

  predicate NoteFits(d: Decision) {
    d.note.None? || |d.note.value| <= 512
  }

  /** Each refusal of a decision, and exactly when it is given: first who asks and at what version ... */
  lemma {:induction false} DecideRefusesCaller(r: Row, d: Decision, consumed: seq<string>, class_: string, current: int, submitted: int)
    ensures var reply := Decide(r, d, consumed).reply;
            && (reply == Unauthenticated <==> d.credentialClass.None?)
            && (reply == RefusedClass(class_) <==>
                  && d.credentialClass.Some? && class_ == (if d.credentialClass.value == "" then "unknown" else d.credentialClass.value)
                  && !(d.credentialClass == Some("operator") && d.scope == Some("toolchain:decide")))
            && (reply == Conflict(current, submitted) <==>
                  && d.credentialClass == Some("operator") && d.scope == Some("toolchain:decide")
                  && d.expectedVersion == Some(submitted) && current == r.version && submitted != r.version)
  {
  }

  /** ... then the claim and its nonce ... */
  lemma {:induction false} DecideRefusesClaim(r: Row, d: Decision, consumed: seq<string>)
    ensures var reply := Decide(r, d, consumed).reply;
            && (reply == ClaimIncomplete <==> Heard(r, d) && !Repeats(r, d) && !Claimed(d))
            && (reply == Replayed <==> Heard(r, d) && !Repeats(r, d) && Claimed(d) && d.nonce.value in consumed)
  {
    AlreadyAppliedIff(r, d, consumed);
  }

  /** ... then the note ... */
  lemma {:induction false} DecideRefusesNote(r: Row, d: Decision, consumed: seq<string>)
    ensures var reply := Decide(r, d, consumed).reply;
            && (reply == NoteTooLong <==> News(r, d, consumed) && !NoteFits(d))
            && (reply == MissingNote <==> News(r, d, consumed) && !d.approve && !Given(d.note))
  {
    AlreadyAppliedIff(r, d, consumed);
  }

  /** ... and last the table. */
  lemma {:induction false} DecideRefusesMove(r: Row, d: Decision, consumed: seq<string>, state: State, event: Event)
    ensures Decide(r, d, consumed).reply == NotInTable(state, event) <==>
            && News(r, d, consumed) && NoteFits(d) && (d.approve || Given(d.note))
            && r.state != Open && state == r.state && event == if d.approve then DecideApprove else DecideDeny
  {
    AlreadyAppliedIff(r, d, consumed);
  }

  /** No other refusal is ever given. */
  lemma {:induction false} DecideAnswers(r: Row, d: Decision, consumed: seq<string>)
    ensures var reply := Decide(r, d, consumed).reply;
            || reply.Unauthenticated? || reply.RefusedClass? || reply.Conflict? || reply.AlreadyApplied? || reply.ClaimIncomplete?
            || reply.Replayed? || reply.NoteTooLong? || reply.MissingNote? || reply.NotInTable? || reply.Applied?
  {
  }

  /** A refusal on record: who tried what and when, at the state and version the row has. */
  function Refusal(r: Row, d: Decision, event: Event, note: Option<string>): (e: Entry) {
    Entry(|r.history|, d.now, d.actor, d.principal, d.credentialId, event, Some(r.state), r.state, Some(r.version), r.version, note)
  }

  /** What a refusal leaves: one entry for the refusals that go on record, and the very same row for the others. */
  lemma {:induction false} RefusedOnRecord(r: Row, d: Decision, consumed: seq<string>)
    requires RowInvariant(r) && !Decide(r, d, consumed).reply.Applied?
    ensures var o := Decide(r, d, consumed);
            var event := match o.reply
                         case RefusedClass(_) => Some(RejectedCredentialClass)
                         case Conflict(_, _) => Some(RejectedConflict)
                         case Replayed => Some(RejectedReplay)
                         case MissingNote => Some(RejectedMissingNote)
                         case NotInTable(_, _) => Some(RejectedTransition)
                         case _ => None;
            var note := if o.reply.Conflict? then d.note else None;
            o.row == if event.None? then r else r.(history := r.history + [Refusal(r, d, event.value, note)])
  {
    ReplayNumbers(r.history, 0);
  }

  lemma {:induction false} AppliedMove(r: Row, d: Decision, consumed: seq<string>)
    requires Decide(r, d, consumed).reply.Applied?
    ensures Fault(r, d, consumed).None? && r.state == Open && d.nonce.Some?
  {
  }

  /** What an applied decision writes, and what it answers. */
  lemma {:induction false} AppliedOnRecord(r: Row, d: Decision, consumed: seq<string>)
    requires RowInvariant(r) && Decide(r, d, consumed).reply.Applied?
    ensures var to := if d.approve then Approved else Denied;
            var event := if d.approve then DecideApprove else DecideDeny;
            var e := Entry(|r.history|, d.now, d.actor, d.principal, d.credentialId, event, Some(Open), to, Some(r.version), r.version + 1, d.note);
            d.nonce.Some? && Decide(r, d, consumed) == Outcome(
              r.(state := to, version := r.version + 1, actor := d.actor, principal := d.principal, credentialId := d.credentialId,
                 decidedAt := Some(d.now), decisionNote := d.note, nonces := r.nonces + [d.nonce.value],
                 suppressionUntil := if d.approve then r.suppressionUntil else Some(Deadline(d.now, 14)), history := r.history + [e]),
              Applied(r.version + 1, to))
  {
    ReplayNumbers(r.history, 0);
    AppliedMove(r, d, consumed);
  }

  /** A decision that applies leaves its nonce on the row; no other decision does so by itself. */
  lemma {:induction false} DecideNonces(r: Row, d: Decision, consumed: seq<string>)
    ensures var o := Decide(r, d, consumed);
            if o.reply.Applied? then d.nonce.Some? && o.row.nonces == r.nonces + [d.nonce.value] else o.row.nonces == r.nonces
  {
  }

  /** A resubmission is answered with exactly the state and version that the recorded decision produced. */
  lemma {:induction false} ResubmissionAnswersThatDecision(r: Row, d: Decision, consumed: seq<string>)
    requires RowInvariant(r)
    requires Decide(r, d, consumed).reply.AlreadyApplied?
    ensures var reply := Decide(r, d, consumed).reply;
            && Decide(r, d, consumed).row == r
            && exists k :: 0 <= k < |r.history| && Records(r.history[k], d, r.version)
                           && reply == AlreadyApplied(r.history[k].at, r.history[k].versionAfter, r.history[k].to)
  {
    var k := FindPrior(r.history, d, r.version);
    ReplayNumbers(r.history, k);
    assert Records(r.history[k], d, r.version);
  }

  /** Submitting an applied decision again, at the version it produced, is answered as already applied, whatever its nonce. */
  lemma {:induction false} ResubmissionIsRecognised(r: Row, d: Decision, consumed: seq<string>, d': Decision, consumed': seq<string>)
    requires RowInvariant(r)
    requires Decide(r, d, consumed).reply.Applied?
    requires MayDecide(d') && EventOf(d') == EventOf(d) && d'.actor == d.actor && d'.note == d.note
    requires d'.expectedVersion == Some(r.version + 1)
    ensures var r' := Decide(r, d, consumed).row;
            Decide(r', d', consumed') == Outcome(r', AlreadyApplied(d.now, r'.version, r'.state))
  {
    var r' := Decide(r, d, consumed).row;
    DecideIsRowStep(r, d, consumed);
    var n := |r.history|;
    assert Records(r'.history[n], d', r'.version);
    var k := FindPrior(r'.history, d', r'.version);
    if k < n {
      ReplayNumbers(r.history, k);
    }
  }
}
