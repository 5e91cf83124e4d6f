/** Build evidence and convergence: the builder's and the lane's side of the protocol. */
module Evidence {
  import opened Common
  import opened Requests
  import opened Transitions
  import opened Vocabulary

  /** A builder's report, together with what the hub found out about the credential. */
  datatype BuildReport = BuildReport(
    credentialClass: Option<string>, credentialId: Option<string>, builderIdentity: Option<string>,
    profile: Option<string>, buildId: Option<string>, digest: Option<string>, note: Option<string>,
    expectedVersion: Option<int>, now: string)

  function MissingFields(b: BuildReport): (r: seq<string>) {
    (if Truthy(b.buildId) then [] else ["build_id"]) +
    (if Truthy(b.profile) then [] else ["profile_id"]) +
    (if Truthy(b.digest) then [] else ["digest"])
  }

  function BuildEvent(b: BuildReport): (e: Event) {
    if b.digest.None? then BuildFailed else ReportBuilt
  }

  /** The row after a builder report that applies. */
  function CommitBuild(r: Row, b: BuildReport, to: State): (r': Row) {
    var failure := b.digest.None?;
    var cause := Cause(b.builderIdentity, b.builderIdentity, b.credentialId);
    var e := AuditRecord(r, b.now, cause, BuildEvent(b), r.state, to, r.version, r.version + 1, b.note);
    AppendHistory(
      r.(state := to, version := r.version + 1, builderIdentity := b.builderIdentity,
         buildId := if failure then None else b.buildId,
         digest := if failure then None else b.digest,
         fulfilledAt := if to == Built then r.fulfilledAt else None), e)
  }

  /** The first check a builder report fails, if any. */
  function BuildFault(r: Row, b: BuildReport): (f: Option<Reply>) {
    var failure := b.digest.None?;
    if b.credentialClass.None? then Some(Unauthenticated)
    else if b.credentialClass.value != "builder" then Some(RefusedClass(ClassName(b.credentialClass.value)))
    else if !Truthy(b.builderIdentity) then Some(IdentityMissing)
    else if !failure && MissingFields(b) != [] then Some(EvidenceIncomplete(MissingFields(b)))
    else if TooLong(b.note) then Some(NoteTooLong)
    else if failure && !Truthy(b.note) then Some(MissingNote)
    else if b.expectedVersion.None? then Some(VersionRequired)
    else if b.expectedVersion.value != r.version then Some(Conflict(r.version, b.expectedVersion.value))
    else if Table(r.state, BuildEvent(b)).None? then Some(NotInTable(r.state, BuildEvent(b)))
    else if !failure && (r.requiredProfile.None? || r.requiredProfile != b.profile) then Some(ProfileMismatch(r.requiredProfile))
    else None
  }

  /** The row after a refused report: some refusals are put on record. */
  function OnBuildFault(r: Row, b: BuildReport, fault: Reply): (r': Row) {
    var cause := Cause(b.builderIdentity, b.builderIdentity, b.credentialId);
    match fault
    case RefusedClass(_) => Annotate(r, b.now, cause, RejectedCredentialClass, None)
    case MissingNote => Annotate(r, b.now, cause, RejectedMissingNote, None)
    case Conflict(_, _) => Annotate(r, b.now, cause, RejectedConflict, None)
    case NotInTable(_, _) => Annotate(r, b.now, cause, RejectedTransition, None)
    case ProfileMismatch(_) => Annotate(r, b.now, cause, RejectedTransition, Some("profile_mismatch"))
    case _ => r
  }

  function ReportBuild(r: Row, b: BuildReport): (o: Outcome) {
    var fault := BuildFault(r, b);
    if fault.Some? then Outcome(OnBuildFault(r, b, fault.value), fault.value)
    else
      var to := Table(r.state, BuildEvent(b)).value;
      Outcome(CommitBuild(r, b, to), Applied(r.version + 1, to))
  }

  lemma {:induction false} CommitBuildMoves(r: Row, b: BuildReport, to: State)
    requires RowInvariant(r) && Table(r.state, BuildEvent(b)) == Some(to)
    requires b.digest.Some? ==> MissingFields(b) == [] && r.requiredProfile.Some?
    ensures Moved(r, CommitBuild(r, b, to), BuildEvent(b))
  {
    ReplayNumbers(r.history, 0);
  }

  lemma {:induction false} BuildFaultWarranted(r: Row, b: BuildReport, fault: Reply, e: Event)
    requires RowInvariant(r) && !fault.Applied?
    ensures Warranted(r, Outcome(OnBuildFault(r, b, fault), fault), e)
  {
    var cause := Cause(b.builderIdentity, b.builderIdentity, b.credentialId);
    match fault
    case RefusedClass(_) => RefusalWarranted(r, b.now, cause, RejectedCredentialClass, None, fault, e);
    case MissingNote => RefusalWarranted(r, b.now, cause, RejectedMissingNote, None, fault, e);
    case Conflict(_, _) => RefusalWarranted(r, b.now, cause, RejectedConflict, None, fault, e);
    case NotInTable(_, _) => RefusalWarranted(r, b.now, cause, RejectedTransition, None, fault, e);
    case ProfileMismatch(_) => RefusalWarranted(r, b.now, cause, RejectedTransition, Some("profile_mismatch"), fault, e);
    case _ => SilenceWarranted(r, fault, e);
  }

  /** What a build report can do to a row. */
  lemma {:induction false} ReportBuildIsRowStep(r: Row, b: BuildReport)
    requires RowInvariant(r)
    ensures Warranted(r, ReportBuild(r, b), BuildEvent(b))
  {
    if BuildFault(r, b).Some? {
      BuildFaultWarranted(r, b, BuildFault(r, b).value, BuildEvent(b));
    } else {
      CommitBuildMoves(r, b, Table(r.state, BuildEvent(b)).value);
    }
  }

  /** Exactly when a build report applies. */
  lemma {:induction false} ReportBuildAppliesIff(r: Row, b: BuildReport)
    ensures ReportBuild(r, b).reply.Applied? <==>
            && b.credentialClass == Some("builder") && Truthy(b.builderIdentity)
            && !TooLong(b.note) && b.expectedVersion == Some(r.version)
            && if b.digest.None?
               then Truthy(b.note) && (r.state == Approved || r.state == Built)
               else Truthy(b.buildId) && Truthy(b.profile) && Truthy(b.digest)
                    && r.state == Approved && r.requiredProfile == b.profile
    ensures ReportBuild(r, b).reply.Applied? && b.digest.Some? ==>
              ReportBuild(r, b).row.digest == b.digest && ReportBuild(r, b).row.buildId == b.buildId
  {
    assert MissingFields(b) == [] <==> Truthy(b.buildId) && Truthy(b.profile) && Truthy(b.digest);
  }

  /* ---- Every answer to a builder, exactly ---- */

  /** A builder with an identity. */
  predicate FromBuilder(b: BuildReport) {
    b.credentialClass == Some("builder") && Given(b.builderIdentity)
  }

  /** A failure, which carries no digest, or a build that names itself, its profile and its digest. */
  predicate Whole(b: BuildReport) {
    b.digest.None? || (Given(b.buildId) && Given(b.profile) && Given(b.digest))
  }

  /** A report that says enough, with a note of at most 512 characters, which a failure must have. */
  predicate Readable(b: BuildReport) {
    && FromBuilder(b) && Whole(b)
    && (b.note.None? || |b.note.value| <= 512) && (b.digest.None? ==> Given(b.note))
  }

  /** The move a report asks for is open to the row: a failure ends an approved or built attempt, a build follows an approval. */
  predicate Movable(r: Row, b: BuildReport) {
    r.state == Approved || (b.digest.None? && r.state == Built)
  }

  /** Each refusal of a build report, and exactly when it is given: first who reports ... */
  lemma {:induction false} ReportRefusesCaller(r: Row, b: BuildReport, class_: string)
    ensures var reply := ReportBuild(r, b).reply;
            && (reply == Unauthenticated <==> b.credentialClass.None?)
            && (reply == RefusedClass(class_) <==>
                  && b.credentialClass.Some? && b.credentialClass != Some("builder")
                  && class_ == if b.credentialClass.value == "" then "unknown" else b.credentialClass.value)
            && (reply == IdentityMissing <==> b.credentialClass == Some("builder") && !Given(b.builderIdentity))
  {
  }

  /** ... then what is missing from it, in the order of the fields ... */
  lemma {:induction false} ReportRefusesContent(r: Row, b: BuildReport, fields: seq<string>)
    ensures var reply := ReportBuild(r, b).reply;
            && (reply == EvidenceIncomplete(fields) <==>
                  && FromBuilder(b) && !Whole(b)
                  && fields == (if Given(b.buildId) then [] else ["build_id"]) + (if Given(b.profile) then [] else ["profile_id"])
                               + (if Given(b.digest) then [] else ["digest"]))
            && (reply == NoteTooLong <==> FromBuilder(b) && Whole(b) && b.note.Some? && |b.note.value| > 512)
            && (reply == MissingNote <==> FromBuilder(b) && b.digest.None? && !Given(b.note))
  {
  }

  /** ... then the version ... */
  lemma {:induction false} ReportRefusesVersion(r: Row, b: BuildReport, current: int, submitted: int)
    ensures var reply := ReportBuild(r, b).reply;
            && (reply == VersionRequired <==> Readable(b) && b.expectedVersion.None?)
            && (reply == Conflict(current, submitted) <==>
                  Readable(b) && b.expectedVersion == Some(submitted) && submitted != r.version && current == r.version)
  {
  }

  /** ... and last the table and the profile. */
  lemma {:induction false} ReportRefusesMove(r: Row, b: BuildReport, state: State, event: Event, approved: Option<string>)
    ensures var reply := ReportBuild(r, b).reply;
            var asked := Readable(b) && b.expectedVersion == Some(r.version);
            && (reply == NotInTable(state, event) <==>
                  asked && !Movable(r, b) && state == r.state && event == if b.digest.None? then BuildFailed else ReportBuilt)
            && (reply == ProfileMismatch(approved) <==>
                  asked && Movable(r, b) && b.digest.Some? && r.requiredProfile != b.profile && approved == r.requiredProfile)
  {
  }

  /** No other refusal is ever given. */
  lemma {:induction false} ReportAnswers(r: Row, b: BuildReport)
    ensures var reply := ReportBuild(r, b).reply;
            || reply.Unauthenticated? || reply.RefusedClass? || reply.IdentityMissing? || reply.EvidenceIncomplete? || reply.NoteTooLong?
            || reply.MissingNote? || reply.VersionRequired? || reply.Conflict? || reply.NotInTable? || reply.ProfileMismatch? || reply.Applied?
  {
  }

  /** What a refused report leaves: one entry for the refusals that go on record, and the very same row for the others. */
  lemma {:induction false} RefusedReportOnRecord(r: Row, b: BuildReport)
    requires RowInvariant(r) && !ReportBuild(r, b).reply.Applied?
    ensures var o := ReportBuild(r, b);
            var event := match o.reply
                         case RefusedClass(_) => Some(RejectedCredentialClass)
                         case MissingNote => Some(RejectedMissingNote)
                         case Conflict(_, _) => Some(RejectedConflict)
                         case NotInTable(_, _) => Some(RejectedTransition)
                         case ProfileMismatch(_) => Some(RejectedTransition)
                         case _ => None;
            var note := if o.reply.ProfileMismatch? then Some("profile_mismatch") else None;
            o.row == if event.None? then r else r.(history := r.history +
              [Entry(|r.history|, b.now, b.builderIdentity, b.builderIdentity, b.credentialId, event.value,
                     Some(r.state), r.state, Some(r.version), r.version, note)])
  {
    ReplayNumbers(r.history, 0);
  }

  /** What an applied report writes, and what it answers: a build leaves its evidence, a failure takes all evidence away. */
  lemma {:induction false} AppliedReportOnRecord(r: Row, b: BuildReport)
    requires RowInvariant(r) && ReportBuild(r, b).reply.Applied?
    ensures var built := b.digest.Some?;
            var to, event := if built then Built else Open, if built then ReportBuilt else BuildFailed;
            var e := Entry(|r.history|, b.now, b.builderIdentity, b.builderIdentity, b.credentialId, event,
                           Some(r.state), to, Some(r.version), r.version + 1, b.note);
            ReportBuild(r, b) == Outcome(
              r.(state := to, version := r.version + 1, builderIdentity := b.builderIdentity,
                 buildId := if built then b.buildId else None, digest := b.digest, fulfilledAt := None, history := r.history + [e]),
              Applied(r.version + 1, to))
  {
    ReplayNumbers(r.history, 0);
    ReportBuildAppliesIff(r, b);
  }

  /* ---- The lane's heartbeats ---- */

  /** The recorded digest after a heartbeat: an absent or malformed field leaves it alone, null clears it. */
  function RecordedDigest(stored: Option<string>, field: Option<Json>): (r: Option<string>) {
    match field
    case Some(JString(text)) => if text != "" then Some(text) else stored
    case Some(JNull) => None
    case _ => stored
  }

  /** The report was accepted, does not name the tool, and no probe contradicts it. */
  predicate ProbePasses(r: Row, accepted: Option<seq<string>>, probe: Option<bool>) {
    probe != Some(false) && accepted.Some? && r.tool !in accepted.value
  }

  function ConvergeOrClear(r: Row, reported: Option<string>, accepted: Option<seq<string>>,
                           probe: Option<bool>, now: string): (r': Row) {
    if !Truthy(r.digest) || !Truthy(reported) then r
    else if reported != r.digest then
      if r.awaitingCleared == reported then r
      else Annotate(r.(digest := None, awaitingCleared := reported), now, NO_CAUSE, AwaitingDigestCleared,
                    Some("different digest"))
    else if !ProbePasses(r, accepted, probe) then r
    else if Table(r.state, Converge).None? then r
    else
      var to := Table(r.state, Converge).value;
      var e := AuditRecord(r, now, NO_CAUSE, Converge, r.state, to, r.version, r.version + 1, None);
      AppendHistory(r.(state := to, version := r.version + 1, fulfilledAt := Some(now), awaitingCleared := None), e)
  }

  function RegressIfReported(r: Row, accepted: Option<seq<string>>, now: string): (r': Row) {
    if accepted.None? || r.tool !in accepted.value then r
    else if Table(r.state, GapRegressed).None? then r
    else
      var to := Table(r.state, GapRegressed).value;
      var e := AuditRecord(r, now, NO_CAUSE, GapRegressed, r.state, to, r.version, r.version + 1,
                           Some("re-reported"));
      AppendHistory(r.(state := to, version := r.version + 1, fulfilledAt := None, buildId := None, digest := None), e)
  }

  /** One lane's evidence as it bears on one row. */
  datatype Tick = Tick(lane: string, recorded: Option<string>, accepted: Option<seq<string>>, probe: Option<bool>, now: string)

  function Weigh(r: Row, t: Tick): (r': Row) {
    if r.lane != t.lane then r
    else match r.state
      case Built => ConvergeOrClear(r, t.recorded, t.accepted, t.probe, t.now)
      case Fulfilled => RegressIfReported(r, t.accepted, t.now)
      case _ => r
  }

  /** The evidence that fulfils a row. */
  predicate Fulfils(r: Row, t: Tick) {
    && r.lane == t.lane && r.state == Built
    && Truthy(r.digest) && t.recorded == r.digest
    && t.accepted.Some? && r.tool !in t.accepted.value
    && t.probe != Some(false)
  }

  /** The evidence that reopens a row. */
  predicate Reopens(r: Row, t: Tick) {
    r.lane == t.lane && r.state == Fulfilled && t.accepted.Some? && r.tool in t.accepted.value
  }

  /** The evidence that makes a row give up its digest: another image is on record, and not the one it was given up for before. */
  predicate Clears(r: Row, t: Tick) {
    && r.lane == t.lane && r.state == Built
    && Truthy(r.digest) && Truthy(t.recorded) && t.recorded != r.digest
    && t.recorded != r.awaitingCleared
  }

  /** A digest given up for the one on record. */
  ghost predicate ClearedFor(r: Row, r': Row, t: Tick) {
    Cleared(r, r') && r'.awaitingCleared == t.recorded
  }

  lemma {:induction false} ConvergeOrClearSteps(r: Row, t: Tick)
    requires RowInvariant(r) && r.lane == t.lane && r.state == Built
    ensures var r' := ConvergeOrClear(r, t.recorded, t.accepted, t.probe, t.now);
            if Fulfils(r, t) then Moved(r, r', Converge) else if Clears(r, t) then ClearedFor(r, r', t) else r' == r
  {
    ReplayNumbers(r.history, 0);
  }

  lemma {:induction false} RegressSteps(r: Row, t: Tick)
    requires RowInvariant(r) && r.lane == t.lane && r.state == Fulfilled
    ensures var r' := RegressIfReported(r, t.accepted, t.now);
            if Reopens(r, t) then Moved(r, r', GapRegressed) else r' == r
  {
    ReplayNumbers(r.history, 0);
  }

  /** What one tick can do to a row, and exactly when. */
  lemma {:induction false} WeighIsRowStep(r: Row, t: Tick)
    requires RowInvariant(r)
    ensures var r' := Weigh(r, t);
            && (Fulfils(r, t) ==> Moved(r, r', Converge) && r'.state == Fulfilled)
            && (Reopens(r, t) ==> Moved(r, r', GapRegressed) && r'.state == Open)
            && (Clears(r, t) ==> ClearedFor(r, r', t))
            && (!Fulfils(r, t) && !Reopens(r, t) && !Clears(r, t) ==> r' == r)
            && (Clears(r, t) <==> Cleared(r, r'))
  {
    if r.lane == t.lane && r.state == Built {
      ConvergeOrClearSteps(r, t);
    } else if r.lane == t.lane && r.state == Fulfilled {
      RegressSteps(r, t);
    }
  }

  /** What fulfilling a row writes. */
  lemma {:induction false} FulfilWrites(r: Row, t: Tick)
    requires RowInvariant(r) && Fulfils(r, t)
    ensures var e := Entry(|r.history|, t.now, None, None, None, Converge, Some(Built), Fulfilled, Some(r.version), r.version + 1, None);
            Weigh(r, t) == r.(state := Fulfilled, version := r.version + 1, fulfilledAt := Some(t.now), awaitingCleared := None, history := r.history + [e])
  {
    ReplayNumbers(r.history, 0);
  }

  /** What reopening a row writes. */
  lemma {:induction false} ReopenWrites(r: Row, t: Tick)
    requires RowInvariant(r) && Reopens(r, t)
    ensures var e := Entry(|r.history|, t.now, None, None, None, GapRegressed, Some(Fulfilled), Open, Some(r.version), r.version + 1, Some("re-reported"));
            Weigh(r, t) == r.(state := Open, version := r.version + 1, fulfilledAt := None, buildId := None, digest := None, history := r.history + [e])
  {
    ReplayNumbers(r.history, 0);
  }

  /** What giving up a digest writes. */
  lemma {:induction false} ClearWrites(r: Row, t: Tick)
    requires RowInvariant(r) && Clears(r, t)
    ensures var e := Entry(|r.history|, t.now, None, None, None, AwaitingDigestCleared, Some(Built), Built, Some(r.version), r.version, Some("different digest"));
            Weigh(r, t) == r.(digest := None, awaitingCleared := t.recorded, history := r.history + [e])
  {
    ReplayNumbers(r.history, 0);
  }
}
