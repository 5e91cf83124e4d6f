# A verified model of the hub, the fleet manager and four gate tools

This project models, in Dafny, the parts of the repository whose correctness is
hard to see from one function at a time, and proves what they promise.

**The toolchain-request protocol (`hub/`).** A request row goes open, approved,
built, fulfilled, with denials, failed builds and regressions. An operator, a
builder and the lane's own heartbeats drive it, and every write is one atomic
step under the hub's lock. `Requests` holds the rows, the transition table and an
independent reading of a row's audit history; `Transitions`, `Evidence`,
`Vocabulary` and `Store` hold the operator's, the builder's and the lane's side;
`Hub` is the document and the seven kinds of step; `Registry` (module
`RegistryObject`) is the mutable registry, each of whose methods is proved to take
exactly the step that `Hub.Next` describes. `HubRuns` and `Enrollment` quantify
over every run: any steps, in any order, with any arguments; `Heartbeats` says what
a heartbeat does in terms of its own fields, and `Reachability` from which documents
a row can still be fulfilled, and how. Every answer of the two credentialed calls is
characterised: each refusal has its own condition on the arguments, and what it
leaves on record.

**Plan application (`fleet-manager/`).** `FleetModel` is the desired state and its
six transitions, `Fleet` is `apply_plan` with its ledger and audit log, `FleetRuns`
proves exactly-once application over any sequence of calls, for any simulator that
makes one revision per change, and capacity safety for the fleet's own simulator.
`FleetHistory` traces what a run leaves back to its calls: every assignment to a host
that admitted it, every applied audit event to a principal with the scope for it.
`Planning` is `build_plan`: which plans it accepts, when applying an accepted plan
succeeds, and that the announced capacity is what the application leaves.

**Gate tools (`scripts/`).** `UnifiedDiff` prints diffs (the "Diff -u or -U Output
Format" section of the POSIX `diff` utility, with git's extended headers);
`DiffHunks` and `DiffAdded` are the two parsers; `DiffAccuracy` says what the
reported numbers mean; `LineBreaks` and `DiffText` go from lines to text. `Overlay`
is the merge by id, `Artifacts` the retention sweep, `Mutation` the backup protocol
of the mutation tool as a machine that may be killed between any two file
operations.

Where the code and its own words differ, the model follows the code:

- `decide` answers a resubmission before it looks for a replayed nonce, although its
  docstring states the opposite order (hub/toolchain_transitions.py:162-170, 212-232).
- An idempotent answer leaves its nonce on the row without consuming it hub-wide, so
  "row nonces are consumed nonces" is not an invariant. It holds throughout a run if and
  only if no step repeats a recorded decision at its version under an unconsumed nonce
  (`Enrollment.NoncesCoveredThroughout`); `Enrollment.TwiceDecidedLeavesNonceBehind`
  gives runs in which it fails (hub/toolchain_creds.py:195-205).
- No step uses the two table rows that leave `denied`, so `denied` is absorbing
  (hub/toolchain_transitions.py:79-84, 294-310).
- `_diff_hunks` is called hunk-accurate, but it splits its text at every character
  Python takes for a line end (scripts/corruption_diff.py:42). A form feed in a changed
  line always changes the result (`DiffText.CutBodyShows`, for every well-formed diff).
  A form feed in a function heading cuts it in two, and what is cut off is taken for a
  context line. `DiffText.TextParsesIff` is the exact condition for diffs in which
  line breaks neither cut a path line nor make up a header line (`DiffText.Legible`); a
  line break anywhere else before the first hunk does no harm.
- `parse_diff` is called hunk-accurate, but it takes an added line that begins with
  two plus signs for a header; `DiffAdded.ParsersAgreeIff` is the exact condition
  (scripts/regression_diff.py:82-110).

## Model

| member | source | states |
|---|---|---|
| `Requests.ReplayExtend` | hub/toolchain_transitions.py:121-128 | appending an entry extends the independent reading of a history by exactly that entry |
| `Requests.ReplayNumbers` | hub/toolchain_transitions.py:88-118 | in a history that reads back, entry numbers are positions, no entry is above the current version, and every move is a row of the table |
| `Requests.VersionCountsMoves` | hub/toolchain_transitions.py:262-264 | the version is one more than the number of moves on record |
| `Requests.NewRowInvariant` | hub/toolchain_store.py:64-100 | a freshly opened row satisfies the row invariant and records no decision |
| `Requests.RowStepPreserves` | hub/toolchain_transitions.py:55-128 | each allowed way of treating a row keeps its invariant and identity, only extends its history, and raises the version by at most one |
| `Requests.DigestOnlyComesByBuild` | hub/toolchain_evidence.py:327-360 | without a move a row gains no digest |
| `Transitions.DecideIsRowStep` | hub/toolchain_transitions.py:146-278 | a decision moves the row by its own table event exactly when it answers as applied, otherwise it only annotates; a resubmission leaves the row identical |
| `Transitions.DecideAppliesIff` | hub/toolchain_transitions.py:176-278 | the full condition under which a decision applies, in both directions |
| `Transitions.DecideNonces` | hub/toolchain_transitions.py:269 | an applied decision appends its nonce to the row; no other decision touches the row's nonces by itself |
| `Transitions.AlreadyAppliedIff` | hub/toolchain_transitions.py:204-221 | a decision is answered as already applied if and only if it may decide, names the current version, and the history records the same event, actor and note for that version |
| `Transitions.DecideRefusesCaller` | hub/toolchain_transitions.py:176-202 | no credential, a wrong class or scope, and a stale version: each refusal exactly on its condition, with the class and the two versions it names |
| `Transitions.DecideRefusesClaim` | hub/toolchain_transitions.py:212-232 | of what is heard and is no repeat, an incomplete claim and a consumed nonce are refused, each exactly on its condition |
| `Transitions.DecideRefusesNote` | hub/toolchain_transitions.py:233-246 | of what is news, a note over 512 characters and a denial without one are refused, each exactly on its condition |
| `Transitions.DecideRefusesMove` | hub/toolchain_transitions.py:248-261 | what passes all of that is refused exactly when the row is not open, naming its state and the event |
| `Transitions.DecideAnswers` | hub/toolchain_transitions.py:146-278 | no other answer is ever given |
| `Transitions.RefusedOnRecord` | hub/toolchain_transitions.py:176-261 | five refusals add exactly one entry to the history (who, when, which event, at the standing state and version) and change nothing else; every other answer but an applied one leaves the very same row |
| `Transitions.AppliedOnRecord` | hub/toolchain_transitions.py:262-278 | what an applied decision writes, whole: state, version, decider, time, note, nonce, a suppression of fourteen days on a denial, and its entry |
| `Transitions.ResubmissionAnswersThatDecision` | hub/toolchain_transitions.py:212-221 | an idempotent answer changes nothing and reports the time, version and state that the matched history entry produced |
| `Transitions.ResubmissionIsRecognised` | hub/toolchain_transitions.py:204-221 | an applied decision submitted again at the version it produced is answered as already applied, whatever its nonce |
| `Evidence.ReportBuildIsRowStep` | hub/toolchain_evidence.py:121-254 | a build report moves the row by its own table event exactly when it answers as applied, otherwise it only annotates |
| `Evidence.ReportBuildAppliesIff` | hub/toolchain_evidence.py:145-254 | the full condition under which a build report applies, success and failure, and the evidence it leaves |
| `Evidence.ReportRefusesCaller` | hub/toolchain_evidence.py:145-174 | no credential, a class other than builder, and a builder without an identity: each refusal exactly on its condition |
| `Evidence.ReportRefusesContent` | hub/toolchain_evidence.py:176-196 | missing evidence (with the missing fields in order), a note over 512 characters and a failure without a note: each refusal exactly on its condition |
| `Evidence.ReportRefusesVersion` | hub/toolchain_evidence.py:197-206 | of a readable report, no version and a stale version are refused, each exactly on its condition |
| `Evidence.ReportRefusesMove` | hub/toolchain_evidence.py:208-234 | at the current version, a move the table does not have and a profile that is not the required one are refused, each exactly on its condition |
| `Evidence.ReportAnswers` | hub/toolchain_evidence.py:121-254 | no other answer is ever given |
| `Evidence.RefusedReportOnRecord` | hub/toolchain_evidence.py:145-234 | five refusals add exactly one entry and change nothing else; every other refusal leaves the very same row |
| `Evidence.AppliedReportOnRecord` | hub/toolchain_evidence.py:236-254 | what an applied report writes, whole: a build leaves its identity, build id and digest, a failure takes all evidence away |
| `Evidence.ConvergeOrClearSteps` | hub/toolchain_evidence.py:327-360 | a built row is fulfilled exactly on its evidence; its awaited digest is given up, on record, exactly when another image is reported that it was not given up for last; otherwise the row is identical |
| `Evidence.RegressSteps` | hub/toolchain_evidence.py:363-384 | a fulfilled row reopens, losing its evidence, exactly when the accepted list names its tool |
| `Evidence.WeighIsRowStep` | hub/toolchain_evidence.py:299-308 | one tick on one row fulfils it, reopens it or gives up its digest, each exactly on its own evidence; with none of the three the row is identical, rows of other lanes included |
| `Evidence.FulfilWrites` | hub/toolchain_evidence.py:346-360 | what fulfilling a row writes, whole |
| `Evidence.ReopenWrites` | hub/toolchain_evidence.py:363-384 | what reopening a row writes, whole |
| `Evidence.ClearWrites` | hub/toolchain_evidence.py:332-343 | what giving up a digest writes, whole |
| `Vocabulary.ValidateMissingTools` | hub/toolchain_requests.py:145-189 | the loop computes the all-or-nothing verdict: the whole list, or the code of the first fault |
| `Vocabulary.FirstFaultAt` | hub/toolchain_requests.py:173-182 | the reported code is that of the first faulty entry, and an accepted list has none |
| `Vocabulary.RefusalCodes` | hub/toolchain_requests.py:167-182 | which code a refused list gets: not a list, more than 32 entries, and then the kind of its first fault |
| `Vocabulary.Dedupe` | hub/toolchain_requests.py:192-208 | the loop computes the first occurrences, in order |
| `Vocabulary.FirstOccurrencesDistinct` | hub/toolchain_requests.py:192-208 | the first occurrences are distinct and are the same set of tools, so their number is that of the distinct tools |
| `Vocabulary.FirstOccurrencesOrdered` | hub/toolchain_requests.py:192-208 | they come in the order of their first occurrence |
| `Decimal.PrintValue` | hub/toolchain_store.py:53 | decimal printing and reading are inverse for every natural |
| `Decimal.PadValue` | hub/toolchain_store.py:53 | zero padding to any width does not change the number read back |
| `Decimal.PrintLength` | hub/toolchain_store.py:53 | a printed number has no more digits than it needs |
| `Decimal.PadLength` | hub/toolchain_store.py:53 | padding gives exactly the width, or nothing when the text is longer |
| `Decimal.StripValue` | hub/toolchain_store.py:50 | stripping leading zeros does not change the number read back |
| `Store.IdRoundTrip` | hub/toolchain_store.py:46-53 | formatting and parsing a request id are inverse, past four digits too |
| `Store.ParseIdIff` | hub/toolchain_store.py:46-51 | an id has a number exactly when it is `tcr-` and digits, and the number is theirs |
| `Store.IdShape` | hub/toolchain_store.py:53 | an id is `tcr-` and at least four digits, more only when the number needs them |
| `Store.NextIdIsFresh` | hub/toolchain_store.py:37-53 | the next id differs from every stored id, foreign ids included |
| `Store.NextIdIsSuccessor` | hub/toolchain_store.py:37-53 | the next id is one past the highest number in use, or the first |
| `Store.NextRequestId` | hub/toolchain_store.py:37-53 | the scan returns an id that no stored row has |
| `Store.FindRequest` | hub/toolchain_store.py:56-61 | the first row of this lane and tool, or none |
| `Store.FindById` | hub/toolchain_evidence.py:103-107 | the first row with this id, or none |
| `Store.RecordToolSteps` | hub/toolchain_store.py:141-154 | one reported tool: old rows are only seen again, a missing one is opened, rows stay unique and the tool has its row |
| `Store.RecordToolsSteps` | hub/toolchain_store.py:139-155 | the same for a whole list of tools |
| `Store.RecordGapSteps` | hub/toolchain_store.py:130-155 | a refused report changes nothing; an accepted one keeps rows unique by (lane, tool) and by id, leaves a row for every tool, and touches exactly the number of distinct tools |
| `Store.RecordGapRefusals` | hub/toolchain_store.py:130-138 | which reports are refused: for the list's own fault first, then for the lane's profile |
| `Store.RecordToolsRow` | hub/toolchain_store.py:139-155 | an accepted report stamps exactly the lane's rows of the tools it names and leaves all others identical; each row it opens is given whole |
| `Hub.NextKeepsSound` | hub/server.py:158-164 | every atomic step keeps the hub's invariant (histories read back, evidence agrees, rows and runner names unique, consumed nonces match decisions) and neither loses, reorders nor rewrites a row |
| `Hub.DecisionOnRow` | hub/toolchain_creds.py:188-206 | a decision moves its row and consumes its nonce exactly when it applies, and the nonce was not consumed before |
| `Hub.UnknownRow` | hub/toolchain_creds.py:164-187 | an id no row has: a decision is answered so before anything else, a build report once it has a credential, and neither writes anything |
| `Hub.SetProfileWrites` | hub/toolchain_store.py:177-205 | setting a profile writes nothing for an unknown runner or profile, else the profile and whatever else was given, and leaves everything else |
| `Hub.RevokeWrites` | hub/registry.py:418-426 | revoking writes nothing unless the secret verifies, else it leaves one runner that is enrolled no more and has no secret |
| `Hub.WeighAfterIdle` | hub/registry.py:375-405 | within one heartbeat the gap record never changes what the evidence that follows does to a row |
| `Hub.MovesAreExplained` | hub/toolchain_transitions.py:55-85 | a version goes up only by the row's own decision, its own build report or its own lane's verified evidence |
| `Hub.ClearsAreExplained` | hub/toolchain_evidence.py:327-345 | a digest is given up only by the row's own lane's verified heartbeat with another image on record, and not the one it was given up for last |
| `HubRuns.EveryStepsRun` | hub/server.py:158-164 | every sequence of steps is a run, so the results below are about all of them |
| `HubRuns.ReachedIsSound` | hub/server.py:158-164 | every document a run reaches satisfies the hub's invariant |
| `HubRuns.HistoryReplays` | hub/toolchain_transitions.py:55-128 | in every run each history reads back, by the table alone, to the row's own state and version, with entry numbers as positions |
| `HubRuns.Between` | hub/toolchain_transitions.py:121-128 | between two moments a row keeps its identity, its history only grows, and without a move it keeps its state and gains no digest |
| `HubRuns.FulfilledIsEarned` | hub/toolchain_evidence.py:219-254 | a fulfilled row was approved, then built for its required profile, then seen by its own lane's verified heartbeat with that very digest on record, the tool absent from the accepted list and the probe not flagged, with no other move in between |
| `HubRuns.FulfilledHistoryEnds` | hub/toolchain_evidence.py:346-360 | a fulfilled row's last three moves on record are the approval, the build and the convergence |
| `HubRuns.GivenUpBuildStartsOver` | hub/toolchain_evidence.py:327-345 | a built row whose digest was given up is fulfilled later only through a fresh approval, build and convergence |
| `HubRuns.GivenUpBuildStays` | hub/toolchain_evidence.py:208-217 | such a row stays built under every step except a builder's failure report, which opens it |
| `HubRuns.GivingUpIsExplained` | hub/toolchain_evidence.py:327-345 | wherever a run gives up a digest, that evidence was there |
| `HubRuns.GivesUpForAnImageOnce` | hub/toolchain_evidence.py:332-335 | a row never gives up twice for the same image, rebuilt or not, unless in between it converged or gave up for another image |
| `HubRuns.EvidenceAgreesAlways` | hub/toolchain_evidence.py:236-249 | in every reachable row build id, digest and fulfilment stamp agree with the state |
| `HubRuns.ProfilelessNeverBuilt` | hub/toolchain_evidence.py:219-234 | a row opened without a profile is never built or fulfilled, whatever is assigned later |
| `HubRuns.DeniedStays` | hub/toolchain_transitions.py:79-84 | a denied row stays denied, at its version, in every run |
| `HubRuns.RowsStayUnique` | hub/toolchain_store.py:139-155 | rows are unique by (lane, tool) and by id in every reachable document |
| `HubRuns.NonceIsSingleUse` | hub/toolchain_creds.py:63-70 | two applied decisions of a run never share a nonce, across all rows |
| `HubRuns.ConsumedCountsDecisions` | hub/toolchain_creds.py:195-201 | the consumed list has no duplicates and is as long as there are decisions in all histories |
| `HubRuns.AtMostOneWins` | hub/toolchain_evidence.py:197-206 | of all decisions and build reports of a run that name the same version of a row, at most one applies |
| `HubRuns.IdempotentAnswer` | hub/toolchain_transitions.py:212-221 | an idempotent answer changes no state, version or history of any row and consumes nothing |
| `HubRuns.RefusalStaysOnRecord` | hub/toolchain_transitions.py:121-128 | a refusal that goes on record is in the row's history for the rest of the run, at its place and with its attribution |
| `HubRuns.HeartbeatEffect` | hub/registry.py:375-405 | of the rows that exist, a heartbeat touches only its own lane's, moves each at most once, fulfils, reopens or clears one if and only if its evidence does, and leaves the history alone if and only if it does none of these |
| `HubRuns.HeartbeatOpens` | hub/toolchain_store.py:139-155 | every row a heartbeat adds is its own lane's, open, at version 1, for an accepted tool and the lane's profile, with an id and a (lane, tool) that no row had |
| `HubRuns.NoFulfilmentWithoutEvidence` | hub/toolchain_evidence.py:80-100 | an absent list, a refused list, a list refused for an unknown profile or a probe flagged incomplete fulfils nothing |
| `Heartbeats.HeartbeatRecords` | hub/toolchain_evidence.py:286-297 | an unverified heartbeat changes nothing; a verified one stamps its own runner only, and null clears the digest on record, a non-empty string replaces it, anything else leaves it |
| `Heartbeats.HeartbeatFulfilsIff` | hub/toolchain_evidence.py:299-360 | a row is fulfilled if and only if it is built, its own lane verified, the image it awaits is named by the heartbeat or on record and not contradicted, the gap list is one of at most 32 vocabulary words from a lane with a reviewed profile and does not name the tool, and the probe is not called incomplete |
| `Heartbeats.HeartbeatReopensIff` | hub/toolchain_evidence.py:363-384 | a fulfilled row is reopened if and only if its own lane, verified, sends such a list naming the tool |
| `Heartbeats.HeartbeatClearsIff` | hub/toolchain_evidence.py:327-345 | a built row gives up its image if and only if its own lane, verified, shows an image that is neither the awaited one nor the one given up for last |
| `Heartbeats.NullImageFulfilsNothing` | hub/toolchain_evidence.py:294-298 | a heartbeat that says its image is gone fulfils no row |
| `Heartbeats.NullImageClearsNothing` | hub/toolchain_evidence.py:294-298 | and makes no row give up its image |
| `Heartbeats.HeartbeatStamps` | hub/toolchain_store.py:141-149 | a heartbeat stamps exactly its own lane's rows of the tools it reports missing |
| `Heartbeats.HeartbeatOpensRow` | hub/toolchain_store.py:64-100 | every row a heartbeat opens, whole |
| `Heartbeats.ReportedHasRow` | hub/toolchain_store.py:139-155 | every tool a heartbeat reports missing has its lane's row afterwards |
| `Heartbeats.GapAnswer` | hub/toolchain_store.py:130-155 | what a heartbeat is told about its gap list: nothing without one, a refusal exactly for one that does not count, and else how many different tools it names |
| `Heartbeats.ImageIsLastWord` | hub/toolchain_evidence.py:286-297 | at every moment of every run, the image on record of a lane is the last one that a verified heartbeat or a profile assignment said of it |
| `Enrollment.EnrollmentEffect` | hub/server.py:344-351 | a successful enrollment spends exactly the presented token and adds exactly one runner; otherwise nothing changes |
| `Enrollment.TokensDistinct` | hub/registry.py:240-242 | stored tokens are distinct in every run |
| `Enrollment.TokensPlusRunners` | hub/registry.py:257-321 | unused tokens plus runners equal the tokens ever added |
| `Enrollment.TokenIsSingleUse` | hub/registry.py:257-263 | a token enrolls a second time only if it was added again in between |
| `Enrollment.RevokedIsFinal` | hub/registry.py:410-426 | names stay distinct; a revoked runner never verifies again and its name never re-enrolls |
| `Enrollment.VerifiesIff` | hub/registry.py:410-426 | at every moment of every run, a call verifies if and only if it presents the secret its name was enrolled with and was not revoked since |
| `Enrollment.DecideEffect` | hub/toolchain_creds.py:195-206 | what each reply leaves on the row's nonces and on the consumed list |
| `Enrollment.NoncesCoveredAfter` | hub/toolchain_creds.py:199-205 | where "row nonces are consumed" holds, it survives a step if and only if the step is not a repeat of a recorded decision, at its version, under an unconsumed nonce |
| `Enrollment.WhereNoncesCameFrom` | hub/toolchain_creds.py:195-205 | in every run, a nonce on a row is consumed or was left behind by such a repeat |
| `Enrollment.NoncesCoveredIff` | hub/toolchain_creds.py:195-205 | at every moment of every run, row nonces are consumed if and only if every nonce left behind so far has been consumed by then |
| `Enrollment.NoncesCoveredThroughout` | hub/toolchain_creds.py:195-205 | row nonces are consumed throughout a run if and only if no step of it leaves one behind |
| `Enrollment.ResubmissionLeavesNonceBehind` | hub/toolchain_creds.py:202-205 | after any applied decision, repeating it at the version it produced under a second, unconsumed nonce leaves that nonce behind |
| `Enrollment.TwiceDecidedLeavesNonceBehind` | hub/toolchain_creds.py:202-205 | for every lane, tool and complete decision there is a run from the empty hub whose last document holds a row nonce that is not consumed |
| `Enrollment.SomeRunLeavesNonceBehind` | hub/toolchain_creds.py:202-205 | such a run exists |
| `Reachability.ReachedIsGrounded` | hub/toolchain_store.py:177-205 | in every reachable document all profiles, of runners and of rows, are reviewed ones, and every row's lane is a runner |
| `Reachability.FromOpen` | hub/toolchain_transitions.py:55-85 | in every reachable document, an open row with a required profile whose lane verifies is fulfilled by three more steps: an approval, a build report and a heartbeat with an empty list |
| `Reachability.HopefulCanBeFulfilled` | hub/toolchain_transitions.py:55-85 | from every reachable document, a row that is not denied, has a profile and whose lane verifies is fulfilled within four more steps |
| `Reachability.OnlyHopeful` | hub/toolchain_transitions.py:55-85 | a row that a run fulfils later was such a row, or fulfilled, at every earlier moment |
| `Reachability.CanBeFulfilledIff` | hub/toolchain_transitions.py:55-85 | so from every reachable document, some continuation fulfils a row if and only if it is fulfilled, or not denied with a profile and a lane that verifies |
| `RegistryObject.Registry.constructor` | hub/registry.py:240-242 | a new registry is the initial document |
| `RegistryObject.Registry.AddEnrollmentToken` | hub/registry.py:240-242 | takes the add-token step |
| `RegistryObject.Registry.ConsumeEnrollmentToken` | hub/registry.py:257-263 | succeeds exactly on a stored non-empty token and removes its first occurrence |
| `RegistryObject.Registry.DoEnroll` | hub/server.py:344-351 | takes the enroll step; the name is checked before the token is spent |
| `RegistryObject.Registry.VerifyHeartbeatToken` | hub/registry.py:410-416 | true exactly for an enrolled runner's own secret |
| `RegistryObject.Registry.DoRevoke` | hub/server.py:477-482 | takes the revoke step, and succeeds exactly when the token verified |
| `RegistryObject.Registry.SetLaneProfile` | hub/toolchain_store.py:177-205 | takes the set-profile step; an unknown profile or runner is refused |
| `RegistryObject.Registry.DecideRequest` | hub/toolchain_creds.py:164-206 | takes the decide step and returns its reply |
| `RegistryObject.Registry.ReportBuild` | hub/toolchain_evidence.py:121-254 | takes the report step and returns its reply |
| `RegistryObject.Registry.RecordGapReport` | hub/toolchain_store.py:130-155 | the loop computes the specified rows, count and refusal |
| `RegistryObject.Registry.StoreLaneDigest` | hub/toolchain_evidence.py:290-297 | null clears the recorded digest, a non-empty string replaces it, an absent or malformed field leaves it |
| `RegistryObject.Registry.WeighRows` | hub/toolchain_evidence.py:298-308 | the loop weighs every row against the tick and counts the rows whose state changed |
| `RegistryObject.Registry.NoteLaneEvidence` | hub/toolchain_evidence.py:257-308 | the digest is stored first, then every row is weighed against what is on record |
| `RegistryObject.Registry.DoHeartbeat` | hub/server.py:386-434 | takes the heartbeat step, verifying first, recording the gap second and weighing the evidence last |
| `FleetModel.IdentifierIff` | fleet-manager/fleet_manager/model.py:26 | identifiers are exactly 1 to 64 lower-case letters, digits, dots, underscores and hyphens, the first a letter or digit, with at most one newline behind |
| `FleetModel.RequestIdIff` | fleet-manager/fleet_manager/model.py:29 | request ids and keys likewise, with upper case and colons, up to 128 |
| `FleetModel.FreeTextIff` | fleet-manager/fleet_manager/model.py:32 | free text likewise, up to 96 |
| `FleetModel.DigestIff` | fleet-manager/fleet_manager/model.py:31 | pinned images are exactly `sha256:` and 64 lower-case hexadecimal digits |
| `FleetModel.InUseCounts` | fleet-manager/fleet_manager/model.py:518-527 | the slots in use are as many as the host's assignments that are not released |
| `FleetModel.AssignsIff` | fleet-manager/fleet_manager/model.py:545-568 | an assignment is possible if and only if the host is active, offers the pool's runtime and one of its architectures, allows the pool and has a slot free, the ids are well-shaped and the assignment id is new; it then appends exactly that assignment |
| `FleetModel.ReleasesIff` | fleet-manager/fleet_manager/model.py:570-579 | a release is possible if and only if the assignment is there, not released, and issued no later; it then only stamps it |
| `FleetModel.DrainsIff` | fleet-manager/fleet_manager/model.py:581-589 | a drain is possible if and only if the host is active and the reason is free text; the host is then draining with one open drain more |
| `FleetModel.CompletesIff` | fleet-manager/fleet_manager/model.py:591-608 | a completion is possible if and only if the host is draining and empty; the host is then drained and its open drains are completed |
| `FleetModel.ReturnsIff` | fleet-manager/fleet_manager/model.py:610-622 | a return is possible if and only if the host is drained; the host is then active and its completed drains are ended |
| `FleetModel.RollsOutIff` | fleet-manager/fleet_manager/model.py:624-646 | a rollout is possible if and only if the pool is there, both images are pinned and differ and the rollout id is new; the pool then has the new image and the old one to roll back to |
| `FleetModel.AssignmentKeeps` | fleet-manager/fleet_manager/model.py:545-568 | an assignment keeps every host within its slots |
| `FleetModel.ReleaseKeeps` | fleet-manager/fleet_manager/model.py:570-579 | a release keeps every host within its slots |
| `FleetModel.HostStateKeeps` | fleet-manager/fleet_manager/model.py:581-622 | draining, completing a drain and returning a host keep every host within its slots |
| `FleetModel.RolloutKeeps` | fleet-manager/fleet_manager/model.py:624-646 | a rollout keeps every host within its slots |
| `Fleet.SimulateKeeps` | fleet-manager/fleet_manager/plan.py:250-282 | every possible change makes exactly one revision and keeps capacity |
| `Fleet.MalformedIff` | fleet-manager/fleet_manager/plan.py:87-91 | a change is malformed if and only if a parameter its kind needs is missing |
| `Fleet.AssignAdds` | fleet-manager/fleet_manager/plan.py:257-264 | an assign change adds exactly the assignment its parameters name, to a host that admits it |
| `Fleet.OthersMove` | fleet-manager/fleet_manager/plan.py:265-282 | what every other change does to its subject, and that it touches nothing else |
| `Fleet.AuthorizedIff` | fleet-manager/fleet_manager/apply.py:156-162 | a call is authorized if and only if its principal is an administrator, or has the apply scope and the plan only assigns work and returns hosts to service |
| `Fleet.RefusesCaller` | fleet-manager/fleet_manager/apply.py:156-162 | a call that is heard is refused for its principal exactly when that does not hold, before its key is looked at |
| `Fleet.AnswersKnownKey` | fleet-manager/fleet_manager/apply.py:164-189 | a recorded key answers its own plan with the recorded revision and one log entry, refuses every other plan, and applies nothing |
| `Fleet.AnswersNewKey` | fleet-manager/fleet_manager/apply.py:191-211 | under an unused key a plan for another revision is refused as stale, and one that gets stuck is refused at the change it gets stuck at, each exactly then |
| `Fleet.RefusalIsLogged` | fleet-manager/fleet_manager/apply.py:140-154 | a refusal leaves state and ledger and adds exactly one entry that says who, when, which plan, which key and why |
| `Fleet.ExecuteChanges` | fleet-manager/fleet_manager/apply.py:202-219 | the loop over a working copy and a pending log computes the specified all-or-nothing execution |
| `Fleet.ApplyPlan` | fleet-manager/fleet_manager/apply.py:112-242 | the call computes the specified outcome: authorization, ledger, reviewed revision, whole plan |
| `FleetRuns.CommitEffect` | fleet-manager/fleet_manager/apply.py:198-242 | a commit is the whole plan, under a key never used, with exactly its applied events |
| `FleetRuns.NoCommitEffect` | fleet-manager/fleet_manager/apply.py:141-196 | anything else leaves state and ledger alone and logs at most one entry, not an applied one |
| `FleetRuns.ExactlyOnce` | fleet-manager/fleet_manager/apply.py:112-242 | after any sequence of calls the state is the initial one with exactly the ledgered plans simulated once each in ledger order, each key once, and the applied audit events are exactly theirs, whole |
| `FleetRuns.LedgerGrows` | fleet-manager/fleet_manager/apply.py:87-98 | ledger and log are append-only over every run |
| `FleetRuns.CommitIsOnRecord` | fleet-manager/fleet_manager/apply.py:81-98 | a commit stays on record, with the revision it produced |
| `FleetRuns.RetriesNeverReapply` | fleet-manager/fleet_manager/apply.py:164-189 | a committed key never commits again: the same plan is answered with the recorded revision, another plan is refused |
| `FleetRuns.CommitsIff` | fleet-manager/fleet_manager/apply.py:156-233 | a call on a built plan commits if and only if its key is well-shaped and unused, its time does not run the log backwards, its principal may apply it (an administrator, or the apply scope for a plan without destructive changes), its revision is the current one and every change is possible |
| `FleetRuns.SimulateMakesOneRevision` | fleet-manager/fleet_manager/plan.py:250-282 | the fleet's own simulator meets the assumption of the run theorems |
| `FleetRuns.CapacityIsKept` | fleet-manager/fleet_manager/model.py:518-527 | no run ever puts a host over its slots or leaves work on a drained one |
| `FleetHistory.EveryAssignmentWasAdmitted` | fleet-manager/fleet_manager/model.py:336-347 | whatever a run adds to the fleet's work was issued by a change of a committed plan, at a moment when its host was active, offered the pool's runtime and architecture, allowed the pool and had a slot free |
| `FleetHistory.CommitNeedsScope` | fleet-manager/fleet_manager/apply.py:156-162 | a plan that commits is an administrator's if it releases, drains, completes a drain or rolls out, and otherwise of someone with the apply or the admin scope |
| `FleetHistory.ApplyScopeSuffices` | fleet-manager/fleet_manager/apply.py:156-162 | a plan of assignments and returns is never refused for an apply scope; without either scope nothing is touched and a call that is heard is refused for that |
| `FleetHistory.EveryAppliedEventWasAuthorized` | fleet-manager/fleet_manager/apply.py:210-219 | every applied event a run adds to the log is, in full, the entry of one change of one committed call, whose principal had the scope for it |
| `Planning.ClockIsNewest` | fleet-manager/fleet_manager/plan.py:221-247 | the clock of a plan is the newest time stamp of any assignment, drain or rollout in the state, or the epoch when there is none |
| `Planning.BuildPlan` | fleet-manager/fleet_manager/plan.py:171-218 | the loop with its two dictionaries computes the specified answer: the plan with its capacity impacts, or the index of the first change that is impossible or malformed |
| `Planning.TwinStep` | fleet-manager/fleet_manager/plan.py:250-282 | what is possible in a state is possible, with the same effect but for time stamps, in any state that differs in time stamps only, at any time, except a release before the assignment was issued |
| `Planning.PlannedIffPossible` | fleet-manager/fleet_manager/plan.py:171-218 | planning accepts exactly the non-empty lists of changes that could be applied at some moment, and the state's own clock is such a moment |
| `Planning.PlanApplies` | fleet-manager/fleet_manager/apply.py:198-242 | a plan accepted on a state applies to that state if and only if the call is admissible (valid unused key, authorized, log in order) and no assignment of the state that it releases was issued after the call's time; otherwise an admissible call is refused at the first such release |
| `Planning.PlanKeepsItsPromise` | fleet-manager/fleet_manager/plan.py:176-212 | applied, it leaves the planned state in everything but time stamps; the announced numbers and the slots in use are all the slots of the host, before and after, and a host it does not announce has as many free as before |
| `Planning.VacantIff` | fleet-manager/fleet_manager/plan.py:300-304 | a host's free slots and its slots in use are all its slots; an unknown or overbooked host has none free |
| `Planning.AnnouncedIsConcerned` | fleet-manager/fleet_manager/plan.py:192-199 | a host that a plan announces is one that some change of it assigns work to, releases work from, or moves |
| `Planning.ConcernedIsAnnounced` | fleet-manager/fleet_manager/plan.py:192-199 | and every such host is announced |
| `Planning.ChangeMovesSlots` | fleet-manager/fleet_manager/plan.py:285-297 | one change leaves one slot fewer free for an assignment, one more for a release, as many for a drain, its completion and a return |
| `Planning.OneChangeAnnounces` | fleet-manager/fleet_manager/plan.py:201-209 | so a plan of one change announces exactly that difference |
| `Planning.RejectedAt` | fleet-manager/fleet_manager/plan.py:182-191 | a refused list names its first change that cannot be planned, as malformed or as impossible |
| `UnifiedDiff.TrimmedParts` | scripts/corruption_diff.py:55-62 | what trimming takes from the end of a path is whitespace, and all of it |
| `UnifiedDiff.StripParts` | scripts/corruption_diff.py:55-62 | trimming takes only whitespace from either end |
| `UnifiedDiff.StripEnds` | scripts/corruption_diff.py:55-62 | and leaves none there |
| `UnifiedDiff.SpaceCodes` | scripts/corruption_diff.py:55-62 | what counts as whitespace, by code point |
| `DiffHunks.FeedPathLine` | scripts/corruption_diff.py:55-62 | path lines in general: the trimmed text, without its prefix if it has one; a new path of `/dev/null` leaves the old one |
| `DiffHunks.FeedMark` | scripts/corruption_diff.py:64-72 | any `@@` line begins a hunk, path or no path; numbers that do not read are zero |
| `DiffHunks.FeedStray` | scripts/corruption_diff.py:73-82 | any other line inside a file is a line of both texts, less its first character |
| `DiffHunks.GitlinkMetaIff` | scripts/corruption_diff.py:21-22 | the header lines that mark a commit pointer: its mode, added or deleted, or behind two object names |
| `DiffHunks.DotDotIff` | scripts/corruption_diff.py:21-22 | two object names are two non-empty texts without whitespace around two dots |
| `DiffHunks.ParseHunks` | scripts/corruption_diff.py:25-84 | the loop over lines, with its counters and flags, computes the specified hunks |
| `DiffHunks.FeedOps` | scripts/corruption_diff.py:73-82 | inside a hunk every body line becomes one numbered record, lines whose text begins with `--` or `++` included |
| `DiffHunks.HeaderRanges` | scripts/corruption_diff.py:66-72 | both start numbers of a printed hunk header are read back |
| `DiffHunks.FeedMeta` | scripts/corruption_diff.py:52-63 | extended header lines change nothing but the commit-pointer flag |
| `DiffHunks.FeedPaths` | scripts/corruption_diff.py:55-62 | the two path lines set the path the file is reported under, trimmed at its end, the old one for a deleted file |
| `DiffHunks.ParseInvertsPrint` | scripts/corruption_diff.py:25-84 | parsing the printed lines of any well-formed list of file diffs yields exactly its non-empty hunks under their trimmed paths, commit pointers and header-only files left out |
| `DiffAccuracy.EveryNumberIsReal` | scripts/corruption_diff.py:25-84 | every reported number of an added or context line indexes that exact text in the new file, and of a removed line in the old file |
| `DiffAccuracy.ChangesAreConserved` | scripts/corruption_diff.py:105-118 | the reported added and removed lines account exactly for how the files' lengths changed |
| `LineBreaks.SplitLinesIff` | scripts/corruption_diff.py:42 | `splitlines` recovers printed lines if and only if none holds a character Python takes for a line end |
| `LineBreaks.SplitNewlinesIff` | scripts/regression_diff.py:93 | splitting at newlines recovers them, with one empty line at the end, if and only if none holds a newline |
| `LineBreaks.SplitAtBreak` | scripts/corruption_diff.py:42 | a carriage return and the newline behind it end one line, any other break ends one by itself |
| `LineBreaks.SplitIsCut` | scripts/corruption_diff.py:42 | splitting a text of lines, whatever they hold, is cutting each of its lines at its own breaks |
| `DiffText.PendingIsKept` | scripts/corruption_diff.py:44-68 | the records of a hunk begun in a reported file are the next thing reported, whatever lines follow |
| `DiffText.CutBodyShows` | scripts/corruption_diff.py:42-82 | for every well-formed diff: a line break inside a body line of a reported file changes the result |
| `DiffText.CleanTextParses` | scripts/corruption_diff.py:25-84 | for every well-formed diff: without line breaks inside its lines, the parser recovers the printed hunks from the text |
| `DiffText.TextParsesIff` | scripts/corruption_diff.py:25-84 | for every well-formed diff in which line breaks neither cut a path line nor make up a header line (`AllLegible`): from text, the parser recovers the printed hunks if and only if no body line of a reported file holds a line break, and all that line breaks cut off a hunk heading is a line that begins with a backslash or `@@` and leaves the numbers in use as they were |
| `DiffText.FormFeedIsCut` | scripts/corruption_diff.py:42 | an added line with a form feed is a diff on which it does not |
| `DiffText.HeadingIsCut` | scripts/corruption_diff.py:66-82 | a form feed in a hunk heading is another |
| `DiffText.ParsersAgreeOnText` | scripts/regression_diff.py:82-110 | the agreement below, on texts, with the two ways of splitting |
| `DiffAdded.ParseDiff` | scripts/regression_diff.py:82-110 | the loop over lines computes the specified additions |
| `DiffAdded.HeaderNumber` | scripts/regression_diff.py:98-101 | the new start number of a printed hunk header is read back |
| `DiffAdded.StepPathLine` | scripts/regression_diff.py:94-97 | path lines in general: the trimmed text, without its prefix if it has one, and no path for `/dev/null` |
| `DiffAdded.ParsersAgreeIff` | scripts/regression_diff.py:82-110 | without commit pointers, the simpler parser reports exactly the added lines of the hunk-accurate one, same paths and numbers, if and only if no added text begins with `++` and no line is added to a file whose new name is absent or all whitespace |
| `DiffAdded.MaskedShiftsTheRest` | scripts/regression_diff.py:102-105 | an added line that begins with `++` but not with `++` and a space is not reported, and the lines below it in its hunk are numbered one too low |
| `DiffAdded.MaskedLineIsLost` | scripts/regression_diff.py:102-105 | an added line of two plus signs is a diff on which they differ |
| `Overlay.MergeById` | scripts/gate_overlay.py:67-86 | the loop with its index map computes the specified merge |
| `Overlay.MergeByPosition` | scripts/gate_overlay.py:67-86 | bundled positions are kept with the last overlay entry of their id winning, and what is new follows in order of first appearance |
| `Overlay.AddedIsNew` | scripts/gate_overlay.py:82-85 | nothing is appended whose id was bundled |
| `Overlay.AddedOnce` | scripts/gate_overlay.py:80-85 | no id is appended twice |
| `Overlay.MergeAssociative` | scripts/gate_overlay.py:67-86 | stacking overlays is associative, for all inputs |
| `Overlay.LastWins` | scripts/gate_overlay.py:78-86 | after a merge every overlay id carries the overlay's last entry |
| `Overlay.RemergeIff` | scripts/gate_overlay.py:78-86 | merging the same overlay again changes nothing if and only if it has no entry without an id |
| `Artifacts.NewestIsMultiset` | scripts/artifact_hygiene.py:220 | sorting keeps every artifact as often as it occurs |
| `Artifacts.NewestOrdered` | scripts/artifact_hygiene.py:220 | the order is newest first, and list order where equally new |
| `Artifacts.CountIsRank` | scripts/artifact_hygiene.py:220-227 | what stands before an artifact in the order is exactly what is ahead of it by the reference rule |
| `Artifacts.Protect` | scripts/artifact_hygiene.py:221-227 | the loop with its count map computes the newest of each name |
| `Artifacts.SelectArtifacts` | scripts/artifact_hygiene.py:203-231 | the sweep computes the specified selection, in its order |
| `Artifacts.OldIff` | scripts/artifact_hygiene.py:228-230 | old means that a whole day more than the bound has gone by |
| `Artifacts.DoomedOrder` | scripts/artifact_hygiene.py:228-231 | what is selected comes newest first, and the expired ones last, in list order |
| `Artifacts.DoomedIff` | scripts/artifact_hygiene.py:203-231 | on unique ids exactly the expired and the old unprotected artifacts are selected, each once |
| `Artifacts.NewestAreKept` | scripts/artifact_hygiene.py:213-217 | on unique ids, a live artifact is selected if and only if it is old and at least `keep_latest` live ones of its name, newer or as new and listed earlier, are not selected |
| `Artifacts.SweepSettles` | scripts/artifact_hygiene.py:203-231 | on unique ids, once what a sweep selects is gone, the same sweep selects nothing |
| `Artifacts.RaisingBoundsKeepsMore` | scripts/artifact_hygiene.py:225-230 | on unique ids, raising either bound, or sweeping at an earlier time, never selects anything more |
| `Mutation.OriginalIsNeverLost` | scripts/mutation_check.py:147-192 | over any number of runs, killed anywhere, the target differs from the original only while the sidecar holds the original |
| `Mutation.MutantsComeFromOriginal` | scripts/mutation_check.py:210-234 | over any number of runs, killed anywhere, the target is the original or one of its own mutants; the mutants in memory are the last of the list made from the original, and the one before them is on disk |
| `Mutation.RestartRecovers` | scripts/mutation_check.py:165-180 | after any history and a kill, the next start restores the original and removes the sidecar before it reads anything |
| `Mutation.TriedCount` | scripts/mutation_check.py:217-218 | how many mutants are tried: all, at most the limit, or all but the last ones for a negative limit, always from the front |
| `Mutation.TargetFile.Recover` | scripts/mutation_check.py:165-180 | restores from a stale sidecar if there is one |
| `Mutation.TargetFile.RunMutations` | scripts/mutation_check.py:207-234 | there is one verdict per mutant of the source within the limit, in order, judged on a disk that holds that mutant with the original in the sidecar, and the file ends restored with no sidecar |
| `Mutation.WholeRunRestores` | scripts/mutation_check.py:207-234 | the machine, left undisturbed, goes through exactly the disks that `RunMutations` judges, in order, and ends with the one it promises |

## Left out

- HTTP, JSON persistence, sockets, body limits, locking primitives: a step is atomic and its arguments arrive parsed.
- Rows are values that the registry replaces in its sequence; the source mutates row dictionaries in place, so aliasing of a row is not modelled.
- Hashing, salts, HMAC, token minting and credential classification: secrets are opaque strings compared for equality, and credential class, scope and identity are arguments of a step.
- Clocks: every time stamp is an argument of a step; the suppression date of a denial stays symbolic (its base and its number of days).
- Runner fields the protocol never reads (labels, address, disk and podman health, coverage, rejection counters, scan state) and the required-tools echo of a heartbeat.
- Pruning of enrollment tokens at startup; adding a token is an explicit step.
- The wording of the two notes the hub writes itself, on a given-up digest and on a regression, is shortened.
- Reading views of the queue, `report_event` (nothing calls it), outstanding reasons and visibility.
- Plan ids are the pair they are a digest of; construction checks of plans, principals and ledgers, secret-shaped audit reasons, and pool and host fields that no transition reads.
- Audit and apply timestamps are integers, and a timestamp that does not parse is a missing one.
- Artifact times: one integer stands for the sort key and for the parsed stamp, so two spellings of the same instant are not distinguished.
- File writes are atomic, and the command-line check for a dirty target is not part of the mutation model.
- DiffText.TextParsesIff: says nothing of diffs in which a line break cuts a path line, cuts another line before the first hunk so that a piece begins with `diff --git`, `-`, `+` or `@` or a commit-pointer line appears or disappears, or cuts off a `diff --git` line below it; `CutBodyShows` and `CleanTextParses` cover those diffs too, one direction each.
- Digits are ASCII digits, and a file whose name, trimmed, is `/dev/null` is not a well-formed diff.
- The list of capacity impacts of a plan is a map from host to impact, so its order by host is not modelled; a drain's completion time is taken to parse.
- Paths that git prints in quotes, the flip heuristics and replacement pairing of the corruption gate, and registry resolution and source tags of the overlay.
- Monitoring, alerts and the remote API client poll and deliver messages, and hold no state of the protocol; views, services and sessions classify one value at a time; the drills and the remaining scanners are subprocess drivers and pattern matches on single lines. None of them has a law that relates several operations.
- The other fleet-manager modules (lifecycle, reconciliation, operations, channel, documents): an application of their own beside plans and their application.
