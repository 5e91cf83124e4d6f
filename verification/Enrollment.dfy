/** One-time tokens, runner identities and operator nonces over every run of the hub. */
module Enrollment {
  import opened Common
  import opened Requests
  import opened Store
  import opened Hub
  import opened HubRuns
  import Transitions
  import Evidence
  import Vocabulary

  /* ---- Tokens ---- */

  /** Step `j` enrolls a runner. */
  ghost predicate EnrollsAt(run: Run, j: nat)
    requires |run.docs| == |run.steps| + 1
  {
    j < |run.steps| && run.steps[j].Enroll? && |run.docs[j + 1].runners| > |run.docs[j].runners|
  }

  /** How many of the first `k` steps added a token that was not stored already. */
  ghost function Additions(run: Run, k: nat): (n: nat)
    requires |run.docs| == |run.steps| + 1 && k <= |run.steps|
  {
    if k == 0 then 0
    else Additions(run, k - 1) + if run.steps[k - 1].AddToken? && run.steps[k - 1].token !in run.docs[k - 1].tokens then 1 else 0
  }

  /** A successful enrollment spends exactly the presented token and adds exactly one runner; a failed one changes nothing. */
  lemma {:induction false} EnrollmentEffect(d: Doc, name: string, presented: string, secret: string)
    ensures var d' := EnrollDoc(d, name, presented, secret);
            var free := forall i :: 0 <= i < |d.runners| ==> d.runners[i].name != name;
            if free && presented != "" && presented in d.tokens
            then d'.runners == d.runners + [Runner(name, true, Some(secret), None, None, None, None)]
                 && multiset(d'.tokens) == multiset(d.tokens) - multiset{presented}
                 && d'.rows == d.rows && d'.consumed == d.consumed
            else d' == d
  {
    var t := FindToken(d.tokens, presented);
    if t < |d.tokens| {
      TokenRemoved(d.tokens, t);
    }
  }

  lemma {:induction false} TokenRemoved(tokens: seq<string>, t: nat)
    requires t < |tokens|
    ensures multiset(tokens[..t] + tokens[t + 1..]) == multiset(tokens) - multiset{tokens[t]}
  {
    assert tokens == tokens[..t] + [tokens[t]] + tokens[t + 1..];
  }

  lemma {:induction false} TokensAfter(d: Doc, s: Step)
    ensures var d' := Next(d, s);
            && (s.AddToken? && s.token !in d.tokens ==> d'.tokens == d.tokens + [s.token] && d'.runners == d.runners)
            && (s.AddToken? && s.token in d.tokens ==> d' == d)
            && (!s.AddToken? ==> |d'.tokens| + |d'.runners| == |d.tokens| + |d.runners| && |d'.runners| >= |d.runners|)
            && (!s.AddToken? ==> d'.tokens == d.tokens
                                 || (s.Enroll? && exists t :: 0 <= t < |d.tokens| && d.tokens[t] == s.presented && d'.tokens == Without(d.tokens, t)))
  {
    if s.Enroll? {
      var t := FindToken(d.tokens, s.presented);
      if t < |d.tokens| {
        assert d.tokens[t] == s.presented;
        assert Without(d.tokens, t) == d.tokens[..t] + d.tokens[t + 1..];
      }
    }
  }

  function Without(tokens: seq<string>, t: nat): (r: seq<string>)
    requires t < |tokens|
    ensures forall x :: x in r ==> x in tokens
  {
    tokens[..t] + tokens[t + 1..]
  }

  lemma {:induction false} TokensDistinct(run: Run, k: nat)
    requires IsRun(run) && k <= |run.steps|
    ensures NoDuplicates(run.docs[k].tokens)
  {
    if k > 0 {
      TokensDistinct(run, k - 1);
      assert Follows(run, k - 1);
      TokensAfter(run.docs[k - 1], run.steps[k - 1]);
    }
  }

  /** Unused tokens and runners together count the tokens ever added. */
  lemma {:induction false} TokensPlusRunners(run: Run, k: nat)
    requires IsRun(run) && k <= |run.steps|
    ensures |run.docs[k].tokens| + |run.docs[k].runners| == Additions(run, k)
  {
    if k > 0 {
      TokensPlusRunners(run, k - 1);
      assert Follows(run, k - 1);
      TokensAfter(run.docs[k - 1], run.steps[k - 1]);
    }
  }

  lemma {:induction false} SpentTokenStaysSpent(run: Run, j: nat, k: nat, token: string)
    requires IsRun(run) && j <= k <= |run.steps| && token !in run.docs[j].tokens
    requires forall m :: j <= m < k ==> run.steps[m] != AddToken(token)
    ensures token !in run.docs[k].tokens
  {
    if j < k {
      SpentTokenStaysSpent(run, j, k - 1, token);
      assert Follows(run, k - 1);
      TokensAfter(run.docs[k - 1], run.steps[k - 1]);
    }
  }

  lemma {:induction false} EnrollingSpends(run: Run, j: nat)
    requires IsRun(run) && EnrollsAt(run, j)
    ensures run.steps[j].presented in run.docs[j].tokens && run.steps[j].presented !in run.docs[j + 1].tokens
  {
    assert Follows(run, j);
    TokensDistinct(run, j);
  }

  /** One token enrolls one runner, unless it is added again in between. */
  lemma {:induction false} TokenIsSingleUse(run: Run, j: nat, k: nat)
    requires IsRun(run) && j < k && EnrollsAt(run, j) && EnrollsAt(run, k)
    requires run.steps[j].presented == run.steps[k].presented
    ensures exists m :: j < m < k && run.steps[m] == AddToken(run.steps[j].presented)
  {
    var token := run.steps[j].presented;
    EnrollingSpends(run, j);
    EnrollingSpends(run, k);
    if forall m :: j + 1 <= m < k ==> run.steps[m] != AddToken(token) {
      SpentTokenStaysSpent(run, j + 1, k, token);
    }
  }

  /* ---- Runners ---- */

  lemma {:induction false} RunnersAfter(d: Doc, s: Step, i: nat)
    requires i < |d.runners|
    ensures var d' := Next(d, s);
            && i < |d'.runners| && d'.runners[i].name == d.runners[i].name
            && (d'.runners[i].enrolled ==> d.runners[i].enrolled)
  {
  }

  lemma {:induction false} RunnersStay(run: Run, j: nat, k: nat, i: nat)
    requires IsRun(run) && j <= k <= |run.steps| && i < |run.docs[j].runners|
    ensures i < |run.docs[k].runners| && run.docs[k].runners[i].name == run.docs[j].runners[i].name
    ensures run.docs[k].runners[i].enrolled ==> run.docs[j].runners[i].enrolled
  {
    if j < k {
      RunnersStay(run, j, k - 1, i);
      assert Follows(run, k - 1);
      RunnersAfter(run.docs[k - 1], run.steps[k - 1], i);
    }
  }

  /** Runner names stay distinct, and a revoked runner neither verifies nor re-enrolls, ever again. */
  lemma {:induction false} RevokedIsFinal(run: Run, j: nat, k: nat, i: nat, presented: string, token: string, secret: string)
    requires IsRun(run) && j <= k <= |run.steps| && i < |run.docs[j].runners| && !run.docs[j].runners[i].enrolled
    ensures DistinctNames(run.docs[k].runners)
    ensures !Verifies(run.docs[k].runners, run.docs[j].runners[i].name, presented)
    ensures EnrollDoc(run.docs[k], run.docs[j].runners[i].name, token, secret) == run.docs[k]
  {
    RunnersStay(run, j, k, i);
    ReachedIsSound(run, k);
    assert FindRunner(run.docs[k].runners, run.docs[j].runners[i].name) == i;
  }

  /** The secret a name was enrolled with and not revoked since, read off the first `k` steps. */
  ghost function KeyOf(run: Run, k: nat, name: string): (key: Option<string>)
    requires |run.docs| == |run.steps| + 1 && k <= |run.steps|
  {
    if k == 0 then None
    else
      var d, s, key := run.docs[k - 1], run.steps[k - 1], KeyOf(run, k - 1, name);
      if s.Enroll? && s.name == name && |s.presented| > 0 && s.presented in d.tokens
         && (forall i :: 0 <= i < |d.runners| ==> d.runners[i].name != name) then Some(s.secret)
      else if s.Revoke? && s.name == name && |s.presented| > 0 && key == Some(s.presented) then None
      else key
  }

  /** The same, read off the document. */
  function StoredKey(d: Doc, name: string): (key: Option<string>) {
    var k := FindRunner(d.runners, name);
    if k < |d.runners| && d.runners[k].enrolled then d.runners[k].secret else None
  }

  lemma {:induction false} EnrollKey(d: Doc, name: string, presented: string, secret: string, lane: string)
    ensures var free := forall i :: 0 <= i < |d.runners| ==> d.runners[i].name != lane;
            StoredKey(EnrollDoc(d, name, presented, secret), lane) ==
            if name == lane && free && |presented| > 0 && presented in d.tokens then Some(secret) else StoredKey(d, lane)
  {
    EnrollmentEffect(d, name, presented, secret);
    FindNewest(d.runners, NewRunner(name, secret), lane);
    assert FindRunner(d.runners, lane) == |d.runners| <==> forall i :: 0 <= i < |d.runners| ==> d.runners[i].name != lane;
  }

  lemma {:induction false} RevokeKey(d: Doc, name: string, presented: string, lane: string)
    ensures StoredKey(RevokeDoc(d, name, presented), lane) ==
            if name == lane && |presented| > 0 && StoredKey(d, lane) == Some(presented) then None else StoredKey(d, lane)
  {
    SameNames(d.runners, RevokeDoc(d, name, presented).runners, lane);
  }

  lemma {:induction false} OtherKeys(d: Doc, s: Step, lane: string)
    requires !s.Enroll? && !s.Revoke?
    ensures StoredKey(Next(d, s), lane) == StoredKey(d, lane)
  {
    SameNames(d.runners, Next(d, s).runners, lane);
  }

  lemma {:induction false} KeyIsStored(run: Run, k: nat, name: string)
    requires IsRun(run) && k <= |run.steps|
    ensures StoredKey(run.docs[k], name) == KeyOf(run, k, name)
  {
    if k > 0 {
      var d, s := run.docs[k - 1], run.steps[k - 1];
      KeyIsStored(run, k - 1, name);
      assert Follows(run, k - 1);
      match s
      case Enroll(other, presented, secret) => EnrollKey(d, other, presented, secret, name);
      case Revoke(other, presented) => RevokeKey(d, other, presented, name);
      case _ => OtherKeys(d, s, name);
    }
  }

  /** At every moment of every run, a runner's calls verify with the secret it was enrolled with and not revoked since, and with nothing else. */
  lemma {:induction false} VerifiesIff(run: Run, k: nat, name: string, presented: string)
    requires IsRun(run) && k <= |run.steps|
    ensures Verifies(run.docs[k].runners, name, presented) <==> |presented| > 0 && KeyOf(run, k, name) == Some(presented)
  {
    KeyIsStored(run, k, name);
  }

  /* ---- Nonces kept on rows ---- */

  /** Some row carries the nonce. */
  ghost predicate OnRows(d: Doc, nonce: string) {
    exists i :: 0 <= i < |d.rows| && nonce in d.rows[i].nonces
  }

  /** Every nonce on a row is consumed hub-wide. */
  ghost predicate NoncesCovered(d: Doc) {
    forall nonce :: OnRows(d, nonce) ==> nonce in d.consumed
  }

  /** A resubmission that carries a nonce nobody has consumed, as its caller can see from the row and the consumed list. */
  ghost predicate LeavesNonceBehind(d: Doc, s: Step) {
    && s.Decide? && FindById(d.rows, s.id) < |d.rows|
    && Transitions.Repeats(d.rows[FindById(d.rows, s.id)], s.decision)
    && s.decision.nonce.Some? && s.decision.nonce.value !in d.consumed
  }

  /** What a decision leaves on its row, by its reply. */
  lemma {:induction false} DecisionNonces(r: Row, decision: Transitions.Decision, consumed: seq<string>)
    requires RowInvariant(r)
    ensures var o := Transitions.Decide(r, decision, consumed);
            var nonces := DecidedRow(o, decision.nonce).nonces;
            if o.reply.Applied? then decision.nonce.Some? && nonces == r.nonces + [decision.nonce.value]
            else if o.reply.AlreadyApplied? && decision.nonce.Some? && decision.nonce.value !in r.nonces
            then nonces == r.nonces + [decision.nonce.value]
            else nonces == r.nonces
  {
    Transitions.DecideNonces(r, decision, consumed);
    Transitions.DecideIsRowStep(r, decision, consumed);
  }

  /** What a decision does to the document, by its reply. */
  lemma {:induction false} DecideEffect(d: Doc, id: string, decision: Transitions.Decision)
    requires Sound(d)
    ensures var k, reply, d' := FindById(d.rows, id), DecideReply(d, id, decision), DecideDoc(d, id, decision);
            && |d'.rows| == |d.rows| && (forall i :: 0 <= i < |d.rows| && i != k ==> d'.rows[i] == d.rows[i])
            && (reply.Applied? ==>
                  && k < |d.rows| && decision.nonce.Some? && d'.consumed == d.consumed + [decision.nonce.value]
                  && d'.rows[k].nonces == d.rows[k].nonces + [decision.nonce.value])
            && (!reply.Applied? ==> d'.consumed == d.consumed)
            && (!reply.Applied? && k < |d.rows| ==>
                  d'.rows[k].nonces == if reply.AlreadyApplied? && decision.nonce.Some? && decision.nonce.value !in d.rows[k].nonces
                                       then d.rows[k].nonces + [decision.nonce.value] else d.rows[k].nonces)
  {
    var k := FindById(d.rows, id);
    if k < |d.rows| {
      DecisionNonces(d.rows[k], decision, d.consumed);
      DecisionOnRow(d.rows[k], decision, d.consumed);
    }
  }

  /** The step is a decision that puts this nonce on its row. */
  ghost predicate Puts(d: Doc, s: Step, nonce: string) {
    && s.Decide? && s.decision.nonce == Some(nonce)
    && (DecideReply(d, s.id, s.decision).Applied? || DecideReply(d, s.id, s.decision).AlreadyApplied?)
  }

  /** Row by row the same nonces, and none on rows that are new. */
  ghost predicate SameNonces(rows: seq<Row>, rows': seq<Row>) {
    && |rows| <= |rows'|
    && (forall i :: 0 <= i < |rows| ==> rows'[i].nonces == rows[i].nonces)
    && (forall i :: |rows| <= i < |rows'| ==> rows'[i].nonces == [])
  }

  lemma {:induction false} SameOnRows(d: Doc, d': Doc, nonce: string)
    requires SameNonces(d.rows, d'.rows)
    ensures OnRows(d', nonce) <==> OnRows(d, nonce)
  {
    if OnRows(d, nonce) {
      var i :| 0 <= i < |d.rows| && nonce in d.rows[i].nonces;
      assert nonce in d'.rows[i].nonces;
    }
  }

  /** One row's nonces change; the others keep theirs. */
  lemma {:induction false} OneRowPuts(d: Doc, d': Doc, k: nat, nonce: string, puts: bool)
    requires |d'.rows| == |d.rows| && k < |d.rows|
    requires forall i :: 0 <= i < |d.rows| && i != k ==> d'.rows[i] == d.rows[i]
    requires nonce in d'.rows[k].nonces <==> nonce in d.rows[k].nonces || puts
    ensures OnRows(d', nonce) <==> OnRows(d, nonce) || puts
  {
    if OnRows(d, nonce) {
      var i :| 0 <= i < |d.rows| && nonce in d.rows[i].nonces;
      assert nonce in d'.rows[i].nonces;
    }
    if puts {
      assert nonce in d'.rows[k].nonces;
    }
  }

  lemma {:induction false} NoncesAfterDecision(d: Doc, id: string, decision: Transitions.Decision, nonce: string)
    requires Sound(d)
    ensures OnRows(DecideDoc(d, id, decision), nonce) <==> OnRows(d, nonce) || Puts(d, Decide(id, decision), nonce)
  {
    var k := FindById(d.rows, id);
    if k < |d.rows| {
      DecideEffect(d, id, decision);
      OneRowPuts(d, DecideDoc(d, id, decision), k, nonce, Puts(d, Decide(id, decision), nonce));
    }
  }

  lemma {:induction false} WeighKeepsNonces(r: Row, t: Evidence.Tick)
    ensures Evidence.Weigh(r, t).nonces == r.nonces
  {
  }

  lemma {:induction false} NoncesAfterBeat(d: Doc, b: Beat)
    requires Sound(d)
    ensures SameNonces(d.rows, HeartbeatDoc(d, b).rows)
  {
    if Verifies(d.runners, b.runner, b.presented) {
      var k := FindRunner(d.runners, b.runner);
      var mid, rows' := GapOf(d, k, b).rows, HeartbeatDoc(d, b).rows;
      GapOfSteps(d, k, b);
      forall i | 0 <= i < |mid| ensures rows'[i].nonces == mid[i].nonces {
        WeighKeepsNonces(mid[i], TickOf(d, k, b));
      }
      forall i | |d.rows| <= i < |mid| ensures mid[i].nonces == [] {
        assert Fresh(mid[i], d.runners[k].name, d.runners[k].profile);
      }
    }
  }

  lemma {:induction false} ReportKeepsNonces(r: Row, b: Evidence.BuildReport)
    ensures Evidence.ReportBuild(r, b).row.nonces == r.nonces
  {
  }

  lemma {:induction false} NoncesAfterOthers(d: Doc, s: Step)
    requires !s.Decide? && !s.Heartbeat?
    ensures SameNonces(d.rows, Next(d, s).rows)
  {
    if s.Report? {
      var k := FindById(d.rows, s.id);
      if k < |d.rows| {
        ReportKeepsNonces(d.rows[k], s.build);
      }
    }
  }

  /** A nonce is on some row after a step exactly when it was before or the step put it there. */
  lemma {:induction false} NoncesAfter(d: Doc, s: Step, nonce: string)
    requires Sound(d)
    ensures OnRows(Next(d, s), nonce) <==> OnRows(d, nonce) || Puts(d, s, nonce)
  {
    match s
    case Decide(id, decision) => NoncesAfterDecision(d, id, decision, nonce);
    case Heartbeat(beat) =>
      NoncesAfterBeat(d, beat);
      SameOnRows(d, Next(d, s), nonce);
    case _ =>
      NoncesAfterOthers(d, s);
      SameOnRows(d, Next(d, s), nonce);
  }

  /** A nonce that is put on a row is consumed, or was consumed before, or is left behind. */
  lemma {:induction false} PutNonces(d: Doc, s: Step, nonce: string)
    requires Sound(d) && Puts(d, s, nonce)
    ensures nonce in Next(d, s).consumed || LeavesNonceBehind(d, s)
  {
    DecideEffect(d, s.id, s.decision);
    Transitions.AlreadyAppliedIff(d.rows[FindById(d.rows, s.id)], s.decision, d.consumed);
  }

  lemma {:induction false} LeftIsAnswered(d: Doc, s: Step)
    requires LeavesNonceBehind(d, s)
    ensures DecideReply(d, s.id, s.decision).AlreadyApplied?
  {
    Transitions.AlreadyAppliedIff(d.rows[FindById(d.rows, s.id)], s.decision, d.consumed);
  }

  /** A nonce left behind is on its row, and not consumed by the step. */
  lemma {:induction false} LeftNonces(d: Doc, s: Step)
    requires Sound(d) && LeavesNonceBehind(d, s)
    ensures OnRows(Next(d, s), s.decision.nonce.value) && s.decision.nonce.value !in Next(d, s).consumed
  {
    LeftIsAnswered(d, s);
    NoncesAfterDecision(d, s.id, s.decision, s.decision.nonce.value);
    LeftUnconsumed(d, s);
  }

  lemma {:induction false} LeftUnconsumed(d: Doc, s: Step)
    requires Sound(d) && LeavesNonceBehind(d, s)
    ensures s.decision.nonce.value !in Next(d, s).consumed
  {
    LeftIsAnswered(d, s);
    DecideEffect(d, s.id, s.decision);
  }

  /** "Row nonces are consumed nonces" survives a step exactly when the step is not a resubmission with an unconsumed nonce. */
  lemma {:induction false} NoncesCoveredAfter(d: Doc, s: Step)
    requires Sound(d) && NoncesCovered(d)
    ensures NoncesCovered(Next(d, s)) <==> !LeavesNonceBehind(d, s)
  {
    if LeavesNonceBehind(d, s) {
      LeftNonces(d, s);
    } else {
      forall nonce | OnRows(Next(d, s), nonce) ensures nonce in Next(d, s).consumed {
        NoncesAfter(d, s, nonce);
        ConsumedGrowsOnce(d, s);
        if Puts(d, s, nonce) {
          PutNonces(d, s, nonce);
        }
      }
    }
  }

  /* ---- Nonces left behind, over runs ---- */

  /** Step `j` left this nonce on a row without consuming it. */
  ghost predicate LeftAt(run: Run, j: nat, nonce: string)
    requires |run.docs| == |run.steps| + 1
  {
    j < |run.steps| && LeavesNonceBehind(run.docs[j], run.steps[j]) && run.steps[j].decision.nonce == Some(nonce)
  }

  /** One stride of a run, seen from one nonce. */
  lemma {:induction false} NonceStride(run: Run, k: nat, nonce: string)
    requires IsRun(run) && k < |run.steps|
    ensures OnRows(run.docs[k], nonce) ==> OnRows(run.docs[k + 1], nonce)
    ensures OnRows(run.docs[k + 1], nonce) ==> OnRows(run.docs[k], nonce) || nonce in run.docs[k + 1].consumed || LeftAt(run, k, nonce)
    ensures LeftAt(run, k, nonce) ==> OnRows(run.docs[k + 1], nonce) && nonce !in run.docs[k + 1].consumed
  {
    var d, s := run.docs[k], run.steps[k];
    ReachedIsSound(run, k);
    assert Follows(run, k);
    NoncesAfter(d, s, nonce);
    if Puts(d, s, nonce) {
      PutNonces(d, s, nonce);
    }
    if LeavesNonceBehind(d, s) {
      LeftNonces(d, s);
    }
  }

  lemma {:induction false} OnRowsStays(run: Run, j: nat, k: nat, nonce: string)
    requires IsRun(run) && j <= k <= |run.steps| && OnRows(run.docs[j], nonce)
    ensures OnRows(run.docs[k], nonce)
  {
    if j < k {
      OnRowsStays(run, j, k - 1, nonce);
      NonceStride(run, k - 1, nonce);
    }
  }

  lemma {:induction false} LeftStays(run: Run, j: nat, k: nat, nonce: string)
    requires IsRun(run) && j < k <= |run.steps| && LeftAt(run, j, nonce)
    ensures OnRows(run.docs[k], nonce) && nonce !in run.docs[j + 1].consumed
  {
    NonceStride(run, j, nonce);
    OnRowsStays(run, j + 1, k, nonce);
  }

  /** Every nonce on a row was consumed, or left behind by an earlier resubmission. */
  lemma {:induction false} WhereNoncesCameFrom(run: Run, k: nat, nonce: string)
    requires IsRun(run) && k <= |run.steps| && OnRows(run.docs[k], nonce)
    ensures nonce in run.docs[k].consumed || exists j :: 0 <= j < k && LeftAt(run, j, nonce)
  {
    if k > 0 {
      NonceStride(run, k - 1, nonce);
      if OnRows(run.docs[k - 1], nonce) {
        WhereNoncesCameFrom(run, k - 1, nonce);
        if nonce in run.docs[k - 1].consumed {
          NonceStaysSpent(run, k - 1, k, nonce);
        }
      }
    }
  }

  /** At any moment of any run, row nonces are consumed nonces exactly when every nonce left behind so far has been consumed by now. */
  lemma {:induction false} NoncesCoveredIff(run: Run, k: nat)
    requires IsRun(run) && k <= |run.steps|
    ensures NoncesCovered(run.docs[k]) <==>
            forall j, nonce :: 0 <= j < k && LeftAt(run, j, nonce) ==> nonce in run.docs[k].consumed
  {
    if NoncesCovered(run.docs[k]) {
      forall j, nonce | 0 <= j < k && LeftAt(run, j, nonce) ensures nonce in run.docs[k].consumed {
        LeftStays(run, j, k, nonce);
      }
    } else {
      var nonce :| OnRows(run.docs[k], nonce) && nonce !in run.docs[k].consumed;
      WhereNoncesCameFrom(run, k, nonce);
    }
  }

  /** Row nonces are consumed nonces throughout a run exactly when no step of it leaves one behind. */
  lemma {:induction false} NoncesCoveredThroughout(run: Run)
    requires IsRun(run)
    ensures (forall k :: 0 <= k <= |run.steps| ==> NoncesCovered(run.docs[k])) <==>
            (forall k :: 0 <= k < |run.steps| ==> !LeavesNonceBehind(run.docs[k], run.steps[k]))
  {
    if k :| 0 <= k < |run.steps| && LeavesNonceBehind(run.docs[k], run.steps[k]) {
      var nonce := run.steps[k].decision.nonce.value;
      assert LeftAt(run, k, nonce);
      LeftStays(run, k, k + 1, nonce);
      assert !NoncesCovered(run.docs[k + 1]);
    } else {
      forall k | 0 <= k <= |run.steps| ensures NoncesCovered(run.docs[k]) {
        NoncesCoveredIff(run, k);
      }
    }
  }

  /* ---- Such runs exist ---- */

  /** What a resubmission meets: the row its first submission produced. */
  ghost predicate AppliedBefore(d: Doc, d': Doc, id: string, decision: Transitions.Decision) {
    var k := FindById(d.rows, id);
    && k < |d.rows| == |d'.rows| && FindById(d'.rows, id) == k && RowInvariant(d.rows[k])
    && Transitions.Decide(d.rows[k], decision, d.consumed).reply.Applied?
    && d'.rows[k] == Transitions.Decide(d.rows[k], decision, d.consumed).row
    && decision.nonce.Some? && d'.consumed == d.consumed + [decision.nonce.value]
  }

  lemma {:induction false} RowAfterApplied(d: Doc, id: string, decision: Transitions.Decision)
    requires Sound(d) && DecideReply(d, id, decision).Applied?
    ensures AppliedBefore(d, DecideDoc(d, id, decision), id, decision)
  {
    var k, d' := FindById(d.rows, id), DecideDoc(d, id, decision);
    DecisionOnRow(d.rows[k], decision, d.consumed);
    Transitions.DecideNonces(d.rows[k], decision, d.consumed);
    DecideSteps(d, id, decision);
    SameRowFound(d'.rows, id, k);
  }

  /** The same decision, aimed at version `v`, under another nonce. */
  function Again(decision: Transitions.Decision, v: int, nonce: string): (r: Transitions.Decision) {
    decision.(nonce := Some(nonce), expectedVersion := Some(v))
  }

  lemma {:induction false} AgainLeavesNonceBehind(d: Doc, d': Doc, id: string, decision: Transitions.Decision, v: int, second: string)
    requires AppliedBefore(d, d', id, decision) && second !in d.consumed && decision.nonce != Some(second)
    requires d.rows[FindById(d.rows, id)].version == v
    ensures LeavesNonceBehind(d', Decide(id, Again(decision, v + 1, second)))
  {
    var r := d.rows[FindById(d.rows, id)];
    var again := Again(decision, v + 1, second);
    Transitions.DecideAppliesIff(r, decision, d.consumed);
    Transitions.ResubmissionIsRecognised(r, decision, d.consumed, again, d'.consumed);
    Transitions.AlreadyAppliedIff(d'.rows[FindById(d'.rows, id)], again, d'.consumed);
  }

  /** After any applied decision such a resubmission exists: the same decision, at the version it produced, under a second nonce. */
  lemma {:induction false} ResubmissionLeavesNonceBehind(d: Doc, id: string, decision: Transitions.Decision, second: string)
    requires Sound(d) && DecideReply(d, id, decision).Applied?
    requires second !in d.consumed && decision.nonce != Some(second)
    ensures var v := d.rows[FindById(d.rows, id)].version + 1;
            LeavesNonceBehind(DecideDoc(d, id, decision), Decide(id, Again(decision, v, second)))
  {
    RowAfterApplied(d, id, decision);
    AgainLeavesNonceBehind(d, DecideDoc(d, id, decision), id, decision, d.rows[FindById(d.rows, id)].version, second);
  }

  /** A heartbeat that reports one tool missing. */
  function Reporting(lane: string, secret: string, tool: string): (b: Beat) {
    Beat(lane, secret, Some(Vocabulary.JList([Vocabulary.JString(tool)])), None, None, "", "", "")
  }

  /** A lane enrolls and reports a tool missing, and an operator decides twice, the second time under another nonce. */
  function TwiceDecided(lane: string, token: string, secret: string, tool: string,
                        decision: Transitions.Decision, second: string): (steps: seq<Step>) {
    [AddToken(token), Enroll(lane, token, secret), Heartbeat(Reporting(lane, secret, tool)),
     Decide(NextId([]), decision), Decide(NextId([]), Again(decision, 2, second))]
  }

  lemma {:induction false} OneToolRecorded(lane: string, profile: Option<string>, tool: string)
    requires tool in Vocabulary.VOCABULARY && Vocabulary.KnownProfile(profile)
    ensures RecordGap([], lane, Vocabulary.JList([Vocabulary.JString(tool)]), profile, "").rows
         == [NewRow(lane, tool, profile, "", NextId([]))]
  {
    var tools := [tool];
    assert tools[..0] == [];
    assert Vocabulary.FirstOccurrences(tools) == [] + tools;
    assert Vocabulary.Names([Vocabulary.JString(tool)]) == tools;
    assert RecordTools([], lane, profile, tools, "") == RecordTool([], lane, profile, tool, "");
  }

  /** The first report of a fresh hub opens the first row. */
  lemma {:induction false} FirstReport(d: Doc, lane: string, secret: string, tool: string)
    requires d == Doc([], [NewRunner(lane, secret)], [], []) && secret != "" && tool in Vocabulary.VOCABULARY
    ensures var d' := HeartbeatDoc(d, Reporting(lane, secret, tool));
            d'.rows == [NewRow(lane, tool, None, "", NextId([]))] && d'.consumed == []
  {
    OneToolRecorded(lane, None, tool);
  }

  lemma {:induction false} FirstEnrollment(lane: string, token: string, secret: string)
    requires token != ""
    ensures EnrollDoc(AddTokenDoc(INITIAL, token), lane, token, secret) == Doc([], [NewRunner(lane, secret)], [], [])
  {
    assert FindToken([token], token) == 0;
  }

  lemma {:induction false} FirstRow(run: Run, lane: string, token: string, secret: string, tool: string)
    requires IsRun(run) && |run.steps| >= 3 && token != "" && secret != "" && tool in Vocabulary.VOCABULARY
    requires run.steps[..3] == [AddToken(token), Enroll(lane, token, secret), Heartbeat(Reporting(lane, secret, tool))]
    ensures run.docs[3].rows == [NewRow(lane, tool, None, "", NextId([]))] && run.docs[3].consumed == []
  {
    assert run.steps[0] == run.steps[..3][0] && run.steps[1] == run.steps[..3][1] && run.steps[2] == run.steps[..3][2];
    assert Follows(run, 0) && Follows(run, 1) && Follows(run, 2);
    FirstEnrollment(lane, token, secret);
    FirstReport(run.docs[2], lane, secret, tool);
  }

  lemma {:induction false} AppliedInRun(run: Run, k: nat, id: string, decision: Transitions.Decision)
    requires IsRun(run) && k < |run.steps| && run.steps[k] == Decide(id, decision) && DecideReply(run.docs[k], id, decision).Applied?
    ensures AppliedBefore(run.docs[k], run.docs[k + 1], id, decision)
  {
    ReachedIsSound(run, k);
    assert Follows(run, k);
    RowAfterApplied(run.docs[k], id, decision);
  }

  lemma {:induction false} RepeatedInRun(run: Run, k: nat, id: string, decision: Transitions.Decision, v: int, second: string)
    requires IsRun(run) && k + 1 < |run.steps| && run.steps[k + 1] == Decide(id, Again(decision, v + 1, second))
    requires AppliedBefore(run.docs[k], run.docs[k + 1], id, decision)
    requires run.docs[k].rows[FindById(run.docs[k].rows, id)].version == v
    requires second !in run.docs[k].consumed && decision.nonce != Some(second)
    ensures !NoncesCovered(run.docs[k + 2])
  {
    AgainLeavesNonceBehind(run.docs[k], run.docs[k + 1], id, decision, v, second);
    assert LeftAt(run, k + 1, second);
    NonceStride(run, k + 1, second);
  }

  /** A decision that is complete on its face, for a row at version 1. */
  predicate Complete(decision: Transitions.Decision) {
    && Transitions.MayDecide(decision) && decision.expectedVersion == Some(1)
    && Truthy(decision.actor) && Truthy(decision.principal) && Truthy(decision.nonce)
    && !Transitions.TooLong(decision.note) && (decision.approve || Truthy(decision.note))
  }

  lemma {:induction false} FirstDecision(d: Doc, id: string, decision: Transitions.Decision, lane: string, tool: string)
    requires Sound(d) && d.rows == [NewRow(lane, tool, None, "", id)] && d.consumed == [] && Complete(decision)
    ensures FindById(d.rows, id) == 0 && d.rows[0].version == 1 && DecideReply(d, id, decision).Applied?
  {
    assert d.rows[0].id == id;
    Transitions.DecideAppliesIff(d.rows[0], decision, d.consumed);
  }

  lemma {:induction false} DecidedTwice(run: Run, k: nat, id: string, decision: Transitions.Decision, second: string, lane: string, tool: string)
    requires IsRun(run) && k + 1 < |run.steps| && run.steps[k] == Decide(id, decision) && run.steps[k + 1] == Decide(id, Again(decision, 2, second))
    requires run.docs[k].rows == [NewRow(lane, tool, None, "", id)] && run.docs[k].consumed == []
    requires Complete(decision) && decision.nonce != Some(second)
    ensures !NoncesCovered(run.docs[k + 2])
  {
    ReachedIsSound(run, k);
    FirstDecision(run.docs[k], id, decision, lane, tool);
    AppliedInRun(run, k, id, decision);
    RepeatedInRun(run, k, id, decision, 1, second);
  }

  /** For every lane, tool and complete decision there is a run that ends with a nonce on a row that nobody consumed. */
  lemma {:induction false} TwiceDecidedLeavesNonceBehind(lane: string, token: string, secret: string, tool: string,
                                                         decision: Transitions.Decision, second: string)
    requires token != "" && secret != "" && tool in Vocabulary.VOCABULARY
    requires Complete(decision) && decision.nonce != Some(second)
    ensures var run := RunOf(TwiceDecided(lane, token, secret, tool, decision, second));
            IsRun(run) && !NoncesCovered(run.docs[|run.steps|])
  {
    var steps := TwiceDecided(lane, token, secret, tool, decision, second);
    var run := RunOf(steps);
    EveryStepsRun(steps);
    FirstRow(run, lane, token, secret, tool);
    DecidedTwice(run, 3, NextId([]), decision, second, lane, tool);
  }

  /** ... and such runs exist. */
  lemma {:induction false} SomeRunLeavesNonceBehind()
    ensures exists steps :: IsRun(RunOf(steps)) && !NoncesCovered(RunOf(steps).docs[|steps|])
  {
    var decision := Transitions.Decision(true, Some("operator"), Some(Transitions.DECIDE_SCOPE), None,
                                         Some("ann"), Some("ann"), Some("n1"), Some(1), None, "");
    var tool := Vocabulary.VOCABULARY[0];
    TwiceDecidedLeavesNonceBehind("lane", "token", "secret", tool, decision, "n2");
    var steps := TwiceDecided("lane", "token", "secret", tool, decision, "n2");
    assert IsRun(RunOf(steps));
  }
}
