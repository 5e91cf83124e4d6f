/**
 The registry object: tokens, runners, rows and consumed nonces, updated field by
 field. Each method is proved to take exactly the atomic step `Hub.Next` describes.
 */
module RegistryObject {
  import opened Common
  import opened Requests
  import opened Vocabulary
  import opened Store
  import opened Hub
  import Transitions
  import Evidence

  /** In how many of the first `n` positions two row lists differ in state. */
  ghost function StateChanges(rows: seq<Row>, rows': seq<Row>, n: nat): (k: nat)
    requires n <= |rows| == |rows'|
  {
    if n == 0 then 0
    else StateChanges(rows, rows', n - 1) + if rows'[n - 1].state != rows[n - 1].state then 1 else 0
  }

  /** The first `i` of `rows` are rewritten to `target`, `changed` of them with another state; the rest is as `before`. */
  ghost predicate Rewritten(before: seq<Row>, target: seq<Row>, rows: seq<Row>, i: nat, changed: nat) {
    && i <= |before| == |target| == |rows|
    && (forall j :: 0 <= j < i ==> rows[j] == target[j])
    && (forall j :: i <= j < |rows| ==> rows[j] == before[j])
    && changed == StateChanges(before, target, i)
  }

  lemma {:induction false} RewrittenNext(before: seq<Row>, target: seq<Row>, rows: seq<Row>, i: nat, changed: nat)
    requires Rewritten(before, target, rows, i, changed) && i < |rows|
    ensures rows[i] == before[i]
    ensures Rewritten(before, target, rows[i := target[i]], i + 1, changed + if target[i].state != before[i].state then 1 else 0)
  {
  }

  lemma {:induction false} RewrittenAll(before: seq<Row>, target: seq<Row>, rows: seq<Row>, changed: nat)
    requires Rewritten(before, target, rows, |rows|, changed)
    ensures rows == target && changed == StateChanges(before, rows, |rows|)
  {
  }

  class Registry {
    var tokens: seq<string>
    var runners: seq<Runner>
    var rows: seq<Row>
    var consumed: seq<string>

    ghost function Data(): (d: Doc)
      reads this
    {
      Doc(tokens, runners, rows, consumed)
    }

    constructor ()
      ensures Data() == INITIAL
    {
      tokens, runners, rows, consumed := [], [], [], [];
    }

    /* ---- Enrollment ---- */

    method AddEnrollmentToken(token: string)
      modifies this
      ensures Data() == Next(old(Data()), AddToken(token))
    {
      if token !in tokens {
        tokens := tokens + [token];
      }
    }

    method LocateRunner(name: string) returns (k: nat)
      ensures k == FindRunner(runners, name)
    {
      k := 0;
      while k < |runners|
        invariant k <= |runners|
        invariant forall j :: 0 <= j < k ==> runners[j].name != name
      {
        if runners[k].name == name {
          return;
        }
        k := k + 1;
      }
    }

    /** Verify and consume a one-time token. */
    method ConsumeEnrollmentToken(presented: string) returns (ok: bool)
      modifies this`tokens
      ensures ok <==> presented != "" && presented in old(tokens)
      ensures var t := FindToken(old(tokens), presented);
              tokens == if ok then old(tokens)[..t] + old(tokens)[t + 1..] else old(tokens)
    {
      var i := 0;
      while i < |tokens|
        invariant i <= |tokens| && tokens == old(tokens)
        invariant forall j :: 0 <= j < i ==> presented == "" || tokens[j] != presented
      {
        if presented != "" && tokens[i] == presented {
          tokens := tokens[..i] + tokens[i + 1..];
          return true;
        }
        i := i + 1;
      }
      return false;
    }

    /** The name is checked before the token is consumed, so a refused duplicate spends nothing. */
    method DoEnroll(name: string, presented: string, secret: string) returns (ok: bool)
      modifies this
      ensures Data() == Next(old(Data()), Enroll(name, presented, secret))
      ensures ok <==> |runners| == |old(runners)| + 1
    {
      var k := LocateRunner(name);
      ok := false;
      if k == |runners| {
        ok := ConsumeEnrollmentToken(presented);
        if ok {
          runners := runners + [NewRunner(name, secret)];
        }
      }
    }

    method VerifyHeartbeatToken(name: string, presented: string) returns (ok: bool)
      ensures ok <==> Verifies(runners, name, presented)
    {
      var k := LocateRunner(name);
      ok := k < |runners| && runners[k].enrolled && presented != "" && runners[k].secret == Some(presented);
    }

    method DoRevoke(name: string, presented: string) returns (ok: bool)
      modifies this
      ensures Data() == Next(old(Data()), Revoke(name, presented))
      ensures ok <==> old(Verifies(runners, name, presented))
    {
      ok := VerifyHeartbeatToken(name, presented);
      if ok {
        var k := LocateRunner(name);
        runners := runners[k := runners[k].(enrolled := false)];
        runners := runners[k := runners[k].(secret := None)];
      }
    }

    method SetLaneProfile(name: string, profile: Option<string>, imageRef: Option<string>, imageDigest: Option<string>)
      returns (ok: bool)
      modifies this
      ensures Data() == Next(old(Data()), SetProfile(name, profile, imageRef, imageDigest))
      ensures ok <==> KnownProfile(profile) && exists i :: 0 <= i < |runners| && runners[i].name == name
    {
      var k := LocateRunner(name);
      ok := k < |runners| && KnownProfile(profile);
      if ok {
        runners := runners[k := runners[k].(profile := profile)];
        if imageRef.Some? {
          runners := runners[k := runners[k].(imageRef := imageRef)];
        }
        if imageDigest.Some? {
          runners := runners[k := runners[k].(digest := imageDigest)];
        }
        assert runners[k].name == name;
      }
    }

    /* ---- Decisions and build reports ---- */

    method LocateRow(id: string) returns (k: nat)
      ensures k == FindById(rows, id)
    {
      k := 0;
      while k < |rows|
        invariant k <= |rows|
        invariant forall j :: 0 <= j < k ==> rows[j].id != id
      {
        if rows[k].id == id {
          return;
        }
        k := k + 1;
      }
    }

    method DecideRequest(id: string, decision: Transitions.Decision) returns (reply: Transitions.Reply)
      modifies this
      ensures reply == DecideReply(old(Data()), id, decision)
      ensures Data() == Next(old(Data()), Decide(id, decision))
    {
      ghost var d := Data();
      var k := LocateRow(id);
      if k == |rows| {
        return Transitions.NotFound;
      }
      var o := Transitions.Decide(rows[k], decision, consumed);
      reply := o.reply;
      rows := rows[k := o.row];
      if reply.Applied? && decision.nonce.Some? && decision.nonce.value !in consumed {
        consumed := consumed + [decision.nonce.value];
      }
      if (reply.Applied? || reply.AlreadyApplied?) && decision.nonce.Some? && decision.nonce.value !in rows[k].nonces {
        rows := rows[k := rows[k].(nonces := rows[k].nonces + [decision.nonce.value])];
      }
      assert rows == d.rows[k := DecidedRow(o, decision.nonce)];
      assert Data() == DecideDoc(d, id, decision);
    }

    method ReportBuild(id: string, build: Evidence.BuildReport) returns (reply: Transitions.Reply)
      modifies this
      ensures reply == ReportReply(old(Data()), id, build)
      ensures Data() == Next(old(Data()), Report(id, build))
    {
      var k := LocateRow(id);
      if build.credentialClass.None? {
        reply := Transitions.Unauthenticated;
        assert k < |rows| ==> rows[k := rows[k]] == rows;
      } else if k == |rows| {
        reply := Transitions.NotFound;
      } else {
        var o := Evidence.ReportBuild(rows[k], build);
        reply := o.reply;
        rows := rows[k := o.row];
      }
    }

    /* ---- Heartbeats ---- */

    method LocateRequest(lane: string, tool: string) returns (k: nat)
      ensures k == FindRequest(rows, lane, tool)
    {
      k := 0;
      while k < |rows|
        invariant k <= |rows|
        invariant forall j :: 0 <= j < k ==> !(rows[j].lane == lane && rows[j].tool == tool)
      {
        if rows[k].lane == lane && rows[k].tool == tool {
          return;
        }
        k := k + 1;
      }
    }

    /** One reported tool: seen again, or opened under a new id. */
    method RecordReportedTool(lane: string, tool: string, profile: Option<string>, now: string)
      modifies this`rows
      ensures rows == RecordTool(old(rows), lane, profile, tool, now)
    {
      var k := LocateRequest(lane, tool);
      if k < |rows| {
        rows := rows[k := rows[k].(lastSeen := now, lastReportedAt := now)];
      } else {
        var id := NextRequestId(rows);
        rows := rows + [NewRow(lane, tool, profile, now, id)];
      }
    }

    /** Record one lane's gap report; a refused one writes nothing. */
    method RecordGapReport(lane: string, submitted: Json, profile: Option<string>, now: string)
      returns (touched: nat, rejection: Option<Rejection>)
      modifies this`rows
      ensures var o := RecordGap(old(rows), lane, submitted, profile, now);
              rows == o.rows && touched == o.touched && rejection == o.rejection
    {
      var validation := ValidateMissingTools(submitted);
      if validation.Refused? {
        return 0, Some(validation.code);
      }
      if !KnownProfile(profile) {
        return 0, Some(UnknownProfile);
      }
      var distinct := Dedupe(validation.tools);
      touched := 0;
      for n := 0 to |distinct|
        invariant touched == n
        invariant rows == RecordTools(old(rows), lane, profile, distinct[..n], now)
      {
        RecordToolsNext(old(rows), lane, profile, distinct, n, now);
        RecordReportedTool(lane, distinct[n], profile, now);
        touched := touched + 1;
      }
      assert distinct[..|distinct|] == distinct;
      return touched, None;
    }

    /** Store the lane's digest; a field that is absent or malformed changes nothing. */
    method StoreLaneDigest(k: nat, digest: Option<Json>)
      requires k < |runners|
      modifies this`runners
      ensures runners == old(runners)[k := old(runners)[k].(digest := Evidence.RecordedDigest(old(runners)[k].digest, digest))]
      ensures digest == Some(JNull) ==> runners[k].digest == None
      ensures digest.Some? && digest.value.JString? && |digest.value.text| > 0 ==> runners[k].digest == Some(digest.value.text)
      ensures digest.None? || !(digest.value.JNull? || (digest.value.JString? && |digest.value.text| > 0)) ==> runners == old(runners)
    {
      if digest.Some? && digest.value.JString? && digest.value.text != "" {
        runners := runners[k := runners[k].(digest := Some(digest.value.text))];
      } else if digest == Some(JNull) {
        runners := runners[k := runners[k].(digest := None)];
      }
    }

    /** What one tick means for one row. */
    static method WeighRow(row: Row, t: Evidence.Tick) returns (row': Row)
      ensures row' == Evidence.Weigh(row, t)
    {
      row' := row;
      if row.lane == t.lane {
        if row.state == Built {
          row' := Evidence.ConvergeOrClear(row, t.recorded, t.accepted, t.probe, t.now);
        } else if row.state == Fulfilled {
          row' := Evidence.RegressIfReported(row, t.accepted, t.now);
        }
      }
    }

    /** Store the lane's digest, then weigh the tick against every row; counts the rows that changed state. */
    method NoteLaneEvidence(k: nat, digest: Option<Json>, accepted: Option<seq<string>>, probe: Option<bool>, now: string)
      returns (changed: nat)
      requires k < |runners|
      modifies this`runners, this`rows
      ensures runners == old(runners)[k := old(runners)[k].(digest := Evidence.RecordedDigest(old(runners)[k].digest, digest))]
      ensures rows == WeighAll(old(rows), Evidence.Tick(runners[k].name, runners[k].digest, accepted, probe, now))
      ensures changed == StateChanges(old(rows), rows, |rows|)
    {
      StoreLaneDigest(k, digest);
      var t := Evidence.Tick(runners[k].name, runners[k].digest, accepted, probe, now);
      changed := WeighRows(t);
    }

    /** Weigh the tick against one stored row; says whether the row changed state. */
    method WeighAt(i: nat, t: Evidence.Tick) returns (moved: bool)
      requires i < |rows|
      modifies this`rows
      ensures rows == old(rows)[i := Evidence.Weigh(old(rows)[i], t)]
      ensures moved <==> rows[i].state != old(rows)[i].state
    {
      var before := rows[i];
      var after := WeighRow(before, t);
      rows := rows[i := after];
      moved := after.state != before.state;
    }

    method WeighRows(t: Evidence.Tick) returns (changed: nat)
      modifies this`rows
      ensures rows == WeighAll(old(rows), t)
      ensures changed == StateChanges(old(rows), rows, |rows|)
    {
      changed := 0;
      ghost var target := WeighAll(rows, t);
      for i := 0 to |rows|
        invariant Rewritten(old(rows), target, rows, i, changed)
      {
        RewrittenNext(old(rows), target, rows, i, changed);
        var moved := WeighAt(i, t);
        if moved {
          changed := changed + 1;
        }
      }
      RewrittenAll(old(rows), target, rows, changed);
    }

    /** One heartbeat: the gap report first, then convergence against what this tick said. */
    method DoHeartbeat(b: Beat) returns (ok: bool, touched: nat, rejection: Option<Rejection>)
      modifies this
      ensures ok <==> old(Verifies(runners, b.runner, b.presented))
      ensures Data() == Next(old(Data()), Heartbeat(b))
      ensures ok ==> var o := GapOf(old(Data()), FindRunner(old(runners), b.runner), b);
                     touched == o.touched && rejection == o.rejection
    {
      ghost var d := Data();
      touched, rejection := 0, None;
      ok := VerifyHeartbeatToken(b.runner, b.presented);
      if !ok {
        return;
      }
      var k := LocateRunner(b.runner);
      runners := runners[k := runners[k].(lastHeartbeat := Some(b.receivedAt))];
      var accepted: Option<seq<string>> := None;
      if b.missing.Some? {
        touched, rejection := RecordGapReport(runners[k].name, b.missing.value, runners[k].profile, b.gapAt);
        if rejection.None? {
          accepted := Some(Names(b.missing.value.items));
        }
      }
      ghost var gap := GapOf(d, k, b);
      assert rows == gap.rows && accepted == gap.accepted && touched == gap.touched && rejection == gap.rejection;
      var changed := NoteLaneEvidence(k, b.digest, accepted, ProbeOutcome(b.probe), b.evidenceAt);
      HeartbeatAssembles(d, Data(), b, k, gap);
    }
  }
}
