/** What a heartbeat does, said in terms of its own fields, and what a run leaves on record of a lane's image. */
module Heartbeats {
  import opened Common
  import opened Requests
  import opened Vocabulary
  import opened Store
  import opened Hub
  import opened HubRuns
  import Evidence
  import Transitions

  /** What a verified heartbeat leaves on its runner: null clears the digest on record, a string replaces it, and nothing else touches it. */
  lemma {:induction false} HeartbeatRecords(d: Doc, b: Beat)
    ensures var d', k := HeartbeatDoc(d, b), FindRunner(d.runners, b.runner);
            if !Verifies(d.runners, b.runner, b.presented) then d' == d
            else
              && d'.tokens == d.tokens && d'.consumed == d.consumed && |d'.runners| == |d.runners|
              && (forall j :: 0 <= j < |d.runners| && j != k ==> d'.runners[j] == d.runners[j])
              && d'.runners[k] == d.runners[k].(lastHeartbeat := Some(b.receivedAt), digest := d'.runners[k].digest)
              && (b.digest == Some(JNull) ==> d'.runners[k].digest == None)
              && (b.digest.Some? && b.digest.value.JString? && |b.digest.value.text| > 0 ==> d'.runners[k].digest == Some(b.digest.value.text))
              && (Silent(b.digest) ==> d'.runners[k].digest == d.runners[k].digest)
  {
  }

  /** A digest field that says nothing: absent, or neither null nor a string with a character in it. */
  predicate Silent(field: Option<Json>) {
    field.None? || !(field.value.JNull? || (field.value.JString? && |field.value.text| > 0))
  }

  /** After the heartbeat this image is on record: it was named, or it was there and nothing was said. */
  predicate Shows(d: Doc, b: Beat, image: string) {
    var k := FindRunner(d.runners, b.runner);
    || b.digest == Some(JString(image))
    || (Silent(b.digest) && k < |d.runners| && d.runners[k].digest == Some(image))
  }

  /** A gap list that counts: at most 32 entries, all of them vocabulary words, from a lane whose profile is reviewed or not set. */
  predicate Believed(d: Doc, b: Beat) {
    var k := FindRunner(d.runners, b.runner);
    && k < |d.runners| && (d.runners[k].profile.None? || d.runners[k].profile.value in PROFILES)
    && b.missing.Some? && b.missing.value.JList? && |b.missing.value.items| <= 32
    && forall i :: 0 <= i < |b.missing.value.items| ==> b.missing.value.items[i].JString? && b.missing.value.items[i].text in VOCABULARY
  }

  /** The gap list names this tool. */
  ghost predicate Misses(b: Beat, tool: string) {
    && b.missing.Some? && b.missing.value.JList?
    && exists i :: 0 <= i < |b.missing.value.items| && b.missing.value.items[i] == JString(tool)
  }

  lemma {:induction false} TickRecorded(d: Doc, b: Beat, image: string)
    requires FindRunner(d.runners, b.runner) < |d.runners| && |image| > 0
    ensures TickOf(d, FindRunner(d.runners, b.runner), b).recorded == Some(image) <==> Shows(d, b, image)
  {
  }

  lemma {:induction false} TickAccepted(d: Doc, b: Beat, tool: string)
    requires FindRunner(d.runners, b.runner) < |d.runners|
    ensures var t := TickOf(d, FindRunner(d.runners, b.runner), b);
            && (t.accepted.Some? <==> Believed(d, b))
            && (t.accepted.Some? ==> (tool in t.accepted.value <==> Misses(b, tool)))
            && (t.probe == Some(false) <==> b.probe == Some(JBool(false)))
  {
    if Believed(d, b) {
      var items := b.missing.value.items;
      assert WellNamed(items);
      if Misses(b, tool) {
        var i :| 0 <= i < |items| && items[i] == JString(tool);
        assert Names(items)[i] == tool;
      } else {
        assert forall i :: 0 <= i < |items| ==> items[i].text != tool by {
          assert forall i :: 0 <= i < |items| ==> items[i] == JString(items[i].text);
        }
      }
    }
  }

  /** A row is fulfilled by a heartbeat exactly on this: its own lane, verified, shows its image, sends a gap list that counts without its tool, and does not call the probe incomplete. */
  lemma {:induction false} HeartbeatFulfilsIff(d: Doc, b: Beat, i: nat)
    requires Sound(d) && i < |d.rows| && d.rows[i].state != Fulfilled
    ensures |d.rows| <= |HeartbeatDoc(d, b).rows|
    ensures var r := d.rows[i];
            HeartbeatDoc(d, b).rows[i].state == Fulfilled <==>
            && Verifies(d.runners, b.runner, b.presented) && r.lane == b.runner && r.state == Built
            && r.digest.Some? && |r.digest.value| > 0 && Shows(d, b, r.digest.value)
            && Believed(d, b) && !Misses(b, r.tool) && b.probe != Some(JBool(false))
  {
    HeartbeatEffect(d, b, i);
    var k, r := FindRunner(d.runners, b.runner), d.rows[i];
    if k < |d.runners| {
      TickAccepted(d, b, r.tool);
      if r.digest.Some? && |r.digest.value| > 0 {
        TickRecorded(d, b, r.digest.value);
      }
    }
  }

  /** A fulfilled row is reopened by a heartbeat exactly when its own lane, verified, sends a gap list that counts and names its tool. */
  lemma {:induction false} HeartbeatReopensIff(d: Doc, b: Beat, i: nat)
    requires Sound(d) && i < |d.rows| && d.rows[i].state == Fulfilled
    ensures |d.rows| <= |HeartbeatDoc(d, b).rows|
    ensures var r := d.rows[i];
            HeartbeatDoc(d, b).rows[i].state == Open <==>
            Verifies(d.runners, b.runner, b.presented) && r.lane == b.runner && Believed(d, b) && Misses(b, r.tool)
  {
    HeartbeatEffect(d, b, i);
    if FindRunner(d.runners, b.runner) < |d.runners| {
      TickAccepted(d, b, d.rows[i].tool);
    }
  }

  /** A heartbeat makes a built row give up its image exactly when its own lane, verified, shows an image that is neither the awaited one nor the one it was given up for last. */
  lemma {:induction false} HeartbeatClearsIff(d: Doc, b: Beat, i: nat)
    requires Sound(d) && i < |d.rows|
    ensures |d.rows| <= |HeartbeatDoc(d, b).rows|
    ensures var r := d.rows[i];
            Cleared(r, HeartbeatDoc(d, b).rows[i]) <==>
            && Verifies(d.runners, b.runner, b.presented) && r.lane == b.runner && r.state == Built && r.digest.Some? && |r.digest.value| > 0
            && exists image :: |image| > 0 && Shows(d, b, image) && Some(image) != r.digest && Some(image) != r.awaitingCleared
  {
    HeartbeatEffect(d, b, i);
    var k := FindRunner(d.runners, b.runner);
    if k < |d.runners| {
      var recorded := TickOf(d, k, b).recorded;
      if recorded.Some? && |recorded.value| > 0 {
        TickRecorded(d, b, recorded.value);
      }
      forall image | |image| > 0 && Shows(d, b, image) ensures recorded == Some(image) {
        TickRecorded(d, b, image);
      }
    }
  }

  /** A heartbeat that says its image is gone fulfils nothing ... */
  lemma {:induction false} NullImageFulfilsNothing(d: Doc, b: Beat, i: nat)
    requires Sound(d) && i < |d.rows| && d.rows[i].state != Fulfilled && b.digest == Some(JNull)
    ensures |d.rows| <= |HeartbeatDoc(d, b).rows| && HeartbeatDoc(d, b).rows[i].state != Fulfilled
  {
    HeartbeatFulfilsIff(d, b, i);
  }

  /** ... and makes no row give up its image. */
  lemma {:induction false} NullImageClearsNothing(d: Doc, b: Beat, i: nat)
    requires Sound(d) && i < |d.rows| && b.digest == Some(JNull)
    ensures |d.rows| <= |HeartbeatDoc(d, b).rows| && !Cleared(d.rows[i], HeartbeatDoc(d, b).rows[i])
  {
    HeartbeatClearsIff(d, b, i);
  }

  /** What a verified heartbeat answers about its gap list: nothing without one, a refusal for one that does not count, and else how many different tools it names. */
  lemma {:induction false} GapAnswer(d: Doc, k: nat, b: Beat)
    requires Sound(d) && k < |d.runners| && k == FindRunner(d.runners, b.runner)
    ensures var o := GapOf(d, k, b);
            && (b.missing.None? ==> o.touched == 0 && o.rejection.None?)
            && (b.missing.Some? ==> (o.rejection.None? <==> Believed(d, b)))
            && (b.missing.Some? && !Believed(d, b) ==> o.touched == 0)
            && (Believed(d, b) ==> o.touched == |Missing(b)|)
  {
    TickAccepted(d, b, "");
    if b.missing.Some? {
      RecordGapSteps(d.rows, d.runners[k].name, b.missing.value, d.runners[k].profile, b.gapAt);
      if Believed(d, b) {
        var tools := GapOf(d, k, b).accepted.value;
        forall tool ensures tool in Elements(tools) <==> tool in Missing(b) {
          TickAccepted(d, b, tool);
        }
        assert Elements(tools) == Missing(b);
      }
    }
  }

  /** The vocabulary words a heartbeat reports missing. */
  ghost function Missing(b: Beat): (tools: set<string>) {
    set tool | tool in VOCABULARY && Misses(b, tool)
  }

  /* ---- Rows seen again and rows opened ---- */

  /** The gap list counts and names this tool. */
  ghost predicate Reported(d: Doc, b: Beat, tool: string) {
    Believed(d, b) && Misses(b, tool)
  }

  lemma {:induction false} GapRow(d: Doc, k: nat, b: Beat, i: nat)
    requires Sound(d) && k < |d.runners| && k == FindRunner(d.runners, b.runner) && i < |GapOf(d, k, b).rows|
    ensures var r' := GapOf(d, k, b).rows[i];
            if i >= |d.rows| then Reported(d, b, r'.tool) && r' == OpenedAt(r'.id, b.runner, r'.tool, d.runners[k].profile, b.gapAt)
            else if d.rows[i].lane == b.runner && Reported(d, b, d.rows[i].tool) then r' == SeenAt(d.rows[i], b.gapAt) else r' == d.rows[i]
  {
    var o := GapOf(d, k, b);
    var tool := if i < |d.rows| then d.rows[i].tool else o.rows[i].tool;
    TickAccepted(d, b, tool);
    if o.accepted.Some? {
      var tools := o.accepted.value;
      RecordToolsRow(d.rows, b.runner, d.runners[k].profile, FirstOccurrences(tools), b.gapAt, i);
      FirstOccurrencesDistinct(tools);
      assert tool in FirstOccurrences(tools) <==> tool in tools by {
        assert tool in Elements(FirstOccurrences(tools)) <==> tool in Elements(tools);
      }
    }
  }

  lemma {:induction false} WeighKeepsStamps(r: Row, t: Evidence.Tick)
    ensures var r' := Evidence.Weigh(r, t);
            r'.observedAt == r.observedAt && r'.lastSeen == r.lastSeen && r'.lastReportedAt == r.lastReportedAt && SameIdentity(r, r')
    ensures r.state == Open ==> Evidence.Weigh(r, t) == r
  {
  }

  lemma {:induction false} BeatRows(d: Doc, b: Beat)
    requires Verifies(d.runners, b.runner, b.presented)
    ensures var k := FindRunner(d.runners, b.runner); HeartbeatDoc(d, b).rows == WeighAll(GapOf(d, k, b).rows, TickOf(d, k, b))
  {
  }

  /** A heartbeat stamps exactly its own lane's rows of the tools it reports missing. */
  lemma {:induction false} HeartbeatStamps(d: Doc, b: Beat, i: nat)
    requires Sound(d) && i < |d.rows|
    ensures |d.rows| <= |HeartbeatDoc(d, b).rows|
    ensures var r, r' := d.rows[i], HeartbeatDoc(d, b).rows[i];
            var seen := Verifies(d.runners, b.runner, b.presented) && r.lane == b.runner && Reported(d, b, r.tool);
            && r'.observedAt == r.observedAt
            && r'.lastSeen == (if seen then b.gapAt else r.lastSeen)
            && r'.lastReportedAt == (if seen then b.gapAt else r.lastReportedAt)
  {
    if Verifies(d.runners, b.runner, b.presented) {
      var k := FindRunner(d.runners, b.runner);
      GapOfSteps(d, k, b);
      GapRow(d, k, b, i);
      BeatRows(d, b);
      WeighKeepsStamps(GapOf(d, k, b).rows[i], TickOf(d, k, b));
    }
  }

  /** What a heartbeat opens, whole: one row of its lane for a tool it reports missing. */
  lemma {:induction false} HeartbeatOpensRow(d: Doc, b: Beat, i: nat)
    requires Sound(d) && |d.rows| <= i < |HeartbeatDoc(d, b).rows|
    ensures Verifies(d.runners, b.runner, b.presented)
    ensures var r := HeartbeatDoc(d, b).rows[i];
            Reported(d, b, r.tool) && r == OpenedAt(r.id, b.runner, r.tool, d.runners[FindRunner(d.runners, b.runner)].profile, b.gapAt)
  {
    var k := FindRunner(d.runners, b.runner);
    BeatRows(d, b);
    GapRow(d, k, b, i);
    WeighKeepsStamps(GapOf(d, k, b).rows[i], TickOf(d, k, b));
  }

  /** Every tool a heartbeat reports missing has its lane's row afterwards. */
  lemma {:induction false} ReportedHasRow(d: Doc, b: Beat, tool: string)
    requires Sound(d) && Verifies(d.runners, b.runner, b.presented) && Reported(d, b, tool)
    ensures exists i :: 0 <= i < |HeartbeatDoc(d, b).rows| && HeartbeatDoc(d, b).rows[i].lane == b.runner && HeartbeatDoc(d, b).rows[i].tool == tool
  {
    var k := FindRunner(d.runners, b.runner);
    var o := GapOf(d, k, b);
    TickAccepted(d, b, tool);
    RecordGapSteps(d.rows, b.runner, b.missing.value, d.runners[k].profile, b.gapAt);
    var i := FindRequest(o.rows, b.runner, tool);
    BeatRows(d, b);
    WeighKeepsStamps(o.rows[i], TickOf(d, k, b));
    assert HeartbeatDoc(d, b).rows[i].lane == b.runner;
  }

  /* ---- The last word on a lane's image ---- */

  /** What a step says of a lane's image, if anything: `Some(None)` when it is gone. */
  ghost function Says(d: Doc, s: Step, name: string): (word: Option<Option<string>>) {
    if s.Heartbeat? && s.beat.runner == name && Verifies(d.runners, name, s.beat.presented) && !Silent(s.beat.digest) then
      Some(if s.beat.digest.value.JNull? then None else Some(s.beat.digest.value.text))
    else if s.SetProfile? && s.name == name && s.imageDigest.Some? && FindRunner(d.runners, name) < |d.runners|
            && (s.profile.None? || s.profile.value in PROFILES) then
      Some(s.imageDigest)
    else None
  }

  /** The last of it among the first `k` steps. */
  ghost function LastWord(run: Run, k: nat, name: string): (image: Option<string>)
    requires |run.docs| == |run.steps| + 1 && k <= |run.steps|
  {
    if k == 0 then None
    else
      var word := Says(run.docs[k - 1], run.steps[k - 1], name);
      if word.Some? then word.value else LastWord(run, k - 1, name)
  }

  /** The image on record of a lane; a name nobody enrolled has none. */
  function ImageOf(d: Doc, name: string): (image: Option<string>) {
    var k := FindRunner(d.runners, name);
    if k < |d.runners| then d.runners[k].digest else None
  }

  lemma {:induction false} BeatImage(d: Doc, b: Beat, name: string)
    ensures var word := Says(d, Heartbeat(b), name);
            ImageOf(HeartbeatDoc(d, b), name) == if word.Some? then word.value else ImageOf(d, name)
  {
    HeartbeatRecords(d, b);
    SameNames(d.runners, HeartbeatDoc(d, b).runners, name);
  }

  lemma {:induction false} EnrollImage(d: Doc, name: string, presented: string, secret: string, lane: string)
    ensures ImageOf(EnrollDoc(d, name, presented, secret), lane) == ImageOf(d, lane)
  {
    FindNewest(d.runners, NewRunner(name, secret), lane);
  }

  lemma {:induction false} RevokeImage(d: Doc, name: string, presented: string, lane: string)
    ensures ImageOf(RevokeDoc(d, name, presented), lane) == ImageOf(d, lane)
  {
    SameNames(d.runners, RevokeDoc(d, name, presented).runners, lane);
  }

  lemma {:induction false} ProfileImage(d: Doc, name: string, profile: Option<string>, imageRef: Option<string>, imageDigest: Option<string>, lane: string)
    ensures var word := Says(d, SetProfile(name, profile, imageRef, imageDigest), lane);
            ImageOf(SetProfileDoc(d, name, profile, imageRef, imageDigest), lane) == if word.Some? then word.value else ImageOf(d, lane)
  {
    SameNames(d.runners, SetProfileDoc(d, name, profile, imageRef, imageDigest).runners, lane);
  }

  lemma {:induction false} StepImage(d: Doc, s: Step, name: string)
    ensures var word := Says(d, s, name); ImageOf(Next(d, s), name) == if word.Some? then word.value else ImageOf(d, name)
  {
    match s
    case Heartbeat(beat) => BeatImage(d, beat, name);
    case Enroll(other, presented, secret) => EnrollImage(d, other, presented, secret, name);
    case Revoke(other, presented) => RevokeImage(d, other, presented, name);
    case SetProfile(other, profile, imageRef, imageDigest) => ProfileImage(d, other, profile, imageRef, imageDigest, name);
    case _ =>
  }

  /** At every moment of every run, the image on record of a lane is the last one said of it. */
  lemma {:induction false} ImageIsLastWord(run: Run, k: nat, name: string)
    requires IsRun(run) && k <= |run.steps|
    ensures ImageOf(run.docs[k], name) == LastWord(run, k, name)
  {
    if k > 0 {
      ImageIsLastWord(run, k - 1, name);
      assert Follows(run, k - 1);
      StepImage(run.docs[k - 1], run.steps[k - 1], name);
    }
  }
}
