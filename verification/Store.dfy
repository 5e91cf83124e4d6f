/** Turning a lane's gap report into stored rows: row identity and id allocation. */
module Store {
  import opened Common
  import opened Requests
  import opened Vocabulary
  import Decimal

  /* ---- Request ids ---- */

  const ID_PREFIX := "tcr-"

  /** `tcr-` and the number in at least four digits. */
  function FormatId(n: nat): (s: string) {
    ID_PREFIX + Decimal.PadZeros(Decimal.Print(n), 4)
  }

  /** The number of an id of that shape; ids of another shape have none. */
  function ParseId(ident: string): (r: Option<nat>) {
    if !StartsWith(ident, ID_PREFIX) then None
    else
      var stripped := Decimal.StripZeros(ident[|ID_PREFIX|..]);
      var digits := if stripped == "" then "0" else stripped;
      if Decimal.AllDigits(digits) then Some(Decimal.Value(digits)) else None
  }

  /** Printing and parsing are inverse on every number, also past four digits. */
  lemma {:induction false} IdRoundTrip(n: nat)
    ensures ParseId(FormatId(n)) == Some(n)
  {
    var printed := Decimal.Print(n);
    var padded := Decimal.PadZeros(printed, 4);
    assert FormatId(n)[|ID_PREFIX|..] == padded;
    Decimal.PrintValue(n);
    Decimal.PadValue(printed, 4);
    Decimal.StripValue(padded);
    assert Decimal.Value("0") == 0 by {
      assert "0"[..0] == "";
    }
  }

  /** An id has a number exactly when it is `tcr-` and digits, and the number is theirs; no digits at all is zero. */
  lemma {:induction false} ParseIdIff(ident: string)
    ensures ParseId(ident).Some? <==> |ident| >= 4 && ident[..4] == "tcr-" && Decimal.AllDigits(ident[4..])
    ensures ParseId(ident).Some? ==> ParseId(ident).value == Decimal.Value(ident[4..])
  {
    if StartsWith(ident, ID_PREFIX) {
      Decimal.StripDigits(ident[4..]);
      assert Decimal.Value("0") == 0 by {
        assert "0"[..0] == "";
      }
      if Decimal.AllDigits(ident[4..]) {
        Decimal.StripValue(ident[4..]);
      }
    }
  }

  /** An id is `tcr-` and at least four digits, more only when the number needs them. */
  lemma {:induction false} IdShape(n: nat)
    ensures FormatId(n)[..4] == "tcr-" && Decimal.AllDigits(FormatId(n)[4..])
    ensures |FormatId(n)| == 4 + if |Decimal.Print(n)| < 4 then 4 else |Decimal.Print(n)|
  {
    Decimal.PadValue(Decimal.Print(n), 4);
    Decimal.PadLength(Decimal.Print(n), 4);
    assert FormatId(n)[4..] == Decimal.PadZeros(Decimal.Print(n), 4);
  }

  function Highest(rows: seq<Row>): (h: nat) {
    if rows == [] then 0
    else
      var n := |rows| - 1;
      var h := Highest(rows[..n]);
      var p := ParseId(rows[n].id);
      if p.Some? && p.value > h then p.value else h
  }

  lemma {:induction false} HighestBounds(rows: seq<Row>, i: nat)
    requires i < |rows| && ParseId(rows[i].id).Some?
    ensures ParseId(rows[i].id).value <= Highest(rows)
  {
    var n := |rows| - 1;
    if i < n {
      HighestBounds(rows[..n], i);
    }
  }

  function NextId(rows: seq<Row>): (s: string) {
    FormatId(Highest(rows) + 1)
  }

  /** An allocated id is new, whatever rows are stored, foreign ones included. */
  lemma {:induction false} NextIdIsFresh(rows: seq<Row>, i: nat)
    requires i < |rows|
    ensures rows[i].id != NextId(rows)
  {
    IdRoundTrip(Highest(rows) + 1);
    if ParseId(rows[i].id).Some? {
      HighestBounds(rows, i);
    }
  }

  lemma {:induction false} HighestIsTaken(rows: seq<Row>)
    ensures Highest(rows) == 0 || exists i :: 0 <= i < |rows| && ParseId(rows[i].id) == Some(Highest(rows))
  {
    if rows != [] {
      var n := |rows| - 1;
      HighestIsTaken(rows[..n]);
      if Highest(rows) == Highest(rows[..n]) != 0 {
        var i :| 0 <= i < n && ParseId(rows[..n][i].id) == Some(Highest(rows));
        assert ParseId(rows[i].id) == Some(Highest(rows));
      }
    }
  }

  /** The next id is one past the highest number in use, or the first when none is. */
  lemma {:induction false} NextIdIsSuccessor(rows: seq<Row>) returns (m: nat)
    ensures NextId(rows) == FormatId(m + 1)
    ensures m == 0 || exists i :: 0 <= i < |rows| && ParseId(rows[i].id) == Some(m)
    ensures forall i :: 0 <= i < |rows| && ParseId(rows[i].id).Some? ==> ParseId(rows[i].id).value <= m
  {
    m := Highest(rows);
    HighestIsTaken(rows);
    forall i | 0 <= i < |rows| && ParseId(rows[i].id).Some? ensures ParseId(rows[i].id).value <= m {
      HighestBounds(rows, i);
    }
  }

  /** The scan for the highest number, as the hub runs it. */
  method NextRequestId(rows: seq<Row>) returns (id: string)
    ensures id == NextId(rows)
    ensures forall i :: 0 <= i < |rows| ==> rows[i].id != id
  {
    var highest: nat := 0;
    for i := 0 to |rows|
      invariant highest == Highest(rows[..i])
    {
      assert rows[..i + 1][..i] == rows[..i];
      var ident := rows[i].id;
      if StartsWith(ident, ID_PREFIX) {
        var digits := Decimal.StripZeros(ident[|ID_PREFIX|..]);
        if digits == "" {
          digits := "0";
        }
        if Decimal.AllDigits(digits) && Decimal.Value(digits) > highest {
          highest := Decimal.Value(digits);
        }
      }
    }
    assert rows[..|rows|] == rows;
    id := FormatId(highest + 1);
    forall i | 0 <= i < |rows| ensures rows[i].id != id {
      NextIdIsFresh(rows, i);
    }
  }

  /* ---- Row identity ---- */

  /** The first row of this lane and tool; `|rows|` when there is none. */
  function FindRequest(rows: seq<Row>, lane: string, tool: string): (k: nat)
    ensures k <= |rows|
    ensures k < |rows| ==> rows[k].lane == lane && rows[k].tool == tool
    ensures forall j :: 0 <= j < k ==> !(rows[j].lane == lane && rows[j].tool == tool)
  {
    IndexOf(rows, (r: Row) => r.lane == lane && r.tool == tool)
  }

  /** The first row with this id; `|rows|` when there is none. */
  function FindById(rows: seq<Row>, id: string): (k: nat)
    ensures k <= |rows|
    ensures k < |rows| ==> rows[k].id == id
    ensures forall j :: 0 <= j < k ==> rows[j].id != id
  {
    IndexOf(rows, (r: Row) => r.id == id)
  }

  ghost predicate UniqueRows(rows: seq<Row>) {
    forall i, j :: 0 <= i < j < |rows| ==>
      rows[i].id != rows[j].id && !(rows[i].lane == rows[j].lane && rows[i].tool == rows[j].tool)
  }

  /* ---- Gap reports ---- */

  /** One reported tool: an existing row is only seen again, a missing one is opened. */
  function RecordTool(rows: seq<Row>, lane: string, profile: Option<string>, tool: string, now: string): (r: seq<Row>) {
    var k := FindRequest(rows, lane, tool);
    if k < |rows| then rows[k := rows[k].(lastSeen := now, lastReportedAt := now)]
    else rows + [NewRow(lane, tool, profile, now, NextId(rows))]
  }

  function RecordTools(rows: seq<Row>, lane: string, profile: Option<string>, tools: seq<string>, now: string): (r: seq<Row>)
    decreases |tools|
  {
    if tools == [] then rows
    else
      var n := |tools| - 1;
      RecordTool(RecordTools(rows, lane, profile, tools[..n], now), lane, profile, tools[n], now)
  }

  lemma {:induction false} RecordToolsNext(rows: seq<Row>, lane: string, profile: Option<string>, tools: seq<string>, n: nat, now: string)
    requires n < |tools|
    ensures RecordTools(rows, lane, profile, tools[..n + 1], now)
         == RecordTool(RecordTools(rows, lane, profile, tools[..n], now), lane, profile, tools[n], now)
  {
    assert tools[..n + 1][..n] == tools[..n];
  }

  datatype GapOutcome = GapOutcome(rows: seq<Row>, touched: nat, rejection: Option<Rejection>, accepted: Option<seq<string>>)

  /** A whole report: refused as a whole, or every distinct tool recorded once. */
  function RecordGap(rows: seq<Row>, lane: string, submitted: Json, profile: Option<string>, now: string): (o: GapOutcome) {
    match Validate(submitted)
    case Refused(code) => GapOutcome(rows, 0, Some(code), None)
    case Accepted(tools) =>
      if !KnownProfile(profile) then GapOutcome(rows, 0, Some(UnknownProfile), None)
      else
        var distinct := FirstOccurrences(tools);
        GapOutcome(RecordTools(rows, lane, profile, distinct, now), |distinct|, None, Some(tools))
  }

  /** How a gap report treats the rows: old ones stay themselves, the lane's own are opened behind them. */
  ghost predicate GapStep(rows: seq<Row>, rows': seq<Row>, lane: string, profile: Option<string>) {
    && |rows| <= |rows'|
    && (forall i :: 0 <= i < |rows| ==> Idle(rows[i], rows'[i]) && rows'[i].nonces == rows[i].nonces)
    && (forall i :: 0 <= i < |rows| && rows[i].lane != lane ==> rows'[i] == rows[i])
    && (forall i :: |rows| <= i < |rows'| ==> Fresh(rows'[i], lane, profile))
  }

  predicate Fresh(r: Row, lane: string, profile: Option<string>) {
    r == NewRow(lane, r.tool, profile, r.observedAt, r.id).(lastSeen := r.lastSeen, lastReportedAt := r.lastReportedAt)
  }

  lemma {:induction false} FreshInvariant(r: Row, lane: string, profile: Option<string>)
    requires Fresh(r, lane, profile)
    ensures RowInvariant(r) && Decisions(r.history) == 0
  {
    NewRowInvariant(lane, r.tool, profile, r.observedAt, r.id);
  }

  ghost predicate Finds(rows: seq<Row>, lane: string, tools: seq<string>) {
    forall t :: t in tools ==> FindRequest(rows, lane, t) < |rows|
  }

  lemma {:induction false} FindsMore(mid: seq<Row>, rows: seq<Row>, lane: string, profile: Option<string>, tools: seq<string>, tool: string)
    requires GapStep(mid, rows, lane, profile) && Finds(mid, lane, tools) && FindRequest(rows, lane, tool) < |rows|
    ensures Finds(rows, lane, tools + [tool])
  {
    forall t | t in tools + [tool] ensures FindRequest(rows, lane, t) < |rows| {
      if t in tools {
        var k := FindRequest(mid, lane, t);
        assert Idle(mid[k], rows[k]);
        assert rows[k].lane == lane && rows[k].tool == t;
      }
    }
  }

  lemma {:induction false} GapStepTwice(a: seq<Row>, b: seq<Row>, c: seq<Row>, lane: string, profile: Option<string>)
    requires GapStep(a, b, lane, profile) && GapStep(b, c, lane, profile)
    requires forall i :: 0 <= i < |b| && Fresh(b[i], lane, profile) ==> Fresh(c[i], lane, profile)
    ensures GapStep(a, c, lane, profile)
  {
    forall i | 0 <= i < |a| ensures Idle(a[i], c[i]) && c[i].nonces == a[i].nonces {
      assert Idle(a[i], b[i]) && Idle(b[i], c[i]);
    }
  }

  /** Rows stay unique by (lane, tool) and by id, and every tool named has its row. */
  ghost predicate Recorded(rows: seq<Row>, rows': seq<Row>, lane: string, profile: Option<string>, tools: seq<string>) {
    GapStep(rows, rows', lane, profile) && UniqueRows(rows') && Finds(rows', lane, tools)
  }

  lemma {:induction false} RecordedTwice(a: seq<Row>, b: seq<Row>, c: seq<Row>, lane: string, profile: Option<string>,
                                         tools: seq<string>, tool: string)
    requires Recorded(a, b, lane, profile, tools) && Recorded(b, c, lane, profile, [tool])
    requires forall i :: 0 <= i < |b| && Fresh(b[i], lane, profile) ==> Fresh(c[i], lane, profile)
    ensures Recorded(a, c, lane, profile, tools + [tool])
  {
    GapStepTwice(a, b, c, lane, profile);
    FindsMore(b, c, lane, profile, tools, tool);
  }

  /** One reported tool. */
  lemma {:induction false} RecordToolSteps(rows: seq<Row>, lane: string, profile: Option<string>, tool: string, now: string)
    requires UniqueRows(rows)
    ensures var rows' := RecordTool(rows, lane, profile, tool, now);
            && Recorded(rows, rows', lane, profile, [tool])
            && forall i :: 0 <= i < |rows| && Fresh(rows[i], lane, profile) ==> Fresh(rows'[i], lane, profile)
  {
    var rows' := RecordTool(rows, lane, profile, tool, now);
    var k := FindRequest(rows, lane, tool);
    if k == |rows| {
      forall i | 0 <= i < |rows| ensures rows[i].id != NextId(rows) {
        NextIdIsFresh(rows, i);
      }
    }
    assert rows'[k].lane == lane && rows'[k].tool == tool;
  }

  /** A whole accepted report, tool by tool. */
  lemma {:induction false} RecordToolsSteps(rows: seq<Row>, lane: string, profile: Option<string>, tools: seq<string>, now: string)
    requires UniqueRows(rows)
    ensures Recorded(rows, RecordTools(rows, lane, profile, tools, now), lane, profile, tools)
    decreases |tools|
  {
    if tools == [] {
    } else {
      var n := |tools| - 1;
      var mid := RecordTools(rows, lane, profile, tools[..n], now);
      RecordToolsSteps(rows, lane, profile, tools[..n], now);
      RecordToolSteps(mid, lane, profile, tools[n], now);
      RecordedTwice(rows, mid, RecordTool(mid, lane, profile, tools[n], now), lane, profile, tools[..n], tools[n]);
      assert tools == tools[..n] + [tools[n]];
    }
  }

  /** Rows touched are counted once per distinct accepted tool, and nothing at all happens to a refused report. */
  lemma {:induction false} RecordGapSteps(rows: seq<Row>, lane: string, submitted: Json, profile: Option<string>, now: string)
    requires UniqueRows(rows)
    ensures var o := RecordGap(rows, lane, submitted, profile, now);
            && GapStep(rows, o.rows, lane, profile) && UniqueRows(o.rows)
            && (o.rejection.Some? <==> o.accepted.None?)
            && (o.rejection.Some? ==> o.rows == rows && o.touched == 0)
            && (o.accepted.Some? ==>
                  && submitted.JList? && WellNamed(submitted.items) && o.accepted.value == Names(submitted.items)
                  && o.touched == |Elements(o.accepted.value)|
                  && forall t :: t in o.accepted.value ==> FindRequest(o.rows, lane, t) < |o.rows|)
  {
    var o := RecordGap(rows, lane, submitted, profile, now);
    if o.accepted.Some? {
      var tools := o.accepted.value;
      FirstOccurrencesDistinct(tools);
      RecordToolsSteps(rows, lane, profile, FirstOccurrences(tools), now);
      forall t | t in tools ensures FindRequest(o.rows, lane, t) < |o.rows| {
        assert t in Elements(tools);
        assert t in Elements(FirstOccurrences(tools));
      }
    }
  }

  /** Which reports are refused, with which code: the list's own fault first, then the lane's profile. */
  lemma {:induction false} RecordGapRefusals(rows: seq<Row>, lane: string, submitted: Json, profile: Option<string>, now: string)
    ensures var o := RecordGap(rows, lane, submitted, profile, now);
            && (Validate(submitted).Refused? ==> o.rejection == Some(Validate(submitted).code))
            && (Validate(submitted).Accepted? && profile.Some? && profile.value !in PROFILES ==> o.rejection == Some(UnknownProfile))
            && (Validate(submitted).Accepted? && (profile.None? || profile.value in PROFILES) ==> o.rejection.None?)
  {
  }

  /* ---- What a report leaves on each row ---- */

  /** A row that was seen again. */
  function SeenAt(r: Row, now: string): (r': Row) {
    Row(r.id, r.lane, r.tool, r.requiredProfile, r.state, r.version, r.observedAt, now, now, r.actor, r.principal, r.credentialId,
        r.decidedAt, r.decisionNote, r.nonces, r.buildId, r.builderIdentity, r.digest, r.fulfilledAt, r.suppressionUntil, r.awaitingCleared,
        r.history)
  }

  /** A row as a report opens it: open, at version 1, with nothing but its opening on record. */
  function OpenedAt(id: string, lane: string, tool: string, profile: Option<string>, now: string): (r: Row) {
    Row(id, lane, tool, profile, Open, 1, now, now, now, None, None, None, None, None, [], None, None, None, None, None, None,
        [Entry(0, now, None, None, None, GapReported, None, Open, None, 1, None)])
  }

  lemma {:induction false} RecordToolRow(rows: seq<Row>, lane: string, profile: Option<string>, tool: string, now: string, i: nat)
    requires UniqueRows(rows) && i < |RecordTool(rows, lane, profile, tool, now)|
    ensures var r' := RecordTool(rows, lane, profile, tool, now)[i];
            if i >= |rows| then r' == OpenedAt(r'.id, lane, tool, profile, now)
            else if rows[i].lane == lane && rows[i].tool == tool then r' == SeenAt(rows[i], now) else r' == rows[i]
  {
    var k := FindRequest(rows, lane, tool);
    if i < |rows| && rows[i].lane == lane && rows[i].tool == tool {
      assert k == i;
    }
  }

  /** An accepted report stamps exactly the lane's rows of the tools it names, and opens one row for each tool that had none. */
  lemma {:induction false} RecordToolsRow(rows: seq<Row>, lane: string, profile: Option<string>, tools: seq<string>, now: string, i: nat)
    requires UniqueRows(rows) && i < |RecordTools(rows, lane, profile, tools, now)|
    ensures var r' := RecordTools(rows, lane, profile, tools, now)[i];
            if i >= |rows| then r'.tool in tools && r' == OpenedAt(r'.id, lane, r'.tool, profile, now)
            else if rows[i].lane == lane && rows[i].tool in tools then r' == SeenAt(rows[i], now) else r' == rows[i]
    decreases |tools|
  {
    if tools != [] {
      var n := |tools| - 1;
      var mid := RecordTools(rows, lane, profile, tools[..n], now);
      RecordToolsSteps(rows, lane, profile, tools[..n], now);
      RecordToolRow(mid, lane, profile, tools[n], now, i);
      assert tools == tools[..n] + [tools[n]];
      if i < |mid| {
        RecordToolsRow(rows, lane, profile, tools[..n], now, i);
      }
    }
  }
}
