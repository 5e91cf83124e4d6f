/** The second parser of added lines, and exactly when it agrees with the hunk-accurate one. */
module DiffAdded {
  import opened Common
  import opened UnifiedDiff
  import opened DiffHunks
  import Decimal

  datatype Addition = Addition(path: string, number: nat, text: string)

  /* ---- The added lines of the hunk-accurate parser ---- */

  function Reported(path: string, record: Record): (r: seq<Addition>) {
    if record.kind.Plus? then [Addition(path, record.number, record.text)] else []
  }

  function AddedOf(path: string, records: seq<Record>): (r: seq<Addition>) {
    if records == [] then [] else Reported(path, records[0]) + AddedOf(path, records[1..])
  }

  function AddedLines(hunks: seq<Yield>): (r: seq<Addition>) {
    if hunks == [] then [] else AddedOf(hunks[0].path, hunks[0].records) + AddedLines(hunks[1..])
  }

  /* ---- The simpler parser ---- */

  datatype Scan = Scan(path: string, lineno: nat, added: seq<Addition>)

  const BEGIN := Scan("", 0, [])

  /** The digits after the first plus sign that has any. */
  function PlusNumber(s: string): (r: Option<nat>) {
    if s == "" then None
    else if s[0] == '+' && DigitRun(s[1..]) > 0 then Some(Decimal.Value(s[1..][..DigitRun(s[1..])]))
    else PlusNumber(s[1..])
  }

  function TargetOf(raw: string): (path: string)
    requires |raw| >= 4
  {
    var target := Strip(raw[4..]);
    if target == "/dev/null" then "" else if StartsWith(target, "b/") then target[2..] else target
  }

  function Step(s: Scan, raw: string): (s': Scan) {
    if StartsWith(raw, "+++ ") then s.(path := TargetOf(raw))
    else if StartsWith(raw, "@@") then s.(lineno := if PlusNumber(raw).Some? then PlusNumber(raw).value else 0)
    else if StartsWith(raw, "+") && !StartsWith(raw, "+++") then
      s.(added := if s.path != "" then s.added + [Addition(s.path, s.lineno, raw[1..])] else s.added, lineno := s.lineno + 1)
    else if StartsWith(raw, "-") && !StartsWith(raw, "---") then s
    else if StartsWith(raw, " ") then s.(lineno := s.lineno + 1)
    else s
  }

  function Steps(s: Scan, lines: seq<string>): (s': Scan)
    decreases |lines|
  {
    if lines == [] then s else Steps(Step(s, lines[0]), lines[1..])
  }

  /** Path lines in general: the trimmed text, without its `b/` if it has one, and no path at all for `/dev/null`. */
  lemma {:induction false} StepPathLine(s: Scan, raw: string, rest: string)
    ensures Strip(raw) == "b/" + rest ==> Step(s, "+++ " + raw) == s.(path := rest)
    ensures Strip(raw) == "/dev/null" ==> Step(s, "+++ " + raw) == s.(path := "")
    ensures !StartsWith(Strip(raw), "b/") && Strip(raw) != "/dev/null" ==> Step(s, "+++ " + raw) == s.(path := Strip(raw))
  {
    var line := "+++ " + raw;
    assert line[4..] == raw && line[..4] == "+++ ";
    assert ("b/" + rest)[..2] == "b/" && ("b/" + rest)[2..] == rest && ("b/" + rest)[0] == 'b' && "/dev/null"[0] == '/';
  }

  lemma {:induction false} StepsFrom(s: Scan, lines: seq<string>, i: nat)
    requires i < |lines|
    ensures Steps(s, lines[i..]) == Steps(Step(s, lines[i]), lines[i + 1..])
  {
    assert lines[i..][0] == lines[i] && lines[i..][1..] == lines[i + 1..];
  }

  /** The parser as the gate runs it. */
  method ParseDiff(lines: seq<string>) returns (added: seq<Addition>)
    ensures added == Steps(BEGIN, lines).added
  {
    var path, lineno: nat := "", 0;
    added := [];
    for i := 0 to |lines|
      invariant Steps(Scan(path, lineno, added), lines[i..]) == Steps(BEGIN, lines)
    {
      var raw := lines[i];
      StepsFrom(Scan(path, lineno, added), lines, i);
      ghost var next := Step(Scan(path, lineno, added), raw);
      if StartsWith(raw, "+++ ") {
        path := TargetOf(raw);
      } else if StartsWith(raw, "@@") {
        var m := PlusNumber(raw);
        lineno := if m.Some? then m.value else 0;
      } else if StartsWith(raw, "+") && !StartsWith(raw, "+++") {
        if path != "" {
          added := added + [Addition(path, lineno, raw[1..])];
        }
        lineno := lineno + 1;
      } else if StartsWith(raw, "-") && !StartsWith(raw, "---") {
      } else if StartsWith(raw, " ") {
        lineno := lineno + 1;
      }
      assert Scan(path, lineno, added) == next;
    }
    assert lines[|lines|..] == [];
  }

  lemma {:induction false} StepsConcat(s: Scan, a: seq<string>, b: seq<string>)
    ensures Steps(s, a + b) == Steps(Steps(s, a), b)
    decreases |a|
  {
    if a == [] {
      assert a + b == b;
    } else {
      assert (a + b)[1..] == a[1..] + b;
      StepsConcat(Step(s, a[0]), a[1..], b);
    }
  }

  lemma {:induction false} StepsSplit(s: Scan, s': Scan, lines: seq<string>, a: seq<string>, b: seq<string>)
    requires lines == a + b && s' == Steps(s, a)
    ensures Steps(s, lines) == Steps(s', b)
  {
    StepsConcat(s, a, b);
  }

  lemma {:induction false} StepsOne(s: Scan, line: string)
    ensures Steps(s, [line]) == Step(s, line)
  {
    assert [line][1..] == [];
  }

  /* ---- Body lines ---- */

  /** An added line that the printed form makes look like a file header. */
  predicate Masked(op: Op) {
    op.Added? && StartsWith(op.text, "++")
  }

  lemma {:induction false} HeadShows(line: string)
    ensures StartsWith(line, "@@") ==> line != "" && line[0] == '@'
    ensures StartsWith(line, "+++ ") ==> StartsWith(line, "+++")
    ensures StartsWith(line, "+++") <==> line != "" && line[0] == '+' && StartsWith(line[1..], "++")
    ensures StartsWith(line, "+") <==> line != "" && line[0] == '+'
    ensures StartsWith(line, "-") <==> line != "" && line[0] == '-'
    ensures StartsWith(line, " ") <==> line != "" && line[0] == ' '
  {
    if line != "" {
      assert line[..1] == [line[0]];
    }
    if StartsWith(line, "@@") { PrefixHead(line, "@@"); }
    if |line| >= 4 { assert line[..4][..3] == line[..3]; assert "+++ "[..3] == "+++"; }
    if |line| >= 3 {
      assert line[..3] == [line[0]] + line[1..][..2];
      assert "+++" == ['+'] + "++";
      if line[..3] == "+++" { assert line[..3][0] == '+' && line[..3][1..] == "++" && line[..3][1..] == line[1..][..2]; }
    }
  }

  function AddedPart(path: string, op: Op, newNo: nat): (r: seq<Addition>) {
    if op.Added? then [Addition(path, newNo, op.text)] else []
  }

  function Additions(path: string, ops: seq<Op>, newNo: nat): (r: seq<Addition>) {
    if ops == [] then [] else AddedPart(path, ops[0], newNo) + Additions(path, ops[1..], newNo + |NewPart(ops[0])|)
  }

  lemma {:induction false} AddedOfConcat(path: string, a: seq<Record>, b: seq<Record>)
    ensures AddedOf(path, a + b) == AddedOf(path, a) + AddedOf(path, b)
    decreases |a|
  {
    if a == [] {
      assert a + b == b;
    } else {
      assert (a + b)[1..] == a[1..] + b;
      AddedOfConcat(path, a[1..], b);
      var x, y, z := Reported(path, a[0]), AddedOf(path, a[1..]), AddedOf(path, b);
      assert x + (y + z) == (x + y) + z;
    }
  }

  lemma {:induction false} AdditionOfRecord(path: string, op: Op, oldNo: nat, newNo: nat)
    ensures AddedOf(path, RecordOf(op, oldNo, newNo)) == AddedPart(path, op, newNo)
    ensures |AddedPart(path, op, newNo)| == if op.Added? then 1 else 0
  {
    var records := RecordOf(op, oldNo, newNo);
    assert records != [] ==> records[1..] == [];
  }

  /** The records of a hunk hold exactly its additions. */
  lemma {:induction false} AdditionsOfRecords(path: string, ops: seq<Op>, oldNo: nat, newNo: nat)
    ensures AddedOf(path, Records(ops, oldNo, newNo)) == Additions(path, ops, newNo)
    ensures |Additions(path, ops, newNo)| == AddedCount(ops)
    decreases |ops|
  {
    if ops == [] {
    } else {
      var o', n' := oldNo + |OldPart(ops[0])|, newNo + |NewPart(ops[0])|;
      var x, y := RecordOf(ops[0], oldNo, newNo), Records(ops[1..], o', n');
      assert Records(ops, oldNo, newNo) == x + y;
      AdditionOfRecord(path, ops[0], oldNo, newNo);
      AdditionsOfRecords(path, ops[1..], o', n');
      AddedOfConcat(path, x, y);
    }
  }

  function AddedCount(ops: seq<Op>): (n: nat) {
    if ops == [] then 0 else (if ops[0].Added? then 1 else 0) + AddedCount(ops[1..])
  }

  predicate NoneMasked(ops: seq<Op>) {
    forall i :: 0 <= i < |ops| ==> !Masked(ops[i])
  }

  lemma {:induction false} StepsCons(s: Scan, ops: seq<Op>)
    requires ops != []
    ensures Steps(s, OpLines(ops)) == Steps(Step(s, OpLine(ops[0])), OpLines(ops[1..]))
  {
    StepsOne(s, OpLine(ops[0]));
    StepsConcat(s, [OpLine(ops[0])], OpLines(ops[1..]));
  }

  /** What a scan would report after adding `more` to what it has, if it knows its path. */
  function Grown(s: Scan, more: seq<Addition>): (r: seq<Addition>) {
    if s.path != "" then s.added + more else s.added
  }

  /** The scan went from `s` to `s'` reporting `more`, as far as it knew its path. */
  predicate Grows(s: Scan, s': Scan, more: seq<Addition>) {
    s'.path == s.path && s'.added == Grown(s, more)
  }

  lemma {:induction false} GrowsTwice(s: Scan, s1: Scan, s2: Scan, x: seq<Addition>, y: seq<Addition>, full: seq<Addition>)
    requires Grows(s, s1, x) && Grows(s1, s2, y) && full == x + y
    ensures Grows(s, s2, full)
  {
  }

  lemma {:induction false} StepsGrow(s: Scan, s1: Scan, lines: seq<string>, first: seq<string>, rest: seq<string>,
                  x: seq<Addition>, y: seq<Addition>, full: seq<Addition>)
    requires lines == first + rest && s1 == Steps(s, first) && full == x + y
    requires Grows(s, s1, x) && Grows(s1, Steps(s1, rest), y)
    ensures Grows(s, Steps(s, lines), full)
  {
    GrowsTwice(s, s1, Steps(s1, rest), x, y, full);
    StepsSplit(s, s1, lines, first, rest);
  }

  /** Of `adds` lines at most that many were reported from `s` to `s'`: fewer if some are masked, or if there are any and no path is known. */
  predicate Loses(s: Scan, s': Scan, adds: nat, unmasked: bool) {
    && |s'.added| <= |s.added| + adds
    && (!unmasked || (s.path == "" && adds > 0) ==> |s'.added| < |s.added| + adds)
    && (unmasked && adds == 0 ==> s'.path == s.path)
  }

  lemma {:induction false} LosesTwice(s: Scan, s1: Scan, s2: Scan, x: nat, y: nat, u: bool, v: bool)
    requires Loses(s, s1, x, u) && Loses(s1, s2, y, v)
    ensures Loses(s, s2, x + y, u && v)
  {
  }

  /** The scan after a body line that is not masked. */
  function AfterPlain(s: Scan, op: Op): (s': Scan) {
    s.(added := Grown(s, AddedPart(s.path, op, s.lineno)), lineno := s.lineno + |NewPart(op)|)
  }

  /** One body line: a masked one adds nothing. */
  lemma {:induction false} StepOp(s: Scan, op: Op)
    ensures !Masked(op) ==> Step(s, OpLine(op)) == AfterPlain(s, op)
    ensures Masked(op) ==> Step(s, OpLine(op)).added == s.added
  {
    var line := OpLine(op);
    HeadShows(line);
    assert !op.NoNewline? ==> line[1..] == op.text;
    assert s.added + [] == s.added;
  }

  /** Without masked lines a hunk body adds exactly its additions. */
  lemma {:induction false} StepsOps(s: Scan, ops: seq<Op>)
    requires NoneMasked(ops)
    ensures Grows(s, Steps(s, OpLines(ops)), Additions(s.path, ops, s.lineno))
    decreases |ops|
  {
    if ops == [] {
    } else {
      var s1 := AfterPlain(s, ops[0]);
      var x, y := AddedPart(s.path, ops[0], s.lineno), Additions(s.path, ops[1..], s1.lineno);
      var full := Additions(s.path, ops, s.lineno);
      assert full == x + y;
      StepOp(s, ops[0]);
      StepsCons(s, ops);
      StepsOps(s1, ops[1..]);
      GrowsTwice(s, s1, Steps(s1, OpLines(ops[1..])), x, y, full);
    }
  }

  /** A hunk body never adds more than its added lines, and fewer if one is masked or the path is unknown. */
  lemma {:induction false} StepsOpsLose(s: Scan, ops: seq<Op>)
    ensures Loses(s, Steps(s, OpLines(ops)), AddedCount(ops), NoneMasked(ops))
    decreases |ops|
  {
    if ops == [] {
    } else {
      var s1 := Step(s, OpLine(ops[0]));
      StepOp(s, ops[0]);
      StepsCons(s, ops);
      StepsOpsLose(s1, ops[1..]);
      assert !Masked(ops[0]) && NoneMasked(ops[1..]) ==> NoneMasked(ops);
    }
  }

  /* ---- Hunks and scripts ---- */

  lemma {:induction false} PlusNumberSkip(prefix: string, s: string)
    requires '+' !in prefix
    ensures PlusNumber(prefix + s) == PlusNumber(s)
    decreases |prefix|
  {
    if prefix == "" {
      assert prefix + s == s;
    } else {
      assert (prefix + s)[1..] == prefix[1..] + s;
      PlusNumberSkip(prefix[1..], s);
    }
  }

  lemma {:induction false} PlusNumberHere(n: nat, tail: string)
    requires tail != "" && !Decimal.IsDigit(tail[0])
    ensures PlusNumber("+" + (Decimal.Print(n) + tail)) == Some(n)
  {
    var digits := Decimal.Print(n);
    assert ("+" + (digits + tail))[1..] == digits + tail;
    DigitRunOf(digits, tail);
    Decimal.PrintValue(n);
  }

  lemma {:induction false} HeaderNumber(oldStart: nat, oldCount: nat, newStart: nat, newCount: nat, section: string)
    ensures PlusNumber(Header(oldStart, oldCount, newStart, newCount, section)) == Some(newStart)
  {
    var tail := HeaderShape(oldStart, oldCount, newStart, newCount, section);
    var target := "+" + (Decimal.Print(newStart) + tail);
    PlusNumberHere(newStart, tail);
    var a, c := Decimal.Print(oldStart), CountSuffix(oldCount);
    PlusNumberSkip(" ", target);
    assert " +" + (Decimal.Print(newStart) + tail) == " " + target;
    PlusNumberSkip(c, " " + target);
    PlusNumberSkip(a, c + (" " + target));
    PlusNumberSkip("@@ -", a + (c + (" " + target)));
  }

  /** A header sets the line number and nothing else. */
  lemma {:induction false} StepsHunk(s: Scan, ops: seq<Op>, section: string, o: nat, n: nat)
    ensures Steps(s, HunkLines(ops, section, o, n)) == Steps(s.(lineno := Start(n, |NewSide(ops)|)), OpLines(ops))
  {
    var oc, nc := |OldSide(ops)|, |NewSide(ops)|;
    var h := Header(Start(o, oc), oc, Start(n, nc), nc, section);
    HeaderRanges(Start(o, oc), oc, Start(n, nc), nc, section);
    HeaderNumber(Start(o, oc), oc, Start(n, nc), nc, section);
    HeadShows(h);
    StepsOne(s, h);
    StepsConcat(s, [h], OpLines(ops));
  }

  predicate Unmasked(segment: Segment) {
    segment.Unchanged? || NoneMasked(segment.ops)
  }

  function SegmentAdds(segment: Segment): (n: nat) {
    if segment.Unchanged? then 0 else AddedCount(segment.ops)
  }

  predicate ScriptUnmasked(script: seq<Segment>) {
    script == [] || (Unmasked(script[0]) && ScriptUnmasked(script[1..]))
  }

  function ScriptAdds(script: seq<Segment>): (n: nat) {
    if script == [] then 0 else SegmentAdds(script[0]) + ScriptAdds(script[1..])
  }

  /** The added lines the hunk-accurate parser reports of a segment. */
  lemma {:induction false} SegmentAdditions(path: string, segment: Segment, o: nat, n: nat)
    ensures AddedLines(SegmentYields(path, segment, o, n)) ==
            if segment.Unchanged? then [] else Additions(path, segment.ops, Start(n, |NewSide(segment.ops)|))
    ensures |AddedLines(SegmentYields(path, segment, o, n))| == SegmentAdds(segment)
  {
    if segment.Hunk? {
      var records := Records(segment.ops, Start(o, |OldSide(segment.ops)|), Start(n, |NewSide(segment.ops)|));
      AdditionsOfRecords(path, segment.ops, Start(o, |OldSide(segment.ops)|), Start(n, |NewSide(segment.ops)|));
      assert AddedLines(HunkYield(path, records)) == AddedOf(path, records) by {
        if records != [] {
          assert [Yield(path, records)][1..] == [];
        }
      }
    }
  }

  lemma {:induction false} YieldsCount(path: string, script: seq<Segment>, o: nat, n: nat)
    ensures |AddedLines(ScriptYields(path, script, o, n))| == ScriptAdds(script)
    decreases |script|
  {
    if script == [] {
    } else {
      var o', n' := o + |OldPiece(script[0])|, n + |NewPiece(script[0])|;
      SegmentAdditions(path, script[0], o, n);
      AddedLinesConcat(SegmentYields(path, script[0], o, n), ScriptYields(path, script[1..], o', n'));
      YieldsCount(path, script[1..], o', n');
    }
  }

  lemma {:induction false} AddedLinesConcat(a: seq<Yield>, b: seq<Yield>)
    ensures AddedLines(a + b) == AddedLines(a) + AddedLines(b)
    decreases |a|
  {
    if a == [] {
      assert a + b == b;
    } else {
      assert (a + b)[1..] == a[1..] + b;
      AddedLinesConcat(a[1..], b);
    }
  }

  /** A segment without masked lines. */
  lemma {:induction false} SegmentGrows(s: Scan, segment: Segment, o: nat, n: nat)
    requires Unmasked(segment)
    ensures Grows(s, Steps(s, SegmentLines(segment, o, n)), AddedLines(SegmentYields(s.path, segment, o, n)))
  {
    SegmentAdditions(s.path, segment, o, n);
    if segment.Hunk? {
      StepsHunk(s, segment.ops, segment.section, o, n);
      StepsOps(s.(lineno := Start(n, |NewSide(segment.ops)|)), segment.ops);
    }
  }

  /** A segment, whatever it holds. */
  lemma {:induction false} SegmentLoses(s: Scan, segment: Segment, o: nat, n: nat)
    ensures Loses(s, Steps(s, SegmentLines(segment, o, n)), SegmentAdds(segment), Unmasked(segment))
  {
    if segment.Hunk? {
      StepsHunk(s, segment.ops, segment.section, o, n);
      StepsOpsLose(s.(lineno := Start(n, |NewSide(segment.ops)|)), segment.ops);
    }
  }

  /** The lines of a script report what the hunk-accurate parser reports of it. */
  lemma {:induction false} StepsScript(s: Scan, script: seq<Segment>, o: nat, n: nat, lines: seq<string>, full: seq<Addition>)
    requires ScriptUnmasked(script)
    requires lines == ScriptLines(script, o, n) && full == AddedLines(ScriptYields(s.path, script, o, n))
    ensures Grows(s, Steps(s, lines), full)
    decreases |script|
  {
    if script == [] {
    } else {
      var o', n' := o + |OldPiece(script[0])|, n + |NewPiece(script[0])|;
      var first, rest := SegmentLines(script[0], o, n), ScriptLines(script[1..], o', n');
      var x, y := AddedLines(SegmentYields(s.path, script[0], o, n)), AddedLines(ScriptYields(s.path, script[1..], o', n'));
      assert lines == first + rest;
      assert full == x + y by {
        AddedLinesConcat(SegmentYields(s.path, script[0], o, n), ScriptYields(s.path, script[1..], o', n'));
      }
      var s1 := Steps(s, first);
      SegmentGrows(s, script[0], o, n);
      StepsScript(s1, script[1..], o', n', rest, y);
      StepsGrow(s, s1, lines, first, rest, x, y, full);
    }
  }

  lemma {:induction false} StepsScriptLose(s: Scan, script: seq<Segment>, o: nat, n: nat, lines: seq<string>)
    requires lines == ScriptLines(script, o, n)
    ensures Loses(s, Steps(s, lines), ScriptAdds(script), ScriptUnmasked(script))
    decreases |script|
  {
    if script == [] {
    } else {
      var o', n' := o + |OldPiece(script[0])|, n + |NewPiece(script[0])|;
      var first, rest := SegmentLines(script[0], o, n), ScriptLines(script[1..], o', n');
      assert lines == first + rest;
      var s1 := Steps(s, first);
      SegmentLoses(s, script[0], o, n);
      StepsScriptLose(s1, script[1..], o', n', rest);
      StepsSplit(s, s1, lines, first, rest);
      LosesTwice(s, s1, Steps(s1, rest), SegmentAdds(script[0]), ScriptAdds(script[1..]), Unmasked(script[0]), ScriptUnmasked(script[1..]));
    }
  }

  /* ---- Files and whole diffs ---- */

  /** The path the simpler parser takes a file for; a deleted file has none, nor has one whose name is all whitespace. */
  function Target(t: Text): (path: string) {
    if t.newPath.Some? then Trimmed(t.newPath.value) else ""
  }

  /** Whether the simpler parser can follow a file: no masked line, and no line added to a file it has no path for. */
  predicate Followable(f: FileDiff) {
    f.text.Some? ==>
      ScriptUnmasked(f.text.value.script) && (Target(f.text.value) == "" ==> ScriptAdds(f.text.value.script) == 0)
  }

  lemma {:induction false} StepsMeta(s: Scan, meta: seq<string>)
    requires forall i :: 0 <= i < |meta| ==> MetaOk(meta[i])
    ensures Steps(s, meta).path == s.path && Steps(s, meta).added == s.added
    decreases |meta|
  {
    if meta != [] {
      HeadShows(meta[0]);
      StepsMeta(Step(s, meta[0]), meta[1..]);
    }
  }

  lemma {:induction false} StepsPaths(s: Scan, t: Text)
    requires PathOk(t.oldPath) && PathOk(t.newPath)
    ensures Steps(s, [OldPathLine(t.oldPath), NewPathLine(t.newPath)]) == s.(path := Target(t))
  {
    var a, b := OldPathLine(t.oldPath), NewPathLine(t.newPath);
    HeadShows(a);
    assert a[..3] == "---" && b[..4] == "+++ ";
    assert Step(s, a) == s;
    TargetRead(t.newPath);
    assert [a] + [b] == [a, b];
    StepsConcat(s, [a], [b]);
    StepsOne(s, a);
    StepsOne(s, b);
  }

  lemma {:induction false} TargetRead(path: Option<string>)
    requires PathOk(path)
    ensures TargetOf(NewPathLine(path)) == if path.Some? then Trimmed(path.value) else ""
  {
    var line := NewPathLine(path);
    var p := if path.Some? then "b/" + path.value else "/dev/null";
    assert line[4..] == p;
    if path.Some? {
      StripMarked("b/", path.value);
      assert ("b/" + Trimmed(path.value))[..2] == "b/" && ("b/" + Trimmed(path.value))[0] == 'b';
    } else {
      StripKeeps(p);
    }
  }

  lemma {:induction false} StepGitLine(s: Scan, rest: string)
    ensures Step(s, "diff --git " + rest) == s
  {
    HeadShows("diff --git " + rest);
  }

  /** What precedes the hunks of a file: the path, and nothing added. */
  lemma {:induction false} StepsFile(s: Scan, f: FileDiff)
    requires FileOk(f)
    ensures f.text.None? ==> Steps(s, FileLines(f)).added == s.added
    ensures f.text.Some? ==> var t := f.text.value;
            exists s': Scan :: s'.added == s.added && s'.path == Target(t)
                      && Steps(s, FileLines(f)) == Steps(s', ScriptLines(t.script, 0, 0))
  {
    var first := "diff --git " + f.git;
    StepGitLine(s, f.git);
    StepsOne(s, first);
    StepsConcat(s, [first], f.meta);
    StepsMeta(s, f.meta);
    var s1 := Steps(s, f.meta);
    if f.text.None? {
      assert FileLines(f) == [first] + f.meta;
    } else {
      var t := f.text.value;
      var paths := [OldPathLine(t.oldPath), NewPathLine(t.newPath)];
      StepsPaths(s1, t);
      StepsSplit(s, s1, HeadLines(f), [first] + f.meta, paths);
      StepsSplit(s, Steps(s1, paths), FileLines(f), HeadLines(f), ScriptLines(t.script, 0, 0));
    }
  }

  /** From `before` to `after` the lines `full` were to be reported: all were if `ok`, and otherwise not even as many. */
  predicate Verdict(before: seq<Addition>, after: seq<Addition>, full: seq<Addition>, ok: bool) {
    && (ok ==> after == before + full)
    && |after| <= |before| + |full|
    && (!ok ==> |after| < |before| + |full|)
  }

  lemma {:induction false} VerdictTwice(a: seq<Addition>, b: seq<Addition>, c: seq<Addition>, x: seq<Addition>, y: seq<Addition>, u: bool, v: bool)
    requires Verdict(a, b, x, u) && Verdict(b, c, y, v)
    ensures Verdict(a, c, x + y, u && v)
  {
  }

  lemma {:induction false} FileVerdict(s: Scan, f: FileDiff)
    requires FileOk(f) && !IsGitlink(f)
    ensures Verdict(s.added, Steps(s, FileLines(f)).added, AddedLines(FileYields(f)), Followable(f))
  {
    StepsFile(s, f);
    if f.text.Some? {
      var t := f.text.value;
      var s': Scan :| s'.added == s.added && s'.path == Target(t)
             && Steps(s, FileLines(f)) == Steps(s', ScriptLines(t.script, 0, 0));
      YieldsCount(PathOf(t), t.script, 0, 0);
      StepsScriptLose(s', t.script, 0, 0, ScriptLines(t.script, 0, 0));
      if Followable(f) {
        StepsScript(s', t.script, 0, 0, ScriptLines(t.script, 0, 0), AddedLines(ScriptYields(s'.path, t.script, 0, 0)));
      }
    }
  }

  predicate NoGitlinks(fs: seq<FileDiff>) {
    forall i :: 0 <= i < |fs| ==> !IsGitlink(fs[i])
  }

  predicate AllFollowable(fs: seq<FileDiff>) {
    forall i :: 0 <= i < |fs| ==> Followable(fs[i])
  }

  lemma {:induction false} AllFollowableHead(fs: seq<FileDiff>)
    requires fs != []
    ensures AllFollowable(fs) <==> Followable(fs[0]) && AllFollowable(fs[1..])
  {
    assert forall i :: 0 < i < |fs| ==> fs[i] == fs[1..][i - 1];
  }

  lemma {:induction false} JoinFiles(s: Scan, s': Scan, fs: seq<FileDiff>)
    requires fs != [] && s' == Steps(s, FileLines(fs[0]))
    ensures Steps(s, DiffLines(fs)) == Steps(s', DiffLines(fs[1..]))
  {
    StepsSplit(s, s', DiffLines(fs), FileLines(fs[0]), DiffLines(fs[1..]));
  }

  lemma {:induction false} DiffVerdict(s: Scan, fs: seq<FileDiff>)
    requires DiffOk(fs) && NoGitlinks(fs)
    ensures Verdict(s.added, Steps(s, DiffLines(fs)).added, AddedLines(DiffYields(fs)), AllFollowable(fs))
    decreases |fs|
  {
    if fs == [] {
    } else {
      var s' := Steps(s, FileLines(fs[0]));
      FileVerdict(s, fs[0]);
      DiffVerdict(s', fs[1..]);
      JoinFiles(s, s', fs);
      AddedLinesConcat(FileYields(fs[0]), DiffYields(fs[1..]));
      AllFollowableHead(fs);
      VerdictTwice(s.added, s'.added, Steps(s', DiffLines(fs[1..])).added,
        AddedLines(FileYields(fs[0])), AddedLines(DiffYields(fs[1..])), Followable(fs[0]), AllFollowable(fs[1..]));
    }
  }

  /** Without commit pointers, the simpler parser reports exactly the hunk-accurate added lines if and only if it can follow every file. */
  lemma {:induction false} ParsersAgreeIff(fs: seq<FileDiff>)
    requires DiffOk(fs) && NoGitlinks(fs)
    ensures Steps(BEGIN, DiffLines(fs)).added == AddedLines(Parse(DiffLines(fs))) <==> AllFollowable(fs)
  {
    ParseInvertsPrint(fs);
    DiffVerdict(BEGIN, fs);
  }

  lemma {:induction false} StepMasked(s: Scan, op: Op)
    requires Masked(op) && !StartsWith(op.text, "++ ")
    ensures Step(s, OpLine(op)) == s
  {
    var line := OpLine(op);
    HeadShows(line);
    assert line[1..] == op.text;
    assert |line| >= 4 ==> line[1..][..3] == line[..4][1..] && "+++ "[1..] == "++ ";
  }

  lemma {:induction false} AdditionsHead(path: string, op: Op, rest: seq<Op>, ops: seq<Op>, newNo: nat)
    requires ops == [op] + rest
    ensures Additions(path, ops, newNo) == AddedPart(path, op, newNo) + Additions(path, rest, newNo + |NewPart(op)|)
  {
    assert ops[0] == op && ops[1..] == rest;
  }

  lemma {:induction false} MaskedIsSkipped(s: Scan, op: Op, rest: seq<Op>, ops: seq<Op>)
    requires ops == [op] + rest && Masked(op) && !StartsWith(op.text, "++ ")
    ensures Steps(s, OpLines(ops)) == Steps(s, OpLines(rest))
  {
    assert ops[0] == op && ops[1..] == rest;
    StepMasked(s, op);
    StepsCons(s, ops);
  }

  /** What a masked line costs: it is not reported, and the lines below it in its hunk are numbered one too low. */
  lemma {:induction false} MaskedShiftsTheRest(s: Scan, op: Op, rest: seq<Op>, ops: seq<Op>)
    requires ops == [op] + rest && Masked(op) && !StartsWith(op.text, "++ ") && NoneMasked(rest) && s.path != ""
    ensures Steps(s, OpLines(ops)).added == s.added + Additions(s.path, rest, s.lineno)
    ensures Additions(s.path, ops, s.lineno) == [Addition(s.path, s.lineno, op.text)] + Additions(s.path, rest, s.lineno + 1)
  {
    MaskedIsSkipped(s, op, rest, ops);
    StepsOps(s, rest);
    AdditionsHead(s.path, op, rest, ops, s.lineno);
  }

  lemma {:induction false} MaskedFileDiffers(f: FileDiff, ops: seq<Op>)
    requires f == FileDiff("a/x b/x", [], Some(Text(Some("x"), Some("x"), [Hunk(ops, "")]))) && ops != [] && Masked(ops[0])
    ensures FileOk(f) && !IsGitlink(f) && !Followable(f)
  {
    assert Trimmed("x") == "x";
    assert !NoneMasked(ops);
    assert f.text.value.script[0] == Hunk(ops, "");
  }

  lemma {:induction false} OneFileDiffers(f: FileDiff)
    requires FileOk(f) && !IsGitlink(f) && !Followable(f)
    ensures DiffOk([f]) && NoGitlinks([f]) && Steps(BEGIN, DiffLines([f])).added != AddedLines(Parse(DiffLines([f])))
  {
    assert !Followable([f][0]);
    ParsersAgreeIff([f]);
  }

  /** The failing case, concretely: a line of two plus signs. */
  lemma {:induction false} MaskedLineIsLost()
    ensures var f := FileDiff("a/x b/x", [], Some(Text(Some("x"), Some("x"), [Hunk([Added("++"), Added("y")], "")])));
            DiffOk([f]) && NoGitlinks([f]) && Steps(BEGIN, DiffLines([f])).added != AddedLines(Parse(DiffLines([f])))
  {
    var ops := [Added("++"), Added("y")];
    var f := FileDiff("a/x b/x", [], Some(Text(Some("x"), Some("x"), [Hunk(ops, "")])));
    MaskedFileDiffers(f, ops);
    OneFileDiffers(f);
  }
}
