/** The hunk-accurate diff parser: (path, records) once per hunk. */
module DiffHunks {
  import opened Common
  import opened UnifiedDiff
  import Decimal

  datatype Kind = Plus | Minus | Blank

  datatype Record = Record(kind: Kind, number: nat, text: string)

  datatype Yield = Yield(path: string, records: seq<Record>)

  /** The parser's variables, and what it has yielded. */
  datatype Parser = Parser(
    path: Option<string>, oldPath: Option<string>, hunk: seq<Record>, oldNo: nat, newNo: nat,
    seenPlus: bool, gitlink: bool, out: seq<Yield>)

  const START := Parser(None, None, [], 0, 0, false, false, [])

  /* ---- Recognising lines ---- */

  /** `^(?:index \S+\.\.\S+|new file mode|deleted file mode) 160000$` */
  predicate GitlinkMeta(line: string) {
    || line == "new file mode 160000"
    || line == "deleted file mode 160000"
    || (StartsWith(line, "index ") && |line| >= 13 && line[|line| - 7..] == " 160000" && DotDot(line[6..|line| - 7]))
  }

  /** `\S+\.\.\S+` */
  predicate DotDot(s: string) {
    && (forall i :: 0 <= i < |s| ==> !IsSpace(s[i]))
    && exists k :: 1 <= k < |s| - 2 && s[k] == '.' && s[k + 1] == '.'
  }

  /** `-(\d+)(?:,\d+)? \+(\d+)` at the front of `s`. */
  function RangesAt(s: string): (r: Option<(nat, nat)>) {
    if s == "" || s[0] != '-' then None
    else
      var d := DigitRun(s[1..]);
      if d == 0 then None
      else
        var after := s[1 + d..];
        var skip := if after != "" && after[0] == ',' && DigitRun(after[1..]) > 0 then 1 + DigitRun(after[1..]) else 0;
        var rest := after[skip..];
        if !StartsWith(rest, " +") || DigitRun(rest[2..]) == 0 then None
        else Some((Decimal.Value(s[1..][..d]), Decimal.Value(rest[2..][..DigitRun(rest[2..])])))
  }

  /** The first place in the line where it matches. */
  function Ranges(s: string): (r: Option<(nat, nat)>) {
    if s == "" then None else if RangesAt(s).Some? then RangesAt(s) else Ranges(s[1..])
  }

  function OldPathOf(line: string): (p: string)
    requires |line| >= 4
  {
    var p := Strip(line[4..]);
    if StartsWith(p, "a/") then p[2..] else p
  }

  function NewPathOf(line: string): (p: string)
    requires |line| >= 4
  {
    var p := Strip(line[4..]);
    if StartsWith(p, "b/") then p[2..] else p
  }

  /* ---- One line at a time ---- */

  /** What has been yielded once the pending hunk is flushed. */
  function Flush(p: Parser): (r: seq<Yield>) {
    if p.hunk != [] && p.path.Some? && !p.gitlink then p.out + [Yield(p.path.value, p.hunk)] else p.out
  }

  function Feed(p: Parser, line: string): (p': Parser) {
    if StartsWith(line, "diff --git ") then Parser(None, None, [], p.oldNo, p.newNo, false, false, Flush(p))
    else if !p.seenPlus && !StartsWith(line, "@@") then
      if GitlinkMeta(line) then p.(gitlink := true)
      else if StartsWith(line, "--- ") then p.(oldPath := Some(OldPathOf(line)))
      else if StartsWith(line, "+++ ") then
        p.(path := if NewPathOf(line) == "/dev/null" then p.oldPath else Some(NewPathOf(line)), seenPlus := true)
      else p
    else if StartsWith(line, "@@") then
      var m := Ranges(line);
      p.(seenPlus := true, out := Flush(p), hunk := [],
         oldNo := if m.Some? then m.value.0 else 0, newNo := if m.Some? then m.value.1 else 0)
    else if StartsWith(line, "\\") then p.(seenPlus := true)
    else if StartsWith(line, "+") then
      p.(seenPlus := true, hunk := p.hunk + [Record(Plus, p.newNo, line[1..])], newNo := p.newNo + 1)
    else if StartsWith(line, "-") then
      p.(seenPlus := true, hunk := p.hunk + [Record(Minus, p.oldNo, line[1..])], oldNo := p.oldNo + 1)
    else
      p.(seenPlus := true, hunk := p.hunk + [Record(Blank, p.newNo, if line == "" then "" else line[1..])],
         oldNo := p.oldNo + 1, newNo := p.newNo + 1)
  }

  function FeedAll(p: Parser, lines: seq<string>): (p': Parser)
    decreases |lines|
  {
    if lines == [] then p else FeedAll(Feed(p, lines[0]), lines[1..])
  }

  function Parse(lines: seq<string>): (r: seq<Yield>) {
    Flush(FeedAll(START, lines))
  }

  lemma {:induction false} FeedFrom(p: Parser, lines: seq<string>, i: nat)
    requires i < |lines|
    ensures FeedAll(p, lines[i..]) == FeedAll(Feed(p, lines[i]), lines[i + 1..])
  {
    assert lines[i..][0] == lines[i] && lines[i..][1..] == lines[i + 1..];
  }

  /** The parser as the gate runs it, with its own loop variables. */
  method ParseHunks(lines: seq<string>) returns (out: seq<Yield>)
    ensures out == Parse(lines)
  {
    var path: Option<string>, oldPath: Option<string> := None, None;
    var hunk: seq<Record> := [];
    var oldNo: nat, newNo: nat := 0, 0;
    var seenPlus, gitlink := false, false;
    out := [];
    for i := 0 to |lines|
      invariant FeedAll(Parser(path, oldPath, hunk, oldNo, newNo, seenPlus, gitlink, out), lines[i..]) == FeedAll(START, lines)
    {
      var line := lines[i];
      FeedFrom(Parser(path, oldPath, hunk, oldNo, newNo, seenPlus, gitlink, out), lines, i);
      if StartsWith(line, "diff --git ") {
        if hunk != [] && path.Some? && !gitlink {
          out := out + [Yield(path.value, hunk)];
        }
        hunk, path, oldPath, seenPlus, gitlink := [], None, None, false, false;
      } else if !seenPlus && !StartsWith(line, "@@") {
        if GitlinkMeta(line) {
          gitlink := true;
        } else if StartsWith(line, "--- ") {
          oldPath := Some(OldPathOf(line));
        } else if StartsWith(line, "+++ ") {
          var newPath := NewPathOf(line);
          path := if newPath == "/dev/null" then oldPath else Some(newPath);
          seenPlus := true;
        }
      } else {
        seenPlus := true;
        if StartsWith(line, "@@") {
          if hunk != [] && path.Some? && !gitlink {
            out := out + [Yield(path.value, hunk)];
          }
          hunk := [];
          var m := Ranges(line);
          oldNo, newNo := if m.Some? then m.value.0 else 0, if m.Some? then m.value.1 else 0;
        } else if StartsWith(line, "\\") {
        } else if StartsWith(line, "+") {
          hunk := hunk + [Record(Plus, newNo, line[1..])];
          newNo := newNo + 1;
        } else if StartsWith(line, "-") {
          hunk := hunk + [Record(Minus, oldNo, line[1..])];
          oldNo := oldNo + 1;
        } else {
          hunk := hunk + [Record(Blank, newNo, if line == "" then "" else line[1..])];
          oldNo, newNo := oldNo + 1, newNo + 1;
        }
      }
    }
    assert lines[|lines|..] == [];
    if hunk != [] && path.Some? && !gitlink {
      out := out + [Yield(path.value, hunk)];
    }
  }

  /* ---- What a printed diff means ---- */

  /** The record of one body line, given the numbers of the next old and the next new line. */
  function RecordOf(op: Op, oldNo: nat, newNo: nat): (r: seq<Record>) {
    match op
    case Context(t) => [Record(Blank, newNo, t)]
    case Added(t) => [Record(Plus, newNo, t)]
    case Removed(t) => [Record(Minus, oldNo, t)]
    case NoNewline => []
  }

  function Records(ops: seq<Op>, oldNo: nat, newNo: nat): (r: seq<Record>) {
    if ops == [] then []
    else RecordOf(ops[0], oldNo, newNo) + Records(ops[1..], oldNo + |OldPart(ops[0])|, newNo + |NewPart(ops[0])|)
  }

  /** A hunk that shows no line is not reported. */
  function HunkYield(path: string, records: seq<Record>): (r: seq<Yield>) {
    if records == [] then [] else [Yield(path, records)]
  }

  function SegmentYields(path: string, segment: Segment, o: nat, n: nat): (r: seq<Yield>) {
    if segment.Unchanged? then []
    else HunkYield(path, Records(segment.ops, Start(o, |OldSide(segment.ops)|), Start(n, |NewSide(segment.ops)|)))
  }

  /** The non-empty hunks of a script, under `path`. */
  function ScriptYields(path: string, script: seq<Segment>, o: nat, n: nat): (r: seq<Yield>) {
    if script == [] then []
    else SegmentYields(path, script[0], o, n) + ScriptYields(path, script[1..], o + |OldPiece(script[0])|, n + |NewPiece(script[0])|)
  }

  /** A commit pointer, not a text file. */
  predicate IsGitlink(f: FileDiff) {
    exists i :: 0 <= i < |f.meta| && GitlinkMeta(f.meta[i])
  }

  /** The path a file is reported under: the new one, or the old one of a deleted file, without whitespace at its end. */
  function PathOf(t: Text): (p: string)
    requires t.oldPath.Some? || t.newPath.Some?
  {
    if t.newPath.Some? then Trimmed(t.newPath.value) else Trimmed(t.oldPath.value)
  }

  function FileYields(f: FileDiff): (r: seq<Yield>)
    requires FileOk(f)
  {
    if f.text.None? || IsGitlink(f) then [] else ScriptYields(PathOf(f.text.value), f.text.value.script, 0, 0)
  }

  function DiffYields(fs: seq<FileDiff>): (r: seq<Yield>)
    requires DiffOk(fs)
  {
    if fs == [] then [] else FileYields(fs[0]) + DiffYields(fs[1..])
  }

  ghost predicate NoSpace(s: string) {
    s != "" && forall i :: 0 <= i < |s| ==> !IsSpace(s[i])
  }

  lemma {:induction false} DotDotIff(s: string)
    ensures DotDot(s) <==> exists a, b :: NoSpace(a) && NoSpace(b) && s == a + ".." + b
  {
    if DotDot(s) {
      var k :| 1 <= k < |s| - 2 && s[k] == '.' && s[k + 1] == '.';
      assert NoSpace(s[..k]) && NoSpace(s[k + 2..]);
      assert s == s[..k] + ".." + s[k + 2..];
    }
    if a, b :| NoSpace(a) && NoSpace(b) && s == a + ".." + b {
      assert s[|a|] == '.' && s[|a| + 1] == '.';
    }
  }

  /** The header lines that mark a commit pointer: its mode when it is added or deleted, or two object names with that mode behind them. */
  lemma {:induction false} GitlinkMetaIff(line: string)
    ensures GitlinkMeta(line) <==>
            || line == "new file mode 160000" || line == "deleted file mode 160000"
            || exists names :: DotDot(names) && line == "index " + names + " 160000"
  {
    if StartsWith(line, "index ") && |line| >= 13 && line[|line| - 7..] == " 160000" {
      var names := line[6..|line| - 7];
      assert line == line[..6] + names + line[|line| - 7..];
    }
    if names :| DotDot(names) && line == "index " + names + " 160000" {
      assert line[..6] == "index " && line[|line| - 7..] == " 160000" && line[6..|line| - 7] == names;
    }
  }

  /* ---- Lines git does not print there ---- */

  /** Path lines in general: the trimmed text, without its `a/` or `b/` if it has one; a new path of `/dev/null` leaves the old one. */
  lemma {:induction false} FeedPathLine(p: Parser, raw: string, rest: string)
    requires !p.seenPlus
    ensures Strip(raw) == "a/" + rest ==> Feed(p, "--- " + raw) == p.(oldPath := Some(rest))
    ensures !StartsWith(Strip(raw), "a/") ==> Feed(p, "--- " + raw) == p.(oldPath := Some(Strip(raw)))
    ensures Strip(raw) == "b/" + rest && rest != "/dev/null" ==> Feed(p, "+++ " + raw) == p.(path := Some(rest), seenPlus := true)
    ensures !StartsWith(Strip(raw), "b/") && Strip(raw) != "/dev/null" ==> Feed(p, "+++ " + raw) == p.(path := Some(Strip(raw)), seenPlus := true)
    ensures Strip(raw) == "/dev/null" ==> Feed(p, "+++ " + raw) == p.(path := p.oldPath, seenPlus := true)
  {
    var a, b := "--- " + raw, "+++ " + raw;
    HeadDecides(a);
    HeadDecides(b);
    HeadNotGitlink(a);
    HeadNotGitlink(b);
    assert a[4..] == raw && b[4..] == raw && a[..4] == "--- " && b[..4] == "+++ ";
    assert ("a/" + rest)[..2] == "a/" && ("a/" + rest)[2..] == rest && ("b/" + rest)[..2] == "b/" && ("b/" + rest)[2..] == rest;
    assert "/dev/null"[0] == '/' && !StartsWith("/dev/null", "b/");
  }

  /** Any `@@` line begins a hunk, path or no path: what was pending is flushed, and numbers that do not read are zero. */
  lemma {:induction false} FeedMark(p: Parser, line: string)
    requires StartsWith(line, "@@")
    ensures var p', m := Feed(p, line), Ranges(line);
            && p'.out == Flush(p) && p'.hunk == [] && p'.seenPlus && p'.path == p.path && p'.oldPath == p.oldPath && p'.gitlink == p.gitlink
            && (m.Some? ==> p'.oldNo == m.value.0 && p'.newNo == m.value.1) && (m.None? ==> p'.oldNo == 0 && p'.newNo == 0)
  {
    HeadDecides(line);
  }

  /** Any other line inside a file that begins with neither a mark nor a file is a line of both texts, less its first character. */
  lemma {:induction false} FeedStray(p: Parser, line: string)
    requires p.seenPlus && (line == "" || line[0] !in {'+', '-', '\\', '@', 'd'})
    ensures var text := if line == "" then "" else line[1..];
            Feed(p, line) == p.(hunk := p.hunk + [Record(Blank, p.newNo, text)], oldNo := p.oldNo + 1, newNo := p.newNo + 1)
  {
    HeadDecides(line);
  }

  /* ---- Parsing inverts printing ---- */

  lemma {:induction false} FeedConcat(p: Parser, a: seq<string>, b: seq<string>)
    ensures FeedAll(p, a + b) == FeedAll(FeedAll(p, a), b)
    decreases |a|
  {
    if a == [] {
      assert a + b == b;
    } else {
      assert (a + b)[1..] == a[1..] + b;
      FeedConcat(Feed(p, a[0]), a[1..], b);
    }
  }

  lemma {:induction false} PrefixHead(s: string, prefix: string)
    requires prefix != "" && StartsWith(s, prefix)
    ensures s != "" && s[0] == prefix[0]
  {
    assert s[..|prefix|][0] == s[0];
  }

  /** The first character settles which kind of body line it is. */
  lemma {:induction false} HeadDecides(line: string)
    ensures StartsWith(line, "diff --git ") ==> line != "" && line[0] == 'd'
    ensures StartsWith(line, "@@") ==> line != "" && line[0] == '@'
    ensures StartsWith(line, "--- ") ==> line != "" && line[0] == '-'
    ensures StartsWith(line, "+++ ") ==> line != "" && line[0] == '+'
    ensures StartsWith(line, "+") <==> line != "" && line[0] == '+'
    ensures StartsWith(line, "-") <==> line != "" && line[0] == '-'
    ensures StartsWith(line, "\\") <==> line != "" && line[0] == '\\'
  {
    if line != "" {
      assert line[..1] == [line[0]];
    }
    if StartsWith(line, "diff --git ") { PrefixHead(line, "diff --git "); }
    if StartsWith(line, "@@") { PrefixHead(line, "@@"); }
    if StartsWith(line, "--- ") { PrefixHead(line, "--- "); }
    if StartsWith(line, "+++ ") { PrefixHead(line, "+++ "); }
  }

  lemma {:induction false} FeedOp(p: Parser, op: Op)
    requires p.seenPlus
    ensures Feed(p, OpLine(op)) == Appended(p, RecordOf(op, p.oldNo, p.newNo), |OldPart(op)|, |NewPart(op)|)
  {
    var line := OpLine(op);
    HeadDecides(line);
    assert !op.NoNewline? ==> line[1..] == op.text;
    assert p.hunk + [] == p.hunk;
  }

  /** `p` after `records` were appended to its hunk, which showed `oc` old and `nc` new lines. */
  function Appended(p: Parser, records: seq<Record>, oc: nat, nc: nat): (p': Parser) {
    p.(hunk := p.hunk + records, oldNo := p.oldNo + oc, newNo := p.newNo + nc)
  }

  lemma {:induction false} AppendedTwice(p: Parser, p': Parser, x: seq<Record>, o1: nat, n1: nat, y: seq<Record>, o2: nat, n2: nat,
                                         all: seq<Record>, o: nat, n: nat)
    requires p' == Appended(Appended(p, x, o1, n1), y, o2, n2) && all == x + y && o == o1 + o2 && n == n1 + n2
    ensures p' == Appended(p, all, o, n)
  {
    assert p.hunk + x + y == p.hunk + (x + y);
  }

  /** One line of a hunk, and then the others. */
  lemma {:induction false} FeedOpThen(p: Parser, op: Op, rest: seq<string>, lines: seq<string>)
    requires p.seenPlus && lines == [OpLine(op)] + rest
    ensures FeedAll(p, lines) == FeedAll(Appended(p, RecordOf(op, p.oldNo, p.newNo), |OldPart(op)|, |NewPart(op)|), rest)
  {
    FeedOp(p, op);
    FeedCons(p, Feed(p, OpLine(op)), OpLine(op), rest);
  }

  lemma {:induction false} OpsSplit(ops: seq<Op>, oldNo: nat, newNo: nat)
    requires ops != []
    ensures var oc, nc := |OldPart(ops[0])|, |NewPart(ops[0])|;
            && |OldSide(ops)| == oc + |OldSide(ops[1..])| && |NewSide(ops)| == nc + |NewSide(ops[1..])|
            && Records(ops, oldNo, newNo) == RecordOf(ops[0], oldNo, newNo) + Records(ops[1..], oldNo + oc, newNo + nc)
  {
  }

  /** The parser after the lines of a hunk, record by record. */
  function AppendedOps(p: Parser, ops: seq<Op>): (p': Parser)
    decreases |ops|
  {
    if ops == [] then p
    else AppendedOps(Appended(p, RecordOf(ops[0], p.oldNo, p.newNo), |OldPart(ops[0])|, |NewPart(ops[0])|), ops[1..])
  }

  lemma {:induction false} FeedEachOp(p: Parser, ops: seq<Op>)
    requires p.seenPlus
    ensures FeedAll(p, OpLines(ops)) == AppendedOps(p, ops)
    decreases |ops|
  {
    if ops != [] {
      FeedOpThen(p, ops[0], OpLines(ops[1..]), OpLines(ops));
      FeedEachOp(Appended(p, RecordOf(ops[0], p.oldNo, p.newNo), |OldPart(ops[0])|, |NewPart(ops[0])|), ops[1..]);
    }
  }

  lemma {:induction false} AppendedStep(p: Parser, p1: Parser, ops: seq<Op>, rest: seq<Op>, x: seq<Record>, y: seq<Record>, oc: nat, nc: nat)
    requires ops != [] && rest == ops[1..] && x == RecordOf(ops[0], p.oldNo, p.newNo) && oc == |OldPart(ops[0])| && nc == |NewPart(ops[0])|
    requires p1 == Appended(p, x, oc, nc) && y == Records(rest, p.oldNo + oc, p.newNo + nc)
    ensures Appended(p1, y, |OldSide(rest)|, |NewSide(rest)|) == Appended(p, Records(ops, p.oldNo, p.newNo), |OldSide(ops)|, |NewSide(ops)|)
  {
    OpsSplit(ops, p.oldNo, p.newNo);
    AppendedTwice(p, Appended(p1, y, |OldSide(rest)|, |NewSide(rest)|), x, oc, nc, y, |OldSide(rest)|, |NewSide(rest)|,
      Records(ops, p.oldNo, p.newNo), |OldSide(ops)|, |NewSide(ops)|);
  }

  lemma {:induction false} AppendedOnce(p: Parser, ops: seq<Op>)
    ensures AppendedOps(p, ops) == Appended(p, Records(ops, p.oldNo, p.newNo), |OldSide(ops)|, |NewSide(ops)|)
    decreases |ops|
  {
    if ops == [] {
      assert p.hunk + [] == p.hunk;
    } else {
      var oc, nc, x := |OldPart(ops[0])|, |NewPart(ops[0])|, RecordOf(ops[0], p.oldNo, p.newNo);
      var p1 := Appended(p, x, oc, nc);
      AppendedOnce(p1, ops[1..]);
      AppendedStep(p, p1, ops, ops[1..], x, Records(ops[1..], p1.oldNo, p1.newNo), oc, nc);
    }
  }

  /** The parser inside a hunk. */
  lemma {:induction false} FeedOps(p: Parser, ops: seq<Op>)
    requires p.seenPlus
    ensures FeedAll(p, OpLines(ops)) == Appended(p, Records(ops, p.oldNo, p.newNo), |OldSide(ops)|, |NewSide(ops)|)
  {
    FeedEachOp(p, ops);
    AppendedOnce(p, ops);
  }

  lemma {:induction false} FeedCons(p: Parser, p': Parser, line: string, rest: seq<string>)
    requires p' == Feed(p, line)
    ensures FeedAll(p, [line] + rest) == FeedAll(p', rest)
  {
    assert ([line] + rest)[1..] == rest;
  }

  lemma {:induction false} FeedOne(p: Parser, line: string)
    ensures FeedAll(p, [line]) == Feed(p, line)
  {
    assert [line][1..] == [];
  }

  lemma {:induction false} SuffixSkipped(count: nat, rest: string)
    requires StartsWith(rest, " +")
    ensures var after := CountSuffix(count) + rest;
            var skip := if after != "" && after[0] == ',' && DigitRun(after[1..]) > 0 then 1 + DigitRun(after[1..]) else 0;
            after[skip..] == rest && after != "" && !Decimal.IsDigit(after[0])
  {
    PrefixHead(rest, " +");
    var after := CountSuffix(count) + rest;
    if count == 1 {
      assert after == rest;
    } else {
      var digits := Decimal.Print(count);
      assert after[1..] == digits + rest;
      DigitRunOf(digits, rest);
    }
  }

  /** The pattern at its match: `a`, something skipped, then ` +` and `b`. */
  lemma {:induction false} RangesMatch(s: string, a: string, after: string, skip: nat, rest: string, b: string, tail: string)
    requires s == "-" + (a + after) && rest == " +" + (b + tail)
    requires a != "" && b != "" && Decimal.AllDigits(a) && Decimal.AllDigits(b)
    requires after != "" && !Decimal.IsDigit(after[0]) && tail != "" && !Decimal.IsDigit(tail[0])
    requires skip == if after[0] == ',' && DigitRun(after[1..]) > 0 then 1 + DigitRun(after[1..]) else 0
    requires skip <= |after| && after[skip..] == rest
    ensures RangesAt(s) == Some((Decimal.Value(a), Decimal.Value(b)))
  {
    assert s[1..] == a + after;
    DigitRunOf(a, after);
    assert s[1 + |a|..] == after;
    assert rest[2..] == b + tail && rest[..2] == " +";
    DigitRunOf(b, tail);
  }

  /** The numbers of a printed range are the ones matched. */
  lemma {:induction false} RangesRead(oldStart: nat, oldCount: nat, newStart: nat, tail: string)
    requires tail != "" && !Decimal.IsDigit(tail[0])
    ensures RangesAt("-" + (Decimal.Print(oldStart) + (CountSuffix(oldCount) + (" +" + (Decimal.Print(newStart) + tail))))) == Some((oldStart, newStart))
  {
    var a, b := Decimal.Print(oldStart), Decimal.Print(newStart);
    var rest := " +" + (b + tail);
    var after := CountSuffix(oldCount) + rest;
    assert rest[..2] == " +";
    SuffixSkipped(oldCount, rest);
    Decimal.PrintValue(oldStart);
    Decimal.PrintValue(newStart);
    RangesMatch("-" + (a + after), a, after,
      if after[0] == ',' && DigitRun(after[1..]) > 0 then 1 + DigitRun(after[1..]) else 0, rest, b, tail);
  }

  /** The search passes over anything that does not start with a minus sign. */
  lemma {:induction false} RangesSkip(c: char, s: string)
    requires c != '-'
    ensures Ranges([c] + s) == Ranges(s)
  {
    assert ([c] + s)[1..] == s;
  }

  lemma {:induction false} MarkSplit(s: string, t: string)
    requires t == "-" + s
    ensures "@@ -" + s == ['@'] + (['@'] + ([' '] + t)) && StartsWith("@@ -" + s, "@@")
  {
    assert ("@@ -" + s)[..2] == "@@";
  }

  /** The search reaches a match that follows `@@ `. */
  lemma {:induction false} RangesAfterMark(s: string)
    requires RangesAt("-" + s).Some?
    ensures Ranges("@@ -" + s) == RangesAt("-" + s) && StartsWith("@@ -" + s, "@@")
  {
    var t := "-" + s;
    MarkSplit(s, t);
    RangesSkip('@', ['@'] + ([' '] + t));
    RangesSkip('@', [' '] + t);
    RangesSkip(' ', t);
  }

  /** The numbers of a printed header are read back. */
  lemma {:induction false} HeaderRanges(oldStart: nat, oldCount: nat, newStart: nat, newCount: nat, section: string)
    ensures Ranges(Header(oldStart, oldCount, newStart, newCount, section)) == Some((oldStart, newStart))
    ensures StartsWith(Header(oldStart, oldCount, newStart, newCount, section), "@@")
  {
    var tail := HeaderShape(oldStart, oldCount, newStart, newCount, section);
    RangesRead(oldStart, oldCount, newStart, tail);
    RangesAfterMark(Decimal.Print(oldStart) + (CountSuffix(oldCount) + (" +" + (Decimal.Print(newStart) + tail))));
  }

  /** A whole hunk: what was pending is flushed and the hunk's records are pending instead. */
  lemma {:induction false} FeedHunk(p: Parser, ops: seq<Op>, section: string, o: nat, n: nat)
    requires p.seenPlus
    ensures var p' := FeedAll(p, HunkLines(ops, section, o, n));
            && p'.seenPlus && p'.path == p.path && p'.gitlink == p.gitlink
            && p'.out == Flush(p) && p'.hunk == Records(ops, Start(o, |OldSide(ops)|), Start(n, |NewSide(ops)|))
  {
    var oc, nc := |OldSide(ops)|, |NewSide(ops)|;
    var h := Header(Start(o, oc), oc, Start(n, nc), nc, section);
    HeaderRanges(Start(o, oc), oc, Start(n, nc), nc, section);
    HeadDecides(h);
    var p1 := Feed(p, h);
    FeedConcat(p, [h], OpLines(ops));
    FeedOne(p, h);
    FeedOps(p1, ops);
    assert [] + Records(ops, p1.oldNo, p1.newNo) == Records(ops, p1.oldNo, p1.newNo);
  }

  /** What is reported of a hunk sequence when its file is reported at all. */
  function Reported(p: Parser, hunks: seq<Yield>): (r: seq<Yield>) {
    if p.path.Some? && !p.gitlink then hunks else []
  }

  function ReportPath(p: Parser): (r: string) {
    if p.path.Some? then p.path.value else ""
  }

  /** From `p` to `p'` the file stays the same and `hunks` are what flushing adds. */
  predicate Emits(p: Parser, p': Parser, hunks: seq<Yield>) {
    p'.seenPlus && p'.path == p.path && p'.gitlink == p.gitlink && Flush(p') == Flush(p) + Reported(p, hunks)
  }

  lemma {:induction false} EmitsTwice(p: Parser, p1: Parser, p2: Parser, x: seq<Yield>, y: seq<Yield>, full: seq<Yield>)
    requires Emits(p, p1, x) && Emits(p1, p2, y) && full == x + y
    ensures Emits(p, p2, full)
  {
  }

  lemma {:induction false} FeedEmits(p: Parser, p1: Parser, lines: seq<string>, first: seq<string>, rest: seq<string>,
                                     x: seq<Yield>, y: seq<Yield>, full: seq<Yield>)
    requires lines == first + rest && p1 == FeedAll(p, first) && full == x + y
    requires Emits(p, p1, x) && Emits(p1, FeedAll(p1, rest), y)
    ensures Emits(p, FeedAll(p, lines), full)
  {
    EmitsTwice(p, p1, FeedAll(p1, rest), x, y, full);
    FeedConcat(p, first, rest);
  }

  lemma {:induction false} FeedSegment(p: Parser, segment: Segment, o: nat, n: nat)
    requires p.seenPlus
    ensures Emits(p, FeedAll(p, SegmentLines(segment, o, n)), SegmentYields(ReportPath(p), segment, o, n))
  {
    if segment.Hunk? {
      FeedHunk(p, segment.ops, segment.section, o, n);
    }
  }

  /** What the hunks of a script add, once everything pending is flushed. */
  lemma {:induction false} FeedScript(p: Parser, path: string, script: seq<Segment>, o: nat, n: nat, lines: seq<string>, hunks: seq<Yield>)
    requires p.seenPlus && path == ReportPath(p)
    requires lines == ScriptLines(script, o, n) && hunks == ScriptYields(path, script, o, n)
    ensures Emits(p, FeedAll(p, lines), hunks)
    decreases |script|
  {
    if script == [] {
      assert Flush(p) + [] == Flush(p);
    } else {
      var o', n' := o + |OldPiece(script[0])|, n + |NewPiece(script[0])|;
      var first, rest := SegmentLines(script[0], o, n), ScriptLines(script[1..], o', n');
      var x, y := SegmentYields(path, script[0], o, n), ScriptYields(path, script[1..], o', n');
      assert lines == first + rest;
      assert hunks == x + y;
      var p1 := FeedAll(p, first);
      FeedSegment(p, script[0], o, n);
      FeedScript(p1, path, script[1..], o', n', rest, y);
      FeedEmits(p, p1, lines, first, rest, x, y, hunks);
    }
  }

  /** Extended header lines only ever mark a gitlink. */
  lemma {:induction false} FeedMeta(p: Parser, meta: seq<string>)
    requires !p.seenPlus && forall i :: 0 <= i < |meta| ==> MetaOk(meta[i])
    ensures FeedAll(p, meta) == p.(gitlink := p.gitlink || exists i :: 0 <= i < |meta| && GitlinkMeta(meta[i]))
    decreases |meta|
  {
    if meta != [] {
      HeadDecides(meta[0]);
      FeedMeta(Feed(p, meta[0]), meta[1..]);
      assert forall i :: 0 < i < |meta| ==> meta[i] == meta[1..][i - 1];
      if exists i :: 0 <= i < |meta| && GitlinkMeta(meta[i]) {
        var i :| 0 <= i < |meta| && GitlinkMeta(meta[i]);
        if i > 0 {
          assert GitlinkMeta(meta[1..][i - 1]);
        }
      }
    }
  }

  lemma {:induction false} StripKeeps(s: string)
    requires s != "" && !IsSpace(s[0]) && !IsSpace(s[|s| - 1])
    ensures Strip(s) == s
  {
  }

  lemma {:induction false} OldPathRead(path: Option<string>)
    requires PathOk(path)
    ensures OldPathOf(OldPathLine(path)) == if path.Some? then Trimmed(path.value) else "/dev/null"
  {
    var line := OldPathLine(path);
    var p := if path.Some? then "a/" + path.value else "/dev/null";
    assert line[4..] == p;
    if path.Some? {
      StripMarked("a/", path.value);
      assert ("a/" + Trimmed(path.value))[..2] == "a/";
    } else {
      StripKeeps(p);
    }
  }

  lemma {:induction false} NewPathRead(path: Option<string>)
    requires PathOk(path)
    ensures NewPathOf(NewPathLine(path)) == if path.Some? then Trimmed(path.value) else "/dev/null"
  {
    var line := NewPathLine(path);
    var p := if path.Some? then "b/" + path.value else "/dev/null";
    assert line[4..] == p;
    if path.Some? {
      StripMarked("b/", path.value);
      assert ("b/" + Trimmed(path.value))[..2] == "b/";
    } else {
      StripKeeps(p);
    }
  }

  lemma {:induction false} HeadNotGitlink(line: string)
    requires line != "" && line[0] in "+-"
    ensures !GitlinkMeta(line)
  {
    if StartsWith(line, "index ") {
      PrefixHead(line, "index ");
    }
  }

  /** The two path lines set the path the file is reported under. */
  lemma {:induction false} FeedPaths(p: Parser, t: Text)
    requires !p.seenPlus && PathOk(t.oldPath) && PathOk(t.newPath) && (t.oldPath.Some? || t.newPath.Some?)
    ensures var p' := FeedAll(p, [OldPathLine(t.oldPath), NewPathLine(t.newPath)]);
            p'.seenPlus && p'.path == Some(PathOf(t)) && p'.gitlink == p.gitlink && p'.hunk == p.hunk && p'.out == p.out
  {
    var a, b := OldPathLine(t.oldPath), NewPathLine(t.newPath);
    HeadDecides(a);
    HeadDecides(b);
    HeadNotGitlink(a);
    HeadNotGitlink(b);
    OldPathRead(t.oldPath);
    NewPathRead(t.newPath);
    var p1 := Feed(p, a);
    assert p1 == p.(oldPath := Some(OldPathOf(a))) by {
      assert a[..4] == "--- ";
    }
    assert b[..4] == "+++ ";
    assert [a] + [b] == [a, b];
    FeedConcat(p, [a], [b]);
    FeedOne(p, a);
    FeedOne(p1, b);
  }

  lemma {:induction false} FeedGitLine(p: Parser, rest: string)
    ensures Feed(p, "diff --git " + rest) == Parser(None, None, [], p.oldNo, p.newNo, false, false, Flush(p))
  {
    assert ("diff --git " + rest)[..11] == "diff --git ";
  }

  /** The lines before a file's first hunk: what was pending is flushed and the file is known. */
  lemma {:induction false} FeedHead(p: Parser, f: FileDiff)
    requires FileOk(f)
    ensures var p' := FeedAll(p, HeadLines(f));
            && p'.hunk == [] && p'.out == Flush(p) && p'.gitlink == IsGitlink(f)
            && (f.text.Some? ==> p'.seenPlus && p'.path == Some(PathOf(f.text.value)))
  {
    var first := "diff --git " + f.git;
    var p1 := Feed(p, first);
    FeedGitLine(p, f.git);
    FeedCons(p, p1, first, f.meta);
    FeedMeta(p1, f.meta);
    var p2 := p1.(gitlink := IsGitlink(f));
    if f.text.None? {
      assert HeadLines(f) == [first] + f.meta;
    } else {
      var paths := [OldPathLine(f.text.value.oldPath), NewPathLine(f.text.value.newPath)];
      FeedConcat(p, [first] + f.meta, paths);
      FeedPaths(p2, f.text.value);
    }
  }

  /** One file of a diff: whatever was pending is flushed, and the file yields its own hunks. */
  lemma {:induction false} FeedFile(p: Parser, f: FileDiff)
    requires FileOk(f)
    ensures Flush(FeedAll(p, FileLines(f))) == Flush(p) + FileYields(f)
  {
    var p1 := FeedAll(p, HeadLines(f));
    FeedHead(p, f);
    if f.text.None? {
      assert FileLines(f) == HeadLines(f);
    } else {
      var lines := ScriptLines(f.text.value.script, 0, 0);
      FeedConcat(p, HeadLines(f), lines);
      FeedScript(p1, PathOf(f.text.value), f.text.value.script, 0, 0, lines,
        ScriptYields(PathOf(f.text.value), f.text.value.script, 0, 0));
    }
  }

  lemma {:induction false} FlushAppend(p: Parser, lines: seq<string>, a: seq<string>, b: seq<string>, x: seq<Yield>, y: seq<Yield>, z: seq<Yield>)
    requires lines == a + b
    requires Flush(FeedAll(p, a)) == x + y && Flush(FeedAll(FeedAll(p, a), b)) == Flush(FeedAll(p, a)) + z
    ensures Flush(FeedAll(p, lines)) == x + (y + z)
  {
    FeedConcat(p, a, b);
  }

  lemma {:induction false} FeedFiles(p: Parser, fs: seq<FileDiff>)
    requires DiffOk(fs)
    ensures Flush(FeedAll(p, DiffLines(fs))) == Flush(p) + DiffYields(fs)
    decreases |fs|
  {
    if fs == [] {
      assert Flush(p) + [] == Flush(p);
    } else {
      var a, b := FileLines(fs[0]), DiffLines(fs[1..]);
      FeedFile(p, fs[0]);
      FeedFiles(FeedAll(p, a), fs[1..]);
      FlushAppend(p, DiffLines(fs), a, b, Flush(p), FileYields(fs[0]), DiffYields(fs[1..]));
    }
  }

  /** The parser recovers, from a printed diff, exactly the hunks that were printed. */
  lemma {:induction false} ParseInvertsPrint(fs: seq<FileDiff>)
    requires DiffOk(fs)
    ensures Parse(DiffLines(fs)) == DiffYields(fs)
  {
    FeedFiles(START, fs);
    assert Flush(START) == [];
  }
}
