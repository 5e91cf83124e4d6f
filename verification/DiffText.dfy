/** The parsers on a diff's text: exactly when cutting it into lines loses nothing that matters. */
module DiffText {
  import opened Common
  import opened UnifiedDiff
  import opened DiffHunks
  import opened LineBreaks
  import DiffAdded
  import Decimal

  /* ---- What is pending stays ---- */

  predicate InHunk(p: Parser) {
    p.seenPlus && p.path.Some? && !p.gitlink
  }

  lemma {:induction false} FeedKeeps(p: Parser, line: string)
    ensures p.out <= Feed(p, line).out
    ensures var p' := Feed(p, line);
            InHunk(p) && p.hunk != [] ==>
              || (p'.out == p.out && InHunk(p') && p.hunk <= p'.hunk)
              || p'.out == p.out + [Yield(p.path.value, p.hunk)]
  {
  }

  lemma {:induction false} OutGrows(p: Parser, lines: seq<string>)
    ensures p.out <= Flush(FeedAll(p, lines))
    decreases |lines|
  {
    if lines != [] {
      FeedKeeps(p, lines[0]);
      OutGrows(Feed(p, lines[0]), lines[1..]);
    }
  }

  /** The records of a hunk begun inside a reported file are reported next, whatever lines follow. */
  lemma {:induction false} PendingIsKept(p: Parser, lines: seq<string>)
    requires InHunk(p) && p.hunk != []
    ensures var out := Flush(FeedAll(p, lines)); |p.out| < |out| && p.hunk <= out[|p.out|].records
    decreases |lines|
  {
    if lines != [] {
      var p' := Feed(p, lines[0]);
      FeedKeeps(p, lines[0]);
      if p'.out == p.out {
        PendingIsKept(p', lines[1..]);
      } else {
        OutGrows(p', lines[1..]);
        assert p'.out[|p.out|].records == p.hunk;
      }
    }
  }

  /* ---- A line that is cut shows ---- */

  predicate RecordsClean(records: seq<Record>) {
    forall r :: r in records ==> Clean(r.text, BREAKS)
  }

  predicate YieldsClean(hunks: seq<Yield>) {
    forall y :: y in hunks ==> RecordsClean(y.records)
  }

  /** What is fed in holds no line break, so nothing that comes out does. */
  lemma {:induction false} FeedClean(p: Parser, line: string)
    requires Clean(line, BREAKS) && RecordsClean(p.hunk) && YieldsClean(p.out)
    ensures RecordsClean(Feed(p, line).hunk) && YieldsClean(Feed(p, line).out) && YieldsClean(Flush(p))
  {
  }

  lemma {:induction false} FeedAllClean(p: Parser, lines: seq<string>)
    requires AllClean(lines, BREAKS) && RecordsClean(p.hunk) && YieldsClean(p.out)
    ensures YieldsClean(Flush(FeedAll(p, lines)))
    decreases |lines|
  {
    FeedClean(p, "");
    if lines != [] {
      FeedClean(p, lines[0]);
      FeedAllClean(Feed(p, lines[0]), lines[1..]);
    }
  }

  predicate OpsClean(ops: seq<Op>) {
    forall i :: 0 <= i < |ops| ==> ops[i].NoNewline? || Clean(ops[i].text, BREAKS)
  }

  predicate SegmentClean(segment: Segment) {
    segment.Unchanged? || OpsClean(segment.ops)
  }

  predicate ScriptClean(script: seq<Segment>) {
    script == [] || (SegmentClean(script[0]) && ScriptClean(script[1..]))
  }

  /** A file whose hunks are reported. */
  predicate Shown(f: FileDiff) {
    f.text.Some? && !IsGitlink(f)
  }

  /** No body line of a reported file holds a line break. */
  predicate BodiesClean(fs: seq<FileDiff>) {
    fs == [] || (FileClean(fs[0]) && BodiesClean(fs[1..]))
  }

  predicate FileClean(f: FileDiff) {
    Shown(f) ==> ScriptClean(f.text.value.script)
  }

  lemma {:induction false} PartsOfRecords(a: seq<Record>, b: seq<Record>, whole: seq<Record>)
    requires whole == a + b && RecordsClean(whole)
    ensures RecordsClean(a) && RecordsClean(b)
  {
    assert forall r :: r in a || r in b ==> r in whole;
  }

  lemma {:induction false} OpsShow(ops: seq<Op>, oldNo: nat, newNo: nat)
    requires RecordsClean(Records(ops, oldNo, newNo))
    ensures OpsClean(ops)
    decreases |ops|
  {
    if ops != [] {
      var x, y := RecordOf(ops[0], oldNo, newNo), Records(ops[1..], oldNo + |OldPart(ops[0])|, newNo + |NewPart(ops[0])|);
      PartsOfRecords(x, y, Records(ops, oldNo, newNo));
      OpsShow(ops[1..], oldNo + |OldPart(ops[0])|, newNo + |NewPart(ops[0])|);
      assert !ops[0].NoNewline? ==> x[0].text == ops[0].text && x[0] in x;
      assert forall i :: 0 < i < |ops| ==> ops[i] == ops[1..][i - 1];
    }
  }

  lemma {:induction false} PartsOfClean(a: seq<Yield>, b: seq<Yield>, whole: seq<Yield>)
    requires whole == a + b && YieldsClean(whole)
    ensures YieldsClean(a) && YieldsClean(b)
  {
    assert forall y :: y in a || y in b ==> y in whole;
  }

  lemma {:induction false} HunkShows(path: string, ops: seq<Op>, oldNo: nat, newNo: nat)
    requires YieldsClean(HunkYield(path, Records(ops, oldNo, newNo)))
    ensures OpsClean(ops)
  {
    var records := Records(ops, oldNo, newNo);
    assert records != [] ==> HunkYield(path, records)[0].records == records;
    OpsShow(ops, oldNo, newNo);
  }

  lemma {:induction false} SegmentShows(path: string, segment: Segment, o: nat, n: nat)
    requires YieldsClean(SegmentYields(path, segment, o, n))
    ensures SegmentClean(segment)
  {
    if segment.Hunk? {
      HunkShows(path, segment.ops, Start(o, |OldSide(segment.ops)|), Start(n, |NewSide(segment.ops)|));
    }
  }

  lemma {:induction false} ScriptShows(path: string, script: seq<Segment>, o: nat, n: nat)
    requires YieldsClean(ScriptYields(path, script, o, n))
    ensures ScriptClean(script)
    decreases |script|
  {
    if script != [] {
      var o', n' := o + |OldPiece(script[0])|, n + |NewPiece(script[0])|;
      var x, y := SegmentYields(path, script[0], o, n), ScriptYields(path, script[1..], o', n');
      PartsOfClean(x, y, ScriptYields(path, script, o, n));
      SegmentShows(path, script[0], o, n);
      ScriptShows(path, script[1..], o', n');
    }
  }

  lemma {:induction false} BodiesShow(fs: seq<FileDiff>)
    requires DiffOk(fs) && YieldsClean(DiffYields(fs))
    ensures BodiesClean(fs)
    decreases |fs|
  {
    if fs != [] {
      PartsOfClean(FileYields(fs[0]), DiffYields(fs[1..]), DiffYields(fs));
      BodiesShow(fs[1..]);
      if Shown(fs[0]) {
        ScriptShows(PathOf(fs[0].text.value), fs[0].text.value.script, 0, 0);
      }
    }
  }

  /** Whatever else a diff holds: a line break inside a body line of a reported file always changes the result. */
  lemma {:induction false} CutBodyShows(fs: seq<FileDiff>)
    requires DiffOk(fs) && !BodiesClean(fs)
    ensures Parse(SplitLines(Join(DiffLines(fs)))) != DiffYields(fs)
  {
    SplitLinesClean(Join(DiffLines(fs)));
    FeedAllClean(START, SplitLines(Join(DiffLines(fs))));
    if YieldsClean(DiffYields(fs)) {
      BodiesShow(fs);
    }
  }

  /** Whatever else a diff holds: without line breaks inside its lines, its text parses to what was printed. */
  lemma {:induction false} CleanTextParses(fs: seq<FileDiff>)
    requires DiffOk(fs) && AllClean(DiffLines(fs), BREAKS)
    ensures Parse(SplitLines(Join(DiffLines(fs)))) == DiffYields(fs)
  {
    ParseInvertsPrint(fs);
    SplitLinesOfJoin(DiffLines(fs));
  }

  /* ---- A heading that is cut ---- */

  /** What a hunk heading's own line breaks leave behind, as lines of their own. */
  function Continuations(section: string): (r: seq<string>) {
    if Pieces(section) == [] then [] else Pieces(section)[1..]
  }

  /** A line that adds no record inside a hunk. */
  predicate Quiet(line: string) {
    StartsWith(line, "\\") || StartsWith(line, "@@")
  }

  predicate AllQuiet(lines: seq<string>) {
    forall i :: 0 <= i < |lines| ==> Quiet(lines[i])
  }

  /** Where quiet lines leave the next old and the next new number. */
  function Renumber(lines: seq<string>, oldNo: nat, newNo: nat): (r: (nat, nat))
    decreases |lines|
  {
    if lines == [] then (oldNo, newNo)
    else if StartsWith(lines[0], "@@") then
      var m := Ranges(lines[0]);
      Renumber(lines[1..], if m.Some? then m.value.0 else 0, if m.Some? then m.value.1 else 0)
    else Renumber(lines[1..], oldNo, newNo)
  }

  predicate HeadingQuiet(segment: Segment) {
    segment.Unchanged? || AllQuiet(Continuations(segment.section))
  }

  predicate ScriptQuiet(script: seq<Segment>) {
    script == [] || (HeadingQuiet(script[0]) && ScriptQuiet(script[1..]))
  }

  predicate Removes(ops: seq<Op>) {
    ops != [] && (ops[0].Removed? || Removes(ops[1..]))
  }

  /** Numbers that make no difference to the lines of a hunk: only removed lines carry an old one, and only lines of the new text a new one. */
  predicate SameNumbers(ops: seq<Op>, oldNo: nat, newNo: nat, oldNo': nat, newNo': nat) {
    (oldNo' == oldNo || !Removes(ops)) && (newNo' == newNo || NewSide(ops) == [])
  }

  predicate HeadingNumbered(segment: Segment, o: nat, n: nat) {
    segment.Hunk? ==>
      var oldNo, newNo := Start(o, |OldSide(segment.ops)|), Start(n, |NewSide(segment.ops)|);
      var r := Renumber(Continuations(segment.section), oldNo, newNo);
      SameNumbers(segment.ops, oldNo, newNo, r.0, r.1)
  }

  predicate ScriptNumbered(script: seq<Segment>, o: nat, n: nat)
    decreases |script|
  {
    script == [] ||
    (HeadingNumbered(script[0], o, n) && ScriptNumbered(script[1..], o + |OldPiece(script[0])|, n + |NewPiece(script[0])|))
  }

  /** Whatever a heading is cut into adds no record ... */
  predicate HeadingsQuiet(fs: seq<FileDiff>) {
    fs == [] || (FileQuiet(fs[0]) && HeadingsQuiet(fs[1..]))
  }

  predicate FileQuiet(f: FileDiff) {
    Shown(f) ==> ScriptQuiet(f.text.value.script)
  }

  /** ... and leaves the numbers of the lines below it alone. */
  predicate HeadingsNumbered(fs: seq<FileDiff>) {
    fs == [] || (FileNumbered(fs[0]) && HeadingsNumbered(fs[1..]))
  }

  predicate FileNumbered(f: FileDiff) {
    Shown(f) ==> ScriptNumbered(f.text.value.script, 0, 0)
  }

  lemma {:induction false} CleanConcat(a: string, b: string, stops: set<char>)
    requires Clean(a, stops) && Clean(b, stops)
    ensures Clean(a + b, stops)
  {
  }

  /** Printable ASCII holds no line break. */
  lemma {:induction false} AsciiClean(s: string)
    requires forall i :: 0 <= i < |s| ==> ' ' <= s[i] <= '~'
    ensures Clean(s, BREAKS)
  {
  }

  lemma {:induction false} PartsClean(parts: seq<string>)
    requires AllClean(parts, BREAKS)
    ensures Clean(Concat(parts), BREAKS)
  {
    if parts != [] {
      PartsClean(parts[1..]);
      CleanConcat(parts[0], Concat(parts[1..]), BREAKS);
    }
  }

  lemma {:induction false} HeaderClean(oldStart: nat, oldCount: nat, newStart: nat, newCount: nat, section: string)
    requires Clean(section, BREAKS)
    ensures Clean(Header(oldStart, oldCount, newStart, newCount, section), BREAKS)
  {
    var parts := ["@@ -", Decimal.Print(oldStart), CountSuffix(oldCount), " +", Decimal.Print(newStart), CountSuffix(newCount), " @@", section];
    AsciiClean("@@ -");
    AsciiClean(Decimal.Print(oldStart));
    AsciiClean(CountSuffix(oldCount));
    AsciiClean(" +");
    AsciiClean(Decimal.Print(newStart));
    AsciiClean(CountSuffix(newCount));
    AsciiClean(" @@");
    PartsClean(parts);
  }

  lemma {:induction false} ConcatLast(parts: seq<string>, last: string)
    ensures Concat(parts + [last]) == Concat(parts) + last
  {
    if parts == [] {
      assert parts + [last] == [last] && [last][1..] == [];
    } else {
      assert (parts + [last])[1..] == parts[1..] + [last];
      ConcatLast(parts[1..], last);
    }
  }

  /** A heading is a header without one, and the heading. */
  lemma {:induction false} HeaderMark(oldStart: nat, oldCount: nat, newStart: nat, newCount: nat, section: string)
    ensures Header(oldStart, oldCount, newStart, newCount, section) == Header(oldStart, oldCount, newStart, newCount, "") + section
  {
    var parts := ["@@ -", Decimal.Print(oldStart), CountSuffix(oldCount), " +", Decimal.Print(newStart), CountSuffix(newCount), " @@"];
    assert parts + [section] == ["@@ -", Decimal.Print(oldStart), CountSuffix(oldCount), " +", Decimal.Print(newStart), CountSuffix(newCount), " @@", section];
    assert parts + [""] == ["@@ -", Decimal.Print(oldStart), CountSuffix(oldCount), " +", Decimal.Print(newStart), CountSuffix(newCount), " @@", ""];
    ConcatLast(parts, section);
    ConcatLast(parts, "");
  }

  /** A header that is cut is a header with a shorter heading, and its continuations. */
  lemma {:induction false} HeaderPieces(oldStart: nat, oldCount: nat, newStart: nat, newCount: nat, section: string)
    ensures Pieces(section) != []
    ensures Pieces(Header(oldStart, oldCount, newStart, newCount, section))
         == [Header(oldStart, oldCount, newStart, newCount, Pieces(section)[0])] + Continuations(section)
  {
    var mark := Header(oldStart, oldCount, newStart, newCount, "");
    HeaderMark(oldStart, oldCount, newStart, newCount, section);
    AsciiClean("");
    HeaderClean(oldStart, oldCount, newStart, newCount, "");
    PiecesAfter(mark, section);
    HeaderMark(oldStart, oldCount, newStart, newCount, Pieces(section)[0]);
  }

  lemma {:induction false} OpLinesClean(ops: seq<Op>)
    requires OpsClean(ops)
    ensures AllClean(OpLines(ops), BREAKS)
  {
    if ops != [] {
      var op := ops[0];
      if op.NoNewline? {
        AsciiClean(OpLine(op));
      } else {
        AsciiClean(OpLine(op)[..1]);
        assert OpLine(op) == OpLine(op)[..1] + op.text;
        CleanConcat(OpLine(op)[..1], op.text, BREAKS);
      }
      OpLinesClean(ops[1..]);
      assert OpLines(ops) == [OpLine(op)] + OpLines(ops[1..]);
    }
  }

  /** The printed header of a hunk, under a heading of any length. */
  function HunkHeader(ops: seq<Op>, section: string, o: nat, n: nat): (h: string) {
    var oc, nc := |OldSide(ops)|, |NewSide(ops)|;
    Header(Start(o, oc), oc, Start(n, nc), nc, section)
  }

  /** Cutting a header above lines that hold no break. */
  lemma {:induction false} CutAbove(h: string, first: string, more: seq<string>, rest: seq<string>, lines: seq<string>)
    requires lines == [h] + rest && AllClean(rest, BREAKS) && Pieces(h) == [first] + more
    ensures Cut(lines) == [first] + (more + rest)
  {
    assert lines[0] == h && lines[1..] == rest;
    CleanCut(rest);
    assert ([first] + more) + rest == [first] + (more + rest);
  }

  lemma {:induction false} CutHunkLines(ops: seq<Op>, section: string, o: nat, n: nat)
    requires OpsClean(ops)
    ensures Pieces(section) != []
    ensures Cut(HunkLines(ops, section, o, n)) == [HunkHeader(ops, Pieces(section)[0], o, n)] + (Continuations(section) + OpLines(ops))
  {
    var oc, nc := |OldSide(ops)|, |NewSide(ops)|;
    HeaderPieces(Start(o, oc), oc, Start(n, nc), nc, section);
    OpLinesClean(ops);
    CutAbove(HunkHeader(ops, section, o, n), HunkHeader(ops, Pieces(section)[0], o, n), Continuations(section), OpLines(ops), HunkLines(ops, section, o, n));
  }

  /* ---- Counting records ---- */

  function Size(hunks: seq<Yield>): (n: nat) {
    if hunks == [] then 0 else |hunks[0].records| + Size(hunks[1..])
  }

  lemma {:induction false} SizeConcat(a: seq<Yield>, b: seq<Yield>)
    ensures Size(a + b) == Size(a) + Size(b)
  {
    if a == [] {
      assert a + b == b;
    } else {
      assert (a + b)[1..] == a[1..] + b;
      SizeConcat(a[1..], b);
    }
  }

  /** How many lines add a record inside a hunk. */
  function Louds(lines: seq<string>): (n: nat) {
    if lines == [] then 0 else (if Quiet(lines[0]) then 0 else 1) + Louds(lines[1..])
  }

  lemma {:induction false} LoudsConcat(a: seq<string>, b: seq<string>)
    ensures Louds(a + b) == Louds(a) + Louds(b)
  {
    if a == [] {
      assert a + b == b;
    } else {
      assert (a + b)[1..] == a[1..] + b;
      LoudsConcat(a[1..], b);
    }
  }

  lemma {:induction false} LoudsQuiet(lines: seq<string>)
    ensures Louds(lines) == 0 <==> AllQuiet(lines)
  {
    if lines != [] {
      LoudsQuiet(lines[1..]);
      assert forall i :: 0 < i < |lines| ==> lines[i] == lines[1..][i - 1];
    }
  }

  /** As many as were meant, and more unless it is quiet. */
  predicate AtLeast(got: nat, meant: nat, quiet: bool) {
    got >= meant && (got == meant <==> quiet)
  }

  predicate NoFileStarts(lines: seq<string>) {
    forall i :: 0 <= i < |lines| ==> !StartsWith(lines[i], "diff --git ")
  }

  lemma {:induction false} SizeOfFlush(p: Parser)
    requires InHunk(p)
    ensures Size(Flush(p)) == Size(p.out) + |p.hunk|
  {
    if p.hunk != [] {
      SizeConcat(p.out, [Yield(p.path.value, p.hunk)]);
      assert [Yield(p.path.value, p.hunk)][1..] == [];
    }
  }

  /** Inside a reported file every line that is not quiet is one more record. */
  lemma {:induction false} FeedSize(p: Parser, line: string)
    requires InHunk(p) && !StartsWith(line, "diff --git ")
    ensures InHunk(Feed(p, line)) && Size(Flush(Feed(p, line))) == Size(Flush(p)) + if Quiet(line) then 0 else 1
  {
    HeadDecides(line);
    SizeOfFlush(p);
    SizeOfFlush(Feed(p, line));
  }

  lemma {:induction false} FeedAllSize(p: Parser, lines: seq<string>)
    requires InHunk(p) && NoFileStarts(lines)
    ensures Size(Flush(FeedAll(p, lines))) == Size(Flush(p)) + Louds(lines)
    decreases |lines|
  {
    if lines != [] {
      FeedSize(p, lines[0]);
      FeedAllSize(Feed(p, lines[0]), lines[1..]);
    }
  }

  lemma {:induction false} LoudsOps(ops: seq<Op>, oldNo: nat, newNo: nat)
    ensures Louds(OpLines(ops)) == |Records(ops, oldNo, newNo)|
    decreases |ops|
  {
    if ops != [] {
      HeadDecides(OpLine(ops[0]));
      LoudsOps(ops[1..], oldNo + |OldPart(ops[0])|, newNo + |NewPart(ops[0])|);
      assert OpLines(ops)[1..] == OpLines(ops[1..]);
    }
  }

  /** The cut lines of a segment hold its records, and as many more as its heading is loud. */
  lemma {:induction false} SegmentLouds(path: string, segment: Segment, o: nat, n: nat)
    requires segment.Hunk? ==> OpsClean(segment.ops)
    ensures AtLeast(Louds(Cut(SegmentLines(segment, o, n))), Size(SegmentYields(path, segment, o, n)), HeadingQuiet(segment))
  {
    if segment.Hunk? {
      var ops, section := segment.ops, segment.section;
      var oldNo, newNo := Start(o, |OldSide(ops)|), Start(n, |NewSide(ops)|);
      var records := Records(ops, oldNo, newNo);
      CutHunkLines(ops, section, o, n);
      var h := HunkHeader(ops, Pieces(section)[0], o, n);
      HeaderRanges(oldNo, |OldSide(ops)|, newNo, |NewSide(ops)|, Pieces(section)[0]);
      assert [h][1..] == [] && Louds([h]) == 0;
      LoudsConcat([h], Continuations(section) + OpLines(ops));
      LoudsConcat(Continuations(section), OpLines(ops));
      LoudsOps(ops, oldNo, newNo);
      LoudsQuiet(Continuations(section));
      assert Size(HunkYield(path, records)) == |records| by {
        assert [Yield(path, records)][1..] == [];
      }
    }
  }

  lemma {:induction false} ScriptLouds(path: string, script: seq<Segment>, o: nat, n: nat)
    requires ScriptClean(script)
    ensures AtLeast(Louds(Cut(ScriptLines(script, o, n))), Size(ScriptYields(path, script, o, n)), ScriptQuiet(script))
    decreases |script|
  {
    if script != [] {
      var o', n' := o + |OldPiece(script[0])|, n + |NewPiece(script[0])|;
      var first, rest := SegmentLines(script[0], o, n), ScriptLines(script[1..], o', n');
      CutConcat(first, rest);
      LoudsConcat(Cut(first), Cut(rest));
      SizeConcat(SegmentYields(path, script[0], o, n), ScriptYields(path, script[1..], o', n'));
      SegmentLouds(path, script[0], o, n);
      ScriptLouds(path, script[1..], o', n');
    }
  }

  /* ---- Quiet headings, exactly ---- */

  lemma {:induction false} FeedQuiet(p: Parser, lines: seq<string>)
    requires InHunk(p) && p.hunk == [] && AllQuiet(lines)
    ensures var r := Renumber(lines, p.oldNo, p.newNo); FeedAll(p, lines) == p.(oldNo := r.0, newNo := r.1)
    decreases |lines|
  {
    if lines != [] {
      HeadDecides(lines[0]);
      FeedQuiet(Feed(p, lines[0]), lines[1..]);
    }
  }

  /** The records of a hunk under the numbers its heading leaves. */
  function CutSegmentYields(path: string, segment: Segment, o: nat, n: nat): (r: seq<Yield>) {
    if segment.Unchanged? then []
    else
      var r := Renumber(Continuations(segment.section), Start(o, |OldSide(segment.ops)|), Start(n, |NewSide(segment.ops)|));
      HunkYield(path, Records(segment.ops, r.0, r.1))
  }

  function CutScriptYields(path: string, script: seq<Segment>, o: nat, n: nat): (r: seq<Yield>) {
    if script == [] then []
    else CutSegmentYields(path, script[0], o, n) + CutScriptYields(path, script[1..], o + |OldPiece(script[0])|, n + |NewPiece(script[0])|)
  }

  lemma {:induction false} CutHunk(p: Parser, ops: seq<Op>, section: string, o: nat, n: nat)
    requires InHunk(p) && OpsClean(ops) && AllQuiet(Continuations(section))
    ensures var p' := FeedAll(p, Cut(HunkLines(ops, section, o, n)));
            var r := Renumber(Continuations(section), Start(o, |OldSide(ops)|), Start(n, |NewSide(ops)|));
            InHunk(p') && p'.path == p.path && p'.out == Flush(p) && p'.hunk == Records(ops, r.0, r.1)
  {
    var oldNo, newNo := Start(o, |OldSide(ops)|), Start(n, |NewSide(ops)|);
    CutHunkLines(ops, section, o, n);
    var h := HunkHeader(ops, Pieces(section)[0], o, n);
    HeaderRanges(oldNo, |OldSide(ops)|, newNo, |NewSide(ops)|, Pieces(section)[0]);
    HeadDecides(h);
    var p1 := Feed(p, h);
    FeedCons(p, p1, h, Continuations(section) + OpLines(ops));
    FeedConcat(p1, Continuations(section), OpLines(ops));
    FeedQuiet(p1, Continuations(section));
    var p2 := FeedAll(p1, Continuations(section));
    FeedOps(p2, ops);
    assert [] + Records(ops, p2.oldNo, p2.newNo) == Records(ops, p2.oldNo, p2.newNo);
  }

  lemma {:induction false} CutSegment(p: Parser, segment: Segment, o: nat, n: nat)
    requires InHunk(p) && (segment.Hunk? ==> OpsClean(segment.ops)) && HeadingQuiet(segment)
    ensures Emits(p, FeedAll(p, Cut(SegmentLines(segment, o, n))), CutSegmentYields(p.path.value, segment, o, n))
  {
    if segment.Hunk? {
      CutHunk(p, segment.ops, segment.section, o, n);
    }
  }

  lemma {:induction false} CutScript(p: Parser, path: string, script: seq<Segment>, o: nat, n: nat)
    requires InHunk(p) && path == p.path.value && ScriptClean(script) && ScriptQuiet(script)
    ensures Emits(p, FeedAll(p, Cut(ScriptLines(script, o, n))), CutScriptYields(path, script, o, n))
    decreases |script|
  {
    if script == [] {
      assert Flush(p) + [] == Flush(p);
    } else {
      var o', n' := o + |OldPiece(script[0])|, n + |NewPiece(script[0])|;
      var first, rest := SegmentLines(script[0], o, n), ScriptLines(script[1..], o', n');
      var x, y := CutSegmentYields(path, script[0], o, n), CutScriptYields(path, script[1..], o', n');
      CutConcat(first, rest);
      var p1 := FeedAll(p, Cut(first));
      CutSegment(p, script[0], o, n);
      CutScript(p1, path, script[1..], o', n');
      FeedEmits(p, p1, Cut(ScriptLines(script, o, n)), Cut(first), Cut(rest), x, y, CutScriptYields(path, script, o, n));
    }
  }

  /** Two numberings of a hunk. */
  lemma {:induction false} Renumbered(ops: seq<Op>, oldNo: nat, newNo: nat, oldNo': nat, newNo': nat)
    ensures |Records(ops, oldNo', newNo')| == |Records(ops, oldNo, newNo)|
    ensures Records(ops, oldNo', newNo') == Records(ops, oldNo, newNo) <==> SameNumbers(ops, oldNo, newNo, oldNo', newNo')
    decreases |ops|
  {
    if ops != [] {
      var op, tail := ops[0], ops[1..];
      var o, n, o', n' := oldNo + |OldPart(op)|, newNo + |NewPart(op)|, oldNo' + |OldPart(op)|, newNo' + |NewPart(op)|;
      Renumbered(tail, o, n, o', n');
      RenumberedStep(ops, op, tail, oldNo, newNo, oldNo', newNo', Records(tail, o, n), Records(tail, o', n'));
      SameNumbersHead(ops, oldNo, newNo, oldNo', newNo');
    }
  }

  /** The first line's number, and the rest. */
  lemma {:induction false} RenumberedStep(ops: seq<Op>, op: Op, tail: seq<Op>, oldNo: nat, newNo: nat, oldNo': nat, newNo': nat, y: seq<Record>, y': seq<Record>)
    requires ops != [] && op == ops[0] && tail == ops[1..] && |y| == |y'|
    requires y == Records(tail, oldNo + |OldPart(op)|, newNo + |NewPart(op)|)
    requires y' == Records(tail, oldNo' + |OldPart(op)|, newNo' + |NewPart(op)|)
    ensures |Records(ops, oldNo', newNo')| == |Records(ops, oldNo, newNo)|
    ensures Records(ops, oldNo', newNo') == Records(ops, oldNo, newNo) <==>
            (op.Removed? ==> oldNo' == oldNo) && (op.Added? || op.Context? ==> newNo' == newNo) && y' == y
  {
    var x, x' := RecordOf(op, oldNo, newNo), RecordOf(op, oldNo', newNo');
    RecordRenumbered(op, oldNo, newNo, oldNo', newNo');
    SplitWhole(Records(ops, oldNo, newNo), x, y, Records(ops, oldNo', newNo'), x', y');
  }

  lemma {:induction false} RecordRenumbered(op: Op, oldNo: nat, newNo: nat, oldNo': nat, newNo': nat)
    ensures RecordOf(op, oldNo', newNo') == RecordOf(op, oldNo, newNo) <==>
            (op.Removed? ==> oldNo' == oldNo) && (op.Added? || op.Context? ==> newNo' == newNo)
  {
    var x, x' := RecordOf(op, oldNo, newNo), RecordOf(op, oldNo', newNo');
    if !op.NoNewline? {
      assert x == x' <==> x[0] == x'[0];
    }
  }

  lemma {:induction false} SameNumbersHead(ops: seq<Op>, oldNo: nat, newNo: nat, oldNo': nat, newNo': nat)
    requires ops != []
    ensures var oc, nc := |OldPart(ops[0])|, |NewPart(ops[0])|;
            SameNumbers(ops, oldNo, newNo, oldNo', newNo') <==>
            && (ops[0].Removed? ==> oldNo' == oldNo) && (ops[0].Added? || ops[0].Context? ==> newNo' == newNo)
            && SameNumbers(ops[1..], oldNo + oc, newNo + nc, oldNo' + oc, newNo' + nc)
  {
    assert NewSide(ops) == [] <==> NewPart(ops[0]) == [] && NewSide(ops[1..]) == [];
  }

  lemma {:induction false} SplitEqual<T>(a: seq<T>, b: seq<T>, a': seq<T>, b': seq<T>)
    requires |a| == |a'|
    ensures a' + b' == a + b <==> a' == a && b' == b
  {
    if a' + b' == a + b {
      assert a == (a + b)[..|a|] && b == (a + b)[|a|..];
      assert a' == (a' + b')[..|a|] && b' == (a' + b')[|a|..];
    }
  }

  lemma {:induction false} SplitWhole<T>(whole: seq<T>, a: seq<T>, b: seq<T>, whole': seq<T>, a': seq<T>, b': seq<T>)
    requires whole == a + b && whole' == a' + b' && |a| == |a'| && |b| == |b'|
    ensures |whole| == |whole'| && (whole' == whole <==> a' == a && b' == b)
  {
    SplitEqual(a, b, a', b');
  }

  lemma {:induction false} SegmentAligned(path: string, segment: Segment, o: nat, n: nat)
    ensures |CutSegmentYields(path, segment, o, n)| == |SegmentYields(path, segment, o, n)|
    ensures CutSegmentYields(path, segment, o, n) == SegmentYields(path, segment, o, n) <==> HeadingNumbered(segment, o, n)
  {
    if segment.Hunk? {
      var oldNo, newNo := Start(o, |OldSide(segment.ops)|), Start(n, |NewSide(segment.ops)|);
      var r := Renumber(Continuations(segment.section), oldNo, newNo);
      Renumbered(segment.ops, oldNo, newNo, r.0, r.1);
      var x, x' := Records(segment.ops, oldNo, newNo), Records(segment.ops, r.0, r.1);
      assert x != [] ==> (HunkYield(path, x') == HunkYield(path, x) <==> HunkYield(path, x')[0] == HunkYield(path, x)[0]);
    }
  }

  lemma {:induction false} ScriptAligned(path: string, script: seq<Segment>, o: nat, n: nat)
    ensures |CutScriptYields(path, script, o, n)| == |ScriptYields(path, script, o, n)|
    ensures CutScriptYields(path, script, o, n) == ScriptYields(path, script, o, n) <==> ScriptNumbered(script, o, n)
    decreases |script|
  {
    if script != [] {
      var o', n' := o + |OldPiece(script[0])|, n + |NewPiece(script[0])|;
      SegmentAligned(path, script[0], o, n);
      ScriptAligned(path, script[1..], o', n');
      SplitEqual(SegmentYields(path, script[0], o, n), ScriptYields(path, script[1..], o', n'),
        CutSegmentYields(path, script[0], o, n), CutScriptYields(path, script[1..], o', n'));
    }
  }

  /* ---- What precedes the hunks ---- */

  /** The lines of a file up to its path lines, cut. */
  function HeadPieces(f: FileDiff): (r: seq<string>) {
    Cut(["diff --git " + f.git] + f.meta)
  }

  /**
   A line break before the first hunk does no harm: what it cuts off reads like any other
   extended header line, still tells a commit pointer from a file, and the paths hold none.
   */
  predicate HeadInert(f: FileDiff) {
    && var pieces := HeadPieces(f);
    && (forall i :: 1 <= i < |pieces| ==> MetaOk(pieces[i]))
    && (IsGitlink(f) <==> exists i :: 1 <= i < |pieces| && GitlinkMeta(pieces[i]))
    && (f.text.Some? ==> Clean(OldPathLine(f.text.value.oldPath), BREAKS) && Clean(NewPathLine(f.text.value.newPath), BREAKS))
  }

  /** No line break makes up a header line: none before the first hunk, and below it nothing that reads like the start of a file. */
  predicate Legible(f: FileDiff) {
    HeadInert(f) && (f.text.Some? ==> NoFileStarts(Cut(ScriptLines(f.text.value.script, 0, 0))))
  }

  predicate AllLegible(fs: seq<FileDiff>) {
    fs == [] || (Legible(fs[0]) && AllLegible(fs[1..]))
  }

  lemma {:induction false} GitLineAsciiClean()
    ensures Clean("diff --git ", BREAKS)
  {
    AsciiClean("diff --git ");
  }

  /** The first piece of a file's first line still begins the file. */
  lemma {:induction false} HeadFirst(f: FileDiff)
    ensures HeadPieces(f) != [] && StartsWith(HeadPieces(f)[0], "diff --git ")
  {
    GitLineAsciiClean();
    PiecesAfter("diff --git ", f.git);
    var first := "diff --git " + Pieces(f.git)[0];
    assert ([("diff --git " + f.git)] + f.meta)[0] == "diff --git " + f.git;
    assert HeadPieces(f)[0] == first;
    assert first[..11] == "diff --git ";
  }

  /** A head without line breaks is such a head. */
  lemma {:induction false} CleanHeadIsInert(f: FileDiff)
    requires FileOk(f) && AllClean(HeadLines(f), BREAKS)
    ensures HeadInert(f)
  {
    var lines := ["diff --git " + f.git] + f.meta;
    assert AllClean(lines, BREAKS) by {
      assert forall i :: 0 <= i < |lines| ==> lines[i] == HeadLines(f)[i];
    }
    CleanCut(lines);
    assert forall i :: 1 <= i < |lines| ==> lines[i] == f.meta[i - 1];
    if IsGitlink(f) {
      var i :| 0 <= i < |f.meta| && GitlinkMeta(f.meta[i]);
      assert lines[i + 1] == f.meta[i];
    }
    if f.text.Some? {
      var t, head := f.text.value, HeadLines(f);
      assert head[|lines|] == OldPathLine(t.oldPath) && head[|lines| + 1] == NewPathLine(t.newPath);
    }
  }

  /** The head of a file, cut: what was pending is flushed and the file is known all the same. */
  lemma {:induction false} CutHead(p: Parser, f: FileDiff)
    requires FileOk(f) && HeadInert(f)
    ensures var p' := FeedAll(p, Cut(HeadLines(f)));
            && p'.hunk == [] && p'.out == Flush(p) && p'.gitlink == IsGitlink(f)
            && (f.text.Some? ==> p'.seenPlus && p'.path == Some(PathOf(f.text.value)))
  {
    var pieces := HeadPieces(f);
    HeadFirst(f);
    var first, meta := pieces[0], pieces[1..];
    assert pieces == [first] + meta;
    var p1 := Feed(p, first);
    FeedCons(p, p1, first, meta);
    MetaPieces(pieces, IsGitlink(f));
    FeedMeta(p1, meta);
    var p2 := FeedAll(p, pieces);
    if f.text.None? {
      assert HeadLines(f) == ["diff --git " + f.git] + f.meta;
    } else {
      var paths := [OldPathLine(f.text.value.oldPath), NewPathLine(f.text.value.newPath)];
      CleanCut(paths);
      CutConcat(["diff --git " + f.git] + f.meta, paths);
      FeedConcat(p, pieces, paths);
      FeedPaths(p2, f.text.value);
    }
  }

  lemma {:induction false} MetaPieces(pieces: seq<string>, gitlink: bool)
    requires pieces != [] && (forall i :: 1 <= i < |pieces| ==> MetaOk(pieces[i]))
    requires gitlink <==> exists i :: 1 <= i < |pieces| && GitlinkMeta(pieces[i])
    ensures var meta := pieces[1..];
            && (forall i :: 0 <= i < |meta| ==> MetaOk(meta[i]))
            && (gitlink <==> exists i :: 0 <= i < |meta| && GitlinkMeta(meta[i]))
  {
    var meta := pieces[1..];
    assert forall i :: 0 <= i < |meta| ==> meta[i] == pieces[i + 1];
    if i :| 1 <= i < |pieces| && GitlinkMeta(pieces[i]) {
      assert GitlinkMeta(meta[i - 1]);
    }
  }

  /** Inside a commit pointer nothing is reported, whatever its lines are cut into. */
  lemma {:induction false} FeedGitlink(p: Parser, lines: seq<string>)
    requires p.gitlink && NoFileStarts(lines)
    ensures Flush(FeedAll(p, lines)) == Flush(p)
    decreases |lines|
  {
    if lines != [] {
      FeedGitlink(Feed(p, lines[0]), lines[1..]);
    }
  }

  /* ---- Whole files and diffs ---- */

  lemma {:induction false} CutFileSplits(p: Parser, f: FileDiff)
    requires f.text.Some?
    ensures FeedAll(p, Cut(FileLines(f))) == FeedAll(FeedAll(p, Cut(HeadLines(f))), Cut(ScriptLines(f.text.value.script, 0, 0)))
  {
    CutConcat(HeadLines(f), ScriptLines(f.text.value.script, 0, 0));
    FeedConcat(p, Cut(HeadLines(f)), Cut(ScriptLines(f.text.value.script, 0, 0)));
  }

  /** A file that is not reported adds nothing. */
  lemma {:induction false} CutUnshown(p: Parser, f: FileDiff)
    requires FileOk(f) && Legible(f) && !Shown(f)
    ensures Flush(FeedAll(p, Cut(FileLines(f)))) == Flush(p)
  {
    CutHead(p, f);
    if f.text.None? {
      assert FileLines(f) == HeadLines(f);
    } else {
      CutFileSplits(p, f);
      FeedGitlink(FeedAll(p, Cut(HeadLines(f))), Cut(ScriptLines(f.text.value.script, 0, 0)));
    }
  }

  lemma {:induction false} CutFileSize(p: Parser, f: FileDiff)
    requires FileOk(f) && Legible(f) && FileClean(f)
    ensures AtLeast(Size(Flush(FeedAll(p, Cut(FileLines(f))))), Size(Flush(p)) + Size(FileYields(f)), FileQuiet(f))
  {
    if Shown(f) {
      var script := f.text.value.script;
      var p1 := FeedAll(p, Cut(HeadLines(f)));
      CutHead(p, f);
      CutFileSplits(p, f);
      FeedAllSize(p1, Cut(ScriptLines(script, 0, 0)));
      ScriptLouds(PathOf(f.text.value), script, 0, 0);
    } else {
      CutUnshown(p, f);
    }
  }

  /** Two parts of a diff, one after the other. */
  lemma {:induction false} SizeAppend(p: Parser, p1: Parser, lines: seq<string>, a: seq<string>, b: seq<string>,
                                      hunks: seq<Yield>, x: seq<Yield>, y: seq<Yield>, u: bool, v: bool)
    requires lines == a + b && hunks == x + y && p1 == FeedAll(p, a)
    requires AtLeast(Size(Flush(p1)), Size(Flush(p)) + Size(x), u)
    requires AtLeast(Size(Flush(FeedAll(p1, b))), Size(Flush(p1)) + Size(y), v)
    ensures AtLeast(Size(Flush(FeedAll(p, lines))), Size(Flush(p)) + Size(hunks), u && v)
  {
    FeedConcat(p, a, b);
    SizeConcat(x, y);
  }

  /** The text holds at least as many records as were printed, and exactly as many when no heading is loud. */
  lemma {:induction false} CutDiffSize(p: Parser, fs: seq<FileDiff>)
    requires DiffOk(fs) && AllLegible(fs) && BodiesClean(fs)
    ensures AtLeast(Size(Flush(FeedAll(p, Cut(DiffLines(fs))))), Size(Flush(p)) + Size(DiffYields(fs)), HeadingsQuiet(fs))
    decreases |fs|
  {
    if fs != [] {
      var a, b := FileLines(fs[0]), DiffLines(fs[1..]);
      CutFileSize(p, fs[0]);
      CutDiffSize(FeedAll(p, Cut(a)), fs[1..]);
      CutConcat(a, b);
      SizeAppend(p, FeedAll(p, Cut(a)), Cut(DiffLines(fs)), Cut(a), Cut(b), DiffYields(fs), FileYields(fs[0]), DiffYields(fs[1..]),
        FileQuiet(fs[0]), HeadingsQuiet(fs[1..]));
    }
  }

  function CutFileYields(f: FileDiff): (r: seq<Yield>)
    requires FileOk(f)
  {
    if Shown(f) then CutScriptYields(PathOf(f.text.value), f.text.value.script, 0, 0) else []
  }

  function CutDiffYields(fs: seq<FileDiff>): (r: seq<Yield>)
    requires DiffOk(fs)
  {
    if fs == [] then [] else CutFileYields(fs[0]) + CutDiffYields(fs[1..])
  }

  lemma {:induction false} CutFile(p: Parser, f: FileDiff)
    requires FileOk(f) && Legible(f) && FileClean(f) && FileQuiet(f)
    ensures Flush(FeedAll(p, Cut(FileLines(f)))) == Flush(p) + CutFileYields(f)
  {
    if Shown(f) {
      CutHead(p, f);
      CutFileSplits(p, f);
      CutScript(FeedAll(p, Cut(HeadLines(f))), PathOf(f.text.value), f.text.value.script, 0, 0);
    } else {
      CutUnshown(p, f);
    }
  }

  lemma {:induction false} CutDiff(p: Parser, fs: seq<FileDiff>)
    requires DiffOk(fs) && AllLegible(fs) && BodiesClean(fs) && HeadingsQuiet(fs)
    ensures Flush(FeedAll(p, Cut(DiffLines(fs)))) == Flush(p) + CutDiffYields(fs)
    decreases |fs|
  {
    if fs == [] {
      assert Flush(p) + [] == Flush(p);
    } else {
      var a, b := FileLines(fs[0]), DiffLines(fs[1..]);
      CutFile(p, fs[0]);
      CutDiff(FeedAll(p, Cut(a)), fs[1..]);
      CutConcat(a, b);
      FlushAppend(p, Cut(DiffLines(fs)), Cut(a), Cut(b), Flush(p), CutFileYields(fs[0]), CutDiffYields(fs[1..]));
    }
  }

  lemma {:induction false} DiffAligned(fs: seq<FileDiff>)
    requires DiffOk(fs)
    ensures |CutDiffYields(fs)| == |DiffYields(fs)|
    ensures CutDiffYields(fs) == DiffYields(fs) <==> HeadingsNumbered(fs)
    decreases |fs|
  {
    if fs != [] {
      if Shown(fs[0]) {
        ScriptAligned(PathOf(fs[0].text.value), fs[0].text.value.script, 0, 0);
      }
      DiffAligned(fs[1..]);
      SplitEqual(FileYields(fs[0]), DiffYields(fs[1..]), CutFileYields(fs[0]), CutDiffYields(fs[1..]));
    }
  }

  /**
   The parser recovers the printed hunks from a diff's text if and only if no body line of
   a reported file holds a character that Python takes for the end of a line, and whatever
   such characters cut off a hunk heading is a `\\` or `@@` line that leaves the hunk's
   numbers as they were.
   */
  lemma {:induction false} TextParsesIff(fs: seq<FileDiff>)
    requires DiffOk(fs) && AllLegible(fs)
    ensures Parse(SplitLines(Join(DiffLines(fs)))) == DiffYields(fs) <==>
            BodiesClean(fs) && HeadingsQuiet(fs) && HeadingsNumbered(fs)
  {
    SplitIsCut(DiffLines(fs));
    if !BodiesClean(fs) {
      CutBodyShows(fs);
    } else {
      CutDiffSize(START, fs);
      if HeadingsQuiet(fs) {
        CutDiff(START, fs);
        DiffAligned(fs);
      }
    }
  }

  /* ---- The failing cases, concretely ---- */

  /** A new line with a form feed in it. */
  const FORM_FEED := FileDiff("a/x b/x", [], Some(Text(Some("x"), Some("x"), [Hunk([Added("a\U{c}b")], "")])))

  lemma {:induction false} PlainHead(f: FileDiff, script: seq<Segment>)
    requires f == FileDiff("a/x b/x", [], Some(Text(Some("x"), Some("x"), script)))
    ensures FileOk(f) && !IsGitlink(f) && HeadInert(f)
  {
    assert HeadLines(f) == ["diff --git " + "a/x b/x", OldPathLine(Some("x")), NewPathLine(Some("x"))];
    AsciiClean("diff --git " + "a/x b/x");
    AsciiClean(OldPathLine(Some("x")));
    AsciiClean(NewPathLine(Some("x")));
    assert Trimmed("x") == "x";
    CleanHeadIsInert(f);
  }

  /** A body line with a form feed in it is reported cut short. */
  lemma {:induction false} FormFeedIsCut()
    ensures DiffOk([FORM_FEED]) && Parse(SplitLines(Join(DiffLines([FORM_FEED])))) != DiffYields([FORM_FEED])
  {
    PlainHead(FORM_FEED, FORM_FEED.text.value.script);
    var ops := FORM_FEED.text.value.script[0].ops;
    assert !Clean(ops[0].text, BREAKS) by {
      assert ops[0].text[1] == '\U{c}';
    }
    assert Shown([FORM_FEED][0]);
    CutBodyShows([FORM_FEED]);
  }

  /** A hunk below a function heading with a form feed in it. */
  const HEADING := FileDiff("a/x b/x", [], Some(Text(Some("x"), Some("x"), [Hunk([Added("y")], " f\U{c}g")])))

  lemma {:induction false} HeadingPieces()
    ensures Pieces(" f\U{c}g") == [" f", "g"]
  {
    var u := " f\U{c}g" + "\n";
    assert Until(u[3..], BREAKS) == 1 by {
      UntilHere("g", "", BREAKS);
      assert u[3..] == "g" + "\n" + "";
    }
    assert u[2] == '\U{c}' && Until(u, BREAKS) == 2 by {
      assert u[1..][1..] == u[2..] && u[2..][0] == '\U{c}';
      assert Until(u[2..], BREAKS) == 0 && Until(u[1..], BREAKS) == 1;
    }
    CleanPieces("g");
    SplitFirst(u, 2, " f", "g" + "\n");
  }

  lemma {:induction false} OneHunkLegible(ops: seq<Op>, section: string, line: string, first: string, more: string)
    requires ops == [Added(line)] && Clean(line, BREAKS) && Pieces(section) == [first, more] && !StartsWith(more, "diff --git ")
    ensures NoFileStarts(Cut(HunkLines(ops, section, 0, 0)))
  {
    CutHunkLines(ops, section, 0, 0);
    assert Continuations(section) == [more];
    HeaderRanges(Start(0, |OldSide(ops)|), |OldSide(ops)|, Start(0, |NewSide(ops)|), |NewSide(ops)|, first);
    HeadDecides(HunkHeader(ops, first, 0, 0));
    HeadDecides(OpLine(ops[0]));
    assert OpLines(ops) == [OpLine(ops[0])];
  }

  lemma {:induction false} OneHunkScript(script: seq<Segment>, ops: seq<Op>, section: string)
    requires script == [Hunk(ops, section)]
    ensures ScriptLines(script, 0, 0) == HunkLines(ops, section, 0, 0)
    ensures ScriptQuiet(script) ==> AllQuiet(Continuations(section))
  {
    assert script[1..] == [] && HunkLines(ops, section, 0, 0) + [] == HunkLines(ops, section, 0, 0);
  }

  lemma {:induction false} LoudFileShows(f: FileDiff)
    requires FileOk(f) && Legible(f) && Shown(f) && !ScriptQuiet(f.text.value.script)
    ensures DiffOk([f]) && Parse(SplitLines(Join(DiffLines([f])))) != DiffYields([f])
  {
    assert [f][0] == f && !HeadingsQuiet([f]);
    TextParsesIff([f]);
  }

  /** One added line under a heading that is cut in two. */
  lemma {:induction false} CutHeadingShows(f: FileDiff, line: string, section: string, first: string, more: string)
    requires f == FileDiff("a/x b/x", [], Some(Text(Some("x"), Some("x"), [Hunk([Added(line)], section)])))
    requires Clean(line, BREAKS) && Pieces(section) == [first, more] && !StartsWith(more, "diff --git ") && !Quiet(more)
    ensures DiffOk([f]) && Parse(SplitLines(Join(DiffLines([f])))) != DiffYields([f])
  {
    PlainHead(f, f.text.value.script);
    OneHunkScript(f.text.value.script, [Added(line)], section);
    OneHunkLegible([Added(line)], section, line, first, more);
    assert Continuations(section)[0] == more;
    LoudFileShows(f);
  }

  /** What a form feed cuts off a heading is taken for a context line of the file. */
  lemma {:induction false} HeadingIsCut()
    ensures DiffOk([HEADING]) && Parse(SplitLines(Join(DiffLines([HEADING])))) != DiffYields([HEADING])
  {
    HeadingPieces();
    HeadDecides("g");
    AsciiClean("y");
    CutHeadingShows(HEADING, "y", " f\U{c}g", " f", "g");
  }

  /** The simpler parser's extra empty line adds nothing, so its agreement carries over to the text. */
  lemma {:induction false} ParsersAgreeOnText(fs: seq<FileDiff>)
    requires DiffOk(fs) && DiffAdded.NoGitlinks(fs) && AllClean(DiffLines(fs), BREAKS)
    ensures var text := Join(DiffLines(fs));
            DiffAdded.Steps(DiffAdded.BEGIN, SplitNewlines(text)).added == DiffAdded.AddedLines(Parse(SplitLines(text)))
            <==> DiffAdded.AllFollowable(fs)
  {
    var lines := DiffLines(fs);
    SplitLinesOfJoin(lines);
    assert AllClean(lines, {'\n'});
    SplitNewlinesOfJoin(lines);
    DiffAdded.StepsConcat(DiffAdded.BEGIN, lines, [""]);
    DiffAdded.StepsOne(DiffAdded.Steps(DiffAdded.BEGIN, lines), "");
    DiffAdded.HeadShows("");
    DiffAdded.ParsersAgreeIff(fs);
  }
}
