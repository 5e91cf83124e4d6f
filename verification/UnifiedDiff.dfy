/**
 Unified diffs as git prints them (the "Diff -u or -U Output Format" of the POSIX
 diff utility, with git's extended headers): an edit script, the two texts it
 relates, and its printed lines.
 */
module UnifiedDiff {
  import opened Common
  import Decimal

  datatype Op = Context(text: string) | Added(text: string) | Removed(text: string) | NoNewline

  /** A stretch of lines that is not shown, or a hunk with whatever follows its second `@@`. */
  datatype Segment = Unchanged(lines: seq<string>) | Hunk(ops: seq<Op>, section: string)

  /** Two paths, `None` standing for `/dev/null`, and how one text becomes the other. */
  datatype Text = Text(oldPath: Option<string>, newPath: Option<string>, script: seq<Segment>)

  /** One file of a diff: what follows `diff --git `, git's extended header lines, and the textual part if there is one. */
  datatype FileDiff = FileDiff(git: string, meta: seq<string>, text: Option<Text>)

  /* ---- The two texts ---- */

  function OldPart(op: Op): (r: seq<string>) {
    if op.Context? || op.Removed? then [op.text] else []
  }

  function NewPart(op: Op): (r: seq<string>) {
    if op.Context? || op.Added? then [op.text] else []
  }

  function OldSide(ops: seq<Op>): (r: seq<string>) {
    if ops == [] then [] else OldPart(ops[0]) + OldSide(ops[1..])
  }

  function NewSide(ops: seq<Op>): (r: seq<string>) {
    if ops == [] then [] else NewPart(ops[0]) + NewSide(ops[1..])
  }

  function OldPiece(segment: Segment): (r: seq<string>) {
    if segment.Unchanged? then segment.lines else OldSide(segment.ops)
  }

  function NewPiece(segment: Segment): (r: seq<string>) {
    if segment.Unchanged? then segment.lines else NewSide(segment.ops)
  }

  function OldText(script: seq<Segment>): (r: seq<string>) {
    if script == [] then [] else OldPiece(script[0]) + OldText(script[1..])
  }

  function NewText(script: seq<Segment>): (r: seq<string>) {
    if script == [] then [] else NewPiece(script[0]) + NewText(script[1..])
  }

  /* ---- Printing ---- */

  /** The first line of a range, or the line before an empty one. */
  function Start(consumed: nat, count: nat): (n: nat) {
    if count == 0 then consumed else consumed + 1
  }

  /** A count of one is left out. */
  function CountSuffix(count: nat): (s: string) {
    if count == 1 then "" else "," + Decimal.Print(count)
  }

  function Concat(parts: seq<string>): (s: string) {
    if parts == [] then "" else parts[0] + Concat(parts[1..])
  }

  function Header(oldStart: nat, oldCount: nat, newStart: nat, newCount: nat, section: string): (s: string) {
    Concat(["@@ -", Decimal.Print(oldStart), CountSuffix(oldCount), " +", Decimal.Print(newStart), CountSuffix(newCount), " @@", section])
  }

  lemma {:induction false} ConcatCons(part: string, parts: seq<string>)
    ensures Concat([part] + parts) == part + Concat(parts)
  {
    assert ([part] + parts)[1..] == parts;
  }

  /** A header, with what follows the second number set apart. */
  lemma {:induction false} HeaderShape(oldStart: nat, oldCount: nat, newStart: nat, newCount: nat, section: string)
    returns (tail: string)
    ensures tail != "" && !Decimal.IsDigit(tail[0])
    ensures Header(oldStart, oldCount, newStart, newCount, section)
         == "@@ -" + (Decimal.Print(oldStart) + (CountSuffix(oldCount) + (" +" + (Decimal.Print(newStart) + tail))))
  {
    var a, b, c, d := Decimal.Print(oldStart), CountSuffix(oldCount), Decimal.Print(newStart), CountSuffix(newCount);
    var rest := [d, " @@", section];
    tail := Concat(rest);
    assert Concat([" @@", section]) == " @@" + Concat([section]) by { ConcatCons(" @@", [section]); }
    ConcatCons(d, [" @@", section]);
    assert [d] + [" @@", section] == rest;
    ConcatCons(c, rest);
    ConcatCons(" +", [c] + rest);
    ConcatCons(b, [" +"] + ([c] + rest));
    ConcatCons(a, [b] + ([" +"] + ([c] + rest)));
    ConcatCons("@@ -", [a] + ([b] + ([" +"] + ([c] + rest))));
    assert ["@@ -"] + ([a] + ([b] + ([" +"] + ([c] + rest)))) == ["@@ -", a, b, " +", c, d, " @@", section];
  }

  function OpLine(op: Op): (s: string) {
    match op
    case Context(t) => " " + t
    case Added(t) => "+" + t
    case Removed(t) => "-" + t
    case NoNewline => "\\ No newline at end of file"
  }

  function OpLines(ops: seq<Op>): (r: seq<string>) {
    if ops == [] then [] else [OpLine(ops[0])] + OpLines(ops[1..])
  }

  /** A hunk that follows `o` lines of the old text and `n` of the new. */
  function HunkLines(ops: seq<Op>, section: string, o: nat, n: nat): (r: seq<string>) {
    var oc, nc := |OldSide(ops)|, |NewSide(ops)|;
    [Header(Start(o, oc), oc, Start(n, nc), nc, section)] + OpLines(ops)
  }

  function SegmentLines(segment: Segment, o: nat, n: nat): (r: seq<string>) {
    if segment.Unchanged? then [] else HunkLines(segment.ops, segment.section, o, n)
  }

  /** The hunks of a script, given how many lines of either text lie before it. */
  function ScriptLines(script: seq<Segment>, o: nat, n: nat): (r: seq<string>) {
    if script == [] then []
    else SegmentLines(script[0], o, n) + ScriptLines(script[1..], o + |OldPiece(script[0])|, n + |NewPiece(script[0])|)
  }

  function OldPathLine(path: Option<string>): (s: string) {
    "--- " + if path.Some? then "a/" + path.value else "/dev/null"
  }

  function NewPathLine(path: Option<string>): (s: string) {
    "+++ " + if path.Some? then "b/" + path.value else "/dev/null"
  }

  /** Everything before a file's first hunk. */
  function HeadLines(f: FileDiff): (r: seq<string>) {
    ["diff --git " + f.git] + f.meta +
    if f.text.None? then [] else [OldPathLine(f.text.value.oldPath), NewPathLine(f.text.value.newPath)]
  }

  function FileLines(f: FileDiff): (r: seq<string>) {
    HeadLines(f) + if f.text.None? then [] else ScriptLines(f.text.value.script, 0, 0)
  }

  function DiffLines(fs: seq<FileDiff>): (r: seq<string>) {
    if fs == [] then [] else FileLines(fs[0]) + DiffLines(fs[1..])
  }

  /* ---- What a well-formed diff never prints ---- */

  predicate IsSpace(c: char) {
    || c == ' ' || '\t' <= c <= '\r' || '\U{1c}' <= c <= '\U{1f}' || c == '\U{85}' || c == '\U{a0}' || c == '\U{1680}'
    || '\U{2000}' <= c <= '\U{200a}' || c == '\U{2028}' || c == '\U{2029}' || c == '\U{202f}' || c == '\U{205f}' || c == '\U{3000}'
  }

  /** Python's whitespace, by code point. */
  lemma {:induction false} SpaceCodes(c: char)
    ensures IsSpace(c) <==> var n := c as int;
            || 9 <= n <= 13 || 28 <= n <= 32 || n == 133 || n == 160 || n == 5760 || 8192 <= n <= 8202
            || n == 8232 || n == 8233 || n == 8239 || n == 8287 || n == 12288
  {
  }

  function LeftEdge(s: string, i: nat): (lo: nat)
    requires i <= |s|
    ensures i <= lo <= |s|
    decreases |s| - i
  {
    if i < |s| && IsSpace(s[i]) then LeftEdge(s, i + 1) else i
  }

  function RightEdge(s: string, lo: nat, j: nat): (hi: nat)
    requires lo <= j <= |s|
    ensures lo <= hi <= j
  {
    if lo < j && IsSpace(s[j - 1]) then RightEdge(s, lo, j - 1) else j
  }

  /** Trimming whitespace at both ends. */
  function Strip(s: string): (r: string) {
    var lo := LeftEdge(s, 0);
    s[lo..RightEdge(s, lo, |s|)]
  }

  predicate Blank(s: string) {
    forall i :: 0 <= i < |s| ==> IsSpace(s[i])
  }

  lemma {:induction false} LeftEdgeStops(s: string, i: nat)
    requires i <= |s|
    ensures var k := LeftEdge(s, i); (k < |s| ==> !IsSpace(s[k])) && Blank(s[i..k])
    decreases |s| - i
  {
    if i < |s| && IsSpace(s[i]) {
      LeftEdgeStops(s, i + 1);
      assert s[i..LeftEdge(s, i)] == [s[i]] + s[i + 1..LeftEdge(s, i)];
    }
  }

  lemma {:induction false} RightEdgeStops(s: string, lo: nat, j: nat)
    requires lo <= j <= |s|
    ensures var k := RightEdge(s, lo, j); (k > lo ==> !IsSpace(s[k - 1])) && Blank(s[k..j])
  {
    if lo < j && IsSpace(s[j - 1]) {
      RightEdgeStops(s, lo, j - 1);
      assert s[RightEdge(s, lo, j)..j] == s[RightEdge(s, lo, j)..j - 1] + [s[j - 1]];
    }
  }

  lemma {:induction false} ThreeParts(s: string, lo: nat, hi: nat)
    requires lo <= hi <= |s|
    ensures s == s[0..lo] + s[lo..hi] + s[hi..|s|]
  {
  }

  lemma {:induction false} EndsOf(s: string, lo: nat, hi: nat, core: string)
    requires lo < hi <= |s| && core == s[lo..hi]
    ensures core[0] == s[lo] && core[|core| - 1] == s[hi - 1]
  {
  }

  /** Trimming takes whitespace from both ends ... */
  lemma {:induction false} StripParts(s: string) returns (left: string, right: string)
    ensures s == left + Strip(s) + right && Blank(left) && Blank(right)
  {
    var lo := LeftEdge(s, 0);
    var hi := RightEdge(s, lo, |s|);
    LeftEdgeStops(s, 0);
    RightEdgeStops(s, lo, |s|);
    ThreeParts(s, lo, hi);
    left, right := s[0..lo], s[hi..|s|];
  }

  /** ... and all of it. */
  lemma {:induction false} StripEnds(s: string)
    ensures Strip(s) == "" || (!IsSpace(Strip(s)[0]) && !IsSpace(Strip(s)[|Strip(s)| - 1]))
  {
    var lo := LeftEdge(s, 0);
    var hi := RightEdge(s, lo, |s|);
    if lo < hi {
      LeftEdgeStops(s, 0);
      RightEdgeStops(s, lo, |s|);
      EndsOf(s, lo, hi, Strip(s));
    }
  }

  /** A path as it is read back: git prints it after `a/` or `b/`, and whitespace at its end is trimmed away. */
  function Trimmed(path: string): (r: string) {
    path[..RightEdge(path, 0, |path|)]
  }

  /** What is trimmed away is whitespace, and all of it: the rest is empty or ends with something else. */
  lemma {:induction false} TrimmedParts(path: string) returns (blank: string)
    ensures path == Trimmed(path) + blank && Blank(blank)
    ensures Trimmed(path) == "" || !IsSpace(Trimmed(path)[|Trimmed(path)| - 1])
  {
    RightEdgeStops(path, 0, |path|);
    blank := path[RightEdge(path, 0, |path|)..|path|];
  }

  lemma {:induction false} RightEdgeAfter(mark: string, path: string, j: nat)
    requires mark != "" && !IsSpace(mark[|mark| - 1]) && j <= |path|
    ensures RightEdge(mark + path, 0, |mark| + j) == |mark| + RightEdge(path, 0, j)
  {
    if j > 0 && IsSpace(path[j - 1]) {
      RightEdgeAfter(mark, path, j - 1);
    }
  }

  lemma {:induction false} StripMarked(mark: string, path: string)
    requires mark != "" && !IsSpace(mark[0]) && !IsSpace(mark[|mark| - 1])
    ensures Strip(mark + path) == mark + Trimmed(path)
  {
    RightEdgeAfter(mark, path, |path|);
  }

  /** A path that is not the name git prints for no file at all. */
  predicate PathOk(path: Option<string>) {
    path.Some? ==> Trimmed(path.value) != "/dev/null"
  }

  /** An extended header line is none of the lines that carry structure. */
  predicate MetaOk(line: string) {
    (line == "" || (line[0] != '+' && line[0] != '-' && line[0] != '@')) && !StartsWith(line, "diff --git ")
  }

  predicate FileOk(f: FileDiff) {
    && (forall i :: 0 <= i < |f.meta| ==> MetaOk(f.meta[i]))
    && (f.text.Some? ==> var t := f.text.value; PathOk(t.oldPath) && PathOk(t.newPath) && (t.oldPath.Some? || t.newPath.Some?))
  }

  predicate DiffOk(fs: seq<FileDiff>) {
    forall i :: 0 <= i < |fs| ==> FileOk(fs[i])
  }

  /* ---- Numbers in a hunk header ---- */

  /** How many leading characters are digits. */
  function DigitRun(s: string): (k: nat)
    ensures k <= |s| && Decimal.AllDigits(s[..k])
  {
    if s != "" && Decimal.IsDigit(s[0]) then
      var k := DigitRun(s[1..]);
      assert s[..1 + k] == [s[0]] + s[1..][..k];
      1 + k
    else 0
  }

  lemma {:induction false} DigitRunOf(digits: string, rest: string)
    requires Decimal.AllDigits(digits) && (rest == "" || !Decimal.IsDigit(rest[0]))
    ensures DigitRun(digits + rest) == |digits| && (digits + rest)[..|digits|] == digits
  {
    if digits == "" {
      assert digits + rest == rest;
    } else {
      assert (digits + rest)[1..] == digits[1..] + rest;
      DigitRunOf(digits[1..], rest);
    }
  }
}
