/** Python's two ways of cutting a text into lines. */
module LineBreaks {
  /** The characters at which `str.splitlines` ends a line. */
  const BREAKS := {'\n', '\r', '\U{b}', '\U{c}', '\U{1c}', '\U{1d}', '\U{1e}', '\U{85}', '\U{2028}', '\U{2029}'}

  predicate Clean(line: string, stops: set<char>) {
    forall i :: 0 <= i < |line| ==> line[i] !in stops
  }

  predicate AllClean(lines: seq<string>, stops: set<char>) {
    forall i :: 0 <= i < |lines| ==> Clean(lines[i], stops)
  }

  /** How many characters come before the first stop. */
  function Until(s: string, stops: set<char>): (k: nat)
    ensures k <= |s| && Clean(s[..k], stops) && (k < |s| ==> s[k] in stops)
  {
    if s == "" || s[0] in stops then 0
    else
      var k := Until(s[1..], stops);
      assert s[..1 + k] == [s[0]] + s[1..][..k];
      1 + k
  }

  /** Where the line after the break at `k` begins. */
  function Behind(s: string, k: nat): (j: nat)
    requires k < |s|
    ensures k < j <= |s|
  {
    if s[k] == '\r' && k + 1 < |s| && s[k + 1] == '\n' then k + 2 else k + 1
  }

  /** `text.splitlines()`: a carriage return and the newline after it are one break, and a final break starts no line. */
  function SplitLines(s: string): (lines: seq<string>) {
    if s == "" then []
    else
      var k := Until(s, BREAKS);
      if k == |s| then [s] else [s[..k]] + SplitLines(s[Behind(s, k)..])
  }

  /** `text.split("\n")`. */
  function SplitNewlines(s: string): (lines: seq<string>)
    decreases |s|
  {
    var k := Until(s, {'\n'});
    if k == |s| then [s] else [s[..k]] + SplitNewlines(s[k + 1..])
  }

  /** A text of lines, each ended by a newline. */
  function Join(lines: seq<string>): (s: string) {
    if lines == [] then "" else lines[0] + "\n" + Join(lines[1..])
  }

  lemma {:induction false} UntilHere(line: string, rest: string, stops: set<char>)
    requires Clean(line, stops) && '\n' in stops
    ensures Until(line + "\n" + rest, stops) == |line|
  {
    var s := line + "\n" + rest;
    if line != "" {
      assert s[1..] == line[1..] + "\n" + rest;
      assert Clean(line[1..], stops);
      UntilHere(line[1..], rest, stops);
    }
  }

  lemma {:induction false} JoinParts(lines: seq<string>)
    requires lines != []
    ensures var s, k := Join(lines), |lines[0]|; k < |s| && s[k] == '\n' && s[..k] == lines[0] && s[k + 1..] == Join(lines[1..])
  {
  }

  lemma {:induction false} SplitLinesClean(s: string)
    ensures AllClean(SplitLines(s), BREAKS)
    decreases |s|
  {
    var k := Until(s, BREAKS);
    if s == "" {
    } else if k == |s| {
      assert s[..k] == s;
    } else {
      SplitLinesClean(s[Behind(s, k)..]);
    }
  }

  lemma {:induction false} SplitNewlinesClean(s: string)
    ensures AllClean(SplitNewlines(s), {'\n'})
    decreases |s|
  {
    var k := Until(s, {'\n'});
    if k == |s| {
      assert s[..k] == s;
    } else {
      SplitNewlinesClean(s[k + 1..]);
    }
  }

  lemma {:induction false} SplitLinesOfJoin(lines: seq<string>)
    requires AllClean(lines, BREAKS)
    ensures SplitLines(Join(lines)) == lines
  {
    if lines != [] {
      UntilHere(lines[0], Join(lines[1..]), BREAKS);
      JoinParts(lines);
      SplitLinesOfJoin(lines[1..]);
      assert [lines[0]] + lines[1..] == lines;
    }
  }

  lemma {:induction false} NewlineFirst(s: string, k: nat, first: string, rest: string)
    requires k == Until(s, {'\n'}) < |s| && first == s[..k] && rest == s[k + 1..]
    ensures SplitNewlines(s) == [first] + SplitNewlines(rest)
  {
  }

  lemma {:induction false} Behead(lines: seq<string>, more: seq<string>)
    requires lines != []
    ensures [lines[0]] + (lines[1..] + more) == lines + more
  {
  }

  lemma {:induction false} SplitNewlinesOfJoin(lines: seq<string>)
    requires AllClean(lines, {'\n'})
    ensures SplitNewlines(Join(lines)) == lines + [""]
  {
    if lines != [] {
      UntilHere(lines[0], Join(lines[1..]), {'\n'});
      JoinParts(lines);
      SplitNewlinesOfJoin(lines[1..]);
      NewlineFirst(Join(lines), |lines[0]|, lines[0], Join(lines[1..]));
      Behead(lines, [""]);
    }
  }

  /** Splitting recovers the printed lines if and only if none holds a character that Python takes for the end of a line. */
  lemma {:induction false} SplitLinesIff(lines: seq<string>)
    ensures SplitLines(Join(lines)) == lines <==> AllClean(lines, BREAKS)
  {
    SplitLinesClean(Join(lines));
    if AllClean(lines, BREAKS) {
      SplitLinesOfJoin(lines);
    }
  }

  lemma {:induction false} PrefixClean(a: seq<string>, b: seq<string>, stops: set<char>)
    requires AllClean(a + b, stops)
    ensures AllClean(a, stops)
  {
    assert forall i :: 0 <= i < |a| ==> a[i] == (a + b)[i];
  }

  /** The same for splitting at newlines, which also finds an empty last line. */
  lemma {:induction false} SplitNewlinesIff(lines: seq<string>)
    ensures SplitNewlines(Join(lines)) == lines + [""] <==> AllClean(lines, {'\n'})
  {
    SplitNewlinesClean(Join(lines));
    if AllClean(lines, {'\n'}) {
      SplitNewlinesOfJoin(lines);
    }
    if SplitNewlines(Join(lines)) == lines + [""] {
      PrefixClean(lines, [""], {'\n'});
    }
  }

  lemma {:induction false} UntilBreak(line: string, rest: string, c: char)
    requires Clean(line, BREAKS) && c in BREAKS
    ensures Until(line + [c] + rest, BREAKS) == |line|
  {
    var s := line + [c] + rest;
    if line != "" {
      assert s[1..] == line[1..] + [c] + rest;
      UntilBreak(line[1..], rest, c);
    }
  }

  /** A carriage return and the newline behind it end one line; any other break ends one by itself. */
  lemma {:induction false} SplitAtBreak(line: string, rest: string, c: char)
    requires Clean(line, BREAKS) && c in BREAKS
    ensures SplitLines(line + "\r\n" + rest) == [line] + SplitLines(rest)
    ensures !(c == '\r' && rest != "" && rest[0] == '\n') ==> SplitLines(line + [c] + rest) == [line] + SplitLines(rest)
  {
    var s, t := line + "\r\n" + rest, line + [c] + rest;
    assert s == line + ['\r'] + (['\n'] + rest);
    UntilBreak(line, ['\n'] + rest, '\r');
    SplitFirst(s, |line|, line, rest);
    UntilBreak(line, rest, c);
    if !(c == '\r' && rest != "" && rest[0] == '\n') {
      SplitFirst(t, |line|, line, rest);
    }
  }

  /* ---- Line by line ---- */

  /** What one printed line becomes when its text is cut at every break. */
  function Pieces(line: string): (pieces: seq<string>) {
    SplitLines(line + "\n")
  }

  function Cut(lines: seq<string>): (pieces: seq<string>) {
    if lines == [] then [] else Pieces(lines[0]) + Cut(lines[1..])
  }

  /** A text that ends with a newline, and the same text with something behind it. */
  predicate Ended(u: string, w: string, t: string) {
    u != "" && u[|u| - 1] == '\n' && w == u + t
  }

  lemma {:induction false} UntilEnded(u: string, w: string, t: string)
    requires Ended(u, w, t)
    ensures Until(u, BREAKS) < |u| && Until(w, BREAKS) == Until(u, BREAKS)
  {
    if u[0] !in BREAKS {
      assert w[1..] == u[1..] + t;
      UntilEnded(u[1..], w[1..], t);
    }
  }

  lemma {:induction false} BehindEnded(u: string, w: string, t: string, k: nat)
    requires Ended(u, w, t) && k < |u|
    ensures var j := Behind(u, k);
            && Behind(w, k) == j && w[..k] == u[..k]
            && if j == |u| then u[j..] == "" && w[j..] == t else Ended(u[j..], w[j..], t)
  {
  }

  /** The first piece, and what is left to cut. */
  lemma {:induction false} SplitFirst(s: string, k: nat, first: string, rest: string)
    requires k == Until(s, BREAKS) < |s| && first == s[..k] && rest == s[Behind(s, k)..]
    ensures SplitLines(s) == [first] + SplitLines(rest)
  {
  }

  lemma {:induction false} Glue(first: string, whole: seq<string>, a: seq<string>, x: seq<string>, b: seq<string>, c: seq<string>)
    requires whole == [first] + a && x == [first] + b && a == b + c
    ensures whole == x + c
  {
  }

  /** A newline ends its line whatever follows. */
  lemma {:induction false} SplitEnded(u: string, w: string, t: string)
    requires Ended(u, w, t)
    ensures SplitLines(w) == SplitLines(u) + SplitLines(t)
    decreases |u|
  {
    var k := Until(u, BREAKS);
    UntilEnded(u, w, t);
    BehindEnded(u, w, t, k);
    var j := Behind(u, k);
    var u', w' := u[j..], w[j..];
    SplitFirst(u, k, u[..k], u');
    SplitFirst(w, k, u[..k], w');
    if j < |u| {
      SplitEnded(u', w', t);
    }
    Glue(u[..k], SplitLines(w), SplitLines(w'), SplitLines(u), SplitLines(u'), SplitLines(t));
  }

  /** Cutting a text of lines is cutting its lines. */
  lemma {:induction false} SplitIsCut(lines: seq<string>)
    ensures SplitLines(Join(lines)) == Cut(lines)
  {
    if lines != [] {
      SplitEnded(lines[0] + "\n", Join(lines), Join(lines[1..]));
      SplitIsCut(lines[1..]);
    }
  }

  lemma {:induction false} CutConcat(a: seq<string>, b: seq<string>)
    ensures Cut(a + b) == Cut(a) + Cut(b)
  {
    if a == [] {
      assert a + b == b;
    } else {
      assert (a + b)[1..] == a[1..] + b;
      CutConcat(a[1..], b);
      assert Pieces(a[0]) + (Cut(a[1..]) + Cut(b)) == (Pieces(a[0]) + Cut(a[1..])) + Cut(b);
    }
  }

  lemma {:induction false} CleanPieces(line: string)
    requires Clean(line, BREAKS)
    ensures Pieces(line) == [line]
  {
    UntilHere(line, "", BREAKS);
    assert line + "\n" + "" == line + "\n";
    SplitFirst(line + "\n", |line|, line, "");
  }

  lemma {:induction false} CleanCut(lines: seq<string>)
    requires AllClean(lines, BREAKS)
    ensures Cut(lines) == lines
  {
    if lines != [] {
      CleanPieces(lines[0]);
      CleanCut(lines[1..]);
      assert [lines[0]] + lines[1..] == lines;
    }
  }

  lemma {:induction false} UntilAfter(mark: string, line: string)
    requires Clean(mark, BREAKS)
    ensures Until(mark + line, BREAKS) == |mark| + Until(line, BREAKS)
  {
    if mark == "" {
      assert mark + line == line;
    } else {
      assert (mark + line)[1..] == mark[1..] + line;
      UntilAfter(mark[1..], line);
    }
  }

  lemma {:induction false} BehindAfter(mark: string, u: string, k: nat)
    requires k < |u|
    ensures var w := mark + u;
            && Behind(w, |mark| + k) == |mark| + Behind(u, k)
            && w[..|mark| + k] == mark + u[..k] && w[|mark| + Behind(u, k)..] == u[Behind(u, k)..]
  {
  }

  lemma {:induction false} SplitMarked(mark: string, u: string, w: string)
    requires Clean(mark, BREAKS) && w == mark + u && Ended(u, u, "")
    ensures SplitLines(u) != [] && SplitLines(w) == [mark + SplitLines(u)[0]] + SplitLines(u)[1..]
  {
    var k := Until(u, BREAKS);
    UntilAfter(mark, u);
    UntilEnded(u, u, "");
    BehindAfter(mark, u, k);
    var rest := u[Behind(u, k)..];
    SplitFirst(u, k, u[..k], rest);
    SplitFirst(w, |mark| + k, mark + u[..k], rest);
    ConsParts(SplitLines(u), u[..k], SplitLines(rest));
  }

  lemma {:induction false} ConsParts(whole: seq<string>, first: string, rest: seq<string>)
    requires whole == [first] + rest
    ensures whole != [] && whole[0] == first && whole[1..] == rest
  {
  }

  /** A clean beginning stays with the first piece. */
  lemma {:induction false} PiecesAfter(mark: string, line: string)
    requires Clean(mark, BREAKS)
    ensures Pieces(line) != [] && Pieces(mark + line) == [mark + Pieces(line)[0]] + Pieces(line)[1..]
  {
    SplitMarked(mark, line + "\n", mark + line + "\n");
  }
}
