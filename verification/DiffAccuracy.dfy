/** What the hunk parser's line numbers mean: positions in the two texts a diff relates. */
module DiffAccuracy {
  import opened UnifiedDiff
  import opened DiffHunks

  /** The record's number is a 1-based position of its text: in the old text for a removed line, else in the new one. */
  predicate Accurate(r: Record, was: seq<string>, now: seq<string>) {
    var text := if r.kind.Minus? then was else now;
    1 <= r.number <= |text| && text[r.number - 1] == r.text
  }

  ghost predicate AllAccurate(records: seq<Record>, was: seq<string>, now: seq<string>) {
    forall r :: r in records ==> Accurate(r, was, now)
  }

  /** `side` occurs in `text` from the 1-based position `start` on; an empty side occurs anywhere. */
  predicate Occurs(side: seq<string>, text: seq<string>, start: nat) {
    side == [] || (1 <= start <= |text| && text[start - 1] == side[0] && Occurs(side[1..], text, start + 1))
  }

  lemma {:induction false} OccursHere(side: seq<string>, rest: seq<string>, text: seq<string>, start: nat)
    requires 1 <= start <= |text| + 1 && text[start - 1..] == side + rest
    ensures Occurs(side, text, start)
    decreases |side|
  {
    if side != [] {
      assert text[start - 1..][0] == text[start - 1] && (side + rest)[0] == side[0];
      assert text[start..] == text[start - 1..][1..] == side[1..] + rest;
      OccursHere(side[1..], rest, text, start + 1);
    }
  }

  /** A printed range's start, and where the text goes on after it. */
  lemma {:induction false} SideOccurs(side: seq<string>, rest: seq<string>, text: seq<string>, before: nat)
    requires before <= |text| && text[before..] == side + rest
    ensures Occurs(side, text, Start(before, |side|))
    ensures before + |side| <= |text| && text[before + |side|..] == rest
  {
    OccursHere(side, rest, text, before + 1);
    assert |text| == before + |side + rest|;
    assert text[before + |side|..] == text[before..][|side|..];
  }

  /** What a body line shows of a text, if anything, is at `start`. */
  predicate Shows(part: seq<string>, text: seq<string>, start: nat) {
    part != [] ==> 1 <= start <= |text| && text[start - 1] == part[0]
  }

  lemma {:induction false} OccursSplit(whole: seq<string>, part: seq<string>, side: seq<string>, text: seq<string>, start: nat)
    requires |part| <= 1 && whole == part + side && Occurs(whole, text, start)
    ensures Shows(part, text, start) && Occurs(side, text, start + |part|)
  {
    if part == [] {
      assert whole == side;
    } else {
      assert whole[1..] == side;
    }
  }

  lemma {:induction false} RecordAccurate(op: Op, oldNo: nat, newNo: nat, was: seq<string>, now: seq<string>)
    requires Shows(OldPart(op), was, oldNo) && Shows(NewPart(op), now, newNo)
    ensures AllAccurate(RecordOf(op, oldNo, newNo), was, now)
  {
  }

  lemma {:induction false} AllAccurateConcat(a: seq<Record>, b: seq<Record>, whole: seq<Record>, was: seq<string>, now: seq<string>)
    requires AllAccurate(a, was, now) && AllAccurate(b, was, now) && whole == a + b
    ensures AllAccurate(whole, was, now)
  {
  }

  lemma {:induction false} OldShows(ops: seq<Op>, was: seq<string>, oldNo: nat)
    requires ops != [] && Occurs(OldSide(ops), was, oldNo)
    ensures Shows(OldPart(ops[0]), was, oldNo) && Occurs(OldSide(ops[1..]), was, oldNo + |OldPart(ops[0])|)
  {
    OccursSplit(OldSide(ops), OldPart(ops[0]), OldSide(ops[1..]), was, oldNo);
  }

  lemma {:induction false} NewShows(ops: seq<Op>, now: seq<string>, newNo: nat)
    requires ops != [] && Occurs(NewSide(ops), now, newNo)
    ensures Shows(NewPart(ops[0]), now, newNo) && Occurs(NewSide(ops[1..]), now, newNo + |NewPart(ops[0])|)
  {
    OccursSplit(NewSide(ops), NewPart(ops[0]), NewSide(ops[1..]), now, newNo);
  }

  lemma {:induction false} RecordsAccurate(ops: seq<Op>, oldNo: nat, newNo: nat, was: seq<string>, now: seq<string>, records: seq<Record>)
    requires Occurs(OldSide(ops), was, oldNo) && Occurs(NewSide(ops), now, newNo) && records == Records(ops, oldNo, newNo)
    ensures AllAccurate(records, was, now)
    decreases |ops|
  {
    if ops == [] {
    } else {
      var o', n' := oldNo + |OldPart(ops[0])|, newNo + |NewPart(ops[0])|;
      var x, y := RecordOf(ops[0], oldNo, newNo), Records(ops[1..], o', n');
      assert records == x + y;
      OldShows(ops, was, oldNo);
      NewShows(ops, now, newNo);
      RecordAccurate(ops[0], oldNo, newNo, was, now);
      RecordsAccurate(ops[1..], o', n', was, now, y);
      AllAccurateConcat(x, y, records, was, now);
    }
  }

  ghost predicate YieldAccurate(y: Yield, path: string, was: seq<string>, now: seq<string>) {
    y.path == path && AllAccurate(y.records, was, now)
  }

  ghost predicate AllYieldsAccurate(hunks: seq<Yield>, path: string, was: seq<string>, now: seq<string>) {
    forall y :: y in hunks ==> YieldAccurate(y, path, was, now)
  }

  lemma {:induction false} SegmentAccurate(path: string, segment: Segment, o: nat, n: nat, was: seq<string>, now: seq<string>)
    requires Occurs(OldPiece(segment), was, Start(o, |OldPiece(segment)|)) && Occurs(NewPiece(segment), now, Start(n, |NewPiece(segment)|))
    ensures AllYieldsAccurate(SegmentYields(path, segment, o, n), path, was, now)
  {
    if segment.Hunk? {
      var oldNo, newNo := Start(o, |OldPiece(segment)|), Start(n, |NewPiece(segment)|);
      RecordsAccurate(segment.ops, oldNo, newNo, was, now, Records(segment.ops, oldNo, newNo));
    }
  }

  lemma {:induction false} AllYieldsConcat(a: seq<Yield>, b: seq<Yield>, whole: seq<Yield>, path: string, was: seq<string>, now: seq<string>)
    requires AllYieldsAccurate(a, path, was, now) && AllYieldsAccurate(b, path, was, now) && whole == a + b
    ensures AllYieldsAccurate(whole, path, was, now)
  {
  }

  /** How far the two texts have been read once a segment is behind. */
  lemma {:induction false} SegmentPlaced(script: seq<Segment>, o: nat, n: nat, was: seq<string>, now: seq<string>)
    requires script != [] && o <= |was| && was[o..] == OldText(script) && n <= |now| && now[n..] == NewText(script)
    ensures var before, after := OldPiece(script[0]), NewPiece(script[0]);
            && Occurs(before, was, Start(o, |before|)) && Occurs(after, now, Start(n, |after|))
            && o + |before| <= |was| && was[o + |before|..] == OldText(script[1..])
            && n + |after| <= |now| && now[n + |after|..] == NewText(script[1..])
  {
    SideOccurs(OldPiece(script[0]), OldText(script[1..]), was, o);
    SideOccurs(NewPiece(script[0]), NewText(script[1..]), now, n);
  }

  lemma {:induction false} ScriptAccurate(path: string, script: seq<Segment>, o: nat, n: nat, was: seq<string>, now: seq<string>)
    requires o <= |was| && was[o..] == OldText(script)
    requires n <= |now| && now[n..] == NewText(script)
    ensures AllYieldsAccurate(ScriptYields(path, script, o, n), path, was, now)
    decreases |script|
  {
    if script == [] {
    } else {
      var o', n' := o + |OldPiece(script[0])|, n + |NewPiece(script[0])|;
      var x, y := SegmentYields(path, script[0], o, n), ScriptYields(path, script[1..], o', n');
      var whole := ScriptYields(path, script, o, n);
      assert whole == x + y;
      SegmentPlaced(script, o, n, was, now);
      SegmentAccurate(path, script[0], o, n, was, now);
      ScriptAccurate(path, script[1..], o', n', was, now);
      AllYieldsConcat(x, y, whole, path, was, now);
    }
  }

  /** The yield reports places that exist in the two texts of a file of the diff. */
  ghost predicate Explains(f: FileDiff, y: Yield) {
    && FileOk(f) && f.text.Some? && !IsGitlink(f)
    && var t := f.text.value; YieldAccurate(y, PathOf(t), OldText(t.script), NewText(t.script))
  }

  lemma {:induction false} YieldsExplained(fs: seq<FileDiff>)
    requires DiffOk(fs)
    ensures forall y :: y in DiffYields(fs) ==> exists f :: f in fs && Explains(f, y)
    decreases |fs|
  {
    if fs == [] {
    } else {
      forall y | y in DiffYields(fs) ensures exists f :: f in fs && Explains(f, y) {
        if y in FileYields(fs[0]) {
          var t := fs[0].text.value;
          ScriptAccurate(PathOf(t), t.script, 0, 0, OldText(t.script), NewText(t.script));
          assert Explains(fs[0], y);
        } else {
          assert y in DiffYields(fs[1..]);
          YieldsExplained(fs[1..]);
          var f :| f in fs[1..] && Explains(f, y);
          assert f in fs;
        }
      }
    }
  }

  /** Every line number the parser reports from a printed diff indexes exactly the reported text. */
  lemma {:induction false} EveryNumberIsReal(fs: seq<FileDiff>)
    requires DiffOk(fs)
    ensures forall y :: y in Parse(DiffLines(fs)) ==> exists f :: f in fs && Explains(f, y)
  {
    ParseInvertsPrint(fs);
    YieldsExplained(fs);
  }

  /* ---- Nothing is lost or invented ---- */

  function Count(kind: Kind, records: seq<Record>): (n: nat) {
    if records == [] then 0 else (if records[0].kind == kind then 1 else 0) + Count(kind, records[1..])
  }

  function CountAll(kind: Kind, hunks: seq<Yield>): (n: nat) {
    if hunks == [] then 0 else Count(kind, hunks[0].records) + CountAll(kind, hunks[1..])
  }

  lemma {:induction false} CountConcat(kind: Kind, a: seq<Record>, b: seq<Record>)
    ensures Count(kind, a + b) == Count(kind, a) + Count(kind, b)
    decreases |a|
  {
    if a == [] {
      assert a + b == b;
    } else {
      assert (a + b)[1..] == a[1..] + b;
      CountConcat(kind, a[1..], b);
    }
  }

  lemma {:induction false} CountAllConcat(kind: Kind, a: seq<Yield>, b: seq<Yield>)
    ensures CountAll(kind, a + b) == CountAll(kind, a) + CountAll(kind, b)
    decreases |a|
  {
    if a == [] {
      assert a + b == b;
    } else {
      assert (a + b)[1..] == a[1..] + b;
      CountAllConcat(kind, a[1..], b);
    }
  }

  lemma {:induction false} RecordBalance(op: Op, o: nat, n: nat)
    ensures |NewPart(op)| + Count(Minus, RecordOf(op, o, n)) == |OldPart(op)| + Count(Plus, RecordOf(op, o, n))
  {
    var records := RecordOf(op, o, n);
    assert records != [] ==> records[1..] == [];
  }

  lemma {:induction false} RecordsBalance(ops: seq<Op>, o: nat, n: nat, records: seq<Record>)
    requires records == Records(ops, o, n)
    ensures |NewSide(ops)| + Count(Minus, records) == |OldSide(ops)| + Count(Plus, records)
    decreases |ops|
  {
    if ops == [] {
    } else {
      var o', n' := o + |OldPart(ops[0])|, n + |NewPart(ops[0])|;
      var x, y := RecordOf(ops[0], o, n), Records(ops[1..], o', n');
      assert records == x + y;
      RecordBalance(ops[0], o, n);
      CountConcat(Minus, x, y);
      CountConcat(Plus, x, y);
      RecordsBalance(ops[1..], o', n', y);
    }
  }

  predicate Balanced(oldLength: nat, newLength: nat, hunks: seq<Yield>) {
    newLength + CountAll(Minus, hunks) == oldLength + CountAll(Plus, hunks)
  }

  lemma {:induction false} SegmentBalance(path: string, segment: Segment, o: nat, n: nat)
    ensures Balanced(|OldPiece(segment)|, |NewPiece(segment)|, SegmentYields(path, segment, o, n))
  {
    if segment.Hunk? {
      var oldNo, newNo := Start(o, |OldSide(segment.ops)|), Start(n, |NewSide(segment.ops)|);
      RecordsBalance(segment.ops, oldNo, newNo, Records(segment.ops, oldNo, newNo));
    }
  }

  /** The difference in length of the two texts is what the reported lines account for. */
  lemma {:induction false} ScriptBalance(path: string, script: seq<Segment>, o: nat, n: nat)
    ensures Balanced(|OldText(script)|, |NewText(script)|, ScriptYields(path, script, o, n))
    decreases |script|
  {
    if script == [] {
    } else {
      var o', n' := o + |OldPiece(script[0])|, n + |NewPiece(script[0])|;
      var x, y := SegmentYields(path, script[0], o, n), ScriptYields(path, script[1..], o', n');
      SegmentBalance(path, script[0], o, n);
      ScriptBalance(path, script[1..], o', n');
      CountAllConcat(Minus, x, y);
      CountAllConcat(Plus, x, y);
    }
  }

  /** How many lines the reported files have before and after the diff. */
  function OldLength(fs: seq<FileDiff>): (n: nat) {
    if fs == [] then 0
    else (if fs[0].text.Some? && !IsGitlink(fs[0]) then |OldText(fs[0].text.value.script)| else 0) + OldLength(fs[1..])
  }

  function NewLength(fs: seq<FileDiff>): (n: nat) {
    if fs == [] then 0
    else (if fs[0].text.Some? && !IsGitlink(fs[0]) then |NewText(fs[0].text.value.script)| else 0) + NewLength(fs[1..])
  }

  lemma {:induction false} YieldsBalance(fs: seq<FileDiff>)
    requires DiffOk(fs)
    ensures Balanced(OldLength(fs), NewLength(fs), DiffYields(fs))
    decreases |fs|
  {
    if fs == [] {
    } else {
      var f := fs[0];
      if f.text.Some? && !IsGitlink(f) {
        ScriptBalance(PathOf(f.text.value), f.text.value.script, 0, 0);
      }
      YieldsBalance(fs[1..]);
      CountAllConcat(Minus, FileYields(f), DiffYields(fs[1..]));
      CountAllConcat(Plus, FileYields(f), DiffYields(fs[1..]));
    }
  }

  /** Parsing neither loses nor invents a changed line: the added and removed lines account for how the texts grew. */
  lemma {:induction false} ChangesAreConserved(fs: seq<FileDiff>)
    requires DiffOk(fs)
    ensures NewLength(fs) + CountAll(Minus, Parse(DiffLines(fs))) == OldLength(fs) + CountAll(Plus, Parse(DiffLines(fs)))
  {
    ParseInvertsPrint(fs);
    YieldsBalance(fs);
  }
}
