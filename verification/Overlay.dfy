/** The overlay merge: bundled entries keep their positions, the overlay wins on id, new ids append. */
module Overlay {
  import opened Common

  /** An entry: its id, when it has one, and everything else. */
  datatype Entry = Entry(id: Option<string>, payload: string)

  /* ---- One entry at a time ---- */

  /** The last position that holds this id; `|l|` when there is none. */
  function LastOf(l: seq<Entry>, id: string): (k: nat)
    ensures k <= |l|
    ensures k < |l| ==> l[k].id == Some(id)
    ensures forall j :: 0 <= j < |l| && (j > k || k == |l|) ==> l[j].id != Some(id)
  {
    if l == [] then 0
    else
      var n := |l| - 1;
      if l[n].id == Some(id) then n
      else
        var k := LastOf(l[..n], id);
        assert forall j :: 0 <= j < n ==> l[j] == l[..n][j];
        if k == n then |l| else k
  }

  predicate Has(l: seq<Entry>, id: Option<string>) {
    id.Some? && LastOf(l, id.value) < |l|
  }

  /** Replace the last entry of the same id, or append. */
  function Upsert(l: seq<Entry>, e: Entry): (r: seq<Entry>) {
    if Has(l, e.id) then l[LastOf(l, e.id.value) := e] else l + [e]
  }

  /** The overlay's entries, upserted in order. */
  function Merge(bundled: seq<Entry>, overlay: seq<Entry>): (r: seq<Entry>)
    decreases |overlay|
  {
    if overlay == [] then bundled
    else Upsert(Merge(bundled, overlay[..|overlay| - 1]), overlay[|overlay| - 1])
  }

  /** `index` points every id at its last position. */
  ghost predicate Indexes(index: map<string, nat>, l: seq<Entry>) {
    && (forall id :: id in index ==> LastOf(l, id) < |l| && index[id] == LastOf(l, id))
    && (forall j :: 0 <= j < |l| && l[j].id.Some? ==> l[j].id.value in index)
  }

  lemma {:induction false} LastOfIs(l: seq<Entry>, id: string, k: nat)
    requires k < |l| && l[k].id == Some(id)
    requires forall j :: k < j < |l| ==> l[j].id != Some(id)
    ensures LastOf(l, id) == k
  {
  }

  lemma {:induction false} IndexAppended(index: map<string, nat>, l: seq<Entry>, e: Entry)
    requires Indexes(index, l) && e.id.Some?
    ensures Indexes(index[e.id.value := |l|], l + [e])
  {
    var l' := l + [e];
    var index' := index[e.id.value := |l|];
    forall id | id in index' ensures LastOf(l', id) < |l'| && index'[id] == LastOf(l', id) {
      LastOfIs(l', id, if id == e.id.value then |l| else LastOf(l, id));
    }
  }

  lemma {:induction false} IndexAnonymous(index: map<string, nat>, l: seq<Entry>, e: Entry)
    requires Indexes(index, l) && e.id.None?
    ensures Indexes(index, l + [e])
  {
    var l' := l + [e];
    forall id | id in index ensures LastOf(l', id) < |l'| && index[id] == LastOf(l', id) {
      LastOfIs(l', id, LastOf(l, id));
    }
  }

  lemma {:induction false} IndexReplaced(index: map<string, nat>, l: seq<Entry>, e: Entry)
    requires Indexes(index, l) && e.id.Some? && e.id.value in index
    ensures Indexes(index, l[index[e.id.value] := e])
  {
    var l' := l[index[e.id.value] := e];
    forall id | id in index ensures LastOf(l', id) < |l'| && index[id] == LastOf(l', id) {
      LastOfIs(l', id, LastOf(l, id));
    }
  }

  lemma {:induction false} HasIffIndexed(index: map<string, nat>, l: seq<Entry>, id: string)
    requires Indexes(index, l)
    ensures Has(l, Some(id)) <==> id in index
  {
  }

  /** The merge with an index map, as the gate runs it. */
  method MergeById(bundled: seq<Entry>, overlay: seq<Entry>) returns (out: seq<Entry>)
    ensures out == Merge(bundled, overlay)
  {
    out := [];
    var index: map<string, nat> := map[];
    for i := 0 to |bundled|
      invariant out == bundled[..i] && Indexes(index, out)
    {
      var entry := bundled[i];
      if entry.id.Some? {
        IndexAppended(index, out, entry);
        index := index[entry.id.value := |out|];
      } else {
        IndexAnonymous(index, out, entry);
      }
      out := out + [entry];
    }
    assert bundled[..|bundled|] == bundled && overlay[..0] == [];
    for i := 0 to |overlay|
      invariant out == Merge(bundled, overlay[..i]) && Indexes(index, out)
    {
      var entry := overlay[i];
      assert overlay[..i + 1][..i] == overlay[..i];
      if entry.id.Some? {
        HasIffIndexed(index, out, entry.id.value);
      }
      if entry.id.Some? && entry.id.value in index {
        IndexReplaced(index, out, entry);
        out := out[index[entry.id.value] := entry];
      } else {
        if entry.id.Some? {
          IndexAppended(index, out, entry);
          index := index[entry.id.value := |out|];
        } else {
          IndexAnonymous(index, out, entry);
        }
        out := out + [entry];
      }
    }
    assert overlay[..|overlay|] == overlay;
  }

  /* ---- What the merge is, position by position ---- */

  /** Does the overlay win at this bundled position? */
  predicate Overridden(bundled: seq<Entry>, overlay: seq<Entry>, i: nat)
    requires i < |bundled|
  {
    bundled[i].id.Some? && LastOf(bundled, bundled[i].id.value) == i && Has(overlay, bundled[i].id)
  }

  /** The entries the overlay adds: anonymous ones as they come, and each new id once, at its first appearance. */
  function Added(bundled: seq<Entry>, overlay: seq<Entry>): (r: seq<Entry>)
    decreases |overlay|
  {
    if overlay == [] then []
    else
      var n := |overlay| - 1;
      var e, front := overlay[n], Added(bundled, overlay[..n]);
      if Has(bundled, e.id) then front else Upsert(front, e)
  }

  lemma {:induction false} HasIff(l: seq<Entry>, id: string)
    ensures Has(l, Some(id)) <==> exists j :: 0 <= j < |l| && l[j].id == Some(id)
  {
  }

  /** Upserting into a concatenation. */
  lemma {:induction false} UpsertConcat(a: seq<Entry>, b: seq<Entry>, e: Entry)
    ensures Has(b, e.id) ==> Upsert(a + b, e) == a + Upsert(b, e)
    ensures !Has(b, e.id) && Has(a, e.id) ==> Upsert(a + b, e) == Upsert(a, e) + b
    ensures !Has(b, e.id) && !Has(a, e.id) ==> Upsert(a + b, e) == a + b + [e]
  {
    if e.id.Some? {
      var id := e.id.value;
      if Has(b, e.id) {
        LastOfIs(a + b, id, |a| + LastOf(b, id));
        assert (a + b)[|a| + LastOf(b, id) := e] == a + b[LastOf(b, id) := e];
      } else if Has(a, e.id) {
        LastOfIs(a + b, id, LastOf(a, id));
        assert (a + b)[LastOf(a, id) := e] == a[LastOf(a, id) := e] + b;
      }
    }
  }

  lemma {:induction false} AddedIsNew(bundled: seq<Entry>, overlay: seq<Entry>, j: nat)
    requires j < |Added(bundled, overlay)|
    ensures !Has(bundled, Added(bundled, overlay)[j].id)
    decreases |overlay|
  {
    var n := |overlay| - 1;
    var front := Added(bundled, overlay[..n]);
    if j < |front| {
      AddedIsNew(bundled, overlay[..n], j);
    }
  }

  /** No id is added twice. */
  lemma {:induction false} AddedOnce(bundled: seq<Entry>, overlay: seq<Entry>, i: nat, j: nat)
    requires i < j < |Added(bundled, overlay)| && Added(bundled, overlay)[i].id.Some?
    ensures Added(bundled, overlay)[i].id != Added(bundled, overlay)[j].id
    decreases |overlay|
  {
    var n := |overlay| - 1;
    var front := Added(bundled, overlay[..n]);
    if j < |front| {
      AddedOnce(bundled, overlay[..n], i, j);
    }
  }

  /** The bundled part of the result. */
  function Kept(bundled: seq<Entry>, overlay: seq<Entry>): (r: seq<Entry>)
    ensures |r| == |bundled|
  {
    seq(|bundled|, i requires 0 <= i < |bundled| =>
      if Overridden(bundled, overlay, i) then overlay[LastOf(overlay, bundled[i].id.value)] else bundled[i])
  }

  lemma {:induction false} KeptIds(bundled: seq<Entry>, overlay: seq<Entry>, id: string)
    ensures forall i :: 0 <= i < |bundled| ==> Kept(bundled, overlay)[i].id == bundled[i].id
    ensures LastOf(Kept(bundled, overlay), id) == LastOf(bundled, id)
  {
    var k := LastOf(bundled, id);
    if k < |bundled| {
      LastOfIs(Kept(bundled, overlay), id, k);
    }
  }

  lemma {:induction false} KeptExtend(bundled: seq<Entry>, overlay: seq<Entry>, e: Entry)
    ensures Kept(bundled, overlay + [e]) ==
            if Has(bundled, e.id) then Upsert(Kept(bundled, overlay), e) else Kept(bundled, overlay)
  {
    var o' := overlay + [e];
    var k, k' := Kept(bundled, overlay), Kept(bundled, o');
    if e.id.Some? {
      KeptIds(bundled, overlay, e.id.value);
      LastOfIs(o', e.id.value, |overlay|);
    }
    forall i | 0 <= i < |bundled|
      ensures k'[i] == if Has(bundled, e.id) && i == LastOf(bundled, e.id.value) then e else k[i]
    {
      if bundled[i].id.Some? && bundled[i].id != e.id {
        var id := bundled[i].id.value;
        if Has(overlay, Some(id)) {
          LastOfIs(o', id, LastOf(overlay, id));
        } else {
          assert !Has(o', Some(id));
        }
      }
    }
  }

  /** One more entry, on either side of the boundary. */
  lemma {:induction false} PlaceOne(k: seq<Entry>, a: seq<Entry>, e: Entry, bundled: bool, k': seq<Entry>, a': seq<Entry>)
    requires Has(k, e.id) == bundled && (bundled ==> !Has(a, e.id))
    requires k' == (if bundled then Upsert(k, e) else k) && a' == if bundled then a else Upsert(a, e)
    ensures Upsert(k + a, e) == k' + a'
  {
    UpsertConcat(k, a, e);
  }

  lemma {:induction false} KeptAndAdded(bundled: seq<Entry>, overlay: seq<Entry>, id: Option<string>)
    ensures Has(Kept(bundled, overlay), id) == Has(bundled, id) && (Has(bundled, id) ==> !Has(Added(bundled, overlay), id))
  {
    if id.Some? {
      KeptIds(bundled, overlay, id.value);
      if Has(bundled, id) && Has(Added(bundled, overlay), id) {
        AddedIsNew(bundled, overlay, LastOf(Added(bundled, overlay), id.value));
      }
    }
  }

  /** Every bundled position is kept, with the last overlay entry of its id winning; what is new follows, in order of first appearance. */
  lemma {:induction false} MergeByPosition(bundled: seq<Entry>, overlay: seq<Entry>)
    ensures Merge(bundled, overlay) == Kept(bundled, overlay) + Added(bundled, overlay)
    decreases |overlay|
  {
    if overlay == [] {
      assert Kept(bundled, overlay) == bundled;
    } else {
      var n := |overlay| - 1;
      var front, e := overlay[..n], overlay[n];
      assert overlay == front + [e];
      MergeByPosition(bundled, front);
      KeptExtend(bundled, front, e);
      KeptAndAdded(bundled, front, e.id);
      PlaceOne(Kept(bundled, front), Added(bundled, front), e, Has(bundled, e.id), Kept(bundled, overlay), Added(bundled, overlay));
    }
  }

  /* ---- Stacking overlays ---- */

  lemma {:induction false} MergeConcat(l: seq<Entry>, a: seq<Entry>, b: seq<Entry>)
    ensures Merge(l, a + b) == Merge(Merge(l, a), b)
    decreases |b|
  {
    if b == [] {
      assert a + b == a;
    } else {
      assert (a + b)[..|a + b| - 1] == a + b[..|b| - 1];
      MergeConcat(l, a, b[..|b| - 1]);
    }
  }

  lemma {:induction false} UpsertTwice(l: seq<Entry>, x: Entry, e: Entry)
    requires x.id.Some? && x.id == e.id
    ensures Upsert(Upsert(l, x), e) == Upsert(l, e)
  {
    var id := e.id.value;
    if Has(l, e.id) {
      LastOfIs(Upsert(l, x), id, LastOf(l, id));
    } else {
      LastOfIs(Upsert(l, x), id, |l|);
    }
  }

  lemma {:induction false} UpsertKeepsLast(l: seq<Entry>, y: Entry, id: string)
    requires y.id != Some(id)
    ensures Has(Upsert(l, y), Some(id)) <==> Has(l, Some(id))
    ensures Has(l, Some(id)) ==> LastOf(Upsert(l, y), id) == LastOf(l, id)
  {
    if Has(l, Some(id)) {
      LastOfIs(Upsert(l, y), id, LastOf(l, id));
    }
  }

  lemma {:induction false} UpsertsCommute(l: seq<Entry>, y: Entry, e: Entry)
    requires e.id.Some? && y.id != e.id && Has(l, e.id)
    ensures Upsert(Upsert(l, y), e) == Upsert(Upsert(l, e), y)
  {
    UpsertKeepsLast(l, y, e.id.value);
    if y.id.Some? {
      UpsertKeepsLast(l, e, y.id.value);
    }
  }

  lemma {:induction false} UpsertGives(l: seq<Entry>, x: Entry)
    requires x.id.Some?
    ensures Has(Upsert(l, x), x.id)
  {
    LastOfIs(Upsert(l, x), x.id.value, if Has(l, x.id) then LastOf(l, x.id.value) else |l|);
  }

  /** An entry moves forward past entries of other ids. */
  lemma {:induction false} UpsertPasses(l: seq<Entry>, m: seq<Entry>, e: Entry)
    requires e.id.Some? && Has(l, e.id)
    requires forall j :: 0 <= j < |m| ==> m[j].id != e.id
    ensures Upsert(Merge(l, m), e) == Merge(Upsert(l, e), m) && Has(Merge(l, m), e.id)
    decreases |m|
  {
    if m != [] {
      var n := |m| - 1;
      UpsertPasses(l, m[..n], e);
      UpsertsCommute(Merge(l, m[..n]), m[n], e);
      UpsertKeepsLast(Merge(l, m[..n]), m[n], e.id.value);
    }
  }

  /** Merging an upserted overlay is upserting the merge. */
  lemma {:induction false} MergeUpsert(l: seq<Entry>, m: seq<Entry>, e: Entry)
    ensures Merge(l, Upsert(m, e)) == Upsert(Merge(l, m), e)
  {
    if Has(m, e.id) {
      var q := LastOf(m, e.id.value);
      var before, x, after := m[..q], m[q], m[q + 1..];
      var mid := Merge(l, before);
      assert m == before + [x] + after && m[q := e] == before + [e] + after;
      MergeConcat(l, before + [x], after);
      MergeConcat(l, before + [e], after);
      assert (before + [x])[..q] == before && (before + [e])[..q] == before;
      UpsertTwice(mid, x, e);
      UpsertGives(mid, x);
      UpsertPasses(Upsert(mid, x), after, e);
    } else {
      assert (m + [e])[..|m|] == m;
    }
  }

  /** Stacking overlays is associative, for all inputs: duplicates and anonymous entries included. */
  lemma {:induction false} MergeAssociative(a: seq<Entry>, b: seq<Entry>, c: seq<Entry>)
    ensures Merge(Merge(a, b), c) == Merge(a, Merge(b, c))
    decreases |c|
  {
    if c != [] {
      var n := |c| - 1;
      MergeAssociative(a, b, c[..n]);
      MergeUpsert(a, Merge(b, c[..n]), c[n]);
    }
  }

  /* ---- Merging the same overlay again ---- */

  function Anonymous(l: seq<Entry>): (n: nat) {
    if l == [] then 0 else Anonymous(l[..|l| - 1]) + if l[|l| - 1].id.None? then 1 else 0
  }

  lemma {:induction false} AnonymousNone(l: seq<Entry>)
    ensures Anonymous(l) == 0 <==> forall i :: 0 <= i < |l| ==> l[i].id.Some?
  {
    if l != [] {
      AnonymousNone(l[..|l| - 1]);
    }
  }

  /** An overlay whose ids are all present already: the length grows by its anonymous entries alone. */
  lemma {:induction false} MergeLength(l: seq<Entry>, o: seq<Entry>)
    requires forall i :: 0 <= i < |o| && o[i].id.Some? ==> Has(l, o[i].id)
    ensures |Merge(l, o)| == |l| + Anonymous(o)
    ensures forall id :: Has(l, Some(id)) ==> Has(Merge(l, o), Some(id))
    decreases |o|
  {
    if o != [] {
      var n := |o| - 1;
      MergeLength(l, o[..n]);
      var m := Merge(l, o[..n]);
      forall id | Has(l, Some(id)) ensures Has(Merge(l, o), Some(id)) {
        if o[n].id == Some(id) {
          UpsertGives(m, o[n]);
        } else {
          UpsertKeepsLast(m, o[n], id);
        }
      }
    }
  }

  /** After a merge, every overlay id carries the overlay's last entry. */
  lemma {:induction false} LastWins(l: seq<Entry>, o: seq<Entry>, id: string)
    requires Has(o, Some(id))
    ensures Has(Merge(l, o), Some(id)) && Merge(l, o)[LastOf(Merge(l, o), id)] == o[LastOf(o, id)]
    decreases |o|
  {
    var n := |o| - 1;
    var m := Merge(l, o[..n]);
    if o[n].id == Some(id) {
      LastOfIs(Upsert(m, o[n]), id, if Has(m, Some(id)) then LastOf(m, id) else |m|);
    } else {
      assert o[..n][LastOf(o, id)].id == Some(id);
      LastOfIs(o[..n], id, LastOf(o, id));
      LastWins(l, o[..n], id);
      UpsertKeepsLast(m, o[n], id);
    }
  }

  /** When every id already carries the overlay's last entry, the merge ends where it started. */
  lemma {:induction false} MergeSettled(l: seq<Entry>, o: seq<Entry>)
    requires forall i :: 0 <= i < |o| ==> o[i].id.Some? && Has(l, o[i].id) && l[LastOf(l, o[i].id.value)] == o[LastOf(o, o[i].id.value)]
    ensures Merge(l, o) == l
  {
    MergeByPosition(l, o);
    forall i | 0 <= i < |l| ensures Kept(l, o)[i] == l[i] {
      if Overridden(l, o, i) {
        assert o[LastOf(o, l[i].id.value)].id == l[i].id;
      }
    }
    AnonymousNone(o);
    MergeLength(l, o);
    assert Added(l, o) == [];
    assert Kept(l, o) == l;
  }

  /** Merging the same overlay again changes nothing exactly when the overlay has no anonymous entry. */
  lemma {:induction false} RemergeIff(l: seq<Entry>, o: seq<Entry>)
    ensures Merge(Merge(l, o), o) == Merge(l, o) <==> forall i :: 0 <= i < |o| ==> o[i].id.Some?
  {
    var m := Merge(l, o);
    forall i | 0 <= i < |o| && o[i].id.Some?
      ensures Has(m, o[i].id) && m[LastOf(m, o[i].id.value)] == o[LastOf(o, o[i].id.value)]
    {
      HasIff(o, o[i].id.value);
      LastWins(l, o, o[i].id.value);
    }
    MergeLength(m, o);
    AnonymousNone(o);
    if forall i :: 0 <= i < |o| ==> o[i].id.Some? {
      MergeSettled(m, o);
    }
  }
}
