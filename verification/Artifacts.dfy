/** Artifact retention: which stored artifacts a sweep deletes. */
module Artifacts {
  import opened Common

  /** Time is in seconds; `created` stands for both the sort key and the parsed stamp. */
  datatype Artifact = Artifact(id: int, name: string, created: int, expired: bool)

  const SECONDS_PER_DAY := 86400

  /** The bounds of a sweep, and its moment. */
  datatype Sweep = Sweep(keepDays: int, keepLatest: int, now: int)

  /** Whole days of age, rounded down. */
  predicate Old(a: Artifact, w: Sweep) {
    (w.now - a.created) / SECONDS_PER_DAY > w.keepDays
  }

  /** Older than the bound: a whole day more than it has gone by. */
  lemma {:induction false} OldIff(a: Artifact, w: Sweep)
    ensures Old(a, w) <==> w.now - a.created >= (w.keepDays + 1) * 86400
  {
  }

  ghost predicate UniqueIds(s: seq<Artifact>) {
    forall i, j :: 0 <= i < j < |s| ==> s[i].id != s[j].id
  }

  /* ---- Which artifacts are ahead, without sorting ---- */

  /** `x` comes before `a` in the list. */
  predicate Earlier(s: seq<Artifact>, x: Artifact, a: Artifact) {
    s != [] && var n := |s| - 1; (Earlier(s[..n], x, a) || (s[n] == a && x in s[..n]))
  }

  /** `x` is newer than `a`, or as new and earlier in the list. */
  predicate Precedes(s: seq<Artifact>, x: Artifact, a: Artifact) {
    x.created > a.created || (x.created == a.created && Earlier(s, x, a))
  }

  /** The live artifacts of the same name that are ahead of `a`. */
  ghost function Ahead(arts: seq<Artifact>, a: Artifact): (r: set<Artifact>) {
    set x | x in arts && !x.expired && x.name == a.name && Precedes(arts, x, a)
  }

  /** The reference rule: expired, or old and not among the newest of its name. */
  ghost predicate Deletable(arts: seq<Artifact>, w: Sweep, a: Artifact) {
    a in arts && (a.expired || (Old(a, w) && |Ahead(arts, a)| >= w.keepLatest))
  }

  lemma {:induction false} EarlierMembers(s: seq<Artifact>, x: Artifact, a: Artifact)
    requires Earlier(s, x, a)
    ensures x in s && a in s
  {
    var n := |s| - 1;
    if Earlier(s[..n], x, a) {
      EarlierMembers(s[..n], x, a);
    }
  }

  lemma {:induction false} EarlierAsymmetric(s: seq<Artifact>, x: Artifact, a: Artifact)
    requires UniqueIds(s) && Earlier(s, x, a)
    ensures !Earlier(s, a, x)
  {
    var n := |s| - 1;
    if Earlier(s, a, x) {
      if Earlier(s[..n], x, a) {
        EarlierMembers(s[..n], x, a);
        EarlierAsymmetric(s[..n], x, a);
      } else if Earlier(s[..n], a, x) {
        EarlierMembers(s[..n], a, x);
      }
    }
  }

  /* ---- Filtering keeps the order ---- */

  function Keep(s: seq<Artifact>, p: Artifact -> bool): (r: seq<Artifact>) {
    if s == [] then []
    else
      var n := |s| - 1;
      if p(s[n]) then Keep(s[..n], p) + [s[n]] else Keep(s[..n], p)
  }

  lemma {:induction false} KeepMembers(s: seq<Artifact>, p: Artifact -> bool, x: Artifact)
    ensures x in Keep(s, p) <==> x in s && p(x)
  {
    if s != [] {
      KeepMembers(s[..|s| - 1], p, x);
    }
  }

  lemma {:induction false} KeepUnique(s: seq<Artifact>, p: Artifact -> bool)
    requires UniqueIds(s)
    ensures UniqueIds(Keep(s, p))
  {
    if s != [] {
      var n := |s| - 1;
      KeepUnique(s[..n], p);
      var front := Keep(s[..n], p);
      forall i | 0 <= i < |front| ensures front[i].id != s[n].id {
        KeepMembers(s[..n], p, front[i]);
      }
    }
  }

  lemma {:induction false} KeepOrder(s: seq<Artifact>, p: Artifact -> bool, x: Artifact, a: Artifact)
    requires p(x) && p(a)
    ensures Earlier(Keep(s, p), x, a) <==> Earlier(s, x, a)
  {
    if s != [] {
      var n := |s| - 1;
      KeepOrder(s[..n], p, x, a);
      KeepMembers(s[..n], p, x);
      if p(s[n]) {
        assert Keep(s, p)[..|Keep(s, p)| - 1] == Keep(s[..n], p);
      }
    }
  }

  /* ---- The stable newest-first order ---- */

  /** The first position that holds something older than `a`. */
  function Slot(l: seq<Artifact>, a: Artifact): (k: nat)
    ensures k <= |l| && (k < |l| ==> l[k].created < a.created)
    ensures forall j :: 0 <= j < k ==> l[j].created >= a.created
  {
    IndexOf(l, (x: Artifact) => x.created < a.created)
  }

  function Insert(l: seq<Artifact>, a: Artifact): (r: seq<Artifact>)
    ensures |r| == |l| + 1
  {
    var k := Slot(l, a);
    l[..k] + [a] + l[k..]
  }

  /** `sorted(key=created, reverse=True)`: newest first, ties in list order. */
  function Newest(l: seq<Artifact>): (r: seq<Artifact>) {
    if l == [] then [] else Insert(Newest(l[..|l| - 1]), l[|l| - 1])
  }

  lemma {:induction false} InsertPermutes(l: seq<Artifact>, a: Artifact)
    ensures multiset(Insert(l, a)) == multiset(l) + multiset{a}
  {
    var k := Slot(l, a);
    assert l == l[..k] + l[k..];
  }

  /** Where an insertion leaves everything. */
  lemma {:induction false} InsertAt(l: seq<Artifact>, a: Artifact, p: nat)
    requires p < |Insert(l, a)|
    ensures var k := Slot(l, a);
            Insert(l, a)[p] == if p < k then l[p] else if p == k then a else l[p - 1]
  {
  }

  lemma {:induction false} MultisetLast(l: seq<Artifact>, n: nat)
    requires n == |l| - 1
    ensures multiset(l) == multiset(l[..n]) + multiset{l[n]}
  {
    assert l == l[..n] + [l[n]];
  }

  lemma {:induction false} NewestIsMultiset(l: seq<Artifact>)
    ensures multiset(Newest(l)) == multiset(l)
  {
    if l != [] {
      var n := |l| - 1;
      NewestIsMultiset(l[..n]);
      InsertPermutes(Newest(l[..n]), l[n]);
      MultisetLast(l, n);
    }
  }

  lemma {:induction false} NewestPermutes(l: seq<Artifact>)
    ensures |Newest(l)| == |l|
    ensures forall x :: x in Newest(l) <==> x in l
  {
    NewestIsMultiset(l);
    assert |multiset(Newest(l))| == |Newest(l)| && |multiset(l)| == |l|;
    forall x ensures x in Newest(l) <==> x in l {
      assert x in multiset(Newest(l)) <==> x in multiset(l);
    }
  }

  /** Newest first, and in list order where equally new. */
  predicate Ordered(l: seq<Artifact>, x: Artifact, y: Artifact) {
    x.created >= y.created && Precedes(l, x, y)
  }

  lemma {:induction false} OrderedExtends(l: seq<Artifact>, x: Artifact, y: Artifact)
    requires l != [] && Ordered(l[..|l| - 1], x, y)
    ensures Ordered(l, x, y)
  {
  }

  ghost predicate Descending(s: seq<Artifact>) {
    forall i, j :: 0 <= i < j < |s| ==> s[i].created >= s[j].created
  }

  /** The element inserted last: nothing before it is older, everything after it is. */
  lemma {:induction false} LastInserted(l: seq<Artifact>, p: nat, q: nat)
    requires l != [] && p < q < |Newest(l)| && Slot(Newest(l[..|l| - 1]), l[|l| - 1]) in {p, q}
    requires Descending(Newest(l[..|l| - 1]))
    ensures Ordered(l, Newest(l)[p], Newest(l)[q])
  {
    var n := |l| - 1;
    var front, a := Newest(l[..n]), l[n];
    NewestPermutes(l[..n]);
    InsertAt(front, a, p);
    InsertAt(front, a, q);
    if q == Slot(front, a) {
      assert front[p] in l[..n];
    }
  }

  lemma {:induction false} NewestOrdered(l: seq<Artifact>, p: nat, q: nat)
    requires p < q < |Newest(l)|
    ensures Ordered(l, Newest(l)[p], Newest(l)[q])
  {
    var n := |l| - 1;
    var front, a := Newest(l[..n]), l[n];
    var k := Slot(front, a);
    if p != k && q != k {
      var p', q' := if p < k then p else p - 1, if q < k then q else q - 1;
      NewestOrdered(l[..n], p', q');
      OrderedExtends(l, front[p'], front[q']);
      InsertAt(front, a, p);
      InsertAt(front, a, q);
    } else {
      forall i, j | 0 <= i < j < |front| ensures front[i].created >= front[j].created {
        NewestOrdered(l[..n], i, j);
      }
      LastInserted(l, p, q);
    }
  }

  lemma {:induction false} NewestUnique(l: seq<Artifact>)
    requires UniqueIds(l)
    ensures UniqueIds(Newest(l))
  {
    var s := Newest(l);
    NewestPermutes(l);
    forall i, j | 0 <= i < j < |s| ensures s[i].id != s[j].id {
      if s[i].id == s[j].id {
        assert s[i] in l && s[j] in l;
        assert s[i] == s[j];
        NewestOrdered(l, i, j);
        if Earlier(l, s[i], s[j]) {
          EarlierAsymmetric(l, s[i], s[j]);
        }
      }
    }
  }

  /* ---- Counting by name ---- */

  function Count(s: seq<Artifact>, name: string): (n: nat) {
    if s == [] then 0 else Count(s[..|s| - 1], name) + if s[|s| - 1].name == name then 1 else 0
  }

  ghost function Called(s: seq<Artifact>, name: string): (r: set<Artifact>) {
    set x | x in s && x.name == name
  }

  lemma {:induction false} CalledExtends(s: seq<Artifact>, name: string)
    requires UniqueIds(s) && s != []
    ensures var n := |s| - 1;
            s[n] !in Called(s[..n], name) && Called(s, name) == Called(s[..n], name) + if s[n].name == name then {s[n]} else {}
  {
    var n := |s| - 1;
    assert s == s[..n] + [s[n]];
  }

  lemma {:induction false} CountIsSize(s: seq<Artifact>, name: string)
    requires UniqueIds(s)
    ensures Count(s, name) == |Called(s, name)|
  {
    if s == [] {
      assert Called(s, name) == {};
    } else {
      var n := |s| - 1;
      CountIsSize(s[..n], name);
      CalledExtends(s, name);
    }
  }

  /** What stands before a position of the order is exactly what is ahead. */
  lemma {:induction false} CountIsRank(arts: seq<Artifact>, p: nat)
    requires UniqueIds(arts)
    requires p < |Newest(Keep(arts, Live))|
    ensures var s := Newest(Keep(arts, Live));
            s[p] in arts && !s[p].expired && Count(s[..p], s[p].name) == |Ahead(arts, s[p])|
  {
    var live := Keep(arts, Live);
    var s := Newest(live);
    var a := s[p];
    KeepUnique(arts, Live);
    NewestPermutes(live);
    NewestUnique(live);
    KeepMembers(arts, Live, a);
    CountIsSize(s[..p], a.name);
    var before := Called(s[..p], a.name);
    forall x ensures x in before <==> x in Ahead(arts, a) {
      KeepMembers(arts, Live, x);
      if x in live && x != a {
        KeepOrder(arts, Live, x, a);
        assert x in s;
        var q :| 0 <= q < |s| && s[q] == x;
        if q < p {
          NewestOrdered(live, q, p);
          assert s[..p][q] == x;
        } else {
          NewestOrdered(live, p, q);
          if Earlier(live, a, x) {
            EarlierAsymmetric(live, a, x);
          }
        }
      } else if x == a && Precedes(arts, x, a) {
        EarlierAsymmetric(arts, x, a);
      }
    }
    assert before == Ahead(arts, a);
  }

  predicate Live(a: Artifact) {
    !a.expired
  }

  predicate Expired(a: Artifact) {
    a.expired
  }

  /* ---- The sweep ---- */

  function Limited(k: int, limit: int): (r: int) {
    if k < limit then k else if limit < 0 then 0 else limit
  }

  /** The ids of the newest `keepLatest` per name. */
  ghost function ProtectedIds(ordered: seq<Artifact>, keepLatest: int): (r: set<int>) {
    if ordered == [] then {}
    else
      var n := |ordered| - 1;
      ProtectedIds(ordered[..n], keepLatest) + if Count(ordered[..n], ordered[n].name) < keepLatest then {ordered[n].id} else {}
  }

  method Protect(ordered: seq<Artifact>, keepLatest: int) returns (protected: set<int>)
    ensures protected == ProtectedIds(ordered, keepLatest)
  {
    protected := {};
    var seen: map<string, int> := map[];
    for i := 0 to |ordered|
      invariant forall n: string :: (if n in seen then seen[n] else 0) == Limited(Count(ordered[..i], n), keepLatest)
      invariant protected == ProtectedIds(ordered[..i], keepLatest)
    {
      var a := ordered[i];
      var count := if a.name in seen then seen[a.name] else 0;
      assert ordered[..i + 1][..i] == ordered[..i];
      if count < keepLatest {
        seen := seen[a.name := count + 1];
        protected := protected + {a.id};
      }
    }
    assert ordered[..|ordered|] == ordered;
  }

  ghost function Condemned(ordered: seq<Artifact>, w: Sweep): (p: Artifact -> bool) {
    (a: Artifact) => a.id !in ProtectedIds(ordered, w.keepLatest) && Old(a, w)
  }

  /** What a sweep deletes, in its order: the old unprotected live ones newest first, then the expired ones. */
  ghost function Doomed(arts: seq<Artifact>, w: Sweep): (r: seq<Artifact>) {
    var ordered := Newest(Keep(arts, Live));
    Keep(ordered, Condemned(ordered, w)) + Keep(arts, Expired)
  }

  lemma {:induction false} KeepSame(s: seq<Artifact>, p: Artifact -> bool, q: Artifact -> bool)
    requires forall x :: p(x) == q(x)
    ensures Keep(s, p) == Keep(s, q)
  {
    if s != [] {
      KeepSame(s[..|s| - 1], p, q);
    }
  }

  method SelectArtifacts(arts: seq<Artifact>, w: Sweep) returns (doomed: seq<Artifact>)
    ensures doomed == Doomed(arts, w)
  {
    var expired := Keep(arts, Expired);
    var ordered := Newest(Keep(arts, Live));
    var protected := Protect(ordered, w.keepLatest);
    var condemned := (a: Artifact) => a.id !in protected && Old(a, w);
    doomed := Keep(ordered, condemned) + expired;
    KeepSame(ordered, condemned, Condemned(ordered, w));
  }

  lemma {:induction false} ProtectedFrom(ordered: seq<Artifact>, keepLatest: int, id: int)
    requires id in ProtectedIds(ordered, keepLatest)
    ensures exists p :: 0 <= p < |ordered| && ordered[p].id == id
  {
    var n := |ordered| - 1;
    if ordered[n].id != id {
      ProtectedFrom(ordered[..n], keepLatest, id);
      var p :| 0 <= p < n && ordered[..n][p].id == id;
      assert ordered[p].id == id;
    }
  }

  lemma {:induction false} ProtectedIff(ordered: seq<Artifact>, keepLatest: int, p: nat)
    requires UniqueIds(ordered) && p < |ordered|
    ensures ordered[p].id in ProtectedIds(ordered, keepLatest) <==> Count(ordered[..p], ordered[p].name) < keepLatest
  {
    var n := |ordered| - 1;
    if p < n {
      ProtectedIff(ordered[..n], keepLatest, p);
      assert ordered[..n][..p] == ordered[..p];
    } else if ordered[n].id in ProtectedIds(ordered[..n], keepLatest) {
      ProtectedFrom(ordered[..n], keepLatest, ordered[n].id);
    }
  }

  lemma {:induction false} AgedIff(arts: seq<Artifact>, w: Sweep, a: Artifact)
    requires UniqueIds(arts)
    ensures var ordered := Newest(Keep(arts, Live));
            a in Keep(ordered, Condemned(ordered, w)) <==> !a.expired && Deletable(arts, w, a)
  {
    var ordered := Newest(Keep(arts, Live));
    KeepUnique(arts, Live);
    NewestUnique(Keep(arts, Live));
    NewestPermutes(Keep(arts, Live));
    KeepMembers(ordered, Condemned(ordered, w), a);
    KeepMembers(arts, Live, a);
    if a in ordered {
      var p :| 0 <= p < |ordered| && ordered[p] == a;
      CountIsRank(arts, p);
      ProtectedIff(ordered, w.keepLatest, p);
    }
  }

  lemma {:induction false} DoomedUnique(arts: seq<Artifact>, w: Sweep)
    requires UniqueIds(arts)
    ensures UniqueIds(Doomed(arts, w))
  {
    var ordered := Newest(Keep(arts, Live));
    var aged, expired := Keep(ordered, Condemned(ordered, w)), Keep(arts, Expired);
    KeepUnique(arts, Live);
    NewestUnique(Keep(arts, Live));
    KeepUnique(ordered, Condemned(ordered, w));
    KeepUnique(arts, Expired);
    forall i, j | 0 <= i < |aged| && 0 <= j < |expired| ensures aged[i].id != expired[j].id {
      AgedIff(arts, w, aged[i]);
      KeepMembers(arts, Expired, expired[j]);
      assert aged[i] in arts && expired[j] in arts && aged[i] != expired[j];
    }
  }

  /** On lists with unique ids, the sweep deletes exactly what the reference rule names, and each of it once. */
  lemma {:induction false} DoomedIff(arts: seq<Artifact>, w: Sweep)
    requires UniqueIds(arts)
    ensures forall a :: a in Doomed(arts, w) <==> Deletable(arts, w, a)
    ensures UniqueIds(Doomed(arts, w))
  {
    DoomedUnique(arts, w);
    forall a ensures a in Doomed(arts, w) <==> Deletable(arts, w, a) {
      AgedIff(arts, w, a);
      KeepMembers(arts, Expired, a);
    }
  }

  /* ---- The order of a sweep ---- */

  /** Where two kept elements stood. */
  lemma {:induction false} KeepFrom(s: seq<Artifact>, p: Artifact -> bool, i: nat, j: nat) returns (a: nat, b: nat)
    requires i < j < |Keep(s, p)|
    ensures a < b < |s| && s[a] == Keep(s, p)[i] && s[b] == Keep(s, p)[j]
  {
    var n := |s| - 1;
    var front := Keep(s[..n], p);
    if j < |front| {
      a, b := KeepFrom(s[..n], p, i, j);
    } else {
      KeepMembers(s[..n], p, front[i]);
      a :| 0 <= a < n && s[..n][a] == front[i];
      b := n;
    }
  }

  lemma {:induction false} EarlierByPosition(s: seq<Artifact>, a: nat, b: nat)
    requires a < b < |s|
    ensures Earlier(s, s[a], s[b])
  {
    var n := |s| - 1;
    if b < n {
      EarlierByPosition(s[..n], a, b);
    } else {
      assert s[..n][a] == s[a];
    }
  }

  lemma {:induction false} AgedOrder(live: seq<Artifact>, p: Artifact -> bool, i: nat, j: nat)
    requires i < j < |Keep(Newest(live), p)|
    ensures Keep(Newest(live), p)[i].created >= Keep(Newest(live), p)[j].created
  {
    var a, b := KeepFrom(Newest(live), p, i, j);
    NewestOrdered(live, a, b);
  }

  lemma {:induction false} AgedIsLive(arts: seq<Artifact>, p: Artifact -> bool, x: Artifact)
    requires x in Keep(Newest(Keep(arts, Live)), p)
    ensures !x.expired
  {
    KeepMembers(Newest(Keep(arts, Live)), p, x);
    NewestPermutes(Keep(arts, Live));
    KeepMembers(arts, Live, x);
  }

  lemma {:induction false} ExpiredOrder(arts: seq<Artifact>, i: nat, j: nat)
    requires i < j < |Keep(arts, Expired)|
    ensures Earlier(arts, Keep(arts, Expired)[i], Keep(arts, Expired)[j])
  {
    var a, b := KeepFrom(arts, Expired, i, j);
    EarlierByPosition(arts, a, b);
  }

  /** What is deleted comes newest first, and the expired ones come last, in list order. */
  lemma {:induction false} DoomedOrder(arts: seq<Artifact>, w: Sweep, i: nat, j: nat)
    requires i < j < |Doomed(arts, w)|
    ensures var x, y := Doomed(arts, w)[i], Doomed(arts, w)[j];
            && (x.expired ==> y.expired && Earlier(arts, x, y))
            && (!y.expired ==> x.created >= y.created)
  {
    var ordered := Newest(Keep(arts, Live));
    var p := Condemned(ordered, w);
    var aged, expired := Keep(ordered, p), Keep(arts, Expired);
    if i < |aged| {
      AgedIsLive(arts, p, aged[i]);
    }
    if j < |aged| {
      AgedOrder(Keep(arts, Live), p, i, j);
    } else {
      KeepMembers(arts, Expired, expired[j - |aged|]);
      if i >= |aged| {
        ExpiredOrder(arts, i - |aged|, j - |aged|);
      }
    }
  }

  /* ---- What the sweep promises ---- */

  /** The first `k` positions that hold this name. */
  ghost function Firsts(s: seq<Artifact>, name: string, k: int): (r: set<nat>) {
    set p: nat | p < |s| && s[p].name == name && Count(s[..p], name) < k
  }

  lemma {:induction false} FirstsExtend(s: seq<Artifact>, name: string, k: int)
    requires s != []
    ensures var n := |s| - 1;
            n !in Firsts(s[..n], name, k) &&
            Firsts(s, name, k) == if s[n].name == name && Count(s[..n], name) < k then Firsts(s[..n], name, k) + {n} else Firsts(s[..n], name, k)
  {
    var n := |s| - 1;
    assert forall p :: 0 <= p < n ==> s[..n][..p] == s[..p];
  }

  lemma {:induction false} FirstsCount(s: seq<Artifact>, name: string, k: nat)
    ensures |Firsts(s, name, k)| == Limited(Count(s, name), k)
  {
    if s != [] {
      FirstsExtend(s, name, k);
      FirstsCount(s[..|s| - 1], name, k);
    }
  }

  /** The live artifacts of `a`'s name that are ahead of it and that the sweep keeps. */
  ghost function KeptAhead(arts: seq<Artifact>, w: Sweep, a: Artifact): (r: set<Artifact>) {
    set x | x in Ahead(arts, a) && x !in Doomed(arts, w)
  }

  lemma {:induction false} ImageSize(ps: set<nat>, s: seq<Artifact>, r: set<Artifact>)
    requires UniqueIds(s) && (forall p :: p in ps ==> p < |s| && s[p] in r)
    ensures |ps| <= |r|
  {
    if ps != {} {
      var p :| p in ps;
      forall q | q in ps - {p} ensures s[q] in r - {s[p]} {
        assert s[q].id != s[p].id;
      }
      ImageSize(ps - {p}, s, r - {s[p]});
    }
  }

  /** The first `keepLatest` of a name in the order are kept. */
  lemma {:induction false} FirstsAreKept(arts: seq<Artifact>, w: Sweep, p: nat, q: nat)
    requires UniqueIds(arts) && p < |Newest(Keep(arts, Live))|
    requires var s := Newest(Keep(arts, Live)); q in Firsts(s[..p], s[p].name, w.keepLatest)
    ensures var s := Newest(Keep(arts, Live)); s[q] in KeptAhead(arts, w, s[p])
  {
    var live := Keep(arts, Live);
    var s := Newest(live);
    assert s[..p][..q] == s[..q];
    CountIsRank(arts, q);
    CountIsRank(arts, p);
    NewestOrdered(live, q, p);
    KeepOrder(arts, Live, s[q], s[p]);
    DoomedIff(arts, w);
  }

  lemma {:induction false} EnoughAreKept(arts: seq<Artifact>, w: Sweep, a: Artifact)
    requires UniqueIds(arts) && a in arts && !a.expired && |Ahead(arts, a)| >= w.keepLatest > 0
    ensures |KeptAhead(arts, w, a)| >= w.keepLatest
  {
    var live := Keep(arts, Live);
    var s := Newest(live);
    KeepUnique(arts, Live);
    NewestUnique(live);
    NewestPermutes(live);
    KeepMembers(arts, Live, a);
    var p :| 0 <= p < |s| && s[p] == a;
    CountIsRank(arts, p);
    FirstsCount(s[..p], a.name, w.keepLatest);
    forall q | q in Firsts(s[..p], a.name, w.keepLatest) ensures s[q] in KeptAhead(arts, w, a) {
      FirstsAreKept(arts, w, p, q);
    }
    ImageSize(Firsts(s[..p], a.name, w.keepLatest), s, KeptAhead(arts, w, a));
  }

  /** A live artifact is deleted if and only if it is old and at least `keepLatest` live ones of its name, ahead of it, are kept. */
  lemma {:induction false} NewestAreKept(arts: seq<Artifact>, w: Sweep, a: Artifact)
    requires UniqueIds(arts) && a in arts && !a.expired
    ensures a in Doomed(arts, w) <==> Old(a, w) && |KeptAhead(arts, w, a)| >= w.keepLatest
  {
    DoomedIff(arts, w);
    SubsetSize(KeptAhead(arts, w, a), Ahead(arts, a));
    if |Ahead(arts, a)| >= w.keepLatest > 0 {
      EnoughAreKept(arts, w, a);
    }
  }

  /** What survives is no more deletable among the survivors than it was before. */
  lemma {:induction false} SurvivorsStay(arts: seq<Artifact>, w: Sweep, survives: Artifact -> bool, a: Artifact)
    requires forall x :: x in arts ==> (survives(x) <==> !Deletable(arts, w, x))
    ensures !Deletable(Keep(arts, survives), w, a)
  {
    var rest := Keep(arts, survives);
    KeepMembers(arts, survives, a);
    if a in rest && !a.expired && Old(a, w) {
      forall x | x in Ahead(rest, a) ensures x in Ahead(arts, a) {
        KeepMembers(arts, survives, x);
        KeepOrder(arts, survives, x, a);
      }
      SubsetSize(Ahead(rest, a), Ahead(arts, a));
    }
  }

  /** After the deletion, the same sweep finds nothing more to delete. */
  lemma {:induction false} SweepSettles(arts: seq<Artifact>, w: Sweep, survives: Artifact -> bool)
    requires UniqueIds(arts)
    requires forall x :: x in arts ==> (survives(x) <==> x !in Doomed(arts, w))
    ensures Doomed(Keep(arts, survives), w) == []
  {
    var rest := Keep(arts, survives);
    DoomedIff(arts, w);
    KeepUnique(arts, survives);
    DoomedIff(rest, w);
    if Doomed(rest, w) != [] {
      var a := Doomed(rest, w)[0];
      assert a in Doomed(rest, w);
      SurvivorsStay(arts, w, survives, a);
    }
  }

  lemma {:induction false} SubsetSize(a: set<Artifact>, b: set<Artifact>)
    requires a <= b
    ensures |a| <= |b|
  {
    if a != {} {
      var x :| x in a;
      SubsetSize(a - {x}, b - {x});
    }
  }

  /** Raising either bound, or sweeping earlier, never deletes anything more. */
  lemma {:induction false} RaisingBoundsKeepsMore(arts: seq<Artifact>, w: Sweep, w': Sweep, a: Artifact)
    requires UniqueIds(arts)
    requires w'.now <= w.now && w.keepDays <= w'.keepDays && w.keepLatest <= w'.keepLatest
    ensures a in Doomed(arts, w') ==> a in Doomed(arts, w)
  {
    DoomedIff(arts, w);
    DoomedIff(arts, w');
  }
}
