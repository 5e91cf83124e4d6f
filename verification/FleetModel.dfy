/** The fleet's desired state: one complete world per revision, never edited, only replaced. */
module FleetModel {
  import opened Common
  import opened Decimal

  datatype HostState = Active | Draining | Drained | Maintenance
  datatype DrainState = DrainOpen | DrainDone | DrainEnded

  /** The pool fields that transitions read. */
  datatype Pool = Pool(poolId: string, revision: int, runtime: string, architectures: seq<string>, image: string, rollback: string)
  datatype Host = Host(hostId: string, architectures: seq<string>, runtimes: seq<string>, allowedPools: seq<string>, slots: nat, state: HostState)
  datatype Assignment = Assignment(assignmentId: string, requestId: string, poolId: string, hostId: string, issuedAt: int, releasedAt: Option<int>)
  datatype Drain = Drain(hostId: string, reason: string, requestedAt: int, state: DrainState, completedAt: Option<int>, endedAt: Option<int>)
  datatype Rollout = Rollout(rolloutId: string, poolId: string, fromImage: string, toImage: string, startedAt: int)

  datatype DesiredState = DesiredState(
    revision: int, pools: seq<Pool>, hosts: seq<Host>, assignments: seq<Assignment>, drains: seq<Drain>, rollouts: seq<Rollout>)

  /** A transition either yields the next revision or is refused. */
  datatype Result = Ok(state: DesiredState) | ModelError | PlanError

  /* ---- Scalar shapes ---- */

  predicate Lower(c: char) { 'a' <= c <= 'z' }
  predicate Upper(c: char) { 'A' <= c <= 'Z' }

  /** The text that a pattern describes: `$` also accepts one newline at the very end. */
  ghost predicate Spelled(s: string, core: string) {
    s == core || s == core + "\n"
  }

  function Core(s: string): (core: string) {
    if |s| > 0 && s[|s| - 1] == '\n' then s[..|s| - 1] else s
  }

  /** `^[head][tail]{0,most-1}$`. */
  predicate Shaped(s: string, head: char -> bool, tail: char -> bool, most: nat) {
    var core := Core(s);
    1 <= |core| <= most && head(core[0]) && forall i :: 1 <= i < |core| ==> tail(core[i])
  }

  predicate Identifier(s: string) {
    Shaped(s, c => Lower(c) || IsDigit(c), c => Lower(c) || IsDigit(c) || c in "._-", 64)
  }

  predicate RequestId(s: string) {
    Shaped(s, c => Lower(c) || Upper(c) || IsDigit(c), c => Lower(c) || Upper(c) || IsDigit(c) || c in "._:-", 128)
  }

  predicate FreeText(s: string) {
    Shaped(s, c => Lower(c) || Upper(c) || IsDigit(c) || c in " .,:/_+-", c => Lower(c) || Upper(c) || IsDigit(c) || c in " .,:/_+-", 96)
  }

  predicate Digest(s: string) {
    var core := Core(s);
    |core| == 71 && core[..7] == "sha256:" && forall i :: 7 <= i < 71 ==> IsDigit(core[i]) || 'a' <= core[i] <= 'f'
  }

  /* ---- Look-ups ---- */

  function FindPool(pools: seq<Pool>, id: string): (k: nat)
    ensures k <= |pools| && (k < |pools| ==> pools[k].poolId == id)
    ensures forall j :: 0 <= j < k ==> pools[j].poolId != id
  {
    IndexOf(pools, (p: Pool) => p.poolId == id)
  }

  function FindHost(hosts: seq<Host>, id: string): (k: nat)
    ensures k <= |hosts| && (k < |hosts| ==> hosts[k].hostId == id)
    ensures forall j :: 0 <= j < k ==> hosts[j].hostId != id
  {
    IndexOf(hosts, (h: Host) => h.hostId == id)
  }

  function FindAssignment(assignments: seq<Assignment>, id: string): (k: nat)
    ensures k <= |assignments| && (k < |assignments| ==> assignments[k].assignmentId == id)
    ensures forall j :: 0 <= j < k ==> assignments[j].assignmentId != id
  {
    IndexOf(assignments, (a: Assignment) => a.assignmentId == id)
  }

  /** How many unreleased assignments a host carries. */
  function InUse(assignments: seq<Assignment>, host: string): (n: nat) {
    if assignments == [] then 0
    else
      var last := assignments[|assignments| - 1];
      InUse(assignments[..|assignments| - 1], host) + if last.hostId == host && last.releasedAt.None? then 1 else 0
  }

  /** Why this host cannot run this pool. */
  predicate Refuses(h: Host, p: Pool) {
    || h.state != Active
    || p.runtime !in h.runtimes
    || (forall a :: a in p.architectures ==> a !in h.architectures)
    || p.poolId !in h.allowedPools
  }

  /* ---- Transitions ---- */

  function WithAssignment(s: DesiredState, assignmentId: string, requestId: string, poolId: string, hostId: string, at: int): (r: Result) {
    var p, h := FindPool(s.pools, poolId), FindHost(s.hosts, hostId);
    if p == |s.pools| || h == |s.hosts| then ModelError
    else if Refuses(s.hosts[h], s.pools[p]) then ModelError
    else if InUse(s.assignments, hostId) >= s.hosts[h].slots then ModelError
    else if !Identifier(assignmentId) || !RequestId(requestId) || !Identifier(poolId) || !Identifier(hostId) then ModelError
    else if FindAssignment(s.assignments, assignmentId) < |s.assignments| then ModelError
    else Ok(s.(revision := s.revision + 1,
               assignments := s.assignments + [Assignment(assignmentId, requestId, poolId, hostId, at, None)]))
  }

  function WithRelease(s: DesiredState, assignmentId: string, at: int): (r: Result) {
    var k := FindAssignment(s.assignments, assignmentId);
    if k == |s.assignments| then ModelError
    else if s.assignments[k].releasedAt.Some? || at < s.assignments[k].issuedAt then ModelError
    else Ok(s.(revision := s.revision + 1, assignments := s.assignments[k := s.assignments[k].(releasedAt := Some(at))]))
  }

  function WithDrain(s: DesiredState, hostId: string, reason: string, at: int): (r: Result) {
    var h := FindHost(s.hosts, hostId);
    if h == |s.hosts| || s.hosts[h].state != Active || !Identifier(hostId) || !FreeText(reason) then ModelError
    else Ok(s.(revision := s.revision + 1, hosts := s.hosts[h := s.hosts[h].(state := Draining)],
               drains := s.drains + [Drain(hostId, reason, at, DrainOpen, None, None)]))
  }

  function SettleDrains(drains: seq<Drain>, hostId: string, from: DrainState, at: int): (r: seq<Drain>) {
    seq(|drains|, i requires 0 <= i < |drains| =>
      var d := drains[i];
      if d.hostId != hostId || d.state != from then d
      else if from == DrainOpen then d.(state := DrainDone, completedAt := Some(at))
      else d.(state := DrainEnded, endedAt := Some(at)))
  }

  function WithDrainComplete(s: DesiredState, hostId: string, at: int): (r: Result) {
    var h := FindHost(s.hosts, hostId);
    if h == |s.hosts| || s.hosts[h].state != Draining || InUse(s.assignments, hostId) != 0 then ModelError
    else Ok(s.(revision := s.revision + 1, hosts := s.hosts[h := s.hosts[h].(state := Drained)],
               drains := SettleDrains(s.drains, hostId, DrainOpen, at)))
  }

  function WithHostReturned(s: DesiredState, hostId: string, at: int): (r: Result) {
    var h := FindHost(s.hosts, hostId);
    if h == |s.hosts| || s.hosts[h].state != Drained then ModelError
    else Ok(s.(revision := s.revision + 1, hosts := s.hosts[h := s.hosts[h].(state := Active)],
               drains := SettleDrains(s.drains, hostId, DrainDone, at)))
  }

  function WithRollout(s: DesiredState, rolloutId: string, poolId: string, toImage: string, at: int): (r: Result) {
    var p := FindPool(s.pools, poolId);
    if p == |s.pools| || !Digest(toImage) || s.pools[p].image == toImage then ModelError
    else if !Identifier(rolloutId) || !Identifier(poolId) || !Digest(s.pools[p].image) then ModelError
    else if exists i :: 0 <= i < |s.rollouts| && s.rollouts[i].rolloutId == rolloutId then ModelError
    else
      var pool := s.pools[p];
      Ok(s.(revision := s.revision + 1,
            pools := s.pools[p := pool.(revision := pool.revision + 1, image := toImage, rollback := pool.image)],
            rollouts := s.rollouts + [Rollout(rolloutId, poolId, pool.image, toImage, at)]))
  }

  /* ---- Exactly when a transition is possible, and what it makes ---- */

  lemma {:induction false} CoreSpells(s: string)
    ensures Spelled(s, Core(s))
  {
    if |s| > 0 && s[|s| - 1] == '\n' {
      assert s == s[..|s| - 1] + "\n";
    }
  }

  /** A core that does not end with a newline is the only one. */
  lemma {:induction false} CoreIsUnique(s: string, core: string)
    requires Spelled(s, core) && core != "" && core[|core| - 1] != '\n'
    ensures Core(s) == core
  {
  }

  /** Every character of a text is allowed where it stands. */
  ghost predicate Throughout(core: string, allowed: (char, nat) -> bool) {
    forall i :: 0 <= i < |core| ==> allowed(core[i], i)
  }

  lemma {:induction false} ShapedIff(s: string, head: char -> bool, tail: char -> bool, most: nat, allowed: (char, nat) -> bool)
    requires forall c, i: nat :: allowed(c, i) == if i == 0 then head(c) else tail(c)
    requires !head('\n') && !tail('\n')
    ensures Shaped(s, head, tail, most) <==> exists core :: Spelled(s, core) && 1 <= |core| <= most && Throughout(core, allowed)
  {
    if core :| Spelled(s, core) && 1 <= |core| <= most && Throughout(core, allowed) {
      assert allowed(core[|core| - 1], |core| - 1) && allowed(core[0], 0);
      CoreIsUnique(s, core);
    }
    if Shaped(s, head, tail, most) {
      var core := Core(s);
      CoreSpells(s);
      forall i | 0 <= i < |core| ensures allowed(core[i], i) {
        assert i > 0 ==> tail(core[i]);
      }
    }
  }

  /** The identifiers: a lower-case letter or a digit, then at most 63 more of those, dots, underscores and hyphens. */
  lemma {:induction false} IdentifierIff(s: string)
    ensures Identifier(s) <==>
            exists core :: Spelled(s, core) && 1 <= |core| <= 64 &&
              Throughout(core, (c, i) => 'a' <= c <= 'z' || '0' <= c <= '9' || (i > 0 && (c == '.' || c == '_' || c == '-')))
  {
    ShapedIff(s, c => Lower(c) || IsDigit(c), c => Lower(c) || IsDigit(c) || c in "._-", 64,
      (c, i) => 'a' <= c <= 'z' || '0' <= c <= '9' || (i > 0 && (c == '.' || c == '_' || c == '-')));
  }

  /** Request ids and idempotency keys: a letter or a digit, then at most 127 more of those, dots, underscores, colons and hyphens. */
  lemma {:induction false} RequestIdIff(s: string)
    ensures RequestId(s) <==>
            exists core :: Spelled(s, core) && 1 <= |core| <= 128 &&
              Throughout(core, (c, i) => 'a' <= c <= 'z' || 'A' <= c <= 'Z' || '0' <= c <= '9'
                                         || (i > 0 && (c == '.' || c == '_' || c == ':' || c == '-')))
  {
    ShapedIff(s, c => Lower(c) || Upper(c) || IsDigit(c), c => Lower(c) || Upper(c) || IsDigit(c) || c in "._:-", 128,
      (c, i) => 'a' <= c <= 'z' || 'A' <= c <= 'Z' || '0' <= c <= '9' || (i > 0 && (c == '.' || c == '_' || c == ':' || c == '-')));
  }

  /** Free text: up to 96 letters, digits, spaces and a few marks. */
  lemma {:induction false} FreeTextIff(s: string)
    ensures FreeText(s) <==>
            exists core :: Spelled(s, core) && 1 <= |core| <= 96 &&
              Throughout(core, (c, i) => 'a' <= c <= 'z' || 'A' <= c <= 'Z' || '0' <= c <= '9'
                                         || c == ' ' || c == '.' || c == ',' || c == ':' || c == '/' || c == '_' || c == '+' || c == '-')
  {
    ShapedIff(s, c => Lower(c) || Upper(c) || IsDigit(c) || c in " .,:/_+-", c => Lower(c) || Upper(c) || IsDigit(c) || c in " .,:/_+-", 96,
      (c, i) => 'a' <= c <= 'z' || 'A' <= c <= 'Z' || '0' <= c <= '9'
                || c == ' ' || c == '.' || c == ',' || c == ':' || c == '/' || c == '_' || c == '+' || c == '-');
  }

  /** A pinned image: `sha256:` and sixty-four lower-case hexadecimal digits. */
  lemma {:induction false} DigestIff(s: string)
    ensures Digest(s) <==>
            exists core :: Spelled(s, core) && |core| == 71 && core[..7] == "sha256:" &&
              Throughout(core[7..], (c, i) => '0' <= c <= '9' || 'a' <= c <= 'f')
  {
    if core :| Spelled(s, core) && |core| == 71 && core[..7] == "sha256:" && Throughout(core[7..], (c, i) => '0' <= c <= '9' || 'a' <= c <= 'f') {
      assert core[70] == core[7..][63];
      CoreIsUnique(s, core);
      assert forall i :: 7 <= i < 71 ==> core[i] == core[7..][i - 7];
    }
    CoreSpells(s);
  }

  /** The assignments that take a slot of a host. */
  ghost function Taking(assignments: seq<Assignment>, host: string): (r: set<int>) {
    set i | 0 <= i < |assignments| && assignments[i].hostId == host && assignments[i].releasedAt.None?
  }

  lemma {:induction false} TakingLast(assignments: seq<Assignment>, host: string, n: nat)
    requires n == |assignments| - 1
    ensures n !in Taking(assignments[..n], host)
    ensures Taking(assignments, host) ==
            Taking(assignments[..n], host) + if assignments[n].hostId == host && assignments[n].releasedAt.None? then {n} else {}
  {
  }

  /** The slots in use are as many as a host's assignments that are not released. */
  lemma {:induction false} InUseCounts(assignments: seq<Assignment>, host: string)
    ensures InUse(assignments, host) == |Taking(assignments, host)|
  {
    if assignments != [] {
      var n := |assignments| - 1;
      InUseCounts(assignments[..n], host);
      TakingLast(assignments, host, n);
    }
  }

  /** Work goes only to an active host that offers the pool's runtime and one of its architectures, allows the pool, and has a slot free. */
  ghost predicate Admits(s: DesiredState, poolId: string, hostId: string) {
    var p, h := FindPool(s.pools, poolId), FindHost(s.hosts, hostId);
    && p < |s.pools| && h < |s.hosts|
    && s.hosts[h].state == Active && s.pools[p].runtime in s.hosts[h].runtimes
    && (exists a :: a in s.pools[p].architectures && a in s.hosts[h].architectures)
    && poolId in s.hosts[h].allowedPools && InUse(s.assignments, hostId) < s.hosts[h].slots
  }

  lemma {:induction false} AssignsIff(s: DesiredState, assignmentId: string, requestId: string, poolId: string, hostId: string, at: int)
    ensures var r := WithAssignment(s, assignmentId, requestId, poolId, hostId, at);
            && (r.Ok? <==>
                  && Admits(s, poolId, hostId)
                  && Identifier(assignmentId) && RequestId(requestId) && Identifier(poolId) && Identifier(hostId)
                  && forall i :: 0 <= i < |s.assignments| ==> s.assignments[i].assignmentId != assignmentId)
            && (r.Ok? ==> r.state == DesiredState(s.revision + 1, s.pools, s.hosts,
                                                  s.assignments + [Assignment(assignmentId, requestId, poolId, hostId, at, None)], s.drains, s.rollouts))
            && !r.PlanError?
  {
    var k := FindAssignment(s.assignments, assignmentId);
    assert k == |s.assignments| <==> forall i :: 0 <= i < |s.assignments| ==> s.assignments[i].assignmentId != assignmentId;
  }

  /** An assignment that is there, not released, and issued no later than now is released, once and for all. */
  lemma {:induction false} ReleasesIff(s: DesiredState, assignmentId: string, at: int)
    ensures var r, k := WithRelease(s, assignmentId, at), FindAssignment(s.assignments, assignmentId);
            && (r.Ok? <==> k < |s.assignments| && s.assignments[k].releasedAt.None? && s.assignments[k].issuedAt <= at)
            && (r.Ok? ==>
                  var a := s.assignments[k];
                  r.state == DesiredState(s.revision + 1, s.pools, s.hosts,
                    s.assignments[k := Assignment(a.assignmentId, a.requestId, a.poolId, a.hostId, a.issuedAt, Some(at))], s.drains, s.rollouts))
            && !r.PlanError?
  {
  }

  /** The host at `k`, in another state. */
  function HostsWith(hosts: seq<Host>, k: nat, state: HostState): (r: seq<Host>)
    requires k < |hosts|
  {
    var h := hosts[k];
    hosts[k := Host(h.hostId, h.architectures, h.runtimes, h.allowedPools, h.slots, state)]
  }

  /** An active host starts draining, for a stated reason. */
  lemma {:induction false} DrainsIff(s: DesiredState, hostId: string, reason: string, at: int)
    ensures var r, h := WithDrain(s, hostId, reason, at), FindHost(s.hosts, hostId);
            && (r.Ok? <==> h < |s.hosts| && s.hosts[h].state == Active && Identifier(hostId) && FreeText(reason))
            && (r.Ok? ==> r.state == DesiredState(s.revision + 1, s.pools, HostsWith(s.hosts, h, Draining), s.assignments,
                                                  s.drains + [Drain(hostId, reason, at, DrainOpen, None, None)], s.rollouts))
            && !r.PlanError?
  {
  }

  /** The drains of one host move on from `before` to `after`, and all others stay as they are. */
  ghost predicate Settled(drains: seq<Drain>, drains': seq<Drain>, hostId: string, before: DrainState, after: Drain -> Drain) {
    && |drains'| == |drains|
    && forall i :: 0 <= i < |drains| ==>
         drains'[i] == if drains[i].hostId == hostId && drains[i].state == before then after(drains[i]) else drains[i]
  }

  /** A draining host with no work left is drained, and its open drain is completed. */
  lemma {:induction false} CompletesIff(s: DesiredState, hostId: string, at: int)
    ensures var r, h := WithDrainComplete(s, hostId, at), FindHost(s.hosts, hostId);
            && (r.Ok? <==> h < |s.hosts| && s.hosts[h].state == Draining && InUse(s.assignments, hostId) == 0)
            && (r.Ok? ==>
                  && r.state == DesiredState(s.revision + 1, s.pools, HostsWith(s.hosts, h, Drained), s.assignments, r.state.drains, s.rollouts)
                  && Settled(s.drains, r.state.drains, hostId, DrainOpen,
                       (d: Drain) => Drain(d.hostId, d.reason, d.requestedAt, DrainDone, Some(at), d.endedAt)))
            && !r.PlanError?
  {
  }

  /** A drained host returns to service, and its completed drain is ended. */
  lemma {:induction false} ReturnsIff(s: DesiredState, hostId: string, at: int)
    ensures var r, h := WithHostReturned(s, hostId, at), FindHost(s.hosts, hostId);
            && (r.Ok? <==> h < |s.hosts| && s.hosts[h].state == Drained)
            && (r.Ok? ==>
                  && r.state == DesiredState(s.revision + 1, s.pools, HostsWith(s.hosts, h, Active), s.assignments, r.state.drains, s.rollouts)
                  && Settled(s.drains, r.state.drains, hostId, DrainDone,
                       (d: Drain) => Drain(d.hostId, d.reason, d.requestedAt, DrainEnded, d.completedAt, Some(at))))
            && !r.PlanError?
  {
  }

  /** A pool takes another pinned image under a new rollout id, and keeps the one it had to roll back to. */
  lemma {:induction false} RollsOutIff(s: DesiredState, rolloutId: string, poolId: string, toImage: string, at: int)
    ensures var r, p := WithRollout(s, rolloutId, poolId, toImage, at), FindPool(s.pools, poolId);
            && (r.Ok? <==>
                  && p < |s.pools| && Digest(toImage) && Digest(s.pools[p].image) && toImage != s.pools[p].image
                  && Identifier(rolloutId) && Identifier(poolId)
                  && forall i :: 0 <= i < |s.rollouts| ==> s.rollouts[i].rolloutId != rolloutId)
            && (r.Ok? ==>
                  var q := s.pools[p];
                  r.state == DesiredState(s.revision + 1,
                    s.pools[p := Pool(q.poolId, q.revision + 1, q.runtime, q.architectures, toImage, q.image)],
                    s.hosts, s.assignments, s.drains, s.rollouts + [Rollout(rolloutId, poolId, q.image, toImage, at)]))
            && !r.PlanError?
  {
  }

  /* ---- What every transition keeps ---- */

  /** Hosts and assignments are named once, no host is over its slots, a drained host is empty, and a rollback image is a real alternative. */
  ghost predicate WithinCapacity(s: DesiredState) {
    && (forall i, j :: 0 <= i < j < |s.hosts| ==> s.hosts[i].hostId != s.hosts[j].hostId)
    && (forall i, j :: 0 <= i < j < |s.assignments| ==> s.assignments[i].assignmentId != s.assignments[j].assignmentId)
    && (forall i :: 0 <= i < |s.hosts| ==> HostFits(s, i))
    && (forall i :: 0 <= i < |s.pools| ==> s.pools[i].image != s.pools[i].rollback)
  }

  predicate HostFits(s: DesiredState, i: nat)
    requires i < |s.hosts|
  {
    var h := s.hosts[i];
    InUse(s.assignments, h.hostId) <= h.slots && (h.state == Drained ==> InUse(s.assignments, h.hostId) == 0)
  }

  lemma {:induction false} InUseAppend(assignments: seq<Assignment>, a: Assignment, host: string)
    ensures InUse(assignments + [a], host) == InUse(assignments, host) + if a.hostId == host && a.releasedAt.None? then 1 else 0
  {
    assert (assignments + [a])[..|assignments|] == assignments;
  }

  lemma {:induction false} InUseRelease(assignments: seq<Assignment>, k: nat, at: int, host: string)
    requires k < |assignments| && assignments[k].releasedAt.None?
    ensures InUse(assignments[k := assignments[k].(releasedAt := Some(at))], host)
            == InUse(assignments, host) - if assignments[k].hostId == host then 1 else 0
  {
    var n := |assignments| - 1;
    var after := assignments[k := assignments[k].(releasedAt := Some(at))];
    if k == n {
      assert after[..n] == assignments[..n];
    } else {
      assert after[..n] == assignments[..n][k := assignments[k].(releasedAt := Some(at))];
      InUseRelease(assignments[..n], k, at, host);
    }
  }

  lemma {:induction false} AppendKeeps(s: DesiredState, s': DesiredState, a: Assignment, h: nat)
    requires WithinCapacity(s) && s'.hosts == s.hosts && s'.pools == s.pools && s'.assignments == s.assignments + [a]
    requires forall i :: 0 <= i < |s.assignments| ==> s.assignments[i].assignmentId != a.assignmentId
    requires h < |s.hosts| && s.hosts[h].hostId == a.hostId && s.hosts[h].state == Active && InUse(s.assignments, a.hostId) < s.hosts[h].slots
    ensures WithinCapacity(s')
  {
    forall i | 0 <= i < |s'.hosts| ensures HostFits(s', i) {
      assert HostFits(s, i);
      InUseAppend(s.assignments, a, s.hosts[i].hostId);
    }
  }

  lemma {:induction false} AssignmentKeeps(s: DesiredState, assignmentId: string, requestId: string, poolId: string, hostId: string, at: int)
    requires WithinCapacity(s) && WithAssignment(s, assignmentId, requestId, poolId, hostId, at).Ok?
    ensures WithinCapacity(WithAssignment(s, assignmentId, requestId, poolId, hostId, at).state)
  {
    AssignsIff(s, assignmentId, requestId, poolId, hostId, at);
    AppendKeeps(s, WithAssignment(s, assignmentId, requestId, poolId, hostId, at).state,
      Assignment(assignmentId, requestId, poolId, hostId, at, None), FindHost(s.hosts, hostId));
  }

  lemma {:induction false} ReleaseKeeps(s: DesiredState, assignmentId: string, at: int)
    requires WithinCapacity(s) && WithRelease(s, assignmentId, at).Ok?
    ensures WithinCapacity(WithRelease(s, assignmentId, at).state)
  {
    var s' := WithRelease(s, assignmentId, at).state;
    forall i | 0 <= i < |s'.hosts| ensures HostFits(s', i) {
      assert HostFits(s, i);
      InUseRelease(s.assignments, FindAssignment(s.assignments, assignmentId), at, s.hosts[i].hostId);
    }
  }

  /** Changing one host's state keeps the invariant, if the host is empty whenever the new state says so. */
  lemma {:induction false} HostStateKeeps(s: DesiredState, s': DesiredState, h: nat, state: HostState)
    requires WithinCapacity(s) && h < |s.hosts| && s'.hosts == s.hosts[h := s.hosts[h].(state := state)]
    requires s'.assignments == s.assignments && s'.pools == s.pools
    requires state == Drained ==> InUse(s.assignments, s.hosts[h].hostId) == 0
    ensures WithinCapacity(s')
  {
    forall i | 0 <= i < |s'.hosts| ensures HostFits(s', i) {
      assert HostFits(s, i);
    }
  }

  lemma {:induction false} RolloutKeeps(s: DesiredState, rolloutId: string, poolId: string, toImage: string, at: int)
    requires WithinCapacity(s) && WithRollout(s, rolloutId, poolId, toImage, at).Ok?
    ensures WithinCapacity(WithRollout(s, rolloutId, poolId, toImage, at).state)
  {
    var s' := WithRollout(s, rolloutId, poolId, toImage, at).state;
    forall i | 0 <= i < |s'.hosts| ensures HostFits(s', i) {
      assert HostFits(s, i);
    }
  }
}
