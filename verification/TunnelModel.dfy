/**
 The tunnel pool as a transition system. Every critical section is one step; lookups of any
 number of goroutines interleave between their fast and slow path. `E` is the type of
 references to tunnel entries; a dial gives a reference that was not in use before.
 */
module TunnelModel {
  import opened Common
  import opened TunnelKeys

  const TTL := 3600

  /** What an entry holds; `key` is the map key it was stored under and `closes` counts the times
      its `done` channel was closed. */
  datatype Entry = Entry(key: string, req: Request, localPort: int, createdAt: int, refs: int, closes: nat) {
    predicate Open() { closes == 0 }
  }

  datatype Pool<E> = Pool(tunnels: map<string, E>, entries: map<E, Entry>)

  predicate Expired(e: Entry, now: int) { now - e.createdAt >= TTL }

  // ---------- The critical sections ----------

  ghost predicate Hit<E>(p: Pool<E>, key: string, now: int) {
    key in p.tunnels && p.tunnels[key] in p.entries && !Expired(p.entries[p.tunnels[key]], now)
  }

  ghost function AddRef<E>(p: Pool<E>, e: E, n: int): Pool<E>
    requires e in p.entries
  {
    p.(entries := p.entries[e := p.entries[e].(refs := p.entries[e].refs + n)])
  }

  /** The read-locked section of `GetOrCreate`. */
  ghost function FastPath<E>(p: Pool<E>, key: string, now: int): (Pool<E>, Option<E>) {
    if Hit(p, key, now) then (AddRef(p, p.tunnels[key], 1), Some(p.tunnels[key])) else (p, None)
  }

  ghost predicate PoolOk<E>(p: Pool<E>) {
    && (forall k | k in p.tunnels ::
          p.tunnels[k] in p.entries && p.entries[p.tunnels[k]].Open() && p.entries[p.tunnels[k]].key == k)
    && (forall e | e in p.entries ::
          p.entries[e].closes <= 1 && (p.entries[e].Open() ==> MappedAt(p, e)))
  }

  ghost predicate MappedAt<E>(p: Pool<E>, e: E)
    requires e in p.entries
  {
    p.entries[e].key in p.tunnels && p.tunnels[p.entries[e].key] == e
  }

  /** `e` is cached under one of `keys`. */
  ghost predicate CachedUnder<E>(p: Pool<E>, keys: set<string>, e: E) {
    exists k :: k in keys && k in p.tunnels && p.tunnels[k] == e
  }

  /** Closes the tunnels cached under `keys` and drops them from the map. */
  ghost function CloseKeys<E>(p: Pool<E>, keys: set<string>): Pool<E> {
    Pool(p.tunnels - keys, map e | e in p.entries ::
      if CachedUnder(p, keys, e) then p.entries[e].(closes := p.entries[e].closes + 1) else p.entries[e])
  }

  /** The write-locked section; `dial` is the new tunnel with its port and creation time, which is read after the
      tunnel is set up, or none if that failed. */
  ghost function SlowPath<E>(p: Pool<E>, key: string, r: Request, now: int, dial: Option<(E, int, int)>): (Pool<E>,
      Option<E>) {
    if Hit(p, key, now) then (AddRef(p, p.tunnels[key], 1), Some(p.tunnels[key])) else
    var p1 := CloseKeys(p, {key});
    match dial
    case None => (p1, None)
    case Some((e, port, at)) =>
      (Pool(p1.tunnels[key := e], p1.entries[e := Entry(key, r, port, at, 1, 0)]), Some(e))
  }

  ghost function StaleKeys<E>(p: Pool<E>, now: int): set<string> {
    set k | k in p.tunnels && p.tunnels[k] in p.entries
      && Expired(p.entries[p.tunnels[k]], now) && p.entries[p.tunnels[k]].refs == 0
  }

  ghost function CleanupStale<E>(p: Pool<E>, now: int): Pool<E> { CloseKeys(p, StaleKeys(p, now)) }

  ghost function CloseAll<E>(p: Pool<E>): Pool<E> { CloseKeys(p, p.tunnels.Keys) }

  // ---------- Each section keeps the pool consistent ----------

  lemma AddRefKeepsOk<E>(p: Pool<E>, e: E, n: int)
    requires PoolOk(p) && e in p.entries
    ensures PoolOk(AddRef(p, e, n))
  {
    var p1 := AddRef(p, e, n);
    assert forall x | x in p.entries :: MappedAt(p, x) ==> MappedAt(p1, x);
  }

  lemma CloseKeysKeepsOk<E>(p: Pool<E>, keys: set<string>)
    requires PoolOk(p)
    ensures PoolOk(CloseKeys(p, keys))
    ensures forall e | e in p.entries ::
      CloseKeys(p, keys).entries[e] ==
        if p.entries[e].Open() && p.entries[e].key in keys then p.entries[e].(closes := 1) else p.entries[e]
  {
    var p1 := CloseKeys(p, keys);
    forall e | e in p.entries
      ensures p1.entries[e] == if p.entries[e].Open()
        && p.entries[e].key in keys then p.entries[e].(closes := 1) else p.entries[e]
    {
      if p.entries[e].Open() {
        assert MappedAt(p, e);
      }
      assert CachedUnder(p, keys, e) <==> p.entries[e].Open() && p.entries[e].key in keys;
    }
    forall e | e in p1.entries && p1.entries[e].Open() ensures MappedAt(p1, e) { assert MappedAt(p, e); }
  }

  lemma SlowPathKeepsOk<E>(p: Pool<E>, key: string, r: Request, now: int, dial: Option<(E, int, int)>)
    requires PoolOk(p) && (dial.Some? ==> dial.value.0 !in p.entries)
    ensures PoolOk(SlowPath(p, key, r, now, dial).0)
  {
    if Hit(p, key, now) {
      AddRefKeepsOk(p, p.tunnels[key], 1);
    } else {
      CloseKeysKeepsOk(p, {key});
      var p1, p2 := CloseKeys(p, {key}), SlowPath(p, key, r, now, dial).0;
      if dial.Some? {
        forall e | e in p2.entries && p2.entries[e].Open() ensures MappedAt(p2, e) {
          assert e in p1.entries ==> MappedAt(p1, e);
        }
      }
    }
  }

  // ---------- Interleaved runs ----------

  /** `leases`: lookups that returned and were not released yet. `pending`: lookups between the
      two paths. `shut`: the pool's own `done` channel is closed. */
  datatype System<E> = System(pool: Pool<E>, leases: map<nat, E>, pending: map<nat, Request>, clock: int, shut: bool)

  datatype Step<E> =
    | Lookup(id: nat, req: Request)
    | Resume(id: nat, dial: Option<(E, int, int)>)
    | Release(id: nat)
    | Cleanup
    | Signal
    | Drain
    | Wait(dt: nat)

  ghost predicate Possible<E>(s: System<E>, a: Step<E>) {
    match a
    case Lookup(id, _) => id !in s.leases && id !in s.pending
    case Resume(id, dial) =>
      id in s.pending && id !in s.leases && (dial.Some? ==> dial.value.0 !in s.pool.entries && s.clock <= dial.value.2)
    case Release(id) => id in s.leases && s.leases[id] in s.pool.entries
    case Signal => !s.shut
    case Drain => s.shut
    case _ => true
  }

  ghost function Lease<E>(s: System<E>, id: nat, result: (Pool<E>, Option<E>)): System<E> {
    s.(pool := result.0, pending := s.pending - {id},
       leases := if result.1.Some? then s.leases[id := result.1.value] else s.leases)
  }

  /** A dial takes time. */
  ghost function AfterDial<E>(s: System<E>, key: string, dial: Option<(E, int, int)>): int {
    if dial.Some? && !Hit(s.pool, key, s.clock) then dial.value.2 else s.clock
  }

  ghost function Next<E>(s: System<E>, a: Step<E>): System<E>
    requires Possible(s, a)
  {
    match a
    case Lookup(id, r) =>
      if Hit(s.pool, TunnelKey(r), s.clock) then Lease(s, id, FastPath(s.pool, TunnelKey(r), s.clock))
      else s.(pending := s.pending[id := r])
    case Resume(id, dial) =>
      var key := TunnelKey(s.pending[id]);
      Lease(s, id, SlowPath(s.pool, key, s.pending[id], s.clock, dial)).(clock := AfterDial(s, key, dial))
    case Release(id) => s.(pool := AddRef(s.pool, s.leases[id], -1), leases := s.leases - {id})
    case Cleanup => s.(pool := CleanupStale(s.pool, s.clock))
    case Signal => s.(shut := true)
    case Drain => s.(pool := CloseAll(s.pool))
    case Wait(dt) => s.(clock := s.clock + dt)
  }

  /** The outstanding leases of an entry. */
  ghost function Holders<E>(leases: map<nat, E>, e: E): set<nat> {
    set id | id in leases && leases[id] == e
  }

  /** Conservation: the pool is consistent and `refs` is issued minus released leases. */
  ghost predicate Inv<E>(s: System<E>) {
    && PoolOk(s.pool)
    && (forall id | id in s.leases :: s.leases[id] in s.pool.entries)
    && (forall id | id in s.pending :: id !in s.leases)
    && (forall e | e in s.pool.entries :: s.pool.entries[e].refs == |Holders(s.leases, e)|)
  }

  lemma IssueCounts<E>(leases: map<nat, E>, id: nat, e: E, x: E)
    requires id !in leases
    ensures |Holders(leases[id := e], x)| == |Holders(leases, x)| + if x == e then 1 else 0
  {
    if x == e {
      assert Holders(leases[id := e], x) == Holders(leases, x) + {id};
    } else {
      assert Holders(leases[id := e], x) == Holders(leases, x);
    }
  }

  lemma ReleaseCounts<E>(leases: map<nat, E>, id: nat, x: E)
    requires id in leases
    ensures |Holders(leases - {id}, x)| == |Holders(leases, x)| - if x == leases[id] then 1 else 0
  {
    if x == leases[id] {
      assert Holders(leases, x) == Holders(leases - {id}, x) + {id};
    } else {
      assert Holders(leases - {id}, x) == Holders(leases, x);
    }
  }

  lemma LookupKeepsInv<E>(s: System<E>, a: Step<E>)
    requires Inv(s) && Possible(s, a) && a.Lookup?
    ensures Inv(Next(s, a))
  {
    var key := TunnelKey(a.req);
    if Hit(s.pool, key, s.clock) {
      var e := s.pool.tunnels[key];
      AddRefKeepsOk(s.pool, e, 1);
      forall x | x in s.pool.entries ensures Next(s, a).pool.entries[x].refs == |Holders(s.leases[a.id := e], x)| {
        IssueCounts(s.leases, a.id, e, x);
      }
    }
  }

  lemma ResumeKeepsInv<E>(s: System<E>, a: Step<E>)
    requires Inv(s) && Possible(s, a) && a.Resume?
    ensures Inv(Next(s, a))
  {
    var r := s.pending[a.id];
    var (p1, got) := SlowPath(s.pool, TunnelKey(r), r, s.clock, a.dial);
    SlowPathKeepsOk(s.pool, TunnelKey(r), r, s.clock, a.dial);
    if !Hit(s.pool, TunnelKey(r), s.clock) { CloseKeysKeepsOk(s.pool, {TunnelKey(r)}); }
    if got.Some? {
      forall x | x in p1.entries ensures p1.entries[x].refs == |Holders(s.leases[a.id := got.value], x)| {
        IssueCounts(s.leases, a.id, got.value, x);
        if x !in s.pool.entries { assert Holders(s.leases, x) == {}; }
      }
    }
  }

  /** Conservation is kept by every step of every interleaving. */
  lemma StepKeepsInv<E>(s: System<E>, a: Step<E>)
    requires Inv(s) && Possible(s, a)
    ensures Inv(Next(s, a))
  {
    match a
    case Lookup(_, _) => LookupKeepsInv(s, a);
    case Resume(_, _) => ResumeKeepsInv(s, a);
    case Release(id) =>
      AddRefKeepsOk(s.pool, s.leases[id], -1);
      forall x | x in s.pool.entries ensures Next(s, a).pool.entries[x].refs == |Holders(s.leases - {id}, x)| {
        ReleaseCounts(s.leases, id, x);
      }
    case Cleanup => CloseKeysKeepsOk(s.pool, StaleKeys(s.pool, s.clock));
    case Drain => CloseKeysKeepsOk(s.pool, s.pool.tunnels.Keys);
    case _ =>
  }

  /** A run, with the state it ends in. */
  ghost predicate Reaches<E>(s: System<E>, run: seq<Step<E>>, t: System<E>)
    decreases |run|
  {
    if run == [] then s == t else Possible(s, run[0]) && Reaches(Next(s, run[0]), run[1..], t)
  }

  ghost function Start<E>(): System<E> { System(Pool(map[], map[]), map[], map[], 0, false) }

  lemma {:induction false} RunKeepsInv<E>(s: System<E>, run: seq<Step<E>>, t: System<E>)
    requires Inv(s) && Reaches(s, run, t)
    ensures Inv(t)
    decreases |run|
  {
    if run != [] {
      StepKeepsInv(s, run[0]);
      RunKeepsInv(Next(s, run[0]), run[1..], t);
    }
  }

  /** In every reachable state the open tunnels are exactly the map's values, one key leads to at
      most one of them, no `done` channel was closed twice, and `refs` counts the outstanding leases. */
  lemma TunnelsAreConserved<E>(run: seq<Step<E>>, t: System<E>)
    requires Reaches(Start(), run, t)
    ensures (set e | e in t.pool.entries && t.pool.entries[e].Open()) == t.pool.tunnels.Values
    ensures forall k, k' | k in t.pool.tunnels && k' in t.pool.tunnels && t.pool.tunnels[k] == t.pool.tunnels[k'] ::
      k == k'
    ensures forall e | e in t.pool.entries ::
      t.pool.entries[e].closes <= 1 && t.pool.entries[e].refs == |Holders(t.leases, e)|
  {
    RunKeepsInv(Start<E>(), run, t);
    forall e | e in t.pool.entries && t.pool.entries[e].Open() ensures e in t.pool.tunnels.Values {
      assert MappedAt(t.pool, e);
    }
  }

  /** The entries of `p` are still there, with what they were created with. */
  ghost predicate Stays<E>(p: Pool<E>, p1: Pool<E>) {
    forall e | e in p.entries ::
      e in p1.entries && p1.entries[e].key == p.entries[e].key && p1.entries[e].req == p.entries[e].req
        && p1.entries[e].createdAt == p.entries[e].createdAt && p1.entries[e].localPort == p.entries[e].localPort
  }

  lemma CloseKeysStays<E>(p: Pool<E>, keys: set<string>)
    ensures Stays(p, CloseKeys(p, keys)) && CloseKeys(p, keys).entries.Keys == p.entries.Keys
  {
  }

  lemma SlowPathStays<E>(p: Pool<E>, key: string, r: Request, now: int, dial: Option<(E, int, int)>)
    requires dial.Some? ==> dial.value.0 !in p.entries
    ensures var p1 := SlowPath(p, key, r, now, dial).0;
      Stays(p, p1) && forall e | e in p1.entries && e !in p.entries ::
        p1.entries[e].req == r && p1.entries[e].key == key && p1.entries[e].Open()
  {
    CloseKeysStays(p, {key});
  }

  /** An entry keeps what it was created with; a new one answers the request that was pending. */
  lemma EntriesStay<E>(s: System<E>, a: Step<E>)
    requires Inv(s) && Possible(s, a)
    ensures Stays(s.pool, Next(s, a).pool)
    ensures forall e | e in Next(s, a).pool.entries && e !in s.pool.entries ::
      a.Resume? && Next(s, a).pool.entries[e].req == s.pending[a.id]
      && Next(s, a).pool.entries[e].key == TunnelKey(s.pending[a.id]) && Next(s, a).pool.entries[e].Open()
  {
    match a
    case Resume(id, _) => SlowPathStays(s.pool, TunnelKey(s.pending[id]), s.pending[id], s.clock, a.dial);
    case Cleanup => CloseKeysStays(s.pool, StaleKeys(s.pool, s.clock));
    case Drain => CloseKeysStays(s.pool, s.pool.tunnels.Keys);
    case _ =>
  }

  // ---------- Lease safety ----------

  /** The three ways to lose a tunnel: shutdown; cleanup, if it is expired and nobody holds it;
      and a lookup of its own key that finds it expired, whoever holds it. */
  ghost predicate Closes<E>(s: System<E>, a: Step<E>, e: E)
    requires e in s.pool.entries
  {
    || a.Drain?
    || (a.Cleanup? && s.clock - s.pool.entries[e].createdAt >= 3600 && Holders(s.leases, e) == {})
    || (a.Resume? && a.id in s.pending && TunnelKey(s.pending[a.id]) == s.pool.entries[e].key
        && s.clock - s.pool.entries[e].createdAt >= 3600)
  }

  lemma ResumeCloses<E>(s: System<E>, a: Step<E>, e: E)
    requires Inv(s) && Possible(s, a) && a.Resume? && e in s.pool.entries && s.pool.entries[e].Open()
    ensures e in Next(s, a).pool.entries
    ensures !Next(s, a).pool.entries[e].Open() <==> Closes(s, a, e)
  {
    var key := TunnelKey(s.pending[a.id]);
    assert MappedAt(s.pool, e);
    CloseKeysKeepsOk(s.pool, {key});
    assert Next(s, a).pool == SlowPath(s.pool, key, s.pending[a.id], s.clock, a.dial).0;
    if Hit(s.pool, key, s.clock) {
      assert s.pool.entries[e].key == key ==> s.pool.tunnels[key] == e;
    } else if s.pool.entries[e].key == key {
      assert Expired(s.pool.entries[e], s.clock);
    }
  }

  lemma CleanupCloses<E>(s: System<E>, e: E)
    requires Inv(s) && e in s.pool.entries && s.pool.entries[e].Open()
    ensures !CleanupStale(s.pool, s.clock).entries[e].Open() <==>
      s.clock - s.pool.entries[e].createdAt >= 3600 && Holders(s.leases, e) == {}
  {
    assert MappedAt(s.pool, e);
    CloseKeysKeepsOk(s.pool, StaleKeys(s.pool, s.clock));
  }

  /** A step closes an open tunnel exactly in these cases. */
  lemma ClosedExactlyThen<E>(s: System<E>, a: Step<E>, e: E)
    requires Inv(s) && Possible(s, a) && e in s.pool.entries && s.pool.entries[e].Open()
    ensures e in Next(s, a).pool.entries
    ensures !Next(s, a).pool.entries[e].Open() <==> Closes(s, a, e)
  {
    match a
    case Resume(_, _) => ResumeCloses(s, a, e);
    case Cleanup => CleanupCloses(s, e);
    case Drain =>
      assert MappedAt(s.pool, e);
      CloseKeysKeepsOk(s.pool, s.pool.tunnels.Keys);
    case _ =>
  }

  ghost predicate NoDrain<E>(run: seq<Step<E>>) { forall a | a in run :: !a.Drain? }

  /** Every closed tunnel has outlived its hour. */
  ghost predicate OnlyOldClosed<E>(s: System<E>) {
    forall e | e in s.pool.entries && !s.pool.entries[e].Open() :: s.clock - s.pool.entries[e].createdAt >= 3600
  }

  lemma StepClosesOnlyOld<E>(s: System<E>, a: Step<E>)
    requires Inv(s) && Possible(s, a) && !a.Drain? && OnlyOldClosed(s)
    ensures OnlyOldClosed(Next(s, a))
  {
    var s1 := Next(s, a);
    EntriesStay(s, a);
    assert s.clock <= s1.clock;
    forall e | e in s1.pool.entries && !s1.pool.entries[e].Open() ensures Expired(s1.pool.entries[e], s1.clock) {
      if s.pool.entries[e].Open() { ClosedExactlyThen(s, a, e); }
    }
  }

  /** Before the pool is shut down no tunnel younger than an hour is ever closed; in particular
      every lease of a young tunnel is a lease of an open one. */
  lemma {:induction false} YoungTunnelsStayOpen<E>(s: System<E>, run: seq<Step<E>>, t: System<E>)
    requires Inv(s) && OnlyOldClosed(s) && Reaches(s, run, t) && NoDrain(run)
    ensures OnlyOldClosed(t)
    ensures forall id | id in t.leases && t.leases[id] in t.pool.entries
      && t.clock - t.pool.entries[t.leases[id]].createdAt < 3600 ::
      t.pool.entries[t.leases[id]].Open()
    decreases |run|
  {
    if run != [] {
      StepClosesOnlyOld(s, run[0]);
      StepKeepsInv(s, run[0]);
      assert run == [run[0]] + run[1..];
      YoungTunnelsStayOpen(Next(s, run[0]), run[1..], t);
    }
  }

  // ---------- Sharing ----------

  /** The request a step answers, if it answers one. */
  ghost function Asked<E>(s: System<E>, a: Step<E>): Option<Request> {
    if a.Lookup? then Some(a.req) else if a.Resume? && a.id in s.pending then Some(s.pending[a.id]) else None
  }

  /** The step ends a lookup of `r` with a lease. */
  ghost predicate Answers<E>(s: System<E>, a: Step<E>, r: Request) {
    Possible(s, a) && (a.Lookup? || a.Resume?) && Asked(s, a) == Some(r) && a.id in Next(s, a).leases
  }

  /** What the slow path comes back with: the young tunnel of its key if there is one, otherwise what was dialled. */
  lemma DialOutcome<E>(s: System<E>, id: nat, dial: Option<(E, int, int)>)
    requires Inv(s) && Possible(s, Resume(id, dial))
    ensures var (r, t) := (s.pending[id], Next(s, Resume(id, dial)));
      if TunnelKey(r) in s.pool.tunnels && s.clock - s.pool.entries[s.pool.tunnels[TunnelKey(r)]].createdAt < 3600 then
        id in t.leases && t.leases[id] == s.pool.tunnels[TunnelKey(r)] && t.pool.entries.Keys == s.pool.entries.Keys
      else if dial.Some? then
        && id in t.leases && t.leases[id] == dial.value.0
        && t.pool.entries.Keys == s.pool.entries.Keys + {dial.value.0}
        && t.pool.entries[dial.value.0] == Entry(TunnelKey(r), r, dial.value.1, dial.value.2, 1, 0)
      else id !in t.leases && t.pool.entries.Keys == s.pool.entries.Keys && TunnelKey(r) !in t.pool.tunnels
  {
  }

  /** What an entry was created with stays, and a young one is not closed. */
  ghost predicate Ages<E>(s: System<E>, t: System<E>, e: E)
    requires e in s.pool.entries
  {
    && s.clock <= t.clock && e in t.pool.entries
    && t.pool.entries[e].key == s.pool.entries[e].key && t.pool.entries[e].localPort == s.pool.entries[e].localPort
    && t.pool.entries[e].createdAt == s.pool.entries[e].createdAt
    && (s.pool.entries[e].Open() && t.clock - s.pool.entries[e].createdAt < 3600 ==> t.pool.entries[e].Open())
  }

  lemma EntryOverStep<E>(s: System<E>, a: Step<E>, e: E)
    requires Inv(s) && Possible(s, a) && !a.Drain? && e in s.pool.entries
    ensures Ages(s, Next(s, a), e)
  {
    EntriesStay(s, a);
    if s.pool.entries[e].Open() { ClosedExactlyThen(s, a, e); }
  }

  lemma {:induction false} EntryOverRun<E>(s: System<E>, run: seq<Step<E>>, t: System<E>, e: E)
    requires Inv(s) && Reaches(s, run, t) && NoDrain(run) && e in s.pool.entries
    ensures Inv(t) && Ages(s, t, e)
    decreases |run|
  {
    if run != [] {
      assert run == [run[0]] + run[1..];
      EntryOverStep(s, run[0], e);
      StepKeepsInv(s, run[0]);
      EntryOverRun(Next(s, run[0]), run[1..], t, e);
    }
  }

  /** The entry a lookup comes back with is young. */
  lemma LeasedIsYoung<E>(s: System<E>, a: Step<E>, r: Request)
    requires Inv(s) && Answers(s, a, r)
    ensures var (t, e) := (Next(s, a), Next(s, a).leases[a.id]);
      e in t.pool.entries && t.clock - t.pool.entries[e].createdAt < 3600
      && (e in s.pool.entries ==> s.clock - s.pool.entries[e].createdAt < 3600)
  {
  }

  /** `u` is a later state of a pool in which `e` was dialled for `key` with this port and creation time. */
  ghost predicate Dialled<E>(u: System<E>, e: E, key: string, port: int, at: int) {
    && Inv(u) && e in u.pool.entries
    && u.pool.entries[e].key == key && u.pool.entries[e].localPort == port && u.pool.entries[e].createdAt == at
    && (u.clock < at + 3600 ==> u.pool.entries[e].Open())
  }

  lemma DialledBeforeRun<E>(s: System<E>, id: nat, e: E, port: int, at: int, run: seq<Step<E>>, u: System<E>)
    requires Inv(s) && Possible(s, Resume(id, Some((e, port, at))))
    requires var t := Next(s, Resume(id, Some((e, port, at))));
      e in t.pool.entries && Reaches(t, run, u) && NoDrain(run)
    ensures Dialled(u, e, TunnelKey(s.pending[id]), port, at)
  {
    var dial := Resume(id, Some((e, port, at)));
    DialOutcome(s, id, Some((e, port, at)));
    StepKeepsInv(s, dial);
    EntryOverRun(Next(s, dial), run, u, e);
  }

  lemma SharedWhileYoung<E>(u: System<E>, e: E, port: int, at: int, a: Step<E>, r: Request)
    requires Dialled(u, e, TunnelKey(r), port, at) && Answers(u, a, r) && u.clock < at + 3600
    ensures Next(u, a).leases[a.id] == e
  {
    assert MappedAt(u.pool, e);
  }

  /** One tunnel for an hour: until the shutdown, every lookup of the same key that returns within an hour of the
      creation shares the tunnel that was dialled, with its port, and every later one gets another. */
  lemma TunnelIsShared<E>(s: System<E>, id: nat, e: E, port: int, at: int, run: seq<Step<E>>, u: System<E>, a: Step<E>,
      r: Request)
    requires Inv(s) && Possible(s, Resume(id, Some((e, port, at))))
    requires var t := Next(s, Resume(id, Some((e, port, at))));
      e in t.pool.entries && Reaches(t, run, u) && NoDrain(run)
    requires Answers(u, a, r) && TunnelKey(r) == TunnelKey(s.pending[id])
    ensures e in Next(u, a).pool.entries && Next(u, a).pool.entries[e].localPort == port
    ensures Next(u, a).leases[a.id] == e <==> u.clock < at + 3600
  {
    DialledBeforeRun(s, id, e, port, at, run, u);
    EntriesStay(u, a);
    if u.clock < at + 3600 { SharedWhileYoung(u, e, port, at, a, r); } else { LeasedIsYoung(u, a, r); }
  }

  /** And within that hour no lookup waits. */
  lemma YoungTunnelAnswers<E>(s: System<E>, id: nat, e: E, port: int, at: int, run: seq<Step<E>>, u: System<E>,
      other: nat, r: Request)
    requires Inv(s) && Possible(s, Resume(id, Some((e, port, at))))
    requires var t := Next(s, Resume(id, Some((e, port, at))));
      e in t.pool.entries && Reaches(t, run, u) && NoDrain(run)
    requires Possible(u, Lookup(other, r)) && TunnelKey(r) == TunnelKey(s.pending[id]) && u.clock < at + 3600
    ensures Answers(u, Lookup(other, r), r)
  {
    DialledBeforeRun(s, id, e, port, at, run, u);
    assert MappedAt(u.pool, e);
  }

  // ---------- Leases of expired tunnels ----------

  /** Leases do not protect against the slow path: whoever looks up the key of an expired, leased
      tunnel closes it under its holder. */
  lemma ExpiredLeaseIsClosed<E>(s: System<E>, id: nat, holder: nat, dial: Option<(E, int, int)>)
    requires Inv(s) && Possible(s, Resume(id, dial)) && holder in s.leases
    requires var e := s.pool.entries[s.leases[holder]];
      e.Open() && s.clock - e.createdAt >= 3600 && e.key == TunnelKey(s.pending[id])
    ensures var t := Next(s, Resume(id, dial));
      holder in t.leases && t.leases[holder] == s.leases[holder] && t.leases[holder] in t.pool.entries
      && !t.pool.entries[t.leases[holder]].Open()
  {
    ResumeCloses(s, Resume(id, dial), s.leases[holder]);
  }

  ghost predicate AllLeasesOpen<E>(s: System<E>) {
    forall id | id in s.leases && s.leases[id] in s.pool.entries :: s.pool.entries[s.leases[id]].Open()
  }

  ghost predicate ExpiredFor<E>(s: System<E>, e: E, key: string) {
    e in s.pool.entries && s.pool.entries[e].key == key && s.clock - s.pool.entries[e].createdAt >= 3600
  }

  /** A shutdown while a lease is out, or a lookup of the key of an expired, leased tunnel. */
  ghost predicate CutsLease<E>(s: System<E>, a: Step<E>) {
    || (a.Drain? && s.leases != map[])
    || (a.Resume? && a.id in s.pending
        && exists id :: id in s.leases && ExpiredFor(s, s.leases[id], TunnelKey(s.pending[a.id])))
  }

  lemma CutMeansClosed<E>(s: System<E>, a: Step<E>)
    requires Inv(s) && Possible(s, a) && AllLeasesOpen(s)
    ensures CutsLease(s, a) <==> exists id :: id in s.leases && Closes(s, a, s.leases[id])
  {
    forall id | id in s.leases ensures Holders(s.leases, s.leases[id]) != {} {
      assert id in Holders(s.leases, s.leases[id]);
    }
    if a.Drain? && s.leases != map[] {
      var id :| id in s.leases;
      assert Closes(s, a, s.leases[id]);
    }
    if a.Resume? && CutsLease(s, a) {
      var id :| id in s.leases && ExpiredFor(s, s.leases[id], TunnelKey(s.pending[a.id]));
      assert Closes(s, a, s.leases[id]);
    }
  }

  /** What a step leases anew is open. */
  lemma NewLeaseIsOpen<E>(s: System<E>, a: Step<E>, id: nat)
    requires Inv(s) && Possible(s, a) && id in Next(s, a).leases
    ensures Next(s, a).leases[id] in Next(s, a).pool.entries
    ensures if id in s.leases then Next(s, a).leases[id] == s.leases[id]
            else Next(s, a).pool.entries[Next(s, a).leases[id]].Open()
  {
    StepKeepsInv(s, a);
  }

  /** While all leases are of open tunnels, a step keeps it so if and only if it cuts none. */
  lemma StepKeepsLeasesOpen<E>(s: System<E>, a: Step<E>)
    requires Inv(s) && Possible(s, a) && AllLeasesOpen(s)
    ensures AllLeasesOpen(Next(s, a)) <==> !CutsLease(s, a)
  {
    var t := Next(s, a);
    StepKeepsInv(s, a);
    CutMeansClosed(s, a);
    forall id | id in s.leases
      ensures s.leases[id] in t.pool.entries && (!t.pool.entries[s.leases[id]].Open() <==> Closes(s, a, s.leases[id]))
    {
      ClosedExactlyThen(s, a, s.leases[id]);
    }
    if CutsLease(s, a) {
      var id :| id in s.leases && Closes(s, a, s.leases[id]);
      assert id in t.leases && t.leases[id] == s.leases[id];
    } else {
      forall id | id in t.leases ensures t.pool.entries[t.leases[id]].Open() { NewLeaseIsOpen(s, a, id); }
    }
  }

  ghost predicate AlwaysLeasesOpen<E>(s: System<E>, run: seq<Step<E>>)
    decreases |run|
  {
    AllLeasesOpen(s) && (run != [] && Possible(s, run[0]) ==> AlwaysLeasesOpen(Next(s, run[0]), run[1..]))
  }

  ghost predicate NeverCutsLease<E>(s: System<E>, run: seq<Step<E>>)
    decreases |run|
  {
    run != [] && Possible(s, run[0]) ==> !CutsLease(s, run[0]) && NeverCutsLease(Next(s, run[0]), run[1..])
  }

  /** Over any run every lease is one of an open tunnel in all states if and only if no step cuts a lease. */
  lemma {:induction false} LeasesStayOpen<E>(s: System<E>, run: seq<Step<E>>, t: System<E>)
    requires Inv(s) && AllLeasesOpen(s) && Reaches(s, run, t)
    ensures AlwaysLeasesOpen(s, run) <==> NeverCutsLease(s, run)
    decreases |run|
  {
    if run != [] {
      StepKeepsInv(s, run[0]);
      StepKeepsLeasesOpen(s, run[0]);
      if AllLeasesOpen(Next(s, run[0])) { LeasesStayOpen(Next(s, run[0]), run[1..], t); }
    }
  }

  /** One tunnel, dialled at the start for `r` and leased once, cached under `key`. */
  ghost function OneTunnel(key: string, r: Request, pending: map<nat, Request>, clock: int): System<nat> {
    System(Pool(map[key := 10], map[10 := Entry(key, r, 4000, 0, 1, 0)]), map[0 := 10], pending, clock, false)
  }

  lemma Begins<E>(s: System<E>, a: Step<E>, rest: seq<Step<E>>, run: seq<Step<E>>, u: System<E>)
    requires Possible(s, a) && Reaches(Next(s, a), rest, u) && run == [a] + rest
    ensures Reaches(s, run, u)
  {
    assert run[1..] == rest;
  }

  /** Any run that goes on from there can be preceded by the lookup and the dial. */
  lemma DialledBefore(r: Request, rest: seq<Step<nat>>, u: System<nat>) returns (run: seq<Step<nat>>)
    requires Reaches(OneTunnel(TunnelKey(r), r, map[], 0), rest, u)
    ensures Reaches(Start(), run, u) && (NoDrain(rest) ==> NoDrain(run))
  {
    var a0: Step<nat>, a1: Step<nat> := Lookup(0, r), Resume(0, Some((10, 4000, 0)));
    var s1 := Next(Start(), a0);
    assert Next(s1, a1) == OneTunnel(TunnelKey(r), r, map[], 0);
    Begins(s1, a1, rest, [a1] + rest, u);
    run := [a0] + ([a1] + rest);
    Begins(Start(), a0, [a1] + rest, run, u);
  }

  lemma AnHourLater(r: Request) returns (run: seq<Step<nat>>)
    ensures Reaches(OneTunnel(TunnelKey(r), r, map[], 0), run, OneTunnel(TunnelKey(r), r, map[1 := r], TTL))
    ensures NoDrain(run)
  {
    var a0: Step<nat>, a1: Step<nat> := Wait(TTL), Lookup(1, r);
    var s1 := OneTunnel(TunnelKey(r), r, map[], TTL);
    run := [a0, a1];
    assert Next(OneTunnel(TunnelKey(r), r, map[], 0), a0) == s1;
    assert Next(s1, a1) == OneTunnel(TunnelKey(r), r, map[1 := r], TTL);
    assert run[1..] == [a1] && [a1][1..] == [];
    assert Reaches(s1, [a1], OneTunnel(TunnelKey(r), r, map[1 := r], TTL));
  }

  /** And such a state is reachable, for every request. */
  lemma ExpiredLeaseHappens(r: Request) returns (run: seq<Step<nat>>)
    ensures var s := OneTunnel(TunnelKey(r), r, map[1 := r], TTL);
      && Reaches(Start(), run, s) && NoDrain(run) && Inv(s)
      && Possible(s, Resume(1, None)) && CutsLease(s, Resume(1, None))
  {
    var s := OneTunnel(TunnelKey(r), r, map[1 := r], TTL);
    var rest := AnHourLater(r);
    run := DialledBefore(r, rest, s);
    RunKeepsInv(Start(), run, s);
    assert ExpiredFor(s, s.leases[0], TunnelKey(r));
  }

  // ---------- Cache agreement ----------

  /** Every tunnel was stored under the key of its request. */
  ghost predicate Keyed<E>(s: System<E>) {
    forall e | e in s.pool.entries :: s.pool.entries[e].key == TunnelKey(s.pool.entries[e].req)
  }

  lemma StepKeepsKeyed<E>(s: System<E>, a: Step<E>)
    requires Inv(s) && Possible(s, a) && Keyed(s)
    ensures Keyed(Next(s, a))
  {
    EntriesStay(s, a);
  }

  lemma {:induction false} RunKeepsKeyed<E>(s: System<E>, run: seq<Step<E>>, t: System<E>)
    requires Inv(s) && Keyed(s) && Reaches(s, run, t)
    ensures Inv(t) && Keyed(t)
    decreases |run|
  {
    if run != [] {
      StepKeepsInv(s, run[0]);
      StepKeepsKeyed(s, run[0]);
      RunKeepsKeyed(Next(s, run[0]), run[1..], t);
    }
  }

  /** The lease is one of an open tunnel to exactly the SSH and database endpoints of `r`. */
  ghost predicate Fits<E>(s: System<E>, a: Step<E>, r: Request)
    requires Answers(s, a, r)
  {
    var t := Next(s, a);
    && t.leases[a.id] in t.pool.entries && t.pool.entries[t.leases[a.id]].Open()
    && t.pool.entries[t.leases[a.id]].refs >= 1 && t.pool.entries[t.leases[a.id]].req == r
  }

  /** The entry a lookup comes back with is open and cached under the key it asked for. */
  lemma LeasedUnderKey<E>(s: System<E>, a: Step<E>, r: Request)
    requires Inv(s) && Answers(s, a, r)
    ensures var t := Next(s, a);
      && t.leases[a.id] in t.pool.entries && t.pool.entries[t.leases[a.id]].Open()
      && t.pool.entries[t.leases[a.id]].key == TunnelKey(r)
  {
  }

  lemma LeasesAreCounted<E>(s: System<E>, a: Step<E>, r: Request)
    requires Inv(s) && Answers(s, a, r)
    ensures var t := Next(s, a);
      t.leases[a.id] in t.pool.entries && t.pool.entries[t.leases[a.id]].refs >= 1
  {
    StepKeepsInv(s, a);
    assert a.id in Holders(Next(s, a).leases, Next(s, a).leases[a.id]);
  }

  /** The lease of an unambiguous request fits, whatever else was asked of the pool. */
  lemma LeasesFitTheRequest<E>(s: System<E>, a: Step<E>, r: Request)
    requires Inv(s) && Keyed(s) && Answers(s, a, r) && Unambiguous(r)
    ensures Fits(s, a, r)
  {
    var t := Next(s, a);
    LeasedUnderKey(s, a, r);
    LeasesAreCounted(s, a, r);
    StepKeepsKeyed(s, a);
    UnambiguousHasNoTwin(r, t.pool.entries[t.leases[a.id]].req);
  }

  /** Every lookup of `r` that returns, in any run, gets a lease that fits. */
  ghost predicate AlwaysFits(r: Request) {
    forall run: seq<Step<nat>>, s: System<nat>, a: Step<nat> |
      Reaches(Start(), run, s) && Answers(s, a, r) :: Fits(s, a, r)
  }

  /** The tunnel of another request with the same key is there. */
  ghost predicate TakenByTwin(r: Request, s: System<nat>) {
    exists r' :: r' != r && TunnelKey(r') == TunnelKey(r) && s == OneTunnel(TunnelKey(r'), r', map[], 0)
  }

  lemma TwinComesFirst(r: Request) returns (run: seq<Step<nat>>, s: System<nat>)
    requires !Unambiguous(r)
    ensures Reaches(Start(), run, s) && TakenByTwin(r, s)
  {
    var r' := AmbiguousHasTwin(r);
    s := OneTunnel(TunnelKey(r'), r', map[], 0);
    run := DialledBefore(r', [], s);
  }

  /** Whoever looks up `r` then gets the tunnel of the other request. */
  lemma TwinIsServed(r: Request, s: System<nat>)
    requires TakenByTwin(r, s)
    ensures Answers(s, Lookup(1, r), r) && !Fits(s, Lookup(1, r), r)
  {
  }

  /** The port the pool returns is always one of the requested endpoints if and only if the request is unambiguous. */
  lemma FitsExactly(r: Request)
    ensures AlwaysFits(r) <==> Unambiguous(r)
  {
    if Unambiguous(r) {
      forall run: seq<Step<nat>>, s: System<nat>, a: Step<nat> | Reaches(Start(), run, s) && Answers(s, a, r)
        ensures Fits(s, a, r)
      {
        RunKeepsKeyed(Start(), run, s);
        LeasesFitTheRequest(s, a, r);
      }
    } else {
      var run, s := TwinComesFirst(r);
      TwinIsServed(r, s);
    }
  }

  /** All requests made so far are plain. */
  ghost predicate AllPlain<E>(s: System<E>) {
    && (forall e | e in s.pool.entries :: Plain(s.pool.entries[e].req))
    && (forall id | id in s.pending :: Plain(s.pending[id]))
  }

  ghost predicate PlainStep<E>(a: Step<E>) { a.Lookup? ==> Plain(a.req) }

  lemma StepKeepsPlain<E>(s: System<E>, a: Step<E>)
    requires Inv(s) && Possible(s, a) && AllPlain(s) && PlainStep(a)
    ensures AllPlain(Next(s, a))
  {
    EntriesStay(s, a);
    assert forall id | id in Next(s, a).pending :: id in s.pending || a.Lookup?;
  }

  /** Where only plain requests are made every lease fits, also those of requests that share their key with others. */
  lemma PlainLeasesFit<E>(s: System<E>, a: Step<E>, r: Request)
    requires Inv(s) && Keyed(s) && AllPlain(s) && PlainStep(a) && Answers(s, a, r)
    ensures Fits(s, a, r)
  {
    var t := Next(s, a);
    LeasedUnderKey(s, a, r);
    LeasesAreCounted(s, a, r);
    StepKeepsKeyed(s, a);
    StepKeepsPlain(s, a);
    TunnelKeyIsInjective(t.pool.entries[t.leases[a.id]].req, r);
  }

  /** So it is in every run made of plain requests. */
  lemma {:induction false} RunKeepsPlain<E>(s: System<E>, run: seq<Step<E>>, t: System<E>)
    requires Inv(s) && Keyed(s) && AllPlain(s) && Reaches(s, run, t) && (forall a | a in run :: PlainStep(a))
    ensures Inv(t) && Keyed(t) && AllPlain(t)
    decreases |run|
  {
    if run != [] {
      StepKeepsInv(s, run[0]);
      StepKeepsKeyed(s, run[0]);
      StepKeepsPlain(s, run[0]);
      assert run == [run[0]] + run[1..];
      RunKeepsPlain(Next(s, run[0]), run[1..], t);
    }
  }
}
