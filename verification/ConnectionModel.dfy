/**
 The SQL connection pool as a transition system: `Get` is a sequence of critical sections and
 a ping outside the lock, and any number of calls interleave. `E` is the type of references
 to pool entries; an entry stands for the `sql.DB` handle it holds.
 */
module ConnectionModel {
  import opened Common
  import opened Text

  const IDLE_LIMIT := 600

  datatype Entry = Entry(driver: string, connStr: string, lastUsed: int, open: bool) {
    function Key(): string { PoolKey(driver, connStr) }
  }

  function PoolKey(driver: string, connStr: string): string { driver + ":" + connStr }

  /** Driver names without a colon ("postgres", "mysql") make the key unambiguous. */
  lemma PoolKeyIsInjective(driver: string, connStr: string, driver': string, connStr': string)
    requires ':' !in driver && ':' !in driver' && PoolKey(driver, connStr) == PoolKey(driver', connStr')
    ensures driver == driver' && connStr == connStr'
  {
    SplitAtSeparator(driver, connStr, driver', connStr', ':');
  }

  datatype Pool<E> = Pool(pools: map<string, E>, entries: map<E, Entry>)

  // ---------- The critical sections ----------

  ghost function Touch<E>(p: Pool<E>, e: E, now: int): Pool<E>
    requires e in p.entries
  {
    p.(entries := p.entries[e := p.entries[e].(lastUsed := now)])
  }

  ghost function Shut<E>(p: Pool<E>, e: E): Pool<E>
    requires e in p.entries
  {
    p.(entries := p.entries[e := p.entries[e].(open := false)])
  }

  /** The stale path: the map entry goes by key, whatever it is by now; the handle closed is the one that was pinged. */
  ghost function DropStale<E>(p: Pool<E>, key: string, e: E): Pool<E>
    requires e in p.entries
  {
    Shut(p.(pools := p.pools - {key}), e)
  }

  ghost function Install<E>(p: Pool<E>, driver: string, connStr: string, now: int, e: E): Pool<E> {
    Pool(p.pools[PoolKey(driver, connStr) := e], p.entries[e := Entry(driver, connStr, now, true)])
  }

  ghost predicate CachedUnder<E>(p: Pool<E>, keys: set<string>, e: E) {
    exists k :: k in keys && k in p.pools && p.pools[k] == e
  }

  ghost function CloseKeys<E>(p: Pool<E>, keys: set<string>): Pool<E> {
    Pool(p.pools - keys, map e | e in p.entries ::
      if CachedUnder(p, keys, e) then p.entries[e].(open := false) else p.entries[e])
  }

  ghost function IdleKeys<E>(p: Pool<E>, now: int): set<string> {
    set k | k in p.pools && p.pools[k] in p.entries && p.entries[p.pools[k]].lastUsed < now - IDLE_LIMIT
  }

  // ---------- Interleaved runs ----------

  /** Where a call of `Get` stands. */
  datatype Call<E> =
    | Checking(driver: string, connStr: string)
    | Pinging(driver: string, connStr: string, entry: E)
    | Dropping(driver: string, connStr: string, entry: E)
    | Returning(driver: string, connStr: string, entry: E)
    | Opening(driver: string, connStr: string)

  datatype System<E> = System(pool: Pool<E>, calls: map<nat, Call<E>>, clock: int, shut: bool)

  datatype Step<E> =
    | Begin(id: nat, driver: string, connStr: string)
    | Check(id: nat)
    | Ping(id: nat, alive: bool)
    | Return(id: nat)
    | Drop(id: nat)
    | Open(id: nat, handle: Option<E>)
    | Cleanup
    | Signal
    | Drain
    | Wait(dt: nat)

  /** A ping of a closed handle fails; an opened handle is a new one. */
  ghost predicate Possible<E>(s: System<E>, a: Step<E>) {
    match a
    case Begin(id, _, _) => id !in s.calls
    case Check(id) => id in s.calls && s.calls[id].Checking?
    case Ping(id, alive) => id in s.calls && s.calls[id].Pinging? && s.calls[id].entry in s.pool.entries
                            && (alive ==> s.pool.entries[s.calls[id].entry].open)
    case Return(id) => id in s.calls && s.calls[id].Returning? && s.calls[id].entry in s.pool.entries
    case Drop(id) => id in s.calls && s.calls[id].Dropping? && s.calls[id].entry in s.pool.entries
    case Open(id, handle) => id in s.calls && s.calls[id].Opening? && (handle.Some? ==> handle.value !in s.pool.entries)
    case Signal => !s.shut
    case Drain => s.shut
    case _ => true
  }

  ghost function KeyOf<E>(c: Call<E>): string { PoolKey(c.driver, c.connStr) }

  ghost predicate Mapped<E>(p: Pool<E>, key: string) { key in p.pools && p.pools[key] in p.entries }

  ghost function Next<E>(s: System<E>, a: Step<E>): System<E>
    requires Possible(s, a)
  {
    match a
    case Begin(id, driver, connStr) => s.(calls := s.calls[id := Checking(driver, connStr)])
    case Check(id) =>
      var c := s.calls[id];
      if Mapped(s.pool, KeyOf(c)) then
        s.(pool := Touch(s.pool, s.pool.pools[KeyOf(c)], s.clock),
          calls := s.calls[id := Pinging(c.driver, c.connStr, s.pool.pools[KeyOf(c)])])
      else s.(calls := s.calls[id := Opening(c.driver, c.connStr)])
    case Ping(id, alive) =>
      var c := s.calls[id];
      var next := if alive then Returning(c.driver, c.connStr, c.entry) else Dropping(c.driver, c.connStr, c.entry);
      s.(calls := s.calls[id := next])
    case Return(id) => s.(calls := s.calls - {id})
    case Drop(id) =>
      var c := s.calls[id];
      s.(pool := DropStale(s.pool, KeyOf(c), c.entry), calls := s.calls[id := Checking(c.driver, c.connStr)])
    case Open(id, handle) =>
      var c := s.calls[id];
      var done := s.(calls := s.calls - {id});
      if Mapped(s.pool, KeyOf(c)) then done.(pool := Touch(s.pool, s.pool.pools[KeyOf(c)], s.clock))
      else if handle.Some? then done.(pool := Install(s.pool, c.driver, c.connStr, s.clock, handle.value))
      else done
    case Cleanup => s.(pool := CloseKeys(s.pool, IdleKeys(s.pool, s.clock)))
    case Signal => s.(shut := true)
    case Drain => s.(pool := CloseKeys(s.pool, s.pool.pools.Keys))
    case Wait(dt) => s.(clock := s.clock + dt)
  }

  /** The handle a step returns to the caller of `Get`, if it returns one. */
  ghost function Returned<E>(s: System<E>, a: Step<E>): Option<E>
    requires Possible(s, a)
  {
    match a
    case Return(id) => Some(s.calls[id].entry)
    case Open(id, handle) =>
      if Mapped(s.pool, KeyOf(s.calls[id])) then Some(s.pool.pools[KeyOf(s.calls[id])]) else handle
    case _ => None
  }

  // ---------- Every mapped handle is open and fits its key ----------

  ghost predicate PoolOk<E>(p: Pool<E>) {
    forall k | k in p.pools :: p.pools[k] in p.entries && p.entries[p.pools[k]].open && p.entries[p.pools[k]].Key() == k
  }

  /** A call holds on to an entry that was opened for the key it asks for. */
  ghost predicate CallsOk<E>(s: System<E>) {
    forall id | id in s.calls && (s.calls[id].Pinging? || s.calls[id].Dropping? || s.calls[id].Returning?) ::
      s.calls[id].entry in s.pool.entries && s.pool.entries[s.calls[id].entry].Key() == KeyOf(s.calls[id])
  }

  ghost predicate Inv<E>(s: System<E>) { PoolOk(s.pool) && CallsOk(s) }

  /** No entry disappears or changes its key. */
  ghost predicate KeepsKeys<E>(p: Pool<E>, p1: Pool<E>) {
    forall e | e in p.entries :: e in p1.entries && p1.entries[e].Key() == p.entries[e].Key()
  }

  /** Closing some keys leaves the handles of the other keys open. */
  lemma CloseKeysKeepsOk<E>(p: Pool<E>, keys: set<string>)
    requires PoolOk(p)
    ensures PoolOk(CloseKeys(p, keys)) && KeepsKeys(p, CloseKeys(p, keys))
  {
    forall k | k in p.pools - keys ensures !CachedUnder(p, keys, p.pools[k]) {
      assert p.entries[p.pools[k]].Key() == k;
    }
  }

  lemma TouchKeepsOk<E>(p: Pool<E>, e: E, now: int)
    requires PoolOk(p) && e in p.entries
    ensures PoolOk(Touch(p, e, now)) && KeepsKeys(p, Touch(p, e, now))
  {
  }

  lemma DropKeepsOk<E>(p: Pool<E>, key: string, e: E)
    requires PoolOk(p) && e in p.entries && p.entries[e].Key() == key
    ensures PoolOk(DropStale(p, key, e)) && KeepsKeys(p, DropStale(p, key, e))
  {
  }

  lemma InstallKeepsOk<E>(p: Pool<E>, driver: string, connStr: string, now: int, e: E)
    requires PoolOk(p) && e !in p.entries
    ensures PoolOk(Install(p, driver, connStr, now, e)) && KeepsKeys(p, Install(p, driver, connStr, now, e))
  {
  }

  lemma OpenKeepsOk<E>(s: System<E>, a: Step<E>)
    requires Inv(s) && Possible(s, a) && a.Open?
    ensures PoolOk(Next(s, a).pool) && KeepsKeys(s.pool, Next(s, a).pool)
  {
    var c := s.calls[a.id];
    if Mapped(s.pool, KeyOf(c)) {
      TouchKeepsOk(s.pool, s.pool.pools[KeyOf(c)], s.clock);
    } else if a.handle.Some? {
      InstallKeepsOk(s.pool, c.driver, c.connStr, s.clock, a.handle.value);
    }
  }

  lemma CheckKeepsOk<E>(s: System<E>, a: Step<E>)
    requires Inv(s) && Possible(s, a) && a.Check?
    ensures PoolOk(Next(s, a).pool) && KeepsKeys(s.pool, Next(s, a).pool)
  {
    var key := KeyOf(s.calls[a.id]);
    if Mapped(s.pool, key) { TouchKeepsOk(s.pool, s.pool.pools[key], s.clock); }
  }

  lemma SectionKeepsOk<E>(s: System<E>, a: Step<E>)
    requires Inv(s) && Possible(s, a)
    ensures PoolOk(Next(s, a).pool) && KeepsKeys(s.pool, Next(s, a).pool)
  {
    match a
    case Check(_) => CheckKeepsOk(s, a);
    case Open(_, _) => OpenKeepsOk(s, a);
    case Drop(id) => DropKeepsOk(s.pool, KeyOf(s.calls[id]), s.calls[id].entry);
    case Cleanup => CloseKeysKeepsOk(s.pool, IdleKeys(s.pool, s.clock));
    case Drain => CloseKeysKeepsOk(s.pool, s.pool.pools.Keys);
    case _ =>
  }

  /** A call that holds an entry after a step held it before, or has just found it under its key. */
  lemma HoldsOn<E>(s: System<E>, a: Step<E>, id: nat)
    requires Inv(s) && Possible(s, a) && id in Next(s, a).calls
    requires var c := Next(s, a).calls[id]; c.Pinging? || c.Dropping? || c.Returning?
    ensures var c := Next(s, a).calls[id];
      c.entry in s.pool.entries && s.pool.entries[c.entry].Key() == KeyOf(c)
  {
  }

  /** Under any interleaving every mapped handle is open and was opened for exactly its key. */
  lemma StepKeepsInv<E>(s: System<E>, a: Step<E>)
    requires Inv(s) && Possible(s, a)
    ensures Inv(Next(s, a))
  {
    SectionKeepsOk(s, a);
    var t := Next(s, a);
    forall id | id in t.calls && (t.calls[id].Pinging? || t.calls[id].Dropping? || t.calls[id].Returning?)
      ensures t.calls[id].entry in t.pool.entries && t.pool.entries[t.calls[id].entry].Key() == KeyOf(t.calls[id])
    {
      HoldsOn(s, a, id);
    }
  }

  ghost predicate Reaches<E>(s: System<E>, run: seq<Step<E>>, t: System<E>)
    decreases |run|
  {
    if run == [] then s == t else Possible(s, run[0]) && Reaches(Next(s, run[0]), run[1..], t)
  }

  ghost function Start<E>(): System<E> { System(Pool(map[], map[]), map[], 0, false) }

  lemma {:induction false} RunKeepsInv<E>(s: System<E>, run: seq<Step<E>>, t: System<E>)
    requires Inv(s) && Reaches(s, run, t)
    ensures Inv(t)
    decreases |run|
  {
    if run != [] {
      StepKeepsInv(s, run[0]);
      RunKeepsInv(Next(s, run[0]), run[1..], t);
    }
  }

  /** What `Get` returns is a handle for the driver and the connection string asked for; it is open if it was not pinged
      before, and otherwise unless it was closed after the ping. */
  lemma ReturnedFits<E>(s: System<E>, a: Step<E>)
    requires Inv(s) && Possible(s, a) && Returned(s, a).Some? && ':' !in s.calls[a.id].driver
    requires forall e | e in s.pool.entries :: ':' !in s.pool.entries[e].driver
    ensures var (t, e) := (Next(s, a), Returned(s, a).value);
      && e in t.pool.entries && (t.pool.entries[e].open <==> a.Open? || s.pool.entries[e].open)
      && t.pool.entries[e].driver == s.calls[a.id].driver && t.pool.entries[e].connStr == s.calls[a.id].connStr
  {
    var e := Returned(s, a).value;
    StepKeepsInv(s, a);
    if e in s.pool.entries {
      var entry, c := s.pool.entries[e], s.calls[a.id];
      PoolKeyIsInjective(entry.driver, entry.connStr, c.driver, c.connStr);
    }
  }

  // ---------- When a handle is closed ----------

  ghost predicate MappedAt<E>(p: Pool<E>, e: E)
    requires e in p.entries
  {
    p.entries[e].Key() in p.pools && p.pools[p.entries[e].Key()] == e
  }

  /** The stale path of a call that holds it, a cleanup that finds it mapped and idle, and the shutdown if it is
      mapped. */
  ghost predicate Closes<E>(s: System<E>, a: Step<E>, e: E)
    requires e in s.pool.entries && Possible(s, a)
  {
    || (a.Drop? && s.calls[a.id].entry == e)
    || (a.Cleanup? && MappedAt(s.pool, e) && s.pool.entries[e].lastUsed < s.clock - 600)
    || (a.Drain? && MappedAt(s.pool, e))
  }

  lemma CachedExactly<E>(p: Pool<E>, keys: set<string>, e: E)
    requires PoolOk(p) && e in p.entries
    ensures CachedUnder(p, keys, e) <==> MappedAt(p, e) && p.entries[e].Key() in keys
  {
  }

  /** A step closes an open handle exactly in these cases. */
  lemma ClosedExactlyThen<E>(s: System<E>, a: Step<E>, e: E)
    requires Inv(s) && Possible(s, a) && e in s.pool.entries && s.pool.entries[e].open
    ensures e in Next(s, a).pool.entries
    ensures !Next(s, a).pool.entries[e].open <==> Closes(s, a, e)
  {
    match a
    case Cleanup => CachedExactly(s.pool, IdleKeys(s.pool, s.clock), e);
    case Drain => CachedExactly(s.pool, s.pool.pools.Keys, e);
    case _ =>
  }

  ghost predicate NeverCloses<E>(s: System<E>, run: seq<Step<E>>, e: E)
    requires e in s.pool.entries
    decreases |run|
  {
    run != [] && Possible(s, run[0]) && e in Next(s, run[0]).pool.entries ==>
      !Closes(s, run[0], e) && NeverCloses(Next(s, run[0]), run[1..], e)
  }

  /** A closed handle stays closed. */
  lemma {:induction false} ClosedForGood<E>(s: System<E>, run: seq<Step<E>>, t: System<E>, e: E)
    requires Inv(s) && Reaches(s, run, t) && e in s.pool.entries && !s.pool.entries[e].open
    ensures e in t.pool.entries && !t.pool.entries[e].open
    decreases |run|
  {
    if run != [] {
      StepKeepsInv(s, run[0]);
      SectionKeepsOk(s, run[0]);
      ClosedStays(s, run[0], e);
      ClosedForGood(Next(s, run[0]), run[1..], t, e);
    }
  }

  lemma ClosedStays<E>(s: System<E>, a: Step<E>, e: E)
    requires Inv(s) && Possible(s, a) && e in s.pool.entries && !s.pool.entries[e].open
    ensures e in Next(s, a).pool.entries && !Next(s, a).pool.entries[e].open
  {
  }

  /** Over any run an open handle is open at the end if and only if no step closes it: so a pinged handle is open when
      it is returned exactly if no other call's stale path, no cleanup and no shutdown closed it in between. */
  lemma {:induction false} OpenAtTheEnd<E>(s: System<E>, run: seq<Step<E>>, t: System<E>, e: E)
    requires Inv(s) && Reaches(s, run, t) && e in s.pool.entries && s.pool.entries[e].open
    ensures e in t.pool.entries
    ensures t.pool.entries[e].open <==> NeverCloses(s, run, e)
    decreases |run|
  {
    if run != [] {
      var s1 := Next(s, run[0]);
      StepKeepsInv(s, run[0]);
      ClosedExactlyThen(s, run[0], e);
      if s1.pool.entries[e].open { OpenAtTheEnd(s1, run[1..], t, e); } else { ClosedForGood(s1, run[1..], t, e); }
    }
  }

  // ---------- A handle in use stays ----------

  /** No stale path for this key, and no shutdown. */
  ghost predicate NeverDrops<E>(s: System<E>, run: seq<Step<E>>, key: string)
    decreases |run|
  {
    run != [] && Possible(s, run[0]) ==>
      && !run[0].Drain? && !(run[0].Drop? && KeyOf(s.calls[run[0].id]) == key)
      && NeverDrops(Next(s, run[0]), run[1..], key)
  }

  /** `e` is open, mapped and was used since `since`. */
  ghost predicate InUse<E>(s: System<E>, e: E, key: string, since: int) {
    && e in s.pool.entries && s.pool.entries[e].open && s.pool.entries[e].Key() == key
    && key in s.pool.pools && s.pool.pools[key] == e && since <= s.pool.entries[e].lastUsed
  }

  lemma StepKeepsInUse<E>(s: System<E>, a: Step<E>, e: E, key: string, since: int)
    requires Inv(s) && Possible(s, a) && InUse(s, e, key, since) && since <= s.clock <= since + 600
    requires !a.Drain? && !(a.Drop? && KeyOf(s.calls[a.id]) == key)
    ensures InUse(Next(s, a), e, key, since) && s.clock <= Next(s, a).clock
  {
    if a.Cleanup? { CachedExactly(s.pool, IdleKeys(s.pool, s.clock), e); }
  }

  lemma {:induction false} RunKeepsInUse<E>(s: System<E>, run: seq<Step<E>>, t: System<E>, e: E, key: string,
      since: int)
    requires Inv(s) && Reaches(s, run, t) && InUse(s, e, key, since) && since <= s.clock && t.clock <= since + 600
    requires NeverDrops(s, run, key)
    ensures InUse(t, e, key, since)
    decreases |run|
  {
    if run != [] {
      ClockRuns(s, run, t);
      StepKeepsInUse(s, run[0], e, key, since);
      StepKeepsInv(s, run[0]);
      RunKeepsInUse(Next(s, run[0]), run[1..], t, e, key, since);
    }
  }

  lemma {:induction false} ClockRuns<E>(s: System<E>, run: seq<Step<E>>, t: System<E>)
    requires Reaches(s, run, t)
    ensures s.clock <= t.clock
    decreases |run|
  {
    if run != [] { ClockRuns(Next(s, run[0]), run[1..], t); }
  }

  /** The step gives a call the handle of its key, to be pinged or returned. */
  ghost predicate Picks<E>(s: System<E>, a: Step<E>, e: E) {
    Possible(s, a)
      && (if a.Check? then Next(s, a).calls[a.id].Pinging? && Next(s, a).calls[a.id].entry == e
          else a.Open? && Returned(s, a) == Some(e))
  }

  lemma PickedIsInUse<E>(s: System<E>, a: Step<E>, e: E)
    requires Inv(s) && Picks(s, a, e)
    ensures InUse(Next(s, a), e, KeyOf(s.calls[a.id]), s.clock) && Next(s, a).clock == s.clock
  {
  }

  /** A handle that a call picked is kept for ten minutes: as long as no call drops it and the pool is not shut down it
      stays open and mapped, and every call for its key finds it. */
  lemma PickedHandleStays<E>(s: System<E>, a: Step<E>, e: E, run: seq<Step<E>>, t: System<E>, id: nat)
    requires Inv(s) && Picks(s, a, e) && Reaches(Next(s, a), run, t) && t.clock <= s.clock + 600
    requires NeverDrops(Next(s, a), run, KeyOf(s.calls[a.id]))
    ensures e in t.pool.entries && t.pool.entries[e].open
    ensures Possible(t, Check(id)) && KeyOf(t.calls[id]) == KeyOf(s.calls[a.id]) ==> Picks(t, Check(id), e)
    ensures Possible(t, Open(id, None)) && KeyOf(t.calls[id]) == KeyOf(s.calls[a.id]) ==> Picks(t, Open(id, None), e)
  {
    PickedIsInUse(s, a, e);
    StepKeepsInv(s, a);
    RunKeepsInUse(Next(s, a), run, t, e, KeyOf(s.calls[a.id]), s.clock);
  }

  /** All drivers asked for so far, and those of all entries, are without a colon. */
  ghost predicate ColonFree<E>(s: System<E>) {
    && (forall e | e in s.pool.entries :: ':' !in s.pool.entries[e].driver)
    && (forall id | id in s.calls :: ':' !in s.calls[id].driver)
  }

  ghost predicate ColonFreeStep<E>(a: Step<E>) { a.Begin? ==> ':' !in a.driver }

  /** The hypothesis of the last lemma holds in every run whose calls name drivers without a colon. */
  lemma {:induction false} RunKeepsColonFree<E>(s: System<E>, run: seq<Step<E>>, t: System<E>)
    requires Inv(s) && ColonFree(s) && Reaches(s, run, t) && (forall a | a in run :: ColonFreeStep(a))
    ensures Inv(t) && ColonFree(t)
    decreases |run|
  {
    if run != [] {
      StepKeepsInv(s, run[0]);
      StepKeepsColonFree(s, run[0]);
      assert run == [run[0]] + run[1..];
      RunKeepsColonFree(Next(s, run[0]), run[1..], t);
    }
  }

  lemma StepKeepsColonFree<E>(s: System<E>, a: Step<E>)
    requires Inv(s) && ColonFree(s) && Possible(s, a) && ColonFreeStep(a)
    ensures ColonFree(Next(s, a))
  {
  }

  // ---------- Orphans ----------

  /** The open handles are exactly the mapped ones. */
  ghost predicate Tight<E>(p: Pool<E>) {
    forall e | e in p.entries :: p.entries[e].open <==>
      p.entries[e].Key() in p.pools && p.pools[p.entries[e].Key()] == e
  }

  /** The stale path finds another entry in the place of the one it pinged. */
  ghost predicate Orphans<E>(s: System<E>, a: Step<E>)
    requires Possible(s, a)
  {
    a.Drop? && KeyOf(s.calls[a.id]) in s.pool.pools && s.pool.pools[KeyOf(s.calls[a.id])] != s.calls[a.id].entry
  }

  lemma CloseKeysKeepsTight<E>(p: Pool<E>, keys: set<string>)
    requires PoolOk(p) && Tight(p)
    ensures Tight(CloseKeys(p, keys))
  {
    forall e | e in p.entries ensures CachedUnder(p, keys, e) <==> p.entries[e].open && p.entries[e].Key() in keys {
    }
  }

  lemma InstallKeepsTight<E>(p: Pool<E>, driver: string, connStr: string, now: int, e: E)
    requires PoolOk(p) && Tight(p) && PoolKey(driver, connStr) !in p.pools && e !in p.entries
    ensures PoolOk(Install(p, driver, connStr, now, e)) && Tight(Install(p, driver, connStr, now, e))
  {
  }

  lemma DropTight<E>(s: System<E>, a: Step<E>)
    requires Inv(s) && Possible(s, a) && Tight(s.pool) && a.Drop?
    ensures Tight(Next(s, a).pool) <==> !Orphans(s, a)
  {
    var key, e := KeyOf(s.calls[a.id]), s.calls[a.id].entry;
    var p, p1 := s.pool, Next(s, a).pool;
    if Orphans(s, a) {
      var other := p.pools[key];
      assert p1.entries[other].open && p1.entries[other].Key() == key && key !in p1.pools;
    }
  }

  /** From a tight pool, a step leaves a handle open but unmapped exactly when the stale path of one
      call meets the fresh entry of another. */
  lemma StepKeepsTight<E>(s: System<E>, a: Step<E>)
    requires Inv(s) && Possible(s, a) && Tight(s.pool)
    ensures Tight(Next(s, a).pool) <==> !Orphans(s, a)
  {
    match a
    case Drop(_) => DropTight(s, a);
    case Cleanup => CloseKeysKeepsTight(s.pool, IdleKeys(s.pool, s.clock));
    case Drain => CloseKeysKeepsTight(s.pool, s.pool.pools.Keys);
    case _ =>
  }

  ghost predicate AlwaysTight<E>(s: System<E>, run: seq<Step<E>>)
    decreases |run|
  {
    Tight(s.pool) && (run != [] && Possible(s, run[0]) ==> AlwaysTight(Next(s, run[0]), run[1..]))
  }

  ghost predicate NeverOrphans<E>(s: System<E>, run: seq<Step<E>>)
    decreases |run|
  {
    run != [] && Possible(s, run[0]) ==> !Orphans(s, run[0]) && NeverOrphans(Next(s, run[0]), run[1..])
  }

  /** Over any run the open handles are exactly the mapped ones in all states if and only if no stale path meets
      another entry. */
  lemma {:induction false} RunKeepsTight<E>(s: System<E>, run: seq<Step<E>>, t: System<E>)
    requires Inv(s) && Tight(s.pool) && Reaches(s, run, t)
    ensures AlwaysTight(s, run) <==> NeverOrphans(s, run)
    decreases |run|
  {
    if run != [] {
      StepKeepsInv(s, run[0]);
      StepKeepsTight(s, run[0]);
      if Tight(Next(s, run[0]).pool) { RunKeepsTight(Next(s, run[0]), run[1..], t); }
    }
  }

  /** Calls do not overlap with each other or with the pool's other work. */
  ghost predicate SerialStep<E>(s: System<E>, a: Step<E>) {
    match a
    case Begin(_, _, _) => s.calls == map[]
    case Cleanup => s.calls == map[]
    case Drain => s.calls == map[]
    case _ => true
  }

  ghost predicate SerialRun<E>(s: System<E>, run: seq<Step<E>>, t: System<E>)
    decreases |run|
  {
    if run == [] then s == t
    else Possible(s, run[0]) && SerialStep(s, run[0]) && SerialRun(Next(s, run[0]), run[1..], t)
  }

  ghost predicate AtMostOneCall<E>(s: System<E>) { forall id, id' | id in s.calls && id' in s.calls :: id == id' }

  /** Calls with an entry in hand hold the mapped one. */
  ghost predicate CallsHoldMapped<E>(s: System<E>) {
    forall id | id in s.calls && (s.calls[id].Pinging? || s.calls[id].Dropping? || s.calls[id].Returning?) ::
      KeyOf(s.calls[id]) in s.pool.pools && s.pool.pools[KeyOf(s.calls[id])] == s.calls[id].entry
  }

  /** One call at a time, and what it holds is what is mapped. */
  ghost predicate SerialInv<E>(s: System<E>) {
    Inv(s) && Tight(s.pool) && AtMostOneCall(s) && CallsHoldMapped(s)
  }

  lemma SerialStepIsAlone<E>(s: System<E>, a: Step<E>)
    requires Possible(s, a) && SerialStep(s, a) && AtMostOneCall(s)
    ensures AtMostOneCall(Next(s, a))
  {
  }

  lemma SerialStepHoldsMapped<E>(s: System<E>, a: Step<E>)
    requires Possible(s, a) && SerialStep(s, a) && AtMostOneCall(s) && CallsHoldMapped(s)
    ensures CallsHoldMapped(Next(s, a))
  {
  }

  lemma SerialStepKeepsTight<E>(s: System<E>, a: Step<E>)
    requires SerialInv(s) && Possible(s, a) && SerialStep(s, a)
    ensures Tight(Next(s, a).pool)
  {
    StepKeepsTight(s, a);
  }

  lemma SerialStepKeepsInv<E>(s: System<E>, a: Step<E>)
    requires SerialInv(s) && Possible(s, a) && SerialStep(s, a)
    ensures SerialInv(Next(s, a))
  {
    StepKeepsInv(s, a);
    SerialStepKeepsTight(s, a);
    SerialStepIsAlone(s, a);
    SerialStepHoldsMapped(s, a);
  }

  /** In serial runs the open handles are exactly the mapped ones. */
  lemma {:induction false} SerialRunsAreTight<E>(s: System<E>, run: seq<Step<E>>, t: System<E>)
    requires SerialInv(s) && SerialRun(s, run, t)
    ensures SerialInv(t) && Tight(t.pool)
    decreases |run|
  {
    if run != [] {
      SerialStepKeepsInv(s, run[0]);
      SerialRunsAreTight(Next(s, run[0]), run[1..], t);
    }
  }

  /** A call that finds `e` mapped and gets no answer to its ping, while the clock stands still. */
  lemma PingUnanswered(s: System<nat>, id: nat, driver: string, connStr: string, e: nat) returns (run: seq<Step<nat>>)
    requires id !in s.calls && Mapped(s.pool, PoolKey(driver, connStr)) && s.pool.pools[PoolKey(driver, connStr)] == e
    requires s.pool.entries[e].lastUsed == s.clock
    ensures Reaches(s, run, s.(calls := s.calls[id := Dropping(driver, connStr, e)]))
  {
    var t := s.(calls := s.calls[id := Dropping(driver, connStr, e)]);
    run := [Begin(id, driver, connStr), Check(id), Ping(id, false)];
    var s1 := Next(s, run[0]);
    var s2 := Next(s1, run[1]);
    assert s2.pool.entries == s.pool.entries;
    assert Next(s2, run[2]).calls == t.calls;
    Three(s, run, t);
  }

  /** The faster of two calls with the same dead handle replaces it; then the slower one drops the replacement. */
  lemma SlowerDropOrphans(s: System<nat>, fast: nat, slow: nat, driver: string, connStr: string, e: nat, e': nat)
    returns (run: seq<Step<nat>>, t: System<nat>)
    requires fast != slow && e in s.pool.entries && e' !in s.pool.entries
    requires s.calls == map[fast := Dropping(driver, connStr, e), slow := Dropping(driver, connStr, e)]
    ensures Reaches(s, run, t) && e' in t.pool.entries && t.pool.entries[e'].open
    ensures t.pool.pools == s.pool.pools - {PoolKey(driver, connStr)}
  {
    var key := PoolKey(driver, connStr);
    run := [Drop(fast), Check(fast), Open(fast, Some(e'))];
    var s1 := Next(s, run[0]);
    var s2 := Next(s1, run[1]);
    var s3 := Next(s2, run[2]);
    Three(s, run, s3);
    var last: seq<Step<nat>> := [Drop(slow)];
    t := Next(s3, last[0]);
    assert last[1..] == [];
    assert Reaches(s3, last, t);
    Joined(s, run, s3, last, t);
    run := run + last;
  }

  /** A pool with one open handle, as it was made at the start, and the calls under way. */
  ghost function OneHandle(driver: string, connStr: string, calls: map<nat, Call<nat>>): System<nat> {
    System(Pool(map[PoolKey(driver, connStr) := 7], map[7 := Entry(driver, connStr, 0, true)]), calls, 0, false)
  }

  lemma HandleIsMade(driver: string, connStr: string) returns (run: seq<Step<nat>>)
    ensures Reaches(Start(), run, OneHandle(driver, connStr, map[]))
  {
    run := [Begin(0, driver, connStr), Check(0), Open(0, Some(7))];
    assert Next(Next(Next(Start(), run[0]), run[1]), run[2]) == OneHandle(driver, connStr, map[]);
    Three(Start(), run, OneHandle(driver, connStr, map[]));
  }

  lemma PingAnswered(driver: string, connStr: string) returns (run: seq<Step<nat>>)
    ensures Reaches(OneHandle(driver, connStr, map[]), run,
                    OneHandle(driver, connStr, map[1 := Returning(driver, connStr, 7)]))
  {
    run := [Begin(1, driver, connStr), Check(1), Ping(1, true)];
    var s := OneHandle(driver, connStr, map[]);
    var s1 := Next(s, run[0]);
    var s2 := Next(s1, run[1]);
    assert s2.pool.entries == s.pool.entries;
    assert Next(s2, run[2]).calls == map[1 := Returning(driver, connStr, 7)];
    Three(s, run, OneHandle(driver, connStr, map[1 := Returning(driver, connStr, 7)]));
  }

  lemma OtherDrops(driver: string, connStr: string) returns (run: seq<Step<nat>>, t: System<nat>)
    ensures Reaches(OneHandle(driver, connStr, map[1 := Returning(driver, connStr, 7)]), run, t)
    ensures t.calls == map[1 := Returning(driver, connStr, 7), 2 := Checking(driver, connStr)]
    ensures 7 in t.pool.entries && !t.pool.entries[7].open
  {
    var s := OneHandle(driver, connStr, map[1 := Returning(driver, connStr, 7)]);
    run := PingUnanswered(s, 2, driver, connStr, 7);
    var s1 := s.(calls := s.calls[2 := Dropping(driver, connStr, 7)]);
    var last: seq<Step<nat>> := [Drop(2)];
    t := Next(s1, last[0]);
    assert last[1..] == [];
    assert Reaches(s1, last, t);
    Joined(s, run, s1, last, t);
    run := run + last;
  }

  /** So a handle can be left open and unmapped. */
  lemma OrphanHappens(driver: string, connStr: string) returns (run: seq<Step<nat>>, t: System<nat>)
    ensures Reaches(Start(), run, t) && !Tight(t.pool)
    ensures 8 in t.pool.entries && t.pool.entries[8].open && t.pool.pools == map[]
  {
    var s1 := OneHandle(driver, connStr, map[]);
    var s2 := OneHandle(driver, connStr, map[1 := Dropping(driver, connStr, 7)]);
    var s3 := OneHandle(driver, connStr, map[1 := Dropping(driver, connStr, 7), 2 := Dropping(driver, connStr, 7)]);
    var r1 := HandleIsMade(driver, connStr);
    var r2 := PingUnanswered(s1, 1, driver, connStr, 7);
    assert s1.(calls := s1.calls[1 := Dropping(driver, connStr, 7)]) == s2;
    var r3 := PingUnanswered(s2, 2, driver, connStr, 7);
    assert s2.(calls := s2.calls[2 := Dropping(driver, connStr, 7)]) == s3;
    var r4, end := SlowerDropOrphans(s3, 1, 2, driver, connStr, 7, 8);
    Joined(Start(), r1, s1, r2, s2);
    Joined(Start(), r1 + r2, s2, r3, s3);
    Joined(Start(), r1 + r2 + r3, s3, r4, end);
    run, t := r1 + r2 + r3 + r4, end;
  }

  /** And a call whose ping succeeded can return a closed handle, when another call's ping fails meanwhile. */
  lemma ReturnedClosedHappens(driver: string, connStr: string) returns (run: seq<Step<nat>>, t: System<nat>)
    ensures Reaches(Start(), run, t) && Possible(t, Return(1)) && Returned(t, Return(1)) == Some(7)
    ensures 7 in t.pool.entries && !t.pool.entries[7].open
  {
    var s1 := OneHandle(driver, connStr, map[]);
    var s2 := OneHandle(driver, connStr, map[1 := Returning(driver, connStr, 7)]);
    var r1 := HandleIsMade(driver, connStr);
    var r2 := PingAnswered(driver, connStr);
    var r3, end := OtherDrops(driver, connStr);
    Joined(Start(), r1, s1, r2, s2);
    Joined(Start(), r1 + r2, s2, r3, end);
    run, t := r1 + r2 + r3, end;
  }

  lemma Three<E>(s: System<E>, run: seq<Step<E>>, t: System<E>)
    requires |run| == 3 && Possible(s, run[0]) && Possible(Next(s, run[0]), run[1])
    requires Possible(Next(Next(s, run[0]), run[1]), run[2]) && Next(Next(Next(s, run[0]), run[1]), run[2]) == t
    ensures Reaches(s, run, t)
  {
    assert run[1..][0] == run[1] && run[1..][1..][0] == run[2] && run[1..][1..][1..] == [];
    assert Reaches(Next(Next(s, run[0]), run[1]), run[1..][1..], t);
    assert Reaches(Next(s, run[0]), run[1..], t);
  }

  lemma Begins<E>(s: System<E>, a: Step<E>, rest: seq<Step<E>>, run: seq<Step<E>>, u: System<E>)
    requires Possible(s, a) && Reaches(Next(s, a), rest, u) && run == [a] + rest
    ensures Reaches(s, run, u)
  {
    assert run[1..] == rest;
  }

  lemma {:induction false} Joined<E>(s: System<E>, r1: seq<Step<E>>, t: System<E>, r2: seq<Step<E>>, u: System<E>)
    requires Reaches(s, r1, t) && Reaches(t, r2, u)
    ensures Reaches(s, r1 + r2, u)
    decreases |r1|
  {
    if r1 == [] {
      assert r1 + r2 == r2;
    } else {
      Joined(Next(s, r1[0]), r1[1..], t, r2, u);
      assert r1 + r2 == [r1[0]] + (r1[1..] + r2);
      Begins(s, r1[0], r1[1..] + r2, r1 + r2, u);
    }
  }
}
