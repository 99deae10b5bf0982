/** The tunnel pool as it runs: entries are shared objects whose counters change in place. */
module TunnelPools {
  import opened Common
  import opened TunnelKeys
  import TM = TunnelModel

  class Tunnel {
    ghost const key: string
    const req: Request
    const localPort: int
    const createdAt: int
    var refs: int
    var closes: nat

    constructor (ghost key: string, req: Request, localPort: int, createdAt: int)
      ensures Snapshot() == TM.Entry(key, req, localPort, createdAt, 0, 0)
    {
      this.key := key;
      this.req, this.localPort, this.createdAt := req, localPort, createdAt;
      refs, closes := 0, 0;
    }

    ghost function Snapshot(): TM.Entry
      reads this
    {
      TM.Entry(key, req, localPort, createdAt, refs, closes)
    }

    /** The function handed out as `release`. */
    method Release()
      modifies this
      ensures Snapshot() == old(Snapshot()).(refs := old(refs) - 1)
    {
      refs := refs - 1;
    }
  }

  /** One entry, seen through closing `keys` and then `k`. */
  lemma CloseOneMoreAt<E>(p: TM.Pool<E>, keys: set<string>, k: string, e: E)
    requires TM.PoolOk(p) && k in p.tunnels && k !in keys && e in p.entries
    ensures TM.CloseKeys(TM.CloseKeys(p, keys), {k}).entries[e] == TM.CloseKeys(p, keys + {k}).entries[e]
  {
    var once := TM.CloseKeys(p, keys);
    assert TM.CachedUnder(once, {k}, e) <==> p.tunnels[k] == e;
    assert TM.CachedUnder(p, keys + {k}, e) <==> TM.CachedUnder(p, keys, e) || p.tunnels[k] == e by {
      if p.tunnels[k] == e { assert k in keys + {k}; }
      if TM.CachedUnder(p, keys, e) {
        var k' :| k' in keys && k' in p.tunnels && p.tunnels[k'] == e;
        assert k' in keys + {k};
      }
    }
    assert !(TM.CachedUnder(p, keys, e) && p.tunnels[k] == e);
  }

  /** Closing keys one after the other closes each of them once. */
  lemma CloseOneMore<E>(p: TM.Pool<E>, keys: set<string>, k: string)
    requires TM.PoolOk(p) && k in p.tunnels && k !in keys
    ensures TM.CloseKeys(TM.CloseKeys(p, keys), {k}) == TM.CloseKeys(p, keys + {k})
  {
    var twice, both := TM.CloseKeys(TM.CloseKeys(p, keys), {k}), TM.CloseKeys(p, keys + {k});
    forall e | e in p.entries ensures twice.entries[e] == both.entries[e] {
      CloseOneMoreAt(p, keys, k, e);
    }
    assert twice.tunnels == both.tunnels && twice.entries == both.entries;
  }

  /** Closing one cached tunnel bumps the count of that entry alone. */
  lemma CloseOne<E>(p: TM.Pool<E>, k: string)
    requires TM.PoolOk(p) && k in p.tunnels
    ensures p.tunnels[k] in p.entries && p.entries[p.tunnels[k]].closes == 0
    ensures TM.PoolOk(TM.CloseKeys(p, {k}))
    ensures TM.CloseKeys(p, {k}) ==
      TM.Pool(p.tunnels - {k}, p.entries[p.tunnels[k] := p.entries[p.tunnels[k]].(closes := 1)])
  {
    var p1 := TM.CloseKeys(p, {k});
    TM.CloseKeysKeepsOk(p, {k});
    forall e | e in p.entries
      ensures p1.entries[e] == if e == p.tunnels[k] then p.entries[e].(closes := 1) else p.entries[e]
    {
      assert TM.CachedUnder(p, {k}, e) <==> p.tunnels[k] == e;
    }
    assert p1.entries == p.entries[p.tunnels[k] := p.entries[p.tunnels[k]].(closes := 1)];
  }

  /** The slow path with a dialled tunnel: it is put where the expired one was closed. */
  lemma InstallOne<E>(p: TM.Pool<E>, key: string, r: Request, now: int, e: E, port: int, createdAt: int)
    requires TM.PoolOk(p) && !TM.Hit(p, key, now) && e !in p.entries
    ensures var closed := TM.CloseKeys(p, {key});
      var p1 := TM.Pool(closed.tunnels[key := e], closed.entries[e := TM.Entry(key, r, port, createdAt, 1, 0)]);
      TM.SlowPath(p, key, r, now, Some((e, port, createdAt))) == (p1, Some(e)) && TM.PoolOk(p1)
  {
    TM.SlowPathKeepsOk(p, key, r, now, Some((e, port, createdAt)));
  }

  class TunnelPool {
    var tunnels: map<string, Tunnel>
    const configured: bool
    var done: bool
    ghost var entries: set<Tunnel>

    ghost function View(): TM.Pool<Tunnel>
      reads this, entries
    {
      TM.Pool(tunnels, map e | e in entries :: e.Snapshot())
    }

    ghost predicate Valid()
      reads this, entries
    {
      TM.PoolOk(View())
    }

    constructor (configured: bool)
      ensures Valid() && View() == TM.Pool(map[], map[]) && !done && this.configured == configured
    {
      this.configured, tunnels, done, entries := configured, map[], false, {};
    }

    method FastPath(r: Request, now: int) returns (hit: Tunnel?)
      requires Valid()
      modifies entries
      ensures Valid() && entries == old(entries)
      ensures View() == TM.FastPath(old(View()), TunnelKey(r), now).0
      ensures TM.FastPath(old(View()), TunnelKey(r), now).1 == if hit == null then None else Some(hit)
      ensures forall e | e in entries :: e.refs == old(e.refs) + if hit == e then 1 else 0
    {
      var key := TunnelKey(r);
      assert key in tunnels ==> tunnels[key] in View().entries;
      if key in tunnels && now - tunnels[key].createdAt < TM.TTL {
        hit := tunnels[key];
        TM.AddRefKeepsOk(View(), hit, 1);
        hit.refs := hit.refs + 1;
        assert View() == TM.AddRef(old(View()), hit, 1);
      } else {
        hit := null;
      }
    }

    /** The result is the leased tunnel, or null when the dial, which gives the port and the creation time, failed. */
    method SlowPath(r: Request, now: int, dial: Option<(int, int)>) returns (got: Tunnel?)
      requires Valid()
      modifies this, entries
      ensures Valid() && fresh(entries - old(entries))
      ensures dial.Some? ==> got != null
      ensures got != null && got !in old(entries) ==> dial.Some?
      ensures var made := got != null && got !in old(entries);
        var outcome := if made then Some((got, dial.value.0, dial.value.1)) else None;
        TM.SlowPath(old(View()), TunnelKey(r), r, now, outcome) == (View(), if got == null then None else Some(got))
      ensures forall e | e in old(entries) :: e.refs == old(e.refs) + if got == e then 1 else 0
      ensures got != null && got !in old(entries) ==> got.refs == 1
    {
      var key := TunnelKey(r);
      ghost var before := View();
      assert key in tunnels ==> tunnels[key] in View().entries;
      if key in tunnels && now - tunnels[key].createdAt < TM.TTL {
        got := tunnels[key];
        TM.AddRefKeepsOk(View(), got, 1);
        got.refs := got.refs + 1;
        assert View() == TM.AddRef(before, got, 1);
        return;
      }
      if key in tunnels {
        CloseTunnelLocked(key, tunnels[key]);
      } else {
        assert TM.CloseKeys(before, {key}).tunnels == before.tunnels;
        assert TM.CloseKeys(before, {key}).entries == before.entries;
      }
      if dial.None? {
        got := null;
        return;
      }
      got := Install(key, r, now, dial.value.0, dial.value.1, before);
    }

    /** The new tunnel takes the place its predecessor left. */
    method Install(key: string, r: Request, now: int, port: int, createdAt: int, ghost before: TM.Pool<Tunnel>)
        returns (got: Tunnel)
      requires TM.PoolOk(before) && before.entries.Keys == entries && View() == TM.CloseKeys(before, {key})
      requires !TM.Hit(before, key, now)
      modifies this`tunnels, this`entries
      ensures Valid() && fresh(got) && entries == old(entries) + {got} && got.refs == 1
      ensures TM.SlowPath(before, key, r, now, Some((got, port, createdAt))) == (View(), Some(got))
    {
      ghost var closed := View();
      got := new Tunnel(key, r, port, createdAt);
      got.refs := got.refs + 1;
      tunnels := tunnels[key := got];
      entries := entries + {got};
      assert View().entries == closed.entries[got := TM.Entry(key, r, port, createdAt, 1, 0)];
      InstallOne(before, key, r, now, got, port, createdAt);
    }

    /** `GetOrCreate` without interference: the port, or an error. */
    method GetOrCreate(r: Request, now: int, dial: Option<(int, int)>) returns (port: Option<int>)
      requires Valid() && (dial.Some? ==> now <= dial.value.1)
      modifies this, entries
      ensures Valid()
      ensures !configured ==> port.None? && View() == old(View())
      ensures configured ==> (port.Some? <==> dial.Some? || TM.Hit(old(View()), TunnelKey(r), now))
      ensures port.Some? ==>
        && TM.Hit(View(), TunnelKey(r), now)
        && View().entries[tunnels[TunnelKey(r)]].Open()
        && tunnels[TunnelKey(r)].localPort == port.value
      ensures forall e | e in old(entries) ::
        e.refs == old(e.refs) + if port.Some? && tunnels[TunnelKey(r)] == e then 1 else 0
      ensures port.Some? && tunnels[TunnelKey(r)] !in old(entries) ==> tunnels[TunnelKey(r)].refs == 1
    {
      if !configured { return None; }
      var entry := FastPath(r, now);
      if entry == null { entry := SlowPath(r, now, dial); }
      port := if entry == null then None else Some(entry.localPort);
    }

    /** The tunnel is open when this is called, so its channel is not closed a second time. */
    method CloseTunnelLocked(key: string, entry: Tunnel)
      requires Valid() && key in tunnels && tunnels[key] == entry && entry in entries
      modifies this, entry
      ensures Valid() && entries == old(entries) && done == old(done)
      ensures old(entry.closes) == 0 && entry.closes == 1 && entry.refs == old(entry.refs)
      ensures View() == TM.CloseKeys(old(View()), {key})
    {
      ghost var before := View();
      CloseOne(before, key);
      assert before.entries[entry] == entry.Snapshot();
      entry.closes := entry.closes + 1;
      tunnels := tunnels - {key};
      assert View().entries == before.entries[entry := before.entries[entry].(closes := 1)];
    }

    method CleanupStale(now: int)
      requires Valid()
      modifies this, entries
      ensures Valid() && entries == old(entries)
      ensures View() == TM.CleanupStale(old(View()), now)
    {
      ghost var before, closed := View(), {};
      var todo := tunnels.Keys;
      assert View() == TM.CloseKeys(before, {});
      while todo != {}
        invariant Valid() && entries == old(entries)
        invariant closed <= TM.StaleKeys(before, now) <= closed + todo
        invariant todo !! closed && todo <= before.tunnels.Keys
        invariant View() == TM.CloseKeys(before, closed)
      {
        var key :| key in todo;
        todo := todo - {key};
        var entry := tunnels[key];
        TM.CloseKeysKeepsOk(before, closed);
        assert before.tunnels[key] in before.entries && entry in View().entries;
        assert entry.Snapshot() == View().entries[entry] == before.entries[entry];
        if now - entry.createdAt >= TM.TTL && entry.refs == 0 {
          CloseOneMore(before, closed, key);
          CloseTunnelLocked(key, entry);
          closed := closed + {key};
        }
      }
      assert closed == TM.StaleKeys(before, now);
    }

    /** The first half of `Close`; closing the channel twice would panic. */
    method Signal()
      requires !done
      modifies this`done
      ensures done
    {
      done := true;
    }

    /** The locked half of `Close`. */
    method Drain()
      requires Valid()
      modifies this, entries
      ensures Valid() && entries == old(entries)
      ensures View() == TM.CloseAll(old(View())) && tunnels == map[]
    {
      ghost var before, closed := View(), {};
      var todo := tunnels.Keys;
      assert View() == TM.CloseKeys(before, {});
      while todo != {}
        invariant Valid() && entries == old(entries)
        invariant closed + todo == before.tunnels.Keys && todo !! closed
        invariant View() == TM.CloseKeys(before, closed)
      {
        var key :| key in todo;
        todo := todo - {key};
        assert tunnels[key] in View().entries;
        CloseOneMore(before, closed, key);
        CloseTunnelLocked(key, tunnels[key]);
        closed := closed + {key};
      }
      assert closed == before.tunnels.Keys;
    }
  }
}
