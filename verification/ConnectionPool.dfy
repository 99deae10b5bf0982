/** The connection pool as it runs, one call at a time. */
module ConnectionPools {
  import CM = ConnectionModel

  class PoolEntry {
    const driver: string
    const connStr: string
    var lastUsed: int
    var open: bool

    constructor (driver: string, connStr: string, now: int)
      ensures Snapshot() == CM.Entry(driver, connStr, now, true)
    {
      this.driver, this.connStr, lastUsed, open := driver, connStr, now, true;
    }

    ghost function Snapshot(): CM.Entry
      reads this
    {
      CM.Entry(driver, connStr, lastUsed, open)
    }
  }

  /** One mapped handle goes with its key, and no other. */
  lemma CloseOne<E>(p: CM.Pool<E>, k: string)
    requires CM.PoolOk(p) && k in p.pools
    ensures CM.CloseKeys(p, {k}) == CM.Shut(p.(pools := p.pools - {k}), p.pools[k])
  {
    forall e | e in p.entries ensures CM.CachedUnder(p, {k}, e) <==> p.pools[k] == e {
    }
    assert CM.CloseKeys(p, {k}).entries == CM.Shut(p.(pools := p.pools - {k}), p.pools[k]).entries;
  }

  lemma CloseOneMore<E>(p: CM.Pool<E>, keys: set<string>, k: string)
    requires CM.PoolOk(p) && k in p.pools && k !in keys
    ensures CM.CloseKeys(CM.CloseKeys(p, keys), {k}) == CM.CloseKeys(p, keys + {k})
  {
    var once, both := CM.CloseKeys(p, keys), CM.CloseKeys(p, keys + {k});
    forall e | e in p.entries
      ensures CM.CachedUnder(p, keys + {k}, e) <==> CM.CachedUnder(p, keys, e) || CM.CachedUnder(once, {k}, e)
    {
      if CM.CachedUnder(p, keys, e) {
        var k' :| k' in keys && k' in p.pools && p.pools[k'] == e;
        assert k' in keys + {k};
      }
      if p.pools[k] == e { assert k in keys + {k}; }
      assert CM.CachedUnder(once, {k}, e) <==> p.pools[k] == e;
    }
    assert CM.CloseKeys(once, {k}).pools == both.pools;
    assert CM.CloseKeys(once, {k}).entries == both.entries;
  }

  lemma Remapped<V>(m: map<string, V>, k: string, v: V)
    ensures (m - {k})[k := v] == m[k := v]
  {
  }

  class ConnectionPool {
    var pools: map<string, PoolEntry>
    var done: bool
    ghost var entries: set<PoolEntry>

    ghost function View(): CM.Pool<PoolEntry>
      reads this, entries
    {
      CM.Pool(pools, map e | e in entries :: e.Snapshot())
    }

    /** Between calls: mapped handles fit their keys and the open handles are exactly the mapped ones. */
    ghost predicate Valid()
      reads this, entries
    {
      CM.PoolOk(View()) && CM.Tight(View())
    }

    constructor ()
      ensures Valid() && View() == CM.Pool(map[], map[]) && !done
    {
      pools, done, entries := map[], false, {};
    }

    /**
     `alive` is the answer to the ping of a cached handle, `connects` whether `sql.Open` succeeds. A dead
     handle is dropped and the call starts over; its key is unmapped then, so it starts over at most once.
     */
    method Get(driver: string, connStr: string, now: int, alive: bool, connects: bool) returns (db: PoolEntry?)
      requires Valid()
      modifies this, entries
      ensures Valid() && fresh(entries - old(entries)) && old(entries) <= entries
      ensures var key := CM.PoolKey(driver, connStr);
        var cached := key in old(pools) && alive;
        && (db == null <==> !cached && !connects)
        && (db != null ==> db.open && db.lastUsed == now && pools == old(pools)[key := db])
        && (db == null ==> pools == old(pools) - {key})
        && (cached ==> db == old(pools)[key])
        && (db != null && !cached ==> fresh(db) && db.driver == driver && db.connStr == connStr)
        && (key in old(pools) && !alive ==> !old(pools[key]).open)
      ensures forall e | e in old(entries) && e != db
        && !(CM.PoolKey(driver, connStr) in old(pools) && e == old(pools)[CM.PoolKey(driver, connStr)]) ::
        e.Snapshot() == old(e.Snapshot())
      decreases if CM.PoolKey(driver, connStr) in pools then 1 else 0
    {
      var key := CM.PoolKey(driver, connStr);
      if key in pools {
        db := Reuse(key, now, alive);
        if db == null {
          db := Get(driver, connStr, now, alive, connects);
          if db != null { Remapped(old(pools), key, db); }
        }
      } else {
        db := Miss(driver, connStr, now, connects);
      }
    }

    /** The path of a key that is not mapped: opens and maps a handle, or reports the failure. */
    method Miss(driver: string, connStr: string, now: int, connects: bool) returns (db: PoolEntry?)
      requires Valid() && CM.PoolKey(driver, connStr) !in pools
      modifies this`pools, this`entries
      ensures Valid() && fresh(entries - old(entries)) && old(entries) <= entries
      ensures db == null <==> !connects
      ensures db == null ==> pools == old(pools)
      ensures db != null ==> fresh(db) && db.Snapshot() == CM.Entry(driver, connStr, now, true)
      ensures db != null ==> pools == old(pools)[CM.PoolKey(driver, connStr) := db]
    {
      if connects {
        db := Install(driver, connStr, now);
      } else {
        db := null;
      }
    }

    /** The cached handle, or null after a failed ping: then it is closed and its key is unmapped. */
    method Reuse(key: string, now: int, alive: bool) returns (hit: PoolEntry?)
      requires Valid() && key in pools
      modifies this`pools, pools[key]
      ensures Valid() && entries == old(entries)
      ensures alive ==> hit == old(pools)[key] && pools == old(pools) && hit.open && hit.lastUsed == now
      ensures !alive ==> hit == null && pools == old(pools) - {key} && !old(pools[key]).open
    {
      var entry := pools[key];
      assert entry in View().entries;
      Touch(entry, now);
      if alive {
        hit := entry;
        assert View().entries[entry].open;
      } else {
        Drop(key, entry, View());
        hit := null;
      }
    }

    method Touch(entry: PoolEntry, now: int)
      requires Valid() && entry in entries
      modifies entry`lastUsed
      ensures Valid() && entry.lastUsed == now && View() == CM.Touch(old(View()), entry, now)
    {
      ghost var before := View();
      assert before.entries[entry] == entry.Snapshot();
      entry.lastUsed := now;
      assert View().entries == CM.Touch(before, entry, now).entries;
    }

    method Install(driver: string, connStr: string, now: int) returns (db: PoolEntry)
      requires Valid() && CM.PoolKey(driver, connStr) !in pools
      modifies this`pools, this`entries
      ensures Valid() && fresh(db) && entries == old(entries) + {db}
        && pools == old(pools)[CM.PoolKey(driver, connStr) := db]
      ensures db.Snapshot() == CM.Entry(driver, connStr, now, true)
      ensures View() == CM.Install(old(View()), driver, connStr, now, db)
    {
      ghost var before := View();
      db := new PoolEntry(driver, connStr, now);
      CM.InstallKeepsTight(before, driver, connStr, now, db);
      pools := pools[CM.PoolKey(driver, connStr) := db];
      entries := entries + {db};
      assert View().entries == CM.Install(before, driver, connStr, now, db).entries;
    }

    /** The write-locked part of the stale path, for an entry that is still the mapped one. */
    method Drop(key: string, entry: PoolEntry, ghost p: CM.Pool<PoolEntry>)
      requires View() == p && CM.PoolOk(p) && CM.Tight(p) && key in pools && pools[key] == entry && entry in entries
      modifies this`pools, entry`open
      ensures Valid() && View() == CM.DropStale(p, key, entry) && !entry.open && key !in pools
      ensures pools == old(pools) - {key}
    {
      CloseOne(p, key);
      CM.CloseKeysKeepsOk(p, {key});
      CM.CloseKeysKeepsTight(p, {key});
      assert p.entries[entry] == entry.Snapshot();
      pools := pools - {key};
      entry.open := false;
      assert View().entries == CM.DropStale(p, key, entry).entries;
    }

    method CleanupStale(now: int)
      requires Valid()
      modifies this, entries
      ensures Valid() && entries == old(entries)
      ensures View() == CM.CloseKeys(old(View()), CM.IdleKeys(old(View()), now))
    {
      ghost var before, closed := View(), {};
      var todo := pools.Keys;
      assert View().entries == CM.CloseKeys(before, {}).entries;
      while todo != {}
        invariant Valid() && entries == old(entries)
        invariant closed <= CM.IdleKeys(before, now) <= closed + todo
        invariant todo !! closed && todo <= before.pools.Keys
        invariant View() == CM.CloseKeys(before, closed)
      {
        var key :| key in todo;
        todo := todo - {key};
        var entry := pools[key];
        assert entry in before.entries && entry in View().entries;
        assert entry.Snapshot() == View().entries[entry];
        if entry.lastUsed < now - CM.IDLE_LIMIT {
          CloseOne(View(), key);
          CloseOneMore(before, closed, key);
          Drop(key, entry, View());
          closed := closed + {key};
        }
      }
      assert closed == CM.IdleKeys(before, now);
    }

    method Signal()
      requires !done
      modifies this`done
      ensures done
    {
      done := true;
    }

    /** The locked half of `Close`: all handles are closed, then the map is replaced. */
    method Drain()
      requires Valid()
      modifies this, entries
      ensures Valid() && entries == old(entries) && pools == map[]
      ensures forall e | e in entries :: !e.open
    {
      var todo := pools.Keys;
      assert forall e | e in entries :: e in View().entries;
      while todo != {}
        invariant entries == old(entries) && pools == old(pools) && todo <= pools.Keys
        invariant forall k | k in pools :: pools[k] in entries
        invariant forall e | e in entries && e.open ::
          CM.PoolKey(e.driver, e.connStr) in todo && pools[CM.PoolKey(e.driver, e.connStr)] == e
      {
        var key :| key in todo;
        pools[key].open := false;
        todo := todo - {key};
      }
      pools := map[];
    }
  }
}
