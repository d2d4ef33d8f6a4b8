/**
 The cache-aside helpers of mw/redis over one Redis keyspace: commands, locks with retries, loads with
 double check and fill, and invalidation.  In every gap between the commands of a read, others run: any key
 may expire, other readers may fill the entry, and they may take and free its lock.

 Two of these events reach the answer.  A set that appears between SMEMBERS or ZREVRANGE and EXISTS makes
 the reader answer the empty set, and an entry that expires between EXISTS, or its fill, and SISMEMBER makes
 the membership test answer false.  A call is calm when neither happens during it; the contracts say what a
 call answers when it is calm, and what it may answer when it is not.
 */
module RedisCache {
  import opened Wrappers
  import opened Keys
  import opened Rows
  import opened SortedSet
  import opened Coherence
  import CacheSteps

  const LOCK_MAX_RETRY: nat := CacheSteps.MAX_RETRY

  /** Nothing but expiry happened. */
  ghost predicate Faded(was: Store, now: Store) {
    forall k :: k in now ==> k in was && now[k] == was[k]
  }

  /** Apart from expiry and locks, only entries of `key` and its sentinel changed, and those tell the truth. */
  ghost predicate Filled(was: Store, now: Store, key: Key, src: Source) {
    forall k :: k in now ==>
      || (k in was && now[k] == was[k])
      || k.Lock?
      || (k == key && Truthful(src, now[k]))
      || (k == Empty(key) && NoneIn(src))
  }

  /** The entry of one key is truthful, if there is one, and so is its sentinel. */
  ghost predicate EntryOk(store: Store, key: Key, src: Source) {
    && !key.Lock? && !key.Empty?
    && (key in store ==> Truthful(src, store[key]))
    && (Empty(key) in store ==> NoneIn(src))
  }

  /** Adding loaded rows again, after another reader did, changes nothing. */
  lemma AddedTwice(items: seq<ZItem>)
    requires Distinct(Members(items))
    ensures ZAdd(ZAdd(map[], items), items) == ZAdd(map[], items)
  {
    Loaded(items);
    AddedAgain(ZAdd(map[], items), items);
  }

  lemma {:induction false} AddedAgain(z: ZSet, items: seq<ZItem>)
    requires forall i :: 0 <= i < |items| ==> items[i].member in z && z[items[i].member] == items[i].score
    ensures ZAdd(z, items) == z
  {
    if items != [] {
      AddedAgain(z, items[..|items| - 1]);
    }
  }

  lemma PrintedHas(ids: seq<id64>)
    ensures forall x :: x in Elems(ids) ==> Dec(x) in Printed(ids)
  {
    forall x | x in ids ensures Dec(x) in Printed(ids) {
      var i :| 0 <= i < |ids| && ids[i] == x;
      assert Printed(ids)[i] == Dec(x);
    }
  }

  lemma NoneTaken()
    ensures Distinct<id64>([]) && Printed([]) == [] && Elems<id64>([]) == {}
  {
  }

  /** One more member is taken off a set. */
  lemma OneTaken(ids: seq<id64>, x: id64)
    requires Distinct(ids) && x !in Elems(ids)
    ensures Distinct(ids + [x]) && Printed(ids + [x]) == Printed(ids) + [Dec(x)] && Elems(ids + [x]) == Elems(ids) + {x}
  {
    assert forall i :: 0 <= i < |ids| ==> ids[i] in Elems(ids);
  }

  /** A ZREVRANGE that shows nothing: there is no set, and that is right if there are no rows either. */
  lemma NoRank(z: ZSet, limit: nat, vals: seq<id64>, items: seq<ZItem>)
    requires limit > 0 && IsRevRange(z, limit, vals) && vals == []
    ensures z == map[]
    ensures items == [] ==> IsRevRange(ZAdd(map[], items), limit, [])
    ensures items != [] ==> ZAdd(map[], items) != map[]
  {
    assert |z| == |z.Keys|;
    assert items != [] ==> items[|items| - 1].member in ZAdd(map[], items);
  }

  lemma FilledThen(was: Store, key: Key, src: Source)
    ensures Filled(was, was, key, src)
    ensures forall now, next :: Filled(was, now, key, src) && Filled(now, next, key, src) ==>
      Filled(was, next, key, src)
  {
  }

  class Redis {
    var store: Store
    // The entries whose locks this caller holds, and how often it has tried a lock and queried the tables.
    ghost var held: set<Key>
    ghost var tries: nat
    ghost var queries: nat

    constructor ()
      ensures store == map[] && held == {}
    {
      store, held, tries, queries := map[], {}, 0, 0;
    }

    // ---------- expiry, DEL, locks ----------

    method Expire()
      modifies this`store
      ensures Faded(old(store), store)
    {
      var gone: set<Key> := *;
      store := store - gone;
    }

    method ExpireFor(key: Key, src: Source, keep: bool)
      requires EntryOk(store, key, src)
      modifies this`store
      ensures Filled(old(store), store, key, src) && EntryOk(store, key, src) && Faded(old(store), store)
      ensures keep ==> forall k :: k in {key, Empty(key)} && k in old(store) ==> k in store
    {
      var gone: set<Key> := *;
      store := store - (if keep then gone - {key, Empty(key)} else gone);
    }

    method FillBy(key: Key, src: Source)
      requires EntryOk(store, key, src)
      modifies this`store
      ensures Filled(old(store), store, key, src) && EntryOk(store, key, src)
      ensures old(store.Keys) <= store.Keys <= old(store.Keys) + {key}
    {
      var c: Cell := *;
      if Truthful(src, c) {
        store := store[key := c];
      }
    }

    method MarkAndLockBy(key: Key, src: Source)
      requires EntryOk(store, key, src)
      modifies this`store
      ensures Filled(old(store), store, key, src) && EntryOk(store, key, src)
      ensures old(store.Keys) <= store.Keys <= old(store.Keys) + {Empty(key), Lock(key)}
    {
      var marked, locked: bool := *, *;
      if marked && NoneIn(src) {
        store := store[Empty(key) := Mark];
      }
      if locked {
        store := store[Lock(key) := Mark];
      }
    }

    /**
     What others may do to the entry of a key while the tables do not change: everything, except that the
     entry does not expire if it is kept, and no set appears unless it may be filled.
     */
    method Others(key: Key, src: Source, keep: bool, fill: bool)
      requires EntryOk(store, key, src)
      modifies this`store
      ensures Filled(old(store), store, key, src) && EntryOk(store, key, src)
      ensures keep ==> forall k :: k in {key, Empty(key)} && k in old(store) ==> k in store
      ensures !fill ==> key in store ==> key in old(store)
    {
      FilledThen(store, key, src);
      assert !key.Lock? && !key.Empty?;
      hide Filled, EntryOk;
      ExpireFor(key, src, keep);
      if fill {
        FillBy(key, src);
      }
      MarkAndLockBy(key, src);
    }

    method Del(keys: seq<Key>)
      modifies this`store
      ensures store == old(store) - Elems(keys)
    {
      store := store - Elems(keys);
    }

    method Invalidate(keys: seq<Key>)
      modifies this`store
      ensures store == old(store) - Elems(keys)
    {
      if |keys| == 0 {
        return;
      }
      Del(keys);
    }

    /** Deletes the set keys and their sentinels, and nothing else. */
    method InvalidateSet(keys: seq<Key>)
      modifies this`store
      ensures store == old(store) - Elems(WithSentinels(keys))
    {
      if |keys| == 0 {
        return;
      }
      var all := [];
      for i := 0 to |keys|
        invariant store == old(store) && all == WithSentinels(keys[..i])
      {
        assert keys[..i + 1][..i] == keys[..i];
        all := all + [keys[i], Empty(keys[i])];
      }
      assert keys[..|keys|] == keys;
      Invalidate(all);
    }

    method AcquireLock(key: Key, ghost src: Source) returns (ok: bool)
      modifies this
      ensures ok == (Lock(key) !in old(store))
      ensures held == (if ok then old(held) + {key} else old(held))
      ensures tries == old(tries) + 1 && queries == old(queries)
      ensures store == if ok then old(store)[Lock(key) := Mark] else old(store)
      ensures Filled(old(store), store, key, src) && (EntryOk(old(store), key, src) ==> EntryOk(store, key, src))
    {
      ok, tries := Lock(key) !in store, tries + 1;
      if ok {
        store, held := store[Lock(key) := Mark], held + {key};
      }
    }

    method ReleaseLock(key: Key, ghost src: Source)
      modifies this
      ensures store == old(store) - {Lock(key)}
      ensures held == old(held) - {key} && tries == old(tries) && queries == old(queries)
      ensures Filled(old(store), store, key, src) && (EntryOk(old(store), key, src) ==> EntryOk(store, key, src))
    {
      Del([Lock(key)]);
      held := held - {key};
    }

    /** The query that a reader runs after a miss. */
    method Query<T>(load: T) returns (v: T)
      modifies this`queries
      ensures v == load && queries == old(queries) + 1
    {
      v, queries := load, queries + 1;
    }

    /** What a load costs: at most three tries of the lock, and a query only after one; no lock is kept. */
    twostate predicate Cheap()
      reads this
    {
      && held == old(held) && old(tries) <= tries <= old(tries) + 3
      && old(queries) <= queries <= old(queries) + 1 && (queries > old(queries) ==> tries > old(tries))
    }

    /** Nothing at all happened. */
    twostate predicate Untouched()
      reads this
    {
      store == old(store) && held == old(held) && tries == old(tries) && queries == old(queries)
    }

    // ---------- counters ----------

    method Get(key: Key) returns (v: Option<int>)
      ensures v == if key in store && store[key].IntCell? then Some(store[key].n) else None
    {
      v := if key in store && store[key].IntCell? then Some(store[key].n) else None;
    }

    method SetInt(key: Key, load: int)
      requires EntryOk(store, key, Count(load))
      modifies this`store
      ensures Filled(old(store), store, key, Count(load)) && EntryOk(store, key, Count(load))
      ensures key in store && store[key] == IntCell(load)
    {
      store := store[key := IntCell(load)];
    }

    method ReadInt(key: Key, load: int) returns (v: Option<int>)
      requires EntryOk(store, key, Count(load))
      ensures v == if key in store then Some(load) else None
      ensures key in store ==> store[key] == IntCell(load)
    {
      v := Get(key);
    }

    /**
     Whatever the locks are and whatever expires meanwhile, the number of the table comes back, cached.  A hit
     touches nothing.
     */
    method LoadInt(key: Key, load: int) returns (v: int)
      requires EntryOk(store, key, Count(load)) && key !in held
      modifies this
      ensures v == load
      ensures Filled(old(store), store, key, Count(load)) && key in store && store[key] == IntCell(load)
      ensures Cheap() && (key in old(store) ==> Untouched())
    {
      var src := Count(load);
      assert !key.Lock?;
      FilledThen(store, key, src);
      hide Filled, EntryOk;
      var hit := ReadInt(key, load);
      if hit.Some? {
        return hit.value;
      }
      var locked := false;
      var i := 0;
      while i < LOCK_MAX_RETRY && !locked
        invariant EntryOk(store, key, src) && Filled(old(store), store, key, src)
        invariant i <= 3 && tries == old(tries) + i && queries == old(queries)
        invariant held == (if locked then old(held) + {key} else old(held)) && (locked ==> i > 0)
      {
        Others(key, src, false, true);
        locked := AcquireLock(key, src);
        Others(key, src, false, true);
        if !locked {
          hit := ReadInt(key, load);
          if hit.Some? {
            return hit.value;
          }
        }
        i := i + 1;
      }
      if locked {
        hit := ReadInt(key, load);
        if hit.Some? {
          ReleaseLock(key, src);
          return hit.value;
        }
      }
      Others(key, src, false, true);
      v := Query(load);
      SetInt(key, v);
      if locked {
        ReleaseLock(key, src);
      }
    }

    // ---------- sets ----------

    method SMembers(key: Key) returns (members: seq<string>, ghost ids: seq<id64>)
      ensures Distinct(ids) && members == Printed(ids)
      ensures Elems(ids) == if key in store && store[key].SetCell? then store[key].ids else {}
      ensures key in store && store[key].SetCell? ==> forall x :: x in store[key].ids ==> Dec(x) in members
    {
      hide Distinct, Printed, Elems;
      members, ids := [], [];
      NoneTaken();
      var all := if key in store && store[key].SetCell? then store[key].ids else {};
      var rest := all;
      while rest != {}
        invariant Distinct(ids) && members == Printed(ids)
        invariant Elems(ids) + rest == all && Elems(ids) !! rest
        decreases |rest|
      {
        var x :| x in rest;
        OneTaken(ids, x);
        members, ids := members + [Dec(x)], ids + [x];
        rest := rest - {x};
      }
      PrintedHas(ids);
    }

    method CacheReady(key: Key) returns (ready: bool)
      ensures ready <==> key in store || Empty(key) in store
    {
      ready := key in store || Empty(key) in store;
    }

    method ReadUintSet(key: Key, src: Source, calm: bool) returns (vals: seq<id64>, hit: bool)
      requires src.IdSet? && EntryOk(store, key, src)
      modifies this`store
      ensures Filled(old(store), store, key, src) && EntryOk(store, key, src)
      ensures key in old(store) ==> hit && store == old(store)
      ensures hit <==> key in store || Empty(key) in store
      ensures hit ==> Distinct(vals) && (Elems(vals) == Elems(src.ids) || (!calm && vals == []))
    {
      var members, ids := SMembers(key);
      assert key in store ==> src.ids[0] in Elems(ids);
      if |members| > 0 {
        vals := ParseUintMembers(members);
        PrintedMembers(ids);
        assert ids[0] in Elems(ids);
        return vals, true;
      }
      assert src.ids != [] ==> src.ids[0] in Elems(src.ids);
      Others(key, src, false, !calm);
      hit := CacheReady(key);
      vals := [];
    }

    /** SADD merges into what is there. */
    method SAdd(key: Key, ids: seq<id64>)
      modifies this`store
      ensures var was := if key in old(store) && old(store)[key].SetCell? then old(store)[key].ids else {};
        store == old(store)[key := SetCell(was + Elems(ids))]
    {
      var was := if key in store && store[key].SetCell? then store[key].ids else {};
      store := store[key := SetCell(was + Elems(ids))];
    }

    method FillSet(key: Key, load: seq<id64>, calm: bool)
      requires EntryOk(store, key, IdSet(load))
      modifies this`store
      ensures Filled(old(store), store, key, IdSet(load)) && EntryOk(store, key, IdSet(load))
      ensures calm ==> if load == [] then Empty(key) in store else key in store
    {
      if |load| > 0 {
        SAdd(key, load);
        Others(key, IdSet(load), calm, true);
        Del([Empty(key)]);
      } else {
        store := store[Empty(key) := Mark];
      }
    }

    /**
     The table's ids come back in some order, or none of them if the call is not calm; after a calm call
     the entry or its sentinel stands.
     */
    method LoadUintSet(key: Key, load: seq<id64>, calm: bool) returns (vals: seq<id64>)
      requires Distinct(load) && EntryOk(store, key, IdSet(load)) && key !in held
      modifies this
      ensures Distinct(vals) && (Elems(vals) == Elems(load) || (!calm && vals == []))
      ensures Filled(old(store), store, key, IdSet(load)) && EntryOk(store, key, IdSet(load))
      ensures calm ==> key in store || Empty(key) in store
      ensures Cheap() && (key in old(store) ==> Untouched())
    {
      var src := IdSet(load);
      FilledThen(store, key, src);
      hide Filled, EntryOk;
      var hit;
      vals, hit := ReadUintSet(key, src, calm);
      if hit {
        return;
      }
      var locked := false;
      var i := 0;
      while i < LOCK_MAX_RETRY && !locked
        invariant EntryOk(store, key, src) && Filled(old(store), store, key, src)
        invariant i <= 3 && tries == old(tries) + i && queries == old(queries)
        invariant held == (if locked then old(held) + {key} else old(held)) && (locked ==> i > 0)
      {
        Others(key, src, false, true);
        locked := AcquireLock(key, src);
        Others(key, src, false, true);
        if !locked {
          vals, hit := ReadUintSet(key, src, calm);
          if hit {
            return;
          }
        }
        i := i + 1;
      }
      if locked {
        vals, hit := ReadUintSet(key, src, calm);
        if hit {
          ReleaseLock(key, src);
          return;
        }
      }
      Others(key, src, false, true);
      vals := Query(load);
      FillSet(key, vals, calm);
      if locked {
        ReleaseLock(key, src);
      }
    }

    method SIsMember(key: Key, target: id64) returns (r: bool)
      ensures r <==> key in store && store[key].SetCell? && target in store[key].ids
    {
      r := key in store && store[key].SetCell? && target in store[key].ids;
    }

    /**
     Membership without fetching the set: the table's answer while the entry stands, as it does in a calm
     call, and false once it has expired.
     */
    method SetContains(key: Key, target: id64, load: seq<id64>, calm: bool) returns (r: bool)
      requires Distinct(load) && EntryOk(store, key, IdSet(load)) && key !in held
      modifies this
      ensures r <==> target in load && key in store
      ensures calm && load != [] ==> key in store
      ensures Filled(old(store), store, key, IdSet(load)) && EntryOk(store, key, IdSet(load))
      ensures Cheap() && (key in old(store) || Empty(key) in old(store) ==> tries == old(tries))
    {
      FilledThen(store, key, IdSet(load));
      var ready := CacheReady(key);
      if !ready {
        var _ := LoadUintSet(key, load, calm);
      }
      Others(key, IdSet(load), calm, true);
      hide Filled;
      r := SIsMember(key, target);
    }

    // ---------- sorted sets ----------

    method ReadUintZSet(key: Key, limit: nat, src: Source, calm: bool) returns (vals: seq<id64>, hit: bool)
      requires limit > 0 && src.Ranked? && EntryOk(store, key, src)
      modifies this`store
      ensures Filled(old(store), store, key, src) && EntryOk(store, key, src)
      ensures key in old(store) ==> hit && store == old(store)
      ensures hit <==> key in store || Empty(key) in store
      ensures hit ==> IsRevRange(ZAdd(map[], src.items), limit, vals) || (!calm && vals == [])
    {
      var z: ZSet := if key in store && store[key].ZSetCell? then store[key].z else map[];
      var ids := RevRange(z, limit);
      PrintedMembers(ids);
      vals := ParseUintMembers(Printed(ids));
      if |vals| > 0 {
        return vals, true;
      }
      NoRank(z, limit, vals, src.items);
      Others(key, src, false, !calm);
      hit := CacheReady(key);
    }

    /** ZADD merges into what is there. */
    method AddToZSet(key: Key, items: seq<ZItem>)
      modifies this`store
      ensures var was := if key in old(store) && old(store)[key].ZSetCell? then old(store)[key].z else map[];
        store == old(store)[key := ZSetCell(ZAdd(was, items))]
    {
      var was: ZSet := if key in store && store[key].ZSetCell? then store[key].z else map[];
      store := store[key := ZSetCell(ZAdd(was, items))];
    }

    method MembersOf(items: seq<ZItem>) returns (vals: seq<id64>)
      ensures vals == Members(items)
    {
      vals := [];
      for i := 0 to |items|
        invariant vals == Members(items[..i])
      {
        vals := vals + [items[i].member];
      }
      assert items[..|items|] == items;
    }

    method FillZSet(key: Key, load: seq<ZItem>, calm: bool)
      requires Distinct(Members(load)) && EntryOk(store, key, Ranked(load))
      modifies this`store
      ensures Filled(old(store), store, key, Ranked(load)) && EntryOk(store, key, Ranked(load))
      ensures calm ==> if load == [] then Empty(key) in store else key in store
    {
      if |load| > 0 {
        AddToZSet(key, load);
        AddedTwice(load);
        Others(key, Ranked(load), calm, true);
        Del([Empty(key)]);
      } else {
        store := store[Empty(key) := Mark];
      }
    }

    /** A miss answers in the table's order, a hit in the sorted set's; a call that is not calm may answer none. */
    method LoadUintZSet(key: Key, limit: nat, load: seq<ZItem>, calm: bool) returns (vals: seq<id64>)
      requires limit > 0 && |load| <= limit && Distinct(Members(load))
      requires EntryOk(store, key, Ranked(load)) && key !in held
      modifies this
      ensures vals == Members(load) || IsRevRange(ZAdd(map[], load), limit, vals) || (!calm && vals == [])
      ensures Filled(old(store), store, key, Ranked(load)) && EntryOk(store, key, Ranked(load))
      ensures calm ==> key in store || Empty(key) in store
      ensures Cheap() && (key in old(store) ==> Untouched())
    {
      var src := Ranked(load);
      FilledThen(store, key, src);
      hide Filled, EntryOk, IsRevRange, Distinct, ZAdd, Members;
      var hit;
      vals, hit := ReadUintZSet(key, limit, src, calm);
      if hit {
        return;
      }
      var locked := false;
      var i := 0;
      while i < LOCK_MAX_RETRY && !locked
        invariant EntryOk(store, key, src) && Filled(old(store), store, key, src)
        invariant i <= 3 && tries == old(tries) + i && queries == old(queries)
        invariant held == (if locked then old(held) + {key} else old(held)) && (locked ==> i > 0)
      {
        Others(key, src, false, true);
        locked := AcquireLock(key, src);
        Others(key, src, false, true);
        if !locked {
          vals, hit := ReadUintZSet(key, limit, src, calm);
          if hit {
            return;
          }
        }
        i := i + 1;
      }
      if locked {
        vals, hit := ReadUintZSet(key, limit, src, calm);
        if hit {
          ReleaseLock(key, src);
          return;
        }
      }
      Others(key, src, false, true);
      var items := Query(load);
      vals := MembersOf(items);
      FillZSet(key, items, calm);
      if locked {
        ReleaseLock(key, src);
      }
    }
  }
}
