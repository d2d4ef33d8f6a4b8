/**
 The relation, favourite and counter services over the tables and the cache.  Whatever expires and whoever
 else fills the cache meanwhile, every answer of a calm call is the one the tables give; a call that is not
 calm may miss something, and never shows anything that the tables do not hold.
 */
module Services {
  import opened Wrappers
  import opened Keys
  import opened Rows
  import opened SortedSet
  import T = Tables
  import opened Coherence
  import opened RedisCache

  // ---------- the cache against the tables ----------

  predicate Managed(k: Key) { !k.Lock? && !k.Empty? }

  lemma CoherentEntry(db: T.DB, store: Store, key: Key)
    requires Coherent(db, store) && Managed(key)
    ensures EntryOk(store, key, SourceOf(db, key))
  {
    assert key in store ==> CellOk(db, key, store[key]);
    assert Empty(key) in store ==> CellOk(db, Empty(key), store[Empty(key)]);
  }

  lemma CoherentFilled(db: T.DB, was: Store, now: Store, key: Key)
    requires Coherent(db, was) && Managed(key) && Filled(was, now, key, SourceOf(db, key))
    ensures Coherent(db, now)
  {
  }

  lemma CoherentFaded(db: T.DB, was: Store, now: Store)
    requires Coherent(db, was) && Faded(was, now)
    ensures Coherent(db, now)
  {
    forall k | k in now ensures CellOk(db, k, now[k]) {
      assert CellOk(db, k, was[k]);
    }
  }

  /** A write keeps the cache coherent once every key whose source changed is gone, with its sentinel. */
  lemma CoherentWrite(db: T.DB, next: T.DB, was: Store, now: Store)
    requires Coherent(db, was) && Faded(was, now)
    requires forall k :: k in now ==> SourceOf(next, k) == SourceOf(db, k)
    requires forall k :: Empty(k) in now ==> SourceOf(next, k) == SourceOf(db, k) || SourceOf(next, k).Count?
    ensures Coherent(next, now)
  {
  }

  // ---------- lists the tables hold have no repeats ----------

  lemma ColumnDistinct(rows: seq<T.Follow>, f: T.Follow -> id64, g: T.Follow -> id64, k: id64)
    requires Distinct(rows) && forall x: T.Follow, y: T.Follow :: f(x) == f(y) && g(x) == g(y) ==> x == y
    ensures Distinct(Select(Where(rows, Having(f, k)), g))
    ensures forall r :: r in rows && f(r) == k ==> g(r) in Select(Where(rows, Having(f, k)), g)
    ensures forall x :: x in Select(Where(rows, Having(f, k)), g) ==> exists r :: r in rows && f(r) == k && g(r) == x
  {
    var p := Having(f, k);
    var mine := Where(rows, p);
    DistinctWhere(rows, p);
    WhereIn(rows, p);
    SelectIn(rows, p, g);
    assert forall i :: 0 <= i < |mine| ==> mine[i] in mine && p(mine[i]);
  }

  lemma FollowListsDistinct(db: T.DB, u: id64)
    requires T.Valid(db)
    ensures Distinct(T.GetFollowList(db, u)) && Distinct(T.GetFollowerList(db, u))
    ensures forall x :: x in T.GetFollowList(db, u) <==> T.Follow(u, x) in db.follows
    ensures forall x :: x in T.GetFollowerList(db, u) <==> T.Follow(x, u) in db.follows
  {
    ColumnDistinct(db.follows, T.FollowUser, T.FollowTarget, u);
    ColumnDistinct(db.follows, T.FollowTarget, T.FollowUser, u);
    forall x ensures T.FollowUser(T.Follow(u, x)) == u && T.FollowTarget(T.Follow(u, x)) == x {}
    forall x ensures T.FollowUser(T.Follow(x, u)) == x && T.FollowTarget(T.Follow(x, u)) == u {}
  }

  lemma FavoriteItemsDistinct(db: T.DB, u: id64)
    requires T.Valid(db)
    ensures Distinct(Members(T.FavoriteItems(db, u))) && |T.FavoriteItems(db, u)| <= T.FAVORITE_LIST_SIZE
  {
    var p := Having(T.FavUser, u);
    WhereUnique(db.favs, p, T.Pair);
    WhereIn(db.favs, p);
    var mine := Where(db.favs, p);
    T.FavColumns(u);
    forall i, j | 0 <= i < j < |mine| ensures mine[i].video != mine[j].video {
      assert mine[i] in mine && mine[j] in mine;
      assert T.Pair(mine[i]) != T.Pair(mine[j]);
    }
    var m, items := Members(T.FavoriteItems(db, u)), T.FavoriteItems(db, u);
    assert forall i :: 0 <= i < |items| ==> m[i] == mine[|mine| - 1 - i].video;
  }

  // ---------- the services ----------

  /** int32(n): the signed 32-bit number that agrees with n modulo 2^32. */
  function Int32(n: int): (r: int)
    ensures -0x8000_0000 <= r < 0x8000_0000 && (n - r) % 0x1_0000_0000 == 0
    ensures -0x8000_0000 <= n < 0x8000_0000 ==> r == n
  {
    (n + 0x8000_0000) % 0x1_0000_0000 - 0x8000_0000
  }

  /**
   The likes of the rows, each once: in the order of the rows or in that of the sorted set, and in the order
   of the rows if both are the same.
   */
  ghost predicate SameLikes(items: seq<ZItem>, ids: seq<id64>) {
    && Distinct(ids) && |ids| == |items| && Elems(ids) == Elems(Members(items))
    && (ids == Members(items) || Ordered(ZAdd(map[], items), ids))
    && (ScoreOrder(items) ==> ids == Members(items))
  }

  /** The 30 newest likes of u, by where their rows stand in the table. */
  ghost predicate ShowsNewest(db: T.DB, u: id64, ids: seq<id64>) {
    exists items, at :: T.NewestAt(db, u, 30, items, at) && SameLikes(items, ids)
  }

  type CountFamily = f: Family | f in {FollowCnt, FollowerCnt, WorkCnt, VideoFav, FavCnt, TotalFav} witness FollowCnt

  function Query(db: T.DB, counter: CountFamily, id: id64): int {
    match counter
    case FollowCnt => T.GetFollowCnt(db, id)
    case FollowerCnt => T.GetFollowerCnt(db, id)
    case WorkCnt => T.FindWorkCounts(db, id)
    case VideoFav => T.GetVideoFavoriteCount(db, id)
    case FavCnt => T.GetUserFavoriteCount(db, id)
    case TotalFav => T.GetUserTotalFavoritedCount(db, id)
  }

  class Service {
    const redis: Redis
    var db: T.DB

    constructor (db0: T.DB)
      requires T.Valid(db0)
      ensures db == db0 && Ok() && fresh(redis)
    {
      redis := new Redis();
      db := db0;
    }

    ghost predicate Ok()
      reads this, redis
    {
      T.Valid(db) && Coherent(db, redis.store) && redis.held == {}
    }

    method GetFollowSet(u: id64, calm: bool) returns (ids: seq<id64>)
      requires Ok()
      modifies redis
      ensures Ok() && Distinct(ids)
      ensures (forall x :: x in ids <==> T.Follow(u, x) in db.follows) || (!calm && ids == [])
    {
      var key := Of(FollowSet, u);
      CoherentEntry(db, redis.store, key);
      FollowListsDistinct(db, u);
      ids := redis.LoadUintSet(key, T.GetFollowList(db, u), calm);
      CoherentFilled(db, old(redis.store), redis.store, key);
      assert forall x :: x in ids <==> x in Elems(ids);
    }

    method GetFollowerSet(u: id64, calm: bool) returns (ids: seq<id64>)
      requires Ok()
      modifies redis
      ensures Ok() && Distinct(ids)
      ensures (forall x :: x in ids <==> T.Follow(x, u) in db.follows) || (!calm && ids == [])
    {
      var key := Of(FollowerSet, u);
      CoherentEntry(db, redis.store, key);
      FollowListsDistinct(db, u);
      ids := redis.LoadUintSet(key, T.GetFollowerList(db, u), calm);
      CoherentFilled(db, old(redis.store), redis.store, key);
      assert forall x :: x in ids <==> x in Elems(ids);
    }

    /** The follow table's answer while the entry stands, as it does in a calm call; false once it has expired. */
    method IsFollowing(u: id64, target: id64, calm: bool) returns (r: bool)
      requires Ok()
      modifies redis
      ensures Ok()
      ensures r <==> T.IsFollowing(db, u, target) && Of(FollowSet, u) in redis.store
      ensures calm ==> r == T.IsFollowing(db, u, target)
    {
      var key, load := Of(FollowSet, u), T.GetFollowList(db, u);
      CoherentEntry(db, redis.store, key);
      FollowListsDistinct(db, u);
      T.FollowingIn(db, u, target);
      assert target in load ==> load != [];
      r := redis.SetContains(key, target, load, calm);
      CoherentFilled(db, old(redis.store), redis.store, key);
    }

    /** A mutual follow of which each entry stands when it is asked; `asked` is the store at the first question. */
    method IsFriend(u: id64, target: id64, calm: bool) returns (r: bool, ghost asked: Store)
      requires Ok()
      modifies redis
      ensures Ok() && Coherent(db, asked)
      ensures r <==>
        T.IsMutualFollow(db, u, target) && Of(FollowSet, u) in asked && Of(FollowSet, target) in redis.store
      ensures calm ==> r == T.IsMutualFollow(db, u, target)
    {
      r := IsFollowing(u, target, calm);
      asked := redis.store;
      if !r {
        return;
      }
      r := IsFollowing(target, u, calm);
    }

    /**
     Users in mutual follow with u, each once: of those that GetFollowSet lists, the ones whose own entry stands
     when it is asked for u; asked[i] is the store when follows[i] is.  In a calm call these are all of them.
     */
    method GetFriendList(u: id64, calm: bool)
      returns (friends: seq<id64>, ghost follows: seq<id64>, ghost asked: seq<Store>)
      requires Ok()
      modifies redis
      ensures Ok() && Distinct(friends) && Distinct(follows) && |asked| == |follows|
      ensures (forall x :: x in follows <==> T.Follow(u, x) in db.follows) || (!calm && follows == [])
      ensures forall i :: 0 <= i < |follows| ==>
        (follows[i] in friends <==> T.IsFollowing(db, follows[i], u) && Of(FollowSet, follows[i]) in asked[i])
      ensures forall x :: x in friends ==> x in follows
      ensures calm ==> forall x :: x in friends <==> T.IsMutualFollow(db, u, x)
      ensures forall x :: x in friends ==> T.IsMutualFollow(db, u, x)
    {
      var listed := GetFollowSet(u, calm);
      follows, friends, asked := listed, [], [];
      for i := 0 to |listed|
        invariant Ok() && Distinct(friends) && |asked| == i
        invariant forall x :: x in friends ==> x in listed[..i] && T.IsFollowing(db, x, u)
        invariant forall j :: 0 <= j < i ==>
          (listed[j] in friends <==> T.IsFollowing(db, listed[j], u) && Of(FollowSet, listed[j]) in asked[j])
        invariant calm ==> forall j :: 0 <= j < i && T.IsFollowing(db, listed[j], u) ==> listed[j] in friends
      {
        var ok := IsFollowing(listed[i], u, calm);
        asked := asked + [redis.store];
        assert listed[i] !in listed[..i];
        if ok {
          friends := friends + [listed[i]];
        }
        assert listed[..i + 1] == listed[..i] + [listed[i]];
      }
      assert listed[..|listed|] == listed;
      forall x ensures T.IsFollowing(db, u, x) <==> T.Follow(u, x) in db.follows {
        T.FollowingIn(db, u, x);
      }
    }

    /** The six counter getters: a cached COUNT, cut to 32 bits. */
    method GetCount(counter: CountFamily, id: id64) returns (n: int)
      requires Ok()
      modifies redis
      ensures Ok() && n == Int32(Query(db, counter, id))
      ensures Query(db, counter, id) < 0x8000_0000 ==> n == Query(db, counter, id)
      ensures -0x8000_0000 <= n < 0x8000_0000 && (Query(db, counter, id) - n) % 0x1_0000_0000 == 0
    {
      var key := Of(counter, id);
      CoherentEntry(db, redis.store, key);
      var v := redis.LoadInt(key, Query(db, counter, id));
      CoherentFilled(db, old(redis.store), redis.store, key);
      n := Int32(v);
    }

    /** Newest likes first, at most 30: the table's list, up to the order of the sorted set. */
    method GetUserFavoriteList(u: id64, calm: bool) returns (ids: seq<id64>)
      requires Ok()
      modifies redis
      ensures Ok()
      ensures SameLikes(T.FavoriteItems(db, u), ids) || (!calm && ids == [])
      ensures ShowsNewest(db, u, ids) || (!calm && ids == [])
    {
      var key, items := Of(FavList, u), T.FavoriteItems(db, u);
      CoherentEntry(db, redis.store, key);
      FavoriteItemsDistinct(db, u);
      ids := redis.LoadUintZSet(key, T.FAVORITE_LIST_SIZE, items, calm);
      CoherentFilled(db, old(redis.store), redis.store, key);
      if IsRevRange(ZAdd(map[], items), T.FAVORITE_LIST_SIZE, ids) {
        HitAgainstMiss(items, T.FAVORITE_LIST_SIZE, ids);
      }
      T.NewestLikes(db, u, 30);
    }

    method InvalidateRelation(u: id64, other: id64)
      modifies redis`store
      ensures redis.store == old(redis.store) - Elems(WithSentinels(RelationSets(u,
        other))) - Elems(RelationCounts(u, other))
    {
      redis.InvalidateSet(RelationSets(u, other));
      redis.Invalidate(RelationCounts(u, other));
    }

    method InvalidateFavorite(u: id64, v: id64, author: id64)
      modifies redis`store
      ensures redis.store == old(redis.store) - Elems(WithSentinels([Of(FavList, u)])) - Elems(FavoriteCounts(u, v,
        author))
    {
      redis.InvalidateSet([Of(FavList, u)]);
      redis.Invalidate(FavoriteCounts(u, v, author));
    }

    method RelationAction(u: id64, to: id64, action: int) returns (code: int)
      requires Ok()
      modifies this, redis
      ensures Ok() && (db, code) == T.RelationAction(old(db), u, to, action)
    {
      T.RelationActionValid(db, u, to, action);
      if u == to {
        return T.FOLLOW_MYSELF;
      }
      match action {
        case 1 =>
          if T.IsFollowing(db, u, to) {
            return T.FOLLOW_REPEAT;
          }
          var r := T.AddFollow(db, u, to);
          if r.None? {
            return T.DB_ERROR;
          }
          db := r.value;
        case 2 =>
          if !T.IsFollowing(db, u, to) {
            return T.CANCEL_FOLLOW_REPEAT;
          }
          db := T.DeleteFollow(db, u, to);
        case _ =>
          return T.INVALID_PARAM;
      }
      InvalidateRelation(u, to);
      RelationCoherent(old(db), db, old(redis.store), redis.store, u, to);
      code := T.SUCCESS;
    }

    method FavoriteAction(u: id64, v: id64, action: int, now: int) returns (code: int)
      requires Ok()
      modifies this, redis
      ensures Ok() && (db, code) == T.FavoriteAction(old(db), u, v, action, now)
    {
      T.FavoriteActionValid(db, u, v, action, now);
      var video := T.FindVideo(db, v);
      if video.None? {
        return T.INVALID_PARAM;
      }
      match action {
        case 1 =>
          var r := T.AddUserFavorite(db, u, v, now);
          if r.None? {
            return T.FAVORITE_REPEAT;
          }
          db := r.value;
        case 2 =>
          var r := T.DeleteUserFavorite(db, u, v);
          if r.None? {
            return T.FAVORITE_REPEAT;
          }
          db := r.value;
        case _ =>
          return T.INVALID_PARAM;
      }
      InvalidateFavorite(u, v, video.value.author);
      FavoriteCoherent(old(db), db, old(redis.store), redis.store, u, v, video.value.author, now);
      code := T.SUCCESS;
    }
  }

  // ---------- every write leaves the cache coherent ----------

  lemma CountSource(db: T.DB, k: Key)
    ensures k.Of? && k.family in {FollowCnt, FollowerCnt, FavCnt, VideoFav, TotalFav} ==> SourceOf(db, k).Count?
  {
  }

  lemma RelationCoherent(db: T.DB, next: T.DB, was: Store, now: Store, u: id64, to: id64)
    requires Coherent(db, was) && next.favs == db.favs && next.videos == db.videos
    requires next.follows == db.follows + [T.Follow(u, to)] || next.follows == Where(db.follows, T.NotEdge(u, to))
    requires now == was - Elems(WithSentinels(RelationSets(u, to))) - Elems(RelationCounts(u, to))
    ensures Coherent(next, now)
  {
    hide SourceOf, Coherent, T.Valid;
    forall k
      ensures k in now ==> SourceOf(next, k) == SourceOf(db, k)
      ensures Empty(k) in now ==> SourceOf(next, k) == SourceOf(db, k) || SourceOf(next, k).Count?
    {
      if k in [Of(FollowSet, u), Of(FollowCnt, u), Of(FollowerSet, to), Of(FollowerCnt, to)] {
        SentinelsIn(RelationSets(u, to), k);
        SentinelsIn(RelationSets(u, to), Empty(k));
        CountSource(next, k);
      } else {
        EdgeChange(db, next, u, to, k);
      }
    }
    CoherentWrite(db, next, was, now);
  }

  lemma FavoriteCoherent(db: T.DB, next: T.DB, was: Store, now: Store, u: id64, v: id64, author: id64, time: int)
    requires T.Valid(db) && Coherent(db, was) && next.follows == db.follows && next.videos == db.videos
    requires next.favs == db.favs + [T.Fav(u, v, time)] || next.favs == Where(db.favs, T.NotLikes(u, v))
    requires T.FindVideo(db, v).Some? && T.FindVideo(db, v).value.author == author
    requires now == was - Elems(WithSentinels([Of(FavList, u)])) - Elems(FavoriteCounts(u, v, author))
    ensures Coherent(next, now)
  {
    hide SourceOf, Coherent, T.Valid;
    forall k
      ensures k in now ==> SourceOf(next, k) == SourceOf(db, k)
      ensures Empty(k) in now ==> SourceOf(next, k) == SourceOf(db, k) || SourceOf(next, k).Count?
    {
      if k in [Of(FavList, u), Of(FavCnt, u), Of(VideoFav, v), Of(TotalFav, author)] {
        SentinelsIn([Of(FavList, u)], k);
        SentinelsIn([Of(FavList, u)], Empty(k));
        CountSource(next, k);
      } else {
        LikeChange(db, next, u, v, author, time, k);
      }
    }
    CoherentWrite(db, next, was, now);
  }

  lemma PublishCoherent(db: T.DB, was: Store, now: Store, author: id64, time: int)
    requires T.Valid(db) && Coherent(db, was) && T.InsertVideo(db, author, time).Some?
    requires now == was - Elems([Of(WorkCnt, author)])
    ensures Coherent(T.InsertVideo(db, author, time).value, now)
  {
    var next := T.InsertVideo(db, author, time).value;
    forall k
      ensures k in now ==> SourceOf(next, k) == SourceOf(db, k)
      ensures Empty(k) in now ==> SourceOf(next, k) == SourceOf(db, k) || SourceOf(next, k).Count?
    {
      if k != Of(WorkCnt, author) {
        PublishChange(db, author, time, k);
      }
    }
    CoherentWrite(db, next, was, now);
  }
}
