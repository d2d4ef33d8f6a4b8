/**
 Whole runs of the services: any sequence of requests, with keys expiring between them and with expiry,
 fills and locks of other readers during each read, is answered as the tables alone would answer it.  Only a
 read that is not calm, one in which a set appears between SMEMBERS or ZREVRANGE and EXISTS or in which an
 entry expires between EXISTS, or its fill, and SISMEMBER, may instead miss something.  While a request
 writes, nothing else happens.
 */
module ServiceRuns {
  import opened SortedSet
  import T = Tables
  import opened Services
  import opened Feed
  import opened Requests
  import FavoriteList

  /** The requests that change the tables or the feed. */
  method ServeWrite(s: FeedService, op: Op) returns (ans: Answer)
    requires s.Ok() && (op.RelationOp? || op.FavoriteOp? || op.PublishOp? || op.LoseFeedOp?)
    modifies s, s.app, s.app.redis
    ensures s.Ok() && s.app.db == After(old(s.app.db), op) && s.feed == FeedAfter(old(s.app.db), old(s.feed), op)
    ensures Right(old(s.app.db), old(s.feed), op, ans)
  {
    match op {
      case RelationOp(u, to, action) =>
        var c := s.app.RelationAction(u, to, action);
        FeedOkSame(old(s.app.db), s.app.db, s.feed);
        ans := Code(c);
      case FavoriteOp(u, v, action, now) =>
        var c := s.app.FavoriteAction(u, v, action, now);
        FeedOkSame(old(s.app.db), s.app.db, s.feed);
        ans := Code(c);
      case PublishOp(author, now, feedUp) =>
        var ok := s.Handle(author, now, feedUp);
        ans := Flag(ok);
      case LoseFeedOp =>
        s.Lose();
        ans := Nothing;
    }
  }

  /** The requests that are answered from the cached relations, counts and likes. */
  method ServeRead(s: Service, op: Op, calm: bool) returns (ans: Answer)
    requires s.Ok() && !(op.RelationOp? || op.FavoriteOp? || op.PublishOp? || op.LoseFeedOp? || op.FeedOp?)
    modifies s.redis
    ensures s.Ok()
    ensures (forall feed :: Right(s.db, feed, op, ans)) || (!calm && Short(s.db, op, ans))
  {
    match op {
      case FollowSetOp(u) =>
        var ids := s.GetFollowSet(u, calm);
        ans := Ids(ids);
      case FollowerSetOp(u) =>
        var ids := s.GetFollowerSet(u, calm);
        ans := Ids(ids);
      case IsFollowingOp(u, target) =>
        var r := s.IsFollowing(u, target, calm);
        ans := Flag(r);
      case IsFriendOp(u, target) =>
        var r, _ := s.IsFriend(u, target, calm);
        ans := Flag(r);
      case FriendListOp(u) =>
        var ids, _, _ := s.GetFriendList(u, calm);
        ans := Ids(ids);
      case CountOp(counter, id) =>
        var n := s.GetCount(counter, id);
        ans := Number(n);
      case FavoriteListOp(u, actor) =>
        var list := FavoriteList.GetFavoriteList(s, u, actor, calm);
        ans := Items(list);
    }
  }

  method ServeOne(s: FeedService, op: Op, calm: bool) returns (ans: Answer)
    requires s.Ok()
    modifies s, s.app, s.app.redis
    ensures s.Ok() && s.app.db == After(old(s.app.db), op) && s.feed == FeedAfter(old(s.app.db), old(s.feed), op)
    ensures Right(old(s.app.db), old(s.feed), op, ans) || (!calm && Short(old(s.app.db), op, ans))
  {
    if op.RelationOp? || op.FavoriteOp? || op.PublishOp? || op.LoseFeedOp? {
      ans := ServeWrite(s, op);
    } else if op.FeedOp? {
      var list, nextTime := s.VideoFeed(op.latestTime, op.actor, op.now);
      ans := Page(list, nextTime);
    } else {
      ans := ServeRead(s.app, op, calm);
    }
  }

  /** Any run from any coherent state stays coherent and answers right, except for reads that are not calm. */
  method Serve(s: FeedService, ops: seq<Op>, calm: seq<bool>) returns (answers: seq<Answer>)
    requires s.Ok() && |calm| == |ops|
    modifies s, s.app, s.app.redis
    ensures s.Ok() && s.app.db == RunTables(old(s.app.db), ops) && s.feed == RunFeed(old(s.app.db), old(s.feed), ops)
    ensures |answers| == |ops|
    ensures forall i :: 0 <= i < |ops| ==> Served(old(s.app.db), old(s.feed), ops, i, calm[i], answers[i])
  {
    hide Right, Short, After, FeedAfter, T.Valid, FeedOk;
    answers := [];
    ghost var db, feed := s.app.db, s.feed;
    for i := 0 to |ops|
      invariant s.Ok() && s.app.db == RunTables(db, ops[..i]) && s.feed == RunFeed(db, feed, ops[..i])
      invariant |answers| == i
      invariant forall j :: 0 <= j < i ==> Served(db, feed, ops, j, calm[j], answers[j])
    {
      label Idle:
      s.app.redis.Expire();
      CoherentFaded(s.app.db, old@Idle(s.app.redis.store), s.app.redis.store);
      assert ops[..i + 1][..i] == ops[..i];
      var ans := ServeOne(s, ops[i], calm[i]);
      answers := answers + [ans];
    }
    assert ops[..|ops|] == ops;
  }

  /** The i-th answer is right, or the call was not calm and the answer misses something. */
  ghost predicate Served(db: T.DB, feed: ZSet, ops: seq<Op>, i: nat, calm: bool, ans: Answer)
    requires i < |ops|
  {
    var before, shown := RunTables(db, ops[..i]), RunFeed(db, feed, ops[..i]);
    Right(before, shown, ops[i], ans) || (!calm && Short(before, ops[i], ans))
  }
}
