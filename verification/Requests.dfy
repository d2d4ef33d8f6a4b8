/** The requests of the services: what each does to the tables and the feed, and which answer the tables give. */
module Requests {
  import opened Wrappers
  import opened Keys
  import opened Rows
  import opened SortedSet
  import T = Tables
  import opened Services
  import opened FeedPaging
  import opened Feed
  import FavoriteList

  datatype Op =
    | RelationOp(u: id64, to: id64, action: int)
    | FavoriteOp(u: id64, v: id64, action: int, now: int)
    | PublishOp(author: id64, now: int, feedUp: bool)
    | FollowSetOp(u: id64)
    | FollowerSetOp(u: id64)
    | IsFollowingOp(u: id64, target: id64)
    | IsFriendOp(u: id64, target: id64)
    | FriendListOp(u: id64)
    | CountOp(counter: CountFamily, id: id64)
    | FavoriteListOp(u: id64, actor: id64)
    | FeedOp(latestTime: Option<string>, actor: id64, now: int)
    | LoseFeedOp

  datatype Answer =
    | Code(code: int)
    | Flag(flag: bool)
    | Ids(ids: seq<id64>)
    | Number(n: int)
    | Items(items: seq<Item>)
    | Page(list: seq<Item>, nextTime: int)
    | Nothing

  /** What a request does to the tables. */
  function After(db: T.DB, op: Op): T.DB {
    match op
    case RelationOp(u, to, action) => T.RelationAction(db, u, to, action).0
    case FavoriteOp(u, v, action, now) => T.FavoriteAction(db, u, v, action, now).0
    case PublishOp(author, now, _) =>
      var r := T.InsertVideo(db, author, now);
      if r.None? then db else r.value
    case _ => db
  }

  function RunTables(db: T.DB, ops: seq<Op>): T.DB {
    if ops == [] then db else After(RunTables(db, ops[..|ops| - 1]), ops[|ops| - 1])
  }

  /** What a request does to the feed. */
  ghost function FeedAfter(db: T.DB, feed: ZSet, op: Op): ZSet {
    match op
    case PublishOp(author, now, feedUp) =>
      if feedUp && T.InsertVideo(db, author, now).Some? then feed[|db.videos| + 1 := now] else feed
    case FeedOp(latestTime, _, now) => Shown(db, feed, ParseLatest(latestTime), now)
    case LoseFeedOp => map[]
    case _ => feed
  }

  ghost function RunFeed(db: T.DB, feed: ZSet, ops: seq<Op>): ZSet {
    if ops == [] then feed
    else
      var before := ops[..|ops| - 1];
      FeedAfter(RunTables(db, before), RunFeed(db, feed, before), ops[|ops| - 1])
  }

  /** The answer the tables give, and for the feed the tables and the feed. */
  ghost predicate Right(db: T.DB, feed: ZSet, op: Op, ans: Answer) {
    match op
    case RelationOp(u, to, action) => ans == Code(T.RelationAction(db, u, to, action).1)
    case FavoriteOp(u, v, action, now) => ans == Code(T.FavoriteAction(db, u, v, action, now).1)
    case PublishOp(author, now, _) => ans == Flag(T.InsertVideo(db, author, now).Some?)
    case FollowSetOp(u) =>
      ans.Ids? && Distinct(ans.ids) && forall x :: x in ans.ids <==> T.Follow(u, x) in db.follows
    case FollowerSetOp(u) =>
      ans.Ids? && Distinct(ans.ids) && forall x :: x in ans.ids <==> T.Follow(x, u) in db.follows
    case IsFollowingOp(u, target) => ans == Flag(T.IsFollowing(db, u, target))
    case IsFriendOp(u, target) => ans == Flag(T.IsMutualFollow(db, u, target))
    case FriendListOp(u) =>
      ans.Ids? && Distinct(ans.ids) && forall x :: x in ans.ids <==> T.IsMutualFollow(db, u, x)
    case CountOp(counter, id) => ans == Number(Int32(Query(db, counter, id)))
    case FavoriteListOp(u, actor) => ans.Items? && FavoriteList.ShowsLikes(db, u, actor, ans.items)
    case FeedOp(latestTime, actor, now) =>
      var z, cutoff := Shown(db, feed, ParseLatest(latestTime), now), Cutoff(ParseLatest(latestTime), now);
      && ans.Page? && IsPage(z, cutoff, ItemIds(ans.list)) && ShowsRows(db, z, actor, ans.list)
      && ans.nextTime == NextTime(ans.list, now)
    case LoseFeedOp => ans.Nothing?
  }

  /**
   What a call that is not calm may answer instead: a read that misses something.  It shows no id that the
   tables do not, and no other request is affected.
   */
  ghost predicate Short(db: T.DB, op: Op, ans: Answer) {
    match op
    case FollowSetOp(_) => ans == Ids([])
    case FollowerSetOp(_) => ans == Ids([])
    case IsFollowingOp(_, _) => ans == Flag(false)
    case IsFriendOp(_, _) => ans == Flag(false)
    case FriendListOp(u) => ans.Ids? && Distinct(ans.ids) && forall x :: x in ans.ids ==> T.IsMutualFollow(db, u, x)
    case FavoriteListOp(_, _) => ans == Items([])
    case _ => false
  }
}
