/** Laws of the follow and favourite tables in every state that requests can reach. */
module TableLaws {
  import opened Wrappers
  import opened Keys
  import opened Rows
  import opened Tables
  import Requests
  import Services

  const NO_ROWS := DB([], [], [])

  /** Any run of requests, from empty tables on. */
  ghost predicate Reached(db: DB) {
    exists ops :: Requests.RunTables(NO_ROWS, ops) == db
  }

  lemma {:induction false} RunValid(ops: seq<Requests.Op>)
    ensures Valid(Requests.RunTables(NO_ROWS, ops))
  {
    if ops != [] {
      var before, op := Requests.RunTables(NO_ROWS, ops[..|ops| - 1]), ops[|ops| - 1];
      RunValid(ops[..|ops| - 1]);
      hide Valid;
      match op
      case RelationOp(u, to, action) => RelationActionValid(before, u, to, action);
      case FavoriteOp(u, v, action, now) => FavoriteActionValid(before, u, v, action, now);
      case PublishOp(author, now, _) =>
        if InsertVideo(before, author, now).Some? {
          InsertVideoValid(before, author, now);
        }
      case _ =>
    }
  }

  // ---------- friends ----------

  /** In every reachable table the COUNT query and the two existence queries agree on all pairs. */
  lemma FriendQueriesAgree(db: DB, a: id64, b: id64)
    requires Reached(db)
    ensures IsFriendCount(db, a, b) <==> IsMutualFollow(db, a, b)
    ensures IsMutualFollow(db, a, b) ==> IsMutualFollow(db, b, a) && a != b
  {
    var ops :| Requests.RunTables(NO_ROWS, ops) == db;
    RunValid(ops);
    FollowingIn(db, a, b);
    FollowingIn(db, b, a);
    EitherCount(db.follows, a, b);
  }

  lemma EitherCount(rows: seq<Follow>, a: id64, b: id64)
    requires Distinct(rows)
    ensures var ab, ba := Follow(a, b) in rows, Follow(b, a) in rows;
      |Where(rows, EitherEdge(a, b))| == (if a == b then (if ab then 1 else 0)
        else (if ab then 1 else 0) + (if ba then 1 else 0))
  {
  }


  /** On a row that follows itself the two disagree; requests never write one. */
  lemma SelfRowDisagrees(a: id64)
    ensures var db := DB([Follow(a, a)], [], []);
      IsMutualFollow(db, a, a) && !IsFriendCount(db, a, a) && !Reached(db)
  {
    var db := DB([Follow(a, a)], [], []);
    FollowingIn(db, a, a);
    EitherCount(db.follows, a, a);
    if Reached(db) {
      FriendQueriesAgree(db, a, a);
    }
  }

  // ---------- what a request does ----------

  /** A follow or unfollow changes exactly the row it names, and says so. */
  lemma RelationEffect(db: DB, u: id64, to: id64, action: int)
    requires Valid(db)
    ensures var next, code := RelationAction(db, u, to, action).0, RelationAction(db, u, to, action).1;
      && (code == SUCCESS <==>
            u != to && (action == 1 || action == 2) && (action == 2 <==> Follow(u, to) in db.follows))
      && (code == FOLLOW_MYSELF <==> u == to)
      && (code == FOLLOW_REPEAT <==> u != to && action == 1 && Follow(u, to) in db.follows)
      && (code == CANCEL_FOLLOW_REPEAT <==> u != to && action == 2 && Follow(u, to) !in db.follows)
      && (code == INVALID_PARAM <==> u != to && action != 1 && action != 2)
      && (forall f :: f in next.follows <==>
            if f == Follow(u, to) && code == SUCCESS then action == 1 else f in db.follows)
      && next.favs == db.favs && next.videos == db.videos
  {
    FollowingIn(db, u, to);
    WhereIn(db.follows, NotEdge(u, to));
    assert forall f: Follow :: NotEdge(u, to)(f) <==> f != Follow(u, to);
  }

  /** A like or cancel changes exactly the pair it names, and says so. */
  lemma FavoriteEffect(db: DB, u: id64, v: id64, action: int, now: int)
    requires Valid(db)
    ensures var next, code := FavoriteAction(db, u, v, action, now).0, FavoriteAction(db, u, v, action, now).1;
      && (code == INVALID_PARAM <==> FindVideo(db, v).None? || (action != 1 && action != 2))
      && (code == SUCCESS <==> code != INVALID_PARAM && (action == 2 <==> Liked(db, u, v)))
      && (code != SUCCESS ==> next == db && (code == INVALID_PARAM || code == FAVORITE_REPEAT))
      && (forall f :: f in next.favs <==>
            if f.user == u && f.video == v && code == SUCCESS then action == 1 && f.at == now else f in db.favs)
      && (code == SUCCESS && action == 1 ==> next.favs == db.favs + [Fav(u, v, now)])
      && next.follows == db.follows && next.videos == db.videos
  {
    WhereIn(db.favs, NotLikes(u, v));
    AllKept(db.favs, NotLikes(u, v));
  }

  /** A count is the number of distinct rows it speaks of. */
  lemma CountMeaning(db: DB, k: id64)
    requires Valid(db)
    ensures GetFollowCnt(db, k) == |set f | f in db.follows && f.user == k|
    ensures GetFollowerCnt(db, k) == |set f | f in db.follows && f.target == k|
    ensures GetVideoFavoriteCount(db, k) == |set f | f in db.favs && f.video == k|
    ensures GetUserFavoriteCount(db, k) == |set f | f in db.favs && f.user == k|
    ensures FindWorkCounts(db, k) == |set v | v in db.videos && v.author == k|
    ensures GetUserTotalFavoritedCount(db, k) == |set f | f in db.favs && AuthorOf(db, f) == k|
  {
    FollowCounts(db, k);
    FavCounts(db, k);
    VideoCounts(db, k);
  }

  /** Each counter getter asks the query of its own column. */
  lemma QueryMeaning(db: DB, counter: Services.CountFamily, k: id64)
    requires Valid(db)
    ensures Services.Query(db, counter, k) ==
      match counter
      case FollowCnt => |set f | f in db.follows && f.user == k|
      case FollowerCnt => |set f | f in db.follows && f.target == k|
      case WorkCnt => |set v | v in db.videos && v.author == k|
      case VideoFav => |set f | f in db.favs && f.video == k|
      case FavCnt => |set f | f in db.favs && f.user == k|
      case TotalFav => |set f | f in db.favs && AuthorOf(db, f) == k|
  {
    CountMeaning(db, k);
    hide GetFollowCnt, GetFollowerCnt, GetVideoFavoriteCount, GetUserFavoriteCount, FindWorkCounts,
      GetUserTotalFavoritedCount, Valid, AuthorOf;
  }

  lemma FollowCounts(db: DB, k: id64)
    requires Valid(db)
    ensures GetFollowCnt(db, k) == |set f | f in db.follows && f.user == k|
    ensures GetFollowerCnt(db, k) == |set f | f in db.follows && f.target == k|
  {
    FollowColumns(k);
    WhereCard(db.follows, Having(FollowUser, k), set f | f in db.follows && f.user == k);
    WhereCard(db.follows, Having(FollowTarget, k), set f | f in db.follows && f.target == k);
  }

  lemma FavsDistinct(db: DB)
    requires Valid(db)
    ensures Distinct(db.favs) && Distinct(db.videos)
  {
  }

  lemma FavCounts(db: DB, k: id64)
    requires Valid(db)
    ensures GetVideoFavoriteCount(db, k) == |set f | f in db.favs && f.video == k|
    ensures GetUserFavoriteCount(db, k) == |set f | f in db.favs && f.user == k|
    ensures GetUserTotalFavoritedCount(db, k) == |set f | f in db.favs && AuthorOf(db, f) == k|
  {
    FavsDistinct(db);
    FavColumns(k);
    forall f | f in db.favs ensures OnWorks(WorksOf(db, k))(f) <==> AuthorOf(db, f) == k {
      LikedAuthor(db, f, k);
    }
    hide Valid, AuthorOf, OnWorks, WorksOf, Distinct;
    WhereCard(db.favs, Having(FavVideo, k), set f | f in db.favs && f.video == k);
    WhereCard(db.favs, Having(FavUser, k), set f | f in db.favs && f.user == k);
    WhereCard(db.favs, OnWorks(WorksOf(db, k)), set f | f in db.favs && AuthorOf(db, f) == k);
  }

  lemma VideoCounts(db: DB, k: id64)
    requires Valid(db)
    ensures FindWorkCounts(db, k) == |set v | v in db.videos && v.author == k|
  {
    FavsDistinct(db);
    VideoColumns(k);
    WhereCard(db.videos, Having(VideoAuthor, k), set v | v in db.videos && v.author == k);
  }

  // ---------- totals ----------

  /** Follow counts and follower counts both add up to the table. */
  lemma FollowTotals(db: DB, users: seq<id64>)
    requires Distinct(users) && forall f :: f in db.follows ==> f.user in users && f.target in users
    ensures Sum(users, u => GetFollowCnt(db, u)) == |db.follows|
    ensures Sum(users, u => GetFollowerCnt(db, u)) == |db.follows|
  {
    CountsPartition(db.follows, FollowUser, users);
    SumIsSumCounts(db.follows, FollowUser, users, u => GetFollowCnt(db, u));
    CountsPartition(db.follows, FollowTarget, users);
    SumIsSumCounts(db.follows, FollowTarget, users, u => GetFollowerCnt(db, u));
  }

  function AuthorOf(db: DB, f: Fav): id64 {
    var v := FindVideo(db, f.video);
    if v.Some? then v.value.author else 0
  }

  /** A like counts for exactly one author. */
  lemma LikedAuthor(db: DB, f: Fav, u: id64)
    requires Valid(db) && f in db.favs
    ensures OnWorks(WorksOf(db, u))(f) <==> AuthorOf(db, f) == u
  {
    FindVideoIn(db, f.video);
    var x := FindVideo(db, f.video).value;
    var p := Having(VideoAuthor, u);
    SelectIn(db.videos, p, VideoId);
    VideoColumns(u);
    if f.video in WorksOf(db, u) {
      var r :| r in db.videos && p(r) && VideoId(r) == f.video;
      assert VideoId(r) == VideoId(x);
    } else {
      assert VideoId(x) == f.video;
    }
  }

  /** Per-video counts, per-user counts and author totals all add up to the favourite table. */
  lemma FavoriteTotals(db: DB, users: seq<id64>, videos: seq<id64>)
    requires Reached(db) && Distinct(users) && Distinct(videos)
    requires forall f :: f in db.favs ==> f.user in users && f.video in videos
    requires forall v :: v in db.videos ==> v.author in users
    ensures Sum(videos, v => GetVideoFavoriteCount(db, v)) == |db.favs|
    ensures Sum(users, u => GetUserFavoriteCount(db, u)) == |db.favs|
    ensures Sum(users, u => GetUserTotalFavoritedCount(db, u)) == |db.favs|
  {
    var ops :| Requests.RunTables(NO_ROWS, ops) == db;
    RunValid(ops);
    CountsPartition(db.favs, FavVideo, videos);
    SumIsSumCounts(db.favs, FavVideo, videos, v => GetVideoFavoriteCount(db, v));
    CountsPartition(db.favs, FavUser, users);
    SumIsSumCounts(db.favs, FavUser, users, u => GetUserFavoriteCount(db, u));
    AuthorTotals(db, users);
  }

  lemma AuthorTotals(db: DB, users: seq<id64>)
    requires Valid(db) && Distinct(users) && forall v :: v in db.videos ==> v.author in users
    ensures Sum(users, u => GetUserTotalFavoritedCount(db, u)) == |db.favs|
  {
    var author := (f: Fav) => AuthorOf(db, f);
    forall f | f in db.favs ensures author(f) in users {
      FindVideoIn(db, f.video);
    }
    forall u | u in users ensures GetUserTotalFavoritedCount(db, u) == |Where(db.favs, Having(author, u))| {
      forall f | f in db.favs ensures OnWorks(WorksOf(db, u))(f) == Having(author, u)(f) {
        LikedAuthor(db, f, u);
      }
      SameOn(db.favs, OnWorks(WorksOf(db, u)), Having(author, u));
    }
    CountsPartition(db.favs, author, users);
    SumIsSumCounts(db.favs, author, users, u => GetUserTotalFavoritedCount(db, u));
  }
}
