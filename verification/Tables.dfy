/**
 The follow, favourite and video tables: their queries and statements, and the two actions of the
 services as they change the tables.
 */
module Tables {
  import opened Wrappers
  import opened Keys
  import opened Rows
  import opened SortedSet

  datatype Follow = Follow(user: id64, target: id64)
  datatype Fav = Fav(user: id64, video: id64, at: int)
  datatype Video = Video(id: id64, author: id64, at: int)
  datatype DB = DB(follows: seq<Follow>, favs: seq<Fav>, videos: seq<Video>)

  const FAVORITE_LIST_SIZE: nat := 30

  function FollowUser(f: Follow): id64 { f.user }
  function FollowTarget(f: Follow): id64 { f.target }
  function FavUser(f: Fav): id64 { f.user }
  function FavVideo(f: Fav): id64 { f.video }
  function VideoId(v: Video): id64 { v.id }
  function VideoAuthor(v: Video): id64 { v.author }
  function Pair(f: Fav): (id64, id64) { (f.user, f.video) }
  function AsItem(f: Fav): ZItem { ZItem(f.at, f.video) }
  function Edge(a: id64, b: id64): Follow -> bool { f => f == Follow(a, b) }
  function NotEdge(a: id64, b: id64): Follow -> bool { f => f != Follow(a, b) }
  function EitherEdge(a: id64, b: id64): Follow -> bool { f => f == Follow(a, b) || f == Follow(b, a) }
  function NotLikes(u: id64, v: id64): Fav -> bool { (f: Fav) => !(f.user == u && f.video == v) }

  // ---------- queries ----------

  function GetFollowList(db: DB, u: id64): seq<id64> { Select(Where(db.follows, Having(FollowUser, u)), FollowTarget) }
  function GetFollowerList(db: DB, u: id64): seq<id64> {
    Select(Where(db.follows, Having(FollowTarget, u)), FollowUser)
  }
  function GetFollowCnt(db: DB, u: id64): nat { |Where(db.follows, Having(FollowUser, u))| }
  function GetFollowerCnt(db: DB, u: id64): nat { |Where(db.follows, Having(FollowTarget, u))| }
  function IsFollowing(db: DB, a: id64, b: id64): bool { |Where(db.follows, Edge(a, b))| > 0 }
  function IsMutualFollow(db: DB, a: id64, b: id64): bool { IsFollowing(db, a, b) && IsFollowing(db, b, a) }

  /** The friend query: one COUNT over both directions, compared with 2. */
  function IsFriendCount(db: DB, a: id64, b: id64): bool { |Where(db.follows, EitherEdge(a, b))| == 2 }

  function GetVideoFavoriteCount(db: DB, v: id64): nat { |Where(db.favs, Having(FavVideo, v))| }
  function GetUserFavoriteCount(db: DB, u: id64): nat { |Where(db.favs, Having(FavUser, u))| }
  function FindWorkCounts(db: DB, u: id64): nat { |Where(db.videos, Having(VideoAuthor, u))| }

  function WorksOf(db: DB, u: id64): seq<id64> { Select(Where(db.videos, Having(VideoAuthor, u)), VideoId) }
  function OnWorks(works: seq<id64>): Fav -> bool { (f: Fav) => f.video in works }
  function GetUserTotalFavoritedCount(db: DB, u: id64): nat { |Where(db.favs, OnWorks(WorksOf(db, u)))| }

  function Reverse<T>(s: seq<T>): (r: seq<T>)
    ensures |r| == |s| && forall i :: 0 <= i < |s| ==> r[i] == s[|s| - 1 - i]
  {
    seq(|s|, i requires 0 <= i < |s| => s[|s| - 1 - i])
  }

  function Top<T>(s: seq<T>, n: nat): seq<T> { if |s| <= n then s else s[..n] }

  /** The user's likes by descending row id, at most limit of them. */
  function GetFavoriteList(db: DB, u: id64, limit: nat): seq<Fav> {
    Top(Reverse(Where(db.favs, Having(FavUser, u))), limit)
  }

  function FavoriteItems(db: DB, u: id64): seq<ZItem> {
    Select(GetFavoriteList(db, u, FAVORITE_LIST_SIZE), AsItem)
  }

  /** The rows of the likes of u, by where they stand in the table. */
  function LikesOf(db: DB, u: id64): set<nat> { set k: nat | k < |db.favs| && db.favs[k].user == u }

  /** The items are the rows at these positions, newest first: the last likes of u, as many as the limit allows. */
  ghost predicate NewestAt(db: DB, u: id64, limit: nat, items: seq<ZItem>, at: seq<nat>) {
    && |items| == |at| == (if |LikesOf(db, u)| <= limit then |LikesOf(db, u)| else limit)
    && (forall i :: 0 <= i < |at| ==>
          at[i] in LikesOf(db, u) && items[i] == ZItem(db.favs[at[i]].at, db.favs[at[i]].video))
    && (forall i, j :: 0 <= i < j < |at| ==> at[i] > at[j])
    && (forall k, i :: k in LikesOf(db, u) && k !in at && 0 <= i < |at| ==> k < at[i])
  }

  /** The last n of some positions, from the last one back. */
  lemma LastPositions(ps: seq<nat>, n: nat) returns (at: seq<nat>)
    requires n <= |ps| && forall i, j :: 0 <= i < j < |ps| ==> ps[i] < ps[j]
    ensures |at| == n && forall i :: 0 <= i < n ==> at[i] == ps[|ps| - 1 - i]
    ensures forall k, i :: k in ps && k !in at && 0 <= i < n ==> k < at[i]
  {
    at := seq(n, i requires 0 <= i < n => ps[|ps| - 1 - i]);
    assert forall j :: |ps| - n <= j < |ps| ==> at[|ps| - 1 - j] == ps[j];
  }

  lemma LikePositions(db: DB, u: id64) returns (ps: seq<nat>)
    ensures |ps| == |LikesOf(db, u)| && forall k :: k in ps <==> k in LikesOf(db, u)
    ensures forall i, j :: 0 <= i < j < |ps| ==> ps[i] < ps[j]
    ensures var w := Where(db.favs, Having(FavUser, u));
      |w| == |ps| && forall i :: 0 <= i < |ps| ==> ps[i] < |db.favs| && w[i] == db.favs[ps[i]]
  {
    ps := Positions(db.favs, Having(FavUser, u));
    WherePositions(db.favs, Having(FavUser, u));
    FavColumns(u);
    assert Elems(ps) == LikesOf(db, u);
    DistinctCard(ps);
  }

  lemma ItemsOf(db: DB, u: id64, limit: nat, rows: seq<Fav>, at: seq<nat>, ps: seq<nat>)
    requires |rows| == |at| == (if |ps| <= limit then |ps| else limit) && |ps| == |LikesOf(db, u)|
    requires forall k :: k in ps <==> k in LikesOf(db, u)
    requires forall i :: 0 <= i < |rows| ==> at[i] in LikesOf(db, u) && rows[i] == db.favs[at[i]]
    requires forall i, j :: 0 <= i < j < |at| ==> at[i] > at[j]
    requires forall k, i :: k in ps && k !in at && 0 <= i < |at| ==> k < at[i]
    ensures NewestAt(db, u, limit, Select(rows, AsItem), at)
  {
  }

  /** The table lists exactly the newest likes. */
  lemma NewestLikes(db: DB, u: id64, limit: nat)
    ensures exists at :: NewestAt(db, u, limit, Select(GetFavoriteList(db, u, limit), AsItem), at)
  {
    var rows := GetFavoriteList(db, u, limit);
    var ps := LikePositions(db, u);
    var at := LastPositions(ps, |rows|);
    forall i | 0 <= i < |rows| ensures at[i] in LikesOf(db, u) && rows[i] == db.favs[at[i]] {
      assert ps[|ps| - 1 - i] in ps;
    }
    hide Where, GetFavoriteList, Positions;
    ItemsOf(db, u, limit, rows, at, ps);
  }

  ghost predicate Liked(db: DB, u: id64, v: id64) {
    exists f :: f in db.favs && f.user == u && f.video == v
  }

  function FindVideo(db: DB, v: id64): Option<Video> {
    var r := Where(db.videos, Having(VideoId, v));
    if r == [] then None else Some(r[0])
  }

  // What the WHERE clauses mean, row by row.
  lemma FollowColumns(k: id64)
    ensures forall x: Follow :: Having(FollowUser, k)(x) <==> x.user == k
    ensures forall x: Follow :: Having(FollowTarget, k)(x) <==> x.target == k
  {
    assert forall x: Follow :: Having(FollowUser, k)(x) <==> FollowUser(x) == k;
    assert forall x: Follow :: Having(FollowTarget, k)(x) <==> FollowTarget(x) == k;
  }

  lemma FavColumns(k: id64)
    ensures forall x: Fav :: Having(FavUser, k)(x) <==> x.user == k
    ensures forall x: Fav :: Having(FavVideo, k)(x) <==> x.video == k
  {
    assert forall x: Fav :: Having(FavUser, k)(x) <==> FavUser(x) == k;
    assert forall x: Fav :: Having(FavVideo, k)(x) <==> FavVideo(x) == k;
  }

  lemma VideoColumns(k: id64)
    ensures forall x: Video :: Having(VideoId, k)(x) <==> x.id == k
    ensures forall x: Video :: Having(VideoAuthor, k)(x) <==> x.author == k
  {
    assert forall x: Video :: Having(VideoId, k)(x) <==> VideoId(x) == k;
    assert forall x: Video :: Having(VideoAuthor, k)(x) <==> VideoAuthor(x) == k;
  }

  // ---------- what the unique indexes and foreign ids promise ----------

  ghost predicate Valid(db: DB) {
    && Distinct(db.follows)
    && (forall f :: f in db.follows ==> f.user != f.target)
    && UniqueBy(db.favs, Pair)
    && UniqueBy(db.videos, VideoId)
    && (forall v :: v in db.videos ==> v.id <= |db.videos|)
    && (forall f :: f in db.favs ==> exists v :: v in db.videos && v.id == f.video)
  }

  // ---------- statements and actions ----------

  const SUCCESS := 0
  const INVALID_PARAM := 2
  const DB_ERROR := 4
  const FOLLOW_MYSELF := 5
  const FOLLOW_REPEAT := 10
  const CANCEL_FOLLOW_REPEAT := 11
  const FAVORITE_REPEAT := 12

  /** INSERT under the unique index: no change where the pair is there already. */
  function AddFollow(db: DB, a: id64, b: id64): Option<DB> {
    if Follow(a, b) in db.follows then None else Some(db.(follows := db.follows + [Follow(a, b)]))
  }

  function DeleteFollow(db: DB, a: id64, b: id64): DB { db.(follows := Where(db.follows, NotEdge(a, b))) }

  function AddUserFavorite(db: DB, u: id64, v: id64, now: int): Option<DB> {
    if exists f :: f in db.favs && f.user == u && f.video == v then None
    else Some(db.(favs := db.favs + [Fav(u, v, now)]))
  }

  /** DELETE reports through its affected rows whether the like was there. */
  function DeleteUserFavorite(db: DB, u: id64, v: id64): Option<DB> {
    var rest := Where(db.favs, NotLikes(u, v));
    if |rest| == |db.favs| then None else Some(db.(favs := rest))
  }

  /** The next auto-increment id, until the 64 bits run out. */
  function InsertVideo(db: DB, author: id64, now: int): Option<DB> {
    if |db.videos| + 1 >= 0x1_0000_0000_0000_0000 then None
    else Some(db.(videos := db.videos + [Video(|db.videos| + 1, author, now)]))
  }

  /** A follow or unfollow request without any cache: the new tables and the status code. */
  function RelationAction(db: DB, u: id64, to: id64, action: int): (DB, int) {
    if u == to then (db, FOLLOW_MYSELF)
    else if action == 1 then
      if IsFollowing(db, u, to) then (db, FOLLOW_REPEAT)
      else
        var r := AddFollow(db, u, to);
        if r.None? then (db, DB_ERROR) else (r.value, SUCCESS)
    else if action == 2 then
      if !IsFollowing(db, u, to) then (db, CANCEL_FOLLOW_REPEAT) else (DeleteFollow(db, u, to), SUCCESS)
    else (db, INVALID_PARAM)
  }

  function FavoriteAction(db: DB, u: id64, v: id64, action: int, now: int): (DB, int) {
    if FindVideo(db, v).None? then (db, INVALID_PARAM)
    else if action == 1 || action == 2 then
      var r := if action == 1 then AddUserFavorite(db, u, v, now) else DeleteUserFavorite(db, u, v);
      if r.None? then (db, FAVORITE_REPEAT) else (r.value, SUCCESS)
    else (db, INVALID_PARAM)
  }

  // ---------- the actions keep the tables valid ----------

  lemma FollowingIn(db: DB, a: id64, b: id64)
    ensures IsFollowing(db, a, b) <==> Follow(a, b) in db.follows
  {
    WhereIn(db.follows, Edge(a, b));
    var w := Where(db.follows, Edge(a, b));
    assert |w| > 0 ==> w[0] in w;
  }

  lemma FindVideoIn(db: DB, v: id64)
    ensures FindVideo(db, v).None? <==> forall x :: x in db.videos ==> x.id != v
    ensures FindVideo(db, v).Some? ==> FindVideo(db, v).value in db.videos && FindVideo(db, v).value.id == v
  {
    var p, w := Having(VideoId, v), Where(db.videos, Having(VideoId, v));
    WhereIn(db.videos, p);
    VideoColumns(v);
    assert |w| > 0 ==> w[0] in w;
    forall x | x in db.videos && x.id == v ensures w != [] {
      assert p(x);
      assert x in w;
    }
  }

  lemma RelationActionValid(db: DB, u: id64, to: id64, action: int)
    requires Valid(db)
    ensures Valid(RelationAction(db, u, to, action).0)
    ensures RelationAction(db, u, to, action).1 != DB_ERROR
  {
    FollowingIn(db, u, to);
    DistinctWhere(db.follows, NotEdge(u, to));
    WhereIn(db.follows, NotEdge(u, to));
  }

  lemma FavoriteActionValid(db: DB, u: id64, v: id64, action: int, now: int)
    requires Valid(db)
    ensures Valid(FavoriteAction(db, u, v, action, now).0)
  {
    FindVideoIn(db, v);
    WhereUnique(db.favs, NotLikes(u, v), Pair);
    WhereIn(db.favs, NotLikes(u, v));
  }

  lemma InsertVideoValid(db: DB, author: id64, now: int)
    requires Valid(db) && InsertVideo(db, author, now).Some?
    ensures Valid(InsertVideo(db, author, now).value)
  {
  }
}
