/**
 What each cached key has to hold, given the tables: the meaning of a coherent cache, and which keys an
 action of the services can change the meaning of.
 */
module Coherence {
  import opened Wrappers
  import opened Keys
  import opened Rows
  import opened SortedSet
  import opened Tables

  datatype Cell = IntCell(n: int) | SetCell(ids: set<id64>) | ZSetCell(z: ZSet) | Mark

  type Store = map<Key, Cell>

  /** What the tables say about a key. */
  datatype Source = IdSet(ids: seq<id64>) | Ranked(items: seq<ZItem>) | Count(n: int) | Unmanaged

  function SourceOf(db: DB, k: Key): Source {
    match k
    case Of(FollowSet, u) => IdSet(GetFollowList(db, u))
    case Of(FollowerSet, u) => IdSet(GetFollowerList(db, u))
    case Of(FollowCnt, u) => Count(GetFollowCnt(db, u))
    case Of(FollowerCnt, u) => Count(GetFollowerCnt(db, u))
    case Of(WorkCnt, u) => Count(FindWorkCounts(db, u))
    case Of(VideoFav, v) => Count(GetVideoFavoriteCount(db, v))
    case Of(FavList, u) => Ranked(FavoriteItems(db, u))
    case Of(FavCnt, u) => Count(GetUserFavoriteCount(db, u))
    case Of(TotalFav, u) => Count(GetUserTotalFavoritedCount(db, u))
    case _ => Unmanaged
  }

  /** A cached entry tells the truth; a sentinel stands only for an empty set; Redis keeps no empty sets. */
  predicate Truthful(src: Source, c: Cell) {
    match src
    case IdSet(ids) => ids != [] && c == SetCell(Elems(ids))
    case Ranked(items) => items != [] && c == ZSetCell(ZAdd(map[], items))
    case Count(n) => c == IntCell(n)
    case Unmanaged => true
  }

  predicate NoneIn(src: Source) {
    match src
    case IdSet(ids) => ids == []
    case Ranked(items) => items == []
    case _ => true
  }

  ghost predicate CellOk(db: DB, k: Key, c: Cell) {
    Truthful(SourceOf(db, k), c) && (k.Empty? ==> NoneIn(SourceOf(db, k.key)))
  }

  ghost predicate Coherent(db: DB, store: Store) {
    forall k :: k in store ==> CellOk(db, k, store[k])
  }

  /** A set and its sentinel never stand side by side. */
  lemma NeverBoth(db: DB, store: Store, k: Key)
    requires Coherent(db, store) && k in store && (SourceOf(db, k).IdSet? || SourceOf(db, k).Ranked?)
    ensures Empty(k) !in store
  {
  }

  // ---------- which keys an action touches ----------

  function RelationSets(u: id64, to: id64): seq<Key> {
    [Of(FollowSet, u), Of(FollowerSet, u), Of(FollowSet, to), Of(FollowerSet, to)]
  }

  function RelationCounts(u: id64, to: id64): seq<Key> {
    [Of(FollowCnt, u), Of(FollowerCnt, u), Of(FollowCnt, to), Of(FollowerCnt, to)]
  }

  function FavoriteCounts(u: id64, v: id64, author: id64): seq<Key> {
    [Of(VideoFav, v), Of(FavCnt, u), Of(TotalFav, author)]
  }

  function WithSentinels(keys: seq<Key>): (r: seq<Key>) {
    if keys == [] then [] else WithSentinels(keys[..|keys| - 1]) + [keys[|keys| - 1], Empty(keys[|keys| - 1])]
  }

  lemma {:induction false} SentinelsIn(keys: seq<Key>, k: Key)
    ensures k in WithSentinels(keys) <==> k in keys || (k.Empty? && k.key in keys)
  {
    if keys != [] {
      var n := |keys| - 1;
      SentinelsIn(keys[..n], k);
      assert keys == keys[..n] + [keys[n]];
    }
  }

  function Strings(keys: seq<Key>): set<string> { set d | d in keys :: Render(d) }

  /** By their strings, InvalidateRelation deletes the six entries of each of the two users, and no others. */
  lemma RelationKeysExact(u: id64, to: id64, k: Key)
    ensures Render(k) in Strings(WithSentinels(RelationSets(u, to)) + RelationCounts(u, to)) <==>
      exists x :: x in {u, to} && k in [Of(FollowSet, x), Empty(Of(FollowSet, x)), Of(FollowerSet, x),
        Empty(Of(FollowerSet, x)), Of(FollowCnt, x), Of(FollowerCnt, x)]
  {
    DeleteByString(WithSentinels(RelationSets(u, to)) + RelationCounts(u, to), k);
    SentinelsIn(RelationSets(u, to), k);
    hide WithSentinels, Render;
    var owner := if k.Of? then k.id else if k.Empty? && k.key.Of? then k.key.id else u;
    assert k in RelationSets(u, to) || k in RelationCounts(u, to) || (k.Empty? && k.key in RelationSets(u, to)) ==>
      owner in {u, to};
  }

  /** InvalidateFavorite deletes the user's list, its sentinel and count, the video's count, the author's total. */
  lemma FavoriteKeysExact(u: id64, v: id64, author: id64, k: Key)
    ensures Render(k) in Strings(WithSentinels([Of(FavList, u)]) + FavoriteCounts(u, v, author)) <==>
      k in [Of(FavList, u), Empty(Of(FavList, u)), Of(VideoFav, v), Of(FavCnt, u), Of(TotalFav, author)]
  {
    DeleteByString(WithSentinels([Of(FavList, u)]) + FavoriteCounts(u, v, author), k);
    SentinelsIn([Of(FavList, u)], k);
  }

  lemma RowChange<T(!new)>(rows: seq<T>, next: seq<T>, x: T, keep: T -> bool, p: T -> bool)
    requires next == rows + [x] || (next == Where(rows, keep) && forall y :: y in rows && !keep(y) ==> !p(y))
    requires !p(x)
    ensures Where(next, p) == Where(rows, p)
  {
  }

  /** A change of the one row (a, b) leaves the sources of all but four keys as they are. */
  lemma EdgeChange(db: DB, r: DB, a: id64, b: id64, k: Key)
    requires r.favs == db.favs && r.videos == db.videos
    requires r.follows == db.follows + [Follow(a, b)] || r.follows == Where(db.follows, NotEdge(a, b))
    requires k !in [Of(FollowSet, a), Of(FollowCnt, a), Of(FollowerSet, b), Of(FollowerCnt, b)]
    ensures SourceOf(r, k) == SourceOf(db, k)
  {
    if k.Of? && (k.family.FollowSet? || k.family.FollowCnt?) {
      FollowColumns(k.id);
      RowChange(db.follows, r.follows, Follow(a, b), NotEdge(a, b), Having(FollowUser, k.id));
    } else if k.Of? && (k.family.FollowerSet? || k.family.FollowerCnt?) {
      FollowColumns(k.id);
      RowChange(db.follows, r.follows, Follow(a, b), NotEdge(a, b), Having(FollowTarget, k.id));
    }
  }

  lemma LikeColumn(rows: seq<Fav>, next: seq<Fav>, u: id64, v: id64, now: int, p: Fav -> bool)
    requires next == rows + [Fav(u, v, now)] || next == Where(rows, NotLikes(u, v))
    requires forall f: Fav :: f.user == u && f.video == v ==> !p(f)
    ensures Where(next, p) == Where(rows, p)
  {
  }

  /** A like that comes or goes changes the list and count of its user, and two counts of its video. */
  lemma LikeChange(db: DB, r: DB, u: id64, v: id64, author: id64, now: int, k: Key)
    requires Valid(db) && r.follows == db.follows && r.videos == db.videos
    requires r.favs == db.favs + [Fav(u, v, now)] || r.favs == Where(db.favs, NotLikes(u, v))
    requires FindVideo(db, v).Some? && FindVideo(db, v).value.author == author
    requires k !in [Of(FavList, u), Of(FavCnt, u), Of(VideoFav, v), Of(TotalFav, author)]
    ensures SourceOf(r, k) == SourceOf(db, k)
  {
    hide Valid, NotLikes;
    if k.Of? && (k.family.FavList? || k.family.FavCnt?) {
      FavColumns(k.id);
      LikeColumn(db.favs, r.favs, u, v, now, Having(FavUser, k.id));
    } else if k.Of? && k.family.VideoFav? {
      FavColumns(k.id);
      LikeColumn(db.favs, r.favs, u, v, now, Having(FavVideo, k.id));
    } else if k.Of? && k.family.TotalFav? {
      OneAuthor(db, v, author, k.id);
      LikeColumn(db.favs, r.favs, u, v, now, OnWorks(WorksOf(db, k.id)));
    }
  }

  /** Only its author has a video among his works. */
  lemma OneAuthor(db: DB, v: id64, author: id64, other: id64)
    requires Valid(db) && other != author
    requires FindVideo(db, v).Some? && FindVideo(db, v).value.author == author
    ensures v !in WorksOf(db, other)
  {
    FindVideoIn(db, v);
    var p := Having(VideoAuthor, other);
    WhereIn(db.videos, p);
    VideoColumns(other);
    var mine := Where(db.videos, p);
    forall i | 0 <= i < |mine| ensures mine[i].id != v {
      assert mine[i] in mine && p(mine[i]);
    }
  }

  /** A new video changes its author's work count only: no like can be on it yet. */
  lemma PublishChange(db: DB, author: id64, now: int, k: Key)
    requires Valid(db) && InsertVideo(db, author, now).Some? && k != Of(WorkCnt, author)
    ensures SourceOf(InsertVideo(db, author, now).value, k) == SourceOf(db, k)
  {
    if k.Of? && k.family.WorkCnt? {
      VideoColumns(k.id);
      WhereSnoc(db.videos, Video(|db.videos| + 1, author, now), Having(VideoAuthor, k.id));
    } else if k.Of? && k.family.TotalFav? {
      NoLikesYet(db, author, now, k.id);
    }
  }

  lemma NoLikesYet(db: DB, author: id64, now: int, u: id64)
    requires Valid(db) && InsertVideo(db, author, now).Some?
    ensures GetUserTotalFavoritedCount(InsertVideo(db, author, now).value, u) == GetUserTotalFavoritedCount(db, u)
  {
    var r, x, p := InsertVideo(db, author, now).value, Video(|db.videos| + 1, author, now), Having(VideoAuthor, u);
    WhereSnoc(db.videos, x, p);
    VideoColumns(u);
    var works, more := WorksOf(db, u), WorksOf(r, u);
    assert more == if p(x) then works + [x.id] else works;
    forall f | f in db.favs ensures OnWorks(works)(f) == OnWorks(more)(f) {
      var v :| v in db.videos && v.id == f.video;
      assert f.video != x.id;
    }
    SameOn(db.favs, OnWorks(works), OnWorks(more));
  }
}
