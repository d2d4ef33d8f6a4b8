/** The favourite list as a response: the cached ids, their rows, and the viewer's own likes. */
module FavoriteList {
  import opened Wrappers
  import opened Keys
  import opened Rows
  import opened SortedSet
  import T = Tables
  import opened Services
  import opened Feed

  /** Every like stands for a row, so no id of the list is dropped. */
  lemma ListedFound(db: T.DB, u: id64, id: id64)
    requires T.Valid(db) && id in Elems(Members(T.FavoriteItems(db, u)))
    ensures T.FindVideo(db, id).Some? && T.FindVideo(db, id).value.id == id && T.FindVideo(db, id).value in db.videos
  {
    var items, mine := T.FavoriteItems(db, u), Where(db.favs, Having(T.FavUser, u));
    var i :| 0 <= i < |items| && Members(items)[i] == id;
    WhereIn(db.favs, Having(T.FavUser, u));
    assert mine[|mine| - 1 - i] in mine && mine[|mine| - 1 - i].video == id;
    T.FindVideoIn(db, id);
  }

  method BuildFavorites(db: T.DB, u: id64, actor: id64, ids: seq<id64>) returns (list: seq<Item>)
    requires T.Valid(db) && Elems(ids) <= Elems(Members(T.FavoriteItems(db, u)))
    ensures ItemIds(list) == ids
    ensures forall i :: 0 <= i < |list| ==> list[i].video in db.videos
    ensures forall i :: 0 <= i < |list| ==> (list[i].isFavorite <==> actor != 0 && T.Liked(db, actor, list[i].video.id))
  {
    hide T.Valid, T.FavoriteItems;
    var videos := FindVideosByIDs(db, ids);
    var favorites := PrefetchFavorites(db, actor, ids);
    list := [];
    for i := 0 to |ids|
      invariant |list| == i
      invariant forall j :: 0 <= j < i ==> list[j].video.id == ids[j] && list[j].video in db.videos
      invariant forall j :: 0 <= j < i ==> list[j].isFavorite == (ids[j] in favorites)
    {
      assert ids[i] in Elems(ids);
      ListedFound(db, u, ids[i]);
      if ids[i] in videos {
        list := list + [Item(videos[ids[i]], ids[i] in favorites)];
      }
    }
  }

  /** The likes of u as the table lists them, up to the order of the sorted set, each with its row. */
  ghost predicate ShowsLikes(db: T.DB, u: id64, actor: id64, list: seq<Item>) {
    && SameLikes(T.FavoriteItems(db, u), ItemIds(list))
    && (forall i :: 0 <= i < |list| ==> list[i].video in db.videos)
    && (forall i :: 0 <= i < |list| ==> (list[i].isFavorite <==> actor != 0 && T.Liked(db, actor, list[i].video.id)))
  }

  /**
   The newest 30 likes of u, each once and with its row: in the order of the table where like times rise
   with the row ids.  A call that is not calm may show none.
   */
  method GetFavoriteList(s: Services.Service, u: id64, actor: id64, calm: bool) returns (list: seq<Item>)
    requires s.Ok()
    modifies s.redis
    ensures s.Ok()
    ensures ShowsLikes(s.db, u, actor, list) || (!calm && list == [])
    ensures ShowsNewest(s.db, u, ItemIds(list)) || (!calm && list == [])
  {
    var ids := s.GetUserFavoriteList(u, calm);
    list := BuildFavorites(s.db, u, actor, ids);
  }
}
