/**
 The video feed: a sorted set of video ids by publication time, kept beside the video table, filled by the
 publishing consumer and backfilled from the table when it comes up empty.
 */
module Feed {
  import opened Wrappers
  import opened Keys
  import opened Rows
  import opened SortedSet
  import T = Tables
  import Services
  import Runs
  import opened FeedPaging

  const FEED_PAGE_SIZE: nat := 30

  /** What the client sends as latest_time: absent, or text that may not be a number. */
  function ParseLatest(s: Option<string>): int {
    if s.None? || s.value == "" then 0
    else
      var neg := s.value[0] == '-';
      var v := Digits(if neg || s.value[0] == '+' then s.value[1..] else s.value);
      if v.None? || s.value == "-" || s.value == "+" then 0
      else if neg then (if v.value > 0x8000_0000_0000_0000 then 0 else -(v.value as int))
      else if v.value >= 0x8000_0000_0000_0000 then 0 else v.value
  }

  lemma PrintedPositive(n: nat)
    requires n < 0x8000_0000_0000_0000
    ensures ParseLatest(Some(Dec(n))) == n
  {
    DigitsOfDec(n);
  }

  lemma PrintedNegative(n: nat)
    requires 0 < n <= 0x8000_0000_0000_0000
    ensures ParseLatest(Some("-" + Dec(n))) == -(n as int)
  {
    DigitsOfDec(n);
    assert ("-" + Dec(n))[1..] == Dec(n);
    hide Dec, Digits;
  }

  /** A printed 64-bit number parses back to itself. */
  lemma PrintedLatest(n: int)
    requires -0x8000_0000_0000_0000 <= n < 0x8000_0000_0000_0000
    ensures ParseLatest(Some(PartText(Signed(n)))) == n
  {
    hide ParseLatest, Dec;
    if n < 0 { PrintedNegative(-n); } else { PrintedPositive(n); }
  }

  // latest_time at or below zero means now.
  function Cutoff(latest: int, now: int): int { if latest <= 0 then now else latest }

  /** The text is a decimal number, with or without a sign, that fits 64 bits. */
  ghost predicate Says(text: Option<string>, n: int) {
    && text.Some? && -0x8000_0000_0000_0000 <= n < 0x8000_0000_0000_0000
    && exists sign: string, ds: string ::
         && text.value == sign + ds && sign in {"", "+", "-"} && ds != [] && AllDigits(ds)
         && n == Number(sign, ds)
  }

  function Number(sign: string, ds: string): int
    requires AllDigits(ds)
  {
    if sign == "-" then 0 - PlaceValue(ds) else PlaceValue(ds)
  }

  /** A request starts at the positive number it names, and anything else, or nothing at all, means now. */
  ghost predicate StartsAt(text: Option<string>, now: int, max: int) {
    || (max > 0 && Says(text, max))
    || (max == now && forall n :: n > 0 ==> !Says(text, n))
  }

  lemma ParsedSays(text: Option<string>, sign: string, ds: string)
    requires text == Some(sign + ds) && sign in {"", "+", "-"} && ds != [] && AllDigits(ds)
    ensures var n := Number(sign, ds);
      ParseLatest(text) == if -0x8000_0000_0000_0000 <= n < 0x8000_0000_0000_0000 then n else 0
  {
    DigitsMeaning(ds);
    hide Digits, PlaceValue;
    var s := text.value;
    if sign == "" {
      assert s == ds && '0' <= s[0] <= '9';
    } else {
      assert s[0] == sign[0] && s[1..] == ds;
    }
  }

  lemma SaidParsed(text: Option<string>)
    ensures ParseLatest(text) != 0 ==> Says(text, ParseLatest(text))
  {
    if ParseLatest(text) != 0 {
      var s := text.value;
      var sign, ds := if s[0] == '-' then "-" else if s[0] == '+' then "+" else "", s;
      if sign != "" { ds := s[1..]; }
      assert s == sign + ds;
      DigitsMeaning(ds);
    }
  }

  /** What latest_time stands for: itself if it is a number of 64 bits, and zero otherwise. */
  lemma ParseMeaning(text: Option<string>, n: int)
    ensures Says(text, n) ==> ParseLatest(text) == n
    ensures (forall k :: !Says(text, k)) ==> ParseLatest(text) == 0
  {
    if Says(text, n) {
      var sign: string, ds: string :| text.value == sign + ds && sign in {"", "+", "-"} && ds != [] && AllDigits(ds)
        && n == Number(sign, ds);
      ParsedSays(text, sign, ds);
    }
    SaidParsed(text);
  }

  lemma CutoffMeaning(text: Option<string>, now: int, max: int)
    ensures StartsAt(text, now, max) <==> max == Cutoff(ParseLatest(text), now)
  {
    hide ParseLatest, Says;
    forall n ensures Says(text, n) ==> ParseLatest(text) == n {
      ParseMeaning(text, n);
    }
    SaidParsed(text);
  }

  function Published(now: int): T.Video -> bool { (v: T.Video) => v.at < now }
  function FeedItem(v: T.Video): ZItem { ZItem(v.at, v.id) }

  /** The rows that a backfill adds: those strictly older than this second. */
  function BackfillItems(db: T.DB, now: int): seq<ZItem> { Select(Where(db.videos, Published(now)), FeedItem) }

  /** Every feed member is a video row, and its score is that row's created_at. */
  ghost predicate FeedOk(db: T.DB, feed: ZSet) {
    forall m :: m in feed ==> RowOf(db, ZItem(feed[m], m))
  }

  ghost predicate RowOf(db: T.DB, i: ZItem) {
    exists v :: v in db.videos && v.id == i.member && v.at == i.score
  }

  datatype Item = Item(video: T.Video, isFavorite: bool)

  lemma RowsFound(db: T.DB, id: id64)
    requires T.Valid(db)
    ensures forall v :: v in db.videos && v.id == id ==> T.FindVideo(db, id) == Some(v)
  {
    T.FindVideoIn(db, id);
    forall v | v in db.videos && v.id == id ensures T.FindVideo(db, id) == Some(v) {
      var x := T.FindVideo(db, id).value;
      assert T.VideoId(x) == T.VideoId(v);
    }
  }

  /** FindVideosByIDs: one IN query, collected into a map. */
  method FindVideosByIDs(db: T.DB, ids: seq<id64>) returns (found: map<id64, T.Video>)
    requires T.Valid(db)
    ensures forall id :: id in found <==> id in ids && T.FindVideo(db, id).Some?
    ensures forall id :: id in found ==> found[id] == T.FindVideo(db, id).value
  {
    found := map[];
    if |ids| == 0 {
      return;
    }
    for i := 0 to |db.videos|
      invariant forall id :: id in found <==> id in ids && exists j :: 0 <= j < i && db.videos[j].id == id
      invariant forall id :: id in found ==> T.FindVideo(db, id) == Some(found[id])
    {
      var v := db.videos[i];
      RowsFound(db, v.id);
      if v.id in ids {
        found := found[v.id := v];
      }
    }
    forall id ensures T.FindVideo(db, id).Some? <==> exists j :: 0 <= j < |db.videos| && db.videos[j].id == id {
      T.FindVideoIn(db, id);
    }
  }

  /** BatchIsFavorite: the ids among these that the user likes. */
  method BatchIsFavorite(db: T.DB, user: id64, ids: seq<id64>) returns (liked: set<id64>)
    ensures forall id :: id in liked <==> id in ids && T.Liked(db, user, id)
  {
    liked := {};
    if |ids| == 0 {
      return;
    }
    for i := 0 to |db.favs|
      invariant forall id :: id in liked <==>
        id in ids && exists f :: f in db.favs[..i] && f.user == user && f.video == id
    {
      assert db.favs[..i + 1] == db.favs[..i] + [db.favs[i]];
      if db.favs[i].user == user && db.favs[i].video in ids {
        liked := liked + {db.favs[i].video};
      }
    }
    assert db.favs[..|db.favs|] == db.favs;
  }

  /** Nobody is logged in as user 0, and user 0 has no likes to show. */
  method PrefetchFavorites(db: T.DB, actor: id64, ids: seq<id64>) returns (liked: set<id64>)
    ensures forall id :: id in liked <==>
      actor != 0 && id in ids && T.Liked(db, actor, id)
  {
    if actor == 0 || |ids| == 0 {
      return {};
    }
    liked := BatchIsFavorite(db, actor, ids);
  }

  function ItemIds(list: seq<Item>): (r: seq<id64>)
    ensures |r| == |list| && forall i :: 0 <= i < |list| ==> r[i] == list[i].video.id
  {
    seq(|list|, i requires 0 <= i < |list| => list[i].video.id)
  }

  lemma FeedRow(db: T.DB, feed: ZSet, id: id64)
    requires T.Valid(db) && FeedOk(db, feed) && id in feed
    ensures var v := T.FindVideo(db, id); v.Some? && v.value in db.videos && v.value.id == id && v.value.at == feed[id]
  {
    assert RowOf(db, ZItem(feed[id], id));
    RowsFound(db, id);
  }

  lemma PageEmpty(z: ZSet, cursor: int, page: seq<id64>)
    requires IsPage(z, cursor, page)
    ensures page == [] <==> UpTo(z, cursor) == map[]
  {
  }

  /** A row of the table whose score in the feed is its created_at. */
  ghost predicate IsRow(db: T.DB, feed: ZSet, v: T.Video) {
    v in db.videos && v.id in feed && feed[v.id] == v.at
  }

  /** Each item is a row of the feed with the viewer's own like. */
  ghost predicate ShowsRows(db: T.DB, feed: ZSet, actor: id64, list: seq<Item>) {
    forall i :: 0 <= i < |list| ==>
      && IsRow(db, feed, list[i].video)
      && (list[i].isFavorite <==> actor != 0 && T.Liked(db, actor, list[i].video.id))
  }

  /** The created_at of the last row shown, and now if there is none or it is zero. */
  function NextTime(list: seq<Item>, now: int): int {
    if list == [] || list[|list| - 1].video.at == 0 then now else list[|list| - 1].video.at
  }

  /** At most 30 rows no later than max, newest first; a member up to max is missing only if 30 are as new. */
  ghost predicate NewestUpTo(feed: ZSet, max: int, list: seq<Item>) {
    && |list| <= 30 && Distinct(ItemIds(list))
    && (forall i :: 0 <= i < |list| ==> list[i].video.at <= max)
    && (forall i, j :: 0 <= i < j < |list| ==> list[i].video.at >= list[j].video.at)
    && (forall m :: m in feed && feed[m] <= max && m !in ItemIds(list) ==>
          |list| == 30 && forall i :: 0 <= i < |list| ==> list[i].video.at >= feed[m])
  }

  lemma PageNewest(db: T.DB, feed: ZSet, max: int, actor: id64, list: seq<Item>)
    requires IsPage(feed, max, ItemIds(list)) && ShowsRows(db, feed, actor, list)
    ensures NewestUpTo(feed, max, list)
  {
    var ids := ItemIds(list);
    PageFacts(feed, max, ids);
    OrderedDistinct(UpTo(feed, max), ids);
    forall i | 0 <= i < |list| ensures ids[i] in ids && list[i].video.at == feed[ids[i]] {
      assert IsRow(db, feed, list[i].video);
    }
    if |ids| < 30 {
      ShortPage(feed, max, ids);
    }
  }

  lemma FeedNewest(db: T.DB, feed: ZSet, text: Option<string>, actor: id64, now: int, list: seq<Item>)
    requires IsPage(feed, Cutoff(ParseLatest(text), now), ItemIds(list)) && ShowsRows(db, feed, actor, list)
    ensures forall max :: StartsAt(text, now, max) ==> NewestUpTo(feed, max, list)
  {
    PageNewest(db, feed, Cutoff(ParseLatest(text), now), actor, list);
    hide StartsAt, NewestUpTo, ParseLatest, Cutoff, ShowsRows, IsPage;
    forall max | StartsAt(text, now, max) ensures NewestUpTo(feed, max, list) {
      CutoffMeaning(text, now, max);
    }
  }

  lemma FeedOkSame(db: T.DB, next: T.DB, feed: ZSet)
    requires FeedOk(db, feed) && next.videos == db.videos
    ensures FeedOk(next, feed)
  {
  }

  /** What the feed holds once a request has found it empty below the cutoff, and has backfilled it. */
  ghost function Shown(db: T.DB, feed: ZSet, latest: int, now: int): ZSet {
    if UpTo(feed, Cutoff(latest, now)) != map[] then feed else ZAdd(feed, BackfillItems(db, now))
  }

  /** The rows of the ids, in order, and the created_at of the last of them. */
  method BuildList(db: T.DB, feed: ZSet, ids: seq<id64>, favorites: set<id64>) returns (list: seq<Item>, nextTime: int)
    requires T.Valid(db) && FeedOk(db, feed) && forall id :: id in ids ==> id in feed
    ensures ItemIds(list) == ids
    ensures forall i :: 0 <= i < |list| ==>
      IsRow(db, feed, list[i].video) && list[i].isFavorite == (ids[i] in favorites)
    ensures nextTime == if list == [] then 0 else list[|list| - 1].video.at
  {
    hide T.Valid, FeedOk;
    var videos := FindVideosByIDs(db, ids);
    list, nextTime := [], 0;
    for i := 0 to |ids|
      invariant |list| == i
      invariant forall j :: 0 <= j < i ==> list[j].video.id == ids[j] && IsRow(db, feed, list[j].video)
      invariant forall j :: 0 <= j < i ==> list[j].isFavorite == (ids[j] in favorites)
      invariant nextTime == if i == 0 then 0 else list[i - 1].video.at
    {
      FeedRow(db, feed, ids[i]);
      if ids[i] in videos {
        var v := videos[ids[i]];
        list := list + [Item(v, v.id in favorites)];
        nextTime := v.at;
      }
    }
  }

  /** The viewer's likes for the whole page, and then its rows. */
  method Assemble(db: T.DB, feed: ZSet, actor: id64, ids: seq<id64>, now: int) returns (list: seq<Item>, nextTime: int)
    requires T.Valid(db) && FeedOk(db, feed) && forall id :: id in ids ==> id in feed
    ensures ItemIds(list) == ids && ShowsRows(db, feed, actor, list) && nextTime == NextTime(list, now)
  {
    hide T.Valid, FeedOk, IsRow, T.Liked;
    var favorites := PrefetchFavorites(db, actor, ids);
    list, nextTime := BuildList(db, feed, ids, favorites);
    if nextTime == 0 {
      nextTime := now;
    }
    forall i | 0 <= i < |list|
      ensures list[i].isFavorite <==> actor != 0 && T.Liked(db, actor, list[i].video.id)
    {
      assert ItemIds(list)[i] in ids;
    }
  }

  /** The video service: the feed beside the tables and the cache of the other services. */
  class FeedService {
    const app: Services.Service
    var feed: ZSet

    constructor (app: Services.Service)
      requires app.Ok()
      ensures this.app == app && feed == map[] && Ok()
    {
      this.app, feed := app, map[];
    }

    ghost predicate Ok()
      reads this, app, app.redis
    {
      app.Ok() && FeedOk(app.db, feed)
    }

    method GetFeedVideoIDs(latest: int, now: int) returns (ids: seq<id64>)
      ensures IsPage(feed, Cutoff(latest, now), ids)
      ensures latest <= 0 ==> IsPage(feed, now, ids)
      ensures latest > 0 ==> IsPage(feed, latest, ids)
    {
      var max := if latest <= 0 then now else latest;
      ids := RevRange(UpTo(feed, max), FEED_PAGE_SIZE);
    }

    method BackfillFeed(now: int)
      requires Ok()
      modifies this`feed
      ensures Ok() && feed == ZAdd(old(feed), BackfillItems(app.db, now))
    {
      var items := BackfillItems(app.db, now);
      if |items| == 0 {
        return;
      }
      feed := ZAdd(feed, items);
      BackfillOk(app.db, old(feed), now);
    }

    /** The page at the cutoff, each row with the viewer's like, and where the next page starts. */
    method VideoFeed(latestTime: Option<string>, actor: id64, now: int) returns (list: seq<Item>, nextTime: int)
      requires Ok()
      modifies this`feed
      ensures Ok() && feed == Shown(app.db, old(feed), ParseLatest(latestTime), now)
      ensures IsPage(feed, Cutoff(ParseLatest(latestTime), now), ItemIds(list))
      ensures ShowsRows(app.db, feed, actor, list)
      ensures forall max :: StartsAt(latestTime, now, max) ==> NewestUpTo(feed, max, list)
      ensures nextTime == NextTime(list, now)
      ensures list == [] ==> nextTime == now
      ensures list != [] && list[|list| - 1].video.at != 0 ==> nextTime == list[|list| - 1].video.at
    {
      hide T.Valid, FeedOk, ParseLatest, ShowsRows, StartsAt, NewestUpTo;
      var latest := ParseLatest(latestTime);
      var ids := GetFeedVideoIDs(latest, now);
      PageEmpty(feed, Cutoff(latest, now), ids);
      if |ids| == 0 {
        BackfillFeed(now);
        ids := GetFeedVideoIDs(latest, now);
      }
      PageFacts(feed, Cutoff(latest, now), ids);
      list, nextTime := Assemble(app.db, feed, actor, ids, now);
      FeedNewest(app.db, feed, latestTime, actor, now, list);
    }

    /**
     The consumer: the row first, then its feed entry, which may fail to be written, and then the deletion
     of the author's cached work count.
     */
    method Handle(author: id64, now: int, feedUp: bool) returns (ok: bool)
      requires Ok()
      modifies this, app, app.redis
      ensures Ok() && ok == T.InsertVideo(old(app.db), author, now).Some?
      ensures app.db == if ok then T.InsertVideo(old(app.db), author, now).value else old(app.db)
      ensures feed == if ok && feedUp then old(feed)[|old(app.db).videos| + 1 := now] else old(feed)
      ensures app.redis.store == if ok then old(app.redis.store) - {Of(WorkCnt, author)} else old(app.redis.store)
    {
      var r := T.InsertVideo(app.db, author, now);
      if r.None? {
        return false;
      }
      T.InsertVideoValid(app.db, author, now);
      var video := r.value.videos[|app.db.videos|];
      app.db := r.value;
      PublishedOk(old(app.db), app.db, feed, video);
      if feedUp {
        AddVideoToFeed(video.id, video.at);
      }
      app.redis.Invalidate([Of(WorkCnt, author)]);
      Services.PublishCoherent(old(app.db), old(app.redis.store), app.redis.store, author, now);
      ok := true;
    }

    method AddVideoToFeed(id: id64, at: int)
      modifies this`feed
      ensures feed == old(feed)[id := at]
    {
      feed := feed[id := at];
    }

    /** The feed key is lost, as when Redis restarts or evicts it. */
    method Lose()
      requires Ok()
      modifies this`feed
      ensures Ok() && feed == map[]
    {
      feed := map[];
    }
  }

  /**
   After the feed key was lost, one request shows the newest rows at or below its cutoff that are older
   than the current second, up to a page of them.
   */
  method ColdStart(s: FeedService, latestTime: Option<string>, actor: id64, now: int)
    returns (list: seq<Item>, nextTime: int)
    requires s.Ok()
    modifies s`feed
    ensures s.Ok()
    ensures var cutoff := Cutoff(ParseLatest(latestTime), now);
      && (forall i :: 0 <= i < |list| ==> list[i].video in s.app.db.videos && Eligible(list[i].video, cutoff, now))
      && (forall i, v :: 0 <= i < |list| && v in s.app.db.videos && Eligible(v, cutoff, now) ==>
            v.id in ItemIds(list) || list[i].video.at >= v.at)
      && |list| <= FEED_PAGE_SIZE && Distinct(ItemIds(list))
      && (|list| < FEED_PAGE_SIZE ==>
            forall v :: v in s.app.db.videos && Eligible(v, cutoff, now) ==> v.id in ItemIds(list))
  {
    s.Lose();
    list, nextTime := s.VideoFeed(latestTime, actor, now);
    ColdList(s.app.db, Cutoff(ParseLatest(latestTime), now), now, s.feed, actor, list);
  }

  lemma ColdList(db: T.DB, cutoff: int, now: int, feed: ZSet, actor: id64, list: seq<Item>)
    requires T.Valid(db) && feed == ZAdd(map[], BackfillItems(db, now))
    requires IsPage(feed, cutoff, ItemIds(list)) && ShowsRows(db, feed, actor, list)
    ensures forall i :: 0 <= i < |list| ==> list[i].video in db.videos && Eligible(list[i].video, cutoff, now)
    ensures forall i, v :: 0 <= i < |list| && v in db.videos && Eligible(v, cutoff, now) && v.id !in ItemIds(list) ==>
              list[i].video.at >= v.at
    ensures |list| <= FEED_PAGE_SIZE && Distinct(ItemIds(list))
    ensures |list| < FEED_PAGE_SIZE ==> forall v :: v in db.videos && Eligible(v, cutoff, now) ==> v.id in ItemIds(list)
  {
    ColdPage(db, cutoff, now, ItemIds(list));
    forall i | 0 <= i < |list| ensures T.FindVideo(db, ItemIds(list)[i]) == Some(list[i].video) {
      RowsFound(db, list[i].video.id);
    }
    assert forall i :: 0 <= i < |list| ==> ItemIds(list)[i] in ItemIds(list);
  }

  lemma BackfillOk(db: T.DB, feed: ZSet, now: int)
    requires FeedOk(db, feed)
    ensures FeedOk(db, ZAdd(feed, BackfillItems(db, now)))
  {
    var p := Published(now);
    WhereIn(db.videos, p);
    var rows := Where(db.videos, p);
    var items := BackfillItems(db, now);
    forall i | 0 <= i < |items| ensures RowOf(db, items[i]) {
      assert rows[i] in rows && items[i] == FeedItem(rows[i]);
    }
    AddOk(db, feed, items);
  }

  lemma {:induction false} AddOk(db: T.DB, feed: ZSet, items: seq<ZItem>)
    requires FeedOk(db, feed)
    requires forall i :: 0 <= i < |items| ==> RowOf(db, items[i])
    ensures FeedOk(db, ZAdd(feed, items))
  {
    if items != [] {
      var k := |items| - 1;
      forall i | 0 <= i < k ensures RowOf(db, items[..k][i]) {
        assert items[..k][i] == items[i];
      }
      AddOk(db, feed, items[..k]);
      assert RowOf(db, items[k]);
    }
  }

  lemma PublishedOk(db: T.DB, next: T.DB, feed: ZSet, v: T.Video)
    requires FeedOk(db, feed) && next.videos == db.videos + [v]
    ensures FeedOk(next, feed) && FeedOk(next, feed[v.id := v.at])
  {
  }

  lemma RowStays(db: T.DB, next: T.DB, v: T.Video, i: ZItem)
    requires RowOf(db, i) && next.videos == db.videos + [v]
    ensures RowOf(next, i)
  {
  }

  lemma BackfillDistinct(db: T.DB, now: int)
    requires T.Valid(db)
    ensures Distinct(Members(BackfillItems(db, now)))
  {
    var p := Published(now);
    WhereUnique(db.videos, p, T.VideoId);
    var rows, m := Where(db.videos, p), Members(BackfillItems(db, now));
    assert forall i :: 0 <= i < |rows| ==> m[i] == T.VideoId(rows[i]);
  }

  /** The rows a viewer may see at this second, up to his cutoff. */
  ghost predicate Eligible(v: T.Video, cutoff: int, now: int) { v.at < now && v.at <= cutoff }

  /**
   After the feed key was lost, one request shows the newest rows at or below its cutoff that are older
   than the current second: no row it leaves out is newer than one it shows, and it leaves out none while
   the page has room.
   */
  lemma ColdPage(db: T.DB, cutoff: int, now: int, ids: seq<id64>)
    requires T.Valid(db) && IsPage(ZAdd(map[], BackfillItems(db, now)), cutoff, ids)
    ensures forall id :: id in ids ==> T.FindVideo(db, id).Some? && Eligible(T.FindVideo(db, id).value, cutoff, now)
    ensures forall id, v :: id in ids && v in db.videos && Eligible(v, cutoff, now) && v.id !in ids ==>
              T.FindVideo(db, id).value.at >= v.at
    ensures |ids| <= FEED_PAGE_SIZE && Distinct(ids)
    ensures |ids| < FEED_PAGE_SIZE ==> forall v :: v in db.videos && Eligible(v, cutoff, now) ==> v.id in ids
  {
    var z := ZAdd(map[], BackfillItems(db, now));
    PageFacts(z, cutoff, ids);
    OrderedDistinct(UpTo(z, cutoff), ids);
    forall id | id in z
      ensures T.FindVideo(db, id).Some? && T.FindVideo(db, id).value.at == z[id] < now
    {
      ColdScore(db, now, id);
    }
    forall v | v in db.videos && v.at < now ensures v.id in z && z[v.id] == v.at {
      ColdMember(db, now, v);
    }
    forall id, v | id in ids && v in db.videos && Eligible(v, cutoff, now) && v.id !in ids
      ensures T.FindVideo(db, id).value.at >= v.at
    {
      assert Before(z, id, v.id);
    }
    if |ids| < FEED_PAGE_SIZE {
      ShortPage(z, cutoff, ids);
    }
  }

  lemma ColdScore(db: T.DB, now: int, id: id64)
    requires T.Valid(db) && id in ZAdd(map[], BackfillItems(db, now))
    ensures T.FindVideo(db, id).Some? && T.FindVideo(db, id).value.at == ZAdd(map[], BackfillItems(db, now))[id] < now
  {
    var items, p := BackfillItems(db, now), Published(now);
    BackfillDistinct(db, now);
    Loaded(items);
    assert id in Elems(Members(items));
    var i :| 0 <= i < |items| && Members(items)[i] == id;
    var v := Where(db.videos, p)[i];
    WhereIn(db.videos, p);
    assert v in Where(db.videos, p) && p(v);
    RowsFound(db, id);
  }

  lemma ColdMember(db: T.DB, now: int, v: T.Video)
    requires T.Valid(db) && v in db.videos && v.at < now
    ensures var z := ZAdd(map[], BackfillItems(db, now)); v.id in z && z[v.id] == v.at
  {
    var items, p := BackfillItems(db, now), Published(now);
    BackfillDistinct(db, now);
    Loaded(items);
    WhereIn(db.videos, p);
    assert p(v) && v in Where(db.videos, p);
    var i :| 0 <= i < |items| && Where(db.videos, p)[i] == v;
    assert items[i] == FeedItem(v);
  }

  // ---------- publishing, backfill and loss in any interleaving ----------

  /** pending holds what consumers and backfills have read from the table and may still add to the feed. */
  datatype State = State(db: T.DB, feed: ZSet, pending: set<ZItem>)

  datatype Action =
    | InsertRow(author: id64, now: int)
    | LoadRows(now: int)
    | AddItems(items: seq<ZItem>)
    | LoseFeed

  predicate Enabled(s: State, a: Action) {
    a.AddItems? ==> forall i :: 0 <= i < |a.items| ==> a.items[i] in s.pending
  }

  function Next(s: State, a: Action): State {
    match a
    case InsertRow(author, now) =>
      var r := T.InsertVideo(s.db, author, now);
      if r.None? then s else s.(db := r.value, pending := s.pending + {FeedItem(r.value.videos[|s.db.videos|])})
    case LoadRows(now) => s.(pending := s.pending + Elems(BackfillItems(s.db, now)))
    case AddItems(items) => s.(feed := ZAdd(s.feed, items))
    case LoseFeed => s.(feed := map[])
  }

  ghost predicate Inv(s: State) {
    && FeedOk(s.db, s.feed)
    && (forall i :: i in s.pending ==> RowOf(s.db, i))
    && (forall v :: v in s.db.videos ==> ZItem(v.at, v.id) in s.pending)
  }

  lemma NextInv(s: State, a: Action)
    requires Inv(s) && Enabled(s, a)
    ensures Inv(Next(s, a))
  {
    match a
    case InsertRow(author, now) =>
      var r := T.InsertVideo(s.db, author, now);
      if r.Some? {
        var v := r.value.videos[|s.db.videos|];
        PublishedOk(s.db, r.value, s.feed, v);
        forall i | i in Next(s, a).pending ensures RowOf(r.value, i) {
          if i in s.pending { RowStays(s.db, r.value, v, i); }
        }
      }
    case LoadRows(now) =>
      var rows, p := Where(s.db.videos, Published(now)), Published(now);
      WhereIn(s.db.videos, p);
      forall i | i in BackfillItems(s.db, now) ensures RowOf(s.db, i) {
        var k :| 0 <= k < |rows| && BackfillItems(s.db, now)[k] == i;
        assert rows[k] in rows && i == FeedItem(rows[k]);
      }
    case AddItems(items) => AddOk(s.db, s.feed, items);
    case LoseFeed =>
  }

  function Try(s: State, a: Action): Option<State> { if Enabled(s, a) then Some(Next(s, a)) else None }

  const START := State(T.DB([], [], []), map[], {})

  /** In every interleaving each feed member is a video row, scored by that row's created_at. */
  lemma FeedAlwaysOk(run: seq<Action>)
    requires Runs.IsRun(Try, START, run)
    ensures var t := Runs.Final(Try, START, run);
      forall m :: m in t.feed ==> exists v :: v in t.db.videos && v.id == m && v.at == t.feed[m]
  {
    var inv := (s: State) => Inv(s);
    forall s, a | inv(s) && Try(s, a).Some? ensures inv(Try(s, a).value) {
      NextInv(s, a);
    }
    Runs.RunKeeps(Try, inv, START, run);
    var t := Runs.Final(Try, START, run);
    assert Inv(t);
    forall m | m in t.feed ensures exists v :: v in t.db.videos && v.id == m && v.at == t.feed[m] {
      assert RowOf(t.db, ZItem(t.feed[m], m));
    }
  }

  /** The run adds m to the feed, and does not lose the feed after that. */
  ghost predicate Added(run: seq<Action>, m: id64) {
    exists j :: 0 <= j < |run| && AddsAt(run, j, m)
  }

  ghost predicate AddsAt(run: seq<Action>, j: int, m: id64)
    requires 0 <= j < |run|
  {
    run[j].AddItems? && m in Members(run[j].items) && LoseFeed !in run[j + 1..]
  }

  lemma {:induction false} ZAddMember(z: ZSet, items: seq<ZItem>, m: id64)
    ensures m in ZAdd(z, items) <==> m in z || m in Members(items)
  {
    if items != [] {
      var k := |items| - 1;
      ZAddMember(z, items[..k], m);
      assert Members(items) == Members(items[..k]) + [items[k].member];
    }
  }

  lemma AddedLater(run: seq<Action>, m: id64)
    requires run != []
    ensures Added(run, m) <==> Added(run[1..], m) || AddsAt(run, 0, m)
  {
    forall j | 1 <= j < |run| ensures AddsAt(run, j, m) == AddsAt(run[1..], j - 1, m) {
      assert run[1..][j..] == run[j + 1..];
    }
    if Added(run[1..], m) {
      var j :| 0 <= j < |run[1..]| && AddsAt(run[1..], j, m);
      assert AddsAt(run, j + 1, m);
    }
  }

  lemma {:induction false} FeedHolds(s: State, run: seq<Action>, m: id64)
    requires Runs.IsRun(Try, s, run)
    ensures m in Runs.Final(Try, s, run).feed <==> Added(run, m) || (m in s.feed && LoseFeed !in run)
    decreases |run|
  {
    if run != [] {
      var t := Next(s, run[0]);
      if run[0].AddItems? { ZAddMember(s.feed, run[0].items, m); }
      AddedLater(run, m);
      FeedHolds(t, run[1..], m);
      assert LoseFeed !in run <==> run[0] != LoseFeed && LoseFeed !in run[1..];
      hide Next, Added;
    }
  }

  /**
   In every interleaving the feed holds exactly what was added to it and not lost since; and every row of the
   table may be added at any moment.
   */
  lemma FeedComplete(run: seq<Action>)
    requires Runs.IsRun(Try, START, run)
    ensures var t := Runs.Final(Try, START, run);
      && (forall m :: m in t.feed <==> Added(run, m))
      && (forall v :: v in t.db.videos ==> Enabled(t, AddItems([ZItem(v.at, v.id)])))
  {
    var inv := (s: State) => Inv(s);
    forall s, a | inv(s) && Try(s, a).Some? ensures inv(Try(s, a).value) {
      NextInv(s, a);
    }
    Runs.RunKeeps(Try, inv, START, run);
    assert Inv(Runs.Final(Try, START, run));
    forall m ensures m in Runs.Final(Try, START, run).feed <==> Added(run, m) {
      FeedHolds(START, run, m);
    }
  }
}
