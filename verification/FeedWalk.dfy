/** A client that follows next_time through the feed, page by page, while the services go on serving. */
module FeedWalk {
  import opened Wrappers
  import opened Keys
  import opened SortedSet
  import opened FeedPaging
  import opened Feed
  import T = Tables
  import opened Requests
  import ServiceRuns

  ghost function PageIds(pages: seq<seq<Item>>): (r: seq<seq<id64>>)
    ensures |r| == |pages| && forall k :: 0 <= k < |pages| ==> r[k] == ItemIds(pages[k])
  {
    seq(|pages|, k requires 0 <= k < |pages| => ItemIds(pages[k]))
  }

  /** created_at is positive and fits the 64 bits in which it travels. */
  ghost predicate PositiveTimes(z: ZSet) {
    forall m :: m in z ==> 0 < z[m] < 0x8000_0000_0000_0000
  }

  ghost predicate Reaches(z: ZSet, cursor: int) { exists m :: m in z && z[m] <= cursor }

  /** One more page leaves the cursor where next_time says. */
  lemma NextPage(db: T.DB, z: ZSet, start: int, pages: seq<seq<Item>>, actor: id64, list: seq<Item>)
    requires PositiveTimes(z) && IsWalk(z, start, PageIds(pages))
    requires Reaches(z, Cursor(z, start, PageIds(pages)))
    requires IsPage(z, Cursor(z, start, PageIds(pages)), ItemIds(list))
    requires ShowsRows(db, z, actor, list)
    ensures IsWalk(z, start, PageIds(pages + [list])) && list != []
    ensures var c := list[|list| - 1].video.at;
      c == Cursor(z, start, PageIds(pages + [list])) && 0 < c < 0x8000_0000_0000_0000 && Reaches(z, c)
  {
    var old_, new_ := PageIds(pages), PageIds(pages + [list]);
    assert new_ == old_ + [ItemIds(list)] && new_[..|old_|] == old_;
    forall k | 0 <= k < |new_| ensures IsPage(z, Cursor(z, start, new_[..k]), new_[k]) {
      if k < |old_| {
        assert new_[..k] == old_[..k];
      }
    }
    PageFinds(z, Cursor(z, start, old_), ItemIds(list));
    var last := list[|list| - 1].video;
    assert IsRow(db, z, last) && last.id in z;
  }

  // ---------- what is served between two pages ----------

  /** The requests that the walk leaves time for. */
  predicate Serves(op: Op) { op.RelationOp? || op.FavoriteOp? || op.PublishOp? }

  predicate AllServe(ops: seq<Op>) { forall op :: op in ops ==> Serves(op) }

  /** What they add to the feed comes after the cursor. */
  predicate AllLater(ops: seq<Op>, cursor: int) {
    forall op :: op in ops && op.PublishOp? && op.feedUp ==> op.now > cursor
  }

  /** Two feeds that a cursor cannot tell apart. */
  ghost predicate Alike(x: ZSet, y: ZSet, cursor: int) { UpTo(x, cursor) == UpTo(y, cursor) }

  lemma AlikeBelow(x: ZSet, y: ZSet, cursor: int, lower: int)
    requires Alike(x, y, cursor) && lower <= cursor
    ensures Alike(x, y, lower)
    ensures Reaches(x, lower) <==> Reaches(y, lower)
  {
    forall m
      ensures m in x && x[m] <= lower <==> m in y && y[m] <= lower
      ensures m in x && x[m] <= lower ==> x[m] == y[m]
    {
      assert m in UpTo(x, cursor) <==> m in UpTo(y, cursor);
      assert m in UpTo(x, cursor) ==> UpTo(x, cursor)[m] == UpTo(y, cursor)[m];
    }
  }

  lemma PostedLater(db: T.DB, feed: ZSet, op: Op, cursor: int)
    requires T.Valid(db) && FeedOk(db, feed) && Serves(op) && AllLater([op], cursor)
    ensures Alike(FeedAfter(db, feed, op), feed, cursor)
  {
    if op.PublishOp? {
      assert op in [op];
      forall m | m in feed ensures m <= |db.videos| {
        assert RowOf(db, ZItem(feed[m], m));
      }
    }
  }

  method ServeBetween(s: FeedService, ops: seq<Op>, ghost cursor: int)
    requires s.Ok() && AllServe(ops)
    modifies s, s.app, s.app.redis
    ensures s.Ok() && (AllLater(ops, cursor) ==> Alike(s.feed, old(s.feed), cursor))
    ensures s.app.db == RunTables(old(s.app.db), ops) && s.feed == RunFeed(old(s.app.db), old(s.feed), ops)
    ensures ops == [] ==> s.feed == old(s.feed)
  {
    ghost var db, feed := s.app.db, s.feed;
    for i := 0 to |ops|
      invariant s.Ok() && s.app.db == RunTables(db, ops[..i]) && s.feed == RunFeed(db, feed, ops[..i])
      invariant AllLater(ops, cursor) ==> Alike(s.feed, feed, cursor)
    {
      assert ops[..i + 1][..i] == ops[..i] && ops[i] in ops;
      if AllLater(ops, cursor) {
        assert AllLater([ops[i]], cursor);
        PostedLater(s.app.db, s.feed, ops[i], cursor);
      }
      var _ := ServiceRuns.ServeWrite(s, ops[i]);
    }
    assert ops[..|ops|] == ops;
  }

  // ---------- the walk ----------

  lemma FoundAtCursor(db: T.DB, feed: ZSet, z: ZSet, cursor: int, shown: ZSet, actor: id64, list: seq<Item>)
    requires Alike(feed, z, cursor) && Reaches(z, cursor)
    requires shown == feed || UpTo(feed, cursor) == map[]
    requires IsPage(shown, cursor, ItemIds(list)) && ShowsRows(db, shown, actor, list)
    ensures shown == feed && IsPage(z, cursor, ItemIds(list)) && ShowsRows(db, z, actor, list)
  {
    var m :| m in z && z[m] <= cursor;
    assert m in UpTo(z, cursor);
    PageFacts(feed, cursor, ItemIds(list));
    forall i | 0 <= i < |list| ensures IsRow(db, z, list[i].video) {
      var v := list[i].video;
      assert IsRow(db, feed, v) && ItemIds(list)[i] == v.id;
      assert v.id in UpTo(feed, cursor);
      assert UpTo(z, cursor)[v.id] == v.at;
    }
  }

  /** One more page: the walk goes on at the cursor that next_time names. */
  lemma Onward(db: T.DB, feed: ZSet, z: ZSet, start: int, pages: seq<seq<Item>>, actor: id64, now: int, list: seq<Item>)
    requires PositiveTimes(z) && IsWalk(z, start, PageIds(pages))
    requires var c := Cursor(z, start, PageIds(pages));
      Reaches(z, c) && Alike(feed, z, c) && IsPage(z, c, ItemIds(list)) && ShowsRows(db, z, actor, list)
    ensures IsWalk(z, start, PageIds(pages + [list]))
    ensures var c := Cursor(z, start, PageIds(pages + [list]));
      && Reaches(z, c) && Alike(feed, z, c)
      && forall later :: Cutoff(ParseLatest(Some(PartText(Signed(NextTime(list, now))))), later) == c
  {
    var c := Cursor(z, start, PageIds(pages));
    NextPage(db, z, start, pages, actor, list);
    PrintedLatest(list[|list| - 1].video.at);
    PageFacts(z, c, ItemIds(list));
    assert PageIds(pages + [list])[..|pages|] == PageIds(pages);
    AlikeBelow(feed, z, c, Cursor(z, start, PageIds(pages + [list])));
  }

  /** Whatever is served after the k-th page comes after the cursor that this page left. */
  ghost predicate Undisturbed(z: ZSet, start: int, pages: seq<seq<id64>>, between: seq<seq<Op>>)
    requires |pages| <= |between|
  {
    forall k :: 0 <= k < |pages| ==> AllLater(between[k], Cursor(z, start, pages[..k + 1]))
  }

  lemma UndisturbedSoFar(z: ZSet, start: int, pages: seq<seq<id64>>, more: seq<id64>, between: seq<seq<Op>>)
    requires |pages| < |between| && Undisturbed(z, start, pages + [more], between)
    ensures Undisturbed(z, start, pages, between)
    ensures AllLater(between[|pages|], Cursor(z, start, pages + [more]))
  {
    var k := |pages|;
    assert (pages + [more])[..k + 1] == pages + [more];
    forall i | 0 <= i < k ensures AllLater(between[i], Cursor(z, start, pages[..i + 1])) {
      assert (pages + [more])[..i + 1] == pages[..i + 1];
    }
  }

  /** Nothing else is served during the walk. */
  ghost predicate Quiet(between: seq<seq<Op>>) { forall k :: 0 <= k < |between| ==> between[k] == [] }

  /** After these pages the next request, with this latest_time, finds z at the walk's cursor. */
  ghost predicate Underway(feed: ZSet, z: ZSet, start: int, pages: seq<seq<id64>>, text: Option<string>,
                           between: seq<seq<Op>>)
  {
    var c := Cursor(z, start, pages);
    && IsWalk(z, start, pages) && Alike(feed, z, c) && Reaches(z, c) && (Quiet(between) ==> feed == z)
    && forall later :: Cutoff(ParseLatest(text), later) == c
  }

  /** The next request of the walk: the first one finds z at the start, and any other at the cursor. */
  ghost predicate Finds(db: T.DB, feed: ZSet, z: ZSet, start: int, pages: seq<seq<Item>>, text: Option<string>,
                        now: int, between: seq<seq<Op>>)
  {
    if pages == [] then Shown(db, feed, ParseLatest(text), now) == z && Cutoff(ParseLatest(text), now) == start
    else Underway(feed, z, start, PageIds(pages), text, between)
  }

  /** One turn of the walk: a page, and then what is served before the next. */
  lemma Turn(db: T.DB, was: ZSet, shown: ZSet, feed: ZSet, z: ZSet, start: int, pages: seq<seq<Item>>,
             text: Option<string>, actor: id64, now: int, list: seq<Item>, between: seq<seq<Op>>)
    requires PositiveTimes(z) && Reaches(z, start) && |pages| < |between|
    requires Undisturbed(z, start, PageIds(pages), between) ==>
      Finds(db, was, z, start, pages, text, now, between)
    requires shown == Shown(db, was, ParseLatest(text), now)
    requires IsPage(shown, Cutoff(ParseLatest(text), now), ItemIds(list)) && ShowsRows(db, shown, actor, list)
    requires var c := Cursor(z, start, PageIds(pages + [list])); AllLater(between[|pages|], c) ==> Alike(feed, shown, c)
    requires between[|pages|] == [] ==> feed == shown
    requires Undisturbed(z, start, PageIds(pages + [list]), between)
    ensures Underway(feed, z, start, PageIds(pages + [list]), Some(PartText(Signed(NextTime(list, now)))), between)
  {
    var ids := PageIds(pages);
    var c := Cursor(z, start, ids);
    assert PageIds(pages + [list]) == ids + [ItemIds(list)] && |ids| == |pages|;
    UndisturbedSoFar(z, start, ids, ItemIds(list), between);
    assert Cutoff(ParseLatest(text), now) == c && (pages == [] ==> IsWalk(z, start, ids));
    assert shown == was || UpTo(was, c) == map[];
    assert Quiet(between) ==> between[|pages|] == [];
    hide PageIds, ParseLatest, ShowsRows, IsPage, Undisturbed, PositiveTimes, AllLater, Reaches, Shown, Cutoff, IsWalk,
      Cursor, NextTime, Quiet;
    if pages != [] {
      FoundAtCursor(db, was, z, c, shown, actor, list);
    }
    assert Alike(shown, z, c) && (Quiet(between) ==> feed == z);
    forall cursor | Alike(feed, shown, cursor) && Alike(shown, z, cursor) ensures Alike(feed, z, cursor) {
    }
    hide Alike, UpTo;
    Onward(db, shown, z, start, pages, actor, now, list);
  }

  /** One request of the walk, and what is served before the next. */
  method ServePage(s: FeedService, ghost z: ZSet, ghost start: int, ghost pages: seq<seq<Item>>, text: Option<string>,
                   actor: id64, now: int, between: seq<seq<Op>>, k: nat) returns (list: seq<Item>, next: int)
    requires s.Ok() && PositiveTimes(z) && k == |pages| < |between| && AllServe(between[k])
    requires Reaches(z, start) && Undisturbed(z, start, PageIds(pages), between) ==>
      Finds(s.app.db, s.feed, z, start, pages, text, now, between)
    modifies s, s.app, s.app.redis
    ensures s.Ok()
    ensures Reaches(z, start) && Undisturbed(z, start, PageIds(pages + [list]), between) ==>
      Underway(s.feed, z, start, PageIds(pages + [list]), Some(PartText(Signed(next))), between)
  {
    hide T.Valid, FeedOk, ParseLatest, IsPage, ShowsRows, Reaches, PositiveTimes, Underway, Undisturbed, Cursor,
      AllLater, Alike, PageIds, RunFeed, RunTables, Finds;
    ghost var was := s.feed;
    list, next := s.VideoFeed(text, actor, now);
    ghost var db, shown := s.app.db, s.feed;
    ServeBetween(s, between[k], Cursor(z, start, PageIds(pages + [list])));
    if Reaches(z, start) && Undisturbed(z, start, PageIds(pages + [list]), between) {
      Turn(db, was, shown, s.feed, z, start, pages, text, actor, now, list, between);
    }
  }

  /**
   From any latest_time, with other requests served between the pages, the walk sees every video at or before
   it exactly when no second but the oldest fills a page and the oldest fills at most one, provided that what
   is published meanwhile comes after the walk's cursor.  The videos are those of the feed as the first
   request shows it, which backfills a feed that has nothing to show.
   */
  method Walk(s: FeedService, latestTime: Option<string>, actor: id64, nows: seq<int>, between: seq<seq<Op>>)
    returns (pages: seq<seq<Item>>)
    requires s.Ok() && |nows| > 0 && |between| == |nows| && forall k :: 0 <= k < |nows| ==> AllServe(between[k])
    requires var z := Shown(s.app.db, s.feed, ParseLatest(latestTime), nows[0]); PositiveTimes(z) && |nows| > |z|
    modifies s, s.app, s.app.redis
    ensures s.Ok() && |pages| == |nows|
    ensures var z, start := Shown(old(s.app.db), old(s.feed), ParseLatest(latestTime), nows[0]),
                            Cutoff(ParseLatest(latestTime), nows[0]);
      Undisturbed(z, start, PageIds(pages), between) ==>
        && (Reaches(z, start) ==> IsWalk(z, start, PageIds(pages)))
        && ((forall m :: m in z && z[m] <= start ==> Visited(PageIds(pages), m)) <==> Pageable(z, start))
        && (Reaches(z, start) && Quiet(between) ==> s.feed == z)
  {
    ghost var z := Shown(s.app.db, s.feed, ParseLatest(latestTime), nows[0]);
    ghost var start := Cutoff(ParseLatest(latestTime), nows[0]);
    var text := latestTime;
    pages := [];
    hide T.Valid, FeedOk, Shown, ParseLatest, Reaches, PositiveTimes, Underway, Undisturbed, Cursor, Cutoff, PageIds;
    for k := 0 to |nows|
      invariant s.Ok() && |pages| == k
      invariant k < |nows| && Reaches(z, start) && Undisturbed(z, start, PageIds(pages), between) ==>
        Finds(s.app.db, s.feed, z, start, pages, text, nows[k], between)
      invariant k == |nows| && Reaches(z, start) && Undisturbed(z, start, PageIds(pages), between) ==>
        Underway(s.feed, z, start, PageIds(pages), text, between)
    {
      var list, next := ServePage(s, z, start, pages, text, actor, nows[k], between, k);
      pages, text := pages + [list], Some(PartText(Signed(next)));
    }
    if Undisturbed(z, start, PageIds(pages), between) {
      WalkEnds(s.feed, z, start, PageIds(pages), text, between);
    }
  }

  lemma WalkEnds(feed: ZSet, z: ZSet, start: int, pages: seq<seq<id64>>, text: Option<string>, between: seq<seq<Op>>)
    requires |pages| > |z| && |pages| <= |between| && Undisturbed(z, start, pages, between)
    requires Reaches(z, start) ==> Underway(feed, z, start, pages, text, between)
    ensures Reaches(z, start) ==> IsWalk(z, start, pages) && (Quiet(between) ==> feed == z)
    ensures (forall m :: m in z && z[m] <= start ==> Visited(pages, m)) <==> Pageable(z, start)
  {
    if Reaches(z, start) {
      WalkVisitsAll(z, start, pages);
    }
  }
}
