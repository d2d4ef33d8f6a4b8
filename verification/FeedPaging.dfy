/**
 Paging through a score-ordered index with an inclusive cursor: the next page starts at the score of the
 last item seen.  When such a walk visits everything, and when it gets stuck.
 */
module FeedPaging {
  import opened Keys
  import opened Rows
  import opened SortedSet

  const PAGE: nat := 30

  function UpTo(z: ZSet, max: int): ZSet { map m | m in z && z[m] <= max :: z[m] }

  /** One page: the first 30 at or below the cursor. */
  ghost predicate IsPage(z: ZSet, cursor: int, page: seq<id64>) {
    IsRevRange(UpTo(z, cursor), PAGE, page)
  }

  function NextCursor(z: ZSet, cursor: int, page: seq<id64>): int {
    if page != [] && page[|page| - 1] in z then z[page[|page| - 1]] else cursor
  }

  function Cursor(z: ZSet, start: int, pages: seq<seq<id64>>): int {
    if pages == [] then start
    else NextCursor(z, Cursor(z, start, pages[..|pages| - 1]), pages[|pages| - 1])
  }

  /** Each page starts at the cursor that the pages before it left. */
  ghost predicate IsWalk(z: ZSet, start: int, pages: seq<seq<id64>>) {
    forall k :: 0 <= k < |pages| ==> IsPage(z, Cursor(z, start, pages[..k]), pages[k])
  }

  ghost predicate Visited(pages: seq<seq<id64>>, m: id64) {
    exists k :: 0 <= k < |pages| && m in pages[k]
  }

  function At(z: ZSet, s: int): set<id64> { set m | m in z && z[m] == s }

  ghost predicate Oldest(z: ZSet, s: int) { forall m :: m in z ==> s <= z[m] }

  /** No second at or before the start fills a page, but the oldest may fill exactly one. */
  ghost predicate Pageable(z: ZSet, start: int) {
    forall m :: m in z && z[m] <= start ==>
      |At(z, z[m])| < PAGE || (|At(z, z[m])| == PAGE && Oldest(z, z[m]))
  }

  // ---------- one page ----------

  lemma PageFacts(z: ZSet, cursor: int, page: seq<id64>)
    requires IsPage(z, cursor, page)
    ensures forall x :: x in page ==> x in z && NextCursor(z, cursor, page) <= z[x] <= cursor
    ensures NextCursor(z, cursor, page) <= cursor
    ensures |page| <= PAGE && |Elems(page)| == |page|
    ensures forall x, y :: x in page && y in z && y !in page && z[y] <= cursor ==> Before(z, x, y)
  {
    var u := UpTo(z, cursor);
    OrderedDistinct(u, page);
    DistinctCard(page);
    forall x, y | x in page && y in z && y !in page && z[y] <= cursor ensures Before(z, x, y) {
      assert y in u && Before(u, x, y);
    }
    forall x | x in page ensures NextCursor(z, cursor, page) <= z[x] {
      var n := |page| - 1;
      var i :| 0 <= i < |page| && page[i] == x;
      assert page[n] in page;
      assert i == n || Before(u, page[i], page[n]);
    }
    if page != [] {
      assert page[|page| - 1] in page;
    }
  }

  /** A page that is not full shows everything up to the cursor. */
  lemma ShortPage(z: ZSet, cursor: int, page: seq<id64>)
    requires IsPage(z, cursor, page) && |page| < PAGE
    ensures forall y :: y in z && z[y] <= cursor ==> y in page
  {
    var u := UpTo(z, cursor);
    OrderedDistinct(u, page);
    DistinctCard(page);
    assert Elems(page) <= u.Keys && |u| == |u.Keys|;
    Full(Elems(page), u.Keys);
    forall y | y in z && z[y] <= cursor ensures y in page {
      assert y in u.Keys;
    }
  }

  /** Every item newer than the next cursor, up to the cursor, is on the page. */
  lemma PageCovers(z: ZSet, cursor: int, page: seq<id64>, m: id64)
    requires IsPage(z, cursor, page) && m in z && NextCursor(z, cursor, page) < z[m] <= cursor
    ensures m in page
  {
    PageFacts(z, cursor, page);
    if page == [] {
      ShortPage(z, cursor, page);
    } else {
      assert page[|page| - 1] in page;
    }
  }

  /** The cursor stands still only on a second that fills a page, or on the oldest. */
  lemma CursorFalls(z: ZSet, cursor: int, page: seq<id64>)
    requires IsPage(z, cursor, page) && Pageable(z, cursor)
    requires exists m :: m in z && z[m] < cursor
    ensures NextCursor(z, cursor, page) < cursor
  {
    PageFacts(z, cursor, page);
    if |page| < PAGE {
      ShortPage(z, cursor, page);
    } else if NextCursor(z, cursor, page) == cursor {
      assert page[0] in page;
      assert Elems(page) <= At(z, cursor);
      SubsetCard(Elems(page), At(z, cursor));
    }
  }

  // ---------- a pageable feed is visited completely ----------

  lemma CursorSnoc(z: ZSet, start: int, pages: seq<seq<id64>>, k: nat)
    requires k < |pages|
    ensures Cursor(z, start, pages[..k + 1]) == NextCursor(z, Cursor(z, start, pages[..k]), pages[k])
  {
    assert pages[..k + 1][..k] == pages[..k];
  }

  lemma {:induction false} NewerVisited(z: ZSet, start: int, pages: seq<seq<id64>>, k: nat, m: id64)
    requires IsWalk(z, start, pages) && k <= |pages|
    requires m in z && Cursor(z, start, pages[..k]) < z[m] <= start
    ensures Visited(pages, m)
  {
    if k > 0 {
      CursorSnoc(z, start, pages, k - 1);
      var c := Cursor(z, start, pages[..k - 1]);
      if c < z[m] {
        NewerVisited(z, start, pages, k - 1, m);
      } else {
        PageCovers(z, c, pages[k - 1], m);
      }
    }
  }

  function Below(z: ZSet, c: int): set<id64> { set m | m in z && z[m] < c }

  lemma PageFinds(z: ZSet, cursor: int, page: seq<id64>)
    requires IsPage(z, cursor, page) && exists m :: m in z && z[m] <= cursor
    ensures page != [] && page[|page| - 1] in z && z[page[|page| - 1]] == NextCursor(z, cursor, page)
  {
    if page == [] {
      ShortPage(z, cursor, page);
    } else {
      PageFacts(z, cursor, page);
      assert page[|page| - 1] in page;
    }
  }

  /** From the second page on the cursor is the second of some item. */
  lemma {:induction false} CursorIsScore(z: ZSet, start: int, pages: seq<seq<id64>>, k: nat)
    requires IsWalk(z, start, pages) && 0 < k <= |pages| && exists m :: m in z && z[m] <= start
    ensures var c := Cursor(z, start, pages[..k]); c <= start && exists m :: m in z && z[m] == c
  {
    var before := Cursor(z, start, pages[..k - 1]);
    if k == 1 {
      assert pages[..0] == [];
    } else {
      CursorIsScore(z, start, pages, k - 1);
    }
    CursorSnoc(z, start, pages, k - 1);
    PageFinds(z, before, pages[k - 1]);
    PageFacts(z, before, pages[k - 1]);
  }

  ghost predicate Older(z: ZSet, c: int) { exists m :: m in z && z[m] < c }

  /** ... and it falls strictly with every page, until it reaches the oldest second. */
  lemma StrictFall(z: ZSet, start: int, pages: seq<seq<id64>>, k: nat)
    requires IsWalk(z, start, pages) && Pageable(z, start) && 0 < k < |pages|
    requires Older(z, Cursor(z, start, pages[..k]))
    requires exists m :: m in z && z[m] <= start
    ensures Cursor(z, start, pages[..k + 1]) < Cursor(z, start, pages[..k])
  {
    CursorIsScore(z, start, pages, k);
    CursorSnoc(z, start, pages, k);
    CursorFalls(z, Cursor(z, start, pages[..k]), pages[k]);
  }

  lemma BelowShrinks(z: ZSet, c: int, d: int)
    requires d < c && exists m :: m in z && z[m] == d
    ensures |Below(z, d)| < |Below(z, c)|
  {
    var m :| m in z && z[m] == d;
    assert m in Below(z, c) && m !in Below(z, d);
    assert Below(z, d) <= Below(z, c) - {m};
    SubsetCard(Below(z, d), Below(z, c) - {m});
  }

  lemma {:induction false} CursorProgress(z: ZSet, start: int, pages: seq<seq<id64>>, k: nat)
    requires IsWalk(z, start, pages) && Pageable(z, start) && 0 < k <= |pages|
    requires exists m :: m in z && z[m] <= start
    ensures var c := Cursor(z, start, pages[..k]); Older(z, c) ==> |Below(z, c)| + k <= |z|
  {
    var c := Cursor(z, start, pages[..k]);
    CursorIsScore(z, start, pages, k);
    if k == 1 {
      var m :| m in z && z[m] == c;
      assert Below(z, c) <= z.Keys - {m} && |z| == |z.Keys|;
      SubsetCard(Below(z, c), z.Keys - {m});
    } else if Older(z, c) {
      var before := Cursor(z, start, pages[..k - 1]);
      CursorSnoc(z, start, pages, k - 1);
      PageFacts(z, before, pages[k - 1]);
      CursorProgress(z, start, pages, k - 1);
      StrictFall(z, start, pages, k - 1);
      BelowShrinks(z, before, c);
    }
  }

  /** One page per item, and one more, is enough to see everything. */
  lemma PageableVisited(z: ZSet, start: int, pages: seq<seq<id64>>, m: id64)
    requires IsWalk(z, start, pages) && Pageable(z, start) && |pages| > |z|
    requires m in z && z[m] <= start
    ensures Visited(pages, m)
  {
    var k := |z|;
    assert |z| == |z.Keys| && m in z.Keys;
    var c := Cursor(z, start, pages[..k]);
    assert forall y :: y in z && z[y] < c ==> y in Below(z, c);
    CursorProgress(z, start, pages, k);
    if z[m] > c {
      NewerVisited(z, start, pages, k, m);
    } else {
      OldestPage(z, start, pages, k, c, m);
    }
  }

  lemma OldestPage(z: ZSet, start: int, pages: seq<seq<id64>>, k: nat, c: int, m: id64)
    requires IsWalk(z, start, pages) && Pageable(z, start) && k < |pages| && c == Cursor(z, start, pages[..k])
    requires m in z && z[m] == c <= start && !Older(z, c)
    ensures m in pages[k]
  {
    var page := pages[k];
    PageFacts(z, c, page);
    if |page| < PAGE {
      ShortPage(z, c, page);
    } else {
      assert Elems(page) <= At(z, c);
      SubsetCard(Elems(page), At(z, c));
      Full(Elems(page), At(z, c));
      assert m in At(z, c);
    }
  }

  // ---------- a feed that is not pageable is not ----------

  /** A second that fills a page is never passed. */
  lemma {:induction false} Stuck(z: ZSet, start: int, pages: seq<seq<id64>>, s: int, k: nat)
    requires IsWalk(z, start, pages) && k <= |pages| && s <= start && |At(z, s)| >= PAGE
    ensures Cursor(z, start, pages[..k]) >= s
  {
    if k > 0 {
      Stuck(z, start, pages, s, k - 1);
      CursorSnoc(z, start, pages, k - 1);
      PageAbove(z, Cursor(z, start, pages[..k - 1]), pages[k - 1], s);
    } else {
      assert pages[..0] == [];
    }
  }

  lemma PageAbove(z: ZSet, cursor: int, page: seq<id64>, s: int)
    requires IsPage(z, cursor, page) && s <= cursor && |At(z, s)| >= PAGE
    ensures NextCursor(z, cursor, page) >= s
  {
    PageFacts(z, cursor, page);
    if page != [] && NextCursor(z, cursor, page) < s {
      var last := page[|page| - 1];
      assert last in page && z[last] < s;
      assert forall y :: y in At(z, s) && y !in page ==> Before(z, last, y);
      assert At(z, s) <= Elems(page) - {last};
      SubsetCard(At(z, s), Elems(page) - {last});
    }
  }

  /** Whoever comes last in the order of the set appears only on a page that shows everything. */
  lemma LastOnPage(z: ZSet, cursor: int, page: seq<id64>, w: id64)
    requires IsPage(z, cursor, page) && w in page
    requires forall y :: y in z && y != w ==> Before(z, y, w)
    ensures forall y :: y in z && z[y] <= cursor ==> y in page
  {
    PageFacts(z, cursor, page);
    forall y | y in z && z[y] <= cursor ensures y in page {
      BeforeTotal(z, w, y);
    }
  }

  lemma {:induction false} LastItem(z: ZSet, some: set<id64>) returns (w: id64)
    requires some != {} && forall x :: x in some ==> x in z
    ensures w in some && forall y :: y in some && y != w ==> Before(z, y, w)
  {
    w :| w in some;
    if some != {w} {
      var v := LastItem(z, some - {w});
      BeforeTotal(z, v, w);
      if Before(z, w, v) {
        w := v;
      } else {
        forall y | y in some && y != w ensures Before(z, y, w) {
          if y != v { BeforeTransitive(z, y, v, w); }
        }
      }
    }
  }

  /** The last item of the order is missed when some second at or before the start is too full. */
  lemma LastMissed(z: ZSet, start: int, pages: seq<seq<id64>>, s: int, w: id64)
    requires IsWalk(z, start, pages) && s <= start && w in z
    requires |At(z, s)| > PAGE || (|At(z, s)| == PAGE && z[w] < s)
    requires forall y :: y in z && y != w ==> Before(z, y, w)
    ensures !Visited(pages, w)
  {
    if k :| 0 <= k < |pages| && w in pages[k] {
      var c := Cursor(z, start, pages[..k]);
      Stuck(z, start, pages, s, k);
      PageFacts(z, c, pages[k]);
      LastOnPage(z, c, pages[k], w);
      var shown := if z[w] < s then At(z, s) + {w} else At(z, s);
      assert shown <= Elems(pages[k]);
      SubsetCard(shown, Elems(pages[k]));
    }
  }

  /**
   Following next_time from any start visits every item at or before it exactly when every second but the
   oldest holds fewer than 30 items and the oldest at most 30: for every walk that is long enough.
   */
  lemma WalkVisitsAll(z: ZSet, start: int, pages: seq<seq<id64>>)
    requires IsWalk(z, start, pages) && |pages| > |z|
    ensures (forall m :: m in z && z[m] <= start ==> Visited(pages, m)) <==> Pageable(z, start)
  {
    if Pageable(z, start) {
      forall m | m in z && z[m] <= start ensures Visited(pages, m) {
        PageableVisited(z, start, pages, m);
      }
    } else {
      var m :| m in z && z[m] <= start && !(|At(z, z[m])| < PAGE || (|At(z, z[m])| == PAGE && Oldest(z, z[m])));
      var w := LastItem(z, z.Keys);
      assert m == w || Before(z, m, w);
      if |At(z, z[m])| == PAGE {
        var o :| o in z && z[o] < z[m];
        assert o == w || Before(z, o, w);
      }
      LastMissed(z, start, pages, z[m], w);
    }
  }
}
