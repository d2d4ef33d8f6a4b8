/**
 A Redis sorted set and its ZREVRANGE: highest score first, equal scores by member string, highest
 first.  A favourites list that comes from the cache is ordered that way, and not by row id.
 */
module SortedSet {
  import opened Rows
  import opened Keys

  type ZSet = map<id64, int>

  datatype ZItem = ZItem(score: int, member: id64)

  function Member(i: ZItem): id64 { i.member }

  /** a comes after b in the byte order of strings. */
  predicate LexAfter(a: string, b: string) {
    if a == [] then false
    else if b == [] then true
    else if a[0] != b[0] then a[0] > b[0]
    else LexAfter(a[1..], b[1..])
  }

  lemma {:induction false} LexTotal(a: string, b: string)
    ensures a == b || LexAfter(a, b) || LexAfter(b, a)
    ensures !(LexAfter(a, b) && LexAfter(b, a)) && !LexAfter(a, a)
  {
    if a != [] {
      LexTotal(a[1..], a[1..]);
      if b != [] {
        LexTotal(a[1..], b[1..]);
        assert a == [a[0]] + a[1..] && b == [b[0]] + b[1..];
      }
    }
  }

  lemma {:induction false} LexTransitive(a: string, b: string, c: string)
    requires LexAfter(a, b) && LexAfter(b, c)
    ensures LexAfter(a, c)
  {
    if c != [] && a[0] == b[0] && b[0] == c[0] {
      LexTransitive(a[1..], b[1..], c[1..]);
    }
  }

  /** At i the strings differ first, and a is greater there or goes on where b ends. */
  predicate DiffersAt(a: string, b: string, i: int) {
    && 0 <= i < |a| && i <= |b| && a[..i] == b[..i]
    && (i == |b| || a[i] > b[i])
  }

  lemma {:induction false} LexMeaning(a: string, b: string)
    ensures LexAfter(a, b) <==> exists i :: DiffersAt(a, b, i)
  {
    if a != [] && b != [] && a[0] == b[0] {
      LexMeaning(a[1..], b[1..]);
      if LexAfter(a, b) {
        var i :| DiffersAt(a[1..], b[1..], i);
        assert a[..i + 1] == [a[0]] + a[1..][..i] && b[..i + 1] == [b[0]] + b[1..][..i];
        assert DiffersAt(a, b, i + 1);
      }
      if i :| DiffersAt(a, b, i) {
        assert i > 0 && a[1..][..i - 1] == a[..i][1..] && b[1..][..i - 1] == b[..i][1..];
        assert DiffersAt(a[1..], b[1..], i - 1);
      }
    } else if LexAfter(a, b) {
      assert DiffersAt(a, b, 0);
    } else {
      forall i | 0 < i <= |a| && i <= |b| ensures a[..i] != b[..i] {
        assert a[..i][0] == a[0] && b[..i][0] == b[0];
      }
    }
  }

  /** ZREVRANGE lists a before b. */
  predicate Before(z: ZSet, a: id64, b: id64)
    requires a in z && b in z
  {
    z[a] > z[b] || (z[a] == z[b] && LexAfter(Dec(a), Dec(b)))
  }

  lemma BeforeTotal(z: ZSet, a: id64, b: id64)
    requires a in z && b in z
    ensures a == b || Before(z, a, b) || Before(z, b, a)
    ensures !(Before(z, a, b) && Before(z, b, a)) && !Before(z, a, a)
  {
    PrintedId(a);
    PrintedId(b);
    LexTotal(Dec(a), Dec(b));
  }

  lemma BeforeTransitive(z: ZSet, a: id64, b: id64, c: id64)
    requires a in z && b in z && c in z && Before(z, a, b) && Before(z, b, c)
    ensures Before(z, a, c)
  {
    if z[a] == z[b] == z[c] {
      LexTransitive(Dec(a), Dec(b), Dec(c));
    }
  }

  ghost predicate Ordered(z: ZSet, s: seq<id64>) {
    && (forall x :: x in s ==> x in z)
    && (forall i, j :: 0 <= i < j < |s| ==> Before(z, s[i], s[j]))
  }

  /** The first n members of z in ZREVRANGE's order. */
  ghost predicate IsRevRange(z: ZSet, n: nat, s: seq<id64>) {
    && Ordered(z, s)
    && |s| == (if n < |z| then n else |z|)
    && (forall x, y :: x in s && y in z && y !in s ==> Before(z, x, y))
  }

  method First(z: ZSet, rest: set<id64>) returns (m: id64)
    requires rest != {} && forall x :: x in rest ==> x in z
    ensures m in rest && forall x :: x in rest && x != m ==> Before(z, m, x)
  {
    m :| m in rest;
    var todo := rest - {m};
    while todo != {}
      invariant todo <= rest && m in rest && m !in todo
      invariant forall x :: x in rest && x !in todo && x != m ==> Before(z, m, x)
      decreases |todo|
    {
      var x :| x in todo;
      todo := todo - {x};
      BeforeTotal(z, x, m);
      if Before(z, x, m) {
        forall y | y in rest && y !in todo && y != x && y != m ensures Before(z, x, y) {
          BeforeTransitive(z, x, m, y);
        }
        m := x;
      }
    }
  }

  method RevRange(z: ZSet, n: nat) returns (s: seq<id64>)
    ensures IsRevRange(z, n, s)
  {
    s := [];
    var rest := z.Keys;
    assert |z| == |z.Keys|;
    while |s| < n && rest != {}
      invariant rest == (set x | x in z && x !in s)
      invariant Ordered(z, s) && |s| + |rest| == |z| && |s| <= n
      invariant forall x, y :: x in s && y in rest ==> Before(z, x, y)
      decreases |rest|
    {
      var m := First(z, rest);
      s := s + [m];
      rest := rest - {m};
    }
  }

  lemma OrderedDistinct(z: ZSet, s: seq<id64>)
    requires Ordered(z, s)
    ensures Distinct(s)
  {
    forall i, j | 0 <= i < j < |s| ensures s[i] != s[j] {
      BeforeTotal(z, s[i], s[j]);
      BeforeTotal(z, s[i], s[i]);
    }
  }

  /** The order leaves no choice. */
  lemma {:induction false} OrderedUnique(z: ZSet, s: seq<id64>, t: seq<id64>)
    requires Ordered(z, s) && Ordered(z, t) && Elems(s) == Elems(t)
    ensures s == t
  {
    OrderedDistinct(z, s);
    OrderedDistinct(z, t);
    assert s != [] ==> s[0] in Elems(s);
    assert t != [] ==> t[0] in Elems(t);
    if s != [] && t != [] {
      assert s[0] in Elems(t) && t[0] in Elems(s);
      BeforeTotal(z, s[0], t[0]);
      assert s[0] == t[0];
      assert Elems(s[1..]) == Elems(s) - {s[0]};
      assert Elems(t[1..]) == Elems(t) - {t[0]};
      OrderedUnique(z, s[1..], t[1..]);
    }
  }

  // ---------- a cached list against the rows it was loaded from ----------

  /** ZADD overwrites the score of a member that is there already. */
  function ZAdd(z: ZSet, items: seq<ZItem>): (r: ZSet) {
    if items == [] then z
    else
      var k := |items| - 1;
      ZAdd(z, items[..k])[items[k].member := items[k].score]
  }

  function Members(items: seq<ZItem>): (r: seq<id64>)
    ensures |r| == |items| && forall i :: 0 <= i < |items| ==> r[i] == items[i].member
  {
    Select(items, Member)
  }

  lemma {:induction false} ZAddKeys(items: seq<ZItem>)
    ensures ZAdd(map[], items).Keys == Elems(Members(items))
  {
    if items != [] {
      var k := |items| - 1;
      ZAddKeys(items[..k]);
      assert Members(items) == Members(items[..k]) + [items[k].member];
      assert Elems(Members(items)) == Elems(Members(items[..k])) + {items[k].member};
    }
  }

  lemma {:induction false} ZAddScores(items: seq<ZItem>, i: nat)
    requires Distinct(Members(items)) && i < |items|
    ensures var z := ZAdd(map[], items); items[i].member in z && z[items[i].member] == items[i].score
  {
    var k := |items| - 1;
    if i < k {
      assert forall j :: 0 <= j < k ==> Members(items[..k])[j] == Members(items)[j];
      ZAddScores(items[..k], i);
      assert Members(items)[i] != Members(items)[k];
    }
  }

  lemma Loaded(items: seq<ZItem>)
    requires Distinct(Members(items))
    ensures var z := ZAdd(map[], items);
      && z.Keys == Elems(Members(items)) && |z| == |items|
      && forall i :: 0 <= i < |items| ==> items[i].member in z && z[items[i].member] == items[i].score
  {
    var z := ZAdd(map[], items);
    ZAddKeys(items);
    DistinctCard(Members(items));
    assert |z| == |z.Keys|;
    forall i | 0 <= i < |items| ensures items[i].member in z && z[items[i].member] == items[i].score {
      ZAddScores(items, i);
    }
  }

  /** The rows come in the order in which the sorted set lists them. */
  ghost predicate ScoreOrder(items: seq<ZItem>) {
    forall i, j :: 0 <= i < j < |items| ==>
      || items[i].score > items[j].score
      || (items[i].score == items[j].score && LexAfter(Dec(items[i].member), Dec(items[j].member)))
  }

  /**
   A hit returns a permutation of what the miss returned, and the identical list exactly when the loaded
   rows already stand in the sorted set's order.
   */
  lemma {:induction false} HitAgainstMiss(items: seq<ZItem>, n: nat, hit: seq<id64>)
    requires Distinct(Members(items)) && |items| <= n && IsRevRange(ZAdd(map[], items), n, hit)
    ensures Distinct(hit) && |hit| == |items| && Elems(hit) == Elems(Members(items))
    ensures hit == Members(items) <==> ScoreOrder(items)
  {
    var z, miss := ZAdd(map[], items), Members(items);
    Loaded(items);
    hide ZAdd;
    OrderedDistinct(z, hit);
    DistinctCard(hit);
    assert Elems(hit) <= z.Keys;
    Full(Elems(hit), z.Keys);
    InOrder(items, z);
    if Ordered(z, miss) {
      OrderedUnique(z, hit, miss);
    }
  }

  lemma InOrder(items: seq<ZItem>, z: ZSet)
    requires forall i :: 0 <= i < |items| ==> items[i].member in z && z[items[i].member] == items[i].score
    ensures Ordered(z, Members(items)) <==> ScoreOrder(items)
  {
  }

  lemma {:induction false} Full<T>(a: set<T>, b: set<T>)
    requires a <= b && |a| == |b|
    ensures a == b
  {
    if x :| x in b && x !in a {
      assert a <= b - {x};
      SubsetCard(a, b - {x});
    }
  }

  lemma {:induction false} SubsetCard<T>(a: set<T>, b: set<T>)
    requires a <= b
    ensures |a| <= |b|
  {
    if a != {} {
      var x :| x in a;
      SubsetCard(a - {x}, b - {x});
    }
  }

  /** With like times that strictly rise with the row id, newest rows first, the hit is the same list. */
  lemma {:induction false} RisingTimes(items: seq<ZItem>, n: nat, hit: seq<id64>)
    requires Distinct(Members(items)) && |items| <= n && IsRevRange(ZAdd(map[], items), n, hit)
    requires forall i, j :: 0 <= i < j < |items| ==> items[i].score > items[j].score
    ensures hit == Members(items)
  {
    HitAgainstMiss(items, n, hit);
  }

  lemma DigitsOf12()
    ensures Dec(12) == "12" && Dec(5) == "5" && LexAfter("5", "12")
  {
  }

  /** Two videos liked within one second come back in the other order once the list is cached. */
  lemma TiesReordered(at: int, hit: seq<id64>)
    requires IsRevRange(ZAdd(map[], [ZItem(at, 12), ZItem(at, 5)]), 30, hit)
    ensures hit == [5, 12]
  {
    var items := [ZItem(at, 12), ZItem(at, 5)];
    var z := ZAdd(map[], items);
    assert Members(items) == [12, 5];
    HitAgainstMiss(items, 30, hit);
    Loaded(items);
    assert items[0].member in z && items[1].member in z;
    assert Ordered(z, hit);
    hide ZAdd, IsRevRange, Ordered;
    Swapped(z, items, hit, at);
  }

  lemma Swapped(z: ZSet, items: seq<ZItem>, hit: seq<id64>, at: int)
    requires 12 in z && 5 in z && z[12] == z[5] == at && Members(items) == [12, 5]
    requires Ordered(z, hit) && Elems(hit) == Elems(Members(items))
    ensures hit == [5, 12]
  {
    DigitsOf12();
    assert Before(z, 5, 12);
    hide Before;
    assert Ordered(z, [5, 12]);
    assert Elems([5, 12]) == Elems(Members(items));
    OrderedUnique(z, hit, [5, 12]);
  }
}
