/** Tables as rows in id order, and what SELECT, WHERE, COUNT and DELETE make of them. */
module Rows {

  function Where<T>(rows: seq<T>, p: T -> bool): (r: seq<T>)
    ensures |r| <= |rows|
  {
    if rows == [] then []
    else
      var k := |rows| - 1;
      Where(rows[..k], p) + (if p(rows[k]) then [rows[k]] else [])
  }

  function Select<A, B>(rows: seq<A>, f: A -> B): (r: seq<B>)
    ensures |r| == |rows| && forall i :: 0 <= i < |rows| ==> r[i] == f(rows[i])
  {
    seq(|rows|, i requires 0 <= i < |rows| => f(rows[i]))
  }

  function Elems<T(==)>(s: seq<T>): set<T> { set x | x in s }

  ghost predicate Distinct<T(!new)>(s: seq<T>) {
    forall i, j :: 0 <= i < j < |s| ==> s[i] != s[j]
  }

  /** The rows of each key are counted once: what a unique index over f promises. */
  ghost predicate UniqueBy<T(!new), K(!new)>(rows: seq<T>, f: T -> K) {
    forall i, j :: 0 <= i < j < |rows| ==> f(rows[i]) != f(rows[j])
  }

  lemma {:induction false} WhereIn<T(!new)>(rows: seq<T>, p: T -> bool)
    ensures forall x :: x in Where(rows, p) <==> x in rows && p(x)
  {
    if rows != [] {
      var k := |rows| - 1;
      WhereIn(rows[..k], p);
      assert rows == rows[..k] + [rows[k]];
    }
  }

  /** Where the rows of WHERE stand in the table. */
  function Positions<T>(rows: seq<T>, p: T -> bool): seq<nat> {
    if rows == [] then []
    else
      var k := |rows| - 1;
      Positions(rows[..k], p) + (if p(rows[k]) then [k] else [])
  }

  /** WHERE lists the rows that match, all of them, in the order in which they stand. */
  lemma {:induction false} WherePositions<T>(rows: seq<T>, p: T -> bool)
    ensures var ps, w := Positions(rows, p), Where(rows, p);
      && |ps| == |w|
      && (forall i :: 0 <= i < |ps| ==> ps[i] < |rows| && p(rows[ps[i]]) && w[i] == rows[ps[i]])
      && (forall i, j :: 0 <= i < j < |ps| ==> ps[i] < ps[j])
      && (forall k :: 0 <= k < |rows| && p(rows[k]) ==> k in ps)
  {
    if rows != [] {
      var k := |rows| - 1;
      WherePositions(rows[..k], p);
      var ps := Positions(rows[..k], p);
      assert forall i :: 0 <= i < |ps| ==> rows[..k][ps[i]] == rows[ps[i]];
      assert forall j :: 0 <= j < k ==> rows[..k][j] == rows[j];
    }
  }

  /** A selected column holds exactly the values of the rows that match. */
  lemma SelectIn<T(!new), B(!new)>(rows: seq<T>, p: T -> bool, g: T -> B)
    ensures forall r :: r in rows && p(r) ==> g(r) in Select(Where(rows, p), g)
    ensures forall x :: x in Select(Where(rows, p), g) ==> exists r :: r in rows && p(r) && g(r) == x
  {
    WhereIn(rows, p);
    var w := Where(rows, p);
    forall r | r in rows && p(r) ensures g(r) in Select(w, g) {
      assert r in w;
      var i :| 0 <= i < |w| && w[i] == r;
      assert Select(w, g)[i] == g(r);
    }
    forall x | x in Select(w, g) ensures exists r :: r in rows && p(r) && g(r) == x {
      var i :| 0 <= i < |w| && Select(w, g)[i] == x;
      assert w[i] in w;
    }
  }

  lemma WhereSnoc<T>(rows: seq<T>, x: T, p: T -> bool)
    ensures Where(rows + [x], p) == Where(rows, p) + (if p(x) then [x] else [])
  {
  }

  /** WHERE keeps the order, so it keeps keys unique. */
  lemma {:induction false} WhereUnique<T(!new), K(!new)>(rows: seq<T>, p: T -> bool, f: T -> K)
    requires UniqueBy(rows, f)
    ensures UniqueBy(Where(rows, p), f)
  {
    if rows != [] {
      var k := |rows| - 1;
      WhereUnique(rows[..k], p, f);
      WhereIn(rows[..k], p);
      var w := Where(rows[..k], p);
      forall i | 0 <= i < |w| ensures f(w[i]) != f(rows[k]) {
        assert w[i] in rows[..k];
      }
    }
  }

  /** A row that fails q plays no part in WHERE p AND q, so deleting others changes nothing there. */
  lemma {:induction false} WhereWhere<T(!new)>(rows: seq<T>, keep: T -> bool, p: T -> bool)
    requires forall x :: x in rows && p(x) ==> keep(x)
    ensures Where(Where(rows, keep), p) == Where(rows, p)
  {
    if rows != [] {
      var k := |rows| - 1;
      WhereWhere(rows[..k], keep, p);
      assert rows[k] in rows;
      assert Where(rows[..k], keep) + [] == Where(rows[..k], keep);
      if keep(rows[k]) {
        WhereSnoc(Where(rows[..k], keep), rows[k], p);
      }
    }
  }

  /** The number of distinct elements of a list without repeats is its length. */
  lemma {:induction false} DistinctCard<T(!new)>(s: seq<T>)
    requires Distinct(s)
    ensures |Elems(s)| == |s|
  {
    if s != [] {
      var k := |s| - 1;
      DistinctCard(s[..k]);
      assert Elems(s) == Elems(s[..k]) + {s[k]};
      assert s[k] !in Elems(s[..k]);
    }
  }

  lemma DistinctWhere<T(!new)>(rows: seq<T>, p: T -> bool)
    requires Distinct(rows)
    ensures Distinct(Where(rows, p))
  {
    WhereUnique(rows, p, (x: T) => x);
  }

  /** COUNT with a WHERE clause counts the matching rows. */
  lemma WhereCard<T(!new)>(rows: seq<T>, p: T -> bool, matching: set<T>)
    requires Distinct(rows) && forall x :: x in matching <==> x in rows && p(x)
    ensures |Where(rows, p)| == |matching|
  {
    DistinctWhere(rows, p);
    DistinctCard(Where(rows, p));
    WhereIn(rows, p);
    assert Elems(Where(rows, p)) == matching;
  }

  lemma {:induction false} AllKept<T(!new)>(rows: seq<T>, keep: T -> bool)
    ensures |Where(rows, keep)| == |rows| <==> forall x :: x in rows ==> keep(x)
  {
    if rows != [] {
      var k := |rows| - 1;
      AllKept(rows[..k], keep);
      assert rows == rows[..k] + [rows[k]];
    }
  }

  // ---------- counts over a partition ----------

  function SumCounts<T, K(==)>(rows: seq<T>, f: T -> K, keys: seq<K>): nat {
    if keys == [] then 0
    else SumCounts(rows, f, keys[1..]) + |Where(rows, Having(f, keys[0]))|
  }

  function Having<T, K(==)>(f: T -> K, k: K): T -> bool { x => f(x) == k }

  lemma {:induction false} SumSnoc<T(!new), K(!new)>(rows: seq<T>, x: T, f: T -> K, keys: seq<K>)
    requires Distinct(keys)
    ensures SumCounts(rows + [x], f, keys) == SumCounts(rows, f, keys) + (if f(x) in keys then 1 else 0)
  {
    if keys != [] {
      SumSnoc(rows, x, f, keys[1..]);
      WhereSnoc(rows, x, Having(f, keys[0]));
      assert keys == [keys[0]] + keys[1..];
    }
  }

  /** Over keys that cover the table, the counts per key add up to the number of rows. */
  lemma {:induction false} CountsPartition<T(!new), K(!new)>(rows: seq<T>, f: T -> K, keys: seq<K>)
    requires Distinct(keys) && forall x :: x in rows ==> f(x) in keys
    ensures SumCounts(rows, f, keys) == |rows|
  {
    if rows == [] {
      NoRows<T, K>(f, keys);
    } else {
      var k := |rows| - 1;
      assert rows == rows[..k] + [rows[k]];
      CountsPartition(rows[..k], f, keys);
      SumSnoc(rows[..k], rows[k], f, keys);
    }
  }

  lemma {:induction false} NoRows<T, K>(f: T -> K, keys: seq<K>)
    ensures SumCounts([], f, keys) == 0
  {
    if keys != [] {
      NoRows<T, K>(f, keys[1..]);
    }
  }

  /** The sum of a number over a list of keys. */
  function Sum<K>(keys: seq<K>, n: K -> nat): nat {
    if keys == [] then 0 else Sum(keys[1..], n) + n(keys[0])
  }

  lemma {:induction false} SumIsSumCounts<T(!new), K(!new)>(rows: seq<T>, f: T -> K, keys: seq<K>, n: K -> nat)
    requires forall k :: k in keys ==> n(k) == |Where(rows, Having(f, k))|
    ensures Sum(keys, n) == SumCounts(rows, f, keys)
  {
    if keys != [] {
      assert keys[0] in keys;
      SumIsSumCounts(rows, f, keys[1..], n);
    }
  }

  lemma {:induction false} SameOn<T(!new)>(rows: seq<T>, p: T -> bool, q: T -> bool)
    requires forall x :: x in rows ==> p(x) == q(x)
    ensures Where(rows, p) == Where(rows, q)
  {
    if rows != [] {
      SameOn(rows[..|rows| - 1], p, q);
      assert rows[|rows| - 1] in rows;
    }
  }
}
