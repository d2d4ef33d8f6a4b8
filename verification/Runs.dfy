/** Runs of a machine: sequences of actions, each of which is possible where it happens. */
module Runs {
  import opened Wrappers

  /** next gives the state after an action, or nothing where the action cannot happen. */
  ghost predicate IsRun<S, A>(next: (S, A) -> Option<S>, s: S, run: seq<A>)
    decreases |run|
  {
    run != [] ==> next(s, run[0]).Some? && IsRun(next, next(s, run[0]).value, run[1..])
  }

  ghost function Final<S, A>(next: (S, A) -> Option<S>, s: S, run: seq<A>): S
    requires IsRun(next, s, run)
    decreases |run|
  {
    if run == [] then s else Final(next, next(s, run[0]).value, run[1..])
  }

  lemma {:induction false} RunSnoc<S, A>(next: (S, A) -> Option<S>, s: S, run: seq<A>, a: A)
    requires IsRun(next, s, run) && next(Final(next, s, run), a).Some?
    ensures IsRun(next, s, run + [a])
    ensures Final(next, s, run + [a]) == next(Final(next, s, run), a).value
    decreases |run|
  {
    if run == [] {
      assert run + [a] == [a];
      assert [a][1..] == [];
    } else {
      RunSnoc(next, next(s, run[0]).value, run[1..], a);
      assert (run + [a])[1..] == run[1..] + [a];
    }
  }

  /** What every step keeps, every run keeps. */
  lemma {:induction false} RunKeeps<S(!new), A(!new)>(next: (S, A) -> Option<S>, inv: S -> bool, s: S, run: seq<A>)
    requires IsRun(next, s, run) && inv(s)
    requires forall t, a :: inv(t) && next(t, a).Some? ==> inv(next(t, a).value)
    ensures inv(Final(next, s, run))
    decreases |run|
  {
    if run != [] {
      RunKeeps(next, inv, next(s, run[0]).value, run[1..]);
    }
  }

  /** A run goes on where its first part ends. */
  lemma {:induction false} RunSplit<S, A>(next: (S, A) -> Option<S>, s: S, run: seq<A>, j: nat)
    requires IsRun(next, s, run) && j <= |run|
    ensures IsRun(next, s, run[..j]) && IsRun(next, Final(next, s, run[..j]), run[j..])
    ensures Final(next, Final(next, s, run[..j]), run[j..]) == Final(next, s, run)
    ensures j < |run| ==> next(Final(next, s, run[..j]), run[j]).Some?
    decreases |run|
  {
    if j == 0 {
      assert run[..0] == [] && run[0..] == run;
    } else {
      RunSplit(next, next(s, run[0]).value, run[1..], j - 1);
      assert run[..j][1..] == run[1..][..j - 1] && run[1..][j - 1..] == run[j..];
      assert j < |run| ==> run[1..][j - 1] == run[j];
    }
  }

  /** What holds at the end and not at the start became true at some step. */
  lemma {:induction false} Became<S, A>(next: (S, A) -> Option<S>, p: S -> bool, s: S, run: seq<A>) returns (j: nat)
    requires IsRun(next, s, run) && !p(s) && p(Final(next, s, run))
    ensures j < |run| && IsRun(next, s, run[..j])
    ensures var t := Final(next, s, run[..j]); next(t, run[j]).Some? && !p(t) && p(next(t, run[j]).value)
    decreases |run|
  {
    var t := next(s, run[0]).value;
    if p(t) {
      j := 0;
      assert run[..0] == [];
    } else {
      var i := Became(next, p, t, run[1..]);
      j := i + 1;
      assert run[..j][1..] == run[1..][..i];
    }
  }

  function Count<A>(run: seq<A>, mine: A -> bool): nat {
    if run == [] then 0 else (if mine(run[0]) then 1 else 0) + Count(run[1..], mine)
  }

  /** A rank that every step of one's own lowers, and no step raises, bounds their number. */
  lemma {:induction false} RankBounds<S(!new), A(!new)>(next: (S, A) -> Option<S>, inv: S -> bool, rank: S -> nat,
                                                        mine: A -> bool, s: S, run: seq<A>)
    requires IsRun(next, s, run) && inv(s)
    requires forall t, a :: inv(t) && next(t, a).Some? ==>
      inv(next(t, a).value) && rank(next(t, a).value) + (if mine(a) then 1 else 0) <= rank(t)
    ensures inv(Final(next, s, run)) && rank(Final(next, s, run)) + Count(run, mine) <= rank(s)
    decreases |run|
  {
    if run != [] {
      RankBounds(next, inv, rank, mine, next(s, run[0]).value, run[1..]);
    }
  }
}
