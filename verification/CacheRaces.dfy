/**
 Runs of the cache-aside machine: some that end with no DEL outstanding and still answer wrongly, and the
 longest call there is.
 */
module CacheRaces {
  import opened Wrappers
  import opened CacheSteps
  import opened CacheLocks
  import Runs

  /** A follow set of one id. */
  function One(x: nat): Version { Version(map[x := 0], 1) }

  // Nothing cached, nobody holds the lock.
  ghost predicate Cold(s: State) {
    Reachable(s) && |s.writes| > 0 && s.set_.None? && s.sent.None? && SetKey !in s.locks
  }

  /** Only this process may have moved. */
  ghost predicate OnlyMoves(s: State, t: State, pid: nat) {
    forall q :: q != pid ==> (q in s.procs <==> q in t.procs) && (q in s.procs ==> t.procs[q] == s.procs[q])
  }

  ghost predicate At(s: State, pid: nat, p: Proc) { pid in s.procs && s.procs[pid] == p }

  lemma Act(s: State, a: Action) returns (t: State)
    requires Reachable(s) && |s.writes| > 0 && Enabled(s, a)
    ensures Reachable(t) && |t.writes| > 0 && t.time == s.time + 1
    ensures var e := Effect(s, a);
      t.writes == e.writes && t.set_ == e.set_ && t.sent == e.sent && t.locks == e.locks && t.procs == e.procs
  {
    NextReachable(s, a);
    t := Next(s, a);
  }

  lemma Begins(s: State, pid: nat) returns (t: State)
    requires Reachable(s) && |s.writes| > 0 && pid !in s.procs
    ensures Reachable(t) && t.time == s.time + 1 && t.writes == s.writes
    ensures At(t, pid, Proc(SetKey, Check(First), 0, 0, |s.writes| - 1)) && OnlyMoves(s, t, pid)
    ensures t.set_ == s.set_ && t.sent == s.sent && t.locks == s.locks
  {
    t := Act(s, Begin(pid, SetKey));
  }

  /** One step of a reader: where it goes, and what its command does. */
  lemma Go(s: State, pid: nat) returns (t: State)
    requires Reachable(s) && |s.writes| > 0 && pid in s.procs && !s.procs[pid].pc.Done?
    ensures Reachable(t) && t.time == s.time + 1 && t.writes == s.writes
    ensures At(t, pid, Proceed(s, s.procs[pid])) && OnlyMoves(s, t, pid)
    ensures var c := Command(s, pid); t.set_ == c.set_ && t.sent == c.sent && t.locks == c.locks
  {
    CommandWrites(s, pid);
    hide Proceed;
    t := Act(s, Step(pid));
  }

  /** A check that finds nothing. */
  lemma Misses(s: State, pid: nat, st: Stage, attempts: nat, began: nat) returns (t: State)
    requires Reachable(s) && |s.writes| > 0 && s.set_.None? && s.sent.None?
    requires At(s, pid, Proc(SetKey, Check(st), attempts, 0, began))
    ensures Reachable(t) && t.writes == s.writes && t.set_.None? && t.sent.None? && t.locks == s.locks
    ensures t.time > s.time && At(t, pid, Proc(SetKey, Miss(st), attempts, 0, began)) && OnlyMoves(s, t, pid)
  {
    hide Reachable;
    t := Go(s, pid);
    t := Go(t, pid);
  }

  lemma Moved(s: State, t: State, u: State, pid: nat)
    requires OnlyMoves(s, t, pid) && OnlyMoves(t, u, pid)
    ensures OnlyMoves(s, u, pid)
  {
  }

  lemma Unmoved(s: State, t: State, pid: nat, q: nat)
    requires OnlyMoves(s, t, pid) && q != pid
    ensures (q in s.procs <==> q in t.procs) && (q in s.procs ==> t.procs[q] == s.procs[q])
  {
  }

  lemma TakesLock(s: State, pid: nat, began: nat) returns (t: State)
    requires Cold(s) && At(s, pid, Proc(SetKey, TryLock(0), 0, 0, began))
    ensures Reachable(t) && t.writes == s.writes && t.set_.None? && t.sent.None? && SetKey in t.locks && t.time > s.time
    ensures At(t, pid, Proc(SetKey, Check(UnderLock), 1, 0, began)) && OnlyMoves(s, t, pid)
  {
    hide Reachable, OnlyMoves;
    t := Go(s, pid);
  }

  lemma LoadsTable(s: State, pid: nat, began: nat) returns (t: State)
    requires Reachable(s) && |s.writes| > 0 && At(s, pid, Proc(SetKey, Load(true), 1, 0, began))
    ensures Reachable(t) && t.writes == s.writes && t.set_ == s.set_ && t.sent == s.sent && t.locks == s.locks
    ensures t.time == s.time + 1 && OnlyMoves(s, t, pid)
    ensures At(t, pid, Proc(SetKey, Loaded(true, Table(s), |s.writes| - 1, s.time), 1, 1, began))
  {
    hide Reachable, OnlyMoves;
    t := Go(s, pid);
  }

  /** A reader of a cold cache takes the lock, checks again, and loads. */
  lemma ColdLoad(s: State, pid: nat) returns (t: State)
    requires Cold(s) && pid !in s.procs
    ensures Reachable(t) && t.writes == s.writes && t.set_.None? && t.sent.None? && SetKey in t.locks && t.time > s.time
    ensures At(t, pid, Proc(SetKey, Loaded(true, Table(s), |s.writes| - 1, t.time - 1), 1, 1, |s.writes| - 1))
    ensures OnlyMoves(s, t, pid)
  {
    hide Reachable, OnlyMoves, At;
    var began := |s.writes| - 1;
    t := Begins(s, pid);
    var u := Misses(t, pid, First, 0, began);
    Moved(s, t, u, pid);
    t := TakesLock(u, pid, began);
    Moved(s, u, t, pid);
    u := Misses(t, pid, UnderLock, 1, began);
    Moved(s, t, u, pid);
    t := LoadsTable(u, pid, began);
    Moved(s, u, t, pid);
  }

  /** A loaded reader adds its ids to the cached ones. */
  lemma Fills(s: State, pid: nat) returns (t: State)
    requires Reachable(s) && |s.writes| > 0 && pid in s.procs && s.procs[pid].kind.SetKey?
    requires s.procs[pid].pc.Loaded? && s.procs[pid].pc.locked && s.procs[pid].pc.data.vals != map[]
    ensures Reachable(t) && t.writes == s.writes && t.set_.Some? && t.sent == s.sent && t.locks == s.locks
    ensures t.time > s.time && OnlyMoves(s, t, pid)
    ensures t.set_.value.members.Keys
         == (if s.set_.None? then {} else s.set_.value.members.Keys) + s.procs[pid].pc.data.vals.Keys
    ensures At(t, pid, s.procs[pid].(pc := Added(true, s.procs[pid].pc.data.vals.Keys)))
  {
    hide Reachable;
    t := Go(s, pid);
  }

  /** The table changes and the writer deletes the cached entries. */
  lemma Rewrite(s: State, data: Version) returns (t: State)
    requires Reachable(s) && |s.writes| > 0 && Quiet(s, SetKey) && Quiet(s, IntKey)
    ensures Reachable(t) && Table(t) == data && |t.writes| == |s.writes| + 1 && Quiet(t, SetKey) && Quiet(t, IntKey)
    ensures t.set_.None? && t.sent.None? && t.locks == s.locks && t.procs == s.procs
    ensures t.time > s.time
    ensures forall i :: 0 <= i < |s.writes| ==> t.writes[i] == s.writes[i]
  {
    hide Reachable;
    t := Act(s, Commit(data));
    t := Act(t, DelSet(|s.writes|));
    t := Act(t, DelCnt(|s.writes|));
  }

  lemma OneIsSome(x: nat)
    ensures One(x).vals.Keys == {x} && One(x).vals != map[]
  {
  }

  /** A reader loads, and then a write and its DELs go by. */
  lemma Overtaken(old_: nat, new_: nat) returns (s: State)
    ensures Reachable(s) && |s.writes| == 2 && s.writes[0].data == One(old_) && s.writes[1].data == One(new_)
    ensures Quiet(s, SetKey) && Quiet(s, IntKey) && s.set_.None? && s.sent.None?
    ensures 0 in s.procs && 1 !in s.procs && s.procs[0].kind == SetKey && s.procs[0].pc.Loaded?
    ensures s.procs[0].pc.locked && s.procs[0].pc.data == One(old_)
  {
    StartReachable(One(old_));
    s := ColdLoad(Start(One(old_)), 0);
    s := Rewrite(s, One(new_));
  }

  /**
   A reader that loaded before a write fills after the write's DEL: the lock is free again, no DEL is
   outstanding, and the cache shows the old follow set.
   */
  lemma StaleFill(old_: nat, new_: nat) returns (s: State)
    requires old_ != new_
    ensures Reachable(s) && Quiet(s, SetKey) && Quiet(s, IntKey) && SetKey !in s.locks
    ensures s.set_.Some? && s.set_.value.members.Keys == {old_} && Table(s).vals.Keys == {new_}
  {
    s := Overtaken(old_, new_);
    OneIsSome(old_);
    OneIsSome(new_);
    hide Reachable, One;
    s := Fills(s, 0);
    s := Go(s, 0);
    s := Go(s, 0);
  }

  // A reader under the lock that has just loaded this version.
  ghost predicate Holds(s: State, pid: nat, data: Version) {
    && pid in s.procs && s.procs[pid].kind.SetKey?
    && s.procs[pid].pc.Loaded? && s.procs[pid].pc.locked && s.procs[pid].pc.data == data
  }

  lemma Unlocked(s: State) returns (t: State)
    requires Reachable(s) && |s.writes| > 0
    ensures Reachable(t) && t.writes == s.writes && t.set_ == s.set_ && t.sent == s.sent && t.procs == s.procs
    ensures SetKey !in t.locks
  {
    hide Reachable;
    t := Act(s, ExpireLock(SetKey));
  }

  /** With the first reader's lock expired, a second one loads the new version. */
  lemma BothLoaded(old_: nat, new_: nat) returns (s: State)
    ensures Reachable(s) && |s.writes| == 2 && s.writes[0].data == One(old_) && s.writes[1].data == One(new_)
    ensures Quiet(s, SetKey) && s.set_.None? && Holds(s, 0, One(old_)) && Holds(s, 1, One(new_))
  {
    var t := Overtaken(old_, new_);
    hide Reachable, One, OnlyMoves, Quiet;
    var u := Unlocked(t);
    s := ColdLoad(u, 1);
    Unmoved(u, s, 1, 0);
    QuietSame(t, s);
  }

  lemma QuietSame(s: State, t: State)
    requires t.writes == s.writes
    ensures Quiet(s, SetKey) ==> Quiet(t, SetKey)
  {
  }

  /**
   Two readers that loaded different follow sets both fill: SADD merges them into a set that the
   table never held.
   */
  lemma UnionFill(old_: nat, new_: nat) returns (s: State)
    requires old_ != new_
    ensures Reachable(s) && Quiet(s, SetKey) && s.set_.Some? && s.set_.value.members.Keys == {old_, new_}
    ensures forall i :: 0 <= i < |s.writes| ==> s.writes[i].data.vals.Keys != s.set_.value.members.Keys
  {
    var t := BothLoaded(old_, new_);
    OneIsSome(old_);
    OneIsSome(new_);
    hide Reachable, One, OnlyMoves, Quiet;
    s := Fills(t, 1);
    Unmoved(t, s, 1, 0);
    QuietSame(t, s);
    t := Fills(s, 0);
    QuietSame(s, t);
    s := t;
    assert old_ in s.set_.value.members.Keys && new_ in s.set_.value.members.Keys;
  }

  /** One reader has loaded under the lock, and another has found no set yet. */
  lemma HalfRead(x: nat) returns (s: State)
    ensures Reachable(s) && |s.writes| == 1 && Table(s) == One(x) && s.set_.None?
    ensures Holds(s, 0, One(x)) && At(s, 1, Proc(SetKey, Check2(First), 0, 0, 0))
  {
    StartReachable(One(x));
    s := ColdLoad(Start(One(x)), 0);
    hide Reachable, One, OnlyMoves;
    Unmoved(Start(One(x)), s, 0, 1);
    var t := Begins(s, 1);
    Unmoved(s, t, 1, 0);
    s := Go(t, 1);
    Unmoved(t, s, 1, 0);
  }

  /**
   SMEMBERS and EXISTS are two commands.  A fill between them makes a reader answer the empty set
   although the table holds a member from first to last and the cache is coherent.
   */
  lemma TornRead(x: nat) returns (s: State)
    ensures Reachable(s) && |s.writes| == 1 && Table(s) == One(x)
    ensures s.set_.Some? && s.set_.value.members.Keys == {x}
    ensures 1 in s.procs && s.procs[1].pc == Done(SetAnswer({}))
  {
    s := HalfRead(x);
    OneIsSome(x);
    hide Reachable, One, OnlyMoves;
    var t := Fills(s, 0);
    Unmoved(s, t, 0, 1);
    s := Go(t, 1);
  }

  // ---------- the longest call ----------

  /** The run so far of a call that began in s0, with how many steps of its own it took. */
  ghost predicate Walked(s0: State, run: seq<Action>, s: State, pid: nat, n: nat) {
    IsRun(s0, run) && Final(s0, run) == s && Crash(pid) !in run && Steps(run, pid) == n && |s.writes| > 0
  }

  lemma {:induction false} StepsSnoc(run: seq<Action>, a: Action, pid: nat)
    ensures Steps(run + [a], pid) == Steps(run, pid) + (if a == Step(pid) then 1 else 0)
  {
    if run == [] {
      assert [] + [a] == [a] && [a][1..] == [];
    } else {
      StepsSnoc(run[1..], a, pid);
      assert (run + [a])[1..] == run[1..] + [a];
    }
  }

  lemma Extend(s0: State, run: seq<Action>, s: State, pid: nat, n: nat, a: Action) returns (more: seq<Action>, t: State)
    requires Walked(s0, run, s, pid, n) && Enabled(s, a) && a != Crash(pid)
    ensures Walked(s0, more, t, pid, if a == Step(pid) then n + 1 else n)
    ensures var e := Effect(s, a);
      t.writes == e.writes && t.set_ == e.set_ && t.sent == e.sent && t.locks == e.locks && t.procs == e.procs
  {
    Runs.RunSnoc(Try, s0, run, a);
    StepsSnoc(run, a, pid);
    more, t := run + [a], Next(s, a);
  }

  /** One step of the call: where it goes, and what its command does. */
  lemma Forward(s0: State, run: seq<Action>, s: State, pid: nat, n: nat) returns (more: seq<Action>, t: State)
    requires Walked(s0, run, s, pid, n) && pid in s.procs && !s.procs[pid].pc.Done?
    ensures Walked(s0, more, t, pid, n + 1) && t.writes == s.writes
    ensures t.procs == s.procs[pid := Proceed(s, s.procs[pid])]
    ensures var c := Command(s, pid); t.set_ == c.set_ && t.sent == c.sent && t.locks == c.locks
  {
    hide Proceed, Walked;
    more, t := Extend(s0, run, s, pid, n, Step(pid));
  }

  // A call that finds nothing cached stands at this point, and others leave it alone.
  ghost predicate Stands(s: State, pid: nat, pc: PC, attempts: nat, loads: nat) {
    && pid in s.procs && s.procs[pid].kind == SetKey && s.procs[pid].pc == pc
    && s.procs[pid].attempts == attempts && s.procs[pid].loads == loads
    && s.set_.None? && s.sent.None?
  }

  /** Two steps of a check that finds nothing. */
  lemma Nothing(s0: State, run: seq<Action>, s: State, pid: nat, n: nat, st: Stage, attempts: nat)
    returns (more: seq<Action>, t: State)
    requires Walked(s0, run, s, pid, n) && Stands(s, pid, Check(st), attempts, 0)
    ensures Walked(s0, more, t, pid, n + 2) && Stands(t, pid, Miss(st), attempts, 0)
    ensures t.locks == s.locks && t.writes == s.writes
  {
    hide Walked;
    more, t := Forward(s0, run, s, pid, n);
    more, t := Forward(s0, more, t, pid, n + 1);
  }

  /** An attempt that finds the lock taken. */
  lemma Refused(s0: State, run: seq<Action>, s: State, pid: nat, n: nat, i: nat) returns (more: seq<Action>, t: State)
    requires Walked(s0, run, s, pid, n) && Stands(s, pid, TryLock(i), i, 0) && SetKey in s.locks
    ensures Walked(s0, more, t, pid, n + 3) && Stands(t, pid, Miss(Retry(i)), i + 1, 0)
    ensures t.locks == s.locks && t.writes == s.writes
  {
    hide Walked;
    more, t := Forward(s0, run, s, pid, n);
    more, t := Nothing(s0, more, t, pid, n + 1, Retry(i), i + 1);
  }

  /** The lock, and a double check that finds nothing. */
  lemma Admitted(s0: State, run: seq<Action>, s: State, pid: nat, n: nat) returns (more: seq<Action>, t: State)
    requires Walked(s0, run, s, pid, n) && Stands(s, pid, TryLock(2), 2, 0) && SetKey !in s.locks
    ensures Walked(s0, more, t, pid, n + 3) && Stands(t, pid, Load(true), 3, 0) && t.writes == s.writes
  {
    hide Walked;
    more, t := Forward(s0, run, s, pid, n);
    more, t := Nothing(s0, more, t, pid, n + 1, UnderLock, 3);
  }

  /** The query, the fill, the sentinel, the release. */
  lemma Finishes(s0: State, run: seq<Action>, s: State, pid: nat, n: nat) returns (more: seq<Action>, t: State)
    requires Walked(s0, run, s, pid, n) && |s.writes| > 0 && Stands(s, pid, Load(true), 3, 0) && Table(s).vals != map[]
    ensures Walked(s0, more, t, pid, n + 4) && pid in t.procs && t.procs[pid].pc.Done?
    ensures t.procs[pid].attempts == 3 && t.procs[pid].loads == 1
  {
    hide Walked, Merge;
    more, t := Forward(s0, run, s, pid, n);
    assert t.procs[pid].pc.Loaded? && t.procs[pid].pc.locked && t.procs[pid].pc.data == Table(s);
    more, t := Forward(s0, more, t, pid, n + 1);
    assert t.procs[pid].pc.Added? && t.procs[pid].pc.locked;
    more, t := Forward(s0, more, t, pid, n + 2);
    assert t.procs[pid].pc.Release?;
    more, t := Forward(s0, more, t, pid, n + 3);
  }

  /** A cold cache whose lock a first reader has taken, as a second call begins. */
  lemma LockTaken(x: nat) returns (s: State)
    ensures Reachable(s) && |s.writes| > 0 && Enabled(s, Begin(1, SetKey))
    ensures var t := Next(s, Begin(1, SetKey));
      && Walked(t, [], t, 1, 0) && Stands(t, 1, Check(First), 0, 0) && SetKey in t.locks
      && |t.writes| > 0 && Table(t).vals != map[]
  {
    StartReachable(One(x));
    s := ColdLoad(Start(One(x)), 0);
    OneIsSome(x);
    hide Reachable, One, OnlyMoves;
    Unmoved(Start(One(x)), s, 0, 1);
  }

  /** The first check and two attempts that find the lock taken. */
  lemma TwoRefusals(s: State) returns (run: seq<Action>, t: State)
    requires Walked(s, [], s, 1, 0) && Stands(s, 1, Check(First), 0, 0) && SetKey in s.locks
    ensures Walked(s, run, t, 1, 8) && Stands(t, 1, TryLock(2), 2, 0) && t.writes == s.writes
  {
    hide Walked, Stands;
    run, t := Nothing(s, [], s, 1, 0, First, 0);
    run, t := Refused(s, run, t, 1, 2, 0);
    run, t := Refused(s, run, t, 1, 5, 1);
  }

  lemma Freed(s0: State, run: seq<Action>, s: State) returns (more: seq<Action>, t: State)
    requires Walked(s0, run, s, 1, 8) && Stands(s, 1, TryLock(2), 2, 0)
    ensures Walked(s0, more, t, 1, 8) && Stands(t, 1, TryLock(2), 2, 0) && SetKey !in t.locks && t.writes == s.writes
  {
    hide Walked;
    more, t := Extend(s0, run, s, 1, 8, ExpireLock(SetKey));
  }

  lemma FifteenSteps(first: State) returns (run: seq<Action>, t: State)
    requires Walked(first, [], first, 1, 0) && Stands(first, 1, Check(First), 0, 0) && SetKey in first.locks
    requires |first.writes| > 0 && Table(first).vals != map[]
    ensures Walked(first, run, t, 1, 15)
    ensures 1 in t.procs && t.procs[1].pc.Done? && t.procs[1].attempts == 3 && t.procs[1].loads == 1
  {
    hide Walked, Stands;
    run, t := TwoRefusals(first);
    run, t := Freed(first, run, t);
    run, t := Admitted(first, run, t, 1, 8);
    run, t := Finishes(first, run, t, 1, 11);
  }

  /**
   A call that finds the lock taken twice, gets it at its last attempt and fills the cache takes 15 steps:
   the bound on every call is attained.
   */
  lemma LongestCall(x: nat) returns (s: State, run: seq<Action>)
    ensures Reachable(s) && Enabled(s, Begin(1, SetKey))
    ensures IsRun(Next(s, Begin(1, SetKey)), run) && Crash(1) !in run && Steps(run, 1) == 15
    ensures var t := Final(Next(s, Begin(1, SetKey)), run);
      1 in t.procs && t.procs[1].pc.Done? && t.procs[1].attempts == 3 && t.procs[1].loads == 1
  {
    hide Walked, Stands, Reachable, Next, Steps, IsRun, Final, Table;
    s := LockTaken(x);
    var t;
    run, t := FifteenSteps(Next(s, Begin(1, SetKey)));
    WalkedRun(Next(s, Begin(1, SetKey)), run, t, 1, 15);
  }

  lemma WalkedRun(s0: State, run: seq<Action>, s: State, pid: nat, n: nat)
    requires Walked(s0, run, s, pid, n)
    ensures IsRun(s0, run) && Final(s0, run) == s && Crash(pid) !in run && Steps(run, pid) == n
  {
  }
}
