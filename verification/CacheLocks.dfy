/**
 The lock of the cache-aside readers: mutual exclusion and single loads where locks do not expire under
 their holders, and a bound on every call whatever the locks do.
 */
module CacheLocks {
  import opened Wrappers
  import opened CacheSteps
  import Runs

  /** Between a successful SETNX and the release. */
  predicate Inside(p: Proc) {
    match p.pc
    case Check(st) => st.UnderLock?
    case Check2(st) => st.UnderLock?
    case Load(locked) => locked
    case Loaded(locked, _, _, _) => locked
    case Added(locked, _) => locked
    case Release(_) => true
    case _ => false
  }

  /** No lock expires under a live holder, and holders do not fail between lock and release. */
  ghost predicate Careful(s: State, a: Action) {
    match a
    case ExpireLock(k) => forall p :: p in s.procs && s.procs[p].kind == k ==> !Inside(s.procs[p])
    case Crash(pid) => pid in s.procs ==> !Inside(s.procs[pid])
    case _ => true
  }

  /** The machine in which only careful steps happen. */
  ghost function CarefulTry(s: State, a: Action): Option<State> {
    if Careful(s, a) then Try(s, a) else None
  }

  /** The locks that are held are those of the live readers inside. */
  ghost predicate Exclusive(s: State) {
    && (forall p :: p in s.procs && Inside(s.procs[p]) ==> s.procs[p].kind in s.locks && s.locks[s.procs[p].kind] == p)
    && (forall k :: k in s.locks ==> Holds(s, s.locks[k], k))
  }

  ghost predicate Holds(s: State, pid: nat, k: Kind) {
    pid in s.procs && s.procs[pid].kind == k && Inside(s.procs[pid])
  }

  ghost predicate Filling(s: State, k: Kind) {
    exists p :: p in s.procs && s.procs[p].kind == k && s.procs[p].pc.Loaded? && s.procs[p].pc.locked
  }

  // The one load was for the entry that stands, or is on its way.
  ghost predicate Spent(s: State, k: Kind) {
    HolderLoads(s, k) <= 1 && (HolderLoads(s, k) == 1 ==> Entry(s, k) || Filling(s, k))
  }

  ghost predicate SingleLoad(s: State) {
    && (forall k :: Spent(s, k))
    && (forall p :: p in s.procs && s.procs[p].pc.Load? && s.procs[p].pc.locked ==>
      HolderLoads(s, s.procs[p].kind) == 0)
  }

  lemma LocksChange(s: State, pid: nat)
    requires |s.writes| > 0 && pid in s.procs
    ensures var p := s.procs[pid];
      Command(s, pid).procs == s.procs && Command(s, pid).locks ==
        match p.pc
        case TryLock(_) => if p.kind in s.locks then s.locks else s.locks[p.kind := pid]
        case Release(_) => s.locks - {p.kind}
        case _ => s.locks
  {
    hide HolderLoads, Merge, Entry;
  }

  lemma InsideChange(s: State, p: Proc)
    requires |s.writes| > 0 && !p.pc.Done?
    ensures var q := Proceed(s, p);
      q.kind == p.kind &&
        match p.pc
        case TryLock(_) => !Inside(p) && (Inside(q) <==> p.kind !in s.locks)
        case Release(_) => Inside(p) && !Inside(q)
        case _ => Inside(q) <==> Inside(p)
  {
    hide Entry;
  }

  /** A step changes its own process only, and takes, keeps or gives up the lock of its kind. */
  lemma LockStep(s: State, pid: nat)
    requires |s.writes| > 0 && Enabled(s, Step(pid))
    ensures var t, p := ReaderStep(s, pid), s.procs[pid];
      && pid in t.procs && t.procs == s.procs[pid := t.procs[pid]] && t.procs[pid].kind == p.kind
      && (|| (t.locks == s.locks && (Inside(t.procs[pid]) <==> Inside(p)))
          || (p.kind !in s.locks && t.locks == s.locks[p.kind := pid] && Inside(t.procs[pid]))
          || (Inside(p) && !Inside(t.procs[pid]) && t.locks == s.locks - {p.kind}))
  {
    LocksChange(s, pid);
    InsideChange(s, s.procs[pid]);
    hide Command, Proceed, Inside;
  }

  lemma StepExclusive(s: State, pid: nat)
    requires |s.writes| > 0 && Enabled(s, Step(pid)) && Exclusive(s)
    ensures Exclusive(Next(s, Step(pid)))
  {
    LockStep(s, pid);
    hide Entry, ReaderStep, Inside;
    var t := Next(s, Step(pid));
    forall k | k in t.locks ensures Holds(t, t.locks[k], k) {
      assert k in s.locks ==> Holds(s, s.locks[k], k);
    }
  }

  lemma OutsideExclusive(s: State, a: Action)
    requires |s.writes| > 0 && Enabled(s, a) && Careful(s, a) && Exclusive(s) && !a.Step?
    ensures Exclusive(Next(s, a))
  {
    assert forall k, began :: !Inside(Proc(k, Check(First), 0, 0, began));
    hide Entry, Inside;
    var t := Next(s, a);
    forall k | k in t.locks ensures Holds(t, t.locks[k], k) {
      assert Holds(s, s.locks[k], k);
    }
  }

  lemma ExclusiveNext(s: State, a: Action)
    requires |s.writes| > 0 && Enabled(s, a) && Careful(s, a) && Exclusive(s)
    ensures Exclusive(Next(s, a))
  {
    if a.Step? {
      StepExclusive(s, a.pid);
    } else {
      OutsideExclusive(s, a);
    }
  }

  lemma LoadCounted(s: State, pid: nat)
    requires |s.writes| > 0 && Enabled(s, Step(pid))
    ensures var t, p := ReaderStep(s, pid), s.procs[pid];
      t.holderLoads == if p.pc.Load? && p.pc.locked then s.holderLoads[p.kind := HolderLoads(s, p.kind) + 1]
                       else s.holderLoads
  {
    hide Merge, HolderLoads, Proceed;
  }

  lemma LoadReached(s: State, p: Proc)
    requires |s.writes| > 0
    ensures var q := Proceed(s, p);
      && q.kind == p.kind
      && (p.pc.Load? && p.pc.locked ==> q.pc.Loaded? && q.pc.locked)
      && (q.pc.Load? && q.pc.locked ==> Inside(p) && !Entry(s, p.kind) && !p.pc.Loaded?)
  {
  }

  lemma FillStands(s: State, pid: nat)
    requires |s.writes| > 0 && Enabled(s, Step(pid)) && s.procs[pid].pc.Loaded?
    ensures Entry(ReaderStep(s, pid), s.procs[pid].kind)
  {
    hide Proceed, Merge;
  }

  lemma LoadStep(s: State, pid: nat)
    requires |s.writes| > 0 && Enabled(s, Step(pid))
    ensures var t, p, q := ReaderStep(s, pid), s.procs[pid], ReaderStep(s, pid).procs[pid];
      && pid in t.procs && t.procs == s.procs[pid := q] && q.kind == p.kind
      && (if p.pc.Load? && p.pc.locked
          then t.holderLoads == s.holderLoads[p.kind := HolderLoads(s, p.kind) + 1] && q.pc.Loaded? && q.pc.locked
          else t.holderLoads == s.holderLoads)
      && (q.pc.Load? && q.pc.locked ==> Inside(p) && !Entry(s, p.kind) && !p.pc.Loaded?)
      && (p.pc.Loaded? ==> Entry(t, p.kind))
  {
    LoadCounted(s, pid);
    LoadReached(s, s.procs[pid]);
    if s.procs[pid].pc.Loaded? { FillStands(s, pid); }
    hide Command, Proceed, Entry, Inside, HolderLoads;
  }

  /** What a step must show to keep SingleLoad. */
  lemma CountKept(s: State, t: State, k: Kind)
    requires HolderLoads(t, k) == 0 || (HolderLoads(t, k) == HolderLoads(s, k) && (Entry(s, k) ==> Entry(t, k)))
    requires Filling(s, k) ==> Filling(t, k) || Entry(t, k)
    requires Spent(s, k)
    ensures Spent(t, k)
  {
  }

  lemma OutsideSingle(s: State, a: Action)
    requires |s.writes| > 0 && Enabled(s, a) && Careful(s, a) && SingleLoad(s) && !a.Step?
    ensures SingleLoad(Next(s, a))
  {
    assert forall p :: p in s.procs && s.procs[p].pc.Loaded? && s.procs[p].pc.locked ==> Inside(s.procs[p]);
    hide Entry, Inside;
    var t := Next(s, a);
    forall k | Filling(s, k) ensures Filling(t, k) {
      var p :| p in s.procs && s.procs[p].kind == k && s.procs[p].pc.Loaded? && s.procs[p].pc.locked;
      assert p in t.procs && t.procs[p] == s.procs[p];
    }
    forall k ensures Spent(t, k) {
      CountKept(s, t, k);
    }
  }

  lemma StepSpent(s: State, pid: nat, k: Kind)
    requires |s.writes| > 0 && Enabled(s, Step(pid)) && SingleLoad(s)
    ensures Spent(Next(s, Step(pid)), k)
  {
    hide Inside, ReaderStep;
    var t := Next(s, Step(pid));
    LoadStep(s, pid);
    if Filling(s, k) {
      var p :| p in s.procs && s.procs[p].kind == k && s.procs[p].pc.Loaded? && s.procs[p].pc.locked;
      assert p == pid || (p in t.procs && t.procs[p] == s.procs[p]);
    }
    if k == s.procs[pid].kind && s.procs[pid].pc.Load? && s.procs[pid].pc.locked {
      assert t.procs[pid].pc.Loaded? && t.procs[pid].kind == k;
    } else {
      CountKept(s, t, k);
    }
  }

  lemma StepSingle(s: State, pid: nat)
    requires |s.writes| > 0 && Enabled(s, Step(pid)) && Exclusive(s) && SingleLoad(s)
    ensures SingleLoad(Next(s, Step(pid)))
  {
    assert forall p :: p in s.procs && s.procs[p].pc.Loaded? && s.procs[p].pc.locked ==> Inside(s.procs[p]);
    assert forall p :: p in s.procs && s.procs[p].pc.Load? && s.procs[p].pc.locked ==> Inside(s.procs[p]);
    forall k ensures Spent(Next(s, Step(pid)), k) {
      StepSpent(s, pid, k);
    }
    assert Spent(s, s.procs[pid].kind);
    hide Entry, Inside, ReaderStep;
    LoadStep(s, pid);
  }

  lemma SingleLoadNext(s: State, a: Action)
    requires |s.writes| > 0 && Enabled(s, a) && Careful(s, a) && Exclusive(s) && SingleLoad(s)
    ensures SingleLoad(Next(s, a))
  {
    if a.Step? {
      StepSingle(s, a.pid);
    } else {
      OutsideSingle(s, a);
    }
  }

  /**
   If no lock expires under a live holder, two readers of one key are never in the locked section at
   once, nobody outside holds a lock, and lock holders query the table at most once between two removals of
   the entry.
   */
  lemma LockTheorem(data: Version, run: seq<Action>)
    requires Runs.IsRun(CarefulTry, Start(data), run)
    ensures var t := Runs.Final(CarefulTry, Start(data), run);
      && (forall p, q :: p in t.procs && q in t.procs && t.procs[p].kind == t.procs[q].kind ==>
            Inside(t.procs[p]) && Inside(t.procs[q]) ==> p == q)
      && (forall k :: k in t.locks ==> Holds(t, t.locks[k], k))
      && (forall k :: HolderLoads(t, k) <= 1)
  {
    var inv := (t: State) => Exclusive(t) && SingleLoad(t);
    forall t, a | inv(t) && CarefulTry(t, a).Some? ensures inv(CarefulTry(t, a).value) {
      ExclusiveNext(t, a);
      SingleLoadNext(t, a);
    }
    Runs.RunKeeps(CarefulTry, inv, Start(data), run);
    var t := Runs.Final(CarefulTry, Start(data), run);
    forall k ensures HolderLoads(t, k) <= 1 { assert Spent(t, k); }
  }

  // ---------- every call is short, whatever the locks do ----------

  /** The most steps that a reader can still take. */
  function Rank(pc: PC): nat {
    match pc
    case Check(First) => 15
    case Check2(First) => 14
    case TryLock(i) => if i < MAX_RETRY then 4 + 3 * (MAX_RETRY - i) else 4
    case Check(Retry(i)) => if i < MAX_RETRY then 3 + 3 * (MAX_RETRY - i) else 3
    case Check2(Retry(i)) => if i < MAX_RETRY then 2 + 3 * (MAX_RETRY - i) else 2
    case Check(UnderLock) => 6
    case Check2(UnderLock) => 5
    case Load(_) => 4
    case Loaded(_, _, _, _) => 3
    case Added(_, _) => 2
    case Release(_) => 1
    case Done(_) => 0
  }

  /** How often a reader at this point has tried the lock and queried the table. */
  ghost predicate Counted(p: Proc) {
    && p.attempts <= MAX_RETRY && p.loads <= 1
    && match p.pc
       case Check(First) => p.attempts == 0 && p.loads == 0
       case Check2(First) => p.attempts == 0 && p.loads == 0
       case TryLock(i) => p.attempts == i < MAX_RETRY && p.loads == 0
       case Check(Retry(i)) => p.attempts == i + 1 && p.loads == 0
       case Check2(Retry(i)) => p.attempts == i + 1 && p.loads == 0
       case Check(UnderLock) => p.loads == 0
       case Check2(UnderLock) => p.loads == 0
       case Load(locked) => p.loads == 0 && (locked || p.attempts == MAX_RETRY)
       case _ => true
  }

  lemma StepCounted(s: State, pid: nat)
    requires |s.writes| > 0 && Enabled(s, Step(pid)) && Counted(s.procs[pid])
    ensures var t := ReaderStep(s, pid);
      pid in t.procs && Counted(t.procs[pid]) && Rank(t.procs[pid].pc) < Rank(s.procs[pid].pc)
  {
    hide Entry, Command;
  }

  function Steps(run: seq<Action>, pid: nat): nat {
    if run == [] then 0 else (if run[0] == Step(pid) then 1 else 0) + Steps(run[1..], pid)
  }

  lemma OneStep(s: State, a: Action, pid: nat)
    requires Try(s, a).Some? && pid in s.procs && Counted(s.procs[pid]) && a != Crash(pid)
    ensures var t := Next(s, a);
      && pid in t.procs && Counted(t.procs[pid])
      && Rank(t.procs[pid].pc) + (if a == Step(pid) then 1 else 0) <= Rank(s.procs[pid].pc)
  {
    hide Entry, Counted, Rank, ReaderStep;
    if a.Step? {
      LockStep(s, a.pid);
      if a.pid == pid {
        StepCounted(s, pid);
      }
    }
  }

  lemma {:induction false} CallRank(s: State, run: seq<Action>, pid: nat)
    requires Runs.IsRun(Try, s, run) && pid in s.procs && Counted(s.procs[pid]) && Crash(pid) !in run
    ensures var t := Runs.Final(Try, s, run);
      && pid in t.procs && Counted(t.procs[pid])
      && Rank(t.procs[pid].pc) + Steps(run, pid) <= Rank(s.procs[pid].pc)
    decreases |run|
  {
    if run != [] {
      OneStep(s, run[0], pid);
      hide Next, Counted, Rank;
      CallRank(Next(s, run[0]), run[1..], pid);
    }
  }

  /**
   In every interleaving a call makes at most 3 lock attempts and one query, without the lock only after 3
   failed attempts, and ends after at most 15 of its own steps, none of which waits for anybody: even if the
   lock is never freed.
   */
  lemma CallBounded(s: State, kind: Kind, pid: nat, run: seq<Action>)
    requires |s.writes| > 0 && Enabled(s, Begin(pid, kind))
    requires IsRun(Next(s, Begin(pid, kind)), run) && Crash(pid) !in run
    ensures var t := Final(Next(s, Begin(pid, kind)), run);
      && pid in t.procs && t.procs[pid].attempts <= 3 && t.procs[pid].loads <= 1
      && Steps(run, pid) <= 15 && (Steps(run, pid) == 15 ==> t.procs[pid].pc.Done?)
      && (t.procs[pid].pc == Load(false) ==> t.procs[pid].attempts == 3)
      && (t.procs[pid].pc.Done? || Enabled(t, Step(pid)))
  {
    hide Entry, ReaderStep;
    CallRank(Next(s, Begin(pid, kind)), run, pid);
  }
}
