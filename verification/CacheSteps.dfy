/**
 The cache-aside protocol over one user's ids, their "empty" sentinel and a count, as a machine whose
 steps are the single Redis commands and table statements of concurrent readers and writers.  The ids
 are a follow set, where every score is 0, or a favourite list, where the score is the time of the like.
 A reader runs LoadUintSet, LoadUintZSet or LoadInt; a writer commits a table write, then deletes the
 ids and the sentinel in one DEL and the count in a second one.  Every key and lock may expire at any time.
 */
module CacheSteps {
  import opened Wrappers
  import Runs

  const MAX_RETRY: nat := 3

  datatype Kind = SetKey | IntKey

  /** What the two queries see between two table writes: ids with their scores, and a count. */
  datatype Version = Version(vals: map<nat, int>, count: nat)

  /** A table write: the version it leaves, when it committed, and when its two DELs ran. */
  datatype Write = Write(data: Version, at: nat, setDel: Option<nat>, cntDel: Option<nat>)

  /** A fill of the cache: what was loaded, which write the load saw last, and when it loaded and filled. */
  datatype Fill = Fill(data: Version, ver: nat, loadAt: nat, fillAt: nat)

  /** SADD and ZADD merge, so the cached ids may stem from several fills. */
  datatype SetCell = SetCell(members: map<nat, int>, fills: set<Fill>)
  datatype CntCell = CntCell(n: nat, fill: Fill)

  datatype Answer = SetAnswer(s: set<nat>) | IntAnswer(n: nat)

  datatype Stage = First | Retry(i: nat) | UnderLock

  datatype PC =
    | Check(st: Stage)                              // before SMEMBERS, ZREVRANGE or GET
    | Check2(st: Stage)                             // before EXISTS key, empty:key
    | TryLock(i: nat)                               // before SETNX
    | Load(locked: bool)                            // before the query
    | Loaded(locked: bool, data: Version, ver: nat, loadAt: nat)    // before SADD, ZADD, SET empty:key or SET
    | Added(locked: bool, ids: set<nat>)            // before DEL empty:key
    | Release(ans: Answer)                          // before DEL lock:key
    | Done(ans: Answer)

  /** began is the last table write that had committed when the call began. */
  datatype Proc = Proc(kind: Kind, pc: PC, attempts: nat, loads: nat, began: nat)

  /** holderLoads counts the loads under the lock since the entry of that kind was last removed. */
  datatype State = State(
    time: nat,
    writes: seq<Write>,
    set_: Option<SetCell>,
    sent: Option<Fill>,
    cnt: Option<CntCell>,
    locks: map<Kind, nat>,
    holderLoads: map<Kind, nat>,
    procs: map<nat, Proc>
  )

  datatype Action =
    | Commit(data: Version)
    | DelSet(i: nat)
    | DelCnt(i: nat)
    | ExpireSet
    | ExpireSentinel
    | ExpireCount
    | ExpireLock(kind: Kind)
    | Begin(pid: nat, kind: Kind)
    | Step(pid: nat)
    | Crash(pid: nat)

  function Table(s: State): Version
    requires |s.writes| > 0
  {
    s.writes[|s.writes| - 1].data
  }

  predicate Entry(s: State, k: Kind) {
    match k
    case SetKey => s.set_.Some? || s.sent.Some?
    case IntKey => s.cnt.Some?
  }

  function HolderLoads(s: State, k: Kind): nat {
    if k in s.holderLoads then s.holderLoads[k] else 0
  }

  // ---------- the steps ----------

  /** A cold cache over a table that was there before. */
  function Start(data: Version): State {
    State(1, [Write(data, 0, Some(0), Some(0))], None, None, None, map[], map[], map[])
  }

  predicate Enabled(s: State, a: Action) {
    match a
    case DelSet(i) => 0 < i < |s.writes| && s.writes[i].setDel.None?
    case DelCnt(i) => 0 < i < |s.writes| && s.writes[i].setDel.Some? && s.writes[i].cntDel.None?
    case Begin(pid, _) => pid !in s.procs
    case Step(pid) => pid in s.procs && !s.procs[pid].pc.Done?
    case Crash(pid) => pid in s.procs
    case _ => true
  }

  function Hit(st: Stage, ans: Answer): PC {
    if st.UnderLock? then Release(ans) else Done(ans)
  }

  function Miss(st: Stage): PC {
    match st
    case First => TryLock(0)
    case Retry(i) => if i + 1 < MAX_RETRY then TryLock(i + 1) else Load(false)
    case UnderLock => Load(true)
  }

  function Finish(locked: bool, ans: Answer): PC {
    if locked then Release(ans) else Done(ans)
  }

  /** New ids come in, and the scores of the others are overwritten. */
  function Merge(c: Option<SetCell>, f: Fill): SetCell {
    if c.None? then SetCell(f.data.vals, {f}) else SetCell(c.value.members + f.data.vals, c.value.fills + {f})
  }

  /** Where a reader goes from its present point, given what its command finds. */
  function Proceed(s: State, p: Proc): Proc
    requires |s.writes| > 0
  {
    match p.pc
    case Check(st) =>
      if p.kind.IntKey? then p.(pc := if s.cnt.Some? then Hit(st, IntAnswer(s.cnt.value.n)) else Miss(st))
      else p.(pc := if s.set_.Some? then Hit(st, SetAnswer(s.set_.value.members.Keys)) else Check2(st))
    case Check2(st) =>
      p.(pc := if Entry(s, p.kind) then Hit(st, SetAnswer({})) else Miss(st))
    case TryLock(i) =>
      p.(pc := if p.kind in s.locks then Check(Retry(i)) else Check(UnderLock), attempts := p.attempts + 1)
    case Load(locked) =>
      p.(pc := Loaded(locked, Table(s), |s.writes| - 1, s.time), loads := p.loads + 1)
    case Loaded(locked, data, _, _) =>
      p.(pc := if p.kind.IntKey? then Finish(locked, IntAnswer(data.count))
               else if data.vals == map[] then Finish(locked, SetAnswer({}))
               else Added(locked, data.vals.Keys))
    case Added(locked, ids) => p.(pc := Finish(locked, SetAnswer(ids)))
    case Release(ans) => p.(pc := Done(ans))
    case Done(_) => p
  }

  /** What the command of a reader's present point does to the keys. */
  function Command(s: State, pid: nat): State
    requires |s.writes| > 0 && pid in s.procs
  {
    var p := s.procs[pid];
    match p.pc
    case TryLock(_) => if p.kind in s.locks then s else s.(locks := s.locks[p.kind := pid])
    case Load(true) => s.(holderLoads := s.holderLoads[p.kind := HolderLoads(s, p.kind) + 1])
    case Loaded(_, data, ver, loadAt) =>
      var f := Fill(data, ver, loadAt, s.time);
      if p.kind.IntKey? then s.(cnt := Some(CntCell(data.count, f)))
      else if data.vals == map[] then s.(sent := Some(f))
      else s.(set_ := Some(Merge(s.set_, f)))
    case Added(_, _) => s.(sent := None)
    case Release(_) => s.(locks := s.locks - {p.kind})
    case _ => s
  }

  function ReaderStep(s: State, pid: nat): State
    requires |s.writes| > 0 && pid in s.procs
  {
    Command(s, pid).(procs := s.procs[pid := Proceed(s, s.procs[pid])])
  }

  function Effect(s: State, a: Action): State
    requires |s.writes| > 0 && Enabled(s, a)
  {
    match a
    case Commit(data) => s.(writes := s.writes + [Write(data, s.time, None, None)])
    case DelSet(i) =>
      s.(set_ := None, sent := None, writes := s.writes[i := s.writes[i].(setDel := Some(s.time))])
    case DelCnt(i) =>
      s.(cnt := None, writes := s.writes[i := s.writes[i].(cntDel := Some(s.time))])
    case ExpireSet => s.(set_ := None)
    case ExpireSentinel => s.(sent := None)
    case ExpireCount => s.(cnt := None)
    case ExpireLock(k) => s.(locks := s.locks - {k})
    case Begin(pid, k) => s.(procs := s.procs[pid := Proc(k, Check(First), 0, 0, |s.writes| - 1)])
    case Step(pid) => ReaderStep(s, pid)
    case Crash(pid) => s.(procs := s.procs - {pid})
  }

  function Next(s: State, a: Action): State
    requires |s.writes| > 0 && Enabled(s, a)
  {
    var t := Effect(s, a);
    t.(time := s.time + 1,
       holderLoads := map k | k in t.holderLoads && (Entry(s, k) ==> Entry(t, k)) :: t.holderLoads[k])
  }

  function Try(s: State, a: Action): Option<State> {
    if |s.writes| > 0 && Enabled(s, a) then Some(Next(s, a)) else None
  }

  ghost predicate IsRun(s: State, run: seq<Action>) { Runs.IsRun(Try, s, run) }

  ghost function Final(s: State, run: seq<Action>): State
    requires IsRun(s, run)
  {
    Runs.Final(Try, s, run)
  }

  /** Some run from a cold cache ends in s. */
  ghost predicate Reachable(s: State) {
    |s.writes| > 0 && exists data, run :: IsRun(Start(data), run) && Final(Start(data), run) == s
  }

  lemma StartReachable(data: Version)
    ensures Reachable(Start(data))
  {
    assert IsRun(Start(data), []) && Final(Start(data), []) == Start(data);
  }

  lemma NextWrites(s: State, a: Action)
    requires |s.writes| > 0 && Enabled(s, a)
    ensures |Next(s, a).writes| > 0
  {
    hide Entry, HolderLoads, Merge, Proceed;
  }

  lemma NextReachable(s: State, a: Action)
    requires Reachable(s) && Enabled(s, a)
    ensures Reachable(Next(s, a))
  {
    var data, run :| IsRun(Start(data), run) && Final(Start(data), run) == s;
    assert Try(s, a) == Some(Next(s, a));
    NextWrites(s, a);
    hide Next, Enabled;
    Runs.RunSnoc(Try, Start(data), run, a);
    assert Final(Start(data), run + [a]) == Next(s, a);
  }

  /** At any moment any entry or lock can expire, and any reader can vanish. */
  lemma Uncontrolled(s: State, k: Kind, pid: nat)
    requires |s.writes| > 0
    ensures Try(s, ExpireSet).Some? && Try(s, ExpireSet).value.set_.None?
    ensures Try(s, ExpireSentinel).Some? && Try(s, ExpireSentinel).value.sent.None?
    ensures Try(s, ExpireCount).Some? && Try(s, ExpireCount).value.cnt.None?
    ensures Try(s, ExpireLock(k)).Some? && k !in Try(s, ExpireLock(k)).value.locks
    ensures pid in s.procs ==> Try(s, Crash(pid)).Some? && pid !in Try(s, Crash(pid)).value.procs
  {
    hide Entry, HolderLoads;
  }

  // ---------- what every step keeps ----------

  function DelOf(w: Write, k: Kind): Option<nat> {
    if k.SetKey? then w.setDel else w.cntDel
  }

  /** Every committed write has run its DEL for keys of this kind. */
  ghost predicate Quiet(s: State, k: Kind) {
    forall i :: 0 <= i < |s.writes| ==> DelOf(s.writes[i], k).Some?
  }

  /** The fill loaded before a write committed, and filled after that write's DEL. */
  predicate Passed(w: Write, k: Kind, f: Fill) {
    f.loadAt < w.at && DelOf(w, k).Some? && DelOf(w, k).value < f.fillAt
  }

  ghost predicate Overtook(s: State, k: Kind, f: Fill) {
    exists i :: 0 <= i < |s.writes| && Passed(s.writes[i], k, f)
  }

  ghost predicate WritesInv(s: State) {
    && |s.writes| > 0
    && (forall i :: 0 <= i < |s.writes| ==> s.writes[i].at < s.time)
    && (forall i, k :: 0 <= i < |s.writes| && DelOf(s.writes[i], k).Some? ==> DelOf(s.writes[i], k).value < s.time)
    && (forall i, j :: 0 <= i < j < |s.writes| ==> s.writes[i].at < s.writes[j].at)
  }

  /** A load of data at time t saw exactly the writes up to ver. */
  ghost predicate Saw(s: State, data: Version, ver: nat, t: nat) {
    && ver < |s.writes| && t < s.time && data == s.writes[ver].data
    && (forall i :: 0 <= i <= ver ==> s.writes[i].at <= t)
    && (forall i :: ver < i < |s.writes| ==> t < s.writes[i].at)
  }

  ghost predicate FillInv(s: State, k: Kind, f: Fill) {
    && Saw(s, f.data, f.ver, f.loadAt)
    && (Overtook(s, k, f) || forall i :: f.ver < i < |s.writes| ==> DelOf(s.writes[i], k).None?)
  }

  ghost predicate Contributor(s: State, c: SetCell, f: Fill) {
    FillInv(s, SetKey, f) && f.data.vals.Keys <= c.members.Keys
  }

  /** Some fill brought x with its present score. */
  ghost predicate Contributed(c: SetCell, x: nat)
    requires x in c.members
  {
    exists f :: f in c.fills && x in f.data.vals && f.data.vals[x] == c.members[x]
  }

  ghost predicate SetInv(s: State, c: SetCell) {
    && c.fills != {} && c.members != map[]
    && (forall f :: f in c.fills ==> Contributor(s, c, f))
    && (forall x {:trigger Contributed(c, x)} :: x in c.members ==> Contributed(c, x))
  }

  ghost predicate ProcInv(s: State, p: Proc) {
    p.pc.Loaded? ==> Saw(s, p.pc.data, p.pc.ver, p.pc.loadAt)
  }

  ghost predicate CacheInv(s: State) {
    && WritesInv(s)
    && (s.set_.Some? ==> SetInv(s, s.set_.value))
    && (s.sent.Some? ==> FillInv(s, SetKey, s.sent.value) && s.sent.value.data.vals == map[])
    && (s.cnt.Some? ==> FillInv(s, IntKey, s.cnt.value.fill) && s.cnt.value.n == s.cnt.value.fill.data.count)
    && (forall p :: p in s.procs ==> ProcInv(s, s.procs[p]))
  }

  // Later states have the same writes or more, with the same contents and times, and more DELs.
  ghost predicate Later(s: State, t: State) {
    && s.time <= t.time && |s.writes| <= |t.writes|
    && (forall i :: 0 <= i < |s.writes| ==>
          && t.writes[i].data == s.writes[i].data && t.writes[i].at == s.writes[i].at
          && (forall k :: DelOf(s.writes[i], k).Some? ==> DelOf(t.writes[i], k) == DelOf(s.writes[i], k)))
    && (forall i :: |s.writes| <= i < |t.writes| ==> s.time <= t.writes[i].at)
  }

  lemma SawLater(s: State, t: State, data: Version, ver: nat, at: nat)
    requires Later(s, t) && Saw(s, data, ver, at)
    ensures Saw(t, data, ver, at)
  {
  }

  lemma OvertookLater(s: State, t: State, k: Kind, f: Fill)
    requires Later(s, t) && Overtook(s, k, f)
    ensures Overtook(t, k, f)
  {
    var i :| 0 <= i < |s.writes| && Passed(s.writes[i], k, f);
    assert Passed(t.writes[i], k, f);
  }

  // The step from s to t runs no DEL of this kind.
  ghost predicate SameDels(s: State, t: State, k: Kind) {
    forall i :: 0 <= i < |t.writes| && (i >= |s.writes| || DelOf(s.writes[i], k).None?) ==> DelOf(t.writes[i], k).None?
  }

  /** A fill survives every step that runs no DEL of its own kind. */
  lemma FillLater(s: State, t: State, k: Kind, f: Fill)
    requires Later(s, t) && SameDels(s, t, k) && FillInv(s, k, f)
    ensures FillInv(t, k, f)
  {
    SawLater(s, t, f.data, f.ver, f.loadAt);
    if Overtook(s, k, f) {
      OvertookLater(s, t, k, f);
    }
  }

  /** A fill made now is overtaken already, or every write after its load still owes its DEL. */
  lemma NewFill(s: State, t: State, k: Kind, f: Fill)
    requires WritesInv(s) && Saw(s, f.data, f.ver, f.loadAt) && f.fillAt == s.time
    requires t.writes == s.writes && t.time == s.time + 1
    ensures FillInv(t, k, f)
  {
    if i :| f.ver < i < |s.writes| && DelOf(s.writes[i], k).Some? {
      assert Passed(t.writes[i], k, f);
    }
  }

  lemma {:induction false} SetLater(s: State, t: State, c: SetCell)
    requires Later(s, t) && SameDels(s, t, SetKey) && SetInv(s, c)
    ensures SetInv(t, c)
  {
    forall f | f in c.fills ensures Contributor(t, c, f) {
      assert Contributor(s, c, f);
      FillLater(s, t, SetKey, f);
    }
  }

  lemma ProcsLater(s: State, t: State, procs: map<nat, Proc>)
    requires Later(s, t)
    requires forall p :: p in procs ==> ProcInv(s, procs[p])
    ensures forall p :: p in procs ==> ProcInv(t, procs[p])
  {
    forall p | p in procs ensures ProcInv(t, procs[p]) {
      assert ProcInv(s, procs[p]);
    }
  }

  /** Time passes, entries may go, and each key whose entry stays had no DEL. */
  lemma {:induction false} FrameKeeps(s: State, t: State)
    requires CacheInv(s) && Later(s, t) && WritesInv(t)
    requires t.set_ == s.set_ || t.set_.None?
    requires t.sent == s.sent || t.sent.None?
    requires t.cnt == s.cnt || t.cnt.None?
    requires t.set_.Some? || t.sent.Some? ==> SameDels(s, t, SetKey)
    requires t.cnt.Some? ==> SameDels(s, t, IntKey)
    requires forall p :: p in t.procs ==> (p in s.procs && s.procs[p] == t.procs[p]) || ProcInv(t, t.procs[p])
    ensures CacheInv(t)
  {
    hide FillInv, SetInv, Saw, WritesInv, SameDels;
    if t.set_.Some? { SetLater(s, t, t.set_.value); }
    if t.sent.Some? { FillLater(s, t, SetKey, t.sent.value); }
    if t.cnt.Some? { FillLater(s, t, IntKey, t.cnt.value.fill); }
    ProcsLater(s, t, s.procs);
  }

  lemma MergedContributor(t: State, c: SetCell, f: Fill, g: Fill)
    requires Contributor(t, c, g)
    ensures Contributor(t, Merge(Some(c), f), g)
  {
    hide FillInv;
    var m := Merge(Some(c), f);
    assert m.members.Keys == c.members.Keys + f.data.vals.Keys;
  }

  lemma MergedContributed(c: SetCell, f: Fill, x: nat)
    requires x in c.members && x !in f.data.vals && Contributed(c, x)
    ensures x in Merge(Some(c), f).members && Contributed(Merge(Some(c), f), x)
  {
    var m := Merge(Some(c), f);
    var g :| g in c.fills && x in g.data.vals && g.data.vals[x] == c.members[x];
    assert g in m.fills;
  }

  lemma MergeParts(c: Option<SetCell>, f: Fill)
    ensures var m := Merge(c, f);
      && m.fills == (if c.Some? then c.value.fills else {}) + {f}
      && m.members.Keys == (if c.Some? then c.value.members.Keys else {}) + f.data.vals.Keys
      && forall x :: x in f.data.vals ==> m.members[x] == f.data.vals[x]
  {
  }

  lemma MergeContributed(c: Option<SetCell>, f: Fill)
    requires c.Some? ==> forall x {:trigger Contributed(c.value, x)} :: x in c.value.members ==> Contributed(c.value, x)
    ensures forall x :: x in Merge(c, f).members ==> Contributed(Merge(c, f), x)
  {
    var m := Merge(c, f);
    MergeParts(c, f);
    hide Merge;
    forall x | x in m.members ensures Contributed(m, x) {
      if x in f.data.vals {
        assert f in m.fills;
      } else {
        MergedContributed(c.value, f, x);
      }
    }
  }

  lemma {:induction false} MergeKeeps(s: State, t: State, c: Option<SetCell>, f: Fill)
    requires Later(s, t) && SameDels(s, t, SetKey) && FillInv(t, SetKey, f) && f.data.vals != map[]
    requires c.Some? ==> SetInv(s, c.value)
    ensures SetInv(t, Merge(c, f))
  {
    hide FillInv, Later, SameDels, Contributed, Merge;
    var m := Merge(c, f);
    MergeParts(c, f);
    MergeContributed(c, f);
    assert Contributor(t, m, f);
    if c.Some? { SetLater(s, t, c.value); }
    hide Contributor;
    forall g | g in m.fills ensures Contributor(t, m, g) {
      if g != f { MergedContributor(t, c.value, f, g); }
    }
  }

  /** A step that leaves writes and DELs alone is later, and touches no fill. */
  lemma SameWrites(s: State, t: State)
    requires WritesInv(s) && t.writes == s.writes && t.time == s.time + 1
    ensures Later(s, t) && WritesInv(t) && SameDels(s, t, SetKey) && SameDels(s, t, IntKey)
  {
  }

  lemma LoadKeeps(s: State, pid: nat)
    requires CacheInv(s) && pid in s.procs && s.procs[pid].pc.Load?
    ensures CacheInv(Next(s, Step(pid)))
  {
    hide FillInv, SetInv, Entry, HolderLoads;
    var t := Next(s, Step(pid));
    SameWrites(s, t);
    assert Saw(t, Table(s), |s.writes| - 1, s.time);
    FrameKeeps(s, t);
  }

  lemma FillStepKeeps(s: State, pid: nat)
    requires CacheInv(s) && pid in s.procs && s.procs[pid].pc.Loaded?
    ensures CacheInv(Next(s, Step(pid)))
  {
    hide FillInv, SetInv, Entry, HolderLoads, Saw, Later, SameDels, Merge;
    var t := Next(s, Step(pid));
    var p := s.procs[pid];
    assert ProcInv(s, p);
    var f := Fill(p.pc.data, p.pc.ver, p.pc.loadAt, s.time);
    SameWrites(s, t);
    NewFill(s, t, p.kind, f);
    if p.kind.SetKey? && f.data.vals != map[] {
      MergeKeeps(s, t, s.set_, f);
    } else if s.set_.Some? {
      SetLater(s, t, s.set_.value);
    }
    if s.sent.Some? { FillLater(s, t, SetKey, s.sent.value); }
    if s.cnt.Some? { FillLater(s, t, IntKey, s.cnt.value.fill); }
    ProcsLater(s, t, s.procs);
  }

  lemma PauseFrame(s: State, pid: nat)
    requires |s.writes| > 0 && Enabled(s, Step(pid)) && !s.procs[pid].pc.Load? && !s.procs[pid].pc.Loaded?
    ensures var t := ReaderStep(s, pid);
      && t.writes == s.writes && t.time == s.time && t.set_ == s.set_ && t.cnt == s.cnt
      && (t.sent == s.sent || t.sent.None?)
      && pid in t.procs && t.procs == s.procs[pid := t.procs[pid]] && !t.procs[pid].pc.Loaded?
  {
    hide Entry, Merge;
  }

  lemma OtherStepKeeps(s: State, pid: nat)
    requires CacheInv(s) && Enabled(s, Step(pid)) && !s.procs[pid].pc.Load? && !s.procs[pid].pc.Loaded?
    ensures CacheInv(Next(s, Step(pid)))
  {
    hide FillInv, SetInv, Entry, HolderLoads, Saw, Later, SameDels, ReaderStep;
    var t := Next(s, Step(pid));
    PauseFrame(s, pid);
    SameWrites(s, t);
    FrameKeeps(s, t);
  }

  lemma CommitLater(s: State, data: Version)
    requires WritesInv(s)
    ensures var t := Next(s, Commit(data));
      Later(s, t) && WritesInv(t) && SameDels(s, t, SetKey) && SameDels(s, t, IntKey)
  {
    hide Entry, HolderLoads;
  }

  lemma DelLater(s: State, a: Action)
    requires WritesInv(s) && Enabled(s, a) && (a.DelSet? || a.DelCnt?)
    ensures var t := Next(s, a);
      Later(s, t) && WritesInv(t) && (a.DelSet? ==> SameDels(s, t, IntKey)) && (a.DelCnt? ==> SameDels(s, t, SetKey))
  {
    hide Entry, HolderLoads;
  }

  lemma CommandWrites(s: State, pid: nat)
    requires |s.writes| > 0 && pid in s.procs
    ensures Command(s, pid).writes == s.writes && Command(s, pid).time == s.time
  {
    hide HolderLoads, Merge;
  }

  lemma OtherLater(s: State, a: Action)
    requires WritesInv(s) && Enabled(s, a) && !a.Commit? && !a.DelSet? && !a.DelCnt?
    ensures var t := Next(s, a);
      t.writes == s.writes && Later(s, t) && WritesInv(t) && SameDels(s, t, SetKey) && SameDels(s, t, IntKey)
  {
    hide Entry, HolderLoads, Command, Proceed;
    if a.Step? { CommandWrites(s, a.pid); }
    SameWrites(s, Next(s, a));
  }

  lemma StepLater(s: State, a: Action)
    requires WritesInv(s) && Enabled(s, a)
    ensures Later(s, Next(s, a)) && WritesInv(Next(s, a))
    ensures a.Step? ==> Next(s, a).writes == s.writes
  {
    hide Next, WritesInv, Later;
    match a
    case Commit(data) => CommitLater(s, data);
    case DelSet(_) => DelLater(s, a);
    case DelCnt(_) => DelLater(s, a);
    case _ => OtherLater(s, a);
  }

  lemma CommitKeeps(s: State, data: Version)
    requires CacheInv(s)
    ensures CacheInv(Next(s, Commit(data)))
  {
    CommitLater(s, data);
    hide FillInv, SetInv, Saw, Entry, HolderLoads, Later, WritesInv, SameDels;
    FrameKeeps(s, Next(s, Commit(data)));
  }

  lemma DelKeeps(s: State, a: Action)
    requires CacheInv(s) && Enabled(s, a) && (a.DelSet? || a.DelCnt?)
    ensures CacheInv(Next(s, a))
  {
    DelLater(s, a);
    hide FillInv, SetInv, Saw, Entry, HolderLoads, Later, WritesInv, SameDels;
    FrameKeeps(s, Next(s, a));
  }

  lemma OutsideKeeps(s: State, a: Action)
    requires CacheInv(s) && Enabled(s, a) && !a.Step? && !a.Commit? && !a.DelSet? && !a.DelCnt?
    ensures CacheInv(Next(s, a))
  {
    OtherLater(s, a);
    hide FillInv, SetInv, Saw, Entry, HolderLoads, Later, WritesInv, SameDels;
    FrameKeeps(s, Next(s, a));
  }

  /** Every step keeps the invariant. */
  lemma NextKeeps(s: State, a: Action)
    requires CacheInv(s) && Enabled(s, a)
    ensures CacheInv(Next(s, a))
  {
    if a.Step? {
      if s.procs[a.pid].pc.Load? {
        LoadKeeps(s, a.pid);
      } else if s.procs[a.pid].pc.Loaded? {
        FillStepKeeps(s, a.pid);
      } else {
        OtherStepKeeps(s, a.pid);
      }
    } else if a.Commit? {
      CommitKeeps(s, a.data);
    } else if a.DelSet? || a.DelCnt? {
      DelKeeps(s, a);
    } else {
      OutsideKeeps(s, a);
    }
  }

  lemma RunKeeps(s: State, run: seq<Action>)
    requires CacheInv(s) && IsRun(s, run)
    ensures CacheInv(Final(s, run))
  {
    var inv := (t: State) => CacheInv(t);
    forall t, a | inv(t) && Try(t, a).Some? ensures inv(Try(t, a).value) {
      NextKeeps(t, a);
    }
    Runs.RunKeeps(Try, inv, s, run);
  }

  // ---------- coherence in every reachable state ----------

  lemma ReachableInv(s: State)
    requires Reachable(s)
    ensures CacheInv(s)
  {
    var data, run :| IsRun(Start(data), run) && Final(Start(data), run) == s;
    RunKeeps(Start(data), run);
  }

  /** With no DEL of its kind outstanding, a fill shows the current table's version exactly when it overtook no DEL. */
  lemma FillVersion(s: State, k: Kind, f: Fill)
    requires WritesInv(s) && FillInv(s, k, f) && Quiet(s, k)
    ensures f.data == s.writes[f.ver].data
    ensures Overtook(s, k, f) <==> f.ver != |s.writes| - 1
  {
    if Overtook(s, k, f) {
      var i :| 0 <= i < |s.writes| && Passed(s.writes[i], k, f);
      assert i > f.ver;
    } else {
      assert DelOf(s.writes[|s.writes| - 1], k).Some?;
    }
  }

  /** x is in the version that f loaded, with this score. */
  predicate Brought(writes: seq<Write>, f: Fill, x: nat, score: int) {
    f.ver < |writes| && x in writes[f.ver].data.vals && writes[f.ver].data.vals[x] == score
  }

  lemma {:induction false} SetUnion(s: State, c: SetCell)
    requires WritesInv(s) && SetInv(s, c) && Quiet(s, SetKey)
    ensures forall f :: f in c.fills ==> f.ver < |s.writes| && (Overtook(s, SetKey, f) <==> f.ver != |s.writes| - 1)
    ensures forall f :: f in c.fills ==> f.ver < |s.writes| && s.writes[f.ver].data.vals.Keys <= c.members.Keys
    ensures forall x :: x in c.members ==> exists f :: f in c.fills && Brought(s.writes, f, x, c.members[x])
    ensures c.members != Table(s).vals ==> exists f :: f in c.fills && Overtook(s, SetKey, f)
  {
    hide Contributed;
    forall f | f in c.fills
      ensures f.data.vals.Keys <= c.members.Keys && f.ver < |s.writes| && f.data == s.writes[f.ver].data
      ensures Overtook(s, SetKey, f) <==> f.ver != |s.writes| - 1
    {
      assert Contributor(s, c, f);
      FillVersion(s, SetKey, f);
    }
    if forall f :: f in c.fills ==> !Overtook(s, SetKey, f) {
      CurrentOnly(c, Table(s));
    }
    Union(s.writes, c);
  }

  lemma Union(writes: seq<Write>, c: SetCell)
    requires forall f :: f in c.fills ==> f.ver < |writes| && f.data == writes[f.ver].data
    requires forall x {:trigger Contributed(c, x)} :: x in c.members ==> Contributed(c, x)
    ensures forall x :: x in c.members ==> exists f :: f in c.fills && Brought(writes, f, x, c.members[x])
  {
    forall x | x in c.members ensures exists f :: f in c.fills && Brought(writes, f, x, c.members[x]) {
      assert Contributed(c, x);
      var f :| f in c.fills && x in f.data.vals && f.data.vals[x] == c.members[x];
      assert Brought(writes, f, x, c.members[x]);
    }
  }

  lemma CurrentOnly(c: SetCell, table: Version)
    requires c.fills != {} && forall f :: f in c.fills ==> f.data == table && f.data.vals.Keys <= c.members.Keys
    requires forall x {:trigger Contributed(c, x)} :: x in c.members ==> Contributed(c, x)
    ensures c.members == table.vals
  {
    var g :| g in c.fills;
    assert table.vals.Keys <= c.members.Keys;
    forall x | x in c.members ensures x in table.vals && table.vals[x] == c.members[x] {
      assert Contributed(c, x);
    }
  }

  /**
   In every interleaving: once no DEL is outstanding, the cached ids are the union of the table versions
   that its fills loaded, each with the score that one of them gave it, and each of those versions is the
   current one unless that fill overtook a DEL.
   */
  lemma SetCoherence(s: State)
    requires Reachable(s) && Quiet(s, SetKey) && s.set_.Some?
    ensures var c := s.set_.value;
      && (forall f :: f in c.fills ==> f.ver < |s.writes| && (Overtook(s, SetKey, f) <==> f.ver != |s.writes| - 1))
      && (forall f :: f in c.fills ==> f.ver < |s.writes| && s.writes[f.ver].data.vals.Keys <= c.members.Keys)
      && (forall x :: x in c.members ==> exists f :: f in c.fills && Brought(s.writes, f, x, c.members[x]))
      && (c.members != Table(s).vals ==> exists f :: f in c.fills && Overtook(s, SetKey, f))
  {
    ReachableInv(s);
    SetUnion(s, s.set_.value);
  }

  /** A sentinel with no DEL outstanding stands for an empty table, or it overtook a DEL. */
  lemma SentinelCoherence(s: State)
    requires Reachable(s) && Quiet(s, SetKey) && s.sent.Some?
    ensures s.sent.value.ver < |s.writes| && s.writes[s.sent.value.ver].data.vals == map[]
    ensures Overtook(s, SetKey, s.sent.value) <==> s.sent.value.ver != |s.writes| - 1
    ensures Table(s).vals != map[] ==> Overtook(s, SetKey, s.sent.value)
  {
    ReachableInv(s);
    hide Reachable, SetInv, ProcInv, FillInv, WritesInv, Overtook, Quiet;
    FillVersion(s, SetKey, s.sent.value);
  }

  /** The same for the count: SET overwrites, so exactly one version shows. */
  lemma CountCoherence(s: State)
    requires Reachable(s) && Quiet(s, IntKey) && s.cnt.Some?
    ensures var f := s.cnt.value.fill;
      && f.ver < |s.writes| && s.cnt.value.n == s.writes[f.ver].data.count
      && (Overtook(s, IntKey, f) <==> f.ver != |s.writes| - 1)
      && (s.cnt.value.n != Table(s).count ==> Overtook(s, IntKey, f))
  {
    ReachableInv(s);
    hide Reachable, SetInv, ProcInv, FillInv, WritesInv, Overtook, Quiet;
    FillVersion(s, IntKey, s.cnt.value.fill);
  }

  /** No fill in the cached set or sentinel overtook a DEL. */
  ghost predicate NoOvertake(s: State) {
    && (s.set_.Some? ==> forall f :: f in s.set_.value.fills ==> !Overtook(s, SetKey, f))
    && (s.sent.Some? ==> !Overtook(s, SetKey, s.sent.value))
  }

  /**
   The second half of a read: EXISTS found an entry after SMEMBERS found none, and the reader answers
   the empty set.  Even with a coherent cache that is right only while the set itself is still absent.
   */
  lemma ExistsHit(s: State)
    requires Reachable(s) && Quiet(s, SetKey) && NoOvertake(s) && Entry(s, SetKey)
    ensures Table(s).vals == map[] <==> s.set_.None?
  {
    if s.set_.Some? {
      ReachableInv(s);
      SetCoherence(s);
    } else {
      SentinelCoherence(s);
    }
  }
}
