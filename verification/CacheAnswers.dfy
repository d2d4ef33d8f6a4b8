/** What readers are told, in every interleaving of readers, writers and expiry. */
module CacheAnswers {
  import opened Wrappers
  import opened CacheSteps
  import Runs

  function AnswerOf(k: Kind, data: Version): Answer {
    if k.IntKey? then IntAnswer(data.count) else SetAnswer(data.vals.Keys)
  }

  /** The answer is a version of the table that was current at some moment of the call. */
  ghost predicate Exact(s: State, p: Proc, ans: Answer) {
    exists v :: p.began <= v < |s.writes| && ans == AnswerOf(p.kind, s.writes[v].data)
  }

  /** Some version from this one on held x. */
  ghost predicate HeldSince(s: State, from: nat, x: nat) {
    exists v :: from <= v < |s.writes| && x in s.writes[v].data.vals
  }

  /** A count is that of some version from this one on, and each id of a set was in one. */
  ghost predicate DrawnSince(s: State, from: nat, ans: Answer) {
    match ans
    case IntAnswer(n) => exists v :: from <= v < |s.writes| && n == s.writes[v].data.count
    case SetAnswer(ids) => forall x :: x in ids ==> HeldSince(s, from, x)
  }

  ghost predicate Told(s: State, p: Proc, ans: Answer) {
    if p.loads == 1 then Exact(s, p, ans) else p.loads == 0 && DrawnSince(s, 0, ans)
  }

  ghost predicate AnswerInv(s: State, p: Proc) {
    && p.began < |s.writes|
    && match p.pc
       case Loaded(_, data, ver, _) => p.loads == 1 && p.began <= ver < |s.writes| && data == s.writes[ver].data
       case Added(_, ids) => p.loads == 1 && p.kind.SetKey? && Exact(s, p, SetAnswer(ids))
       case Release(ans) => Told(s, p, ans)
       case Done(ans) => Told(s, p, ans)
       case Check2(_) => p.loads == 0 && p.kind.SetKey?
       case _ => p.loads == 0
  }

  ghost predicate AnswersInv(s: State) {
    forall p :: p in s.procs ==> AnswerInv(s, s.procs[p])
  }


  lemma AnswerLater(s: State, t: State, p: Proc)
    requires Later(s, t) && AnswerInv(s, p)
    ensures AnswerInv(t, p)
  {
  }

  /** What the cache holds was loaded from some version. */
  lemma CacheDrawn(s: State)
    requires CacheInv(s)
    ensures s.set_.Some? ==> DrawnSince(s, 0, SetAnswer(s.set_.value.members.Keys))
    ensures s.cnt.Some? ==> DrawnSince(s, 0, IntAnswer(s.cnt.value.n))
  {
    if s.set_.Some? {
      forall x | x in s.set_.value.members.Keys ensures HeldSince(s, 0, x) {
        assert Contributed(s.set_.value, x);
      }
    }
  }

  lemma LoadAnswers(s: State, p: Proc)
    requires AnswerInv(s, p) && p.pc.Load?
    ensures AnswerInv(s, Proceed(s, p))
  {
  }

  lemma LoadedAnswers(s: State, p: Proc)
    requires AnswerInv(s, p) && p.pc.Loaded?
    ensures AnswerInv(s, Proceed(s, p))
  {
  }

  lemma NamedAlike(s: State, p: Proc)
    ensures forall pc, ans :: Exact(s, p.(pc := pc), ans) == Exact(s, p, ans)
  {
  }

  lemma CheckAnswers(s: State, p: Proc)
    requires CacheInv(s) && AnswerInv(s, p) && (p.pc.Check? || p.pc.Check2?)
    ensures AnswerInv(s, Proceed(s, p))
  {
    CacheDrawn(s);
    assert DrawnSince(s, 0, SetAnswer({}));
    hide CacheInv, Entry, Exact, DrawnSince, SetInv, FillInv, WritesInv;
    Checked(s, p);
  }

  lemma Checked(s: State, p: Proc)
    requires |s.writes| > 0 && AnswerInv(s, p) && (p.pc.Check? || p.pc.Check2?) && DrawnSince(s, 0, SetAnswer({}))
    requires s.set_.Some? ==> DrawnSince(s, 0, SetAnswer(s.set_.value.members.Keys))
    requires s.cnt.Some? ==> DrawnSince(s, 0, IntAnswer(s.cnt.value.n))
    ensures AnswerInv(s, Proceed(s, p))
  {
    hide Entry, Exact, DrawnSince;
  }

  lemma ProceedAnswers(s: State, p: Proc)
    requires CacheInv(s) && AnswerInv(s, p)
    ensures AnswerInv(s, Proceed(s, p))
  {
    if p.pc.Load? {
      LoadAnswers(s, p);
    } else if p.pc.Loaded? {
      LoadedAnswers(s, p);
    } else if p.pc.Check? || p.pc.Check2? {
      CheckAnswers(s, p);
    } else {
      NamedAlike(s, p);
      hide CacheInv, Entry, Exact, DrawnSince;
    }
  }

  lemma AnswersNext(s: State, a: Action)
    requires CacheInv(s) && Enabled(s, a) && AnswersInv(s)
    ensures AnswersInv(Next(s, a))
  {
    var t := Next(s, a);
    StepLater(s, a);
    if a.Step? {
      ProceedAnswers(s, s.procs[a.pid]);
      AnswerLater(s, t, Proceed(s, s.procs[a.pid]));
    }
    hide CacheInv, Entry, Command, Proceed, AnswerInv, Later;
    forall p | p in t.procs ensures AnswerInv(t, t.procs[p]) {
      if p in s.procs && t.procs[p] == s.procs[p] {
        AnswerLater(s, t, s.procs[p]);
      } else if a.Begin? {
        NewCall(t, t.procs[p]);
      }
    }
  }

  lemma NewCall(t: State, p: Proc)
    requires p.pc == Check(First) && p.loads == 0 && p.began < |t.writes|
    ensures AnswerInv(t, p)
  {
  }

  lemma ReachableAnswers(s: State)
    requires Reachable(s)
    ensures CacheInv(s) && AnswersInv(s)
  {
    var data, run :| IsRun(Start(data), run) && Final(Start(data), run) == s;
    var inv := (t: State) => CacheInv(t) && AnswersInv(t);
    forall t, a | inv(t) && Try(t, a).Some? ensures inv(Try(t, a).value) {
      NextKeeps(t, a);
      AnswersNext(t, a);
    }
    Runs.RunKeeps(Try, inv, Start(data), run);
  }

  /**
   In every interleaving a call that queried the table answers with a version that was current at some
   moment of the call, never an older one; and a call that was answered from the cache names a count of
   some version, or ids each of which some version held.
   */
  lemma Answers(s: State, pid: nat)
    requires Reachable(s) && pid in s.procs && s.procs[pid].pc.Done?
    ensures var p := s.procs[pid];
      if p.loads == 1 then Exact(s, p, p.pc.ans) else p.loads == 0 && DrawnSince(s, 0, p.pc.ans)
  {
    ReachableAnswers(s);
    assert AnswerInv(s, s.procs[pid]);
  }

  // ---------- where an answer comes from ----------

  /** What the reader's next command finds, if it finds an entry. */
  ghost predicate Finds(s: State, p: Proc, ans: Answer) {
    match p.pc
    case Check(_) =>
      if p.kind.IntKey? then s.cnt.Some? && ans == IntAnswer(s.cnt.value.n)
      else s.set_.Some? && ans == SetAnswer(s.set_.value.members.Keys)
    case Check2(_) => p.kind.SetKey? && (s.set_.Some? || s.sent.Some?) && ans == SetAnswer({})
    case _ => false
  }

  /** The j-th step of the run is this reader's, and finds an entry that shows ans. */
  ghost predicate FoundAt(s: State, run: seq<Action>, j: nat, pid: nat, kind: Kind, ans: Answer) {
    && j < |run| && run[j] == Step(pid) && IsRun(s, run[..j])
    && var t := Final(s, run[..j]); pid in t.procs && t.procs[pid].kind == kind && Finds(t, t.procs[pid], ans)
  }

  ghost predicate Answered(s: State, pid: nat, kind: Kind, ans: Answer) {
    && pid in s.procs && s.procs[pid].kind == kind && s.procs[pid].loads == 0
    && (s.procs[pid].pc == Release(ans) || s.procs[pid].pc == Done(ans))
  }

  lemma AskedFound(s: State, p: Proc, ans: Answer)
    requires |s.writes| > 0 && AnswerInv(s, p) && p.pc != Release(ans) && p.pc != Done(ans)
    requires var q := Proceed(s, p); q.loads == 0 && (q.pc == Release(ans) || q.pc == Done(ans))
    ensures Finds(s, p, ans)
  {
    hide Exact, DrawnSince;
  }

  /** A reader is answered without a query only at a step that finds an entry. */
  lemma AnsweredFound(s: State, a: Action, pid: nat, kind: Kind, ans: Answer)
    requires |s.writes| > 0 && Enabled(s, a) && pid in s.procs && AnswerInv(s, s.procs[pid]) && a != Crash(pid)
    requires !Answered(s, pid, kind, ans) && Answered(Next(s, a), pid, kind, ans)
    ensures a == Step(pid) && s.procs[pid].kind == kind && Finds(s, s.procs[pid], ans)
  {
    hide Command, Proceed, Finds, AnswerInv;
    if a == Step(pid) {
      ProceedKind(s, s.procs[pid]);
      AskedFound(s, s.procs[pid], ans);
    }
  }

  lemma ProceedKind(s: State, p: Proc)
    requires |s.writes| > 0
    ensures Proceed(s, p).kind == p.kind && Proceed(s, p).began == p.began && p.loads <= Proceed(s, p).loads
    ensures p.pc.Release? || p.pc.Done? ==> Proceed(s, p) == p.(pc := Done(p.pc.ans))
  {
    hide Entry;
  }

  /** And a reader that finds one is answered with what it shows, for good. */
  lemma FoundAnswered(s: State, a: Action, pid: nat, kind: Kind, ans: Answer)
    requires |s.writes| > 0 && Enabled(s, a) && pid in s.procs && AnswerInv(s, s.procs[pid]) && a != Crash(pid)
    requires Answered(s, pid, kind, ans) ||
      (a == Step(pid) && s.procs[pid].kind == kind && Finds(s, s.procs[pid], ans))
    ensures Answered(Next(s, a), pid, kind, ans)
  {
    hide Command, Exact, DrawnSince;
    if a == Step(pid) {
      ProceedKind(s, s.procs[pid]);
    }
  }

  ghost predicate CallInv(s: State, pid: nat, kind: Kind, began: nat) {
    && CacheInv(s) && AnswersInv(s)
    && pid in s.procs && s.procs[pid].kind == kind && s.procs[pid].began == began
  }

  lemma CallNext(s: State, a: Action, pid: nat, kind: Kind, began: nat)
    requires CallInv(s, pid, kind, began) && Enabled(s, a) && a != Crash(pid)
    ensures CallInv(Next(s, a), pid, kind, began)
  {
    NextKeeps(s, a);
    AnswersNext(s, a);
    hide CacheInv, AnswersInv, Command, Proceed;
    if a == Step(pid) {
      ProceedKind(s, s.procs[pid]);
    }
  }

  lemma {:induction false} CallKeeps(s: State, run: seq<Action>, pid: nat, kind: Kind, began: nat)
    requires CallInv(s, pid, kind, began) && IsRun(s, run) && Crash(pid) !in run
    ensures CallInv(Final(s, run), pid, kind, began)
    decreases |run|
  {
    if run != [] {
      CallNext(s, run[0], pid, kind, began);
      hide CallInv, Next, Enabled;
      CallKeeps(Next(s, run[0]), run[1..], pid, kind, began);
    }
  }

  lemma {:induction false} AnsweredStays(s: State, run: seq<Action>, pid: nat, kind: Kind, ans: Answer, began: nat)
    requires CallInv(s, pid, kind, began) && IsRun(s, run) && Crash(pid) !in run && Answered(s, pid, kind, ans)
    ensures Answered(Final(s, run), pid, kind, ans)
    decreases |run|
  {
    if run != [] {
      CallNext(s, run[0], pid, kind, began);
      FoundAnswered(s, run[0], pid, kind, ans);
      hide CallInv, Next, Enabled, Answered;
      AnsweredStays(Next(s, run[0]), run[1..], pid, kind, ans, began);
    }
  }

  /** A call that was answered without a query found that answer at a step of its own. */
  lemma UnqueriedFound(s: State, kind: Kind, pid: nat, run: seq<Action>, ans: Answer, began: nat)
    requires CallInv(s, pid, kind, began) && s.procs[pid].pc == Check(First)
    requires IsRun(s, run) && Crash(pid) !in run && Answered(Final(s, run), pid, kind, ans)
    ensures exists j :: FoundAt(s, run, j, pid, kind, ans)
  {
    var j := Runs.Became(Try, x => Answered(x, pid, kind, ans), s, run);
    CallKeeps(s, run[..j], pid, kind, began);
    var t := Final(s, run[..j]);
    assert run[j] in run && Try(t, run[j]).Some?;
    hide Answered, Next, Enabled;
    AnsweredFound(t, run[j], pid, kind, ans);
    assert FoundAt(s, run, j, pid, kind, ans);
  }

  /** And a call that finds an answer keeps it. */
  lemma FoundKept(s: State, kind: Kind, pid: nat, run: seq<Action>, j: nat, ans: Answer, began: nat)
    requires CallInv(s, pid, kind, began) && IsRun(s, run) && Crash(pid) !in run && FoundAt(s, run, j, pid, kind, ans)
    ensures Answered(Final(s, run), pid, kind, ans)
  {
    Runs.RunSplit(Try, s, run, j);
    CallKeeps(s, run[..j], pid, kind, began);
    var t, rest := Final(s, run[..j]), run[j..];
    assert rest[0] == run[j] && rest[1..] == run[j + 1..];
    assert Try(t, run[j]).Some?;
    CallNext(t, run[j], pid, kind, began);
    FoundAnswered(t, run[j], pid, kind, ans);
    AnsweredStays(Next(t, run[j]), rest[1..], pid, kind, ans, began);
  }

  /**
   In every interleaving, a call that ends without having queried the table was answered at a step of its own
   where an entry stood, with what that entry showed; and a call that found no entry at any step of its own
   queried once, and answers with a version that was current at some moment of the call.
   */
  lemma AnswerSource(s: State, kind: Kind, pid: nat, run: seq<Action>)
    requires Reachable(s) && Enabled(s, Begin(pid, kind))
    requires IsRun(Next(s, Begin(pid, kind)), run) && Crash(pid) !in run
    ensures var s0, t := Next(s, Begin(pid, kind)), Final(Next(s, Begin(pid, kind)), run);
      && pid in t.procs && t.procs[pid].kind == kind && t.procs[pid].loads <= 1
      && (t.procs[pid].pc.Done? ==>
            if t.procs[pid].loads == 0
            then exists j :: FoundAt(s0, run, j, pid, kind, t.procs[pid].pc.ans)
            else
              && (forall j, ans :: !FoundAt(s0, run, j, pid, kind, ans))
              && exists v ::
                |s.writes| - 1 <= v < |t.writes| && t.procs[pid].pc.ans == AnswerOf(kind, t.writes[v].data))
  {
    ReachableAnswers(s);
    NextKeeps(s, Begin(pid, kind));
    AnswersNext(s, Begin(pid, kind));
    var began := |s.writes| - 1;
    var s0 := Next(s, Begin(pid, kind));
    CallKeeps(s0, run, pid, kind, began);
    var t := Final(s0, run);
    assert AnswerInv(t, t.procs[pid]);
    if t.procs[pid].pc.Done? {
      if t.procs[pid].loads == 0 {
        UnqueriedFound(s0, kind, pid, run, t.procs[pid].pc.ans, began);
      } else {
        forall j, ans ensures !FoundAt(s0, run, j, pid, kind, ans) {
          if FoundAt(s0, run, j, pid, kind, ans) {
            FoundKept(s0, kind, pid, run, j, ans, began);
          }
        }
      }
    }
  }

  // ---------- what a query leaves in the cache ----------

  /** The step from u to v left what ans says, and no other key was touched. */
  ghost predicate Left(u: State, v: State, kind: Kind, ans: Answer) {
    match kind
    case IntKey => v.cnt.Some? && ans == IntAnswer(v.cnt.value.n) && v.set_ == u.set_ && v.sent == u.sent
    case SetKey =>
      && ans.SetAnswer? && v.cnt == u.cnt
      && (ans.s == {} ==> v.sent.Some? && v.set_ == u.set_)
      && (ans.s != {} ==> v.sent == u.sent && v.set_.Some? && v.set_.value.members.Keys == ans.s + Ids(u.set_))
  }

  function Ids(c: Option<SetCell>): set<nat> { if c.None? then {} else c.value.members.Keys }

  ghost predicate OwnStepAt(s: State, run: seq<Action>, j: nat, pid: nat) {
    j < |run| && run[j] == Step(pid) && IsRun(s, run[..j]) && Try(Final(s, run[..j]), Step(pid)).Some?
  }

  ghost predicate LeftAt(s: State, run: seq<Action>, j: nat, pid: nat, kind: Kind, ans: Answer) {
    && OwnStepAt(s, run, j, pid)
    && var u := Final(s, run[..j]); Left(u, Next(u, Step(pid)), kind, ans)
  }

  ghost predicate ClearedAt(s: State, run: seq<Action>, j: nat, pid: nat) {
    OwnStepAt(s, run, j, pid) && Next(Final(s, run[..j]), Step(pid)).sent.None?
  }

  /** The call has queried, and has filled the cache with what it will answer. */
  ghost predicate Filled(s: State, pid: nat, kind: Kind, ans: Answer) {
    && pid in s.procs && s.procs[pid].kind == kind && s.procs[pid].loads == 1
    && var pc := s.procs[pid].pc; (pc.Added? && ans == SetAnswer(pc.ids)) || pc == Release(ans) || pc == Done(ans)
  }

  ghost predicate Finished(s: State, pid: nat, kind: Kind, ans: Answer) {
    Filled(s, pid, kind, ans) && !s.procs[pid].pc.Added?
  }

  lemma BecameFilled(s: State, a: Action, pid: nat, kind: Kind, ans: Answer)
    requires |s.writes| > 0 && Enabled(s, a) && pid in s.procs && AnswerInv(s, s.procs[pid]) && a != Crash(pid)
    requires !Filled(s, pid, kind, ans) && Filled(Next(s, a), pid, kind, ans)
    ensures a == Step(pid) && Left(s, Next(s, a), kind, ans)
  {
    hide Exact, DrawnSince, Entry, HolderLoads;
  }

  lemma BecameFinished(s: State, a: Action, pid: nat, kind: Kind, ans: Answer)
    requires |s.writes| > 0 && Enabled(s, a) && pid in s.procs && AnswerInv(s, s.procs[pid]) && a != Crash(pid)
    requires !Finished(s, pid, kind, ans) && Finished(Next(s, a), pid, kind, ans)
    ensures a == Step(pid) && (kind.SetKey? && ans != SetAnswer({}) ==> Next(s, a).sent.None?)
  {
    hide Exact, DrawnSince, Entry, HolderLoads;
  }

  /**
   In every interleaving, a call that ends having queried the table left its answer in the cache at a step of its
   own: the count, or the ids beside those that were cached already, or the sentinel if there are none; and after
   a fill with ids it has seen the sentinel gone.
   */
  lemma QueryFills(s: State, kind: Kind, pid: nat, run: seq<Action>)
    requires Reachable(s) && Enabled(s, Begin(pid, kind))
    requires IsRun(Next(s, Begin(pid, kind)), run) && Crash(pid) !in run
    ensures var s0, t := Next(s, Begin(pid, kind)), Final(Next(s, Begin(pid, kind)), run);
      && pid in t.procs && t.procs[pid].kind == kind
      && (t.procs[pid].pc.Done? && t.procs[pid].loads == 1 ==>
            && (exists j :: LeftAt(s0, run, j, pid, kind, t.procs[pid].pc.ans))
            && (kind.SetKey? && t.procs[pid].pc.ans != SetAnswer({}) ==> exists j :: ClearedAt(s0, run, j, pid)))
  {
    ReachableAnswers(s);
    NextKeeps(s, Begin(pid, kind));
    AnswersNext(s, Begin(pid, kind));
    var began := |s.writes| - 1;
    var s0 := Next(s, Begin(pid, kind));
    CallKeeps(s0, run, pid, kind, began);
    var t := Final(s0, run);
    if t.procs[pid].pc.Done? && t.procs[pid].loads == 1 {
      var ans := t.procs[pid].pc.ans;
      FilledLeft(s0, kind, pid, run, ans, began);
      FinishedCleared(s0, kind, pid, run, ans, began);
    }
  }

  lemma FilledLeft(s: State, kind: Kind, pid: nat, run: seq<Action>, ans: Answer, began: nat)
    requires CallInv(s, pid, kind, began) && s.procs[pid].pc == Check(First)
    requires IsRun(s, run) && Crash(pid) !in run && Filled(Final(s, run), pid, kind, ans)
    ensures exists j :: LeftAt(s, run, j, pid, kind, ans)
  {
    var j := Runs.Became(Try, x => Filled(x, pid, kind, ans), s, run);
    CallKeeps(s, run[..j], pid, kind, began);
    var t := Final(s, run[..j]);
    assert run[j] in run && Try(t, run[j]).Some?;
    hide Filled, Next, Enabled, Left;
    BecameFilled(t, run[j], pid, kind, ans);
    assert LeftAt(s, run, j, pid, kind, ans);
  }

  lemma FinishedCleared(s: State, kind: Kind, pid: nat, run: seq<Action>, ans: Answer, began: nat)
    requires CallInv(s, pid, kind, began) && s.procs[pid].pc == Check(First)
    requires IsRun(s, run) && Crash(pid) !in run && Finished(Final(s, run), pid, kind, ans)
    ensures kind.SetKey? && ans != SetAnswer({}) ==> exists j :: ClearedAt(s, run, j, pid)
  {
    var j := Runs.Became(Try, x => Finished(x, pid, kind, ans), s, run);
    CallKeeps(s, run[..j], pid, kind, began);
    var t := Final(s, run[..j]);
    assert run[j] in run && Try(t, run[j]).Some?;
    hide Finished, Filled, Next, Enabled;
    BecameFinished(t, run[j], pid, kind, ans);
    if kind.SetKey? && ans != SetAnswer({}) {
      assert ClearedAt(s, run, j, pid);
    }
  }

  // ---------- how old an answer from the cache can be ----------

  /** Every write up to v has run its DEL. */
  ghost predicate Settled(s: State, k: Kind, v: nat) {
    v < |s.writes| && forall i :: 0 <= i <= v ==> DelOf(s.writes[i], k).Some?
  }

  /** The reader is about to find an entry, none of whose fills overtook a DEL, and its read is not torn. */
  ghost predicate FindsSound(s: State, p: Proc) {
    match p.pc
    case Check(_) =>
      if p.kind.IntKey? then s.cnt.Some? && !Overtook(s, IntKey, s.cnt.value.fill)
      else s.set_.Some? && forall f :: f in s.set_.value.fills ==> !Overtook(s, SetKey, f)
    case Check2(_) =>
      p.kind.SetKey? && s.set_.None? && s.sent.Some? && !Overtook(s, SetKey, s.sent.value)
    case _ => false
  }

  /** Versions from v on account for the answer: each id is in one of them, and one of them is all there. */
  ghost predicate Fresh(s: State, v: nat, ans: Answer) {
    && DrawnSince(s, v, ans)
    && (ans.SetAnswer? ==> exists w :: v <= w < |s.writes| && s.writes[w].data.vals.Keys <= ans.s)
  }

  lemma FreshFill(s: State, k: Kind, f: Fill, v: nat)
    requires FillInv(s, k, f) && !Overtook(s, k, f) && Settled(s, k, v)
    ensures v <= f.ver < |s.writes| && f.data == s.writes[f.ver].data
  {
    assert DelOf(s.writes[v], k).Some?;
  }

  lemma FreshFills(s: State, c: SetCell, v: nat)
    requires SetInv(s, c) && Settled(s, SetKey, v) && forall f :: f in c.fills ==> !Overtook(s, SetKey, f)
    ensures forall f :: f in c.fills ==>
      v <= f.ver < |s.writes| && f.data == s.writes[f.ver].data && f.data.vals.Keys <= c.members.Keys
  {
    hide Contributed, Overtook, Settled;
    forall f | f in c.fills
      ensures v <= f.ver < |s.writes| && f.data == s.writes[f.ver].data && f.data.vals.Keys <= c.members.Keys
    {
      assert Contributor(s, c, f);
      FreshFill(s, SetKey, f, v);
    }
  }

  lemma FreshMember(s: State, c: SetCell, v: nat, x: nat)
    requires forall f :: f in c.fills ==> v <= f.ver < |s.writes| && f.data == s.writes[f.ver].data
    requires x in c.members && Contributed(c, x)
    ensures HeldSince(s, v, x)
  {
  }

  lemma FreshWhole(s: State, c: SetCell, v: nat)
    requires c.fills != {} && forall f :: f in c.fills ==>
      v <= f.ver < |s.writes| && f.data == s.writes[f.ver].data && f.data.vals.Keys <= c.members.Keys
    ensures exists w :: v <= w < |s.writes| && s.writes[w].data.vals.Keys <= c.members.Keys
  {
    var g :| g in c.fills;
    assert s.writes[g.ver].data.vals.Keys <= c.members.Keys;
  }

  lemma FreshMembers(s: State, c: SetCell, v: nat)
    requires forall f :: f in c.fills ==> v <= f.ver < |s.writes| && f.data == s.writes[f.ver].data
    requires forall x {:trigger Contributed(c, x)} :: x in c.members ==> Contributed(c, x)
    ensures DrawnSince(s, v, SetAnswer(c.members.Keys))
  {
    hide Contributed, HeldSince;
    forall x | x in c.members.Keys ensures HeldSince(s, v, x) {
      FreshMember(s, c, v, x);
    }
  }

  lemma FreshSet(s: State, c: SetCell, v: nat)
    requires SetInv(s, c) && Settled(s, SetKey, v) && forall f :: f in c.fills ==> !Overtook(s, SetKey, f)
    ensures Fresh(s, v, SetAnswer(c.members.Keys))
  {
    hide Contributor, Contributed, Overtook, Settled, DrawnSince;
    FreshFills(s, c, v);
    FreshWhole(s, c, v);
    FreshMembers(s, c, v);
  }

  lemma FreshFound(s: State, p: Proc, v: nat)
    requires CacheInv(s) && Settled(s, p.kind, v) && FindsSound(s, p)
    ensures var pc := Proceed(s, p).pc; (pc.Done? || pc.Release?) && Fresh(s, v, pc.ans)
  {
    if p.pc.Check2? {
      FreshFill(s, SetKey, s.sent.value, v);
      assert s.writes[s.sent.value.ver].data.vals.Keys <= {};
    } else if p.kind.IntKey? {
      FreshFill(s, IntKey, s.cnt.value.fill, v);
    } else {
      hide SetInv, Settled, FillInv, Overtook, Fresh;
      FreshSet(s, s.set_.value, v);
    }
  }

  lemma SettledNext(s: State, a: Action, k: Kind, v: nat)
    requires CacheInv(s) && Enabled(s, a) && Settled(s, k, v)
    ensures CacheInv(Next(s, a)) && Settled(Next(s, a), k, v)
  {
    NextKeeps(s, a);
    StepLater(s, a);
    hide Next, CacheInv;
  }

  /**
   In every interleaving: a call that begins after the DELs of all writes up to v, and is answered from an
   entry into which no fill overtook a DEL, by a read that is not torn, answers with versions from v on.
   */
  lemma HitFresh(s: State, kind: Kind, pid: nat, v: nat, run: seq<Action>)
    requires Reachable(s) && Enabled(s, Begin(pid, kind)) && Settled(s, kind, v)
    requires IsRun(Next(s, Begin(pid, kind)), run)
    requires var t := Final(Next(s, Begin(pid, kind)), run);
      pid in t.procs && t.procs[pid].kind == kind && FindsSound(t, t.procs[pid])
    ensures var t := Final(Next(s, Begin(pid, kind)), run);
      && |t.writes| > 0
      && var pc := Proceed(t, t.procs[pid]).pc; (pc.Done? || pc.Release?) && Fresh(t, v, pc.ans)
  {
    ReachableInv(s);
    SettledNext(s, Begin(pid, kind), kind, v);
    var inv := (t: State) => CacheInv(t) && Settled(t, kind, v);
    forall t, a | inv(t) && Try(t, a).Some? ensures inv(Try(t, a).value) {
      SettledNext(t, a, kind, v);
    }
    Runs.RunKeeps(Try, inv, Next(s, Begin(pid, kind)), run);
    var t := Final(Next(s, Begin(pid, kind)), run);
    assert inv(t);
    FreshFound(t, t.procs[pid], v);
  }
}
