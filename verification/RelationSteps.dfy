/**
 Concurrent RelationAction calls: the existence query, the table statement and the cache deletion of a call
 are separate steps, and calls interleave freely.  The history lists the requests in the order in which their
 outcome was decided, each with how much of the history stood when it looked for its row.
 */
module RelationSteps {
  import opened Wrappers
  import opened Keys
  import opened Rows
  import T = Tables
  import opened Requests
  import opened TableLaws
  import opened Alternation
  import Runs

  datatype PC =
    | Lookup               // before IsFollowing
    | Statement(seen: nat) // before INSERT or DELETE
    | Invalidate           // before the cache deletion
    | Answered(code: int)

  datatype Call = Call(u: id64, to: id64, action: int, pc: PC)

  datatype Entry = Entry(u: id64, to: id64, action: int, code: int, seen: nat)

  datatype State = State(db: T.DB, history: seq<Entry>, calls: map<nat, Call>)

  datatype Action =
    | Arrive(pid: nat, u: id64, to: id64, action: int)
    | Step(pid: nat)

  predicate Enabled(s: State, a: Action) {
    match a
    case Arrive(pid, _, _, _) => pid !in s.calls
    case Step(pid) => pid in s.calls && !s.calls[pid].pc.Answered?
  }

  function Decide(s: State, pid: nat, db: T.DB, code: int, seen: nat, pc: PC): State
    requires pid in s.calls
  {
    var c := s.calls[pid];
    State(db, s.history + [Entry(c.u, c.to, c.action, code, seen)], s.calls[pid := c.(pc := pc)])
  }

  function Answer(s: State, pid: nat, code: int): State
    requires pid in s.calls
  {
    Decide(s, pid, s.db, code, |s.history|, Answered(code))
  }

  function StepCall(s: State, pid: nat): State
    requires pid in s.calls
  {
    var c := s.calls[pid];
    match c.pc
    case Lookup =>
      var found := T.IsFollowing(s.db, c.u, c.to);
      if c.u == c.to then Answer(s, pid, T.FOLLOW_MYSELF)
      else if c.action == 1 && found then Answer(s, pid, T.FOLLOW_REPEAT)
      else if c.action == 2 && !found then Answer(s, pid, T.CANCEL_FOLLOW_REPEAT)
      else if c.action == 1 || c.action == 2 then s.(calls := s.calls[pid := c.(pc := Statement(|s.history|))])
      else Answer(s, pid, T.INVALID_PARAM)
    case Statement(seen) =>
      if c.action == 1 then
        var r := T.AddFollow(s.db, c.u, c.to);
        if r.None? then Decide(s, pid, s.db, T.DB_ERROR, seen, Answered(T.DB_ERROR))
        else Decide(s, pid, r.value, T.SUCCESS, seen, Invalidate)
      else Decide(s, pid, T.DeleteFollow(s.db, c.u, c.to), T.SUCCESS, seen, Invalidate)
    case Invalidate => s.(calls := s.calls[pid := c.(pc := Answered(T.SUCCESS))])
    case Answered(_) => s
  }

  function Next(s: State, a: Action): State
    requires Enabled(s, a)
  {
    match a
    case Arrive(pid, u, to, action) => s.(calls := s.calls[pid := Call(u, to, action, Lookup)])
    case Step(pid) => StepCall(s, pid)
  }

  const START := State(NO_ROWS, [], map[])

  function Try(s: State, a: Action): Option<State> { if Enabled(s, a) then Some(Next(s, a)) else None }

  ghost predicate IsRun(run: seq<Action>) { Runs.IsRun(Try, START, run) }

  ghost function Final(run: seq<Action>): State
    requires IsRun(run)
  {
    Runs.Final(Try, START, run)
  }

  // ---------- the rows that a history leaves ----------

  predicate About(e: Entry, a: id64, b: id64) { e.u == a && e.to == b }

  /** The request put the row there, or took it away if it still was there. */
  predicate Puts(e: Entry) { e.code == T.SUCCESS && e.action == 1 }
  predicate Takes(e: Entry) { e.code == T.SUCCESS && e.action == 2 }

  /** Whether the row of a pair is there once these outcomes have been decided. */
  function Present(h: seq<Entry>, a: id64, b: id64): bool {
    if h == [] then false
    else
      var e := h[|h| - 1];
      if About(e, a, b) && Puts(e) then true
      else if About(e, a, b) && Takes(e) then false
      else Present(h[..|h| - 1], a, b)
  }

  /** The code of a request that saw the row or not, and whose statement then found it there or not. */
  function Outcome(u: id64, to: id64, action: int, saw: bool, found: bool): int {
    if u == to then T.FOLLOW_MYSELF
    else if action == 1 then if saw then T.FOLLOW_REPEAT else if found then T.DB_ERROR else T.SUCCESS
    else if action == 2 then if saw then T.SUCCESS else T.CANCEL_FOLLOW_REPEAT
    else T.INVALID_PARAM
  }

  /** The request got past its lookup. */
  predicate Proceeds(u: id64, to: id64, action: int, saw: bool) {
    u != to && ((action == 1 && !saw) || (action == 2 && saw))
  }

  predicate Saw(h: seq<Entry>, i: nat)
    requires i < |h| && h[i].seen <= i
  {
    Present(h[..h[i].seen], h[i].u, h[i].to)
  }

  predicate Found(h: seq<Entry>, i: nat)
    requires i < |h|
  {
    Present(h[..i], h[i].u, h[i].to)
  }

  predicate Sound(h: seq<Entry>, i: nat)
    requires i < |h|
  {
    var e := h[i];
    && e.seen <= i
    && e.code == Outcome(e.u, e.to, e.action, Saw(h, i), Found(h, i))
    && (e.seen < i ==> Proceeds(e.u, e.to, e.action, Saw(h, i)))
  }

  ghost predicate AllSound(h: seq<Entry>) { forall i :: 0 <= i < |h| ==> Sound(h, i) }

  function OpOf(e: Entry): Op { RelationOp(e.u, e.to, e.action) }

  function Ops(h: seq<Entry>): (r: seq<Op>)
    ensures |r| == |h| && forall i :: 0 <= i < |h| ==> r[i] == OpOf(h[i])
  {
    seq(|h|, i requires 0 <= i < |h| => OpOf(h[i]))
  }

  ghost predicate Inv(s: State) {
    && s.db == RunTables(NO_ROWS, Ops(s.history))
    && AllSound(s.history)
    && (forall p :: p in s.calls ==> CallInv(s.history, s.calls[p]))
  }

  /** A call before its statement saw what let it proceed; an answered call stands in the history. */
  ghost predicate CallInv(h: seq<Entry>, c: Call) {
    match c.pc
    case Lookup => true
    case Statement(seen) =>
      seen <= |h| && Proceeds(c.u, c.to, c.action, Present(h[..seen], c.u, c.to))
    case Invalidate => InHistory(h, c, T.SUCCESS)
    case Answered(code) => InHistory(h, c, code)
  }

  ghost predicate InHistory(h: seq<Entry>, c: Call, code: int) {
    exists i :: 0 <= i < |h| && h[i] == Entry(c.u, c.to, c.action, code, h[i].seen)
  }

  // ---------- the tables of a history ----------

  /** What one decided request does to the table, by its code. */
  lemma EntryEffect(db: T.DB, e: Entry, saw: bool, found: bool, a: id64, b: id64)
    requires T.Valid(db) && T.IsFollowing(db, e.u, e.to) == found
    requires e.code == Outcome(e.u, e.to, e.action, saw, found)
    requires saw == found || Proceeds(e.u, e.to, e.action, saw)
    ensures T.IsFollowing(After(db, OpOf(e)), a, b) ==
      if About(e, a, b) && Puts(e) then true
      else if About(e, a, b) && Takes(e) then false
      else T.IsFollowing(db, a, b)
  {
    RelationEffect(db, e.u, e.to, e.action);
    T.FollowingIn(db, e.u, e.to);
    T.FollowingIn(db, a, b);
    T.FollowingIn(After(db, OpOf(e)), a, b);
    hide T.IsFollowing, T.Valid;
  }

  lemma SoundPrefix(h: seq<Entry>, n: nat)
    requires AllSound(h) && n <= |h|
    ensures AllSound(h[..n])
  {
    forall i | 0 <= i < n ensures Sound(h[..n], i) {
      assert Sound(h, i) && h[..n][..i] == h[..i] && h[..n][..h[i].seen] == h[..h[i].seen];
    }
  }

  lemma OneMoreRequest(h: seq<Entry>)
    requires h != []
    ensures var k := |h| - 1;
      RunTables(NO_ROWS, Ops(h)) == After(RunTables(NO_ROWS, Ops(h[..k])), OpOf(h[k]))
  {
    assert Ops(h)[..|h| - 1] == Ops(h[..|h| - 1]);
  }

  /** The tables of whole requests hold exactly the rows that the codes tell of. */
  lemma {:induction false} RowsTold(h: seq<Entry>, a: id64, b: id64)
    requires AllSound(h)
    ensures T.Valid(RunTables(NO_ROWS, Ops(h)))
    ensures T.IsFollowing(RunTables(NO_ROWS, Ops(h)), a, b) == Present(h, a, b)
  {
    RunValid(Ops(h));
    if h != [] {
      var k := |h| - 1;
      var g, e := h[..k], h[k];
      assert Sound(h, k) && (e.seen == k ==> h[..e.seen] == g);
      SoundPrefix(h, k);
      RowsTold(g, a, b);
      RowsTold(g, e.u, e.to);
      OneMoreRequest(h);
      hide T.Valid, T.IsFollowing, After, RunTables, AllSound;
      EntryEffect(RunTables(NO_ROWS, Ops(g)), e, Saw(h, k), Found(h, k), a, b);
    }
  }

  // ---------- every step keeps it so ----------

  lemma {:induction false} NothingDeleted(rows: seq<T.Follow>, a: id64, b: id64)
    requires T.Follow(a, b) !in rows
    ensures Where(rows, T.NotEdge(a, b)) == rows
  {
    if rows != [] {
      var k := |rows| - 1;
      NothingDeleted(rows[..k], a, b);
      assert rows == rows[..k] + [rows[k]];
    }
  }

  /** The statement alone does to the tables what the whole request does. */
  lemma StatementWhole(db: T.DB, u: id64, to: id64)
    requires u != to
    ensures T.AddFollow(db, u, to).None? <==> T.IsFollowing(db, u, to)
    ensures After(db, RelationOp(u, to, 1)) ==
      if T.AddFollow(db, u, to).None? then db else T.AddFollow(db, u, to).value
    ensures After(db, RelationOp(u, to, 2)) == T.DeleteFollow(db, u, to)
  {
    T.FollowingIn(db, u, to);
    if !T.IsFollowing(db, u, to) {
      NothingDeleted(db.follows, u, to);
    }
  }

  lemma HistoryGrows(h: seq<Entry>, e: Entry, c: Call)
    ensures CallInv(h, c) ==> CallInv(h + [e], c)
  {
    var g := h + [e];
    if CallInv(h, c) {
      match c.pc
      case Statement(seen) => assert g[..seen] == h[..seen];
      case Invalidate =>
        var i :| 0 <= i < |h| && h[i] == Entry(c.u, c.to, c.action, T.SUCCESS, h[i].seen);
        assert g[i] == h[i];
      case Answered(code) =>
        var i :| 0 <= i < |h| && h[i] == Entry(c.u, c.to, c.action, code, h[i].seen);
        assert g[i] == h[i];
      case _ =>
    }
  }

  lemma SoundMore(h: seq<Entry>, e: Entry)
    requires AllSound(h) && e.seen <= |h|
    requires var saw, found := Present(h[..e.seen], e.u, e.to), Present(h, e.u, e.to);
      && e.code == Outcome(e.u, e.to, e.action, saw, found)
      && (e.seen < |h| ==> Proceeds(e.u, e.to, e.action, saw))
    ensures AllSound(h + [e])
  {
    var g := h + [e];
    forall i | 0 <= i < |g| ensures Sound(g, i) {
      assert g[..i] == h[..i];
      if i < |h| {
        assert Sound(h, i) && g[..h[i].seen] == h[..h[i].seen];
      } else {
        assert h[..i] == h && g[..e.seen] == h[..e.seen];
      }
    }
  }

  lemma DecideInv(s: State, pid: nat, db: T.DB, code: int, seen: nat, pc: PC)
    requires Inv(s) && pid in s.calls && seen <= |s.history|
    requires var c := s.calls[pid];
      var saw, found := Present(s.history[..seen], c.u, c.to), Present(s.history, c.u, c.to);
      && db == After(s.db, RelationOp(c.u, c.to, c.action))
      && code == Outcome(c.u, c.to, c.action, saw, found)
      && (seen < |s.history| ==> Proceeds(c.u, c.to, c.action, saw))
    requires (pc.Answered? && pc.code == code) || (pc.Invalidate? && code == T.SUCCESS)
    ensures Inv(Decide(s, pid, db, code, seen, pc))
  {
    var t, h := Decide(s, pid, db, code, seen, pc), s.history;
    var e := t.history[|h|];
    SoundMore(h, e);
    assert Ops(t.history)[..|h|] == Ops(h);
    hide Sound, T.IsFollowing, T.Valid, T.RelationAction;
    forall p | p in t.calls ensures CallInv(t.history, t.calls[p]) {
      HistoryGrows(h, e, t.calls[p]);
      if p == pid {
        assert t.history[|h|] == Entry(t.calls[p].u, t.calls[p].to, t.calls[p].action, code, e.seen);
      }
    }
  }

  lemma LookupInv(s: State, pid: nat)
    requires Inv(s) && pid in s.calls && s.calls[pid].pc.Lookup?
    ensures Inv(StepCall(s, pid))
  {
    var c, h := s.calls[pid], s.history;
    var found := T.IsFollowing(s.db, c.u, c.to);
    RowsTold(h, c.u, c.to);
    assert h[..|h|] == h;
    var code := Outcome(c.u, c.to, c.action, found, found);
    if !Proceeds(c.u, c.to, c.action, found) {
      assert After(s.db, RelationOp(c.u, c.to, c.action)) == s.db;
      hide Inv, T.IsFollowing, Decide;
      DecideInv(s, pid, s.db, code, |h|, Answered(code));
    }
  }

  lemma StatementInv(s: State, pid: nat)
    requires Inv(s) && pid in s.calls && s.calls[pid].pc.Statement?
    ensures Inv(StepCall(s, pid))
  {
    var c, h := s.calls[pid], s.history;
    assert CallInv(h, c);
    RowsTold(h, c.u, c.to);
    StatementWhole(s.db, c.u, c.to);
    hide Inv, T.IsFollowing, T.AddFollow, T.DeleteFollow, After, Decide, Present;
    if c.action == 1 {
      var r := T.AddFollow(s.db, c.u, c.to);
      if r.None? {
        DecideInv(s, pid, s.db, T.DB_ERROR, c.pc.seen, Answered(T.DB_ERROR));
      } else {
        DecideInv(s, pid, r.value, T.SUCCESS, c.pc.seen, Invalidate);
      }
    } else {
      DecideInv(s, pid, T.DeleteFollow(s.db, c.u, c.to), T.SUCCESS, c.pc.seen, Invalidate);
    }
  }

  lemma NextInv(s: State, a: Action)
    requires Inv(s) && Enabled(s, a)
    ensures Inv(Next(s, a))
  {
    if a.Step? && s.calls[a.pid].pc.Lookup? {
      LookupInv(s, a.pid);
    } else if a.Step? && s.calls[a.pid].pc.Statement? {
      StatementInv(s, a.pid);
    } else if a.Step? {
      assert CallInv(s.history, s.calls[a.pid]);
    }
  }

  lemma RunInv(run: seq<Action>)
    requires IsRun(run)
    ensures Inv(Final(run))
  {
    var inv := (s: State) => Inv(s);
    forall s, a | inv(s) && Try(s, a).Some? ensures inv(Try(s, a).value) {
      NextInv(s, a);
    }
    Runs.RunKeeps(Try, inv, START, run);
  }

  // ---------- against whole requests, one after another ----------

  /** A follow whose INSERT met the row that its lookup had not seen. */
  predicate Clash(e: Entry) { e.code == T.DB_ERROR }

  /** An unfollow that deleted nothing, because the row that its lookup had seen was gone. */
  predicate Idle(h: seq<Entry>, i: nat)
    requires i < |h|
  {
    Takes(h[i]) && !Found(h, i)
  }

  /**
   In every interleaving the tables are those of whole requests executed one after another in the order in
   which their outcomes were decided, so that follow rows stay unique and never name one user twice; and
   each answer is the one of that execution, except for the clashes and the idle unfollows.
   */
  lemma TablesOfWhole(run: seq<Action>)
    requires IsRun(run)
    ensures var t := Final(run);
      && t.db == RunTables(NO_ROWS, Ops(t.history)) && T.Valid(t.db)
      && (forall i :: 0 <= i < |t.history| ==> (AsWhole(t.history, i) <==> !Clash(t.history[i]) && !Idle(t.history, i)))
      && (forall p :: p in t.calls && t.calls[p].pc.Answered? ==> InHistory(t.history, t.calls[p], t.calls[p].pc.code))
  {
    RunInv(run);
    var t := Final(run);
    RowsTold(t.history, 0, 0);
    forall i | 0 <= i < |t.history|
      ensures AsWhole(t.history, i) <==> !Clash(t.history[i]) && !Idle(t.history, i)
    {
      WholeAnswer(t.history, i);
    }
    forall p | p in t.calls && t.calls[p].pc.Answered? ensures InHistory(t.history, t.calls[p], t.calls[p].pc.code) {
      assert CallInv(t.history, t.calls[p]);
    }
  }

  /** The i-th outcome is the answer of its whole request to the tables of those before it. */
  ghost predicate AsWhole(h: seq<Entry>, i: nat)
    requires i < |h|
  {
    Right(RunTables(NO_ROWS, Ops(h[..i])), map[], OpOf(h[i]), Code(h[i].code))
  }

  lemma WholeAnswer(h: seq<Entry>, i: nat)
    requires AllSound(h) && i < |h|
    ensures AsWhole(h, i) <==> !Clash(h[i]) && !Idle(h, i)
  {
    var e := h[i];
    SoundPrefix(h, i);
    RowsTold(h[..i], e.u, e.to);
    assert Sound(h, i);
    assert e.seen == i ==> h[..e.seen] == h[..i];
    T.RelationActionValid(RunTables(NO_ROWS, Ops(h[..i])), e.u, e.to, e.action);
    hide T.Valid, T.IsFollowing, Present, RunTables;
  }

  // ---------- every call is answered ----------

  /** The steps that a call has left. */
  function StepsLeft(pc: PC): nat {
    match pc
    case Lookup => 3
    case Statement(_) => 2
    case Invalidate => 1
    case Answered(_) => 0
  }

  function LeftFor(pid: nat): State -> nat {
    (s: State) => if pid in s.calls then StepsLeft(s.calls[pid].pc) else 0
  }

  predicate OwnStep(a: Action, pid: nat) { a.Step? && a.pid == pid }

  lemma OneLess(s: State, a: Action, pid: nat)
    requires pid in s.calls && Enabled(s, a)
    ensures pid in Next(s, a).calls
    ensures LeftFor(pid)(Next(s, a)) + (if OwnStep(a, pid) then 1 else 0) <= LeftFor(pid)(s)
  {
    hide T.IsFollowing, T.AddFollow, T.DeleteFollow;
  }

  /**
   In every interleaving a call takes at most three steps of its own, none of which waits for anybody, and
   after the last one it is answered.
   */
  lemma CallEnds(s: State, pid: nat, run: seq<Action>)
    requires pid in s.calls && Runs.IsRun(Try, s, run)
    ensures var t := Runs.Final(Try, s, run);
      && pid in t.calls && Runs.Count(run, a => OwnStep(a, pid)) <= 3
      && (Runs.Count(run, a => OwnStep(a, pid)) == 3 ==> t.calls[pid].pc.Answered?)
      && (t.calls[pid].pc.Answered? || Enabled(t, Step(pid)))
  {
    var inv := (t: State) => pid in t.calls;
    var mine := a => OwnStep(a, pid);
    forall t, a | inv(t) && Try(t, a).Some?
      ensures var u := Try(t, a).value; inv(u) && LeftFor(pid)(u) + (if mine(a) then 1 else 0) <= LeftFor(pid)(t)
    {
      OneLess(t, a, pid);
    }
    Runs.RankBounds(Try, inv, LeftFor(pid), mine, s, run);
  }

  // ---------- exactly when the two exceptions happen ----------

  /** The last change to the pair before i was at j. */
  ghost predicate PutLast(h: seq<Entry>, a: id64, b: id64, j: nat, i: nat)
    requires j < i <= |h|
  {
    About(h[j], a, b) && Puts(h[j]) && forall k :: j < k < i ==> !(About(h[k], a, b) && Takes(h[k]))
  }

  ghost predicate TakenLast(h: seq<Entry>, a: id64, b: id64, j: nat, i: nat)
    requires j < i <= |h|
  {
    About(h[j], a, b) && Takes(h[j]) && forall k :: j < k < i ==> !(About(h[k], a, b) && Puts(h[k]))
  }

  lemma {:induction false} Changed(h: seq<Entry>, a: id64, b: id64, from: nat, i: nat)
    requires from <= i <= |h|
    ensures !Present(h[..from], a, b) ==>
      (Present(h[..i], a, b) <==> exists j :: from <= j < i && PutLast(h, a, b, j, i))
    ensures Present(h[..from], a, b) ==>
      (!Present(h[..i], a, b) <==> exists j :: from <= j < i && TakenLast(h, a, b, j, i))
  {
    if from < i {
      var k := i - 1;
      Changed(h, a, b, from, k);
      assert h[..i][..k] == h[..k] && h[..i][k] == h[k];
      var e := h[k];
      forall j | from <= j < k
        ensures PutLast(h, a, b, j, i) == (PutLast(h, a, b, j, k) && !(About(e, a, b) && Takes(e)))
      {
      }
      forall j | from <= j < k
        ensures TakenLast(h, a, b, j, i) == (TakenLast(h, a, b, j, k) && !(About(e, a, b) && Puts(e)))
      {
      }
      assert PutLast(h, a, b, k, i) == (About(e, a, b) && Puts(e));
      assert TakenLast(h, a, b, k, i) == (About(e, a, b) && Takes(e));
      hide PutLast, TakenLast;
    }
  }

  /**
   A follow is answered with the database error exactly when it saw no row, and another follow of the pair put
   it there between its lookup and its INSERT, with no unfollow after that one.
   */
  lemma WhenClash(run: seq<Action>, i: nat)
    requires IsRun(run) && i < |Final(run).history|
    ensures var h := Final(run).history;
      var e := h[i];
      && e.seen <= i
      && (Clash(e) <==> (
            && e.action == 1 && e.u != e.to && !Saw(h, i)
            && exists j :: e.seen <= j < i && PutLast(h, e.u, e.to, j, i)))
  {
    RunInv(run);
    var h := Final(run).history;
    assert Sound(h, i);
    Changed(h, h[i].u, h[i].to, h[i].seen, i);
  }

  /**
   An unfollow succeeds without deleting anything exactly when it saw the row, and another unfollow of the
   pair took it away between its lookup and its DELETE, with no follow after that one.
   */
  lemma WhenIdle(run: seq<Action>, i: nat)
    requires IsRun(run) && i < |Final(run).history|
    ensures var h := Final(run).history;
      var e := h[i];
      && e.seen <= i
      && (Idle(h, i) <==> (
            && e.action == 2 && e.u != e.to && Saw(h, i)
            && exists j :: e.seen <= j < i && TakenLast(h, e.u, e.to, j, i)))
  {
    RunInv(run);
    var h := Final(run).history;
    assert Sound(h, i);
    Changed(h, h[i].u, h[i].to, h[i].seen, i);
  }

  // ---------- follows and unfollows of one pair ----------

  /** The successful requests of a pair in order. */
  function PairLog(h: seq<Entry>, a: id64, b: id64): seq<Mark> {
    if h == [] then []
    else
      var e := h[|h| - 1];
      PairLog(h[..|h| - 1], a, b) +
      (if About(e, a, b) && Puts(e) then [Put] else if About(e, a, b) && Takes(e) then [Taken] else [])
  }

  predicate IdleAt(h: seq<Entry>, a: id64, b: id64, i: nat)
    requires i < |h|
  {
    About(h[i], a, b) && Idle(h, i)
  }

  ghost predicate NoneIdle(h: seq<Entry>, a: id64, b: id64) { forall i :: 0 <= i < |h| ==> !IdleAt(h, a, b, i) }

  lemma NoneIdleMore(h: seq<Entry>, a: id64, b: id64)
    requires h != []
    ensures NoneIdle(h, a, b) <==> NoneIdle(h[..|h| - 1], a, b) && !IdleAt(h, a, b, |h| - 1)
  {
    var k := |h| - 1;
    forall i | 0 <= i < k ensures IdleAt(h, a, b, i) == IdleAt(h[..k], a, b, i) {
      assert h[..k][..i] == h[..i];
    }
  }

  lemma {:induction false} PairAlternates(h: seq<Entry>, a: id64, b: id64)
    requires AllSound(h)
    ensures Alternates(PairLog(h, a, b)) <==> NoneIdle(h, a, b)
    ensures NoneIdle(h, a, b) ==> (Present(h, a, b) <==> EndsPut(PairLog(h, a, b)))
  {
    if h != [] {
      var k := |h| - 1;
      var g, e := h[..k], h[k];
      SoundPrefix(h, k);
      assert Sound(h, k) && (e.seen == k ==> h[..e.seen] == g);
      PairAlternates(g, a, b);
      NoneIdleMore(h, a, b);
      OneMore(PairLog(g, a, b), if e.action == 1 then Put else Taken);
      assert PairLog(g, a, b) + [] == PairLog(g, a, b);
      hide Alternates, EndsPut, NoneIdle, AllSound;
    }
  }

  /**
   In every interleaving the successful follows and unfollows of a pair alternate, follow first, exactly when
   no unfollow of the pair was idle; and then the row is there exactly after a follow.
   */
  lemma FollowsAlternate(run: seq<Action>, a: id64, b: id64)
    requires IsRun(run)
    ensures var t := Final(run);
      var log := PairLog(t.history, a, b);
      && (Alternates(log) <==> NoneIdle(t.history, a, b))
      && (Alternates(log) ==> (T.Follow(a, b) in t.db.follows <==> EndsPut(log)))
  {
    RunInv(run);
    var t := Final(run);
    PairAlternates(t.history, a, b);
    RowsTold(t.history, a, b);
    T.FollowingIn(t.db, a, b);
  }

  // ---------- and they do happen ----------

  lemma Extend(run: seq<Action>, s: State, a: Action) returns (run': seq<Action>, s': State)
    requires IsRun(run) && Final(run) == s && Enabled(s, a)
    ensures run' == run + [a] && IsRun(run') && s' == Next(s, a) && Final(run') == s'
  {
    Runs.RunSnoc(Try, START, run, a);
    run', s' := run + [a], Next(s, a);
  }

  /** A user follows another: one request, up to its answer. */
  lemma Followed(a: id64, b: id64) returns (run: seq<Action>, s: State)
    requires a != b
    ensures IsRun(run) && Final(run) == s
    ensures s.db == T.DB([T.Follow(a, b)], [], []) && s.history == [Entry(a, b, 1, T.SUCCESS, 0)]
    ensures s.calls.Keys == {0}
  {
    run, s := [], START;
    T.FollowingIn(NO_ROWS, a, b);
    assert IsRun(run) && Final(run) == s;
    hide IsRun, Final, T.IsFollowing;
    run, s := Extend(run, s, Arrive(0, a, b, 1));
    run, s := Extend(run, s, Step(0));
    run, s := Extend(run, s, Step(0));
    run, s := Extend(run, s, Step(0));
  }

  /** Two calls of one pair look for the row before either of them writes; then both write. */
  lemma BothLooked(run0: seq<Action>, s0: State, a: id64, b: id64, action: int) returns (run: seq<Action>, s: State)
    requires IsRun(run0) && Final(run0) == s0 && 1 !in s0.calls && 2 !in s0.calls
    requires Proceeds(a, b, action, T.IsFollowing(s0.db, a, b))
    ensures IsRun(run) && Final(run) == s && s.db == s0.db && s.history == s0.history
    ensures 1 in s.calls && s.calls[1] == Call(a, b, action, Statement(|s0.history|))
    ensures 2 in s.calls && s.calls[2] == Call(a, b, action, Statement(|s0.history|))
  {
    hide IsRun, Final, T.IsFollowing;
    run, s := Extend(run0, s0, Arrive(1, a, b, action));
    run, s := Extend(run, s, Arrive(2, a, b, action));
    run, s := Extend(run, s, Step(1));
    run, s := Extend(run, s, Step(2));
  }

  /** Then both calls delete, and the second finds nothing to delete. */
  lemma BothDelete(a: id64, b: id64) returns (run: seq<Action>)
    requires a != b
    ensures IsRun(run)
    ensures Final(run).history ==
      [Entry(a, b, 1, T.SUCCESS, 0), Entry(a, b, 2, T.SUCCESS, 1), Entry(a, b, 2, T.SUCCESS, 1)]
  {
    var s;
    run, s := Followed(a, b);
    T.FollowingIn(s.db, a, b);
    run, s := BothLooked(run, s, a, b, 2);
    hide IsRun, Final, T.DeleteFollow, T.IsFollowing, T.AddFollow;
    run, s := Extend(run, s, Step(1));
    run, s := Extend(run, s, Step(2));
  }

  /** Or both insert, and the second meets the row of the first. */
  lemma BothInsert(a: id64, b: id64) returns (run: seq<Action>)
    requires a != b
    ensures IsRun(run)
    ensures Final(run).history == [Entry(a, b, 1, T.SUCCESS, 0), Entry(a, b, 1, T.DB_ERROR, 0)]
  {
    T.FollowingIn(NO_ROWS, a, b);
    var s;
    run, s := BothLooked([], START, a, b, 1);
    hide IsRun, Final, T.DeleteFollow, T.IsFollowing;
    run, s := Extend(run, s, Step(1));
    assert s.db.follows == [T.Follow(a, b)];
    run, s := Extend(run, s, Step(2));
  }

  /** Two concurrent unfollows of one follow both succeed. */
  lemma TwoUnfollows(a: id64, b: id64) returns (run: seq<Action>)
    requires a != b
    ensures IsRun(run)
    ensures var h := Final(run).history;
      && h == [Entry(a, b, 1, T.SUCCESS, 0), Entry(a, b, 2, T.SUCCESS, 1), Entry(a, b, 2, T.SUCCESS, 1)]
      && Idle(h, 2) && !AsWhole(h, 2)
  {
    run := BothDelete(a, b);
    var h := Final(run).history;
    assert h[..2][1] == h[1];
    hide IsRun, Final, AsWhole, RunTables, T.Valid;
    TablesOfWhole(run);
  }

  /** Of two concurrent follows the second is answered with the database error. */
  lemma TwoFollows(a: id64, b: id64) returns (run: seq<Action>)
    requires a != b
    ensures IsRun(run)
    ensures var h := Final(run).history;
      h == [Entry(a, b, 1, T.SUCCESS, 0), Entry(a, b, 1, T.DB_ERROR, 0)] && !AsWhole(h, 1)
  {
    run := BothInsert(a, b);
    hide IsRun, Final, AsWhole, RunTables, T.Valid;
    TablesOfWhole(run);
  }
}
