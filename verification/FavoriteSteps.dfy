/**
 Concurrent FavoriteAction calls: the author lookup, the one table statement and the cache deletion of a
 call are separate steps, and calls and publications interleave freely.  The history lists the requests
 in the order in which their outcome was decided.
 */
module FavoriteSteps {
  import opened Wrappers
  import opened Keys
  import opened Rows
  import T = Tables
  import opened Requests
  import opened TableLaws
  import opened Alternation
  import Runs

  datatype PC =
    | Lookup                    // before the author query
    | Statement(author: id64)   // before INSERT or DELETE
    | Invalidate(author: id64)  // before the cache deletion
    | Answered(code: int)

  datatype Call = Call(u: id64, v: id64, action: int, pc: PC)

  datatype Entry = Entry(op: Op, code: int)

  datatype State = State(db: T.DB, history: seq<Entry>, calls: map<nat, Call>)

  datatype Action =
    | Arrive(pid: nat, u: id64, v: id64, action: int)
    | Step(pid: nat, now: int)
    | Post(author: id64, now: int)

  predicate Enabled(s: State, a: Action) {
    match a
    case Arrive(pid, _, _, _) => pid !in s.calls
    case Step(pid, _) => pid in s.calls && !s.calls[pid].pc.Answered?
    case Post(_, _) => true
  }

  function Decide(s: State, pid: nat, db: T.DB, now: int, code: int, pc: PC): State
    requires pid in s.calls
  {
    var c := s.calls[pid];
    State(db, s.history + [Entry(FavoriteOp(c.u, c.v, c.action, now), code)], s.calls[pid := c.(pc := pc)])
  }

  function StepCall(s: State, pid: nat, now: int): State
    requires pid in s.calls
  {
    var c := s.calls[pid];
    match c.pc
    case Lookup =>
      var video := T.FindVideo(s.db, c.v);
      if video.None? then Decide(s, pid, s.db, now, T.INVALID_PARAM, Answered(T.INVALID_PARAM))
      else s.(calls := s.calls[pid := c.(pc := Statement(video.value.author))])
    case Statement(author) =>
      if c.action == 1 || c.action == 2 then
        var r := if c.action == 1 then T.AddUserFavorite(s.db, c.u, c.v, now) else T.DeleteUserFavorite(s.db, c.u, c.v);
        if r.None? then Decide(s, pid, s.db, now, T.FAVORITE_REPEAT, Answered(T.FAVORITE_REPEAT))
        else Decide(s, pid, r.value, now, T.SUCCESS, Invalidate(author))
      else Decide(s, pid, s.db, now, T.INVALID_PARAM, Answered(T.INVALID_PARAM))
    case Invalidate(_) => s.(calls := s.calls[pid := c.(pc := Answered(T.SUCCESS))])
    case Answered(_) => s
  }

  function Next(s: State, a: Action): State
    requires Enabled(s, a)
  {
    match a
    case Arrive(pid, u, v, action) => s.(calls := s.calls[pid := Call(u, v, action, Lookup)])
    case Step(pid, now) => StepCall(s, pid, now)
    case Post(author, now) =>
      var op := PublishOp(author, now, true);
      s.(db := After(s.db, op), history := s.history + [Entry(op, T.SUCCESS)])
  }

  const START := State(NO_ROWS, [], map[])

  function Try(s: State, a: Action): Option<State> { if Enabled(s, a) then Some(Next(s, a)) else None }

  ghost predicate IsRun(run: seq<Action>) { Runs.IsRun(Try, START, run) }

  ghost function Final(run: seq<Action>): State
    requires IsRun(run)
  {
    Runs.Final(Try, START, run)
  }

  // ---------- every interleaving is some order of whole requests ----------

  function Ops(h: seq<Entry>): (r: seq<Op>)
    ensures |r| == |h| && forall i :: 0 <= i < |h| ==> r[i] == h[i].op
  {
    seq(|h|, i requires 0 <= i < |h| => h[i].op)
  }

  /** The tables when the i-th outcome was decided. */
  function TablesAt(h: seq<Entry>, i: nat): T.DB
    requires i <= |h|
  {
    RunTables(NO_ROWS, Ops(h[..i]))
  }

  ghost predicate Decided(h: seq<Entry>, i: nat)
    requires i < |h|
  {
    h[i].op.FavoriteOp? ==> Right(TablesAt(h, i), map[], h[i].op, Code(h[i].code))
  }

  ghost predicate Inv(s: State) {
    && s.db == TablesAt(s.history, |s.history|)
    && T.Valid(s.db)
    && (forall i :: 0 <= i < |s.history| ==> Decided(s.history, i))
    && (forall i :: 0 <= i < |s.history| ==> s.history[i].op.FavoriteOp? || s.history[i].op.PublishOp?)
    && (forall p :: p in s.calls ==> CallInv(s, s.calls[p]))
  }

  /** A call past its lookup has its video; an answered call stands in the history with its code. */
  ghost predicate CallInv(s: State, c: Call) {
    match c.pc
    case Lookup => true
    case Statement(_) => T.FindVideo(s.db, c.v).Some?
    case Invalidate(_) => InHistory(s.history, c, T.SUCCESS)
    case Answered(code) => InHistory(s.history, c, code)
  }

  ghost predicate InHistory(h: seq<Entry>, c: Call, code: int) {
    exists i, now :: 0 <= i < |h| && h[i] == Entry(FavoriteOp(c.u, c.v, c.action, now), code)
  }

  lemma HistoryGrows(h: seq<Entry>, e: Entry, c: Call, code: int)
    ensures InHistory(h, c, code) ==> InHistory(h + [e], c, code)
    ensures e.code == code && e.op.FavoriteOp? && e.op == FavoriteOp(c.u, c.v, c.action, e.op.now) ==>
      InHistory(h + [e], c, code)
  {
    var g := h + [e];
    assert g[|h|] == e;
    if InHistory(h, c, code) {
      var i, now :| 0 <= i < |h| && h[i] == Entry(FavoriteOp(c.u, c.v, c.action, now), code);
      assert g[i] == Entry(FavoriteOp(c.u, c.v, c.action, now), code);
    }
  }

  lemma Extend(h: seq<Entry>, e: Entry)
    requires forall i :: 0 <= i < |h| ==> Decided(h, i)
    requires e.op.FavoriteOp? ==> Right(TablesAt(h, |h|), map[], e.op, Code(e.code))
    ensures TablesAt(h + [e], |h| + 1) == After(TablesAt(h, |h|), e.op)
    ensures forall i :: 0 <= i <= |h| ==> Decided(h + [e], i)
  {
    var g := h + [e];
    assert h[..|h|] == h && g[..|h|] == h && g[..|g|] == g;
    assert Ops(g)[..|h|] == Ops(h);
    forall i | 0 <= i <= |h| ensures Decided(g, i) {
      if i < |h| {
        assert g[..i] == h[..i] && Decided(h, i);
      }
    }
  }

  lemma FoundStays(db: T.DB, op: Op, v: id64)
    requires op.FavoriteOp? || op.PublishOp?
    requires T.FindVideo(db, v).Some?
    ensures T.FindVideo(After(db, op), v).Some?
  {
  }

  lemma CallsKept(s: State, t: State, e: Entry)
    requires Inv(s) && t.history == s.history + [e] && t.db == After(s.db, e.op) &&
      (e.op.FavoriteOp? || e.op.PublishOp?)
    requires forall p :: p in t.calls ==> (p in s.calls && t.calls[p] == s.calls[p]) || CallInv(t, t.calls[p])
    ensures forall p :: p in t.calls ==> CallInv(t, t.calls[p])
  {
    forall p | p in t.calls ensures CallInv(t, t.calls[p]) {
      var c := t.calls[p];
      HistoryGrows(s.history, e, c, T.SUCCESS);
      if c.pc.Answered? { HistoryGrows(s.history, e, c, c.pc.code); }
      if !CallInv(t, c) {
        assert CallInv(s, c);
        if T.FindVideo(s.db, c.v).Some? { FoundStays(s.db, e.op, c.v); }
      }
    }
  }

  lemma {:induction false} Deciding(s: State, t: State, e: Entry)
    requires Inv(s) && t.history == s.history + [e] && t.db == After(s.db, e.op) &&
      (e.op.FavoriteOp? || e.op.PublishOp?)
    requires e.op.FavoriteOp? ==> Right(s.db, map[], e.op, Code(e.code))
    requires forall p :: p in t.calls ==> (p in s.calls && t.calls[p] == s.calls[p]) || CallInv(t, t.calls[p])
    ensures Inv(t)
  {
    Extend(s.history, e);
    RunValid(Ops(t.history[..|t.history|]));
    CallsKept(s, t, e);
  }

  // A step that decides nothing changes no table and no other call.
  lemma Undecided(s: State, t: State, pid: nat)
    requires Inv(s) && t.db == s.db && t.history == s.history && pid in t.calls
    requires t.calls == s.calls[pid := t.calls[pid]] && CallInv(t, t.calls[pid])
    ensures Inv(t)
  {
  }

  /** A call that decides its outcome: the history grows by its request. */
  lemma DecideInv(s: State, pid: nat, db: T.DB, now: int, code: int, pc: PC)
    requires Inv(s) && pid in s.calls
    requires var op := FavoriteOp(s.calls[pid].u, s.calls[pid].v, s.calls[pid].action, now);
      db == After(s.db, op) && Right(s.db, map[], op, Code(code))
    requires (pc.Answered? && pc.code == code) || (pc.Invalidate? && code == T.SUCCESS)
    ensures Inv(Decide(s, pid, db, now, code, pc))
  {
    var t := Decide(s, pid, db, now, code, pc);
    var e := t.history[|s.history|];
    HistoryGrows(s.history, e, t.calls[pid], code);
    assert CallInv(t, t.calls[pid]);
    hide T.Valid, TablesAt, Decided, InHistory, Right, After;
    Deciding(s, t, e);
  }

  lemma LookupInv(s: State, pid: nat, now: int)
    requires Inv(s) && pid in s.calls && s.calls[pid].pc.Lookup?
    ensures Inv(StepCall(s, pid, now))
  {
    var c := s.calls[pid];
    if T.FindVideo(s.db, c.v).None? {
      hide Inv, Decide;
      DecideInv(s, pid, s.db, now, T.INVALID_PARAM, Answered(T.INVALID_PARAM));
    } else {
      Undecided(s, StepCall(s, pid, now), pid);
    }
  }

  lemma StatementInv(s: State, pid: nat, now: int)
    requires Inv(s) && pid in s.calls && s.calls[pid].pc.Statement?
    ensures Inv(StepCall(s, pid, now))
  {
    var c := s.calls[pid];
    assert CallInv(s, c);
    hide Inv, Decide, T.AddUserFavorite, T.DeleteUserFavorite, T.FindVideo;
    if c.action == 1 || c.action == 2 {
      var r := if c.action == 1 then T.AddUserFavorite(s.db, c.u, c.v, now) else T.DeleteUserFavorite(s.db, c.u, c.v);
      if r.None? {
        DecideInv(s, pid, s.db, now, T.FAVORITE_REPEAT, Answered(T.FAVORITE_REPEAT));
      } else {
        DecideInv(s, pid, r.value, now, T.SUCCESS, Invalidate(c.pc.author));
      }
    } else {
      DecideInv(s, pid, s.db, now, T.INVALID_PARAM, Answered(T.INVALID_PARAM));
    }
  }

  lemma NextInv(s: State, a: Action)
    requires Inv(s) && Enabled(s, a)
    ensures Inv(Next(s, a))
  {
    match a
    case Arrive(pid, u, v, action) => Undecided(s, Next(s, a), pid);
    case Post(author, now) =>
      hide T.Valid, TablesAt, Decided;
      Deciding(s, Next(s, a), Entry(PublishOp(author, now, true), T.SUCCESS));
    case Step(pid, now) =>
      if s.calls[pid].pc.Lookup? {
        LookupInv(s, pid, now);
      } else if s.calls[pid].pc.Statement? {
        StatementInv(s, pid, now);
      } else {
        assert CallInv(s, s.calls[pid]);
        Undecided(s, Next(s, a), pid);
      }
  }

  lemma RunInv(run: seq<Action>)
    requires IsRun(run)
    ensures Inv(Final(run))
  {
    var inv := (s: State) => Inv(s);
    forall s, a | inv(s) && Try(s, a).Some? ensures inv(Try(s, a).value) {
      NextInv(s, a);
    }
    Runs.RunKeeps(Try, inv, START, run);
  }

  /**
   In every interleaving the tables and the answers are those of whole requests executed one after
   another, in the order in which their outcomes were decided.
   */
  lemma Linearizable(run: seq<Action>)
    requires IsRun(run)
    ensures var t := Final(run);
      && t.db == RunTables(NO_ROWS, Ops(t.history)) && Reached(t.db)
      && (forall i :: 0 <= i < |t.history| && t.history[i].op.FavoriteOp? ==>
            t.history[i].code == T.FavoriteAction(RunTables(NO_ROWS, Ops(t.history)[..i]),
              t.history[i].op.u, t.history[i].op.v, t.history[i].op.action, t.history[i].op.now).1)
      && (forall p :: p in t.calls && t.calls[p].pc.Answered? ==> InHistory(t.history, t.calls[p], t.calls[p].pc.code))
  {
    RunInv(run);
    var t := Final(run);
    var h := t.history;
    assert h[..|h|] == h;
    forall i | 0 <= i < |h| && h[i].op.FavoriteOp?
      ensures h[i].code == T.FavoriteAction(RunTables(NO_ROWS, Ops(h)[..i]), h[i].op.u, h[i].op.v, h[i].op.action,
        h[i].op.now).1
    {
      assert Decided(h, i);
      assert Ops(h)[..i] == Ops(h[..i]);
    }
    forall p | p in t.calls && t.calls[p].pc.Answered? ensures InHistory(h, t.calls[p], t.calls[p].pc.code) {
      assert CallInv(t, t.calls[p]);
    }
  }

  // ---------- every call is answered ----------

  /** The steps that a call has left. */
  function StepsLeft(pc: PC): nat {
    match pc
    case Lookup => 3
    case Statement(_) => 2
    case Invalidate(_) => 1
    case Answered(_) => 0
  }

  function LeftFor(pid: nat): State -> nat {
    (s: State) => if pid in s.calls then StepsLeft(s.calls[pid].pc) else 0
  }

  predicate OwnStep(a: Action, pid: nat) { a.Step? && a.pid == pid }

  lemma OneLess(s: State, a: Action, pid: nat)
    requires pid in s.calls && Enabled(s, a)
    ensures pid in Next(s, a).calls
    ensures LeftFor(pid)(Next(s, a)) + (if OwnStep(a, pid) then 1 else 0) <= LeftFor(pid)(s)
  {
    hide T.FindVideo, T.AddUserFavorite, T.DeleteUserFavorite, After;
  }

  /**
   In every interleaving a call takes at most three steps of its own, none of which waits for anybody, and
   after the last one it is answered.
   */
  lemma CallEnds(s: State, pid: nat, run: seq<Action>)
    requires pid in s.calls && Runs.IsRun(Try, s, run)
    ensures var t := Runs.Final(Try, s, run);
      && pid in t.calls && Runs.Count(run, a => OwnStep(a, pid)) <= 3
      && (Runs.Count(run, a => OwnStep(a, pid)) == 3 ==> t.calls[pid].pc.Answered?)
      && (t.calls[pid].pc.Answered? || forall now :: Enabled(t, Step(pid, now)))
  {
    var inv := (t: State) => pid in t.calls;
    var mine := a => OwnStep(a, pid);
    forall t, a | inv(t) && Try(t, a).Some?
      ensures var u := Try(t, a).value; inv(u) && LeftFor(pid)(u) + (if mine(a) then 1 else 0) <= LeftFor(pid)(t)
    {
      OneLess(t, a, pid);
    }
    Runs.RankBounds(Try, inv, LeftFor(pid), mine, s, run);
  }

  // ---------- likes and cancels of one pair ----------

  predicate Succeeded(e: Entry, u: id64, v: id64) {
    e.op.FavoriteOp? && e.op.u == u && e.op.v == v && e.code == T.SUCCESS
  }

  function MarkOf(op: Op): Mark
    requires op.FavoriteOp?
  {
    if op.action == 1 then Put else Taken
  }

  /** The successful requests of a pair in order. */
  function PairLog(h: seq<Entry>, u: id64, v: id64): seq<Mark> {
    if h == [] then []
    else
      var k := |h| - 1;
      PairLog(h[..k], u, v) + (if Succeeded(h[k], u, v) then [MarkOf(h[k].op)] else [])
  }

  lemma OneRequest(db: T.DB, e: Entry, u: id64, v: id64)
    requires T.Valid(db) && (e.op.FavoriteOp? || e.op.PublishOp?)
    requires e.op.FavoriteOp? ==> Right(db, map[], e.op, Code(e.code))
    ensures if Succeeded(e, u, v)
            then T.Liked(After(db, e.op), u, v) == (e.op.action == 1) != T.Liked(db, u, v)
            else T.Liked(After(db, e.op), u, v) == T.Liked(db, u, v)
  {
    var op := e.op;
    if op.FavoriteOp? {
      var keep := T.NotLikes(op.u, op.v);
      WhereIn(db.favs, keep);
      AllKept(db.favs, keep);
      var added := db.favs + [T.Fav(op.u, op.v, op.now)];
      assert added[|db.favs|] in added;
    }
  }

  lemma LogStep(h: seq<Entry>, u: id64, v: id64)
    requires h != []
    ensures var e := h[|h| - 1];
      PairLog(h, u, v) == if Succeeded(e, u, v) then PairLog(h[..|h| - 1], u, v) + [MarkOf(e.op)]
        else PairLog(h[..|h| - 1], u, v)
  {
  }

  lemma LastDecided(h: seq<Entry>)
    requires h != [] && forall i :: 0 <= i < |h| ==> Decided(h, i)
    ensures var k := |h| - 1;
      && (forall i :: 0 <= i < k ==> Decided(h[..k], i))
      && TablesAt(h, |h|) == After(TablesAt(h[..k], k), h[k].op) && T.Valid(TablesAt(h[..k], k))
      && (h[k].op.FavoriteOp? ==> Right(TablesAt(h[..k], k), map[], h[k].op, Code(h[k].code)))
  {
    var k := |h| - 1;
    var g := h[..k];
    forall i | 0 <= i < k ensures Decided(g, i) {
      assert Decided(h, i) && g[..i] == h[..i];
    }
    assert Decided(h, k) && h[..|h|] == h && g[..k] == g && Ops(h)[..k] == Ops(g);
    RunValid(Ops(g));
  }

  lemma {:induction false} PairAlternates(h: seq<Entry>, u: id64, v: id64)
    requires forall i :: 0 <= i < |h| ==> Decided(h, i) && (h[i].op.FavoriteOp? || h[i].op.PublishOp?)
    ensures var log := PairLog(h, u, v);
      Alternates(log) && (T.Liked(TablesAt(h, |h|), u, v) <==> EndsPut(log))
  {
    if h != [] {
      var k := |h| - 1;
      var g := h[..k];
      LastDecided(h);
      PairAlternates(g, u, v);
      LogStep(h, u, v);
      hide Decided, TablesAt, T.Liked, Right, After, RunTables, T.Valid, Alternates, EndsPut, PairLog, Ops, Succeeded;
      OneRequest(TablesAt(g, k), h[k], u, v);
      if Succeeded(h[k], u, v) {
        OneMore(PairLog(g, u, v), MarkOf(h[k].op));
      }
    }
  }

  /**
   In every interleaving the successful likes and cancels of one pair alternate, starting with a like,
   and the row is there exactly after a like.
   */
  lemma LikesAlternate(run: seq<Action>, u: id64, v: id64)
    requires IsRun(run)
    ensures var t := Final(run);
      var log := PairLog(t.history, u, v);
      Alternates(log) && (T.Liked(t.db, u, v) <==> EndsPut(log))
  {
    RunInv(run);
    hide IsRun, Final, Alternates, EndsPut, PairLog, T.Liked, T.Valid;
    PairAlternates(Final(run).history, u, v);
  }

  /** And in every interleaving the three kinds of counts add up to the table. */
  lemma TotalsAlways(run: seq<Action>, users: seq<id64>, videos: seq<id64>)
    requires IsRun(run) && Distinct(users) && Distinct(videos)
    requires var db := Final(run).db;
      && (forall f :: f in db.favs ==> f.user in users && f.video in videos)
      && (forall v :: v in db.videos ==> v.author in users)
    ensures var db := Final(run).db;
      && Sum(videos, v => T.GetVideoFavoriteCount(db, v)) == |db.favs|
      && Sum(users, u => T.GetUserFavoriteCount(db, u)) == |db.favs|
      && Sum(users, u => T.GetUserTotalFavoritedCount(db, u)) == |db.favs|
  {
    Linearizable(run);
    FavoriteTotals(Final(run).db, users, videos);
  }
}
