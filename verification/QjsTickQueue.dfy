/**
 The message queue that QuickJS posts its ticks to: what a shutdown does to them, and how much room the
 queue needs so that no thread waits for room with an engine's lock in hand.
 */
module QjsTickQueue {
  import opened Options
  import opened EngineScopes
  import opened ScopeOwnership
  import opened ScopeDeadlocks
  import opened QjsTicks

  // ---- a thread that enters, adds a job and leaves ----

  /** A scope of e that entered it from outside. */
  function OnlyScope(e: Engine): Frame {
    Enter(Some(e), true, None, false)
  }

  function Idle(): ThreadState {
    ThreadState([], Running)
  }

  function Inside(e: Engine): ThreadState {
    ThreadState([OnlyScope(e)], Running)
  }

  /** In the destructor of its only scope, about to post a tick. */
  function AboutToPost(e: Engine): ThreadState {
    ThreadState([OnlyScope(e)], Busy([TickPost(e), Unlock(e)], Pop))
  }

  lemma GoIn(s: State, t: Tid, e: Engine) returns (s': State, run: seq<Action>)
    requires t < |s.threads| && s.threads[t] == Idle() && e !in s.locks && e !in s.destroying
    ensures Leads(QuickJs, s, run, s')
    ensures s' == s.(threads := s.threads[t := Inside(e)], locks := s.locks[e := Hold(t, 1)])
  {
    assert EnterOps(QuickJs, e, None) == [Acquire(e)] && [Acquire(e)][1..] == [];
    assert [] + [OnlyScope(e)] == [OnlyScope(e)];
    var s1 := Apply(QuickJs, s, Open(t, Some(e)));
    assert s1 == WithThread(s, t, ThreadState([], Busy([Acquire(e)], Push(OnlyScope(e)))));
    var s2 := Apply(QuickJs, s1, Advance(t));
    assert s2 == WithThread(s1, t, ThreadState([], Busy([], Push(OnlyScope(e))))).(locks := s.locks[e := Hold(t, 1)]);
    s' := Apply(QuickJs, s2, Advance(t));
    Cons(QuickJs, s2, Advance(t), []);
    Cons(QuickJs, s1, Advance(t), [Advance(t)] + []);
    Cons(QuickJs, s, Open(t, Some(e)), [Advance(t)] + ([Advance(t)] + []));
    run := [Open(t, Some(e))] + ([Advance(t)] + ([Advance(t)] + []));
  }

  lemma AddOneJob(s: State, t: Tid, e: Engine) returns (s': State, run: seq<Action>)
    requires t < |s.threads| && s.threads[t] == Inside(e)
    ensures Leads(QuickJs, s, run, s') && s' == s.(pending := s.pending + multiset{e})
  {
    s' := Apply(QuickJs, s, AddJob(t));
    run := [AddJob(t)] + [];
    Cons(QuickJs, s, AddJob(t), []);
  }

  lemma UpToPost(s: State, t: Tid, e: Engine) returns (s': State, run: seq<Action>)
    requires t < |s.threads| && s.threads[t] == Inside(e)
    requires e !in s.destroying && e !in s.scheduled && s.pending[e] > 0
    ensures Leads(QuickJs, s, run, s')
    ensures s' == s.(threads := s.threads[t := AboutToPost(e)], scheduled := s.scheduled + {e})
  {
    var stack := [OnlyScope(e)];
    var check, cas, unlock := TickCheck(e), TickCas(e), Unlock(e);
    assert LeaveOps(QuickJs, e, None) == [check, unlock] && [check, unlock][1..] == [unlock];
    assert [cas] + [unlock] == [cas, unlock] && [cas, unlock][1..] == [unlock];
    assert [TickPost(e)] + [unlock] == [TickPost(e), unlock];
    var s1 := Apply(QuickJs, s, Close(t));
    assert s1 == WithThread(s, t, ThreadState(stack, Busy([check, unlock], Pop)));
    var s2 := Apply(QuickJs, s1, Advance(t));
    assert s2 == WithThread(s1, t, ThreadState(stack, Busy([cas, unlock], Pop)));
    s' := Apply(QuickJs, s2, Advance(t));
    Cons(QuickJs, s2, Advance(t), []);
    Cons(QuickJs, s1, Advance(t), [Advance(t)] + []);
    Cons(QuickJs, s, Close(t), [Advance(t)] + ([Advance(t)] + []));
    run := [Close(t)] + ([Advance(t)] + ([Advance(t)] + []));
  }

  /** From outside to the post of a tick for a new job. */
  lemma InToPost(s: State, t: Tid, e: Engine) returns (s': State, run: seq<Action>)
    requires t < |s.threads| && s.threads[t] == Idle() && e !in s.locks && e !in s.destroying && e !in s.scheduled
    ensures Leads(QuickJs, s, run, s')
    ensures s' == s.(threads := s.threads[t := AboutToPost(e)], locks := s.locks[e := Hold(t, 1)],
                     pending := s.pending + multiset{e}, scheduled := s.scheduled + {e})
  {
    var s1, first := GoIn(s, t, e);
    var s2, second := AddOneJob(s1, t, e);
    var third;
    s', third := UpToPost(s2, t, e);
    LeadsOn(QuickJs, s1, second, s2, third, s');
    LeadsOn(QuickJs, s, first, s1, second + third, s');
    run := first + (second + third);
    assert s.threads[t := Inside(e)][t := AboutToPost(e)] == s.threads[t := AboutToPost(e)];
  }

  /** What the post does to the queue. */
  function Posted(s: State, e: Engine): State {
    if e in s.closed then s.(dropped := s.dropped + multiset{e}) else s.(queued := s.queued + multiset{e})
  }

  lemma PostAndLeave(s: State, t: Tid, e: Engine) returns (s': State, run: seq<Action>)
    requires t < |s.threads| && s.threads[t] == AboutToPost(e) && Holds(s, t, e) && s.locks[e].depth == 1
    ensures Leads(QuickJs, s, run, s')
    ensures s' == Posted(s, e).(threads := s.threads[t := Idle()], locks := s.locks - {e})
  {
    var stack := [OnlyScope(e)];
    assert [TickPost(e), Unlock(e)][1..] == [Unlock(e)] && [Unlock(e)][1..] == [] && Below(stack) == [];
    var s1 := Apply(QuickJs, s, Advance(t));
    assert s1 == WithThread(Posted(s, e), t, ThreadState(stack, Busy([Unlock(e)], Pop)));
    var s2 := Apply(QuickJs, s1, Advance(t));
    assert s2 == WithThread(s1, t, ThreadState(stack, Busy([], Pop))).(locks := s.locks - {e});
    s' := Apply(QuickJs, s2, Advance(t));
    Cons(QuickJs, s2, Advance(t), []);
    Cons(QuickJs, s1, Advance(t), [Advance(t)] + []);
    Cons(QuickJs, s, Advance(t), [Advance(t)] + ([Advance(t)] + []));
    run := [Advance(t)] + ([Advance(t)] + ([Advance(t)] + []));
  }

  /** All of it: the job is pending and its tick posted. */
  lemma OneTickPosted(s: State, t: Tid, e: Engine) returns (s': State, run: seq<Action>)
    requires t < |s.threads| && s.threads[t] == Idle() && e !in s.locks && e !in s.destroying && e !in s.scheduled
    ensures Leads(QuickJs, s, run, s')
    ensures s' == Posted(s, e).(pending := s.pending + multiset{e}, scheduled := s.scheduled + {e})
  {
    var s1, first := InToPost(s, t, e);
    var second;
    s', second := PostAndLeave(s1, t, e);
    LeadsOn(QuickJs, s, first, s1, second, s');
    run := first + second;
    ThereAndBack(s, t, e);
  }

  lemma ThereAndBack(s: State, t: Tid, e: Engine)
    requires t < |s.threads| && s.threads[t] == Idle() && e !in s.locks
    ensures s.locks[e := Hold(t, 1)] - {e} == s.locks
    ensures s.threads[t := AboutToPost(e)][t := Idle()] == s.threads
  {
  }

  // ---- a shutdown ----

  /** Shutting down the queue of a living engine is enough to lose a job: for every engine there is a
      run that leaves a pending job, no thread near the engine, and no tick, now or ever. */
  lemma JobLostAfterShutdown(e: Engine) returns (run: seq<Action>, s: State)
    ensures Allowed(QuickJs, Initial(1), run) && After(QuickJs, Initial(1), run) == s && Drops(Initial(1), run, e)
    ensures e !in s.destroying && s.pending[e] > 0 && s.queued[e] == 0 && forall ts <- s.threads :: Away(ts, e)
    ensures forall more :: Allowed(QuickJs, s, more) ==> Outstanding(After(QuickJs, s, more), e) == 0
  {
    var s0 := Apply(QuickJs, Initial(1), Shutdown(e));
    var tail;
    s, tail := OneTickPosted(s0, 0, e);
    Cons(QuickJs, Initial(1), Shutdown(e), tail);
    run := [Shutdown(e)] + tail;
    DroppedByRun(Initial(1), run, e);
    assert Reachable(QuickJs, 1, s);
    forall more | Allowed(QuickJs, s, more)
      ensures Outstanding(After(QuickJs, s, more), e) == 0
    {
      DroppedForGood(1, s, e, more);
    }
  }

  // ---- room in the queue ----

  lemma {:induction false} CountBound(ticks: multiset<Engine>, engines: set<Engine>)
    requires forall e: Engine :: ticks[e] <= if e in engines then 1 else 0
    ensures |ticks| <= |engines|
  {
    if engines == {} {
      assert ticks == multiset{};
    } else {
      var e :| e in engines;
      CountBound(ticks[e := 0], engines - {e});
      assert ticks == ticks[e := 0] + multiset{e}[e := ticks[e]];
    }
  }

  /** The thread is about to post a tick. */
  predicate Posts(s: State, t: Tid) {
    t < |s.threads| && s.threads[t].phase.Busy? && s.threads[t].phase.ops != [] && s.threads[t].phase.ops[0].TickPost?
  }

  /** The engines that have a tick queued, and the one that t posts for, are among these. */
  ghost predicate Among(s: State, t: Tid, engines: set<Engine>) {
    && (forall e: Engine :: s.queued[e] > 0 ==> e in engines)
    && (Posts(s, t) ==> s.threads[t].phase.ops[0].engine in engines)
  }

  /** When a tick is about to be posted, fewer ticks are queued than there are engines. */
  lemma RoomForTick(n: nat, s: State, t: Tid, engines: set<Engine>)
    requires Reachable(QuickJs, n, s) && Posts(s, t) && Among(s, t, engines)
    ensures |s.queued| < |engines|
  {
    var e := s.threads[t].phase.ops[0].engine;
    assert Posting(Program(s.threads[t]), e) >= 1;
    TotalAtLeast(s.threads, t, e);
    forall d: Engine
      ensures s.queued[d] <= if d in engines - {e} then 1 else 0
    {
      TickAccount(n, s, d);
    }
    CountBound(s.queued, engines - {e});
  }

  /** `postMessage` waits: the thread posts a tick, and ticks fill the room that the messages of others
      leave in the queue. */
  predicate Blocked(s: State, t: Tid, room: nat) {
    Posts(s, t) && |s.queued| >= room
  }

  /** The capacity that a queue needs, exactly: with these engines no thread ever waits for room if and
      only if there is a slot for each of them besides those that other messages take. */
  lemma RoomExact(engines: set<Engine>, room: nat)
    ensures (forall n, s, t :: Reachable(QuickJs, n, s) && Among(s, t, engines) ==> !Blocked(s, t, room))
            <==> |engines| <= room
  {
    if |engines| <= room {
      forall n, s, t | Reachable(QuickJs, n, s) && Among(s, t, engines)
        ensures !Blocked(s, t, room)
      {
        if Posts(s, t) { RoomForTick(n, s, t, engines); }
      }
    } else {
      var e :| e in engines;
      var s := FullQueue(engines, e);
      assert Blocked(s, 0, room);
    }
  }

  lemma {:induction false} QueueTicks(s: State, t: Tid, engines: set<Engine>) returns (s': State, run: seq<Action>)
    requires t < |s.threads| && s.threads[t] == Idle() && s.closed == {}
    requires engines !! s.locks.Keys && engines !! s.destroying && engines !! s.scheduled
    ensures Leads(QuickJs, s, run, s')
    ensures s' == s.(pending := s.pending + multiset(engines), scheduled := s.scheduled + engines,
                     queued := s.queued + multiset(engines))
    decreases engines
  {
    if engines == {} {
      s', run := s, [];
    } else {
      var e :| e in engines;
      var s1, first := OneTickPosted(s, t, e);
      var rest;
      s', rest := QueueTicks(s1, t, engines - {e});
      LeadsOn(QuickJs, s, first, s1, rest, s');
      run := first + rest;
      OneAndTheOthers(s, engines, e);
    }
  }

  lemma OneAndTheOthers(s: State, engines: set<Engine>, e: Engine)
    requires e in engines
    ensures multiset{e} + multiset(engines - {e}) == multiset(engines)
    ensures s.pending + multiset{e} + multiset(engines - {e}) == s.pending + multiset(engines)
    ensures s.queued + multiset{e} + multiset(engines - {e}) == s.queued + multiset(engines)
    ensures s.scheduled + {e} + (engines - {e}) == s.scheduled + engines
  {
    assert multiset{e} + multiset(engines - {e}) == multiset(engines);
  }

  /** With less room a jam is reachable: thread 0 holds the lock of e and waits for room to post its tick,
      while the queue has a tick of each other engine and thread 1, on its way into e for a message,
      waits for the lock. */
  lemma FullQueue(engines: set<Engine>, e: Engine) returns (s: State)
    requires e in engines
    ensures Reachable(QuickJs, 2, s) && Posts(s, 0) && Among(s, 0, engines) && |s.queued| == |engines| - 1
    ensures Holds(s, 0, e) && Waiting(s, 1) && Wanted(s, 1) == e && !TopIsTick(s.threads[0])
  {
    var s1, first := QueueTicks(Initial(2), 0, engines - {e});
    var s2, second := JamOver(s1, e);
    s := s2;
    LeadsOn(QuickJs, Initial(2), first, s1, second, s);
    assert s.queued == multiset(engines - {e});
  }

  /** Thread 0 gets to the post of its tick, and thread 1 to the lock. */
  lemma JamOver(s: State, e: Engine) returns (s': State, run: seq<Action>)
    requires s.threads == [Idle(), Idle()] && e !in s.locks && e !in s.destroying && e !in s.scheduled
    ensures Leads(QuickJs, s, run, s') && s'.queued == s.queued && |s'.threads| == 2
    ensures s'.threads[0] == AboutToPost(e) && Holds(s', 0, e) && Waiting(s', 1) && Wanted(s', 1) == e
  {
    var s1, first := InToPost(s, 0, e);
    var second;
    s', second := OpenWaits(s1, e);
    LeadsOn(QuickJs, s, first, s1, second, s');
    run := first + second;
  }

  lemma OpenWaits(s: State, e: Engine) returns (s': State, run: seq<Action>)
    requires s.threads == [AboutToPost(e), Idle()] && Holds(s, 0, e) && e !in s.destroying
    ensures Leads(QuickJs, s, run, s') && s'.queued == s.queued && |s'.threads| == 2
    ensures s'.threads[0] == AboutToPost(e) && Holds(s', 0, e) && Waiting(s', 1) && Wanted(s', 1) == e
  {
    assert EnterOps(QuickJs, e, None) == [Acquire(e)];
    s' := Apply(QuickJs, s, Open(1, Some(e)));
    run := [Open(1, Some(e))] + [];
    Cons(QuickJs, s, Open(1, Some(e)), []);
  }

  // ---- deadlock freedom with a bounded queue ----

  predicate EngineIn(e: Option<Engine>, engines: set<Engine>) {
    e.Some? ==> e.value in engines
  }

  predicate FrameIn(f: Frame, engines: set<Engine>) {
    match f
    case Enter(e, _, previous, _) => EngineIn(e, engines) && EngineIn(previous, engines)
    case Exit(left) => EngineIn(left, engines)
  }

  /** Only these engines occur in the thread. */
  predicate ThreadIn(ts: ThreadState, engines: set<Engine>) {
    && (forall f <- ts.stack :: FrameIn(f, engines))
    && (ts.phase.Busy? ==>
          && (forall op <- ts.phase.ops :: op.engine in engines)
          && (ts.phase.next.Push? ==> FrameIn(ts.phase.next.frame, engines)))
  }

  /** Only these engines occur in the thread, and have ticks queued. */
  ghost predicate OnlyThese(s: State, u: Tid, engines: set<Engine>) {
    && u < |s.threads| && ThreadIn(s.threads[u], engines)
    && (forall e: Engine :: s.queued[e] > 0 ==> e in engines)
  }

  lemma LeavingStaysIn(s: State, a: Action, u: Tid, engines: set<Engine>)
    requires Enabled(QuickJs, s, a) && Leaves(a, u) && OnlyThese(s, u, engines)
    ensures OnlyThese(Apply(QuickJs, s, a), u, engines)
  {
    var ts := s.threads[u];
    if ts.stack != [] {
      assert Top(ts.stack) in ts.stack;
      TopLeavesIn(Top(ts.stack), engines);
    }
    if a.Advance? && ts.phase.ops != [] {
      assert ts.phase.ops[0] in ts.phase.ops;
      OpStaysIn(s, ts, engines);
      QueueStaysIn(s, u, ts.phase.ops[0], engines);
    }
  }

  lemma TopLeavesIn(f: Frame, engines: set<Engine>)
    requires FrameIn(f, engines)
    ensures f.Enter? ==> forall op <- LeaveProgram(QuickJs, f) :: op.engine in engines
    ensures f.Exit? ==> forall op <- AcquireIf(f.left) :: op.engine in engines
  {
  }

  lemma OpStaysIn(s: State, ts: ThreadState, engines: set<Engine>)
    requires ts.phase.Busy? && ts.phase.ops != [] && ThreadIn(ts, engines)
    ensures ThreadIn(OpThread(s, ts), engines)
  {
    assert ts.phase.ops[0] in ts.phase.ops;
    assert forall op <- ts.phase.ops[1..] :: op in ts.phase.ops;
    if ts.phase.ops[0].ClearFlag? && ts.stack != [] {
      assert Top(ts.stack) in ts.stack;
      assert forall f <- SetTick(ts.stack, false) ::
          f in ts.stack || (Top(ts.stack).Enter? && f == Top(ts.stack).(tick := false));
    }
  }

  lemma QueueStaysIn(s: State, u: Tid, op: Op, engines: set<Engine>)
    requires op.engine in engines && forall e: Engine :: s.queued[e] > 0 ==> e in engines
    ensures forall e: Engine :: OpShared(QuickJs, s, u, op).queued[e] > 0 ==> e in engines
  {
  }

  /** The thread never waits for room on this run of its own. */
  ghost predicate NeverBlocked(s: State, run: seq<Action>, u: Tid, room: nat)
    requires Allowed(QuickJs, s, run)
    decreases |run|
  {
    !Blocked(s, u, room) && (run != [] ==> NeverBlocked(Apply(QuickJs, s, run[0]), run[1..], u, room))
  }

  lemma {:induction false} LeavesUnblocked(n: nat, s: State, run: seq<Action>, u: Tid, engines: set<Engine>, room: nat)
    requires Reachable(QuickJs, n, s) && Allowed(QuickJs, s, run) && (forall a <- run :: Leaves(a, u))
    requires OnlyThese(s, u, engines) && |engines| <= room
    ensures NeverBlocked(s, run, u, room)
    decreases |run|
  {
    if Posts(s, u) {
      assert s.threads[u].phase.ops[0] in s.threads[u].phase.ops;
      RoomForTick(n, s, u, engines);
    }
    if run != [] {
      assert run[0] in run && forall a <- run[1..] :: a in run;
      LeavingStaysIn(s, run[0], u, engines);
      ReachableOn(n, s, run[0]);
      LeavesUnblocked(n, Apply(QuickJs, s, run[0]), run[1..], u, engines, room);
    }
  }

  lemma ReachableOn(n: nat, s: State, a: Action)
    requires Reachable(QuickJs, n, s) && Enabled(QuickJs, s, a)
    ensures Reachable(QuickJs, n, Apply(QuickJs, s, a))
  {
    var run :| Allowed(QuickJs, Initial(n), run) && After(QuickJs, Initial(n), run) == s;
    Cons(QuickJs, s, a, []);
    Concat(QuickJs, Initial(n), run, [a] + []);
  }

  /** Deadlock freedom with a bounded queue: with a slot for each engine that the holder and the queue
      know, besides those that other messages take, the holder frees the lock without ever waiting for
      room. */
  lemma DeadlockFreeWithRoom(n: nat, s: State, t: Tid, engines: set<Engine>, room: nat)
    returns (holder: Tid, more: seq<Action>)
    requires Reachable(QuickJs, n, s) && Waiting(s, t) && |engines| <= room
    requires forall u | 0 <= u < |s.threads| :: OnlyThese(s, u, engines)
    ensures holder != t && !Waiting(s, holder) && Holds(s, holder, Wanted(s, t))
    ensures forall a <- more :: Leaves(a, holder)
    ensures Allowed(QuickJs, s, more) && Wanted(s, t) !in After(QuickJs, s, more).locks
    ensures NeverBlocked(s, more, holder, room)
  {
    holder, more := DeadlockFree(QuickJs, n, s, t);
    ReachableOk(QuickJs, n, s);
    LeavesUnblocked(n, s, more, holder, engines, room);
  }
}
