/**
 Deadlocks between Lua engines.  A Lua scope takes the next engine's lock before it releases the
 previous one, so threads that cross from one engine to another can come to wait for each other.
 Without crossing they never do; with crossing, a thread is stuck exactly if its chain of holders
 closes in a cycle, and both orders of two engines lead there.
 */
module LuaDeadlocks {
  import opened Options
  import opened EngineScopes
  import opened ScopeOwnership
  import opened ScopeDeadlocks

  // ---- hold-and-wait ----

  /** A Lua thread is somewhere inside one of the four programs. */
  predicate LuaPosition(ts: ThreadState) {
    ts.phase.Busy? && ts.phase.ops != [] ==>
      var ops := ts.phase.ops;
      match ts.phase.next
      case Stay => |ops| == 1 && ops[0].Acquire?
      case Push(Exit(left)) => left.Some? && ops == [Unlock(left.value)]
      case Push(Enter(engine, needEnter, previous, _)) =>
        engine.Some? && needEnter && (ops == EnterOps(LuaVm, engine.value, previous) || ops == UnlockIf(previous))
      case Pop =>
        && ts.stack != [] && Top(ts.stack).Enter? && Top(ts.stack).engine.Some? && Top(ts.stack).needEnter
        && (ops == LeaveOps(LuaVm, Top(ts.stack).engine.value, Top(ts.stack).previous)
            || ops == [Unlock(Top(ts.stack).engine.value)])
  }

  ghost predicate LuaInv(s: State) {
    forall t | 0 <= t < |s.threads| :: LuaPosition(s.threads[t])
  }

  lemma LuaTail(s: State, ts: ThreadState)
    requires LuaPosition(ts) && ts.phase.Busy? && ts.phase.ops != []
    ensures LuaPosition(OpThread(s, ts))
  {
    assert ts.phase.ops[0].Acquire? || ts.phase.ops[0].Unlock?;
    if ts.phase.next.Push? && ts.phase.next.frame.Enter? && ts.phase.ops[0].Acquire? {
      assert ts.phase.ops[1..] == UnlockIf(ts.phase.next.frame.previous);
    } else if ts.phase.next.Pop? && ts.phase.ops[0].Acquire? {
      assert ts.phase.ops[1..] == [Unlock(Top(ts.stack).engine.value)];
    } else {
      assert ts.phase.ops[1..] == [];
    }
  }

  lemma LuaKeeps(s: State, a: Action)
    requires LuaInv(s) && Enabled(LuaVm, s, a)
    ensures LuaInv(Apply(LuaVm, s, a))
  {
    var s' := Apply(LuaVm, s, a);
    match a {
      case Destroy(_) =>
      case Advance(t) =>
        if s.threads[t].phase.ops != [] { LuaTail(s, s.threads[t]); }
        assert LuaPosition(s'.threads[t]);
      case Open(t, _) => assert s'.threads == s.threads || LuaPosition(s'.threads[t]);
      case OpenExit(t) => assert LuaPosition(s'.threads[t]);
      case Close(t) => assert LuaPosition(s'.threads[t]);
    }
  }

  lemma {:induction false} LuaRun(s: State, run: seq<Action>)
    requires LuaInv(s) && Allowed(LuaVm, s, run)
    ensures LuaInv(After(LuaVm, s, run))
    decreases |run|
  {
    if run != [] {
      LuaKeeps(s, run[0]);
      LuaRun(Apply(LuaVm, s, run[0]), run[1..]);
    }
  }

  /** The scope being constructed or destroyed has another engine's scope right below it. */
  predicate Crossing(ts: ThreadState) {
    && ts.phase.Busy?
    && match ts.phase.next
       case Push(frame) => frame.Enter? && frame.previous.Some?
       case Pop => ts.stack != [] && Top(ts.stack).Enter? && Top(ts.stack).previous.Some?
       case Stay => false
  }

  lemma LuaOwnsWhenAcquiring(ts: ThreadState)
    requires ThreadOk(LuaVm, ts) && LuaPosition(ts)
    requires ts.phase.Busy? && ts.phase.ops != [] && ts.phase.ops[0].Acquire?
    ensures Owned(ts) != {} <==> Crossing(ts)
  {
    var ops := ts.phase.ops;
    match ts.phase.next
    case Stay =>
      assert ops[1..] == [];
      assert OwnedBefore(ops, Locks(Current(ts.stack))) == Locks(Current(ts.stack)) - {ops[0].engine};
    case Pop =>
      var f := Top(ts.stack);
      var final := Locks(Current(FinalStack(ts)));
      assert FrameOk(f, Current(Below(ts.stack)));
      assert ops == LeaveOps(LuaVm, f.engine.value, f.previous);
      LeaveProgramOk(LuaVm, f.engine.value, f.previous);
    case Push(f) =>
      PushFrame(ts.stack, f);
      EnterProgram(LuaVm, f.engine.value, f.previous);
  }

  /** Hold-and-wait in Lua, exactly: a thread about to take a lock holds another one if and only
      if the scope it is entering or leaving sits directly inside another engine's scope. */
  lemma LuaHoldAndWait(n: nat, s: State, t: Tid)
    requires Reachable(LuaVm, n, s) && Acquiring(s, t)
    ensures (exists e :: Holds(s, t, e)) <==> Crossing(s.threads[t])
  {
    ReachableOk(LuaVm, n, s);
    var run :| Allowed(LuaVm, Initial(n), run) && After(LuaVm, Initial(n), run) == s;
    LuaRun(Initial(n), run);
    LuaOwnsWhenAcquiring(s.threads[t]);
    if Crossing(s.threads[t]) {
      var e :| e in Owned(s.threads[t]);
      assert Holds(s, t, e);
    } else {
      forall e ensures !Holds(s, t, e) { assert Holds(s, t, e) <==> e in Owned(s.threads[t]); }
    }
  }

  /** A thread that waits for a waiting thread needs a crossing scope. */
  lemma LuaDeadlockNeedsCrossing(n: nat, s: State, t: Tid)
    requires Reachable(LuaVm, n, s) && Waiting(s, t)
    ensures var holder := s.locks[Wanted(s, t)].owner;
            holder < |s.threads| && holder != t && (Waiting(s, holder) ==> Crossing(s.threads[holder]))
  {
    ReachableOk(LuaVm, n, s);
    var holder := s.locks[Wanted(s, t)].owner;
    assert Holds(s, holder, Wanted(s, t));
    if Waiting(s, holder) {
      LuaHoldAndWait(n, s, holder);
    }
  }

  // ---- no deadlock without crossing ----

  /** A scope of one engine is opened right inside another engine's scope. */
  predicate Crosses(s: State, a: Action) {
    a.Open? && a.t < |s.threads| && a.target.Some? && Current(s.threads[a.t].stack).Some?
    && Current(s.threads[a.t].stack) != a.target
  }

  predicate NeverCrosses(s: State, run: seq<Action>)
    requires Allowed(LuaVm, s, run)
    decreases |run|
  {
    run != [] ==> !Crosses(s, run[0]) && NeverCrosses(Apply(LuaVm, s, run[0]), run[1..])
  }

  /** No scope on the list, or under construction, was entered from another engine. */
  predicate Straight(ts: ThreadState) {
    && (forall f <- ts.stack :: f.Enter? && f.needEnter ==> f.previous.None?)
    && (ts.phase.Busy? && ts.phase.next.Push? ==>
          var f := ts.phase.next.frame; f.Enter? && f.needEnter ==> f.previous.None?)
  }

  ghost predicate AllStraight(s: State) {
    forall t | 0 <= t < |s.threads| :: Straight(s.threads[t])
  }

  /** Without crossing, the two orders of taking and releasing are the same order. */
  lemma SameStep(s: State, a: Action)
    requires Inv(JavaScriptCore, s) && AllStraight(s) && Enabled(LuaVm, s, a) && !Crosses(s, a)
    ensures Enabled(JavaScriptCore, s, a) && Apply(LuaVm, s, a) == Apply(JavaScriptCore, s, a)
  {
    match a {
      case Advance(t) => SameAdvance(s, t);
      case Close(t) =>
        var stack := s.threads[t].stack;
        assert Top(stack) in stack && Straight(s.threads[t]);
        if Top(stack).Enter? && Top(stack).engine.Some? { SamePrograms(Top(stack).engine.value); }
      case Open(_, target) =>
        if target.Some? { SamePrograms(target.value); }
      case OpenExit(_) =>
      case Destroy(_) =>
    }
  }

  lemma SamePrograms(e: Engine)
    ensures EnterOps(LuaVm, e, None) == EnterOps(JavaScriptCore, e, None) == [Acquire(e)]
    ensures LeaveOps(LuaVm, e, None) == LeaveOps(JavaScriptCore, e, None) == [Unlock(e)]
  {
  }

  lemma SameAdvance(s: State, t: Tid)
    requires Inv(JavaScriptCore, s) && Enabled(LuaVm, s, Advance(t))
    ensures Apply(LuaVm, s, Advance(t)) == Apply(JavaScriptCore, s, Advance(t))
  {
    var ts := s.threads[t];
    if ts.phase.ops != [] && ts.phase.ops[0].Acquire? {
      var e := ts.phase.ops[0].engine;
      assert e !in Owned(ts);
      assert !Holds(s, t, e);
    }
  }

  lemma StraightStep(s: State, a: Action)
    requires AllStraight(s) && Enabled(LuaVm, s, a) && !Crosses(s, a)
    ensures AllStraight(Apply(LuaVm, s, a))
  {
    if !a.Destroy? {
      var s' := Apply(LuaVm, s, a);
      assert Straight(s.threads[a.t]);
      StraightThread(s, a);
      assert forall u | 0 <= u < |s.threads| && u != a.t :: s'.threads[u] == s.threads[u];
    }
  }

  lemma StraightThread(s: State, a: Action)
    requires Enabled(LuaVm, s, a) && !a.Destroy? && Straight(s.threads[a.t]) && !Crosses(s, a)
    ensures Straight(Apply(LuaVm, s, a).threads[a.t])
  {
  }

  lemma {:induction false} SameRun(s: State, run: seq<Action>)
    requires Inv(JavaScriptCore, s) && AllStraight(s) && Allowed(LuaVm, s, run) && NeverCrosses(s, run)
    ensures Allowed(JavaScriptCore, s, run) && After(JavaScriptCore, s, run) == After(LuaVm, s, run)
    ensures AllStraight(After(LuaVm, s, run)) && Inv(JavaScriptCore, After(LuaVm, s, run))
    decreases |run|
  {
    if run != [] {
      SameStep(s, run[0]);
      StraightStep(s, run[0]);
      ActionKeeps(JavaScriptCore, s, run[0]);
      SameRun(Apply(LuaVm, s, run[0]), run[1..]);
    }
  }

  /** A thread that only leaves scopes does so in the same steps as well. */
  lemma {:induction false} SameLeaving(s: State, more: seq<Action>, u: Tid)
    requires Inv(JavaScriptCore, s) && AllStraight(s) && Allowed(JavaScriptCore, s, more)
    requires forall a <- more :: Leaves(a, u)
    ensures Allowed(LuaVm, s, more) && After(LuaVm, s, more) == After(JavaScriptCore, s, more)
    decreases |more|
  {
    if more != [] {
      assert more[0] in more && forall a <- more[1..] :: a in more;
      assert Enabled(LuaVm, s, more[0]);
      SameStep(s, more[0]);
      StraightStep(s, more[0]);
      ActionKeeps(JavaScriptCore, s, more[0]);
      SameLeaving(Apply(JavaScriptCore, s, more[0]), more[1..], u);
    }
  }

  /** Deadlock freedom in Lua for every run in which no scope is opened inside another engine's: as in
      the other backends a waiting thread holds nothing, and the holder can free the lock by its own
      steps. */
  lemma LuaDeadlockFree(n: nat, run: seq<Action>, s: State, t: Tid) returns (holder: Tid, more: seq<Action>)
    requires Allowed(LuaVm, Initial(n), run) && NeverCrosses(Initial(n), run) && After(LuaVm, Initial(n), run) == s
    requires Waiting(s, t)
    ensures forall e :: !Holds(s, t, e)
    ensures holder != t && !Waiting(s, holder) && Holds(s, holder, Wanted(s, t))
    ensures forall a <- more :: Leaves(a, holder)
    ensures Allowed(LuaVm, s, more) && Wanted(s, t) !in After(LuaVm, s, more).locks
  {
    InitialOk(JavaScriptCore, n);
    assert AllStraight(Initial(n));
    SameRun(Initial(n), run);
    assert Reachable(JavaScriptCore, n, s);
    holder, more := DeadlockFree(JavaScriptCore, n, s, t);
    SameLeaving(s, more, holder);
  }

  // ---- threads that wait for each other ----

  /** Every thread of the set waits for a lock that a thread of the set holds. */
  ghost predicate Bound(s: State, threads: set<Tid>) {
    forall t <- threads :: Waiting(s, t) && Holder(s, t) in threads
  }

  /** The thread that holds the lock t waits for. */
  function Holder(s: State, t: Tid): Tid
    requires Waiting(s, t)
  {
    s.locks[Wanted(s, t)].owner
  }

  /** Nobody can step in for such threads: locks are released only by their holders. */
  lemma BoundStep(b: Backend, s: State, threads: set<Tid>, a: Action)
    requires Bound(s, threads) && Enabled(b, s, a)
    ensures Bound(Apply(b, s, a), threads)
  {
    var s' := Apply(b, s, a);
    forall t | t in threads
      ensures Waiting(s', t) && Holder(s', t) in threads
    {
      assert Waiting(s, t) && Holder(s, t) in threads;
      assert Waiting(s, Holder(s, t));
      StaysWaiting(b, s, t, a);
    }
  }

  lemma StaysWaiting(b: Backend, s: State, t: Tid, a: Action)
    requires Waiting(s, t) && Waiting(s, Holder(s, t)) && Enabled(b, s, a)
    ensures Waiting(Apply(b, s, a), t) && Holder(Apply(b, s, a), t) == Holder(s, t)
  {
    var e := Wanted(s, t);
    var s' := Apply(b, s, a);
    assert s'.threads[t] == s.threads[t];
    LockStays(b, s, e, a);
  }

  /** A lock stays with its owner unless the owner itself advances. */
  lemma LockStays(b: Backend, s: State, e: Engine, a: Action)
    requires e in s.locks && Enabled(b, s, a) && a != Advance(s.locks[e].owner)
    ensures e in Apply(b, s, a).locks && Apply(b, s, a).locks[e].owner == s.locks[e].owner
  {
  }

  lemma {:induction false} BoundRun(s: State, threads: set<Tid>, run: seq<Action>)
    requires Bound(s, threads) && Allowed(LuaVm, s, run)
    ensures Bound(After(LuaVm, s, run), threads)
    decreases |run|
  {
    if run != [] {
      BoundStep(LuaVm, s, threads, run[0]);
      BoundRun(Apply(LuaVm, s, run[0]), threads, run[1..]);
    }
  }

  /** However the run goes on, the thread waits. */
  ghost predicate Stuck(s: State, t: Tid) {
    forall run :: Allowed(LuaVm, s, run) ==> Waiting(After(LuaVm, s, run), t)
  }

  lemma BoundIsStuck(s: State, threads: set<Tid>, t: Tid)
    requires Bound(s, threads) && t in threads
    ensures Stuck(s, t)
  {
    forall run | Allowed(LuaVm, s, run)
      ensures Waiting(After(LuaVm, s, run), t)
    {
      BoundRun(s, threads, run);
    }
  }

  // ---- stuck threads, exactly ----

  /** The k-th thread on the chain of holders that starts at t; it ends at a thread that can move. */
  function Follow(s: State, t: Tid, k: nat): Tid {
    if k == 0 then t
    else
      var u := Follow(s, t, k - 1);
      if Waiting(s, u) then Holder(s, u) else u
  }

  ghost predicate WaitingUpTo(s: State, t: Tid, n: nat) {
    forall k | 0 <= k < n :: Waiting(s, Follow(s, t, k))
  }

  /** The chain of holders comes back to a thread it has met, waiting all the way. */
  ghost predicate Cyclic(s: State, t: Tid) {
    exists p: nat, q: nat :: p < q && Follow(s, t, p) == Follow(s, t, q) && WaitingUpTo(s, t, q)
  }

  function Chain(s: State, t: Tid, n: nat): (threads: seq<Tid>)
    ensures |threads| == n && forall k | 0 <= k < n :: threads[k] == Follow(s, t, k)
  {
    seq(n, k requires 0 <= k < n => Follow(s, t, k))
  }

  /** The first n threads of the chain. */
  function OnChain(s: State, t: Tid, n: nat): set<Tid> {
    if n == 0 then {} else OnChain(s, t, n - 1) + {Follow(s, t, n - 1)}
  }

  lemma {:induction false} OnChainHas(s: State, t: Tid, n: nat, k: nat)
    requires k < n
    ensures Follow(s, t, k) in OnChain(s, t, n)
  {
    if k < n - 1 { OnChainHas(s, t, n - 1, k); }
  }

  function PlaceOnChain(s: State, t: Tid, n: nat, u: Tid): (k: nat)
    requires u in OnChain(s, t, n)
    ensures k < n && Follow(s, t, k) == u
  {
    if u == Follow(s, t, n - 1) then n - 1 else PlaceOnChain(s, t, n - 1, u)
  }

  lemma CycleIsBound(s: State, t: Tid, p: nat, q: nat)
    requires p < q && Follow(s, t, p) == Follow(s, t, q) && WaitingUpTo(s, t, q)
    ensures Bound(s, OnChain(s, t, q)) && t in OnChain(s, t, q)
  {
    forall u | u in OnChain(s, t, q)
      ensures Waiting(s, u) && Holder(s, u) in OnChain(s, t, q)
    {
      var k := PlaceOnChain(s, t, q, u);
      OnChainHas(s, t, q, if k + 1 < q then k + 1 else p);
      assert Waiting(s, u) && Follow(s, t, k + 1) == Holder(s, u);
    }
    OnChainHas(s, t, q, 0);
  }

  lemma {:induction false} Pigeonhole(f: seq<nat>, n: nat) returns (p: nat, q: nat)
    requires |f| > n && forall x <- f :: x < n
    ensures p < q < |f| && f[p] == f[q]
    decreases n
  {
    var last := f[|f| - 1];
    var front := f[..|f| - 1];
    if i :| 0 <= i < |front| && front[i] == last {
      p, q := i, |f| - 1;
    } else {
      // Without `last` the values fit below n - 1 when the greatest takes its place.
      var g := seq(|front|, i requires 0 <= i < |front| => if front[i] == n - 1 then last else front[i]);
      assert last in f;
      forall x | x in g
        ensures x < n - 1
      {
        var i :| 0 <= i < |g| && g[i] == x;
        assert front[i] in f && front[i] != last;
      }
      p, q := Pigeonhole(g, n - 1);
      assert front[p] != last && front[q] != last;
    }
  }

  /** The chain of holders stays among the threads. */
  lemma {:induction false} FollowInRange(s: State, t: Tid, k: nat)
    requires Inv(LuaVm, s) && t < |s.threads|
    ensures Follow(s, t, k) < |s.threads|
  {
    if k > 0 { FollowInRange(s, t, k - 1); }
  }

  lemma LongChainIsCyclic(s: State, t: Tid)
    requires Inv(LuaVm, s) && t < |s.threads| && WaitingUpTo(s, t, |s.threads|)
    ensures Cyclic(s, t)
  {
    var n := |s.threads|;
    var chain := Chain(s, t, n + 1);
    forall x | x in chain
      ensures x < n
    {
      var k :| 0 <= k < n + 1 && chain[k] == x;
      FollowInRange(s, t, k);
    }
    var p, q := Pigeonhole(chain, n);
    assert WaitingUpTo(s, t, q);
  }

  /** Only thread w has moved: the others, and the locks they hold, are as they were. */
  ghost predicate OnlyMoved(s: State, s': State, w: Tid) {
    && |s'.threads| == |s.threads|
    && (forall u | 0 <= u < |s.threads| && u != w :: s'.threads[u] == s.threads[u])
    && (forall e <- s.locks.Keys :: s.locks[e].owner != w ==> e in s'.locks && s'.locks[e].owner == s.locks[e].owner)
    && (forall e <- s'.locks.Keys ::
          s'.locks[e].owner == w || (e in s.locks && s.locks[e].owner == s'.locks[e].owner))
  }

  lemma StepMoves(s: State, a: Action, w: Tid)
    requires Enabled(LuaVm, s, a) && (a == Advance(w) || a == OpenExit(w))
    ensures OnlyMoved(s, Apply(LuaVm, s, a), w)
  {
    if a.Advance? && s.threads[w].phase.ops != [] { OpMoves(s, w, s.threads[w].phase.ops[0]); }
  }

  /** An operation of thread w changes only the locks that w has or gets. */
  lemma OpMoves(s: State, w: Tid, op: Op)
    requires op.Acquire? ==> FreeFor(s, w, op.engine)
    ensures var locks := OpShared(LuaVm, s, w, op).locks;
            && (forall e <- s.locks.Keys :: s.locks[e].owner != w ==> e in locks && locks[e].owner == s.locks[e].owner)
            && (forall e <- locks.Keys :: locks[e].owner == w || (e in s.locks && s.locks[e].owner == locks[e].owner))
  {
  }

  lemma MovedTwice(s: State, s1: State, s2: State, w: Tid)
    requires OnlyMoved(s, s1, w) && OnlyMoved(s1, s2, w)
    ensures OnlyMoved(s, s2, w)
  {
  }

  /** What follows the first operation of a Lua program releases a lock, if anything follows. */
  lemma OnlyFirstAcquires(ts: ThreadState)
    requires LuaPosition(ts) && ts.phase.Busy? && ts.phase.ops != []
    ensures |ts.phase.ops| > 1 ==> ts.phase.ops[1].Unlock?
  {
  }

  /** A thread that is not waiting finishes its constructor or destructor alone. */
  lemma {:induction false} FinishAlone(s: State, w: Tid) returns (run: seq<Action>)
    requires Inv(LuaVm, s) && LuaInv(s) && w < |s.threads| && !Waiting(s, w)
    ensures Allowed(LuaVm, s, run)
    ensures var s' := After(LuaVm, s, run);
            Inv(LuaVm, s') && LuaInv(s') && OnlyMoved(s, s', w) && s'.threads[w].phase.Running?
    decreases s.threads[w].phase.Busy?, |Program(s.threads[w])|
  {
    if s.threads[w].phase.Running? {
      run := [];
    } else {
      var a := Advance(w);
      var s1 := Apply(LuaVm, s, a);
      StepMoves(s, a, w);
      ActionKeeps(LuaVm, s, a);
      LuaKeeps(s, a);
      AdvanceShrinks(s, w);
      var tail := FinishAlone(s1, w);
      MovedTwice(s, s1, After(LuaVm, s1, tail), w);
      Cons(LuaVm, s, a, tail);
      run := [a] + tail;
    }
  }

  lemma AdvanceShrinks(s: State, w: Tid)
    requires LuaInv(s) && Enabled(LuaVm, s, Advance(w))
    ensures var s' := Apply(LuaVm, s, Advance(w));
            && |s'.threads| == |s.threads| && !Waiting(s', w)
            && (s'.threads[w].phase.Running? || |Program(s'.threads[w])| < |Program(s.threads[w])|)
  {
    var ts := s.threads[w];
    assert LuaPosition(ts);
    if ts.phase.ops != [] { OnlyFirstAcquires(ts); }
  }

  /** A thread that is not waiting can release any lock it holds alone: it finishes what it is doing
      and steps out of its engine. */
  lemma ReleaseAlone(s: State, w: Tid, e: Engine) returns (run: seq<Action>)
    requires Inv(LuaVm, s) && LuaInv(s) && w < |s.threads| && !Waiting(s, w) && Holds(s, w, e)
    ensures Allowed(LuaVm, s, run)
    ensures var s' := After(LuaVm, s, run);
            Inv(LuaVm, s') && LuaInv(s') && OnlyMoved(s, s', w) && e !in s'.locks
  {
    var first := FinishAlone(s, w);
    var s1 := After(LuaVm, s, first);
    run := first;
    if e in s1.locks {
      var second := StepOut(s1, w, e);
      MovedTwice(s, s1, After(LuaVm, s1, second), w);
      Concat(LuaVm, s, first, second);
      run := first + second;
    }
  }

  lemma StepOut(s: State, w: Tid, e: Engine) returns (run: seq<Action>)
    requires Inv(LuaVm, s) && LuaInv(s) && w < |s.threads| && s.threads[w].phase.Running? && Holds(s, w, e)
    ensures Allowed(LuaVm, s, run)
    ensures var s' := After(LuaVm, s, run);
            Inv(LuaVm, s') && LuaInv(s') && OnlyMoved(s, s', w) && e !in s'.locks
  {
    assert e in Owned(s.threads[w]);
    var s1 := Apply(LuaVm, s, OpenExit(w));
    ActionKeeps(LuaVm, s, OpenExit(w));
    LuaKeeps(s, OpenExit(w));
    StepMoves(s, OpenExit(w), w);
    assert s1.threads[w].phase.ops == [Unlock(e)];
    var s2 := Apply(LuaVm, s1, Advance(w));
    ActionKeeps(LuaVm, s1, Advance(w));
    LuaKeeps(s1, Advance(w));
    StepMoves(s1, Advance(w), w);
    MovedTwice(s, s1, s2, w);
    Cons(LuaVm, s1, Advance(w), []);
    Cons(LuaVm, s, OpenExit(w), [Advance(w)] + []);
    run := [OpenExit(w)] + ([Advance(w)] + []);
  }

  /** When the last thread of the chain has released the lock, the chain is one shorter. */
  lemma {:induction false} ChainKept(s: State, s': State, w: Tid, t: Tid, k: nat, j: nat)
    requires OnlyMoved(s, s', w) && WaitingUpTo(s, t, k) && !Waiting(s, w) && j < k
    requires forall i | 1 <= i <= j :: Follow(s, t, i) != w
    ensures Follow(s', t, j) == Follow(s, t, j) && WaitingUpTo(s', t, j)
  {
    if j > 0 {
      ChainKept(s, s', w, t, k, j - 1);
      var u := Follow(s, t, j - 1);
      assert Waiting(s, u) && Follow(s, t, j) != w;
      assert Waiting(s', u) && Holder(s', u) == Holder(s, u);
    }
  }

  lemma ShorterChain(s: State, s': State, t: Tid, k: nat)
    requires k > 0 && WaitingUpTo(s, t, k) && !Waiting(s, Follow(s, t, k)) && OnlyMoved(s, s', Follow(s, t, k))
    requires Waiting(s, Follow(s, t, k - 1)) ==> Wanted(s, Follow(s, t, k - 1)) !in s'.locks
    ensures WaitingUpTo(s', t, k - 1) && !Waiting(s', Follow(s', t, k - 1))
  {
    var u, w := Follow(s, t, k - 1), Follow(s, t, k);
    assert Waiting(s, u);
    forall i | 1 <= i <= k - 1 ensures Follow(s, t, i) != w { assert Waiting(s, Follow(s, t, i)); }
    ChainKept(s, s', w, t, k, k - 1);
    assert s'.threads[u] == s.threads[u];
  }

  lemma LastHolds(s: State, t: Tid, k: nat)
    requires Inv(LuaVm, s) && t < |s.threads| && k > 0 && WaitingUpTo(s, t, k)
    ensures Waiting(s, Follow(s, t, k - 1)) && Follow(s, t, k) < |s.threads|
    ensures Holds(s, Follow(s, t, k), Wanted(s, Follow(s, t, k - 1)))
    ensures WaitingUpTo(s, t, k - 1)
  {
    FollowInRange(s, t, k);
  }

  /** A state that some run leads to. */
  ghost predicate Reached(s: State) {
    exists n: nat, run: seq<Action> :: Leads(LuaVm, Initial(n), run, s)
  }

  lemma ReachedOk(s: State)
    requires Reached(s)
    ensures Inv(LuaVm, s) && LuaInv(s)
  {
    var n: nat, run: seq<Action> :| Leads(LuaVm, Initial(n), run, s);
    ReachableOk(LuaVm, n, s);
    LuaRun(Initial(n), run);
  }

  lemma ReachedOn(s: State, run: seq<Action>, s': State)
    requires Reached(s) && Leads(LuaVm, s, run, s')
    ensures Reached(s')
  {
    var n: nat, before: seq<Action> :| Leads(LuaVm, Initial(n), before, s);
    LeadsOn(LuaVm, Initial(n), before, s, run, s');
  }

  /** In a reachable state, a chain that ends, after k steps, at a thread that can move. */
  ghost predicate OpenChain(s: State, t: Tid, k: nat) {
    Reached(s) && t < |s.threads| && WaitingUpTo(s, t, k) && !Waiting(s, Follow(s, t, k))
  }

  /** The last thread releases the lock that the one before it waits for. */
  lemma Shorten(s: State, t: Tid, k: nat) returns (run: seq<Action>, s': State)
    requires OpenChain(s, t, k) && k > 0
    ensures Leads(LuaVm, s, run, s') && OpenChain(s', t, k - 1)
  {
    ReachedOk(s);
    LastHolds(s, t, k);
    run := ReleaseAlone(s, Follow(s, t, k), Wanted(s, Follow(s, t, k - 1)));
    s' := After(LuaVm, s, run);
    ReachedOn(s, run, s');
    ShorterChain(s, s', t, k);
  }

  lemma ChainDone(s: State, t: Tid)
    requires OpenChain(s, t, 0)
    ensures !Stuck(s, t)
  {
    assert Follow(s, t, 0) == t;
    assert Leads(LuaVm, s, [], s);
  }

  lemma StuckStays(s: State, run: seq<Action>, s': State, t: Tid)
    requires Stuck(s, t) && Leads(LuaVm, s, run, s')
    ensures Stuck(s', t)
  {
    forall more | Allowed(LuaVm, s', more)
      ensures Waiting(After(LuaVm, s', more), t)
    {
      Concat(LuaVm, s, run, more);
    }
  }

  lemma StuckShorter(s: State, t: Tid, k: nat) returns (s': State)
    requires OpenChain(s, t, k) && k > 0
    ensures OpenChain(s', t, k - 1) && (Stuck(s, t) ==> Stuck(s', t))
  {
    var run;
    run, s' := Shorten(s, t, k);
    if Stuck(s, t) { StuckStays(s, run, s', t); }
  }

  /** Such a chain can be undone from its end. */
  lemma {:induction false} Unblock(s: State, t: Tid, k: nat)
    requires OpenChain(s, t, k)
    ensures !Stuck(s, t)
    decreases k
  {
    if k == 0 {
      ChainDone(s, t);
    } else {
      var mid := StuckShorter(s, t, k);
      Unblock(mid, t, k - 1);
    }
  }

  lemma {:induction false} FirstToMove(s: State, t: Tid, n: nat) returns (k: nat)
    requires !WaitingUpTo(s, t, n)
    ensures WaitingUpTo(s, t, k) && !Waiting(s, Follow(s, t, k))
  {
    if WaitingUpTo(s, t, n - 1) { k := n - 1; } else { k := FirstToMove(s, t, n - 1); }
  }

  /** Deadlock in Lua, exactly: a thread waits under every continuation if and only if its chain of
      holders closes in a cycle. */
  lemma StuckIffCyclic(n: nat, s: State, t: Tid)
    requires Reachable(LuaVm, n, s) && t < |s.threads|
    ensures Stuck(s, t) <==> Cyclic(s, t)
  {
    var run :| Allowed(LuaVm, Initial(n), run) && After(LuaVm, Initial(n), run) == s;
    assert Leads(LuaVm, Initial(n), run, s);
    ReachedOk(s);
    if Cyclic(s, t) {
      var p: nat, q: nat :| p < q && Follow(s, t, p) == Follow(s, t, q) && WaitingUpTo(s, t, q);
      CycleIsBound(s, t, p, q);
      BoundIsStuck(s, OnChain(s, t, q), t);
    } else {
      if WaitingUpTo(s, t, |s.threads|) { LongChainIsCyclic(s, t); }
      var k := FirstToMove(s, t, |s.threads|);
      Unblock(s, t, k);
    }
  }

  // ---- both orders deadlock ----

  /** A thread outside any scope enters a free engine in three steps. */
  lemma LuaEntry(s: State, t: Tid, e: Engine) returns (run: seq<Action>)
    requires t < |s.threads| && s.threads[t] == ThreadState([], Running) && e !in s.locks && e !in s.destroying
    ensures Allowed(LuaVm, s, run)
    ensures After(LuaVm, s, run)
            == s.(threads := s.threads[t := ThreadState([Enter(Some(e), true, None, false)], Running)],
                  locks := s.locks[e := Hold(t, 1)])
  {
    var f := Enter(Some(e), true, None, false);
    assert EnterOps(LuaVm, e, None) == [Acquire(e)];
    var s1 := Apply(LuaVm, s, Open(t, Some(e)));
    assert s1 == WithThread(s, t, ThreadState([], Busy([Acquire(e)], Push(f))));
    var s2 := Apply(LuaVm, s1, Advance(t));
    assert [Acquire(e)][1..] == [];
    assert s2 == WithThread(s1, t, ThreadState([], Busy([], Push(f)))).(locks := s.locks[e := Hold(t, 1)]);
    assert [] + [f] == [f];
    Cons(LuaVm, s2, Advance(t), []);
    Cons(LuaVm, s1, Advance(t), [Advance(t)] + []);
    Cons(LuaVm, s, Open(t, Some(e)), [Advance(t)] + ([Advance(t)] + []));
    run := [Open(t, Some(e))] + ([Advance(t)] + ([Advance(t)] + []));
  }

  /** From inside its only engine a thread enters another free one, and has left the first. */
  lemma LuaNested(s: State, t: Tid, e: Engine, d: Engine) returns (run: seq<Action>)
    requires t < |s.threads| && s.threads[t] == ThreadState([Enter(Some(e), true, None, false)], Running)
    requires e != d && Holds(s, t, e) && s.locks[e].depth == 1 && d !in s.locks && d !in s.destroying
    ensures Allowed(LuaVm, s, run)
    ensures After(LuaVm, s, run)
            == s.(threads := s.threads[t := ThreadState([Enter(Some(e), true, None, false),
                                                         Enter(Some(d), true, Some(e), false)], Running)],
                  locks := s.locks[d := Hold(t, 1)] - {e})
  {
    var outer, f := Enter(Some(e), true, None, false), Enter(Some(d), true, Some(e), false);
    assert EnterOps(LuaVm, d, Some(e)) == [Acquire(d), Unlock(e)];
    var s1 := Apply(LuaVm, s, Open(t, Some(d)));
    assert s1 == WithThread(s, t, ThreadState([outer], Busy([Acquire(d), Unlock(e)], Push(f))));
    var s2 := Apply(LuaVm, s1, Advance(t));
    assert [Acquire(d), Unlock(e)][1..] == [Unlock(e)] && [Unlock(e)][1..] == [];
    assert s2 == WithThread(s1, t, ThreadState([outer], Busy([Unlock(e)], Push(f))))
                 .(locks := s.locks[d := Hold(t, 1)]);
    var s3 := Apply(LuaVm, s2, Advance(t));
    assert s3 == WithThread(s2, t, ThreadState([outer], Busy([], Push(f)))).(locks := s.locks[d := Hold(t, 1)] - {e});
    assert [outer] + [f] == [outer, f];
    Cons(LuaVm, s3, Advance(t), []);
    Cons(LuaVm, s2, Advance(t), [Advance(t)] + []);
    Cons(LuaVm, s1, Advance(t), [Advance(t)] + ([Advance(t)] + []));
    Cons(LuaVm, s, Open(t, Some(d)), [Advance(t)] + ([Advance(t)] + ([Advance(t)] + [])));
    run := [Open(t, Some(d))] + ([Advance(t)] + ([Advance(t)] + ([Advance(t)] + [])));
  }

  /** Two idle threads and two free engines. */
  predicate TwoIdle(s: State, t: Tid, u: Tid, e: Engine, d: Engine) {
    && t != u && t < |s.threads| && u < |s.threads| && e != d
    && s.threads[t] == s.threads[u] == ThreadState([], Running)
    && e !in s.locks && d !in s.locks && e !in s.destroying && d !in s.destroying
  }

  /** Both threads are stuck for good, each waiting for the other. */
  ghost predicate Deadlocked(s: State, t: Tid, u: Tid) {
    && Waiting(s, t) && Waiting(s, u) && Holder(s, t) == u && Holder(s, u) == t
    && Stuck(s, t) && Stuck(s, u)
    && (|s.threads| == 2 ==> forall a: Action :: Enabled(LuaVm, s, a) ==> a.Destroy?)
  }

  lemma EachOther(s: State, t: Tid, u: Tid)
    requires t != u && Waiting(s, t) && Waiting(s, u) && Holder(s, t) == u && Holder(s, u) == t
    ensures Deadlocked(s, t, u)
  {
    BoundIsStuck(s, {t, u}, t);
    BoundIsStuck(s, {t, u}, u);
  }

  /** Thread t, inside e, enters d, and thread u, inside d, enters e. */
  lemma CrossBoth(s: State, t: Tid, u: Tid, e: Engine, d: Engine) returns (run: seq<Action>)
    requires t != u && t < |s.threads| && u < |s.threads| && e != d && Holds(s, t, e) && Holds(s, u, d)
    requires s.threads[t] == ThreadState([Enter(Some(e), true, None, false)], Running)
    requires s.threads[u] == ThreadState([Enter(Some(d), true, None, false)], Running)
    requires e !in s.destroying && d !in s.destroying
    ensures Allowed(LuaVm, s, run) && Deadlocked(After(LuaVm, s, run), t, u)
  {
    assert EnterOps(LuaVm, d, Some(e)) == [Acquire(d), Unlock(e)];
    assert EnterOps(LuaVm, e, Some(d)) == [Acquire(e), Unlock(d)];
    var s1 := Apply(LuaVm, s, Open(t, Some(d)));
    var s2 := Apply(LuaVm, s1, Open(u, Some(e)));
    Cons(LuaVm, s1, Open(u, Some(e)), []);
    Cons(LuaVm, s, Open(t, Some(d)), [Open(u, Some(e))] + []);
    EachOther(s2, t, u);
    run := [Open(t, Some(d))] + ([Open(u, Some(e))] + []);
  }

  /** Thread t, inside d inside e, goes back to e, and thread u, inside e, enters d. */
  lemma BackAndIn(s: State, t: Tid, u: Tid, e: Engine, d: Engine) returns (run: seq<Action>)
    requires t != u && t < |s.threads| && u < |s.threads| && e != d && Holds(s, t, d) && Holds(s, u, e)
    requires s.threads[t]
             == ThreadState([Enter(Some(e), true, None, false), Enter(Some(d), true, Some(e), false)], Running)
    requires s.threads[u] == ThreadState([Enter(Some(e), true, None, false)], Running)
    requires d !in s.destroying
    ensures Allowed(LuaVm, s, run) && Deadlocked(After(LuaVm, s, run), t, u)
  {
    assert LeaveOps(LuaVm, d, Some(e)) == [Acquire(e), Unlock(d)];
    assert EnterOps(LuaVm, d, Some(e)) == [Acquire(d), Unlock(e)];
    var s1 := Apply(LuaVm, s, Close(t));
    var s2 := Apply(LuaVm, s1, Open(u, Some(d)));
    Cons(LuaVm, s1, Open(u, Some(d)), []);
    Cons(LuaVm, s, Close(t), [Open(u, Some(d))] + []);
    EachOther(s2, t, u);
    run := [Close(t)] + ([Open(u, Some(d))] + []);
  }

  /** Entering two engines in opposite order: wherever two threads are idle and two engines free, a
      deadlock can follow. */
  lemma OppositeOrderDeadlocks(s: State, t: Tid, u: Tid, e: Engine, d: Engine) returns (run: seq<Action>)
    requires TwoIdle(s, t, u, e, d)
    ensures Allowed(LuaVm, s, run) && Deadlocked(After(LuaVm, s, run), t, u)
  {
    var first := LuaEntry(s, t, e);
    var s1 := After(LuaVm, s, first);
    var second := LuaEntry(s1, u, d);
    var third := CrossBoth(After(LuaVm, s1, second), t, u, e, d);
    Concat(LuaVm, s1, second, third);
    Concat(LuaVm, s, first, second + third);
    run := first + (second + third);
  }

  /** Entering them in the same order does not help: one thread on its way back to the outer engine
      waits for the other one, which is on its way to the inner engine. */
  lemma SameOrderDeadlocks(s: State, t: Tid, u: Tid, e: Engine, d: Engine) returns (run: seq<Action>)
    requires TwoIdle(s, t, u, e, d)
    ensures Allowed(LuaVm, s, run) && Deadlocked(After(LuaVm, s, run), t, u)
  {
    var first := LuaEntry(s, t, e);
    var s1 := After(LuaVm, s, first);
    var second := LuaNested(s1, t, e, d);
    var s2 := After(LuaVm, s1, second);
    var third := LuaEntry(s2, u, e);
    var fourth := BackAndIn(After(LuaVm, s2, third), t, u, e, d);
    Concat(LuaVm, s2, third, fourth);
    Concat(LuaVm, s1, second, third + fourth);
    Concat(LuaVm, s, first, second + (third + fourth));
    run := first + (second + (third + fourth));
  }

  /** So both are reachable from the start, for any two engines. */
  lemma LuaDeadlockReachable(n: nat, t: Tid, u: Tid, e: Engine, d: Engine) returns (opposite: State, same: State)
    requires t < n && u < n && t != u && e != d
    ensures Reachable(LuaVm, n, opposite) && Deadlocked(opposite, t, u)
    ensures Reachable(LuaVm, n, same) && Deadlocked(same, t, u)
  {
    var run := OppositeOrderDeadlocks(Initial(n), t, u, e, d);
    opposite := After(LuaVm, Initial(n), run);
    run := SameOrderDeadlocks(Initial(n), t, u, e, d);
    same := After(LuaVm, Initial(n), run);
  }
}
