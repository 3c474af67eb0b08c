/**
 What the ownership invariant means for callers: exact ownership, mutual exclusion, and deadlock
 freedom of QuickJS and JavaScriptCore, which release the previous engine before they take the next
 one.  Lua takes the next one first; `LuaDeadlocks` says what follows.
 */
module ScopeDeadlocks {
  import opened Options
  import opened EngineScopes
  import opened ScopeOwnership

  /** How many times thread t holds the lock of engine e. */
  function Depth(s: State, t: Tid, e: Engine): nat {
    if Holds(s, t, e) then s.locks[e].depth else 0
  }

  /** Thread t is about to take a lock (and waits while another thread has it). */
  predicate Acquiring(s: State, t: Tid) {
    t < |s.threads| && s.threads[t].phase.Busy? && s.threads[t].phase.ops != [] && s.threads[t].phase.ops[0].Acquire?
  }

  function Wanted(s: State, t: Tid): Engine
    requires Acquiring(s, t)
  {
    s.threads[t].phase.ops[0].engine
  }

  /** Outside scope constructors and destructors a thread holds its current engine's lock, once,
      and no other. */
  lemma ExactOwnership(b: Backend, n: nat, s: State, t: Tid, e: Engine)
    requires Reachable(b, n, s) && t < |s.threads| && s.threads[t].phase.Running?
    ensures Depth(s, t, e) == if Current(s.threads[t].stack) == Some(e) then 1 else 0
  {
    ReachableOk(b, n, s);
    assert Holds(s, t, e) <==> e in Owned(s.threads[t]);
  }

  lemma OneThreadPerEngine(b: Backend, n: nat, s: State, t: Tid, u: Tid)
    requires Reachable(b, n, s) && t < |s.threads| && u < |s.threads|
    requires s.threads[t].phase.Running? && s.threads[u].phase.Running?
    requires Current(s.threads[t].stack).Some? && Current(s.threads[t].stack) == Current(s.threads[u].stack)
    ensures t == u
  {
    var e := Current(s.threads[t].stack).value;
    ExactOwnership(b, n, s, t, e);
    ExactOwnership(b, n, s, u, e);
  }

  /** No run unlocks a mutex its thread does not own or locks a mutex its thread already owns: in
      particular Lua's non-recursive mutex is never re-entered. */
  lemma NoMisuse(b: Backend, n: nat, s: State, t: Tid)
    requires Reachable(b, n, s)
    ensures !s.fault
    ensures forall e <- s.locks.Keys :: s.locks[e].depth == 1 && s.locks[e].owner < n
    ensures Acquiring(s, t) ==> !Holds(s, t, Wanted(s, t))
  {
    ReachableOk(b, n, s);
    if Acquiring(s, t) {
      assert Wanted(s, t) !in Owned(s.threads[t]);
    }
  }

  // ---- QuickJS and JavaScriptCore ----

  /** A thread about to take a lock holds none. */
  lemma AcquiresEmptyHanded(b: Backend, s: State, t: Tid, e: Engine)
    requires Inv(b, s) && !b.LuaVm? && Acquiring(s, t)
    ensures !Holds(s, t, e)
  {
    assert Owned(s.threads[t]) == {};
    assert Holds(s, t, e) <==> e in Owned(s.threads[t]);
  }

  /** The next thing thread t does when it only leaves scopes. */
  function LeaveAction(s: State, t: Tid): Action
    requires t < |s.threads|
  {
    if s.threads[t].phase.Busy? then Advance(t)
    else if TopIsTick(s.threads[t]) then EndDrain(t)
    else Close(t)
  }

  predicate Leaves(a: Action, t: Tid) {
    a == Advance(t) || a == EndDrain(t) || a == Close(t)
  }

  function Cost(ops: seq<Op>): nat {
    if ops == [] then 0
    else (match ops[0] case TickCheck(_) => 3 case TickCas(_) => 2 case _ => 1) + Cost(ops[1..])
  }

  /** Only QuickJS opens scopes for tick handlers. */
  predicate TickFree(ts: ThreadState) {
    && (forall f <- ts.stack :: f.Enter? ==> !f.tick)
    && (ts.phase.Busy? && ts.phase.next.Push? && ts.phase.next.frame.Enter? ==> !ts.phase.next.frame.tick)
  }

  ghost predicate NoTicks(b: Backend, s: State) {
    b.QuickJs? || forall t | 0 <= t < |s.threads| :: TickFree(s.threads[t])
  }

  lemma NoTicksKeeps(b: Backend, s: State, a: Action)
    requires NoTicks(b, s) && Enabled(b, s, a)
    ensures NoTicks(b, Apply(b, s, a))
  {
    if !b.QuickJs? && !a.Destroy? {
      var s' := Apply(b, s, a);
      TickFreeStep(b, s, a);
      assert forall u | 0 <= u < |s.threads| && u != a.t :: s'.threads[u] == s.threads[u];
    }
  }

  lemma TickFreeStep(b: Backend, s: State, a: Action)
    requires !b.QuickJs? && Enabled(b, s, a) && !a.Destroy? && TickFree(s.threads[a.t])
    ensures TickFree(Apply(b, s, a).threads[a.t])
  {
    var ts := s.threads[a.t];
    match a
    case Open(t, target) =>
      if target.Some? {
        var begun := BeginEnter(b, ts.stack, target.value, target.value in s.destroying, false);
        assert begun.Some? ==> TickFree(begun.value);
      }
    case Advance(t) =>
    case OpenExit(t) =>
    case Close(t) => assert TickFree(BeginClose(b, ts.stack));
  }

  lemma {:induction false} RunHasNoTicks(b: Backend, s: State, run: seq<Action>)
    requires NoTicks(b, s) && Allowed(b, s, run)
    ensures NoTicks(b, After(b, s, run))
    decreases |run|
  {
    if run != [] {
      NoTicksKeeps(b, s, run[0]);
      RunHasNoTicks(b, Apply(b, s, run[0]), run[1..]);
    }
  }

  lemma ReachableNoTicks(b: Backend, n: nat, s: State)
    requires Reachable(b, n, s)
    ensures NoTicks(b, s)
  {
    var run :| Allowed(b, Initial(n), run) && After(b, Initial(n), run) == s;
    RunHasNoTicks(b, Initial(n), run);
  }

  lemma LeaveEnabled(b: Backend, s: State, u: Tid, e: Engine)
    requires Inv(b, s) && NoTicks(b, s) && !b.LuaVm? && u < |s.threads| && Holds(s, u, e)
    ensures !Acquiring(s, u) && Enabled(b, s, LeaveAction(s, u))
  {
    assert e in Owned(s.threads[u]);
    if Acquiring(s, u) {
      AcquiresEmptyHanded(b, s, u, e);
    }
  }

  lemma CostDrops(s: State, ts: ThreadState)
    requires ts.phase.Busy? && ts.phase.ops != []
    ensures |FinalStack(OpThread(s, ts))| == |FinalStack(ts)|
    ensures Cost(Program(OpThread(s, ts))) < Cost(Program(ts))
  {
    var rest := ts.phase.ops[1..];
    assert ([TickCas(ts.phase.ops[0].engine)] + rest)[1..] == rest;
    assert ([TickPost(ts.phase.ops[0].engine)] + rest)[1..] == rest;
  }

  predicate Closer(ts: ThreadState, ts': ThreadState) {
    || |FinalStack(ts')| < |FinalStack(ts)|
    || (|FinalStack(ts')| == |FinalStack(ts)| && ts.phase.Busy? && ts'.phase.Running?)
    || (|FinalStack(ts')| == |FinalStack(ts)| && ts.phase.Busy? == ts'.phase.Busy?
        && Cost(Program(ts')) < Cost(Program(ts)))
  }

  /** One leaving step either frees the lock or keeps it and comes closer to freeing it. */
  lemma LeaveProgress(b: Backend, s: State, u: Tid, e: Engine)
    requires Inv(b, s) && !b.LuaVm? && u < |s.threads| && Holds(s, u, e)
    requires !Acquiring(s, u) && Enabled(b, s, LeaveAction(s, u))
    ensures var s' := Apply(b, s, LeaveAction(s, u));
            && |s'.threads| == |s.threads|
            && (e !in s'.locks || (Holds(s', u, e) && Closer(s.threads[u], s'.threads[u])))
  {
    var ts := s.threads[u];
    ThreadCount(b, s, LeaveAction(s, u));
    if ts.phase.Busy? && ts.phase.ops != [] {
      CostDrops(s, ts);
    } else if ts.phase.Running? {
      assert ts.stack != [];
    }
  }

  /** Whoever holds a lock can free it alone: there is a continuation made of the holder's own
      leaving steps after which the lock is free, whatever the other threads are waiting for. */
  lemma {:induction false} HolderCanFree(b: Backend, s: State, u: Tid, e: Engine)
    returns (more: seq<Action>)
    requires Inv(b, s) && NoTicks(b, s) && !b.LuaVm? && u < |s.threads| && Holds(s, u, e)
    ensures forall a <- more :: Leaves(a, u)
    ensures Allowed(b, s, more) && e !in After(b, s, more).locks
    decreases |FinalStack(s.threads[u])|, s.threads[u].phase.Busy?, Cost(Program(s.threads[u]))
  {
    LeaveEnabled(b, s, u, e);
    LeaveProgress(b, s, u, e);
    var a := LeaveAction(s, u);
    var s' := Apply(b, s, a);
    ActionKeeps(b, s, a);
    NoTicksKeeps(b, s, a);
    var tail := [];
    if e in s'.locks {
      tail := HolderCanFree(b, s', u, e);
    }
    more := [a] + tail;
    assert more[1..] == tail;
  }

  /** Deadlock freedom: whenever some thread waits for a lock, it holds no lock itself, and the
      holder is another thread that is not waiting and can free the lock by its own steps. */
  lemma DeadlockFree(b: Backend, n: nat, s: State, t: Tid) returns (holder: Tid, more: seq<Action>)
    requires Reachable(b, n, s) && !b.LuaVm? && Waiting(s, t)
    ensures forall e :: !Holds(s, t, e)
    ensures holder != t && !Waiting(s, holder) && Holds(s, holder, Wanted(s, t))
    ensures forall a <- more :: Leaves(a, holder)
    ensures Allowed(b, s, more) && Wanted(s, t) !in After(b, s, more).locks
  {
    ReachableOk(b, n, s);
    ReachableNoTicks(b, n, s);
    forall e ensures !Holds(s, t, e) { AcquiresEmptyHanded(b, s, t, e); }
    holder := s.locks[Wanted(s, t)].owner;
    LeaveEnabled(b, s, holder, Wanted(s, t));
    more := HolderCanFree(b, s, holder, Wanted(s, t));
  }
}
