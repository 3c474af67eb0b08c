/**
 What scope objects do for the thread that constructs and destroys them, on every backend and whatever
 the other threads do meanwhile: which scopes are open afterwards, which engine is current and which
 locks the thread holds.
 */
module ScopeEffects {
  import opened Options
  import opened EngineScopes
  import opened ScopeOwnership
  import opened ScopeDeadlocks

  // ---- while a constructor or destructor is at work ----

  /** A step of another thread, or the next step of what thread t is doing. */
  predicate Meanwhile(a: Action, t: Tid) {
    a.Destroy? || a.Shutdown? || a.DropTick? || a.t != t || a == Advance(t)
  }

  predicate AllMeanwhile(run: seq<Action>, t: Tid) {
    forall a <- run :: Meanwhile(a, t)
  }

  /** Only a program that ends with its scope taken away clears a flag. */
  predicate Steady(ts: ThreadState) {
    ts.phase.Busy? ==> forall op <- ts.phase.ops :: op.ClearFlag? ==> ts.phase.next.Pop?
  }

  lemma OpSteady(s: State, ts: ThreadState)
    requires ts.phase.Busy? && ts.phase.ops != [] && Steady(ts)
    ensures Steady(OpThread(s, ts)) && FinalStack(OpThread(s, ts)) == FinalStack(ts)
  {
    assert ts.phase.ops[0] in ts.phase.ops;
    assert forall op <- ts.phase.ops[1..] :: op in ts.phase.ops;
    if ts.phase.ops[0].ClearFlag? && ts.stack != [] && Top(ts.stack).Enter? {
      assert Below(SetTick(ts.stack, false)) == Below(ts.stack);
    }
  }

  lemma StepSteady(b: Backend, s: State, a: Action, t: Tid)
    requires Enabled(b, s, a) && Meanwhile(a, t) && t < |s.threads| && Steady(s.threads[t])
    ensures var s' := Apply(b, s, a);
            && t < |s'.threads| && Steady(s'.threads[t]) && FinalStack(s'.threads[t]) == FinalStack(s.threads[t])
  {
    if a == Advance(t) {
      if s.threads[t].phase.ops != [] { OpSteady(s, s.threads[t]); }
    } else {
      assert Apply(b, s, a).threads[t] == s.threads[t];
    }
  }

  lemma {:induction false} RunSteady(b: Backend, s: State, run: seq<Action>, t: Tid)
    requires Allowed(b, s, run) && AllMeanwhile(run, t) && t < |s.threads| && Steady(s.threads[t])
    ensures var s' := After(b, s, run);
            t < |s'.threads| && FinalStack(s'.threads[t]) == FinalStack(s.threads[t])
    decreases |run|
  {
    if run != [] {
      assert run[0] in run && forall a <- run[1..] :: a in run;
      StepSteady(b, s, run[0], t);
      RunSteady(b, Apply(b, s, run[0]), run[1..], t);
    }
  }

  // ---- afterwards ----

  /** The thread is between scope operations with exactly these scopes open: the engine of the innermost
      one is current, and its lock, once, is all that the thread holds. */
  ghost predicate Settled(s: State, t: Tid, stack: seq<Frame>, current: Option<Engine>) {
    && t < |s.threads| && s.threads[t] == ThreadState(stack, Running) && Current(stack) == current
    && (forall e: Engine :: Holds(s, t, e) <==> current == Some(e))
    && (current.Some? ==> s.locks[current.value].depth == 1)
  }

  lemma RunningSettled(b: Backend, s: State, t: Tid)
    requires Inv(b, s) && t < |s.threads| && s.threads[t].phase.Running?
    ensures Settled(s, t, s.threads[t].stack, Current(s.threads[t].stack))
  {
    forall e: Engine
      ensures Holds(s, t, e) <==> Current(s.threads[t].stack) == Some(e)
    {
      assert Holds(s, t, e) <==> e in Owned(s.threads[t]);
    }
  }

  /** The program that action a starts, once it is finished. */
  lemma Finished(b: Backend, s: State, a: Action, t: Tid, run: seq<Action>)
    requires Inv(b, s) && Enabled(b, s, a) && t < |s.threads| && Steady(Apply(b, s, a).threads[t])
    requires Allowed(b, Apply(b, s, a), run) && AllMeanwhile(run, t)
    ensures var s1, s' := Apply(b, s, a), After(b, Apply(b, s, a), run);
            && |s'.threads| == |s.threads|
            && (s'.threads[t].phase.Running? ==>
                  Settled(s', t, FinalStack(s1.threads[t]), Current(FinalStack(s1.threads[t]))))
  {
    var s1 := Apply(b, s, a);
    ActionKeeps(b, s, a);
    ThreadCount(b, s, a);
    RunKeeps(b, s1, run);
    RunSteady(b, s1, run, t);
    if After(b, s1, run).threads[t].phase.Running? { RunningSettled(b, After(b, s1, run), t); }
  }

  /** A constructed `EngineScope`: the engine is current, its lock is the one that the thread holds, and
      the scopes from before are below.  Nothing of that comes about exactly when it throws. */
  lemma Entered(b: Backend, n: nat, s: State, t: Tid, e: Engine, run: seq<Action>)
    requires Reachable(b, n, s) && Enabled(b, s, Open(t, Some(e)))
    requires e !in s.destroying || Current(s.threads[t].stack) == Some(e)
    requires Allowed(b, Apply(b, s, Open(t, Some(e))), run) && AllMeanwhile(run, t)
    ensures var stack, s' := s.threads[t].stack, After(b, Apply(b, s, Open(t, Some(e))), run);
            var frame := Enter(Some(e), Current(stack) != Some(e), Current(stack), false);
            t < |s'.threads| && (s'.threads[t].phase.Running? ==> Settled(s', t, stack + [frame], Some(e)))
  {
    ReachableOk(b, n, s);
    StepSteadyOpen(b, s.threads[t].stack, e, e in s.destroying, false);
    Finished(b, s, Open(t, Some(e)), t, run);
  }

  lemma StepSteadyOpen(b: Backend, stack: seq<Frame>, e: Engine, destroying: bool, tick: bool)
    requires !destroying || Current(stack) == Some(e)
    ensures var begun := BeginEnter(b, stack, e, destroying, tick);
            && begun.Some? && Steady(begun.value) && begun.value.phase.Busy?
            && FinalStack(begun.value) == stack + [Enter(Some(e), Current(stack) != Some(e), Current(stack), tick)]
  {
  }

  /** The public constructor with a null engine leaves the scopes as they were, and throws. */
  lemma NullRefused(b: Backend, n: nat, s: State, t: Tid, run: seq<Action>)
    requires Reachable(b, n, s) && Enabled(b, s, Open(t, None))
    requires Allowed(b, Apply(b, s, Open(t, None)), run) && AllMeanwhile(run, t)
    ensures var stack, s' := s.threads[t].stack, After(b, Apply(b, s, Open(t, None)), run);
            t < |s'.threads| && (s'.threads[t].phase.Running? ==> Settled(s', t, stack, Current(stack)))
  {
    ReachableOk(b, n, s);
    var stack := s.threads[t].stack;
    assert Below(stack + [Enter(None, false, None, false)]) == stack;
    Finished(b, s, Open(t, None), t, run);
  }

  /** A constructed `ExitEngineScope`: no engine is current, the thread holds no lock, and the scopes from
      before are below. */
  lemma Exited(b: Backend, n: nat, s: State, t: Tid, run: seq<Action>)
    requires Reachable(b, n, s) && Enabled(b, s, OpenExit(t))
    requires Allowed(b, Apply(b, s, OpenExit(t)), run) && AllMeanwhile(run, t)
    ensures var stack, s' := s.threads[t].stack, After(b, Apply(b, s, OpenExit(t)), run);
            t < |s'.threads| && (s'.threads[t].phase.Running? ==> Settled(s', t, stack + [Exit(Current(stack))], None))
  {
    ReachableOk(b, n, s);
    Finished(b, s, OpenExit(t), t, run);
  }

  /** A destroyed scope object, of either kind: the scopes below it are left, and the engine that was
      current in them is current again. */
  lemma Left(b: Backend, n: nat, s: State, t: Tid, run: seq<Action>)
    requires Reachable(b, n, s) && Enabled(b, s, Close(t))
    requires Allowed(b, Apply(b, s, Close(t)), run) && AllMeanwhile(run, t)
    ensures var stack, s' := s.threads[t].stack, After(b, Apply(b, s, Close(t)), run);
            var below := stack[..|stack| - 1];
            t < |s'.threads| && (s'.threads[t].phase.Running? ==> Settled(s', t, below, Current(below)))
  {
    ReachableOk(b, n, s);
    Finished(b, s, Close(t), t, run);
  }

  /** A tick handler enters its engine like any other scope, and leaves it. */
  lemma Handled(n: nat, s: State, t: Tid, e: Engine, run: seq<Action>)
    requires Reachable(QuickJs, n, s) && Enabled(QuickJs, s, StartTick(t, e))
    requires e !in s.destroying || Current(s.threads[t].stack) == Some(e)
    requires Allowed(QuickJs, Apply(QuickJs, s, StartTick(t, e)), run) && AllMeanwhile(run, t)
    ensures var stack, s' := s.threads[t].stack, After(QuickJs, Apply(QuickJs, s, StartTick(t, e)), run);
            var frame := Enter(Some(e), Current(stack) != Some(e), Current(stack), true);
            t < |s'.threads| && (s'.threads[t].phase.Running? ==> Settled(s', t, stack + [frame], Some(e)))
  {
    ReachableOk(QuickJs, n, s);
    StepSteadyOpen(QuickJs, s.threads[t].stack, e, e in s.destroying, true);
    Finished(QuickJs, s, StartTick(t, e), t, run);
  }

  lemma Drained(n: nat, s: State, t: Tid, run: seq<Action>)
    requires Reachable(QuickJs, n, s) && Enabled(QuickJs, s, EndDrain(t))
    requires Allowed(QuickJs, Apply(QuickJs, s, EndDrain(t)), run) && AllMeanwhile(run, t)
    ensures var stack, s' := s.threads[t].stack, After(QuickJs, Apply(QuickJs, s, EndDrain(t)), run);
            var below := stack[..|stack| - 1];
            t < |s'.threads| && (s'.threads[t].phase.Running? ==> Settled(s', t, below, Current(below)))
  {
    ReachableOk(QuickJs, n, s);
    Finished(QuickJs, s, EndDrain(t), t, run);
  }

  // ---- and they get there ----

  /** No other thread has a lock that the rest of the program takes. */
  predicate Clear(s: State, t: Tid) {
    t < |s.threads| && forall op <- Program(s.threads[t]) :: op.Acquire? ==> FreeFor(s, t, op.engine)
  }

  lemma AdvanceClear(b: Backend, s: State, t: Tid)
    requires Clear(s, t) && s.threads[t].phase.Busy?
    ensures Enabled(b, s, Advance(t))
    ensures var s' := Apply(b, s, Advance(t));
            Clear(s', t) && (s'.threads[t].phase.Busy? ==>
                               Cost(Program(s'.threads[t])) < Cost(Program(s.threads[t])))
  {
    var ts := s.threads[t];
    if ts.phase.ops != [] {
      assert ts.phase.ops[0] in ts.phase.ops;
      CostDrops(s, ts);
      OpKinds(s, ts);
      forall d | FreeFor(s, t, d) ensures FreeFor(DoOp(b, s, t), t, d) { StaysFree(b, s, t, d); }
      forall op | op in Program(OpThread(s, ts)) && op.Acquire?
        ensures FreeFor(DoOp(b, s, t), t, op.engine)
      {
        assert op in ts.phase.ops;
      }
    }
  }

  lemma OpKinds(s: State, ts: ThreadState)
    requires ts.phase.Busy? && ts.phase.ops != []
    ensures forall op <- Program(OpThread(s, ts)) :: op in ts.phase.ops || op.TickCas? || op.TickPost?
  {
  }

  lemma StaysFree(b: Backend, s: State, t: Tid, d: Engine)
    requires t < |s.threads| && s.threads[t].phase.Busy? && s.threads[t].phase.ops != [] && FreeFor(s, t, d)
    ensures FreeFor(DoOp(b, s, t), t, d)
  {
  }

  /** A thread comes to the end of what it is doing by its own steps if nobody has a lock that it takes. */
  lemma {:induction false} Completes(b: Backend, s: State, t: Tid) returns (run: seq<Action>)
    requires Clear(s, t)
    ensures Allowed(b, s, run) && (forall a <- run :: a == Advance(t))
    ensures t < |After(b, s, run).threads| && After(b, s, run).threads[t].phase.Running?
    decreases s.threads[t].phase.Busy?, Cost(Program(s.threads[t]))
  {
    if s.threads[t].phase.Running? {
      run := [];
    } else {
      AdvanceClear(b, s, t);
      var rest := Completes(b, Apply(b, s, Advance(t)), t);
      Cons(b, s, Advance(t), rest);
      run := [Advance(t)] + rest;
    }
  }

  /** So stepping out of an engine is always possible, and never waits. */
  lemma ExitCompletes(b: Backend, n: nat, s: State, t: Tid) returns (run: seq<Action>)
    requires Reachable(b, n, s) && t < |s.threads| && s.threads[t].phase.Running?
    ensures Enabled(b, s, OpenExit(t)) && Allowed(b, Apply(b, s, OpenExit(t)), run)
    ensures forall a <- run :: a == Advance(t)
    ensures var stack, s' := s.threads[t].stack, After(b, Apply(b, s, OpenExit(t)), run);
            Settled(s', t, stack + [Exit(Current(stack))], None)
  {
    run := Completes(b, Apply(b, s, OpenExit(t)), t);
    Exited(b, n, s, t, run);
  }

  /** Entering and leaving take one lock at most, and wait only while another thread has it. */
  lemma EnterCompletes(b: Backend, n: nat, s: State, t: Tid, e: Engine) returns (run: seq<Action>)
    requires Reachable(b, n, s) && t < |s.threads| && s.threads[t].phase.Running? && FreeFor(s, t, e)
    requires e !in s.destroying || Current(s.threads[t].stack) == Some(e)
    ensures Enabled(b, s, Open(t, Some(e))) && Allowed(b, Apply(b, s, Open(t, Some(e))), run)
    ensures forall a <- run :: a == Advance(t)
    ensures var stack, s' := s.threads[t].stack, After(b, Apply(b, s, Open(t, Some(e))), run);
            var frame := Enter(Some(e), Current(stack) != Some(e), Current(stack), false);
            Settled(s', t, stack + [frame], Some(e))
  {
    run := Completes(b, Apply(b, s, Open(t, Some(e))), t);
    Entered(b, n, s, t, e, run);
  }

  lemma LeaveCompletes(b: Backend, n: nat, s: State, t: Tid) returns (run: seq<Action>)
    requires Reachable(b, n, s) && Enabled(b, s, Close(t))
    requires var below := Current(Below(s.threads[t].stack)); below.Some? ==> FreeFor(s, t, below.value)
    ensures Allowed(b, Apply(b, s, Close(t)), run) && forall a <- run :: a == Advance(t)
    ensures var stack, s' := s.threads[t].stack, After(b, Apply(b, s, Close(t)), run);
            var below := stack[..|stack| - 1];
            Settled(s', t, below, Current(below))
  {
    ReachableOk(b, n, s);
    assert StackOk(s.threads[t].stack);
    run := Completes(b, Apply(b, s, Close(t)), t);
    Left(b, n, s, t, run);
  }

  // ---- a destroyed engine stays closed ----

  /** The thread is in no scope that entered e, nor on its way into one. */
  predicate Outside(ts: ThreadState, e: Engine) {
    && (forall f <- ts.stack :: NotOf(f, e))
    && (ts.phase.Busy? && ts.phase.next.Push? ==> NotOf(ts.phase.next.frame, e))
  }

  predicate NotOf(f: Frame, e: Engine) {
    if f.Enter? then f.engine != Some(e) else f.left != Some(e)
  }

  lemma OutsideCurrent(ts: ThreadState, e: Engine)
    requires Outside(ts, e)
    ensures Current(ts.stack) != Some(e)
    ensures ts.stack != [] ==> NotOf(Top(ts.stack), e) && forall f <- Below(ts.stack) :: NotOf(f, e)
  {
    if ts.stack != [] { assert Top(ts.stack) in ts.stack && forall f <- Below(ts.stack) :: f in ts.stack; }
  }

  lemma OutsideAdvance(b: Backend, s: State, e: Engine, t: Tid)
    requires Enabled(b, s, Advance(t)) && Outside(s.threads[t], e)
    ensures Outside(Apply(b, s, Advance(t)).threads[t], e)
  {
    var ts := s.threads[t];
    OutsideCurrent(ts, e);
    if ts.phase.ops == [] {
      assert forall f <- FinishStack(ts.stack, ts.phase.next) ::
          f in ts.stack || (ts.phase.next.Push? && f == ts.phase.next.frame);
    } else if ts.phase.ops[0].ClearFlag? {
      assert forall f <- SetTick(ts.stack, false) ::
          f in ts.stack || (Top(ts.stack).Enter? && f == Top(ts.stack).(tick := false));
    }
  }

  lemma OutsideOpen(b: Backend, ts: ThreadState, d: Engine, destroying: set<Engine>, tick: bool, e: Engine)
    requires Outside(ts, e) && e in destroying
    ensures var begun := BeginEnter(b, ts.stack, d, d in destroying, tick); begun.Some? ==> Outside(begun.value, e)
  {
    OutsideCurrent(ts, e);
  }

  lemma OutsideClose(b: Backend, ts: ThreadState, e: Engine)
    requires Outside(ts, e) && ts.stack != []
    ensures Outside(BeginClose(b, ts.stack), e)
    ensures forall ops: seq<Op>, next: Then | !next.Push? :: Outside(ThreadState(ts.stack, Busy(ops, next)), e)
  {
    OutsideCurrent(ts, e);
  }

  lemma OutsideStep(b: Backend, s: State, a: Action, e: Engine, t: Tid)
    requires Enabled(b, s, a) && e in s.destroying && t < |s.threads| && Outside(s.threads[t], e)
    ensures var s' := Apply(b, s, a); e in s'.destroying && t < |s'.threads| && Outside(s'.threads[t], e)
  {
    var ts := s.threads[t];
    StaysDestroying(b, s, a, e);
    if Meanwhile(a, t) && a != Advance(t) {
      assert Apply(b, s, a).threads[t] == ts;
    } else {
      OutsideCurrent(ts, e);
      match a
      case Advance(_) => OutsideAdvance(b, s, e, t);
      case Open(_, target) => if target.Some? { OutsideOpen(b, ts, target.value, s.destroying, false, e); }
      case StartTick(_, d) => OutsideOpen(b, ts, d, s.destroying, true, e);
      case Close(_) => OutsideClose(b, ts, e);
      case EndDrain(_) => OutsideClose(b, ts, e);
      case _ =>
    }
  }

  lemma StaysDestroying(b: Backend, s: State, a: Action, e: Engine)
    requires Enabled(b, s, a) && e in s.destroying
    ensures e in Apply(b, s, a).destroying && |Apply(b, s, a).threads| == |s.threads|
  {
    if a.Advance? && s.threads[a.t].phase.ops != [] { OpDestroysNothing(b, s, a.t, s.threads[a.t].phase.ops[0]); }
  }

  lemma OpDestroysNothing(b: Backend, s: State, t: Tid, op: Op)
    ensures OpShared(b, s, t, op).destroying == s.destroying
  {
  }

  /** Once an engine is being destroyed nobody gets into it any more. */
  lemma {:induction false} DestroyedStaysClosed(b: Backend, s: State, run: seq<Action>, e: Engine, t: Tid)
    requires Allowed(b, s, run) && e in s.destroying && t < |s.threads| && Outside(s.threads[t], e)
    ensures var s' := After(b, s, run);
            && e in s'.destroying && t < |s'.threads|
            && Outside(s'.threads[t], e) && Current(s'.threads[t].stack) != Some(e)
    decreases |run|
  {
    if run != [] {
      OutsideStep(b, s, run[0], e, t);
      DestroyedStaysClosed(b, Apply(b, s, run[0]), run[1..], e, t);
    } else if s.threads[t].stack != [] {
      assert Top(s.threads[t].stack) in s.threads[t].stack;
    }
  }

  /** Destroying it starts that, and takes its ticks away. */
  lemma DestroyCloses(b: Backend, s: State, e: Engine, run: seq<Action>, t: Tid)
    requires Allowed(b, Apply(b, s, Destroy(e)), run) && t < |s.threads| && Outside(s.threads[t], e)
    ensures Apply(b, s, Destroy(e)).queued[e] == 0
    ensures var s' := After(b, Apply(b, s, Destroy(e)), run);
            t < |s'.threads| && Outside(s'.threads[t], e) && Current(s'.threads[t].stack) != Some(e)
  {
    DestroyedStaysClosed(b, Apply(b, s, Destroy(e)), run, e, t);
  }
}
