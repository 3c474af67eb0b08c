/**
 Lock ownership and blocking in the scope protocol.

 The central notion is `OwnedBefore`: the locks a thread must hold in front of a program so that
 it holds exactly the given ones behind it.  A program is `Legal` when no lock is taken twice and
 none is released unowned; every constructor and destructor of every backend is such a program,
 from "exactly the current engine's lock" to "exactly the next current engine's lock".
 */
module ScopeOwnership {
  import opened Options
  import opened EngineScopes

  function Locks(current: Option<Engine>): set<Engine> {
    if current.Some? then {current.value} else {}
  }

  function OwnedBefore(ops: seq<Op>, final: set<Engine>): set<Engine> {
    if ops == [] then final
    else
      var later := OwnedBefore(ops[1..], final);
      match ops[0]
      case Unlock(e) => later + {e}
      case Acquire(e) => later - {e}
      case _ => later
  }

  predicate Legal(ops: seq<Op>, final: set<Engine>) {
    ops != [] ==>
      && Legal(ops[1..], final)
      && (ops[0].Unlock? ==> ops[0].engine !in OwnedBefore(ops[1..], final))
      && (ops[0].Acquire? ==> ops[0].engine in OwnedBefore(ops[1..], final))
  }

  /** Every lock is taken by a thread that holds none. */
  predicate EmptyHanded(ops: seq<Op>, final: set<Engine>) {
    ops != [] ==>
      && EmptyHanded(ops[1..], final)
      && (ops[0].Acquire? ==> OwnedBefore(ops, final) == {})
  }

  /** A scope opened while `current` was the current engine: needEnter_ and the remembered
      previous engine agree with it. */
  predicate FrameOk(frame: Frame, current: Option<Engine>) {
    match frame
    case Exit(left) => left == current
    case Enter(engine, needEnter, previous, tick) =>
      && engine.Some?
      && (needEnter <==> engine != current)
      && (needEnter ==> previous == current)
  }

  predicate StackOk(stack: seq<Frame>) {
    stack != [] ==> StackOk(Below(stack)) && FrameOk(Top(stack), Current(Below(stack)))
  }

  function FinalStack(ts: ThreadState): seq<Frame> {
    if ts.phase.Running? then ts.stack else FinishStack(ts.stack, ts.phase.next)
  }

  function Program(ts: ThreadState): seq<Op> {
    if ts.phase.Running? then [] else ts.phase.ops
  }

  /** The locks thread state `ts` accounts for. */
  function Owned(ts: ThreadState): set<Engine> {
    OwnedBefore(Program(ts), Locks(Current(FinalStack(ts))))
  }

  predicate ThreadOk(b: Backend, ts: ThreadState) {
    && StackOk(FinalStack(ts))
    && Legal(Program(ts), Locks(Current(FinalStack(ts))))
    && (!b.LuaVm? ==> EmptyHanded(Program(ts), Locks(Current(FinalStack(ts)))))
    && (ts.phase.Busy? && ts.phase.next.Pop? ==> ts.stack != [] && (ts.phase.ops != [] ==> StackOk(ts.stack)))
  }

  predicate Holds(s: State, t: Tid, e: Engine) {
    e in s.locks && s.locks[e].owner == t
  }

  ghost predicate Inv(b: Backend, s: State) {
    && !s.fault
    && (forall t | 0 <= t < |s.threads| :: ThreadOk(b, s.threads[t]))
    && (forall e <- s.locks.Keys :: s.locks[e].owner < |s.threads| && s.locks[e].depth == 1)
    && (forall t, e | 0 <= t < |s.threads| :: Holds(s, t, e) <==> e in Owned(s.threads[t]))
  }

  // ---- the programs are legal ----

  lemma EnterProgram(b: Backend, e: Engine, previous: Option<Engine>)
    requires previous != Some(e)
    ensures Legal(EnterOps(b, e, previous), {e})
    ensures OwnedBefore(EnterOps(b, e, previous), {e}) == Locks(previous)
    ensures !b.LuaVm? ==> EmptyHanded(EnterOps(b, e, previous), {e})
  {
    var ops := EnterOps(b, e, previous);
    if previous.Some? {
      assert ops[1..] == [ops[1]] && ops[1..][1..] == [];
      assert OwnedBefore(ops[1..], {e}) == if b.LuaVm? then {e, previous.value} else {};
    } else {
      assert ops == [Acquire(e)];
    }
  }

  lemma LeaveProgramOk(b: Backend, e: Engine, previous: Option<Engine>)
    requires previous != Some(e)
    ensures Legal(LeaveOps(b, e, previous), Locks(previous))
    ensures OwnedBefore(LeaveOps(b, e, previous), Locks(previous)) == {e}
    ensures !b.LuaVm? ==> EmptyHanded(LeaveOps(b, e, previous), Locks(previous))
    decreases b.QuickJs?
  {
    var ops := LeaveOps(b, e, previous);
    OneLock(previous);
    if b.QuickJs? {
      LeaveProgramOk(JavaScriptCore, e, previous);
      assert ops[1..] == LeaveOps(JavaScriptCore, e, previous);
    } else if b.JavaScriptCore? {
      assert ops[1..] == AcquireIf(previous);
    } else if previous.Some? {
      assert ops[1..] == [Unlock(e)] && ops[1..][1..] == [];
      assert OwnedBefore([Unlock(e)], {previous.value}) == {e, previous.value};
    } else {
      assert ops == [Unlock(e)] && ops[1..] == [];
    }
  }

  lemma OneLock(current: Option<Engine>)
    ensures Legal(UnlockIf(current), {}) && OwnedBefore(UnlockIf(current), {}) == Locks(current)
    ensures EmptyHanded(UnlockIf(current), {})
    ensures Legal(AcquireIf(current), Locks(current)) && OwnedBefore(AcquireIf(current), Locks(current)) == {}
    ensures EmptyHanded(AcquireIf(current), Locks(current))
  {
    if current.Some? {
      assert UnlockIf(current)[1..] == [] && AcquireIf(current)[1..] == [];
    }
  }

  // ---- the thread states that actions start from ----

  lemma PushFrame(stack: seq<Frame>, frame: Frame)
    ensures StackOk(stack + [frame]) <==> StackOk(stack) && FrameOk(frame, Current(stack))
    ensures Current(stack + [frame]) == if frame.Enter? then frame.engine else None
    ensures Below(stack + [frame]) == stack && Top(stack + [frame]) == frame
  {
    assert Below(stack + [frame]) == stack;
  }

  lemma BeginEnterOk(b: Backend, stack: seq<Frame>, e: Engine, destroying: bool, tick: bool)
    requires StackOk(stack)
    ensures BeginEnter(b, stack, e, destroying, tick).None? <==> destroying && Current(stack) != Some(e)
    ensures BeginEnter(b, stack, e, destroying, tick).Some? ==>
              var ts := BeginEnter(b, stack, e, destroying, tick).value;
              ThreadOk(b, ts) && Owned(ts) == Locks(Current(stack))
  {
    var current := Current(stack);
    PushFrame(stack, Enter(Some(e), Some(e) != current, current, tick));
    if Some(e) != current { EnterProgram(b, e, current); }
  }

  /** Entering throws exactly for a destroying engine other than the current one, and then nothing has
      changed; otherwise the thread is under way. */
  lemma EnteringThrows(b: Backend, s: State, t: Tid, e: Engine)
    requires Enabled(b, s, Open(t, Some(e)))
    ensures Apply(b, s, Open(t, Some(e))) == s <==> e in s.destroying && Current(s.threads[t].stack) != Some(e)
  {
    var begun := BeginEnter(b, s.threads[t].stack, e, e in s.destroying, false);
    if begun.Some? { assert s.threads[t := begun.value][t] != s.threads[t]; }
  }

  lemma BeginNullOk(b: Backend, stack: seq<Frame>)
    requires StackOk(stack)
    ensures ThreadOk(b, BeginNull(stack)) && Owned(BeginNull(stack)) == Locks(Current(stack))
  {
    assert Below(BeginNull(stack).stack) == stack;
  }

  lemma BeginExitOk(b: Backend, stack: seq<Frame>)
    requires StackOk(stack)
    ensures var ts := ThreadState(stack, Busy(UnlockIf(Current(stack)), Push(Exit(Current(stack)))));
            ThreadOk(b, ts) && Owned(ts) == Locks(Current(stack))
  {
    PushFrame(stack, Exit(Current(stack)));
    OneLock(Current(stack));
  }

  lemma BeginCloseOk(b: Backend, stack: seq<Frame>)
    requires StackOk(stack) && stack != []
    ensures ThreadOk(b, BeginClose(b, stack)) && Owned(BeginClose(b, stack)) == Locks(Current(stack))
  {
    match Top(stack)
    case Exit(left) => OneLock(left);
    case Enter(engine, needEnter, previous, _) =>
      if needEnter {
        LeaveProgramOk(b, engine.value, previous);
      }
  }

  lemma BeginDrainEndOk(b: Backend, stack: seq<Frame>)
    requires StackOk(stack) && stack != [] && Top(stack).Enter? && Top(stack).engine.Some?
    ensures var ts := ThreadState(stack, Busy([ClearFlag(Top(stack).engine.value)] + LeaveProgram(b, Top(stack)), Pop));
            ThreadOk(b, ts) && Owned(ts) == Locks(Current(stack))
  {
    BeginCloseOk(b, stack);
    var ops := [ClearFlag(Top(stack).engine.value)] + LeaveProgram(b, Top(stack));
    assert ops[1..] == LeaveProgram(b, Top(stack));
  }

  // ---- every action keeps the invariant ----

  /** A step that changes one thread without changing what it owns. */
  lemma QuietStep(b: Backend, s: State, s': State, t: Tid, ts: ThreadState)
    requires Inv(b, s) && t < |s.threads|
    requires s'.threads == s.threads[t := ts] && s'.locks == s.locks && !s'.fault
    requires ThreadOk(b, ts) && Owned(ts) == Owned(s.threads[t])
    ensures Inv(b, s')
  {
    forall u, e | 0 <= u < |s'.threads|
      ensures Holds(s', u, e) <==> e in Owned(s'.threads[u])
    {
      assert Holds(s, u, e) <==> e in Owned(s.threads[u]);
      assert Holds(s', u, e) <==> Holds(s, u, e);
    }
  }

  lemma TailOk(b: Backend, ts: ThreadState)
    requires ThreadOk(b, ts) && ts.phase.Busy? && ts.phase.ops != []
    ensures ThreadOk(b, ts.(phase := Busy(ts.phase.ops[1..], ts.phase.next)))
  {
  }

  lemma AcquireStep(b: Backend, s: State, t: Tid)
    requires Inv(b, s) && Enabled(b, s, Advance(t))
    requires s.threads[t].phase.ops != [] && s.threads[t].phase.ops[0].Acquire?
    ensures Inv(b, Apply(b, s, Advance(t)))
  {
    var ts := s.threads[t];
    var e := ts.phase.ops[0].engine;
    var s' := Apply(b, s, Advance(t));
    TailOk(b, ts);
    assert e !in Owned(ts);
    assert !Holds(s, t, e);
    assert e !in s.locks;
    forall u, d | 0 <= u < |s'.threads|
      ensures Holds(s', u, d) <==> d in Owned(s'.threads[u])
    {
      assert Holds(s, u, d) <==> d in Owned(s.threads[u]);
    }
  }

  lemma UnlockStep(b: Backend, s: State, t: Tid)
    requires Inv(b, s) && Enabled(b, s, Advance(t)) && s.threads[t].phase.ops != [] && s.threads[t].phase.ops[0].Unlock?
    ensures Inv(b, Apply(b, s, Advance(t)))
  {
    var ts := s.threads[t];
    var e := ts.phase.ops[0].engine;
    var s' := Apply(b, s, Advance(t));
    TailOk(b, ts);
    assert e in Owned(ts);
    assert Holds(s, t, e);
    forall u, d | 0 <= u < |s'.threads|
      ensures Holds(s', u, d) <==> d in Owned(s'.threads[u])
    {
      assert Holds(s, u, d) <==> d in Owned(s.threads[u]);
    }
  }

  /** Replacing the first operation by another one that touches no lock. */
  lemma ReplaceOp(b: Backend, ts: ThreadState, op: Op)
    requires ThreadOk(b, ts) && ts.phase.Busy? && ts.phase.ops != []
    requires !ts.phase.ops[0].Unlock? && !ts.phase.ops[0].Acquire? && !op.Unlock? && !op.Acquire?
    ensures var ts' := ts.(phase := Busy([op] + ts.phase.ops[1..], ts.phase.next));
            ThreadOk(b, ts') && Owned(ts') == Owned(ts)
    ensures var ts' := ts.(phase := Busy(ts.phase.ops[1..], ts.phase.next));
            ThreadOk(b, ts') && Owned(ts') == Owned(ts)
  {
    assert ([op] + ts.phase.ops[1..])[1..] == ts.phase.ops[1..];
  }

  lemma SetTickStack(stack: seq<Frame>)
    ensures StackOk(stack) ==> StackOk(SetTick(stack, false)) && Current(SetTick(stack, false)) == Current(stack)
    ensures stack != [] ==> SetTick(stack, false) != [] && Below(SetTick(stack, false)) == Below(stack)
  {
    if stack != [] && Top(stack).Enter? {
      PushFrame(Below(stack), Top(stack).(tick := false));
    }
  }

  lemma SetTickOk(b: Backend, ts: ThreadState)
    requires ThreadOk(b, ts) && ts.phase.Busy?
    ensures var ts' := ts.(stack := SetTick(ts.stack, false));
            ThreadOk(b, ts') && Owned(ts') == Owned(ts)
  {
    var ts' := ts.(stack := SetTick(ts.stack, false));
    SetTickStack(ts.stack);
    if ts.phase.next.Push? {
      PushFrame(ts.stack, ts.phase.next.frame);
      PushFrame(ts'.stack, ts.phase.next.frame);
    }
  }

  lemma TickOpThread(b: Backend, s: State, ts: ThreadState)
    requires ts.phase.Busy? && ts.phase.ops != []
    requires !ts.phase.ops[0].Unlock? && !ts.phase.ops[0].Acquire?
    requires ThreadOk(b, ts)
    ensures ThreadOk(b, OpThread(s, ts)) && Owned(OpThread(s, ts)) == Owned(ts)
  {
    var e := ts.phase.ops[0].engine;
    ReplaceOp(b, ts, TickCas(e));
    ReplaceOp(b, ts, TickPost(e));
    SetTickOk(b, ts.(phase := Busy(ts.phase.ops[1..], ts.phase.next)));
  }

  lemma TickOpStep(b: Backend, s: State, t: Tid)
    requires Inv(b, s) && Enabled(b, s, Advance(t)) && s.threads[t].phase.ops != []
    requires !s.threads[t].phase.ops[0].Unlock? && !s.threads[t].phase.ops[0].Acquire?
    ensures Inv(b, DoOp(b, s, t))
  {
    var ts := s.threads[t];
    TickOpThread(b, s, ts);
    TickOpShared(b, s, t, ts.phase.ops[0]);
    QuietStep(b, s, DoOp(b, s, t), t, OpThread(s, ts));
  }

  lemma TickOpShared(b: Backend, s: State, t: Tid, op: Op)
    requires !op.Unlock? && !op.Acquire?
    ensures OpShared(b, s, t, op).locks == s.locks && OpShared(b, s, t, op).fault == s.fault
  {
  }

  lemma AdvanceKeeps(b: Backend, s: State, t: Tid)
    requires Inv(b, s) && Enabled(b, s, Advance(t))
    ensures Inv(b, Apply(b, s, Advance(t)))
  {
    var ts := s.threads[t];
    if ts.phase.ops == [] {
      QuietStep(b, s, Apply(b, s, Advance(t)), t, ThreadState(FinishStack(ts.stack, ts.phase.next), Running));
    } else if ts.phase.ops[0].Acquire? {
      AcquireStep(b, s, t);
    } else if ts.phase.ops[0].Unlock? {
      UnlockStep(b, s, t);
    } else {
      TickOpStep(b, s, t);
    }
  }

  lemma SameThreadsAndLocks(b: Backend, s: State, s': State)
    requires Inv(b, s) && s'.threads == s.threads && s'.locks == s.locks && s'.fault == s.fault
    ensures Inv(b, s')
  {
    forall u, e | 0 <= u < |s'.threads|
      ensures Holds(s', u, e) <==> e in Owned(s'.threads[u])
    {
      assert Holds(s, u, e) <==> e in Owned(s.threads[u]);
    }
  }

  lemma ActionKeeps(b: Backend, s: State, a: Action)
    requires Inv(b, s) && Enabled(b, s, a)
    ensures Inv(b, Apply(b, s, a))
  {
    var s' := Apply(b, s, a);
    match a {
      case Advance(t) => AdvanceKeeps(b, s, t);
      case Destroy(_) => SameThreadsAndLocks(b, s, s');
      case AddJob(_) => SameThreadsAndLocks(b, s, s');
      case RunJob(_) => SameThreadsAndLocks(b, s, s');
      case Shutdown(_) => SameThreadsAndLocks(b, s, s');
      case DropTick(_) => SameThreadsAndLocks(b, s, s');
      case Open(t, target) =>
        var stack := s.threads[t].stack;
        if target.None? {
          BeginNullOk(b, stack);
        } else {
          BeginEnterOk(b, stack, target.value, target.value in s.destroying, false);
        }
        if s' != s { QuietStep(b, s, s', t, s'.threads[t]); }
      case StartTick(t, e) =>
        BeginEnterOk(b, s.threads[t].stack, e, e in s.destroying, true);
        if s'.threads == s.threads {
          SameThreadsAndLocks(b, s, s');
        } else {
          QuietStep(b, s, s', t, s'.threads[t]);
        }
      case OpenExit(t) =>
        BeginExitOk(b, s.threads[t].stack);
        QuietStep(b, s, s', t, s'.threads[t]);
      case Close(t) =>
        BeginCloseOk(b, s.threads[t].stack);
        QuietStep(b, s, s', t, s'.threads[t]);
      case EndDrain(t) =>
        BeginDrainEndOk(b, s.threads[t].stack);
        QuietStep(b, s, s', t, s'.threads[t]);
      case Trigger(t) =>
        var ops := [TickCheck(Current(s.threads[t].stack).value)];
        assert ops[1..] == [];
        QuietStep(b, s, s', t, s'.threads[t]);
    }
  }

  lemma InitialOk(b: Backend, n: nat)
    ensures Inv(b, Initial(n))
  {
    assert forall t | 0 <= t < n :: Initial(n).threads[t] == ThreadState([], Running);
  }

  lemma ThreadCount(b: Backend, s: State, a: Action)
    requires Enabled(b, s, a)
    ensures |Apply(b, s, a).threads| == |s.threads|
  {
  }

  lemma {:induction false} RunKeeps(b: Backend, s: State, run: seq<Action>)
    requires Inv(b, s) && Allowed(b, s, run)
    ensures Inv(b, After(b, s, run)) && |After(b, s, run).threads| == |s.threads|
    decreases |run|
  {
    if run != [] {
      ActionKeeps(b, s, run[0]);
      ThreadCount(b, s, run[0]);
      RunKeeps(b, Apply(b, s, run[0]), run[1..]);
    }
  }

  lemma ReachableOk(b: Backend, n: nat, s: State)
    requires Reachable(b, n, s)
    ensures Inv(b, s) && |s.threads| == n
  {
    var run :| Allowed(b, Initial(n), run) && After(b, Initial(n), run) == s;
    InitialOk(b, n);
    RunKeeps(b, Initial(n), run);
  }
}
