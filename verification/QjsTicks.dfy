/**
 Tick scheduling of the QuickJS backend, over every run of the scope machine.

 Two results: while an engine is not being destroyed its flag `tickScheduled_` accounts for
 exactly one outstanding tick, and no pending job is ever forgotten: either a tick is on its way or
 some thread still has an entering scope whose destructor will look for jobs again.  Both hold if and
 only if the run drops no tick: by removing it, by shutting the queue down with it, or by posting it to
 a queue that has been shut down.
 */
module QjsTicks {
  import opened Options
  import opened EngineScopes
  import opened ScopeOwnership

  // ---- at most one outstanding tick ----

  function One(condition: bool): nat {
    if condition then 1 else 0
  }

  /** Tick handlers on this list of scopes that have not cleared the flag of e yet. */
  function OpenTicks(stack: seq<Frame>, e: Engine): nat {
    if stack == [] then 0
    else OpenTicks(Below(stack), e) + One(Top(stack).Enter? && Top(stack).tick && Top(stack).engine == Some(e))
  }

  /** Posts between the compare-and-swap and the message queue. */
  function Posting(ops: seq<Op>, e: Engine): nat {
    if ops == [] then 0 else One(ops[0] == TickPost(e)) + Posting(ops[1..], e)
  }

  /** The ticks of e that thread state `ts` is responsible for: handlers that are entering or
      draining, and ticks it is about to post. */
  function Responsible(ts: ThreadState, e: Engine): nat {
    OpenTicks(ts.stack, e) + Posting(Program(ts), e)
    + One(ts.phase.Busy? && ts.phase.next.Push? && ts.phase.next.frame.Enter?
          && ts.phase.next.frame.tick && ts.phase.next.frame.engine == Some(e))
  }

  function Total(threads: seq<ThreadState>, e: Engine): nat {
    if threads == [] then 0 else Responsible(threads[0], e) + Total(threads[1..], e)
  }

  lemma {:induction false} TotalUpdate(threads: seq<ThreadState>, t: nat, ts: ThreadState, e: Engine)
    requires t < |threads|
    ensures Total(threads[t := ts], e) == Total(threads, e) - Responsible(threads[t], e) + Responsible(ts, e)
  {
    if t > 0 {
      assert threads[t := ts][1..] == threads[1..][t - 1 := ts];
      TotalUpdate(threads[1..], t - 1, ts, e);
    } else {
      assert threads[t := ts][1..] == threads[1..];
    }
  }

  lemma {:induction false} TotalAtLeast(threads: seq<ThreadState>, t: nat, e: Engine)
    requires t < |threads|
    ensures Responsible(threads[t], e) <= Total(threads, e)
  {
    if t > 0 {
      TotalAtLeast(threads[1..], t - 1, e);
    }
  }

  predicate OneTick(s: State, e: Engine) {
    && s.queued[e] + Total(s.threads, e) + s.dropped[e] <= One(e in s.scheduled)
    && (e !in s.destroying ==> s.queued[e] + Total(s.threads, e) + s.dropped[e] == One(e in s.scheduled))
  }

  /** Where a running program can stand: the flag is cleared only by the handler whose scope is on
      top, right before that scope's destructor, and a scope on its way out has its handler mark
      only until then. */
  predicate TickShape(ts: ThreadState) {
    && (ts.phase.Busy? && ts.phase.ops != [] ==>
          && (ts.phase.ops[0].ClearFlag? ==>
                && ts.phase.next.Pop? && TopIsTick(ts) && Top(ts.stack).engine == Some(ts.phase.ops[0].engine)
                && ts.phase.ops[1..] == LeaveProgram(QuickJs, Top(ts.stack)))
          && (forall i | 1 <= i < |ts.phase.ops| :: !ts.phase.ops[i].ClearFlag?))
    && (ts.phase.Busy? && ts.phase.next.Pop? && TopIsTick(ts) ==> ts.phase.ops != [] && ts.phase.ops[0].ClearFlag?)
  }

  ghost predicate TickInv(s: State, e: Engine) {
    && OneTick(s, e)
    && forall t | 0 <= t < |s.threads| :: TickShape(s.threads[t])
  }

  lemma PushTicks(stack: seq<Frame>, frame: Frame, e: Engine)
    ensures OpenTicks(stack + [frame], e)
            == OpenTicks(stack, e) + One(frame.Enter? && frame.tick && frame.engine == Some(e))
  {
    assert Below(stack + [frame]) == stack;
  }

  lemma SetTickTicks(stack: seq<Frame>, e: Engine)
    requires stack != [] && Top(stack).Enter?
    ensures OpenTicks(SetTick(stack, false), e) == OpenTicks(Below(stack), e)
  {
    PushTicks(Below(stack), Top(stack).(tick := false), e);
  }

  /** Programs that begin contain no post and no clearing of the flag. */
  lemma FreshPrograms(b: Backend, e: Engine, previous: Option<Engine>, d: Engine)
    ensures Posting(EnterOps(b, e, previous), d) == 0 && Posting(LeaveOps(b, e, previous), d) == 0
    ensures Posting(UnlockIf(previous), d) == 0 && Posting(AcquireIf(previous), d) == 0
    ensures forall op <- EnterOps(b, e, previous) + LeaveOps(b, e, previous) :: !op.ClearFlag?
  {
    NoPosts(EnterOps(b, e, previous), d);
    NoPosts(LeaveOps(b, e, previous), d);
    NoPosts(UnlockIf(previous), d);
    NoPosts(AcquireIf(previous), d);
  }

  lemma {:induction false} NoPosts(ops: seq<Op>, e: Engine)
    requires forall op <- ops :: !op.TickPost?
    ensures Posting(ops, e) == 0
  {
    if ops != [] { NoPosts(ops[1..], e); }
  }

  /** How one operation moves responsibility: it is created by the compare-and-swap together with
      the flag, handed to the queue by the post, and given up when the flag is cleared. */
  lemma OpMoves(b: Backend, s: State, ts: ThreadState, e: Engine)
    requires TickShape(ts) && ts.phase.Busy? && ts.phase.ops != []
    ensures TickShape(OpThread(s, ts))
    ensures Responsible(OpThread(s, ts), e)
            == Responsible(ts, e) + One(ts.phase.ops[0] == TickCas(e) && e !in s.scheduled)
               - One(ts.phase.ops[0] == TickPost(e)) - One(ts.phase.ops[0] == ClearFlag(e))
  {
    var op := ts.phase.ops[0];
    var rest := ts.phase.ops[1..];
    assert ([TickCas(op.engine)] + rest)[1..] == rest && ([TickPost(op.engine)] + rest)[1..] == rest;
    if op.ClearFlag? {
      SetTickTicks(ts.stack, e);
      SetTickTop(ts.stack);
    }
  }

  lemma SetTickTop(stack: seq<Frame>)
    requires stack != [] && Top(stack).Enter?
    ensures SetTick(stack, false) != [] && Top(SetTick(stack, false)) == Top(stack).(tick := false)
  {
  }

  /** A step of one thread under which the account of e still adds up. */
  lemma Rebalanced(s: State, s': State, t: Tid, ts: ThreadState, e: Engine)
    requires TickInv(s, e) && t < |s.threads| && s'.threads == s.threads[t := ts] && TickShape(ts)
    requires s'.destroying == s.destroying
    requires s'.queued[e] + s'.dropped[e] + Responsible(ts, e) + One(e in s.scheduled)
             == s.queued[e] + s.dropped[e] + Responsible(s.threads[t], e) + One(e in s'.scheduled)
    ensures TickInv(s', e)
  {
    TotalUpdate(s.threads, t, ts, e);
  }

  /** A tick that a thread is responsible for is scheduled. */
  lemma ResponsibleIsScheduled(s: State, t: Tid, e: Engine)
    requires TickInv(s, e) && t < |s.threads| && Responsible(s.threads[t], e) >= 1
    ensures e in s.scheduled
  {
    TotalAtLeast(s.threads, t, e);
  }

  lemma OpStep(b: Backend, s: State, t: Tid, e: Engine)
    requires TickInv(s, e) && t < |s.threads| && s.threads[t].phase.Busy? && s.threads[t].phase.ops != []
    ensures TickInv(DoOp(b, s, t), e)
  {
    var ts := s.threads[t];
    var op := ts.phase.ops[0];
    OpMoves(b, s, ts, e);
    OpAccount(b, s, t, op, e);
    if op == ClearFlag(e) {
      assert OpenTicks(ts.stack, e) >= 1;
      ResponsibleIsScheduled(s, t, e);
    }
    Rebalanced(s, DoOp(b, s, t), t, OpThread(s, ts), e);
  }

  /** What an operation does to the queue and the flag of e. */
  lemma OpAccount(b: Backend, s: State, t: Tid, op: Op, e: Engine)
    ensures var s' := OpShared(b, s, t, op);
            && s'.destroying == s.destroying
            && s'.queued[e] + s'.dropped[e] == s.queued[e] + s.dropped[e] + One(op == TickPost(e))
            && (e in s'.scheduled <==> op == TickCas(e) || (e in s.scheduled && op != ClearFlag(e)))
  {
  }

  lemma FinishMoves(ts: ThreadState, e: Engine)
    requires TickShape(ts) && ts.phase.Busy? && ts.phase.ops == []
    ensures Responsible(ThreadState(FinishStack(ts.stack, ts.phase.next), Running), e) == Responsible(ts, e)
  {
    if ts.phase.next.Push? { PushTicks(ts.stack, ts.phase.next.frame, e); }
  }

  /** Beginning a constructor or destructor moves no responsibility, except that a tick handler's
      scope takes it over from the queue. */
  lemma BeginEnterMoves(b: Backend, stack: seq<Frame>, d: Engine, destroying: bool, tick: bool, e: Engine)
    ensures BeginEnter(b, stack, d, destroying, tick).Some? ==>
              var ts := BeginEnter(b, stack, d, destroying, tick).value;
              TickShape(ts) && Responsible(ts, e) == OpenTicks(stack, e) + One(tick && d == e)
  {
    FreshPrograms(b, d, Current(stack), e);
    var ops := EnterOps(b, d, Current(stack));
    assert forall i | 0 <= i < |ops| :: ops[i] in ops + LeaveOps(b, d, Current(stack));
  }

  lemma LeaveProgramPlain(b: Backend, frame: Frame, e: Engine)
    requires frame.Enter?
    ensures Posting(LeaveProgram(b, frame), e) == 0
    ensures forall i | 0 <= i < |LeaveProgram(b, frame)| :: !LeaveProgram(b, frame)[i].ClearFlag?
  {
    if frame.needEnter && frame.engine.Some? {
      FreshPrograms(b, frame.engine.value, frame.previous, e);
    }
  }

  lemma BeginCloseMoves(b: Backend, stack: seq<Frame>, e: Engine)
    requires stack != [] && !TopIsTick(ThreadState(stack, Running))
    ensures TickShape(BeginClose(b, stack)) && Responsible(BeginClose(b, stack), e) == OpenTicks(stack, e)
  {
    match Top(stack)
    case Exit(left) => FreshPrograms(b, 0, left, e);
    case Enter(_, _, _, _) => LeaveProgramPlain(b, Top(stack), e);
  }

  lemma EndDrainMoves(stack: seq<Frame>, e: Engine)
    requires TopIsTick(ThreadState(stack, Running)) && Top(stack).engine.Some?
    ensures var ts := ThreadState(stack, Busy([ClearFlag(Top(stack).engine.value)]
                                             + LeaveProgram(QuickJs, Top(stack)), Pop));
            TickShape(ts) && Responsible(ts, e) == OpenTicks(stack, e)
  {
    LeaveProgramPlain(QuickJs, Top(stack), e);
    assert ([ClearFlag(Top(stack).engine.value)] + LeaveProgram(QuickJs, Top(stack)))[1..]
           == LeaveProgram(QuickJs, Top(stack));
  }

  /** A step that replaces one thread without moving responsibility. */
  lemma QuietTicks(s: State, s': State, t: Tid, ts: ThreadState, e: Engine)
    requires TickInv(s, e) && t < |s.threads| && s' == WithThread(s, t, ts)
    requires TickShape(ts) && Responsible(ts, e) == Responsible(s.threads[t], e)
    ensures TickInv(s', e)
  {
    TotalUpdate(s.threads, t, ts, e);
  }

  lemma AdvanceTicks(b: Backend, s: State, t: Tid, e: Engine)
    requires TickInv(s, e) && Enabled(b, s, Advance(t))
    ensures TickInv(Apply(b, s, Advance(t)), e)
  {
    var ts := s.threads[t];
    if ts.phase.ops == [] {
      FinishMoves(ts, e);
      QuietTicks(s, Apply(b, s, Advance(t)), t, ThreadState(FinishStack(ts.stack, ts.phase.next), Running), e);
    } else {
      OpStep(b, s, t, e);
    }
  }

  lemma OpenTicksKeeps(b: Backend, s: State, t: Tid, target: Option<Engine>, e: Engine)
    requires TickInv(s, e) && Enabled(b, s, Open(t, target))
    ensures TickInv(Apply(b, s, Open(t, target)), e)
  {
    var stack := s.threads[t].stack;
    var s' := Apply(b, s, Open(t, target));
    if target.None? {
      PushTicks(stack, Enter(None, false, None, false), e);
      QuietTicks(s, s', t, BeginNull(stack), e);
    } else {
      BeginEnterMoves(b, stack, target.value, target.value in s.destroying, false, e);
      if s' != s { QuietTicks(s, s', t, s'.threads[t], e); }
    }
  }

  lemma TickActionKeeps(b: Backend, s: State, a: Action, e: Engine)
    requires TickInv(s, e) && Enabled(b, s, a)
    ensures TickInv(Apply(b, s, a), e)
  {
    match a {
      case Destroy(_) =>
      case AddJob(_) =>
      case RunJob(_) =>
      case Shutdown(_) =>
      case DropTick(_) =>
      case Advance(t) => AdvanceTicks(b, s, t, e);
      case Open(t, target) => OpenTicksKeeps(b, s, t, target, e);
      case OpenExit(t) =>
        var current := Current(s.threads[t].stack);
        FreshPrograms(b, 0, current, e);
        var ts := ThreadState(s.threads[t].stack, Busy(UnlockIf(current), Push(Exit(current))));
        QuietTicks(s, Apply(b, s, a), t, ts, e);
      case Close(t) =>
        BeginCloseMoves(b, s.threads[t].stack, e);
        QuietTicks(s, Apply(b, s, a), t, BeginClose(b, s.threads[t].stack), e);
      case Trigger(t) =>
        var ops := [TickCheck(Current(s.threads[t].stack).value)];
        assert ops[1..] == [];
        QuietTicks(s, Apply(b, s, a), t, ThreadState(s.threads[t].stack, Busy(ops, Stay)), e);
      case EndDrain(t) => EndDrainKeeps(b, s, t, e);
      case StartTick(t, d) => StartTickKeeps(b, s, t, d, e);
    }
  }

  lemma EndDrainKeeps(b: Backend, s: State, t: Tid, e: Engine)
    requires TickInv(s, e) && Enabled(b, s, EndDrain(t))
    ensures TickInv(Apply(b, s, EndDrain(t)), e)
  {
    EndDrainMoves(s.threads[t].stack, e);
    QuietTicks(s, Apply(b, s, EndDrain(t)), t, Apply(b, s, EndDrain(t)).threads[t], e);
  }

  lemma StartTickKeeps(b: Backend, s: State, t: Tid, d: Engine, e: Engine)
    requires TickInv(s, e) && Enabled(b, s, StartTick(t, d))
    ensures TickInv(Apply(b, s, StartTick(t, d)), e)
  {
    BeginEnterMoves(b, s.threads[t].stack, d, d in s.destroying, true, e);
    var begun := BeginEnter(b, s.threads[t].stack, d, d in s.destroying, true);
    if begun.Some? {
      TotalUpdate(s.threads, t, begun.value, e);
    }
  }

  lemma {:induction false} InitialTotal(n: nat, e: Engine)
    ensures Total(Initial(n).threads, e) == 0
  {
    if n > 0 {
      assert Initial(n).threads[1..] == Initial(n - 1).threads;
      InitialTotal(n - 1, e);
    }
  }

  lemma {:induction false} TickRun(b: Backend, s: State, run: seq<Action>, e: Engine)
    requires TickInv(s, e) && Allowed(b, s, run)
    ensures TickInv(After(b, s, run), e)
    decreases |run|
  {
    if run != [] {
      TickActionKeeps(b, s, run[0], e);
      TickRun(b, Apply(b, s, run[0]), run[1..], e);
    }
  }

  /** Ticks that will still be handled: queued ones, handlers that have not cleared the flag, and posts
      in progress. */
  function Outstanding(s: State, e: Engine): nat {
    s.queued[e] + Total(s.threads, e)
  }

  /** Outstanding and dropped ticks together: never more than one, and while the engine is not being
      destroyed exactly one while the flag is set and none otherwise. */
  lemma TickAccount(n: nat, s: State, e: Engine)
    requires Reachable(QuickJs, n, s)
    ensures Outstanding(s, e) + s.dropped[e] <= One(e in s.scheduled)
    ensures e !in s.destroying ==> Outstanding(s, e) + s.dropped[e] == One(e in s.scheduled)
  {
    var run :| Allowed(QuickJs, Initial(n), run) && After(QuickJs, Initial(n), run) == s;
    InitialTotal(n, e);
    TickRun(QuickJs, Initial(n), run, e);
  }

  // ---- when a tick is dropped ----

  /** The step drops a tick of e: it is removed from the queue, the queue is shut down with the tick in
      it, or it is posted to a queue that has been shut down. */
  predicate DropsAt(s: State, a: Action, e: Engine) {
    || a == DropTick(e)
    || (a == Shutdown(e) && s.queued[e] > 0)
    || (a.Advance? && a.t < |s.threads| && s.threads[a.t].phase.Busy? && s.threads[a.t].phase.ops != []
        && s.threads[a.t].phase.ops[0] == TickPost(e) && e in s.closed)
  }

  predicate Drops(s: State, run: seq<Action>, e: Engine)
    requires Allowed(QuickJs, s, run)
    decreases |run|
  {
    run != [] && (DropsAt(s, run[0], e) || Drops(Apply(QuickJs, s, run[0]), run[1..], e))
  }

  lemma OpDrops(s: State, t: Tid, op: Op, e: Engine)
    ensures OpShared(QuickJs, s, t, op).dropped[e] == s.dropped[e] + One(op == TickPost(e) && e in s.closed)
  {
  }

  lemma DroppedByStep(s: State, a: Action, e: Engine)
    requires Enabled(QuickJs, s, a)
    ensures Apply(QuickJs, s, a).dropped[e] >= s.dropped[e]
    ensures Apply(QuickJs, s, a).dropped[e] > s.dropped[e] <==> DropsAt(s, a, e)
  {
    if a.Advance? {
      var ts := s.threads[a.t];
      if ts.phase.ops != [] { OpDrops(s, a.t, ts.phase.ops[0], e); }
    } else {
      OthersDropNothing(s, a, e);
    }
  }

  lemma OthersDropNothing(s: State, a: Action, e: Engine)
    requires Enabled(QuickJs, s, a) && !a.Advance?
    ensures Apply(QuickJs, s, a).dropped[e]
            == s.dropped[e] + if a == DropTick(e) then 1 else if a == Shutdown(e) then s.queued[e] else 0
  {
  }

  /** The count of dropped ticks says whether the run dropped one. */
  lemma {:induction false} DroppedByRun(s: State, run: seq<Action>, e: Engine)
    requires Allowed(QuickJs, s, run)
    ensures After(QuickJs, s, run).dropped[e] >= s.dropped[e]
    ensures After(QuickJs, s, run).dropped[e] > s.dropped[e] <==> Drops(s, run, e)
    decreases |run|
  {
    if run != [] {
      DroppedByStep(s, run[0], e);
      DroppedByRun(Apply(QuickJs, s, run[0]), run[1..], e);
    }
  }

  /** A run that neither shuts the queue of e down nor removes a tick of e drops none. */
  lemma {:induction false} NothingDropped(s: State, run: seq<Action>, e: Engine)
    requires Allowed(QuickJs, s, run) && e !in s.closed
    requires Shutdown(e) !in run && DropTick(e) !in run
    ensures !Drops(s, run, e)
    decreases |run|
  {
    if run != [] {
      assert run[0] in run && forall a <- run[1..] :: a in run;
      StaysOpen(s, run[0], e);
      NothingDropped(Apply(QuickJs, s, run[0]), run[1..], e);
    }
  }

  lemma StaysOpen(s: State, a: Action, e: Engine)
    requires Enabled(QuickJs, s, a) && a != Shutdown(e) && e !in s.closed
    ensures e !in Apply(QuickJs, s, a).closed
  {
  }

  /** There is never more than one outstanding tick, and while the engine is not being destroyed there is
      exactly one while the flag is set and none otherwise, if and only if the run has dropped none. */
  lemma AtMostOneTick(n: nat, run: seq<Action>, e: Engine)
    requires Allowed(QuickJs, Initial(n), run)
    ensures var s := After(QuickJs, Initial(n), run);
            && Outstanding(s, e) <= One(e in s.scheduled)
            && (e !in s.destroying ==>
                  (Outstanding(s, e) == One(e in s.scheduled) <==> !Drops(Initial(n), run, e)))
    ensures Shutdown(e) !in run && DropTick(e) !in run ==> !Drops(Initial(n), run, e)
  {
    TickAccount(n, After(QuickJs, Initial(n), run), e);
    DroppedByRun(Initial(n), run, e);
    if Shutdown(e) !in run && DropTick(e) !in run { NothingDropped(Initial(n), run, e); }
  }

  /** After a tick has been dropped there is never another one: the flag stays set, and nobody is left
      to clear it. */
  lemma DroppedForGood(n: nat, s: State, e: Engine, run: seq<Action>)
    requires Reachable(QuickJs, n, s) && s.dropped[e] > 0 && Allowed(QuickJs, s, run)
    ensures var s' := After(QuickJs, s, run); Outstanding(s', e) == 0 && e in s'.scheduled
  {
    DroppedByRun(s, run, e);
    var before :| Allowed(QuickJs, Initial(n), before) && After(QuickJs, Initial(n), before) == s;
    Concat(QuickJs, Initial(n), before, run);
    TickAccount(n, After(QuickJs, s, run), e);
  }

  // ---- no job is forgotten ----

  predicate EntersHere(frame: Frame, e: Engine) {
    frame.Enter? && frame.needEnter && frame.engine == Some(e)
  }

  /** Some scope on this list really entered e. */
  predicate EntersSomewhere(stack: seq<Frame>, e: Engine) {
    exists i :: 0 <= i < |stack| && EntersHere(stack[i], e)
  }

  /** The thread will still look for jobs of e: it has an entering scope of e whose destructor has
      not made its check yet. */
  predicate WillCheck(ts: ThreadState, e: Engine) {
    || EntersSomewhere(FinalStack(ts), e)
    || (ts.phase.Busy? && ts.phase.next.Pop? && ts.stack != [] && EntersHere(Top(ts.stack), e)
        && (TickCheck(e) in ts.phase.ops || TickCas(e) in ts.phase.ops))
  }

  ghost predicate JobsSeen(s: State, e: Engine) {
    e !in s.destroying && s.pending[e] > 0 && e !in s.scheduled ==>
      exists t :: 0 <= t < |s.threads| && WillCheck(s.threads[t], e)
  }

  /** An engine is current only inside a scope that really entered it. */
  lemma {:induction false} CurrentWasEntered(stack: seq<Frame>, e: Engine)
    requires StackOk(stack) && Current(stack) == Some(e)
    ensures EntersSomewhere(stack, e)
    decreases |stack|
  {
    if Top(stack).needEnter {
      assert EntersHere(stack[|stack| - 1], e);
    } else {
      CurrentWasEntered(Below(stack), e);
      var i :| 0 <= i < |Below(stack)| && EntersHere(Below(stack)[i], e);
      assert EntersHere(stack[i], e);
    }
  }

  predicate JobsUnscheduled(s: State, e: Engine) {
    e !in s.destroying && s.pending[e] > 0 && e !in s.scheduled
  }

  /** A step of thread t after which it will check if it would have checked before. */
  lemma KeepSeen(s: State, s': State, t: Tid, e: Engine)
    requires JobsSeen(s, e) && t < |s.threads|
    requires |s'.threads| == |s.threads| && forall u | 0 <= u < |s.threads| && u != t :: s'.threads[u] == s.threads[u]
    requires JobsUnscheduled(s', e) ==>
               WillCheck(s'.threads[t], e) || (JobsUnscheduled(s, e) && !WillCheck(s.threads[t], e))
    ensures JobsSeen(s', e)
  {
    if JobsUnscheduled(s', e) && !WillCheck(s'.threads[t], e) {
      var u :| 0 <= u < |s.threads| && WillCheck(s.threads[u], e);
      assert WillCheck(s'.threads[u], e);
    }
  }

  lemma EntersBelow(stack: seq<Frame>, frame: Frame, e: Engine)
    ensures EntersSomewhere(stack + [frame], e) <==> EntersSomewhere(stack, e) || EntersHere(frame, e)
  {
    if EntersSomewhere(stack, e) {
      var i :| 0 <= i < |stack| && EntersHere(stack[i], e);
      assert EntersHere((stack + [frame])[i], e);
    }
    if EntersHere(frame, e) {
      assert EntersHere((stack + [frame])[|stack|], e);
    }
  }

  lemma EntersTop(stack: seq<Frame>, e: Engine)
    requires stack != []
    ensures EntersSomewhere(stack, e) <==> EntersSomewhere(Below(stack), e) || EntersHere(Top(stack), e)
  {
    EntersBelow(Below(stack), Top(stack), e);
    assert Below(stack) + [Top(stack)] == stack;
  }

  /** The interesting step: when the handler clears the flag, its own scope, or the scope it is
      nested in, still has its destructor to run. */
  lemma ClearedIsChecked(s: State, ts: ThreadState, e: Engine)
    requires ThreadOk(QuickJs, ts) && TickShape(ts)
    requires ts.phase.Busy? && ts.phase.ops != [] && ts.phase.ops[0] == ClearFlag(e)
    ensures WillCheck(OpThread(s, ts), e)
  {
    var ts' := OpThread(s, ts);
    SetTickTop(ts.stack);
    SetTickStack(ts.stack);
    if Top(ts.stack).needEnter {
      assert ts'.phase.ops == LeaveOps(QuickJs, e, Top(ts.stack).previous);
      assert ts'.phase.ops[0] == TickCheck(e);
    } else {
      CurrentWasEntered(Below(ts.stack), e);
    }
  }

  lemma OpKeepsCheck(s: State, ts: ThreadState, e: Engine)
    requires ThreadOk(QuickJs, ts) && TickShape(ts) && ts.phase.Busy? && ts.phase.ops != []
    requires JobsUnscheduled(s, e) && WillCheck(ts, e)
    requires ts.phase.ops[0] != TickCas(e)
    ensures WillCheck(OpThread(s, ts), e)
  {
    var ts' := OpThread(s, ts);
    var rest := ts.phase.ops[1..];
    assert forall op :: op in ts.phase.ops ==> op == ts.phase.ops[0] || op in rest;
    if ts.phase.ops[0].ClearFlag? {
      SetTickTop(ts.stack);
      SetTickStack(ts.stack);
    }
    assert FinalStack(ts') == FinalStack(ts);
  }

  lemma OpSeen(s: State, t: Tid, e: Engine)
    requires Inv(QuickJs, s) && TickInv(s, e) && JobsSeen(s, e)
    requires t < |s.threads| && s.threads[t].phase.Busy? && s.threads[t].phase.ops != []
    ensures JobsSeen(DoOp(QuickJs, s, t), e)
  {
    var ts := s.threads[t];
    var s' := DoOp(QuickJs, s, t);
    if ts.phase.ops[0] == ClearFlag(e) {
      ClearedIsChecked(s, ts, e);
    } else if JobsUnscheduled(s, e) && WillCheck(ts, e) && ts.phase.ops[0] != TickCas(e) {
      OpKeepsCheck(s, ts, e);
    }
    KeepSeen(s, s', t, e);
  }

  lemma CloseKeepsCheck(ts: ThreadState, e: Engine)
    requires ts.phase.Running? && ts.stack != [] && EntersSomewhere(ts.stack, e)
    ensures WillCheck(BeginClose(QuickJs, ts.stack), e)
    ensures Top(ts.stack).Enter? && Top(ts.stack).engine.Some? ==>
              WillCheck(ThreadState(ts.stack, Busy([ClearFlag(Top(ts.stack).engine.value)]
                                                   + LeaveProgram(QuickJs, Top(ts.stack)), Pop)), e)
  {
    EntersTop(ts.stack, e);
    if EntersHere(Top(ts.stack), e) {
      var program := LeaveProgram(QuickJs, Top(ts.stack));
      assert program[0] == TickCheck(e);
      assert ([ClearFlag(e)] + program)[1] == TickCheck(e);
    }
  }

  lemma BeginSeen(s: State, s': State, t: Tid, e: Engine)
    requires JobsSeen(s, e) && t < |s.threads| && s.threads[t].phase.Running?
    requires |s'.threads| == |s.threads| && forall u | 0 <= u < |s.threads| && u != t :: s'.threads[u] == s.threads[u]
    requires s'.pending == s.pending && s'.scheduled == s.scheduled && s'.destroying == s.destroying
    requires EntersSomewhere(s.threads[t].stack, e) ==> WillCheck(s'.threads[t], e)
    ensures JobsSeen(s', e)
  {
    KeepSeen(s, s', t, e);
  }

  lemma EnteringKeepsCheck(stack: seq<Frame>, d: Engine, destroying: bool, tick: bool, e: Engine)
    requires EntersSomewhere(stack, e)
    ensures var begun := BeginEnter(QuickJs, stack, d, destroying, tick);
            begun.Some? ==> WillCheck(begun.value, e)
    ensures WillCheck(BeginNull(stack), e)
  {
    var begun := BeginEnter(QuickJs, stack, d, destroying, tick);
    if begun.Some? { EntersBelow(stack, begun.value.phase.next.frame, e); }
    assert FinalStack(BeginNull(stack)) == stack;
  }

  lemma ActionSeen(s: State, a: Action, e: Engine)
    requires Inv(QuickJs, s) && TickInv(s, e) && JobsSeen(s, e) && Enabled(QuickJs, s, a)
    ensures JobsSeen(Apply(QuickJs, s, a), e)
  {
    match a {
      case Destroy(_) =>
      case Shutdown(_) =>
      case DropTick(_) =>
      case RunJob(t) => KeepSeen(s, Apply(QuickJs, s, a), t, e);
      case AddJob(t) => AddJobSeen(s, t, e);
      case Advance(t) =>
        if s.threads[t].phase.ops != [] { OpSeen(s, t, e); } else { KeepSeen(s, Apply(QuickJs, s, a), t, e); }
      case _ => ScopeActionSeen(s, a, e);
    }
  }

  lemma AddJobSeen(s: State, t: Tid, e: Engine)
    requires Inv(QuickJs, s) && JobsSeen(s, e) && Enabled(QuickJs, s, AddJob(t))
    ensures JobsSeen(Apply(QuickJs, s, AddJob(t)), e)
  {
    if Current(s.threads[t].stack) == Some(e) { CurrentWasEntered(s.threads[t].stack, e); }
    KeepSeen(s, Apply(QuickJs, s, AddJob(t)), t, e);
  }

  lemma ScopeActionSeen(s: State, a: Action, e: Engine)
    requires JobsSeen(s, e) && Enabled(QuickJs, s, a)
    requires a.Open? || a.OpenExit? || a.Close? || a.EndDrain? || a.Trigger? || a.StartTick?
    ensures JobsSeen(Apply(QuickJs, s, a), e)
  {
    if EntersSomewhere(s.threads[a.t].stack, e) { ScopeActionChecks(s, a, e); }
    ScopeActionFrame(s, a);
    BeginSeen(s, Apply(QuickJs, s, a), a.t, e);
  }

  lemma ScopeActionFrame(s: State, a: Action)
    requires Enabled(QuickJs, s, a)
    requires a.Open? || a.OpenExit? || a.Close? || a.EndDrain? || a.Trigger? || a.StartTick?
    ensures var s' := Apply(QuickJs, s, a);
            && |s'.threads| == |s.threads| && s'.threads == s.threads[a.t := s'.threads[a.t]]
            && s'.pending == s.pending && s'.scheduled == s.scheduled && s'.destroying == s.destroying
  {
  }

  lemma ScopeActionChecks(s: State, a: Action, e: Engine)
    requires Enabled(QuickJs, s, a)
    requires a.Open? || a.OpenExit? || a.Close? || a.EndDrain? || a.Trigger? || a.StartTick?
    requires EntersSomewhere(s.threads[a.t].stack, e)
    ensures WillCheck(Apply(QuickJs, s, a).threads[a.t], e)
  {
    var ts := s.threads[a.t];
    match a
    case Open(t, target) =>
      if target.None? {
        EntersBelow(ts.stack, Enter(None, false, None, false), e);
      } else {
        EnteringKeepsCheck(ts.stack, target.value, target.value in s.destroying, false, e);
      }
    case StartTick(t, d) => EnteringKeepsCheck(ts.stack, d, d in s.destroying, true, e);
    case OpenExit(t) => EntersBelow(ts.stack, Exit(Current(ts.stack)), e);
    case Close(t) => CloseKeepsCheck(ts, e);
    case EndDrain(t) => CloseKeepsCheck(ts, e);
    case Trigger(t) =>
  }

  lemma {:induction false} SeenRun(s: State, run: seq<Action>, e: Engine)
    requires Inv(QuickJs, s) && TickInv(s, e) && JobsSeen(s, e) && Allowed(QuickJs, s, run)
    ensures JobsSeen(After(QuickJs, s, run), e)
    decreases |run|
  {
    if run != [] {
      ActionKeeps(QuickJs, s, run[0]);
      TickActionKeeps(QuickJs, s, run[0], e);
      ActionSeen(s, run[0], e);
      SeenRun(Apply(QuickJs, s, run[0]), run[1..], e);
    }
  }

  /** No lost wake-up: pending jobs of a living engine have a tick on its way, or some thread has an
      entering scope of the engine whose destructor has yet to look for jobs, unless the run has dropped
      a tick.
      Drain loops that stop early and ticks that run inside an outer scope are runs like any other. */
  lemma NoLostJobs(n: nat, run: seq<Action>, s: State, e: Engine)
    requires Allowed(QuickJs, Initial(n), run) && After(QuickJs, Initial(n), run) == s
    requires e !in s.destroying && s.pending[e] > 0
    ensures e in s.scheduled || exists t :: 0 <= t < |s.threads| && WillCheck(s.threads[t], e)
    ensures !Drops(Initial(n), run, e) ==>
              Outstanding(s, e) == 1 || exists t :: 0 <= t < |s.threads| && WillCheck(s.threads[t], e)
  {
    InitialOk(QuickJs, n);
    InitialTotal(n, e);
    SeenRun(Initial(n), run, e);
    AtMostOneTick(n, run, e);
  }

  /** The thread has nothing to do with e: no scope of it, and none being opened or closed. */
  predicate Away(ts: ThreadState, e: Engine) {
    && (forall f <- ts.stack :: f.Enter? ==> f.engine != Some(e))
    && (forall op <- Program(ts) :: op.engine != e)
    && (ts.phase.Busy? && ts.phase.next.Push? && ts.phase.next.frame.Enter? ==> ts.phase.next.frame.engine != Some(e))
  }

  lemma {:induction false} AwayFromTicks(stack: seq<Frame>, e: Engine)
    requires forall f <- stack :: f.Enter? ==> f.engine != Some(e)
    ensures OpenTicks(stack, e) == 0
  {
    if stack != [] { AwayFromTicks(Below(stack), e); }
  }

  lemma {:induction false} AwayFromPosts(ops: seq<Op>, e: Engine)
    requires forall op <- ops :: op.engine != e
    ensures Posting(ops, e) == 0
  {
    if ops != [] { AwayFromPosts(ops[1..], e); }
  }

  lemma {:induction false} AllAway(threads: seq<ThreadState>, e: Engine)
    requires forall ts <- threads :: Away(ts, e)
    ensures Total(threads, e) == 0
  {
    if threads != [] {
      assert Away(threads[0], e);
      AwayFromTicks(threads[0].stack, e);
      AwayFromPosts(Program(threads[0]), e);
      AllAway(threads[1..], e);
    }
  }

  /** Once every thread has left the engine, unfinished jobs mean that exactly one tick message is
      waiting in the queue, or none if the run has dropped it. */
  lemma QuietEngineHasItsTick(n: nat, run: seq<Action>, s: State, e: Engine)
    requires Allowed(QuickJs, Initial(n), run) && After(QuickJs, Initial(n), run) == s
    requires e !in s.destroying && s.pending[e] > 0
    requires forall ts <- s.threads :: Away(ts, e)
    ensures s.queued[e] == if Drops(Initial(n), run, e) then 0 else 1
  {
    NoLostJobs(n, run, s, e);
    AtMostOneTick(n, run, e);
    AllAway(s.threads, e);
    forall t | 0 <= t < |s.threads|
      ensures !WillCheck(s.threads[t], e)
    {
      AwayWillNotCheck(s.threads[t], e);
    }
  }

  lemma AwayWillNotCheck(ts: ThreadState, e: Engine)
    requires Away(ts, e)
    ensures !WillCheck(ts, e)
  {
    if ts.phase.Busy? && ts.phase.next.Push? {
      EntersBelow(ts.stack, ts.phase.next.frame, e);
    } else if ts.phase.Busy? && ts.phase.next.Pop? && ts.stack != [] {
      EntersTop(ts.stack, e);
    }
  }
}
