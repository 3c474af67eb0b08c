/**
 The scope protocol: `EngineScope` and `ExitEngineScope` over any number of threads and
 engines, for the three backends that keep one mutex per engine.

 Every constructor and destructor is a short program of lock operations; a thread executes one
 operation at a time and any other thread may run in between.  Taking a lock is an operation of
 its own that blocks while another thread holds the lock.  The QuickJS backend additionally
 schedules ticks from its scope destructors; that state is part of the machine and is studied in
 `QjsTicks`.
 */
module EngineScopes {
  import opened Options

  type Engine = nat
  type Tid = nat

  datatype Backend = QuickJs | JavaScriptCore | LuaVm

  /** What a constructor or destructor does, one indivisible operation at a time. */
  datatype Op =
    | Unlock(engine: Engine)
    | Acquire(engine: Engine)
    | TickCheck(engine: Engine)   // not destroying, and a job is pending?
    | TickCas(engine: Engine)     // compare-and-swap of tickScheduled_
    | TickPost(engine: Engine)    // postMessage of the tick
    | ClearFlag(engine: Engine)   // the tick handler's tickScheduled_ = false

  /** A live scope object.  `tick` marks the scope a tick handler has opened, until the handler
      has cleared the flag. */
  datatype Frame =
    | Enter(engine: Option<Engine>, needEnter: bool, previous: Option<Engine>, tick: bool)
    | Exit(left: Option<Engine>)

  /** What happens to the thread's scope list once the program is finished. */
  datatype Then = Push(frame: Frame) | Pop | Stay

  datatype Phase = Running | Busy(ops: seq<Op>, next: Then)

  datatype ThreadState = ThreadState(stack: seq<Frame>, phase: Phase)

  datatype Hold = Hold(owner: Tid, depth: nat)

  /** `locks` has no entry for a free lock.  `closed` are the engines whose message queue has been shut
      down, and `dropped` the ticks that were cleaned up without being handled.  `fault` records
      undefined behaviour: unlocking a
      mutex one does not own, or locking a non-recursive mutex twice. */
  datatype State = State(
    threads: seq<ThreadState>,
    locks: map<Engine, Hold>,
    destroying: set<Engine>,
    scheduled: set<Engine>,
    pending: multiset<Engine>,
    queued: multiset<Engine>,
    closed: set<Engine>,
    dropped: multiset<Engine>,
    fault: bool)

  datatype Action =
    | Open(t: Tid, target: Option<Engine>)
    | OpenExit(t: Tid)
    | Close(t: Tid)
    | Advance(t: Tid)
    | Destroy(engine: Engine)
    | Trigger(t: Tid)              // a QuickJS call that ends with triggerTick
    | AddJob(t: Tid)
    | StartTick(t: Tid, engine: Engine)
    | RunJob(t: Tid)
    | EndDrain(t: Tid)
    | Shutdown(engine: Engine)     // shutdownNow of the engine's message queue
    | DropTick(engine: Engine)     // removal of a queued tick by a predicate of the user's

  /** The engine of the innermost scope: `EngineScope::currentEngine()`. */
  function Current(stack: seq<Frame>): Option<Engine> {
    if stack == [] then None
    else
      match stack[|stack| - 1]
      case Enter(engine, _, _, _) => engine
      case Exit(_) => None
  }

  function UnlockIf(engine: Option<Engine>): seq<Op> {
    if engine.Some? then [Unlock(engine.value)] else []
  }

  function AcquireIf(engine: Option<Engine>): seq<Op> {
    if engine.Some? then [Acquire(engine.value)] else []
  }

  /** The backend's scope constructor, run only for a scope that really enters. */
  function EnterOps(b: Backend, engine: Engine, previous: Option<Engine>): seq<Op> {
    match b
    case QuickJs => UnlockIf(previous) + [Acquire(engine)]
    case JavaScriptCore => UnlockIf(previous) + [Acquire(engine)]
    case LuaVm => [Acquire(engine)] + UnlockIf(previous)
  }

  /** The backend's scope destructor. */
  function LeaveOps(b: Backend, engine: Engine, previous: Option<Engine>): seq<Op> {
    match b
    case QuickJs => [TickCheck(engine), Unlock(engine)] + AcquireIf(previous)
    case JavaScriptCore => [Unlock(engine)] + AcquireIf(previous)
    case LuaVm => AcquireIf(previous) + [Unlock(engine)]
  }

  function Top(stack: seq<Frame>): Frame
    requires stack != []
  {
    stack[|stack| - 1]
  }

  function Below(stack: seq<Frame>): seq<Frame>
    requires stack != []
  {
    stack[..|stack| - 1]
  }

  /** `EngineScope::EngineScope`: entering the current engine again, or a null engine, needs no
      work; entering a destroying engine throws before anything changed (None). */
  function BeginEnter(b: Backend, stack: seq<Frame>, engine: Engine, destroying: bool, tick: bool)
    : Option<ThreadState>
  {
    var current := Current(stack);
    var needEnter := Some(engine) != current;
    var frame := Enter(Some(engine), needEnter, current, tick);
    if !needEnter then Some(ThreadState(stack, Busy([], Push(frame))))
    else if destroying then None
    else Some(ThreadState(stack, Busy(EnterOps(b, engine, current), Push(frame))))
  }

  /** The public constructor with a null engine: the delegated constructor has completed, so the
      scope is on the list and the destructor takes it off again while the exception leaves. */
  function BeginNull(stack: seq<Frame>): ThreadState {
    ThreadState(stack + [Enter(None, false, None, false)], Busy([], Pop))
  }

  function LeaveProgram(b: Backend, frame: Frame): seq<Op>
    requires frame.Enter?
  {
    if frame.needEnter && frame.engine.Some? then LeaveOps(b, frame.engine.value, frame.previous) else []
  }

  /** Destroying the innermost scope object.  `~ExitEngineScope` takes its null scope off the list
      before it locks again; `~EngineScope` stays on the list until the unlocking is done. */
  function BeginClose(b: Backend, stack: seq<Frame>): ThreadState
    requires stack != []
  {
    match Top(stack)
    case Exit(left) => ThreadState(Below(stack), Busy(AcquireIf(left), Stay))
    case Enter(_, _, _, _) => ThreadState(stack, Busy(LeaveProgram(b, Top(stack)), Pop))
  }

  function TopIsTick(ts: ThreadState): bool {
    ts.stack != [] && Top(ts.stack).Enter? && Top(ts.stack).tick
  }

  function FreeFor(s: State, t: Tid, e: Engine): bool {
    e !in s.locks || s.locks[e].owner == t
  }

  predicate Waiting(s: State, t: Tid) {
    t < |s.threads| &&
    var ts := s.threads[t];
    ts.phase.Busy? && ts.phase.ops != [] && ts.phase.ops[0].Acquire? && !FreeFor(s, t, ts.phase.ops[0].engine)
  }

  /** Which actions are possible.  Scopes are destroyed in the reverse order of construction, and
      the scope of a tick handler only by the handler. */
  predicate Enabled(b: Backend, s: State, a: Action) {
    match a
    case Destroy(_) => true
    case Open(t, _) => t < |s.threads| && s.threads[t].phase.Running?
    case OpenExit(t) => t < |s.threads| && s.threads[t].phase.Running?
    case Close(t) =>
      t < |s.threads| && s.threads[t].phase.Running? && s.threads[t].stack != [] && !TopIsTick(s.threads[t])
    case Advance(t) => t < |s.threads| && s.threads[t].phase.Busy? && !Waiting(s, t)
    case Trigger(t) =>
      b.QuickJs? && t < |s.threads| && s.threads[t].phase.Running? && Current(s.threads[t].stack).Some?
    case AddJob(t) =>
      b.QuickJs? && t < |s.threads| && s.threads[t].phase.Running? && Current(s.threads[t].stack).Some?
    case StartTick(t, e) =>
      b.QuickJs? && t < |s.threads| && s.threads[t].phase.Running? && s.queued[e] > 0
    case RunJob(t) =>
      b.QuickJs? && t < |s.threads| && s.threads[t].phase.Running? && TopIsTick(s.threads[t])
      && Top(s.threads[t].stack).engine.Some? && s.pending[Top(s.threads[t].stack).engine.value] > 0
    case EndDrain(t) =>
      b.QuickJs? && t < |s.threads| && s.threads[t].phase.Running? && TopIsTick(s.threads[t])
      && Top(s.threads[t].stack).engine.Some?
    case Shutdown(_) => b.QuickJs?
    case DropTick(e) => b.QuickJs? && s.queued[e] > 0
  }

  function WithThread(s: State, t: Tid, ts: ThreadState): State
    requires t < |s.threads|
  {
    s.(threads := s.threads[t := ts])
  }

  function DoAcquire(b: Backend, s: State, t: Tid, e: Engine): State {
    if e !in s.locks then s.(locks := s.locks[e := Hold(t, 1)])
    else if b.LuaVm? then s.(fault := true)
    else s.(locks := s.locks[e := Hold(t, s.locks[e].depth + 1)])
  }

  function DoUnlock(s: State, t: Tid, e: Engine): State {
    if e !in s.locks || s.locks[e].owner != t then s.(fault := true)
    else if s.locks[e].depth <= 1 then s.(locks := s.locks - {e})
    else s.(locks := s.locks[e := Hold(t, s.locks[e].depth - 1)])
  }

  function SetTick(stack: seq<Frame>, tick: bool): seq<Frame> {
    if stack == [] || !Top(stack).Enter? then stack else Below(stack) + [Top(stack).(tick := tick)]
  }

  /** What the first operation of a thread's program does to the thread itself. */
  function OpThread(s: State, ts: ThreadState): ThreadState
    requires ts.phase.Busy? && ts.phase.ops != []
  {
    var rest := ts.phase.ops[1..];
    match ts.phase.ops[0]
    case Acquire(_) => ts.(phase := Busy(rest, ts.phase.next))
    case Unlock(_) => ts.(phase := Busy(rest, ts.phase.next))
    case TickCheck(e) =>
      if e !in s.destroying && s.pending[e] > 0 then ts.(phase := Busy([TickCas(e)] + rest, ts.phase.next))
      else ts.(phase := Busy(rest, ts.phase.next))
    case TickCas(e) =>
      if e !in s.scheduled then ts.(phase := Busy([TickPost(e)] + rest, ts.phase.next))
      else ts.(phase := Busy(rest, ts.phase.next))
    case TickPost(_) => ts.(phase := Busy(rest, ts.phase.next))
    case ClearFlag(_) => ThreadState(SetTick(ts.stack, false), Busy(rest, ts.phase.next))
  }

  /** What an operation of thread t does to the state all threads share. */
  function OpShared(b: Backend, s: State, t: Tid, op: Op): (r: State)
    ensures r.threads == s.threads
  {
    match op
    case Acquire(e) => DoAcquire(b, s, t, e)
    case Unlock(e) => DoUnlock(s, t, e)
    case TickCheck(_) => s
    case TickCas(e) => s.(scheduled := s.scheduled + {e})
    case TickPost(e) =>
      // a queue that has been shut down only cleans the message up
      if e in s.closed then s.(dropped := s.dropped + multiset{e})
      else s.(queued := s.queued + multiset{e})
    case ClearFlag(e) => s.(scheduled := s.scheduled - {e})
  }

  function DoOp(b: Backend, s: State, t: Tid): State
    requires t < |s.threads| && s.threads[t].phase.Busy? && s.threads[t].phase.ops != []
  {
    var ts := s.threads[t];
    WithThread(OpShared(b, s, t, ts.phase.ops[0]), t, OpThread(s, ts))
  }

  function FinishStack(stack: seq<Frame>, next: Then): seq<Frame> {
    match next
    case Push(frame) => stack + [frame]
    case Pop => if stack == [] then [] else Below(stack)
    case Stay => stack
  }

  function Apply(b: Backend, s: State, a: Action): State
    requires Enabled(b, s, a)
  {
    match a
    case Destroy(e) => s.(destroying := s.destroying + {e}, queued := s.queued[e := 0])
    case Open(t, engine) =>
      if engine.None? then WithThread(s, t, BeginNull(s.threads[t].stack))
      else
        var begun := BeginEnter(b, s.threads[t].stack, engine.value, engine.value in s.destroying, false);
        if begun.None? then s else WithThread(s, t, begun.value)
    case OpenExit(t) =>
      var current := Current(s.threads[t].stack);
      WithThread(s, t, ThreadState(s.threads[t].stack, Busy(UnlockIf(current), Push(Exit(current)))))
    case Close(t) => WithThread(s, t, BeginClose(b, s.threads[t].stack))
    case Advance(t) =>
      var ts := s.threads[t];
      if ts.phase.ops == [] then WithThread(s, t, ThreadState(FinishStack(ts.stack, ts.phase.next), Running))
      else DoOp(b, s, t)
    case Trigger(t) =>
      WithThread(s, t, ThreadState(s.threads[t].stack, Busy([TickCheck(Current(s.threads[t].stack).value)], Stay)))
    case AddJob(t) => s.(pending := s.pending + multiset{Current(s.threads[t].stack).value})
    case StartTick(t, e) =>
      // the handler's scope throws for a destroying engine: the message is gone, the flag stays
      var taken := s.(queued := s.queued - multiset{e});
      var begun := BeginEnter(b, s.threads[t].stack, e, e in s.destroying, true);
      if begun.None? then taken else WithThread(taken, t, begun.value)
    case RunJob(t) => s.(pending := s.pending - multiset{Top(s.threads[t].stack).engine.value})
    case EndDrain(t) =>
      var ts := s.threads[t];
      WithThread(s, t, ThreadState(ts.stack,
                                   Busy([ClearFlag(Top(ts.stack).engine.value)] + LeaveProgram(b, Top(ts.stack)), Pop)))
    case Shutdown(e) =>
      s.(closed := s.closed + {e}, queued := s.queued[e := 0], dropped := s.dropped[e := s.dropped[e] + s.queued[e]])
    case DropTick(e) => s.(queued := s.queued - multiset{e}, dropped := s.dropped + multiset{e})
  }

  /** n threads, none inside a scope. */
  function Initial(n: nat): State {
    State(seq(n, _ => ThreadState([], Running)), map[], {}, {}, multiset{}, multiset{}, {}, multiset{}, false)
  }

  /** A run: a sequence of actions each of which is possible when its turn comes. */
  predicate Allowed(b: Backend, s: State, run: seq<Action>)
    decreases |run|
  {
    run != [] ==> Enabled(b, s, run[0]) && Allowed(b, Apply(b, s, run[0]), run[1..])
  }

  function After(b: Backend, s: State, run: seq<Action>): State
    requires Allowed(b, s, run)
    decreases |run|
  {
    if run == [] then s else After(b, Apply(b, s, run[0]), run[1..])
  }

  ghost predicate Reachable(b: Backend, n: nat, s: State) {
    exists run :: Allowed(b, Initial(n), run) && After(b, Initial(n), run) == s
  }

  lemma Cons(b: Backend, s: State, a: Action, rest: seq<Action>)
    requires Enabled(b, s, a) && Allowed(b, Apply(b, s, a), rest)
    ensures Allowed(b, s, [a] + rest) && After(b, s, [a] + rest) == After(b, Apply(b, s, a), rest)
  {
    assert ([a] + rest)[1..] == rest;
  }

  lemma {:induction false} Concat(b: Backend, s: State, first: seq<Action>, second: seq<Action>)
    requires Allowed(b, s, first) && Allowed(b, After(b, s, first), second)
    ensures Allowed(b, s, first + second) && After(b, s, first + second) == After(b, After(b, s, first), second)
    decreases |first|
  {
    if first == [] {
      assert first + second == second;
    } else {
      assert (first + second)[1..] == first[1..] + second;
      Concat(b, Apply(b, s, first[0]), first[1..], second);
    }
  }

  /** The run is possible and ends in `last`. */
  predicate Leads(b: Backend, s: State, run: seq<Action>, last: State) {
    Allowed(b, s, run) && After(b, s, run) == last
  }

  lemma LeadsOn(b: Backend, s: State, first: seq<Action>, mid: State, second: seq<Action>, last: State)
    requires Leads(b, s, first, mid) && Leads(b, mid, second, last)
    ensures Leads(b, s, first + second, last)
  {
    Concat(b, s, first, second);
  }
}
