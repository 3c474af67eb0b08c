/**
 Python scopes over any number of threads and engines: any nesting of `EngineScope` and
 `ExitEngineScope` on every thread, interleaved arbitrarily.
 */
module PyScopes {
  import opened Options
  import opened PyRuntime

  /** A live scope object with what it saved. */
  datatype Frame =
    | Enter(engine: Engine, needEnter: bool, prevThreadState: Option<ThreadStatePtr>)
    | Exit(left: Option<Engine>, enteredThreadState: Option<ThreadStatePtr>)

  /** `Reentering` is a thread inside ~ExitEngineScope: its null scope is off the list already, and
      it waits for the mutex. */
  datatype Phase = Running | Reentering(enteredThreadState: Option<ThreadStatePtr>)

  datatype Thread = Thread(stack: seq<Frame>, phase: Phase)

  datatype State = State(threads: seq<Thread>, shared: Shared)

  datatype Action = Open(t: Tid, engine: Engine) | OpenExit(t: Tid) | Close(t: Tid) | Reenter(t: Tid)

  function Top(stack: seq<Frame>): Frame
    requires stack != []
  {
    stack[|stack| - 1]
  }

  function Below(stack: seq<Frame>): seq<Frame>
    requires stack != []
  {
    stack[..|stack| - 1]
  }

  function Current(stack: seq<Frame>): Option<Engine> {
    if stack == [] || Top(stack).Exit? then None else Some(Top(stack).engine)
  }

  /** Taking the mutex blocks while another thread has it. */
  predicate Enabled(s: State, a: Action) {
    a.t < |s.threads| &&
    match a
    case Open(t, e) =>
      s.threads[t].phase.Running? && (Current(s.threads[t].stack) == Some(e) || MutexFreeFor(s.shared, t))
    case OpenExit(t) => s.threads[t].phase.Running?
    case Close(t) => s.threads[t].phase.Running? && s.threads[t].stack != []
    case Reenter(t) => s.threads[t].phase.Reentering? && MutexFreeFor(s.shared, t)
  }

  function With(s: State, t: Tid, thread: Thread, shared: Shared): State
    requires t < |s.threads|
  {
    State(s.threads[t := thread], shared)
  }

  function Apply(s: State, a: Action): State
    requires Enabled(s, a)
  {
    var stack := s.threads[a.t].stack;
    match a
    case Open(t, e) =>
      if Current(stack) == Some(e) then With(s, t, Thread(stack + [Enter(e, false, None)], Running), s.shared)
      else
        var (shared, previous) := EnterEngine(s.shared, t, e);
        if previous.None? then s.(shared := shared)
        else With(s, t, Thread(stack + [Enter(e, true, previous)], Running), shared)
    case OpenExit(t) =>
      if Current(stack).None? then With(s, t, Thread(stack + [Exit(None, None)], Running), s.shared)
      else
        var (shared, entered) := ExitEngine(s.shared, t);
        With(s, t, Thread(stack + [Exit(Current(stack), entered)], Running), shared)
    case Close(t) =>
      (match Top(stack)
       case Exit(left, entered) =>
         With(s, t, Thread(Below(stack), if left.Some? then Reentering(entered) else Running), s.shared)
       case Enter(e, needEnter, previous) =>
         With(s, t, Thread(Below(stack), Running),
              if needEnter && previous.Some? then LeaveEngine(s.shared, t, previous.value) else s.shared))
    case Reenter(t) =>
      With(s, t, Thread(stack, Running), ReenterEngine(s.shared, t, s.threads[t].phase.enteredThreadState))
  }

  predicate Allowed(s: State, run: seq<Action>)
    decreases |run|
  {
    run != [] ==> Enabled(s, run[0]) && Allowed(Apply(s, run[0]), run[1..])
  }

  function After(s: State, run: seq<Action>): State
    requires Allowed(s, run)
    decreases |run|
  {
    if run == [] then s else After(Apply(s, run[0]), run[1..])
  }

  /** No scope anywhere; engines and thread states may exist from before. */
  predicate Resting(s: State) {
    && (forall thread <- s.threads :: thread == Thread([], Running))
    && s.shared.mutex == None && s.shared.count == 0 && s.shared.gil == None && s.shared.loaded == None
    && !s.shared.fault
    && TlsOk(s.shared)
  }

  predicate TlsOk(p: Shared) {
    && (forall t <- p.mainTls.Keys :: p.mainTls[t] == MainOf(t))
    && (forall k <- p.subTls.Keys :: p.subTls[k] == SubOf(k.1, k.0))
  }

  /** How often a thread with these scopes holds the mutex. */
  function Depth(stack: seq<Frame>): int {
    if stack == [] then 0
    else
      Depth(Below(stack)) +
      match Top(stack)
      case Enter(_, needEnter, _) => if needEnter then 1 else 0
      case Exit(left, _) => if left.Some? then -1 else 0
  }

  /** The thread state that has to be loaded while thread t stands in these scopes. */
  function Expected(stack: seq<Frame>, t: Tid): ThreadStatePtr {
    if stack == [] then MainOf(t)
    else
      match Top(stack)
      case Enter(e, needEnter, _) => if needEnter then SubOf(e, t) else Expected(Below(stack), t)
      case Exit(left, _) => if left.Some? then MainOf(t) else Expected(Below(stack), t)
  }

  function ThreadDepth(thread: Thread): int {
    Depth(thread.stack) - if thread.phase.Reentering? then 1 else 0
  }

  function ThreadExpected(thread: Thread, t: Tid): ThreadStatePtr {
    if thread.phase.Reentering? then MainOf(t) else Expected(thread.stack, t)
  }

  predicate StackOk(stack: seq<Frame>, t: Tid) {
    stack != [] ==>
      && StackOk(Below(stack), t)
      && match Top(stack)
         case Enter(e, needEnter, previous) =>
           && (needEnter <==> Current(Below(stack)) != Some(e))
           && (needEnter ==> previous == Some(Expected(Below(stack), t)))
         case Exit(left, entered) =>
           && left == Current(Below(stack))
           && (left.Some? ==> entered == Some(Expected(Below(stack), t)))
  }

  predicate ThreadOk(thread: Thread, t: Tid) {
    && StackOk(thread.stack, t)
    && (thread.phase.Reentering? ==>
          Current(thread.stack).Some? && thread.phase.enteredThreadState == Some(Expected(thread.stack, t)))
  }

  /** What the shared state must be for its owner; `held` is the owner's mutex depth. */
  predicate OwnerView(p: Shared, owner: Tid, held: nat, loaded: ThreadStatePtr) {
    p.mutex == Some(Hold(owner, held)) && held >= 1 && p.count == held && p.gil == Some(owner)
    && p.loaded == Some(loaded) && owner in p.mainTls
  }

  predicate RestingView(p: Shared) {
    p.mutex == None && p.count == 0 && p.gil == None && p.loaded == None
  }

  ghost predicate Inv(s: State) {
    && !s.shared.fault && TlsOk(s.shared)
    && (forall t | 0 <= t < |s.threads| :: ThreadOk(s.threads[t], t))
    && (s.shared.mutex.Some? ==> s.shared.mutex.value.owner < |s.threads|)
    && (forall t | 0 <= t < |s.threads| ::
          if s.shared.mutex.Some? && s.shared.mutex.value.owner == t
          then ThreadDepth(s.threads[t]) >= 1
               && OwnerView(s.shared, t, ThreadDepth(s.threads[t]), ThreadExpected(s.threads[t], t))
          else ThreadDepth(s.threads[t]) == 0)
    && (s.shared.mutex.None? ==> RestingView(s.shared))
  }

  /** A current engine keeps the mutex held; a thread that holds nothing expects its resting main
      thread state. */
  lemma {:induction false} DepthFacts(stack: seq<Frame>, t: Tid)
    requires StackOk(stack, t)
    ensures Depth(stack) >= if Current(stack).Some? then 1 else 0
    ensures Depth(stack) == 0 ==> Expected(stack, t) == MainOf(t)
    decreases |stack|
  {
    if stack != [] { DepthFacts(Below(stack), t); }
  }

  lemma Pushed(stack: seq<Frame>, frame: Frame)
    ensures Top(stack + [frame]) == frame && Below(stack + [frame]) == stack
  {
  }

  /** Replacing one thread: the others keep depth 0, or the owner is unaffected. */
  lemma Step(s: State, s': State, t: Tid)
    requires Inv(s) && t < |s.threads| && |s'.threads| == |s.threads|
    requires forall u | 0 <= u < |s.threads| && u != t :: s'.threads[u] == s.threads[u]
    requires s'.shared == s.shared || MutexFreeFor(s.shared, t)
    requires s'.shared == s.shared || MutexFreeFor(s'.shared, t)
    requires !s'.shared.fault && TlsOk(s'.shared) && ThreadOk(s'.threads[t], t)
    requires s'.shared == s.shared ==>
               ThreadDepth(s'.threads[t]) == ThreadDepth(s.threads[t])
               && ThreadExpected(s'.threads[t], t) == ThreadExpected(s.threads[t], t)
    requires s'.shared != s.shared ==>
               if s'.shared.mutex.Some? then
                 ThreadDepth(s'.threads[t]) >= 1
                 && OwnerView(s'.shared, t, ThreadDepth(s'.threads[t]), ThreadExpected(s'.threads[t], t))
               else ThreadDepth(s'.threads[t]) == 0 && RestingView(s'.shared)
    ensures Inv(s')
  {
    forall u | 0 <= u < |s'.threads|
      ensures if s'.shared.mutex.Some? && s'.shared.mutex.value.owner == u
              then ThreadDepth(s'.threads[u]) >= 1
                   && OwnerView(s'.shared, u, ThreadDepth(s'.threads[u]), ThreadExpected(s'.threads[u], u))
              else ThreadDepth(s'.threads[u]) == 0
    {
      if u != t { assert s'.threads[u] == s.threads[u]; }
    }
  }

  /** What the shared state looks like to a thread whose scopes are `stack`. */
  predicate Fits(p: Shared, stack: seq<Frame>, t: Tid) {
    if p.mutex.Some? && p.mutex.value.owner == t
    then Depth(stack) >= 1 && OwnerView(p, t, Depth(stack), Expected(stack, t))
    else Depth(stack) == 0 && (p.mutex.None? ==> RestingView(p))
  }

  lemma EnterFits(p: Shared, stack: seq<Frame>, t: Tid, e: Engine)
    requires !p.fault && TlsOk(p) && StackOk(stack, t) && Fits(p, stack, t) && MutexFreeFor(p, t)
    requires Current(stack) != Some(e)
    ensures var (q, previous) := EnterEngine(p, t, e);
            && previous == Some(Expected(stack, t))
            && StackOk(stack + [Enter(e, true, previous)], t)
            && !q.fault && TlsOk(q) && MutexFreeFor(q, t) && q.mutex.Some? && q != p
            && Fits(q, stack + [Enter(e, true, previous)], t)
  {
    DepthFacts(stack, t);
    Pushed(stack, Enter(e, true, Some(Expected(stack, t))));
    var q := WaitToEnter(p, t);
    assert q.loaded == Some(Expected(stack, t));
    assert (t, e) in LoadEngine(q, t, e).subTls;
  }

  lemma LeaveFits(p: Shared, stack: seq<Frame>, t: Tid)
    requires !p.fault && TlsOk(p) && StackOk(stack, t) && Fits(p, stack, t)
    requires stack != [] && Top(stack).Enter? && Top(stack).needEnter
    ensures var q := LeaveEngine(p, t, Expected(Below(stack), t));
            && !q.fault && TlsOk(q) && MutexFreeFor(q, t) && MutexFreeFor(p, t) && q != p && Fits(q, Below(stack), t)
  {
    DepthFacts(stack, t);
    DepthFacts(Below(stack), t);
    assert Depth(stack) == Depth(Below(stack)) + 1;
  }

  lemma ExitFits(p: Shared, stack: seq<Frame>, t: Tid)
    requires !p.fault && TlsOk(p) && StackOk(stack, t) && Fits(p, stack, t) && Current(stack).Some?
    ensures var (q, entered) := ExitEngine(p, t);
            && entered == Some(Expected(stack, t))
            && StackOk(stack + [Exit(Current(stack), entered)], t)
            && !q.fault && TlsOk(q) && MutexFreeFor(q, t) && MutexFreeFor(p, t) && q != p
            && Fits(q, stack + [Exit(Current(stack), entered)], t)
  {
    DepthFacts(stack, t);
    Pushed(stack, Exit(Current(stack), Some(Expected(stack, t))));
  }

  /** Inside ~ExitEngineScope the shared state still fits the exited scopes. */
  predicate FitsOutside(p: Shared, stack: seq<Frame>, t: Tid) {
    if p.mutex.Some? && p.mutex.value.owner == t
    then Depth(stack) >= 2 && OwnerView(p, t, Depth(stack) - 1, MainOf(t))
    else Depth(stack) == 1 && (p.mutex.None? ==> RestingView(p))
  }

  lemma ReenterFits(p: Shared, stack: seq<Frame>, t: Tid)
    requires !p.fault && TlsOk(p) && StackOk(stack, t) && FitsOutside(p, stack, t) && MutexFreeFor(p, t)
    ensures var q := ReenterEngine(p, t, Some(Expected(stack, t)));
            !q.fault && TlsOk(q) && MutexFreeFor(q, t) && q != p && Fits(q, stack, t)
  {
  }

  lemma OpenKeeps(s: State, t: Tid, e: Engine)
    requires Inv(s) && Enabled(s, Open(t, e))
    ensures Inv(Apply(s, Open(t, e)))
  {
    var stack := s.threads[t].stack;
    if Current(stack) == Some(e) {
      Pushed(stack, Enter(e, false, None));
    } else {
      EnterFits(s.shared, stack, t, e);
    }
    Step(s, Apply(s, Open(t, e)), t);
  }

  lemma OpenExitKeeps(s: State, t: Tid)
    requires Inv(s) && Enabled(s, OpenExit(t))
    ensures Inv(Apply(s, OpenExit(t)))
  {
    var stack := s.threads[t].stack;
    if Current(stack).None? {
      Pushed(stack, Exit(None, None));
    } else {
      ExitFits(s.shared, stack, t);
    }
    Step(s, Apply(s, OpenExit(t)), t);
  }

  lemma CloseKeeps(s: State, t: Tid)
    requires Inv(s) && Enabled(s, Close(t))
    ensures Inv(Apply(s, Close(t)))
  {
    var stack := s.threads[t].stack;
    if Top(stack).Enter? && Top(stack).needEnter { LeaveFits(s.shared, stack, t); }
    Step(s, Apply(s, Close(t)), t);
  }

  lemma ReenterKeeps(s: State, t: Tid)
    requires Inv(s) && Enabled(s, Reenter(t))
    ensures Inv(Apply(s, Reenter(t)))
  {
    ReenterFits(s.shared, s.threads[t].stack, t);
    Step(s, Apply(s, Reenter(t)), t);
  }

  lemma ActionKeeps(s: State, a: Action)
    requires Inv(s) && Enabled(s, a)
    ensures Inv(Apply(s, a))
  {
    match a
    case Open(t, e) => OpenKeeps(s, t, e);
    case OpenExit(t) => OpenExitKeeps(s, t);
    case Close(t) => CloseKeeps(s, t);
    case Reenter(t) => ReenterKeeps(s, t);
  }

  lemma {:induction false} RunKeeps(s: State, run: seq<Action>)
    requires Inv(s) && Allowed(s, run)
    ensures Inv(After(s, run)) && |After(s, run).threads| == |s.threads|
    decreases |run|
  {
    if run != [] {
      ActionKeeps(s, run[0]);
      assert |Apply(s, run[0]).threads| == |s.threads|;
      RunKeeps(Apply(s, run[0]), run[1..]);
    }
  }

  ghost predicate Reachable(s: State) {
    exists start, run :: Resting(start) && Allowed(start, run) && After(start, run) == s
  }

  lemma ReachableOk(s: State)
    requires Reachable(s)
    ensures Inv(s)
  {
    var start, run :| Resting(start) && Allowed(start, run) && After(start, run) == s;
    forall t | 0 <= t < |start.threads|
      ensures start.threads[t] == Thread([], Running)
    {
      assert start.threads[t] in start.threads;
    }
    RunKeeps(start, run);
  }

  // ---- what the invariant means ----

  /** The mutex depth is the count of entered scopes, and the interpreter lock is held exactly
      while the count is positive, by the thread that has the mutex. */
  lemma CountIsDepth(s: State)
    requires Reachable(s)
    ensures !s.shared.fault
    ensures s.shared.count == if s.shared.mutex.Some? then s.shared.mutex.value.depth else 0
    ensures s.shared.gil == if s.shared.count > 0 then Some(s.shared.mutex.value.owner) else None
    ensures s.shared.loaded.Some? <==> s.shared.count > 0
  {
    ReachableOk(s);
    if s.shared.mutex.Some? {
      assert OwnerView(s.shared, s.shared.mutex.value.owner, ThreadDepth(s.threads[s.shared.mutex.value.owner]),
                       ThreadExpected(s.threads[s.shared.mutex.value.owner], s.shared.mutex.value.owner));
    }
  }

  function HeldBy(p: Shared, t: Tid): nat {
    if p.mutex.Some? && p.mutex.value.owner == t then p.mutex.value.depth else 0
  }

  /** Balance: what a thread holds and has loaded depends on its open scopes alone.  So whenever it
      is back in the scopes it had before, by any nesting of scopes in between and whatever other
      threads did, its mutex depth, the interpreter lock and the loaded thread state are restored;
      with no scope open it holds nothing and its resting main thread state is in place. */
  lemma Balance(s: State, t: Tid)
    requires Reachable(s) && t < |s.threads| && s.threads[t].phase.Running?
    ensures HeldBy(s.shared, t) == Depth(s.threads[t].stack)
    ensures HeldBy(s.shared, t) > 0 ==>
              && s.shared.count == Depth(s.threads[t].stack) && s.shared.gil == Some(t)
              && s.shared.loaded == Some(Expected(s.threads[t].stack, t))
    ensures HeldBy(s.shared, t) == 0 ==> s.shared.gil != Some(t)
    ensures t in s.shared.mainTls ==> s.shared.mainTls[t] == MainOf(t)
  {
    ReachableOk(s);
    var owns := s.shared.mutex.Some? && s.shared.mutex.value.owner == t;
    assert ThreadDepth(s.threads[t]) == Depth(s.threads[t].stack);
    assert ThreadExpected(s.threads[t], t) == Expected(s.threads[t].stack, t);
    if owns {
      assert OwnerView(s.shared, t, Depth(s.threads[t].stack), Expected(s.threads[t].stack, t));
    } else if s.shared.mutex.Some? {
      CountIsDepth(s);
    }
  }

  /** In the scope of an engine, the engine's own thread state on this thread is the loaded one, and
      no other thread is in any engine's scope. */
  lemma CurrentIsLoaded(s: State, t: Tid, e: Engine)
    requires Reachable(s) && t < |s.threads| && s.threads[t].phase.Running? && Current(s.threads[t].stack) == Some(e)
    ensures s.shared.gil == Some(t) && s.shared.loaded == Some(SubOf(e, t))
    ensures forall u | 0 <= u < |s.threads| && u != t && s.threads[u].phase.Running? ::
              Current(s.threads[u].stack).None?
  {
    ReachableOk(s);
    DepthFacts(s.threads[t].stack, t);
    CurrentExpected(s.threads[t].stack, t);
    forall u | 0 <= u < |s.threads| && u != t && s.threads[u].phase.Running?
      ensures Current(s.threads[u].stack).None?
    {
      DepthFacts(s.threads[u].stack, u);
    }
  }

  lemma {:induction false} CurrentExpected(stack: seq<Frame>, t: Tid)
    requires StackOk(stack, t) && Current(stack).Some?
    ensures Expected(stack, t) == SubOf(Current(stack).value, t)
    decreases |stack|
  {
    if !Top(stack).needEnter { CurrentExpected(Below(stack), t); }
  }

  /** The constructor's complaint about a missing previous thread state is never raised. */
  lemma NeverBadPrevious(s: State, t: Tid, e: Engine)
    requires Reachable(s) && Enabled(s, Open(t, e)) && Current(s.threads[t].stack) != Some(e)
    ensures EnterEngine(s.shared, t, e).1 == Some(Expected(s.threads[t].stack, t))
  {
    ReachableOk(s);
    EnterFits(s.shared, s.threads[t].stack, t, e);
  }

  /** Nobody waits while holding the mutex. */
  lemma WaitersHoldNothing(s: State, t: Tid)
    requires Reachable(s) && t < |s.threads| && !MutexFreeFor(s.shared, t)
    ensures HeldBy(s.shared, t) == 0 && ThreadDepth(s.threads[t]) == 0
    ensures var owner := s.shared.mutex.value.owner;
            owner != t && owner < |s.threads| && (Enabled(s, Close(owner)) || Enabled(s, Reenter(owner)))
  {
    ReachableOk(s);
    var owner := s.shared.mutex.value.owner;
    assert ThreadDepth(s.threads[owner]) >= 1;
  }

  predicate Owns(s: State, u: Tid) {
    s.shared.mutex.Some? && s.shared.mutex.value.owner == u
  }

  /** What thread u does next when it only leaves scopes. */
  function LeaveAction(s: State, u: Tid): Action
    requires u < |s.threads|
  {
    if s.threads[u].phase.Reentering? then Reenter(u) else Close(u)
  }

  /** How many such steps there are at most. */
  function Remaining(thread: Thread): nat {
    2 * |thread.stack| + if thread.phase.Reentering? then 1 else 0
  }

  lemma OwnerLeaves(s: State, u: Tid)
    requires Inv(s) && Owns(s, u)
    ensures u < |s.threads| && Enabled(s, LeaveAction(s, u))
    ensures var s' := Apply(s, LeaveAction(s, u));
            && Inv(s') && |s'.threads| == |s.threads| && (s'.shared.mutex == None || Owns(s', u))
            && (forall v | 0 <= v < |s.threads| && v != u :: s'.threads[v] == s.threads[v])
            && Remaining(s'.threads[u]) < Remaining(s.threads[u])
  {
    assert ThreadDepth(s.threads[u]) >= 1;
    ActionKeeps(s, LeaveAction(s, u));
  }

  /** The owner of the mutex frees it by leaving its scopes, whatever the other threads wait for. */
  lemma {:induction false} OwnerFrees(s: State, u: Tid) returns (run: seq<Action>)
    requires Inv(s) && Owns(s, u)
    ensures u < |s.threads| && Allowed(s, run) && forall a <- run :: a == Close(u) || a == Reenter(u)
    ensures var s' := After(s, run);
            && |s'.threads| == |s.threads| && s'.shared.mutex == None
            && forall v | 0 <= v < |s.threads| && v != u :: s'.threads[v] == s.threads[v]
    decreases if u < |s.threads| then Remaining(s.threads[u]) else 0
  {
    OwnerLeaves(s, u);
    var a := LeaveAction(s, u);
    var s1 := Apply(s, a);
    var rest := [];
    if s1.shared.mutex.Some? { rest := OwnerFrees(s1, u); }
    Cons(s, a, rest);
    run := [a] + rest;
  }

  /** The action is possible but for the mutex. */
  predicate Blocked(s: State, a: Action) {
    && a.t < |s.threads| && !MutexFreeFor(s.shared, a.t)
    && ((a.Open? && s.threads[a.t].phase.Running? && Current(s.threads[a.t].stack) != Some(a.engine))
        || (a.Reenter? && s.threads[a.t].phase.Reentering?))
  }

  /** No deadlock: when a thread waits for the mutex, its owner can leave its scopes by steps that
      never wait, and then the waiting thread can go on. */
  lemma WaitersCanGo(s: State, a: Action) returns (run: seq<Action>)
    requires Reachable(s) && Blocked(s, a)
    ensures var u := s.shared.mutex.value.owner;
            u != a.t && u < |s.threads| && Allowed(s, run) && forall x <- run :: x == Close(u) || x == Reenter(u)
    ensures After(s, run).shared.mutex == None && Enabled(After(s, run), a)
  {
    ReachableOk(s);
    run := OwnerFrees(s, s.shared.mutex.value.owner);
  }

  // ---- trees of nested scopes ----

  /** A block of code with scopes: each node is a scope object and the blocks inside it. */
  datatype Tree = InEngine(engine: Engine, body: seq<Tree>) | OutOfEngine(body: seq<Tree>)

  /** Constructing a node's scope, running its body, and destroying the scope. */
  function Actions(t: Tid, tree: Tree, current: Option<Engine>): seq<Action> {
    match tree
    case InEngine(e, body) => [Open(t, e)] + (AllActions(t, body, Some(e)) + [Close(t)])
    case OutOfEngine(body) =>
      [OpenExit(t)] + (AllActions(t, body, None) + ([Close(t)] + if current.Some? then [Reenter(t)] else []))
  }

  function AllActions(t: Tid, trees: seq<Tree>, current: Option<Engine>): seq<Action> {
    if trees == [] then [] else Actions(t, trees[0], current) + AllActions(t, trees[1..], current)
  }

  lemma ActionsShape(t: Tid, e: Engine, body: seq<Tree>, current: Option<Engine>)
    ensures var run := Actions(t, InEngine(e, body), current);
            && |run| >= 2 && run[0] == Open(t, e) && run[|run| - 1] == Close(t)
            && run[1..|run| - 1] == AllActions(t, body, Some(e))
    ensures var run, close := Actions(t, OutOfEngine(body), current), if current.Some? then 2 else 1;
            && |run| > close && run[0] == OpenExit(t) && run[|run| - close] == Close(t)
            && (current.Some? ==> run[|run| - 1] == Reenter(t))
            && run[1..|run| - close] == AllActions(t, body, None)
  {
  }

  /** One block after the other. */
  lemma {:induction false} AllActionsAppend(t: Tid, trees: seq<Tree>, tree: Tree, current: Option<Engine>)
    ensures AllActions(t, trees + [tree], current) == AllActions(t, trees, current) + Actions(t, tree, current)
  {
    if trees == [] {
      assert [] + [tree] == [tree] && [tree][1..] == [] && AllActions(t, [], current) == [];
    } else {
      assert (trees + [tree])[1..] == trees[1..] + [tree];
      AllActionsAppend(t, trees[1..], tree, current);
    }
  }

  lemma {:induction false} Concat(s: State, first: seq<Action>, second: seq<Action>)
    requires Allowed(s, first) && Allowed(After(s, first), second)
    ensures Allowed(s, first + second) && After(s, first + second) == After(After(s, first), second)
    decreases |first|
  {
    if first == [] {
      assert first + second == second;
    } else {
      assert (first + second)[1..] == first[1..] + second;
      Concat(Apply(s, first[0]), first[1..], second);
    }
  }

  lemma Cons(s: State, a: Action, rest: seq<Action>)
    requires Enabled(s, a) && Allowed(Apply(s, a), rest)
    ensures Allowed(s, [a] + rest) && After(s, [a] + rest) == After(Apply(s, a), rest)
  {
    assert ([a] + rest)[1..] == rest;
  }

  /** Thread t is running and no other thread has the mutex. */
  ghost predicate Alone(s: State, t: Tid) {
    Inv(s) && t < |s.threads| && s.threads[t].phase.Running? && MutexFreeFor(s.shared, t)
  }

  lemma OpenAlone(s: State, t: Tid, e: Engine)
    requires Alone(s, t)
    ensures Enabled(s, Open(t, e))
    ensures var s' := Apply(s, Open(t, e));
            && Alone(s', t) && |s'.threads| == |s.threads| && s'.threads == s.threads[t := s'.threads[t]]
            && s'.threads[t].stack != [] && Below(s'.threads[t].stack) == s.threads[t].stack
            && Current(s'.threads[t].stack) == Some(e)
  {
    var stack := s.threads[t].stack;
    if Current(stack) != Some(e) { EnterFits(s.shared, stack, t, e); }
    ActionKeeps(s, Open(t, e));
    var frame := Top(Apply(s, Open(t, e)).threads[t].stack);
    Pushed(stack, frame);
  }

  lemma OpenExitAlone(s: State, t: Tid)
    requires Alone(s, t)
    ensures Enabled(s, OpenExit(t))
    ensures var s' := Apply(s, OpenExit(t));
            && Alone(s', t) && |s'.threads| == |s.threads| && s'.threads == s.threads[t := s'.threads[t]]
            && s'.threads[t].stack != [] && Below(s'.threads[t].stack) == s.threads[t].stack
            && Top(s'.threads[t].stack).Exit? && Top(s'.threads[t].stack).left == Current(s.threads[t].stack)
  {
    var stack := s.threads[t].stack;
    if Current(stack).Some? { ExitFits(s.shared, stack, t); }
    ActionKeeps(s, OpenExit(t));
    Pushed(stack, Top(Apply(s, OpenExit(t)).threads[t].stack));
  }

  lemma CloseEnterAlone(s: State, t: Tid)
    requires Alone(s, t) && s.threads[t].stack != [] && Top(s.threads[t].stack).Enter?
    ensures var s' := Apply(s, Close(t));
            Alone(s', t) && s'.threads == s.threads[t := Thread(Below(s.threads[t].stack), Running)]
  {
    if Top(s.threads[t].stack).needEnter { LeaveFits(s.shared, s.threads[t].stack, t); }
    ActionKeeps(s, Close(t));
  }

  lemma CloseExitAlone(s: State, t: Tid)
    requires Alone(s, t) && s.threads[t].stack != [] && Top(s.threads[t].stack).Exit?
    ensures var closing := [Close(t)] + if Top(s.threads[t].stack).left.Some? then [Reenter(t)] else [];
            && Allowed(s, closing)
            && Alone(After(s, closing), t)
            && After(s, closing).threads == s.threads[t := Thread(Below(s.threads[t].stack), Running)]
  {
    var s1 := Apply(s, Close(t));
    ActionKeeps(s, Close(t));
    if Top(s.threads[t].stack).left.Some? {
      var s2 := Apply(s1, Reenter(t));
      ActionKeeps(s1, Reenter(t));
      ReenterFits(s1.shared, s1.threads[t].stack, t);
      Cons(s1, Reenter(t), []);
      assert [Reenter(t)] + [] == [Reenter(t)];
      Cons(s, Close(t), [Reenter(t)]);
      assert s2.threads == s.threads[t := Thread(Below(s.threads[t].stack), Running)];
    } else {
      Cons(s, Close(t), []);
    }
  }

  lemma {:induction false} TreeRuns(s: State, t: Tid, tree: Tree)
    requires Alone(s, t)
    ensures var run := Actions(t, tree, Current(s.threads[t].stack));
            Allowed(s, run) && Alone(After(s, run), t) && After(s, run).threads == s.threads
    decreases tree, 0
  {
    var current := Current(s.threads[t].stack);
    match tree {
      case InEngine(e, body) =>
        OpenAlone(s, t, e);
        var s1 := Apply(s, Open(t, e));
        TreesRun(s1, t, body);
        var s2 := After(s1, AllActions(t, body, Some(e)));
        CloseEnterAlone(s2, t);
        Cons(s2, Close(t), []);
        assert [Close(t)] + [] == [Close(t)];
        Concat(s1, AllActions(t, body, Some(e)), [Close(t)]);
        Cons(s, Open(t, e), AllActions(t, body, Some(e)) + [Close(t)]);
      case OutOfEngine(body) =>
        OpenExitAlone(s, t);
        var s1 := Apply(s, OpenExit(t));
        TreesRun(s1, t, body);
        var s2 := After(s1, AllActions(t, body, None));
        CloseExitAlone(s2, t);
        var closing := [Close(t)] + if current.Some? then [Reenter(t)] else [];
        Concat(s1, AllActions(t, body, None), closing);
        Cons(s, OpenExit(t), AllActions(t, body, None) + closing);
    }
  }

  lemma {:induction false} TreesRun(s: State, t: Tid, trees: seq<Tree>)
    requires Alone(s, t)
    ensures var run := AllActions(t, trees, Current(s.threads[t].stack));
            Allowed(s, run) && Alone(After(s, run), t) && After(s, run).threads == s.threads
    decreases trees, 1
  {
    if trees != [] {
      var current := Current(s.threads[t].stack);
      TreeRuns(s, t, trees[0]);
      var s1 := After(s, Actions(t, trees[0], current));
      TreesRun(s1, t, trees[1..]);
      Concat(s, Actions(t, trees[0], current), AllActions(t, trees[1..], current));
    }
  }

  /** Every tree of nested scopes runs to its end and leaves the mutex, the count, the interpreter
      lock and the loaded thread state as it found them; thread states created on the way stay. */
  lemma TreeRestores(s: State, t: Tid, tree: Tree)
    requires Reachable(s) && t < |s.threads| && s.threads[t].phase.Running? && MutexFreeFor(s.shared, t)
    ensures var run := Actions(t, tree, Current(s.threads[t].stack));
            && Allowed(s, run)
            && After(s, run) == s.(shared := s.shared.(mainTls := After(s, run).shared.mainTls,
                                                       subTls := After(s, run).shared.subTls))
  {
    ReachableOk(s);
    TreeRuns(s, t, tree);
    var s' := After(s, Actions(t, tree, Current(s.threads[t].stack)));
    SameScopesSameState(s, s', t);
  }

  lemma SameScopesSameState(s: State, s': State, t: Tid)
    requires Alone(s, t) && Alone(s', t) && s'.threads == s.threads
    ensures s' == s.(shared := s.shared.(mainTls := s'.shared.mainTls, subTls := s'.shared.subTls))
  {
    var d := ThreadDepth(s.threads[t]);
    var x := ThreadExpected(s.threads[t], t);
    if s.shared.mutex.Some? {
      assert OwnerView(s.shared, t, d, x) && OwnerView(s'.shared, t, d, x);
    } else {
      assert RestingView(s.shared) && RestingView(s'.shared);
    }
  }
}
