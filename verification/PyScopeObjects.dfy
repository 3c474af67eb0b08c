/**
 The code that moves Python's shared state: the locker's two methods and the constructors and
 destructors of the scope objects, and on top of them the scopes of one thread.  Each does what
 `PyRuntime` specifies, and keeps the shared state fitting the thread's open scopes.
 */
module PyScopeObjects {
  import opened Options
  import opened PyRuntime
  import opened PyScopes

  /** The shared state is sound and fits these scopes of the thread. */
  predicate Ready(p: Shared, stack: seq<Frame>, t: Tid) {
    !p.fault && TlsOk(p) && StackOk(stack, t) && Fits(p, stack, t)
  }

  /** The thread holds the mutex and the interpreter lock so often, with this thread state loaded; not at
      all means that nobody does. */
  predicate HeldWith(p: Shared, t: Tid, held: int, loaded: ThreadStatePtr) {
    if held == 0 then RestingView(p) else held > 0 && OwnerView(p, t, held, loaded)
  }

  /** Right before an exit scope steps in again, the shared state fits being outside. */
  lemma ExitedFits(p: Shared, stack: seq<Frame>, t: Tid)
    requires Ready(p, stack, t) && stack != [] && Top(stack).Exit? && Top(stack).left.Some?
    ensures FitsOutside(p, Below(stack), t) && Current(Below(stack)) == Top(stack).left
  {
    DepthFacts(stack, t);
    DepthFacts(Below(stack), t);
  }

  class Runtime {
    var mutex: Option<Hold>
    var count: int
    var gil: Option<Tid>
    var loaded: Option<ThreadStatePtr>
    var mainTls: map<Tid, ThreadStatePtr>
    var subTls: map<(Tid, Engine), ThreadStatePtr>
    var fault: bool

    function View(): Shared
      reads this
    {
      Shared(mutex, count, gil, loaded, mainTls, subTls, fault)
    }

    constructor ()
      ensures View() == Shared(None, 0, None, None, map[], map[], false)
    {
      mutex, count, gil, loaded := None, 0, None, None;
      mainTls, subTls, fault := map[], map[], false;
    }

    method LockMutex(t: Tid)
      requires MutexFreeFor(View(), t)
      modifies this
      ensures View() == Lock(old(View()), t)
    {
      mutex := Some(Hold(t, if mutex.None? then 1 else mutex.value.depth + 1));
    }

    method UnlockMutex(t: Tid)
      modifies this
      ensures View() == Unlock(old(View()), t)
    {
      if mutex.None? || mutex.value.owner != t || mutex.value.depth == 0 {
        fault := true;
      } else if mutex.value.depth == 1 {
        mutex := None;
      } else {
        mutex := Some(Hold(t, mutex.value.depth - 1));
      }
    }

    method Restore(t: Tid, ts: ThreadStatePtr)
      modifies this
      ensures View() == RestoreThread(old(View()), t, ts)
    {
      if gil.Some? {
        fault := true;
      } else {
        gil, loaded := Some(t), Some(ts);
      }
    }

    method Save(t: Tid)
      modifies this
      ensures View() == SaveThread(old(View()), t)
    {
      if gil != Some(t) || loaded.None? {
        fault := true;
      } else {
        mainTls := mainTls[t := loaded.value];
        gil, loaded := None, None;
      }
    }

    /** PyThreadState_Swap. */
    method Swap(next: Option<ThreadStatePtr>) returns (previous: Option<ThreadStatePtr>)
      modifies this
      ensures View() == old(View()).(loaded := next) && previous == old(loaded)
    {
      previous := loaded;
      loaded := next;
    }

    /** Called once the mutex can be had: it is free or already this thread's.  The thread holds the mutex
        and the interpreter lock once more than before, with the same thread state loaded, or for the
        first time with its main one. */
    method WaitToEnterEngine(t: Tid, ghost held: nat, ghost loaded: ThreadStatePtr)
      requires MutexFreeFor(View(), t)
      modifies this
      ensures View() == WaitToEnter(old(View()), t)
      ensures old(HeldWith(View(), t, held, loaded)) && old(TlsOk(View())) ==>
                OwnerView(View(), t, held + 1, if held == 0 then MainOf(t) else loaded)
    {
      LockMutex(t);
      if count == 0 {
        var mainThreadState: ThreadStatePtr;
        if t !in mainTls {
          mainThreadState := MainOf(t);
          mainTls := mainTls[t := mainThreadState];
        } else {
          mainThreadState := mainTls[t];
        }
        Restore(t, mainThreadState);
      }
      count := count + 1;
    }

    /** The thread holds the mutex and the interpreter lock once less than before; after the last time the
        loaded thread state is saved as its main one. */
    method FinishExitEngine(t: Tid, ghost held: nat, ghost loaded: ThreadStatePtr)
      modifies this
      ensures View() == FinishExit(old(View()), t)
      ensures old(OwnerView(View(), t, held, loaded)) ==>
                HeldWith(View(), t, held - 1, loaded) && (held == 1 ==> mainTls == old(mainTls)[t := loaded])
    {
      count := count - 1;
      if count == 0 {
        Save(t);
      }
      UnlockMutex(t);
    }

    /** With these scopes around it, a scope that enters e finds the previous thread state and leaves the
        shared state fitting one scope more. */
    method ConstructScope(t: Tid, e: Engine, ghost stack: seq<Frame>) returns (prevThreadState: Option<ThreadStatePtr>)
      requires MutexFreeFor(View(), t)
      modifies this
      ensures (View(), prevThreadState) == EnterEngine(old(View()), t, e)
      ensures old(Ready(View(), stack, t)) && Current(stack) != Some(e) ==>
                && prevThreadState == Some(Expected(stack, t))
                && Ready(View(), stack + [Enter(e, true, prevThreadState)], t)
    {
      if Ready(View(), stack, t) && Current(stack) != Some(e) { EnterFits(View(), stack, t, e); }
      WaitToEnterEngine(t, 0, MainOf(t));
      prevThreadState := Swap(None);
      if prevThreadState.None? {
        return;
      }
      var currentThreadState: ThreadStatePtr;
      if (t, e) !in subTls {
        currentThreadState := SubOf(e, t);
        subTls := subTls[(t, e) := currentThreadState];
      } else {
        currentThreadState := subTls[(t, e)];
      }
      var none := Swap(Some(currentThreadState));
    }

    /** Destroying the innermost scope leaves the shared state fitting the others. */
    method DestroyScope(t: Tid, prevThreadState: ThreadStatePtr, ghost stack: seq<Frame>)
      modifies this
      ensures View() == LeaveEngine(old(View()), t, prevThreadState)
      ensures (&& old(Ready(View(), stack, t)) && stack != [] && Top(stack).Enter? && Top(stack).needEnter
               && Top(stack).prevThreadState == Some(prevThreadState))
              ==> Ready(View(), Below(stack), t)
    {
      if Ready(View(), stack, t) && stack != [] && Top(stack).Enter? && Top(stack).needEnter {
        LeaveFits(View(), stack, t);
      }
      var left := Swap(Some(prevThreadState));
      FinishExitEngine(t, 0, MainOf(t));
    }

    /** Stepping out of the current engine leaves the shared state fitting the exit scope as well. */
    method ConstructExit(t: Tid, ghost stack: seq<Frame>) returns (enteredThreadState: Option<ThreadStatePtr>)
      modifies this
      ensures (View(), enteredThreadState) == ExitEngine(old(View()), t)
      ensures old(Ready(View(), stack, t)) && Current(stack).Some? ==>
                Ready(View(), stack + [Exit(Current(stack), enteredThreadState)], t)
    {
      if Ready(View(), stack, t) && Current(stack).Some? { ExitFits(View(), stack, t); }
      enteredThreadState := Swap(if t in mainTls then Some(mainTls[t]) else None);
      FinishExitEngine(t, 0, MainOf(t));
    }

    /** And stepping in again leaves it fitting the scopes without the exit scope. */
    method DestroyExit(t: Tid, enteredThreadState: Option<ThreadStatePtr>, ghost stack: seq<Frame>)
      requires MutexFreeFor(View(), t)
      modifies this
      ensures View() == ReenterEngine(old(View()), t, enteredThreadState)
      ensures (&& old(Ready(View(), stack, t)) && stack != [] && Top(stack).Exit? && Top(stack).left.Some?
               && Top(stack).enteredThreadState == enteredThreadState)
              ==> Ready(View(), Below(stack), t)
    {
      if Ready(View(), stack, t) && stack != [] && Top(stack).Exit? && Top(stack).left.Some? {
        ExitedFits(View(), stack, t);
        ReenterFits(View(), Below(stack), t);
      }
      WaitToEnterEngine(t, 0, MainOf(t));
      var resting := Swap(enteredThreadState);
    }
  }

  /** The scopes of one thread: `EngineScope` and `ExitEngineScope` of the Python backend. */
  class ThreadScopes {
    const t: Tid
    const runtime: Runtime
    var stack: seq<Frame>

    predicate Valid()
      reads this, runtime
    {
      Ready(runtime.View(), stack, t)
    }

    constructor (t: Tid, runtime: Runtime)
      requires Ready(runtime.View(), [], t)
      ensures this.t == t && this.runtime == runtime && stack == [] && Valid()
    {
      this.t, this.runtime, stack := t, runtime, [];
    }

    /** Entering the current engine again changes nothing but the list of scopes. */
    method Open(e: Engine)
      requires Valid() && (Current(stack) == Some(e) || MutexFreeFor(runtime.View(), t))
      modifies this, runtime
      ensures Valid() && |stack| > 0 && Below(stack) == old(stack) && Current(stack) == Some(e)
      ensures old(Current(stack)) == Some(e) ==> runtime.View() == old(runtime.View())
      ensures old(Current(stack)) != Some(e) ==> runtime.loaded == Some(SubOf(e, t)) && runtime.gil == Some(t)
    {
      if Current(stack) == Some(e) {
        Pushed(stack, Enter(e, false, None));
        stack := stack + [Enter(e, false, None)];
      } else {
        var previous := runtime.ConstructScope(t, e, stack);
        Pushed(stack, Enter(e, true, previous));
        stack := stack + [Enter(e, true, previous)];
        DepthFacts(stack, t);
      }
    }

    method OpenExit()
      requires Valid()
      modifies this, runtime
      ensures Valid() && |stack| > 0 && Below(stack) == old(stack) && Current(stack) == None
      ensures old(Current(stack)) == None ==> runtime.View() == old(runtime.View())
    {
      var current := Current(stack);
      if current.None? {
        Pushed(stack, Exit(None, None));
        stack := stack + [Exit(None, None)];
      } else {
        var entered := runtime.ConstructExit(t, stack);
        Pushed(stack, Exit(current, entered));
        stack := stack + [Exit(current, entered)];
      }
    }

    /** Destroys the innermost scope. */
    method Close()
      requires Valid() && stack != [] && (Top(stack).Exit? && Top(stack).left.Some? ==> MutexFreeFor(runtime.View(), t))
      modifies this, runtime
      ensures Valid() && stack == old(Below(stack))
    {
      match Top(stack) {
        case Enter(_, needEnter, previous) =>
          if needEnter { runtime.DestroyScope(t, previous.value, stack); }
        case Exit(left, entered) =>
          if left.Some? { runtime.DestroyExit(t, entered, stack); }
      }
      stack := Below(stack);
    }
  }
}
