/**
 The Python backend's locking: one recursive mutex for all engines, the count of entered scopes,
 the global interpreter lock, and the thread state CPython has loaded.

 The functions say what each call makes of the whole state.  `PyScopeObjects` has the code that does
 it step by step; what the calls keep over arbitrary interleavings of threads is proved in `PyScopes`.
 */
module PyRuntime {
  import opened Options

  type Engine = nat
  type Tid = nat

  /** A CPython thread state: of the main interpreter, or of an engine's sub-interpreter, on a
      given thread. */
  datatype ThreadStatePtr = MainOf(thread: Tid) | SubOf(engine: Engine, thread: Tid)

  datatype Hold = Hold(owner: Tid, depth: nat)

  /** `loaded` is CPython's current thread state.  `fault` records a fatal error or a wait that
      can never end. */
  datatype Shared = Shared(
    mutex: Option<Hold>,
    count: int,
    gil: Option<Tid>,
    loaded: Option<ThreadStatePtr>,
    mainTls: map<Tid, ThreadStatePtr>,
    subTls: map<(Tid, Engine), ThreadStatePtr>,
    fault: bool)

  // ---- the primitives: std::recursive_mutex and the CPython calls ----

  predicate MutexFreeFor(p: Shared, t: Tid) {
    p.mutex.None? || p.mutex.value.owner == t
  }

  function Lock(p: Shared, t: Tid): Shared {
    if p.mutex.None? then p.(mutex := Some(Hold(t, 1)))
    else p.(mutex := Some(Hold(t, p.mutex.value.depth + 1)))
  }

  function Unlock(p: Shared, t: Tid): Shared {
    if p.mutex.None? || p.mutex.value.owner != t || p.mutex.value.depth == 0 then p.(fault := true)
    else if p.mutex.value.depth == 1 then p.(mutex := None)
    else p.(mutex := Some(Hold(t, p.mutex.value.depth - 1)))
  }

  /** PyEval_RestoreThread: take the interpreter lock and load `ts`. */
  function RestoreThread(p: Shared, t: Tid, ts: ThreadStatePtr): Shared {
    if p.gil.Some? then p.(fault := true) else p.(gil := Some(t), loaded := Some(ts))
  }

  /** mainThreadStateInTLS_.set(PyEval_SaveThread()): unload, remember, release the lock. */
  function SaveThread(p: Shared, t: Tid): Shared {
    if p.gil != Some(t) || p.loaded.None? then p.(fault := true)
    else p.(mainTls := p.mainTls[t := p.loaded.value], gil := None, loaded := None)
  }

  /** What counts as undefined: unlocking a mutex that one does not own, resuming a thread state while the
      interpreter lock is taken, and saving one without it. */
  lemma Misuse(p: Shared, t: Tid, ts: ThreadStatePtr)
    requires p.mutex.Some? ==> p.mutex.value.depth > 0
    ensures Unlock(p, t).fault <==> p.fault || p.mutex.None? || p.mutex.value.owner != t
    ensures RestoreThread(p, t, ts).fault <==> p.fault || p.gil.Some?
    ensures SaveThread(p, t).fault <==> p.fault || p.gil != Some(t) || p.loaded.None?
  {
  }

  /** Saving and resuming are inverse: the same thread state is loaded again under the lock. */
  lemma SaveRestores(p: Shared, t: Tid)
    requires p.gil == Some(t) && p.loaded.Some?
    ensures var saved := SaveThread(p, t);
            && saved.gil == None && saved.loaded == None && t in saved.mainTls
            && RestoreThread(saved, t, saved.mainTls[t]) == p.(mainTls := p.mainTls[t := p.loaded.value])
  {
  }

  // ---- EngineLockerHelper ----

  function WaitToEnter(p: Shared, t: Tid): Shared {
    var locked := Lock(p, t);
    var ready :=
      if p.count != 0 then locked
      else
        var known := if t in p.mainTls then locked else locked.(mainTls := p.mainTls[t := MainOf(t)]);
        RestoreThread(known, t, known.mainTls[t]);
    ready.(count := p.count + 1)
  }

  function FinishExit(p: Shared, t: Tid): Shared {
    var left := p.(count := p.count - 1);
    Unlock(if left.count == 0 then SaveThread(left, t) else left, t)
  }

  // ---- EngineScopeImpl and ExitEngineScopeImpl ----

  /** The constructor's second half: the thread state that was loaded, and the engine's own one
      loaded instead, created on the engine's first visit to the thread. */
  function LoadEngine(p: Shared, t: Tid, e: Engine): Shared {
    var known := if (t, e) in p.subTls then p else p.(subTls := p.subTls[(t, e) := SubOf(e, t)]);
    known.(loaded := Some(known.subTls[(t, e)]))
  }

  function EnterEngine(p: Shared, t: Tid, e: Engine): (Shared, Option<ThreadStatePtr>) {
    var q := WaitToEnter(p, t);
    if q.loaded.None? then (q, None)   // the constructor throws
    else (LoadEngine(q, t, e), q.loaded)
  }

  function LeaveEngine(p: Shared, t: Tid, previous: ThreadStatePtr): Shared {
    FinishExit(p.(loaded := Some(previous)), t)
  }

  function ExitEngine(p: Shared, t: Tid): (Shared, Option<ThreadStatePtr>) {
    (FinishExit(p.(loaded := if t in p.mainTls then Some(p.mainTls[t]) else None), t), p.loaded)
  }

  function ReenterEngine(p: Shared, t: Tid, entered: Option<ThreadStatePtr>): Shared {
    WaitToEnter(p, t).(loaded := entered)
  }
}
