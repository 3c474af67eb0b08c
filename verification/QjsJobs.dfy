/**
 The pending jobs of QuickJS engines: that none appears or vanishes but by being added or executed, and
 that a tick is only ever scheduled for the sake of one.
 */
module QjsJobs {
  import opened Options
  import opened EngineScopes
  import opened ScopeOwnership
  import opened QjsTicks
  import opened ScopeEffects

  // ---- jobs are executed one by one ----

  /** The action adds a job to e: a thread does so whose current engine e is. */
  predicate Adds(s: State, a: Action, e: Engine) {
    a.AddJob? && a.t < |s.threads| && Current(s.threads[a.t].stack) == Some(e)
  }

  /** The action executes a job of e: a tick handler in its scope of e does so. */
  predicate Executes(s: State, a: Action, e: Engine) {
    a.RunJob? && a.t < |s.threads| && Current(s.threads[a.t].stack) == Some(e)
  }

  /** How many jobs of e the run adds, and how many it executes. */
  function AddedBy(s: State, run: seq<Action>, e: Engine): nat
    requires Allowed(QuickJs, s, run)
    decreases |run|
  {
    if run == [] then 0 else One(Adds(s, run[0], e)) + AddedBy(Apply(QuickJs, s, run[0]), run[1..], e)
  }

  function ExecutedBy(s: State, run: seq<Action>, e: Engine): nat
    requires Allowed(QuickJs, s, run)
    decreases |run|
  {
    if run == [] then 0 else One(Executes(s, run[0], e)) + ExecutedBy(Apply(QuickJs, s, run[0]), run[1..], e)
  }

  lemma JobsStep(s: State, a: Action, e: Engine)
    requires Enabled(QuickJs, s, a)
    ensures Apply(QuickJs, s, a).pending[e] + One(Executes(s, a, e)) == s.pending[e] + One(Adds(s, a, e))
  {
  }

  /** Conservation: the jobs that are pending after a run are those from before and those added, less
      those executed. */
  lemma {:induction false} JobsConserved(s: State, run: seq<Action>, e: Engine)
    requires Allowed(QuickJs, s, run)
    ensures After(QuickJs, s, run).pending[e] + ExecutedBy(s, run, e) == s.pending[e] + AddedBy(s, run, e)
    decreases |run|
  {
    if run != [] {
      JobsStep(s, run[0], e);
      JobsConserved(Apply(QuickJs, s, run[0]), run[1..], e);
    }
  }

  // ---- no tick without a job ----

  /** The thread has found a reason for a tick of e and has not posted one yet. */
  predicate Ticking(ts: ThreadState, e: Engine) {
    TickCas(e) in Program(ts) || TickPost(e) in Program(ts)
  }

  /** No tick of e is scheduled, queued, or about to be. */
  ghost predicate Idle(s: State, e: Engine) {
    && e !in s.scheduled && s.queued[e] == 0
    && forall t | 0 <= t < |s.threads| :: !Ticking(s.threads[t], e)
  }

  /** There is no reason for one: no job is pending, or the engine is being destroyed. */
  predicate NoReason(s: State, e: Engine) {
    s.pending[e] == 0 || e in s.destroying
  }

  lemma OpIdle(s: State, ts: ThreadState, e: Engine)
    requires ts.phase.Busy? && ts.phase.ops != [] && !Ticking(ts, e) && NoReason(s, e)
    ensures !Ticking(OpThread(s, ts), e)
    ensures ts.phase.ops[0] != TickCas(e) && ts.phase.ops[0] != TickPost(e)
  {
    assert ts.phase.ops[0] in ts.phase.ops;
    assert forall op <- ts.phase.ops[1..] :: op in ts.phase.ops;
  }

  lemma BegunIdle(stack: seq<Frame>, d: Engine, destroying: bool, tick: bool, e: Engine)
    ensures var begun := BeginEnter(QuickJs, stack, d, destroying, tick); begun.Some? ==> !Ticking(begun.value, e)
    ensures stack != [] ==> !Ticking(BeginClose(QuickJs, stack), e)
    ensures stack != [] && Top(stack).Enter? ==>
              TickCas(e) !in LeaveProgram(QuickJs, Top(stack)) && TickPost(e) !in LeaveProgram(QuickJs, Top(stack))
  {
  }

  lemma ThreadIdle(s: State, a: Action, e: Engine, t: Tid)
    requires Enabled(QuickJs, s, a) && t < |s.threads| && !Ticking(s.threads[t], e) && NoReason(s, e)
    ensures t < |Apply(QuickJs, s, a).threads| && !Ticking(Apply(QuickJs, s, a).threads[t], e)
  {
    var ts := s.threads[t];
    match a
    case Advance(u) => if u == t && ts.phase.ops != [] { OpIdle(s, ts, e); }
    case Open(u, d) => if u == t && d.Some? { BegunIdle(ts.stack, d.value, d.value in s.destroying, false, e); }
    case StartTick(u, d) => if u == t { BegunIdle(ts.stack, d, d in s.destroying, true, e); }
    case Close(u) => if u == t { BegunIdle(ts.stack, e, false, false, e); }
    case EndDrain(u) => if u == t { BegunIdle(ts.stack, e, false, false, e); }
    case _ =>
  }

  lemma SharedIdle(s: State, a: Action, e: Engine)
    requires Enabled(QuickJs, s, a) && Idle(s, e) && NoReason(s, e)
    ensures var s' := Apply(QuickJs, s, a); e !in s'.scheduled && s'.queued[e] == 0
  {
    if a.Advance? && s.threads[a.t].phase.ops != [] { OpIdle(s, s.threads[a.t], e); }
  }

  /** A tick has a reason: from a state in which none of e is under way, no run schedules or posts one that
      adds no job to e when none is pending, and none does once the engine is being destroyed. */
  lemma {:induction false} NoTickWithoutReason(s: State, run: seq<Action>, e: Engine)
    requires Allowed(QuickJs, s, run) && Idle(s, e)
    requires e in s.destroying || (s.pending[e] == 0 && AddedBy(s, run, e) == 0)
    ensures Idle(After(QuickJs, s, run), e)
    decreases |run|
  {
    if run != [] {
      var s' := Apply(QuickJs, s, run[0]);
      SharedIdle(s, run[0], e);
      forall t | 0 <= t < |s'.threads|
        ensures !Ticking(s'.threads[t], e)
      {
        ThreadCount(QuickJs, s, run[0]);
        ThreadIdle(s, run[0], e, t);
      }
      JobsStep(s, run[0], e);
      if e in s.destroying { StaysDestroying(QuickJs, s, run[0], e); }
      NoTickWithoutReason(s', run[1..], e);
    }
  }

  // ---- a tick for a job ----

  /** The program of `triggerTick`, as far as it goes. */
  function Triggering(s: State, t: Tid, ops: seq<Op>): State
    requires t < |s.threads|
  {
    WithThread(s, t, ThreadState(s.threads[t].stack, Busy(ops, Stay)))
  }

  /** `triggerTick`, when no other thread comes in between: for a living engine with a job and no tick
      scheduled it sets the flag and posts one tick, and otherwise it changes nothing. */
  lemma TriggerSchedules(s: State, t: Tid) returns (run: seq<Action>)
    requires Enabled(QuickJs, s, Trigger(t))
    ensures Allowed(QuickJs, s, [Trigger(t)] + run) && forall a <- run :: a == Advance(t)
    ensures var e := Current(s.threads[t].stack).value;
            After(QuickJs, s, [Trigger(t)] + run)
            == if e in s.destroying || s.pending[e] == 0 || e in s.scheduled then s
               else if e in s.closed then s.(scheduled := s.scheduled + {e}, dropped := s.dropped + multiset{e})
               else s.(scheduled := s.scheduled + {e}, queued := s.queued + multiset{e})
  {
    var e := Current(s.threads[t].stack).value;
    var s1 := Apply(QuickJs, s, Trigger(t));
    assert s1 == Triggering(s, t, [TickCheck(e)]) && [TickCheck(e)][1..] == [];
    if e in s.destroying || s.pending[e] == 0 {
      run := TriggerEnds(s1, s, t);
    } else {
      var s2 := Apply(QuickJs, s1, Advance(t));
      assert [TickCas(e)] + [] == [TickCas(e)] && [TickCas(e)][1..] == [];
      assert s2 == Triggering(s, t, [TickCas(e)]);
      var rest := TriggerSwaps(s2, s, t, e);
      Cons(QuickJs, s1, Advance(t), rest);
      run := [Advance(t)] + rest;
    }
    Cons(QuickJs, s, Trigger(t), run);
  }

  lemma TriggerSwaps(s2: State, s: State, t: Tid, e: Engine) returns (run: seq<Action>)
    requires t < |s.threads| && s.threads[t].phase.Running? && s2 == Triggering(s, t, [TickCas(e)])
    ensures Allowed(QuickJs, s2, run) && forall a <- run :: a == Advance(t)
    ensures After(QuickJs, s2, run)
            == if e in s.scheduled then s
               else if e in s.closed then s.(scheduled := s.scheduled + {e}, dropped := s.dropped + multiset{e})
               else s.(scheduled := s.scheduled + {e}, queued := s.queued + multiset{e})
  {
    assert [TickCas(e)][1..] == [] && [TickPost(e)] + [] == [TickPost(e)] && [TickPost(e)][1..] == [];
    var flagged := s.(scheduled := s.scheduled + {e});
    if e in s.scheduled {
      assert flagged == s;
      run := TriggerEnds(s2, s, t);
    } else {
      var s3 := Apply(QuickJs, s2, Advance(t));
      assert s3 == Triggering(flagged, t, [TickPost(e)]);
      var posted := if e in s.closed then flagged.(dropped := s.dropped + multiset{e})
                    else flagged.(queued := s.queued + multiset{e});
      var rest := TriggerEnds(s3, posted, t);
      Cons(QuickJs, s2, Advance(t), rest);
      run := [Advance(t)] + rest;
    }
  }

  /** The last operation, and the end. */
  lemma TriggerEnds(s: State, last: State, t: Tid) returns (run: seq<Action>)
    requires t < |last.threads| && last.threads[t].phase.Running? && Enabled(QuickJs, s, Advance(t))
    requires Apply(QuickJs, s, Advance(t)) == Triggering(last, t, [])
    ensures Allowed(QuickJs, s, run) && After(QuickJs, s, run) == last && forall a <- run :: a == Advance(t)
  {
    var s1 := Apply(QuickJs, s, Advance(t));
    assert Apply(QuickJs, s1, Advance(t)) == last;
    Cons(QuickJs, s1, Advance(t), []);
    Cons(QuickJs, s, Advance(t), [Advance(t)] + []);
    run := [Advance(t)] + ([Advance(t)] + []);
  }
}
