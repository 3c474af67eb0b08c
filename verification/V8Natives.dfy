/**
 Native objects behind V8 instances: who cleans them up, and how much external memory V8 is told of.
 The garbage collector reports a dead instance in two passes, at any time, also while the engine is
 being destroyed; so this is a machine whose steps interleave.
 */
module V8Natives {

  type Native = nat

  datatype Phase = Running | Destroying | Destroyed

  /** `log`: every instance made, with its size.  `managed`: the map `managedObject_`.  `visited`: the
      entries whose weak handle the destroying loop has reset.  `pending`: between the two passes.
      `ownIsolate`: destroying the engine disposes of its isolate, after which nothing is called back; an
      engine that shares another's isolate leaves it alone.  `fault`: a callback has used a deleted
      engine, which is undefined; the machine goes on as if it had not been. */
  datatype State = State(log: seq<(Native, int)>, managed: set<Native>, visited: set<Native>, pending: set<Native>,
                         cleaned: multiset<Native>, external: int, phase: Phase, ownIsolate: bool, fault: bool)

  datatype Step =
    | Construct(n: Native, size: int)
    | FirstPass(n: Native)
    | SecondPass(n: Native)
    | StartDestroy
    | DestroyNext(n: Native)
    | FinishDestroy

  function Made(log: seq<(Native, int)>): set<Native> {
    set e <- log :: e.0
  }

  function Size(log: seq<(Native, int)>, n: Native): int {
    if log == [] then 0 else if log[0].0 == n then log[0].1 else Size(log[1..], n)
  }

  predicate Can(s: State, t: Step) {
    match t
    case Construct(n, _) => s.phase == Running && n !in Made(s.log)
    case FirstPass(n) => s.phase != Destroyed && n in s.managed && n !in s.visited
    case SecondPass(n) => (s.phase == Destroyed ==> !s.ownIsolate) && n in s.pending
    case StartDestroy => s.phase == Running
    case DestroyNext(n) => s.phase == Destroying && n in s.managed && n !in s.visited
    case FinishDestroy => s.phase == Destroying && s.managed <= s.visited
  }

  /** The cleanup function: `adjustAssociatedMemory` does nothing once destroying has begun. */
  function CleanUp(s: State, n: Native): State {
    s.(cleaned := s.cleaned + multiset{n},
       external := if s.phase == Running then s.external - Size(s.log, n) else s.external)
  }

  function Next(s: State, t: Step): State {
    match t
    case Construct(n, size) =>
      s.(log := s.log + [(n, size)], managed := s.managed + {n}, external := s.external + size)
    case FirstPass(n) => s.(managed := s.managed - {n}, pending := s.pending + {n})
    case SecondPass(n) => CleanUp(s.(pending := s.pending - {n}, fault := s.fault || s.phase == Destroyed), n)
    case StartDestroy => s.(phase := Destroying)
    case DestroyNext(n) => CleanUp(s.(visited := s.visited + {n}), n)
    case FinishDestroy => s.(managed := {}, visited := {}, phase := Destroyed)
  }

  function Fresh(ownIsolate: bool): State {
    State([], {}, {}, {}, multiset{}, 0, Running, ownIsolate, false)
  }

  ghost predicate Run(s: State, steps: seq<Step>, last: State)
    decreases |steps|
  {
    if steps == [] then s == last else Can(s, steps[0]) && Run(Next(s, steps[0]), steps[1..], last)
  }

  /** The total size of the instances that have not been cleaned up. */
  function Uncleaned(log: seq<(Native, int)>, cleaned: multiset<Native>): int {
    if log == [] then 0
    else (if log[0].0 in cleaned then 0 else log[0].1) + Uncleaned(log[1..], cleaned)
  }

  predicate Unique(log: seq<(Native, int)>) {
    log != [] ==> log[0].0 !in Made(log[1..]) && Unique(log[1..])
  }

  /** How many cleanups of n there have been or are still due. */
  function Due(s: State, n: Native): nat {
    s.cleaned[n] + (if n in s.managed && n !in s.visited then 1 else 0) + (if n in s.pending then 1 else 0)
  }

  ghost predicate Inv(s: State) {
    && Unique(s.log)
    && (forall n: Native :: Due(s, n) == if n in Made(s.log) then 1 else 0)
    && s.visited <= s.managed && (s.phase != Destroying ==> s.visited == {})
    && (s.phase == Destroyed ==> s.managed == {})
    && (s.phase == Running ==> s.external == Uncleaned(s.log, s.cleaned))
  }

  lemma {:induction false} UncleanedOne(log: seq<(Native, int)>, cleaned: multiset<Native>, n: Native)
    requires Unique(log) && n in Made(log) && n !in cleaned
    ensures Uncleaned(log, cleaned + multiset{n}) == Uncleaned(log, cleaned) - Size(log, n)
  {
    if log[0].0 == n {
      UncleanedOther(log[1..], cleaned, n);
    } else {
      UncleanedOne(log[1..], cleaned, n);
    }
  }

  lemma {:induction false} UncleanedOther(log: seq<(Native, int)>, cleaned: multiset<Native>, n: Native)
    requires n !in Made(log)
    ensures Uncleaned(log, cleaned + multiset{n}) == Uncleaned(log, cleaned)
  {
    if log != [] {
      assert log[0] in log;
      assert forall e <- log[1..] :: e in log;
      UncleanedOther(log[1..], cleaned, n);
    }
  }

  lemma {:induction false} UncleanedMore(log: seq<(Native, int)>, cleaned: multiset<Native>, n: Native, size: int)
    requires Unique(log) && n !in Made(log) && n !in cleaned
    ensures Unique(log + [(n, size)]) && Made(log + [(n, size)]) == Made(log) + {n}
    ensures Uncleaned(log + [(n, size)], cleaned) == Uncleaned(log, cleaned) + size
  {
    if log == [] {
      assert log + [(n, size)] == [(n, size)];
      assert Uncleaned([(n, size)][1..], cleaned) == 0;
    } else {
      assert (log + [(n, size)])[1..] == log[1..] + [(n, size)];
      assert log[0] in log;
      assert forall e <- log[1..] :: e in log;
      UncleanedMore(log[1..], cleaned, n, size);
      assert Made(log) == {log[0].0} + Made(log[1..]);
      assert Made(log + [(n, size)]) == {log[0].0} + Made(log[1..] + [(n, size)]);
    }
  }

  lemma StepKeeps(s: State, t: Step)
    requires Inv(s) && Can(s, t)
    ensures Inv(Next(s, t))
  {
    var after := Next(s, t);
    if t.Construct? {
      assert Due(s, t.n) == 0;
      UncleanedMore(s.log, s.cleaned, t.n, t.size);
    }
    if t.SecondPass? || t.DestroyNext? {
      assert Due(s, t.n) == 1;
      UncleanedOne(s.log, s.cleaned, t.n);
    }
    forall n: Native
      ensures Due(after, n) == if n in Made(after.log) then 1 else 0
    {
      assert Due(s, n) == if n in Made(s.log) then 1 else 0;
    }
  }

  /** From when destroying begins the external memory is left alone. */
  lemma {:induction false} MemoryFrozen(s: State, steps: seq<Step>, last: State)
    requires Run(s, steps, last) && s.phase != Running
    ensures last.phase != Running && last.external == s.external
    decreases |steps|
  {
    if steps != [] { MemoryFrozen(Next(s, steps[0]), steps[1..], last); }
  }

  lemma {:induction false} RunKeeps(s: State, steps: seq<Step>, last: State)
    requires Inv(s) && Run(s, steps, last)
    ensures Inv(last)
    decreases |steps|
  {
    if steps != [] {
      StepKeeps(s, steps[0]);
      RunKeeps(Next(s, steps[0]), steps[1..], last);
    }
  }

  /** In every interleaving: no native object is cleaned up twice, one that is not is still in the map
      or between the passes, and until destroying starts the external memory is the total size of
      those. */
  lemma CleanedAtMostOnce(own: bool, steps: seq<Step>, s: State)
    requires Run(Fresh(own), steps, s)
    ensures forall n: Native :: s.cleaned[n] <= 1 && (s.cleaned[n] > 0 ==> n in Made(s.log))
    ensures forall n <- Made(s.log) :: s.cleaned[n] == 0 <==> (n in s.managed && n !in s.visited) || n in s.pending
    ensures s.phase == Running ==> s.external == Uncleaned(s.log, s.cleaned)
  {
    assert Inv(Fresh(own));
    RunKeeps(Fresh(own), steps, s);
    forall n: Native
      ensures s.cleaned[n] <= 1 && (s.cleaned[n] > 0 ==> n in Made(s.log))
      ensures n in Made(s.log) ==> (s.cleaned[n] == 0 <==> (n in s.managed && n !in s.visited) || n in s.pending)
    {
      assert Due(s, n) == if n in Made(s.log) then 1 else 0;
    }
  }

  /** The objects between the two passes when destroying ends. */
  function PendingAtEnd(s: State, steps: seq<Step>): set<Native>
    decreases |steps|
  {
    if steps == [] then {}
    else if steps[0].FinishDestroy? then s.pending
    else PendingAtEnd(Next(s, steps[0]), steps[1..])
  }

  /** The second pass of n comes after destroying has ended. */
  predicate SecondLate(s: State, steps: seq<Step>, n: Native)
    decreases |steps|
  {
    steps != [] && ((steps[0] == SecondPass(n) && s.phase == Destroyed) || SecondLate(Next(s, steps[0]), steps[1..], n))
  }

  lemma {:induction false} LateAfterEnd(s: State, steps: seq<Step>, last: State, n: Native)
    requires Inv(s) && Run(s, steps, last) && s.phase == Destroyed
    ensures last.phase == Destroyed
    ensures n in last.pending <==> n in s.pending && !SecondLate(s, steps, n)
    ensures s.ownIsolate ==> !SecondLate(s, steps, n)
    decreases |steps|
  {
    if steps != [] {
      assert Due(s, n) == if n in Made(s.log) then 1 else 0;
      StepKeeps(s, steps[0]);
      LateAfterEnd(Next(s, steps[0]), steps[1..], last, n);
    }
  }

  lemma {:induction false} LateInRun(s: State, steps: seq<Step>, last: State, n: Native)
    requires Inv(s) && Run(s, steps, last) && s.phase != Destroyed && last.phase == Destroyed
    ensures n in last.pending <==> n in PendingAtEnd(s, steps) && !SecondLate(s, steps, n)
    ensures s.ownIsolate ==> !SecondLate(s, steps, n)
    decreases |steps|
  {
    StepKeeps(s, steps[0]);
    if steps[0].FinishDestroy? {
      LateAfterEnd(Next(s, steps[0]), steps[1..], last, n);
    } else {
      LateInRun(Next(s, steps[0]), steps[1..], last, n);
    }
  }

  /** After destroying, exactly those objects have not been cleaned up that were between the two passes
      when it ended and whose second pass has not come since; on an isolate of the engine's own it never
      comes. */
  lemma CleanedExactlyOnce(own: bool, steps: seq<Step>, s: State)
    requires Run(Fresh(own), steps, s) && s.phase == Destroyed
    ensures forall n <- Made(s.log) :: s.cleaned[n] <= 1
    ensures forall n <- Made(s.log) ::
              s.cleaned[n] == 0 <==> n in PendingAtEnd(Fresh(own), steps) && !SecondLate(Fresh(own), steps, n)
    ensures own ==> forall n <- Made(s.log) :: s.cleaned[n] == 0 <==> n in PendingAtEnd(Fresh(own), steps)
  {
    assert Inv(Fresh(own));
    RunKeeps(Fresh(own), steps, s);
    forall n | n in Made(s.log)
      ensures s.cleaned[n] <= 1
      ensures s.cleaned[n] == 0 <==> n in PendingAtEnd(Fresh(own), steps) && !SecondLate(Fresh(own), steps, n)
      ensures own ==> !SecondLate(Fresh(own), steps, n)
    {
      assert Due(s, n) == 1;
      LateInRun(Fresh(own), steps, s, n);
    }
  }

  predicate SomeSecondLate(s: State, steps: seq<Step>)
    decreases |steps|
  {
    steps != [] && ((steps[0].SecondPass? && s.phase == Destroyed) || SomeSecondLate(Next(s, steps[0]), steps[1..]))
  }

  lemma {:induction false} FaultFollows(s: State, steps: seq<Step>, last: State)
    requires Run(s, steps, last)
    ensures last.fault <==> s.fault || SomeSecondLate(s, steps)
    ensures s.ownIsolate ==> !SomeSecondLate(s, steps)
    decreases |steps|
  {
    if steps != [] { FaultFollows(Next(s, steps[0]), steps[1..], last); }
  }

  /** A callback uses a deleted engine if and only if a second pass comes after destroying has ended, and
      that takes an isolate that the engine does not own. */
  lemma FaultIffSecondLate(own: bool, steps: seq<Step>, s: State)
    requires Run(Fresh(own), steps, s)
    ensures s.fault <==> SomeSecondLate(Fresh(own), steps)
    ensures own ==> !s.fault
  {
    FaultFollows(Fresh(own), steps, s);
  }

  /** Whatever happens from here on, no callback uses a deleted engine. */
  ghost predicate SafeForGood(s: State) {
    forall steps, last :: Run(s, steps, last) ==> !last.fault
  }

  /** When destroying has ended without a fault, none can follow if and only if the isolate is the
      engine's own or no object is between the two passes. */
  lemma SafeIffNonePending(s: State)
    requires Inv(s) && s.phase == Destroyed && !s.fault
    ensures SafeForGood(s) <==> s.ownIsolate || s.pending == {}
  {
    if s.ownIsolate || s.pending == {} {
      forall steps, last | Run(s, steps, last)
        ensures !last.fault
      {
        if steps != [] { NothingCanHappen(s, steps[0]); }
      }
    } else {
      var n :| n in s.pending;
      Cons(SecondPass(n), s, [], Next(s, SecondPass(n)));
      assert Next(s, SecondPass(n)).fault;
    }
  }

  lemma NothingCanHappen(s: State, t: Step)
    requires Inv(s) && s.phase == Destroyed && (s.ownIsolate || s.pending == {})
    ensures !Can(s, t)
  {
  }

  /** An object can be left: collected, and the engine destroyed between the two passes.  If the isolate
      is not the engine's own, the second pass can still come. */
  lemma LeftBetweenPasses(own: bool, n: Native, size: int) returns (steps: seq<Step>, s: State)
    ensures Run(Fresh(own), steps, s) && s.phase == Destroyed && !s.fault
    ensures n in Made(s.log) && s.cleaned[n] == 0 && n in s.pending
    ensures !own ==> Can(s, SecondPass(n)) && Next(s, SecondPass(n)).fault
  {
    var s1 := Next(Fresh(own), Construct(n, size));
    assert s1.log == [(n, size)];
    var s2 := Next(s1, FirstPass(n));
    var s3 := Next(s2, StartDestroy);
    s := Next(s3, FinishDestroy);
    assert s3.managed == {};
    assert s.log[0] == (n, size);
    Cons(FinishDestroy, s3, [], s);
    Cons(StartDestroy, s2, [FinishDestroy] + [], s);
    steps := [StartDestroy] + ([FinishDestroy] + []);
    Cons(FirstPass(n), s1, steps, s);
    Cons(Construct(n, size), Fresh(own), [FirstPass(n)] + steps, s);
    steps := [Construct(n, size)] + ([FirstPass(n)] + steps);
  }

  lemma Cons(t: Step, s: State, steps: seq<Step>, last: State)
    requires Can(s, t) && Run(Next(s, t), steps, last)
    ensures Run(s, [t] + steps, last)
  {
    assert ([t] + steps)[1..] == steps;
  }

  /** Every uncleaned object outside the two passes is reached: destroying can always finish. */
  lemma {:induction false} DestroyFinishes(s: State) returns (steps: seq<Step>, last: State)
    requires Inv(s) && s.phase == Destroying
    ensures Run(s, steps, last) && last.phase == Destroyed
    ensures last.pending == s.pending && last.log == s.log
    decreases s.managed - s.visited
  {
    if s.managed <= s.visited {
      last := Next(s, FinishDestroy);
      Cons(FinishDestroy, s, [], last);
      steps := [FinishDestroy];
    } else {
      var n :| n in s.managed && n !in s.visited;
      var after := Next(s, DestroyNext(n));
      StepKeeps(s, DestroyNext(n));
      assert n !in after.managed - after.visited;
      var rest;
      rest, last := DestroyFinishes(after);
      Cons(DestroyNext(n), s, rest, last);
      steps := [DestroyNext(n)] + rest;
    }
  }
}
