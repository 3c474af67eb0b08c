/**
 Native objects behind JavaScriptCore instances.  The finalizer of an instance reads the destroying
 flag and then either posts a message whose cleanup deletes the native object, or deletes it itself;
 destroying the engine sets the flag, removes the engine's messages, and releases the context, which
 finalizes what is left.

 An instance whose constructor failed has no native object, but its finalizer reads one all the same:
 that is undefined behaviour.  So is using an engine that is gone: posting goes through the engine, and
 the destructor of a native object asks its engine whether it is being destroyed.  `fault` records all
 three.
 */
module JscNatives {

  type Native = nat

  datatype Phase = Running | Flagged | Removed | Released

  /** `alive`: not finalized.  `bare`: not finalized and without a native object.  `posting`: the
      finalizer has read the flag as unset and has not posted yet.  `posted`: in the message queue. */
  datatype State = State(made: set<Native>, alive: set<Native>, posting: set<Native>, posted: set<Native>,
                         deleted: multiset<Native>, bare: set<Native>, fault: bool, phase: Phase)

  datatype Step =
    | Construct(n: Native)
    | ConstructFailed(n: Native)
    | FinalizeBare(n: Native)
    | Finalize(n: Native)
    | Post(n: Native)
    | Handle(n: Native)
    | SetDestroying
    | RemoveMessages
    | ReleaseContext

  predicate Can(s: State, t: Step) {
    match t
    case Construct(n) => s.phase == Running && n !in s.made
    case ConstructFailed(n) => s.phase == Running && n !in s.bare
    case FinalizeBare(n) => s.phase != Released && n in s.bare
    case Finalize(n) => s.phase != Released && n in s.alive
    case Post(n) => n in s.posting
    case Handle(n) => n in s.posted
    case SetDestroying => s.phase == Running
    case RemoveMessages => s.phase == Flagged
    case ReleaseContext => s.phase == Removed
  }

  function Next(s: State, t: Step): State {
    match t
    case Construct(n) => s.(made := s.made + {n}, alive := s.alive + {n})
    case ConstructFailed(n) => s.(bare := s.bare + {n})
    case FinalizeBare(n) => s.(bare := s.bare - {n}, fault := true)
    case Finalize(n) =>
      if s.phase == Running then s.(alive := s.alive - {n}, posting := s.posting + {n})
      else s.(alive := s.alive - {n}, deleted := s.deleted + multiset{n})
    case Post(n) =>
      // posting goes through the engine, which is deleted with the context
      s.(posting := s.posting - {n}, posted := s.posted + {n}, fault := s.fault || s.phase == Released)
    case Handle(n) =>
      // the destructor resets its weak reference, which asks the engine
      s.(posted := s.posted - {n}, deleted := s.deleted + multiset{n}, fault := s.fault || s.phase == Released)
    case SetDestroying => s.(phase := Flagged)
    case RemoveMessages => s.(posted := {}, deleted := s.deleted + multiset(s.posted), phase := Removed)
    case ReleaseContext =>
      s.(alive := {}, deleted := s.deleted + multiset(s.alive),
         bare := {}, fault := s.fault || s.bare != {}, phase := Released)
  }

  const START: State := State({}, {}, {}, {}, multiset{}, {}, false, Running)

  ghost predicate Run(s: State, steps: seq<Step>, last: State)
    decreases |steps|
  {
    if steps == [] then s == last else Can(s, steps[0]) && Run(Next(s, steps[0]), steps[1..], last)
  }

  function In(ns: set<Native>, n: Native): (k: nat) {
    if n in ns then 1 else 0
  }

  /** How many deletions of n there have been or are still to come. */
  function Due(s: State, n: Native): nat {
    s.deleted[n] + In(s.alive, n) + In(s.posting, n) + In(s.posted, n)
  }

  ghost predicate Inv(s: State) {
    && (forall n: Native :: Due(s, n) == In(s.made, n))
    && (s.phase == Released ==> s.alive == {} && s.bare == {})
  }

  lemma StepKeeps(s: State, t: Step)
    requires Inv(s) && Can(s, t)
    ensures Inv(Next(s, t))
  {
    forall n: Native
      ensures Due(Next(s, t), n) == In(Next(s, t).made, n)
    {
      assert Due(s, n) == In(s.made, n);
    }
  }

  lemma {:induction false} RunKeeps(s: State, steps: seq<Step>, last: State)
    requires Inv(s) && Run(s, steps, last)
    ensures Inv(last)
    decreases |steps|
  {
    if steps != [] {
      StepKeeps(s, steps[0]);
      RunKeeps(Next(s, steps[0]), steps[1..], last);
    }
  }

  /** Whether its finalizer posts or deletes, and whenever messages are handled or removed, no native
      object is deleted twice, and each one that is not deleted is waiting somewhere. */
  lemma DeletedAtMostOnce(steps: seq<Step>, s: State)
    requires Run(START, steps, s)
    ensures forall n: Native :: s.deleted[n] <= 1
    ensures forall n <- s.made :: s.deleted[n] == 0 <==> n in s.alive || n in s.posting || n in s.posted
  {
    assert Inv(START);
    RunKeeps(START, steps, s);
    forall n: Native
      ensures s.deleted[n] <= 1
      ensures n in s.made ==> (s.deleted[n] == 0 <==> n in s.alive || n in s.posting || n in s.posted)
    {
      assert Due(s, n) == In(s.made, n);
    }
  }

  /** The native objects whose finalizers are between reading the flag and posting when the messages are
      removed. */
  function LateIn(s: State, steps: seq<Step>): set<Native>
    decreases |steps|
  {
    if steps == [] then {}
    else if steps[0].RemoveMessages? then s.posting
    else LateIn(Next(s, steps[0]), steps[1..])
  }

  /** The message of n is handled after the removal. */
  predicate HandledLate(s: State, steps: seq<Step>, n: Native)
    decreases |steps|
  {
    steps != [] && (|| (steps[0] == Handle(n) && (s.phase == Removed || s.phase == Released))
                    || HandledLate(Next(s, steps[0]), steps[1..], n))
  }

  lemma {:induction false} LateAfterRemoval(s: State, steps: seq<Step>, last: State, n: Native)
    requires Inv(s) && Run(s, steps, last) && (s.phase == Removed || s.phase == Released)
    ensures LateIn(s, steps) == {} && (last.phase == Removed || last.phase == Released)
    ensures n in last.posting || n in last.posted <==> (n in s.posting || n in s.posted) && !HandledLate(s, steps, n)
    decreases |steps|
  {
    if steps != [] {
      assert Due(s, n) == In(s.made, n);
      StepKeeps(s, steps[0]);
      LateAfterRemoval(Next(s, steps[0]), steps[1..], last, n);
    }
  }

  lemma {:induction false} LateInRun(s: State, steps: seq<Step>, last: State, n: Native)
    requires Inv(s) && Run(s, steps, last) && (s.phase == Running || s.phase == Flagged)
    requires last.phase == Removed || last.phase == Released
    ensures n in last.posting || n in last.posted <==> n in LateIn(s, steps) && !HandledLate(s, steps, n)
    decreases |steps|
  {
    StepKeeps(s, steps[0]);
    if steps[0].RemoveMessages? {
      LateAfterRemoval(Next(s, steps[0]), steps[1..], last, n);
    } else {
      LateInRun(Next(s, steps[0]), steps[1..], last, n);
    }
  }

  /** Once the context is released every native object has been deleted exactly once, except those
      whose finalizer was between reading the flag and posting when the messages were removed and whose
      message has not been handled since. */
  lemma DeletedExactlyOnce(steps: seq<Step>, s: State)
    requires Run(START, steps, s) && s.phase == Released
    ensures forall n <- s.made :: s.deleted[n] == 0 <==> n in LateIn(START, steps) && !HandledLate(START, steps, n)
    ensures forall n <- s.made :: s.deleted[n] <= 1
  {
    assert Inv(START);
    RunKeeps(START, steps, s);
    forall n | n in s.made
      ensures s.deleted[n] <= 1 && (s.deleted[n] == 0 <==> n in LateIn(START, steps) && !HandledLate(START, steps, n))
    {
      assert Due(s, n) == 1;
      LateInRun(START, steps, s, n);
    }
  }

  lemma Cons(t: Step, s: State, steps: seq<Step>, last: State)
    requires Can(s, t) && Run(Next(s, t), steps, last)
    ensures Run(s, [t] + steps, last)
  {
    assert ([t] + steps)[1..] == steps;
  }

  /** An object can be left: its finalizer reads the flag, the messages are removed, and only then is
      its own message posted.  When that is handled, the object is deleted through a deleted engine. */
  lemma LeftBehindRemoval(n: Native) returns (steps: seq<Step>, s: State)
    ensures Run(START, steps, s) && s.phase == Released && !s.fault
    ensures n in s.made && s.deleted[n] == 0 && n in s.posted
    ensures Can(s, Handle(n)) && Next(s, Handle(n)).fault
  {
    var s1 := Next(START, Construct(n));
    var s2 := Next(s1, Finalize(n));
    var s3 := Next(s2, SetDestroying);
    var s4 := Next(s3, RemoveMessages);
    var s5 := Next(s4, Post(n));
    s := Next(s5, ReleaseContext);
    Cons(ReleaseContext, s5, [], s);
    Cons(Post(n), s4, [ReleaseContext] + [], s);
    steps := [RemoveMessages] + ([Post(n)] + ([ReleaseContext] + []));
    Cons(RemoveMessages, s3, [Post(n)] + ([ReleaseContext] + []), s);
    Cons(SetDestroying, s2, steps, s);
    Cons(Finalize(n), s1, [SetDestroying] + steps, s);
    Cons(Construct(n), START, [Finalize(n)] + ([SetDestroying] + steps), s);
    steps := [Construct(n)] + ([Finalize(n)] + ([SetDestroying] + steps));
  }

  /** Some constructor failed. */
  predicate SomeFailed(steps: seq<Step>) {
    steps != [] && (steps[0].ConstructFailed? || SomeFailed(steps[1..]))
  }

  /** A finalizer posts its message after the context is released. */
  predicate SomePostedLate(s: State, steps: seq<Step>)
    decreases |steps|
  {
    steps != [] && ((steps[0].Post? && s.phase == Released) || SomePostedLate(Next(s, steps[0]), steps[1..]))
  }

  /** A message is handled after the context is released. */
  predicate SomeHandledLate(s: State, steps: seq<Step>)
    decreases |steps|
  {
    steps != [] && ((steps[0].Handle? && s.phase == Released) || SomeHandledLate(Next(s, steps[0]), steps[1..]))
  }

  lemma {:induction false} FaultFollows(s: State, steps: seq<Step>, last: State)
    requires Run(s, steps, last)
    ensures last.fault || last.bare != {} <==>
            s.fault || s.bare != {} || SomeFailed(steps) || SomePostedLate(s, steps) || SomeHandledLate(s, steps)
    decreases |steps|
  {
    if steps != [] {
      var t := steps[0];
      if t.ConstructFailed? { assert t.n in Next(s, t).bare; }
      FaultFollows(Next(s, t), steps[1..], last);
    }
  }

  /** How many constructors of n have failed, and how many of those instances have been finalized. */
  function Failures(steps: seq<Step>, n: Native): nat {
    if steps == [] then 0 else (if steps[0] == ConstructFailed(n) then 1 else 0) + Failures(steps[1..], n)
  }

  function BareFinalized(steps: seq<Step>, n: Native): nat {
    if steps == [] then 0 else (if steps[0] == FinalizeBare(n) then 1 else 0) + BareFinalized(steps[1..], n)
  }

  predicate SomeBareFinalized(steps: seq<Step>) {
    exists t <- steps :: t.FinalizeBare?
  }

  /** Before the context is released, each instance whose constructor failed can be finalized, once, and
      that alone is undefined behaviour. */
  lemma {:induction false} FaultBeforeRelease(s: State, steps: seq<Step>, last: State)
    requires Run(s, steps, last) && last.phase != Released
    ensures s.phase != Released && (last.fault <==> s.fault || SomeBareFinalized(steps))
    ensures forall n: Native :: In(s.bare, n) + Failures(steps, n) == In(last.bare, n) + BareFinalized(steps, n)
    ensures forall n <- last.bare :: Can(last, FinalizeBare(n))
    decreases |steps|
  {
    if steps != [] {
      FaultBeforeRelease(Next(s, steps[0]), steps[1..], last);
      assert forall t :: t in steps <==> t == steps[0] || t in steps[1..];
    }
  }

  /** Undefined behaviour, exactly: once the engine is gone there has been some if and only if the
      constructor of some instance failed, or a finalizer posted or a message was handled after the
      context was released. */
  lemma FaultIffFailed(steps: seq<Step>, s: State)
    requires Run(START, steps, s) && s.phase == Released
    ensures s.fault <==> SomeFailed(steps) || SomePostedLate(START, steps) || SomeHandledLate(START, steps)
  {
    assert Inv(START);
    RunKeeps(START, steps, s);
    FaultFollows(START, steps, s);
  }

  /** Whatever happens from here on, there is no undefined behaviour. */
  ghost predicate SafeForGood(s: State) {
    forall steps, last :: Run(s, steps, last) ==> !last.fault
  }

  /** When the context has been released without a fault, none can follow if and only if no message is
      waiting or about to be posted. */
  lemma SafeIffNothingWaits(s: State)
    requires Inv(s) && s.phase == Released && !s.fault
    ensures SafeForGood(s) <==> s.posting == {} && s.posted == {}
  {
    if s.posting == {} && s.posted == {} {
      forall steps, last | Run(s, steps, last)
        ensures !last.fault
      {
        if steps != [] { NothingCanHappen(s, steps[0]); }
      }
    } else {
      var t: Step;
      if s.posted != {} {
        var n :| n in s.posted;
        t := Handle(n);
      } else {
        var n :| n in s.posting;
        t := Post(n);
      }
      Cons(t, s, [], Next(s, t));
      assert Next(s, t).fault;
    }
  }

  lemma NothingCanHappen(s: State, t: Step)
    requires Inv(s) && s.phase == Released && s.posting == {} && s.posted == {}
    ensures !Can(s, t)
  {
  }

  /** One failed constructor and the destruction of the engine are enough. */
  lemma FaultPossible(n: Native) returns (steps: seq<Step>, s: State)
    ensures Run(START, steps, s) && s.phase == Released && s.fault
  {
    var s1 := Next(START, ConstructFailed(n));
    assert n in s1.bare;
    var s2 := Next(s1, SetDestroying);
    var s3 := Next(s2, RemoveMessages);
    s := Next(s3, ReleaseContext);
    Cons(ReleaseContext, s3, [], s);
    Cons(RemoveMessages, s2, [ReleaseContext] + [], s);
    Cons(SetDestroying, s1, [RemoveMessages] + ([ReleaseContext] + []), s);
    steps := [SetDestroying] + ([RemoveMessages] + ([ReleaseContext] + []));
    Cons(ConstructFailed(n), START, steps, s);
    steps := [ConstructFailed(n)] + steps;
  }
}
