/**
 The message queue that ticks and finalizers go through: messages wait in order of their due time and
 then of their priority, first come first served among equals, and each one is cleaned up once.
 */
module MessageQueue {
  import opened Options

  /** `arrival` numbers the messages in the order in which they were posted; `messageId` is the 32-bit id
      that the poster gets. */
  datatype Message = Message(arrival: nat, messageId: int, dueTime: int, priority: int, tag: nat)

  predicate In32(c: int) {
    -0x8000_0000 <= c <= 0x7FFF_FFFF
  }

  /** `++` on a 32-bit counter. */
  function Increment32(c: int): int {
    if c == 0x7FFF_FFFF then -0x8000_0000 else c + 1
  }

  /** It stays in 32 bits and goes up by one, modulo 2^32. */
  lemma Increments(c: int)
    requires In32(c)
    ensures In32(Increment32(c)) && (Increment32(c) - c - 1) % 0x1_0000_0000 == 0
  {
  }

  /** The id given at a counter, which skips 0, and the counter behind it. */
  function TakeId(counter: int): (r: (int, int))
    ensures r.0 != 0
  {
    if counter == 0 then (1, 2) else (counter, Increment32(counter))
  }

  /** The id that the n-th message gets; the counter starts at 1. */
  function Counter(n: nat): int {
    if n == 0 then 1 else TakeId(Counter(n - 1)).1
  }

  function NthId(n: nat): int {
    TakeId(Counter(n)).0
  }

  const IDS: nat := 0xFFFF_FFFF

  /** The number of an id, or of a counter, in 32 bits without sign. */
  function Unsigned(id: int): nat {
    id % 0x1_0000_0000
  }

  /** The counter behind an id, and the id at a counter. */
  lemma Taken(c: int)
    requires In32(c)
    ensures In32(TakeId(c).0) && In32(TakeId(c).1)
    ensures Unsigned(TakeId(c).0) == if c == 0 then 1 else Unsigned(c)
    ensures Unsigned(TakeId(c).1) == (Unsigned(TakeId(c).0) + 1) % 0x1_0000_0000
  {
  }

  lemma NextRest(n: nat)
    requires n > 0
    ensures n % IDS == if (n - 1) % IDS == IDS - 1 then 0 else (n - 1) % IDS + 1
  {
  }

  lemma {:induction false} CounterAt(n: nat)
    ensures In32(Counter(n)) && In32(NthId(n)) && Unsigned(NthId(n)) == n % IDS + 1
  {
    if n > 0 {
      CounterAt(n - 1);
      Taken(Counter(n - 1));
      NextRest(n);
      assert Unsigned(Counter(n)) == if n % IDS == 0 then 0 else n % IDS + 1;
    }
    Taken(Counter(n));
  }

  /** Ids are never 0, and two messages get the same one exactly if a multiple of 2^32 - 1 posts lies between
      them. */
  lemma IdsRepeatExactly(m: nat, n: nat)
    ensures NthId(n) != 0
    ensures NthId(m) == NthId(n) <==> m % IDS == n % IDS
  {
    CounterAt(m);
    CounterAt(n);
  }

  /** Due times first, then priorities. */
  predicate NotAfter(a: Message, dueTime: int, priority: int) {
    a.dueTime < dueTime || (a.dueTime == dueTime && a.priority <= priority)
  }

  /** a leaves the queue before b. */
  predicate Earlier(a: Message, b: Message) {
    a.dueTime < b.dueTime
    || (a.dueTime == b.dueTime && (a.priority < b.priority || (a.priority == b.priority && a.arrival < b.arrival)))
  }

  predicate Ordered(queue: seq<Message>) {
    forall i, j | 0 <= i < j < |queue| :: Earlier(queue[i], queue[j])
  }

  /** In such a queue due times ascend; among equal ones the priorities do, lower values first; and messages
      that agree in both stand in the order of their arrival. */
  lemma OrderMeaning(queue: seq<Message>)
    ensures Ordered(queue) <==>
            forall i, j | 0 <= i < j < |queue| ::
              && queue[i].dueTime <= queue[j].dueTime
              && (queue[i].dueTime == queue[j].dueTime ==> queue[i].priority <= queue[j].priority)
              && (queue[i].dueTime == queue[j].dueTime && queue[i].priority == queue[j].priority ==>
                    queue[i].arrival < queue[j].arrival)
  {
  }

  datatype Verdict = DontRemove | Remove | RemoveAndContinue

  /** What a removal keeps and takes: it stops after the first plain Remove. */
  function Split(queue: seq<Message>, pred: Message -> Verdict): (r: (seq<Message>, seq<Message>)) {
    if queue == [] then ([], [])
    else
      match pred(queue[0])
      case Remove => (queue[1..], [queue[0]])
      case RemoveAndContinue =>
        var (kept, taken) := Split(queue[1..], pred);
        (kept, [queue[0]] + taken)
      case DontRemove =>
        var (kept, taken) := Split(queue[1..], pred);
        ([queue[0]] + kept, taken)
  }

  /** A removal loses and invents nothing. */
  lemma {:induction false} SplitConserves(queue: seq<Message>, pred: Message -> Verdict)
    ensures multiset(queue) == multiset(Split(queue, pred).0) + multiset(Split(queue, pred).1)
  {
    if queue != [] {
      SplitConserves(queue[1..], pred);
      assert queue == [queue[0]] + queue[1..];
    }
  }

  /** It keeps the order of what stays. */
  lemma {:induction false} SplitOrdered(queue: seq<Message>, pred: Message -> Verdict)
    requires Ordered(queue)
    ensures Ordered(Split(queue, pred).0) && forall m <- Split(queue, pred).0 :: m in queue
  {
    if queue != [] {
      var rest := queue[1..];
      assert queue == [queue[0]] + rest;
      OrderedRest(queue[0], rest);
      SplitOrdered(rest, pred);
      if pred(queue[0]).DontRemove? { OrderedCons(queue[0], rest, Split(rest, pred).0); }
    }
  }

  /** It takes only what the predicate wants; if that never says Remove, it takes all of that. */
  lemma {:induction false} SplitTakes(queue: seq<Message>, pred: Message -> Verdict)
    ensures forall m <- Split(queue, pred).1 :: m in queue && !pred(m).DontRemove?
    ensures (forall m <- queue :: !pred(m).Remove?) ==> forall m <- Split(queue, pred).0 :: pred(m).DontRemove?
  {
    if queue != [] {
      SplitTakes(queue[1..], pred);
      assert queue[0] in queue && forall m <- queue[1..] :: m in queue;
    }
  }

  lemma OrderedRest(first: Message, rest: seq<Message>)
    requires Ordered([first] + rest)
    ensures Ordered(rest)
  {
    var all := [first] + rest;
    forall i, j | 0 <= i < j < |rest| ensures Earlier(rest[i], rest[j]) {
      assert Earlier(all[i + 1], all[j + 1]);
    }
  }

  lemma OrderedCons(first: Message, rest: seq<Message>, kept: seq<Message>)
    requires Ordered([first] + rest) && Ordered(kept) && forall m <- kept :: m in rest
    ensures Ordered([first] + kept)
  {
    var all := [first] + rest;
    forall j | 0 <= j < |kept| ensures Earlier(first, kept[j]) {
      assert kept[j] in rest;
      var i :| 0 <= i < |rest| && rest[i] == kept[j];
      assert Earlier(all[0], all[i + 1]);
    }
  }

  /** A removal in progress: what stays before position i, and what has been taken. */
  predicate Removing(start: seq<Message>, pred: Message -> Verdict, queue: seq<Message>, i: nat, taken: seq<Message>) {
    && i <= |queue|
    && queue[..i] + Split(queue[i..], pred).0 == Split(start, pred).0
    && taken + Split(queue[i..], pred).1 == Split(start, pred).1
  }

  lemma RemovingStep(start: seq<Message>, pred: Message -> Verdict, queue: seq<Message>, i: nat, taken: seq<Message>)
    requires Removing(start, pred, queue, i, taken) && i < |queue|
    ensures pred(queue[i]).DontRemove? ==> Removing(start, pred, queue, i + 1, taken)
    ensures pred(queue[i]).RemoveAndContinue? ==>
              Removing(start, pred, queue[..i] + queue[i + 1..], i, taken + [queue[i]])
    ensures pred(queue[i]).Remove? ==>
              queue[..i] + queue[i + 1..] == Split(start, pred).0 && taken + [queue[i]] == Split(start, pred).1
  {
    var rest := queue[i + 1..];
    var (kept, more) := Split(rest, pred);
    assert queue[i..][0] == queue[i] && queue[i..][1..] == rest;
    if pred(queue[i]).DontRemove? {
      assert queue[..i] + ([queue[i]] + kept) == queue[..i + 1] + kept;
    } else if pred(queue[i]).RemoveAndContinue? {
      var next := queue[..i] + rest;
      assert next[..i] == queue[..i] && next[i..] == rest;
      assert taken + ([queue[i]] + more) == (taken + [queue[i]]) + more;
    }
  }

  class MessageQueue {
    var queue: seq<Message>
    var running: seq<Message>      // taken out and being handled, by the threads that loop
    var released: seq<Message>     // cleaned up, in this order
    var shutdownNow: bool
    var arrivals: nat
    var messageIdCounter: int
    const maxMessageInQueue: nat

    ghost predicate Valid()
      reads this
    {
      && Ordered(queue)
      && (forall m <- queue :: m.arrival < arrivals)
      && multiset(queue) + multiset(running) + multiset(released) == Posted()
    }

    /** One message for every post so far. */
    ghost var log: seq<Message>

    ghost function Posted(): multiset<Message>
      reads this
    {
      multiset(log)
    }

    constructor (maxMessageInQueue: nat)
      ensures Valid() && queue == running == released == log == [] && !shutdownNow && messageIdCounter == 1
      ensures this.maxMessageInQueue == maxMessageInQueue
    {
      queue, running, released, log := [], [], [], [];
      shutdownNow, arrivals, messageIdCounter := false, 0, 1;
      this.maxMessageInQueue := maxMessageInQueue;
    }

    method NextMessageId() returns (id: int)
      modifies this`messageIdCounter
      ensures (id, messageIdCounter) == TakeId(old(messageIdCounter))
    {
      id := messageIdCounter;
      messageIdCounter := Increment32(messageIdCounter);
      while id == 0
        invariant (id == old(messageIdCounter) && messageIdCounter == Increment32(id))
                  || (old(messageIdCounter) == 0 && id == 1 && messageIdCounter == 2)
        decreases if id == 0 then 1 else 0
      {
        id := messageIdCounter;
        messageIdCounter := Increment32(messageIdCounter);
      }
    }

    /** `findInsertPositionLocked`: backwards over the due times, then forwards over them and over the
        priorities. */
    method FindInsertPosition(dueTime: int, priority: int) returns (pos: nat)
      requires Ordered(queue)
      ensures pos <= |queue|
      ensures forall i | 0 <= i < pos :: NotAfter(queue[i], dueTime, priority)
      ensures forall i | pos <= i < |queue| :: !NotAfter(queue[i], dueTime, priority)
    {
      if queue == [] { return 0; }
      pos := |queue| - 1;
      while pos != 0 && queue[pos].dueTime >= dueTime
        invariant pos < |queue|
        invariant forall i | pos < i < |queue| :: queue[i].dueTime >= dueTime
      {
        pos := pos - 1;
      }
      assert forall i | 0 <= i < pos :: Earlier(queue[i], queue[pos]);
      while pos != |queue| && queue[pos].dueTime < dueTime
        invariant pos <= |queue|
        invariant forall i | 0 <= i < pos :: queue[i].dueTime < dueTime
        decreases |queue| - pos
      {
        pos := pos + 1;
      }
      while pos != |queue| && queue[pos].dueTime == dueTime && queue[pos].priority <= priority
        invariant pos <= |queue|
        invariant forall i | 0 <= i < pos :: NotAfter(queue[i], dueTime, priority)
        invariant forall i | pos <= i < |queue| :: queue[i].dueTime >= dueTime
        decreases |queue| - pos
      {
        pos := pos + 1;
      }
      assert forall i | pos < i < |queue| :: Earlier(queue[pos], queue[i]);
    }

    /** `postMessage`, from where its wait for room ends: the queue has room, or the caller is `nested` in
        a loop of this queue and does not wait.  After a shutdown the message is only cleaned up, and the
        poster gets 0 instead of an id. */
    method PostMessage(dueTime: int, priority: int, tag: nat, ghost nested: bool) returns (id: int)
      requires Valid() && (|queue| < maxMessageInQueue || nested)
      modifies this
      ensures Valid() && running == old(running) && shutdownNow == old(shutdownNow) && arrivals == old(arrivals) + 1
      ensures var m := Message(old(arrivals), TakeId(old(messageIdCounter)).0, dueTime, priority, tag);
              && log == old(log) + [m] && messageIdCounter == TakeId(old(messageIdCounter)).1
              && id == (if shutdownNow then 0 else m.messageId)
              && multiset(queue) == multiset(old(queue)) + (if shutdownNow then multiset{} else multiset{m})
              && released == old(released) + (if shutdownNow then [m] else [])
      ensures id != 0 <==> !shutdownNow
      ensures nested || |queue| <= maxMessageInQueue
    {
      id := NextMessageId();
      var m := Message(arrivals, id, dueTime, priority, tag);
      if shutdownNow {
        released, id := released + [m], 0;
      } else {
        Insert(m);
      }
      arrivals, log := arrivals + 1, log + [m];
      assert multiset(log) == multiset(old(log)) + multiset{m};
    }

    method Insert(m: Message)
      requires Ordered(queue) && forall x <- queue :: x.arrival < m.arrival
      modifies this`queue
      ensures Ordered(queue) && multiset(queue) == multiset(old(queue)) + multiset{m}
      ensures forall x <- queue :: x == m || x in old(queue)
      ensures |queue| == |old(queue)| + 1
    {
      var pos := FindInsertPosition(m.dueTime, m.priority);
      Inserted(queue, pos, m);
      queue := queue[..pos] + [m] + queue[pos..];
    }

    /** `removeMessageIf`. */
    method RemoveMessageIf(pred: Message -> Verdict) returns (removed: bool)
      requires Valid()
      modifies this
      ensures Valid() && running == old(running) && log == old(log)
      ensures queue == Split(old(queue), pred).0 && released == old(released) + Split(old(queue), pred).1
      ensures removed == (Split(old(queue), pred).1 != [])
    {
      SplitConserves(queue, pred);
      SplitOrdered(queue, pred);
      var taken := EraseIf(pred);
      released := released + taken;
      removed := taken != [];
    }

    /** The loop of `removeMessageIf`; the messages taken are cleaned up on the way. */
    method EraseIf(pred: Message -> Verdict) returns (taken: seq<Message>)
      modifies this`queue
      ensures queue == Split(old(queue), pred).0 && taken == Split(old(queue), pred).1
    {
      var i := 0;
      taken := [];
      ghost var start := queue;
      assert queue[..0] == [] && queue[0..] == queue;
      while i < |queue|
        invariant Removing(start, pred, queue, i, taken)
        decreases |queue| - i
      {
        RemovingStep(start, pred, queue, i, taken);
        var m := queue[i];
        if pred(m).DontRemove? {
          i := i + 1;
        } else {
          queue := queue[..i] + queue[i + 1..];
          taken := taken + [m];
          if pred(m).Remove? { return; }
        }
      }
      assert queue[..i] == queue && queue[i..] == [] && Split([], pred) == ([], []);
    }

    /** The looper takes the first message if it is due: no message goes ahead of an earlier one. */
    method TakeDue(now: int) returns (m: Option<Message>)
      requires Valid()
      modifies this
      ensures Valid() && log == old(log) && released == old(released)
      ensures m.None? ==> queue == old(queue) && running == old(running) && forall x <- queue :: x.dueTime > now
      ensures m.Some? ==>
                m.value.dueTime <= now && old(queue) == [m.value] + queue && running == old(running) + [m.value]
      ensures m.Some? ==> forall x <- queue :: Earlier(m.value, x)
    {
      if queue == [] || queue[0].dueTime > now {
        forall x | x in queue ensures x.dueTime > now {
          var i :| 0 <= i < |queue| && queue[i] == x;
          if i > 0 { assert Earlier(queue[0], queue[i]); }
        }
        return None;
      }
      m := Some(queue[0]);
      assert queue == [queue[0]] + queue[1..];
      running, queue := running + [queue[0]], queue[1..];
    }

    /** The end of `processMessage`: the handled message is cleaned up. */
    method Finish(k: nat)
      requires Valid() && k < |running|
      modifies this
      ensures Valid() && queue == old(queue) && log == old(log)
      ensures running == old(running)[..k] + old(running)[k + 1..] && released == old(released) + [old(running)[k]]
    {
      assert running == running[..k] + [running[k]] + running[k + 1..];
      released, running := released + [running[k]], running[..k] + running[k + 1..];
    }

    /** `shutdownNow`. */
    method ShutdownNow()
      requires Valid()
      modifies this
      ensures Valid() && shutdownNow && queue == [] && running == old(running) && log == old(log)
      ensures released == old(released) + old(queue)
    {
      shutdownNow := true;
      released, queue := released + queue, [];
    }
  }

  lemma Inserted(queue: seq<Message>, pos: nat, m: Message)
    requires Ordered(queue) && pos <= |queue| && forall x <- queue :: x.arrival < m.arrival
    requires forall i | 0 <= i < pos :: NotAfter(queue[i], m.dueTime, m.priority)
    requires forall i | pos <= i < |queue| :: !NotAfter(queue[i], m.dueTime, m.priority)
    ensures Ordered(queue[..pos] + [m] + queue[pos..])
    ensures multiset(queue[..pos] + [m] + queue[pos..]) == multiset(queue) + multiset{m}
  {
    assert queue == queue[..pos] + queue[pos..];
    forall i | 0 <= i < pos ensures Earlier(queue[i], m) { assert queue[i] in queue; }
    forall i | pos <= i < |queue| ensures Earlier(m, queue[i]) { assert queue[i] in queue; }
  }
}
