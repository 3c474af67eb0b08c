/**
 Reference counts behind QuickJS handles.  A slot is a variable that owns one reference to the object
 in it: the field of a `Local`, the field of a `Global` or `Weak`, or a property of a script object.
 The count of an object has to be the number of slots with it, and an object goes away, with its
 properties, when that number becomes zero.
 */
module QjsHandles {
  import opened Options

  type ObjId = nat

  datatype Slot =
    | Local(l: nat)
    | Global(g: nat)
    | Property(owner: ObjId, name: string)

  type Slots = map<Slot, Option<ObjId>>     // None: undefined, or a value that is not counted

  /** The slots that hold o. */
  function Holders(slots: Slots, o: ObjId): set<Slot> {
    set s <- slots.Keys | slots[s] == Some(o)
  }

  function Holds(slots: Slots, s: Slot, o: ObjId): (n: nat) {
    if s in slots && slots[s] == Some(o) then 1 else 0
  }

  lemma HoldersSet(slots: Slots, s: Slot, v: Option<ObjId>, o: ObjId)
    ensures |Holders(slots[s := v], o)| == |Holders(slots, o)| - Holds(slots, s, o) + if v == Some(o) then 1 else 0
  {
    var before, after := Holders(slots, o), Holders(slots[s := v], o);
    assert after - {s} == before - {s};
    assert |before - {s}| == |before| - if s in before then 1 else 0;
    assert |after - {s}| == |after| - if s in after then 1 else 0;
  }

  lemma HoldersDrop(slots: Slots, s: Slot, o: ObjId)
    ensures |Holders(slots - {s}, o)| == |Holders(slots, o)| - Holds(slots, s, o)
  {
    var before, after := Holders(slots, o), Holders(slots - {s}, o);
    assert after == before - {s};
  }

  /** Every object in a slot is alive, and is counted once for every slot it is in. */
  predicate Balanced(count: map<ObjId, nat>, slots: Slots) {
    && (forall s <- slots.Keys :: slots[s].Some? ==> slots[s].value in count)
    && (forall o <- count.Keys :: count[o] == |Holders(slots, o)| && count[o] > 0)
  }

  /** A property of an object that is no longer alive. */
  predicate Orphan(alive: set<ObjId>, s: Slot) {
    s.Property? && s.owner !in alive
  }

  /** The slots that are left when only these objects are alive. */
  function Kept(slots: Slots, alive: set<ObjId>): Slots {
    map s <- slots.Keys | !Orphan(alive, s) :: slots[s]
  }

  /** A set of objects that a slot outside or a property inside the set refers to, each of them. */
  ghost predicate Supported(slots: Slots, objects: set<ObjId>) {
    forall o <- objects :: exists s <- slots.Keys :: slots[s] == Some(o) && !Orphan(objects, s)
  }

  /** Letting references go frees exactly what has to be freed: the surviving objects are supported,
      and any supported set of objects survives. */
  ghost predicate Settled(slots: Slots, was: set<ObjId>, alive: set<ObjId>) {
    && alive <= was && Supported(slots, alive)
    && (forall objects: set<ObjId> :: objects <= was && Supported(slots, objects) ==> objects <= alive)
  }

  /** Counts with one reference less to o; without references o is gone. */
  function Less(count: map<ObjId, nat>, o: ObjId): map<ObjId, nat>
    requires o in count && count[o] > 0
  {
    if count[o] == 1 then count - {o} else count[o := count[o] - 1]
  }

  lemma LessBalanced(count: map<ObjId, nat>, slots: Slots, o: ObjId, after: Slots)
    requires Balanced(count, slots) && o in count
    requires forall p: ObjId :: |Holders(after, p)| == |Holders(slots, p)| - if p == o then 1 else 0
    requires forall s <- after.Keys :: after[s].Some? ==> s in slots && slots[s] == after[s]
    ensures Balanced(Less(count, o), after)
  {
    forall s | s in after && after[s] == Some(o)
      ensures count[o] > 1
    {
      assert s in Holders(after, o);
    }
  }

  class Context {
    var count: map<ObjId, nat>
    var slots: Slots
    var bound: set<nat>        // the Globals that have an engine
    var next: ObjId

    ghost predicate Valid()
      reads this
    {
      && Balanced(count, slots)
      && (forall s <- slots.Keys :: !Orphan(count.Keys, s))
      && (forall s <- slots.Keys :: s.Global? && s.g !in bound ==> slots[s] == None)
      && (forall o <- count.Keys :: o < next)
    }

    constructor ()
      ensures Valid() && slots == map[] && count == map[]
    {
      count, slots, bound, next := map[], map[], {}, 0;
    }

    // ---- what the engine does ----

    /** A new object, owned by one slot. */
    method NewObject(s: Slot)
      requires Valid() && s !in slots && !s.Property? && (s.Global? ==> s.g in bound)
      modifies this
      ensures Valid() && bound == old(bound)
      ensures exists o :: o !in old(count) && slots == old(slots)[s := Some(o)] && count == old(count)[o := 1]
    {
      var o := next;
      forall p: ObjId ensures |Holders(slots[s := Some(o)], p)| == |Holders(slots, p)| + if p == o then 1 else 0 {
        HoldersSet(slots, s, Some(o), p);
      }
      assert Holders(slots, o) == {};
      slots, count, next := slots[s := Some(o)], count[o := 1], next + 1;
    }

    /** `dupValue` into a slot that holds nothing. */
    method Dup(s: Slot, v: Option<ObjId>)
      requires Valid() && (v.Some? ==> v.value in count)
      requires (s in slots ==> slots[s] == None) && !Orphan(count.Keys, s) && (s.Global? && v.Some? ==> s.g in bound)
      modifies this`count, this`slots
      ensures Valid() && slots == old(slots)[s := v] && count.Keys == old(count.Keys)
    {
      forall p: ObjId ensures |Holders(slots[s := v], p)| == |Holders(slots, p)| + if v == Some(p) then 1 else 0 {
        HoldersSet(slots, s, v, p);
      }
      if v.Some? { count := count[v.value := count[v.value] + 1]; }
      slots := slots[s := v];
    }

    /** `freeValue` of a slot, which then holds nothing: objects without references go, and so does what
        only they referred to. */
    method Free(s: Slot)
      requires Valid() && s in slots
      modifies this`count, this`slots
      ensures Valid() && slots == Kept(old(slots)[s := None], count.Keys)
      ensures Settled(old(slots)[s := None], old(count.Keys), count.Keys)
      ensures match old(slots)[s]
              case None => count == old(count) && slots == old(slots)
              case Some(o) =>
                if old(count)[o] > 1 then count == old(count)[o := old(count)[o] - 1] && slots == old(slots)[s := None]
                else o !in count
    {
      ghost var start, counted := slots, count;
      Release(s);
      KeptValid(start, s, count.Keys, bound);
      if start[s].Some? && counted[start[s].value] == 1 {
        LastGoes(counted, start, s, count.Keys);
      } else {
        OthersStay(counted, start, s, count);
      }
    }

    method Release(s: Slot)
      requires Balanced(count, slots) && s in slots && forall x <- slots.Keys :: !Orphan(count.Keys, x)
      modifies this`count, this`slots
      ensures Balanced(count, slots) && count.Keys <= old(count.Keys)
      ensures slots == Kept(old(slots)[s := None], count.Keys)
      ensures Settled(old(slots)[s := None], old(count.Keys), count.Keys)
    {
      ghost var without := slots[s := None];
      ghost var was := count.Keys;
      FirstStep(count, slots, s);
      if slots[s].Some? { count := Less(count, slots[s].value); }
      slots := slots[s := None];
      FreeOrphans(without, was);
    }

    // ---- handles ----

    /** What a run of slot assignments means: as plain variables, and then objects that nothing
        supports are gone together with their properties. */
    twostate predicate Became(meant: Slots)
      reads this
    {
      slots == Kept(meant, count.Keys) && Settled(meant, old(count.Keys), count.Keys)
    }

    /** Copying a Local, casting it or reading a Global: one more owner of the same value. */
    method Copy(s: Slot, from: Slot)
      requires Valid() && from in slots && s !in slots && !s.Property? && (s.Global? ==> s.g in bound)
      modifies this`count, this`slots
      ensures Valid() && slots == old(slots)[s := old(slots)[from]] && count.Keys == old(count.Keys)
    {
      Dup(s, slots[from]);
    }

    /** `asString` and the other casts: a new Local, or an exception. */
    method Cast(l: nat, from: nat, matches: bool) returns (thrown: bool)
      requires Valid() && Local(from) in slots && Local(l) !in slots
      modifies this`count, this`slots
      ensures Valid() && thrown == !matches && count.Keys == old(count.Keys)
      ensures slots == if thrown then old(slots) else old(slots)[Local(l) := old(slots)[Local(from)]]
    {
      thrown := !matches;
      if matches { Copy(Local(l), Local(from)); }
    }

    /** Exchanges two handles: `swap`, and moving into an empty one. */
    method Exchange(a: Slot, b: Slot)
      requires Valid() && a in slots && b in slots && !a.Property? && !b.Property?
      requires (a.Global? && slots[b].Some? ==> a.g in bound) && (b.Global? && slots[a].Some? ==> b.g in bound)
      modifies this`slots
      ensures Valid() && slots == old(slots)[a := old(slots)[b]][b := old(slots)[a]]
    {
      forall p: ObjId
        ensures |Holders(slots[a := slots[b]][b := slots[a]], p)| == |Holders(slots, p)|
      {
        HoldersExchange(slots, a, b, p);
      }
      slots := slots[a := slots[b]][b := slots[a]];
    }

    /** A new empty handle. */
    method Empty(s: Slot)
      requires Valid() && s !in slots && !s.Property?
      modifies this`slots
      ensures Valid() && slots == old(slots)[s := None]
    {
      forall p: ObjId ensures |Holders(slots[s := None], p)| == |Holders(slots, p)| { HoldersMore(slots, s, p); }
      slots := slots[s := None];
    }

    /** A destructor: frees what the handle holds, and the handle is gone. */
    method Destroy(s: Slot)
      requires Valid() && s in slots && !s.Property?
      modifies this`count, this`slots
      ensures Valid() && Became(old(slots) - {s})
    {
      ghost var start, was := slots, count.Keys;
      Free(s);
      Dropped(start, s, was, count.Keys);
      Vanish(s);
    }

    /** The memory of an empty handle is gone. */
    method Vanish(s: Slot)
      requires Valid() && s in slots && slots[s] == None && !s.Property?
      modifies this`slots
      ensures Valid() && slots == old(slots) - {s}
    {
      forall p: ObjId ensures |Holders(slots - {s}, p)| == |Holders(slots, p)| { HoldersDrop(slots, s, p); }
      slots := slots - {s};
    }

    /** Move construction: takes the value over. */
    method Move(s: Slot, from: Slot)
      requires Valid() && s !in slots && from in slots && !s.Property? && !from.Property?
      requires s.Global? && slots[from].Some? ==> s.g in bound
      modifies this`slots
      ensures Valid() && slots == old(slots)[s := old(slots)[from]][from := None]
    {
      Empty(s);
      Exchange(s, from);
    }

    /** `Local(from).swap(*this)`: copy assignment, of a Local to itself as well. */
    method AssignLocal(l: nat, from: nat, temporary: nat)
      requires Valid() && Local(l) in slots && Local(from) in slots && Local(temporary) !in slots
      modifies this`count, this`slots
      ensures Valid() && Became(old(slots)[Local(l) := old(slots)[Local(from)]])
    {
      ghost var start := slots;
      Copy(Local(temporary), Local(from));
      Exchange(Local(temporary), Local(l));
      CopiedThrough(start, Local(l), Local(from), Local(temporary));
      Destroy(Local(temporary));
    }

    /** Move assignment; moving a Local into itself changes nothing. */
    method MoveAssignLocal(l: nat, from: nat, temporary: nat)
      requires Valid() && Local(l) in slots && Local(from) in slots && Local(temporary) !in slots
      modifies this`count, this`slots
      ensures Valid()
      ensures Became(if l == from then old(slots)
                     else old(slots)[Local(l) := old(slots)[Local(from)]][Local(from) := None])
    {
      ghost var start := slots;
      Move(Local(temporary), Local(from));
      Exchange(Local(temporary), Local(l));
      MovedThrough(start, Local(l), Local(from), Local(temporary));
      Destroy(Local(temporary));
    }

    /** `Global(Local)`. */
    method GlobalFromLocal(g: nat, from: nat)
      requires Valid() && Local(from) in slots && Global(g) !in slots
      modifies this
      ensures Valid() && slots == old(slots)[Global(g) := old(slots)[Local(from)]] && count.Keys == old(count.Keys)
      ensures bound == old(bound) + {g}
    {
      bound := bound + {g};
      Copy(Global(g), Local(from));
    }

    /** `GlobalRefState::operator=`: frees its own value first and then takes the other one's.  Assigning
        a Global to itself is left to the check in `Global::operator=`. */
    method AssignGlobal(g: nat, from: nat)
      requires Valid() && Global(g) in slots && Global(from) in slots
      modifies this
      ensures Valid() && Became(old(slots)[Global(g) := old(slots)[Global(from)]])
      ensures bound == if from in old(bound) then old(bound) + {g} else old(bound) - {g}
    {
      if g != from {
        ghost var start, was := slots, count.Keys;
        if g !in bound { assert slots[Global(g) := None] == slots; }
        Free(Global(g));
        FillSettled(start, Global(g), Global(from), was, count.Keys);
        KeptFilled(start, Global(g), start[Global(from)], count.Keys);
        bound := if from in bound then bound + {g} else bound - {g};
        Dup(Global(g), slots[Global(from)]);
      } else {
        Unchanged(count, slots);
      }
    }

    /** Moving one Global into another. */
    method MoveAssignGlobal(g: nat, from: nat)
      requires Valid() && Global(g) in slots && Global(from) in slots
      modifies this
      ensures Valid()
      ensures Became(if g == from then old(slots)
                     else old(slots)[Global(g) := old(slots)[Global(from)]][Global(from) := None])
      ensures g != from ==> bound == (if from in old(bound) then old(bound) + {g} else old(bound) - {g}) - {from}
    {
      if g != from {
        ghost var start, was := slots, count.Keys;
        Free(Global(g));
        MovedSettled(start, Global(g), Global(from), was, count.Keys);
        MovedKept(start, Global(g), Global(from), count.Keys);
        TakeOver(g, from);
      } else {
        Unchanged(count, slots);
      }
    }

    /** Moves the reference and the engine into an empty Global. */
    method TakeOver(g: nat, from: nat)
      requires Valid() && Global(g) in slots && Global(from) in slots && g != from && slots[Global(g)] == None
      modifies this`slots, this`bound
      ensures Valid() && slots == old(slots)[Global(g) := old(slots)[Global(from)]][Global(from) := None]
      ensures bound == (if from in old(bound) then old(bound) + {g} else old(bound) - {g}) - {from}
    {
      var hadEngine := from in bound;
      bound := bound + {g} + {from};
      Exchange(Global(g), Global(from));
      bound := (if hadEngine then bound else bound - {g}) - {from};
    }

    method SwapGlobals(g: nat, other: nat)
      requires Valid() && Global(g) in slots && Global(other) in slots
      modifies this
      ensures Valid()
      ensures slots == old(slots)[Global(g) := old(slots)[Global(other)]][Global(other) := old(slots)[Global(g)]]
      ensures (g in bound <==> other in old(bound)) && (other in bound <==> g in old(bound))
    {
      ghost var before := slots;
      var gBound, otherBound := g in bound, other in bound;
      bound := bound + {g, other};
      Exchange(Global(g), Global(other));
      bound := bound - {g, other} + (if otherBound then {g} else {}) + (if gBound then {other} else {});
    }

    /** `reset`. */
    method ResetGlobal(g: nat)
      requires Valid() && Global(g) in slots
      modifies this
      ensures Valid() && Became(old(slots)[Global(g) := None]) && bound == old(bound) - {g}
    {
      Free(Global(g));
      bound := bound - {g};
    }

    /** `Global::get`: a new Local with the value; an empty Global throws. */
    method GetGlobal(g: nat, l: nat) returns (thrown: bool)
      requires Valid() && Global(g) in slots && Local(l) !in slots
      modifies this`count, this`slots
      ensures Valid() && thrown == (g !in bound) && count.Keys == old(count.Keys)
      ensures slots == if thrown then old(slots) else old(slots)[Local(l) := old(slots)[Global(g)]]
    {
      thrown := g !in bound;
      if !thrown { Copy(Local(l), Global(g)); }
    }

    /** `Object::set`: a property of an object that a Local holds is set to another Local's value. */
    method SetProperty(l: nat, name: string, from: nat)
      requires Valid() && Local(l) in slots && slots[Local(l)].Some? && Local(from) in slots
      modifies this`count, this`slots
      ensures Valid() && Became(old(slots)[Property(old(slots)[Local(l)].value, name) := old(slots)[Local(from)]])
    {
      Assign(Property(slots[Local(l)].value, name), Local(from));
    }

    /** Sets a slot to the value in another one; the engine frees what was there. */
    method Assign(s: Slot, from: Slot)
      requires Valid() && s != from && from in slots && !from.Property? && !Orphan(count.Keys, s)
      requires s.Property? ==> exists l :: Local(l) in slots && slots[Local(l)] == Some(s.owner)
      requires s.Global? && slots[from].Some? ==> s.g in bound
      modifies this`count, this`slots
      ensures Valid() && slots == Kept(old(slots)[s := old(slots)[from]], count.Keys)
      ensures Settled(old(slots)[s := old(slots)[from]], old(count.Keys), count.Keys)
    {
      ghost var start, was := slots, count.Keys;
      var v := slots[from];
      if s in slots {
        ghost var holder := s;
        if s.Property? { ghost var l :| Local(l) in slots && slots[Local(l)] == Some(s.owner); holder := Local(l); }
        Free(s);
        assert holder in slots && (s.Property? ==> slots[holder] == Some(s.owner));
        assert from in slots && slots[from] == v;
      } else {
        assert Kept(start[s := None], count.Keys)[s := v] == start[s := v];
        NothingFreed(count, slots, s);
      }
      FillSettled(start, s, from, was, count.Keys);
      KeptFilled(start, s, v, count.Keys);
      Dup(s, v);
    }

    /** The engine's loop over the properties of dead objects. */
    method FreeOrphans(ghost without: Slots, ghost was: set<ObjId>)
      requires Cascading(count, slots, without, was)
      modifies this`count, this`slots
      ensures Balanced(count, slots) && slots == Kept(without, count.Keys)
      ensures Settled(without, was, count.Keys)
    {
      var orphans := set x <- slots.Keys | Orphan(count.Keys, x);
      while orphans != {}
        invariant Cascading(count, slots, without, was)
        invariant orphans == set x <- slots.Keys | Orphan(count.Keys, x)
        decreases slots.Keys
      {
        var x :| x in orphans;
        OrphanStep(count, slots, x, without, was);
        if slots[x].Some? { count := Less(count, slots[x].value); }
        slots := slots - {x};
        orphans := set y <- slots.Keys | Orphan(count.Keys, y);
      }
      forall x | x in slots ensures !Orphan(count.Keys, x) { assert x !in orphans; }
      KeptSlots(count.Keys, slots, without);
      AliveSupported(count, slots, without);
    }
  }

  // ---- what a release means ----

  /** With its last reference the object is gone; otherwise one count goes down by one, and no other count
      and no other slot changes. */
  predicate LetGo(count: map<ObjId, nat>, slots: Slots, s: Slot, after: map<ObjId, nat>, left: Slots)
    requires s in slots
  {
    match slots[s]
    case None => after == count && left == slots
    case Some(o) =>
      o in count && if count[o] > 1 then after == count[o := count[o] - 1] && left == slots[s := None] else o !in after
  }

  /** The objects alive afterwards are those that a handle holds, or a property of an object alive. */
  lemma Survivors(slots: Slots, was: set<ObjId>, alive: set<ObjId>, o: ObjId)
    requires Settled(slots, was, alive) && o in was
    ensures o in alive <==> exists s <- slots.Keys :: slots[s] == Some(o) && (s.Property? ==> s.owner in alive)
  {
    if o in alive {
      var x :| x in slots && slots[x] == Some(o) && !Orphan(alive, x);
      assert x.Property? ==> x.owner in alive;
    }
    if s :| s in slots.Keys && slots[s] == Some(o) && (s.Property? ==> s.owner in alive) {
      var more := alive + {o};
      forall p | p in more
        ensures exists x <- slots.Keys :: slots[x] == Some(p) && (x.Property? ==> x.owner in more)
      {
        if p != o {
          var x :| x in slots && slots[x] == Some(p) && !Orphan(alive, x);
          assert x.Property? ==> x.owner in more;
        }
      }
      CyclesStay(slots, was, alive, more);
    }
  }

  /** Objects that hold each other stay together, with no handle to any of them: counting frees no cycle. */
  lemma CyclesStay(slots: Slots, was: set<ObjId>, alive: set<ObjId>, objects: set<ObjId>)
    requires Settled(slots, was, alive) && objects <= was
    requires forall o <- objects ::
               exists s <- slots.Keys :: slots[s] == Some(o) && (s.Property? ==> s.owner in objects)
    ensures objects <= alive
  {
    forall o | o in objects
      ensures exists s <- slots.Keys :: slots[s] == Some(o) && !Orphan(objects, s)
    {
      var s :| s in slots && slots[s] == Some(o) && (s.Property? ==> s.owner in objects);
      assert !Orphan(objects, s);
    }
  }

  /** All handles are left, and exactly the properties of objects alive. */
  lemma KeptExactly(slots: Slots, alive: set<ObjId>, s: Slot)
    ensures s in Kept(slots, alive) <==> s in slots && (s.Property? ==> s.owner in alive)
    ensures s in Kept(slots, alive) ==> Kept(slots, alive)[s] == slots[s]
  {
  }

  /** The last reference. */
  lemma LastGoes(count: map<ObjId, nat>, slots: Slots, s: Slot, alive: set<ObjId>)
    requires Balanced(count, slots) && s in slots && slots[s].Some? && count[slots[s].value] == 1
    requires Settled(slots[s := None], count.Keys, alive)
    ensures slots[s].value !in alive
  {
    var o := slots[s].value;
    if o in alive {
      var x :| x in slots[s := None] && slots[s := None][x] == Some(o);
      TwoHolders(slots, s, x, o);
      assert false;
    }
  }

  /** Any other reference. */
  lemma OthersStay(count: map<ObjId, nat>, slots: Slots, s: Slot, after: map<ObjId, nat>)
    requires Balanced(count, slots) && s in slots && forall x <- slots.Keys :: !Orphan(count.Keys, x)
    requires slots[s].Some? ==> count[slots[s].value] > 1
    requires Settled(slots[s := None], count.Keys, after.Keys) && Balanced(after, Kept(slots[s := None], after.Keys))
    ensures LetGo(count, slots, s, after, Kept(slots[s := None], after.Keys))
  {
    var without := slots[s := None];
    AllSupported(count, slots, s);
    assert after.Keys == count.Keys && Kept(without, after.Keys) == without;
    forall p | p in count
      ensures after[p] == count[p] - if slots[s] == Some(p) then 1 else 0
    {
      HoldersSet(slots, s, None, p);
    }
  }

  lemma AllSupported(count: map<ObjId, nat>, slots: Slots, s: Slot)
    requires Balanced(count, slots) && s in slots && forall x <- slots.Keys :: !Orphan(count.Keys, x)
    requires slots[s].Some? ==> count[slots[s].value] > 1
    ensures Supported(slots[s := None], count.Keys)
  {
    var without := slots[s := None];
    forall p | p in count
      ensures exists x <- without.Keys :: without[x] == Some(p) && !Orphan(count.Keys, x)
    {
      var x := AnotherHolder(slots, s, p);
      assert without[x] == Some(p) && !Orphan(count.Keys, x);
    }
  }

  lemma AnotherHolder(slots: Slots, s: Slot, p: ObjId) returns (x: Slot)
    requires s in slots && |Holders(slots, p)| > Holds(slots, s, p)
    ensures x != s && x in slots && slots[x] == Some(p)
  {
    var others := Holders(slots, p) - {s};
    assert |others| == |Holders(slots, p)| - if s in Holders(slots, p) then 1 else 0;
    assert others != {};
    x :| x in others;
  }

  // ---- facts about slots ----

  /** Adding an empty slot frees nothing. */
  lemma NothingFreed(count: map<ObjId, nat>, slots: Slots, s: Slot)
    requires Balanced(count, slots) && s !in slots && forall x <- slots.Keys :: !Orphan(count.Keys, x)
    ensures Settled(slots[s := None], count.Keys, count.Keys)
  {
    assert slots == Kept(slots, count.Keys);
    AliveSupported(count, slots, slots);
    OneSupport(slots, slots[s := None], count.Keys);
  }

  lemma HoldersExchange(slots: Slots, a: Slot, b: Slot, o: ObjId)
    requires a in slots && b in slots
    ensures |Holders(slots[a := slots[b]][b := slots[a]], o)| == |Holders(slots, o)|
  {
    HoldersSet(slots, a, slots[b], o);
    HoldersSet(slots[a := slots[b]], b, slots[a], o);
  }

  lemma HoldersMore(slots: Slots, s: Slot, o: ObjId)
    requires s !in slots
    ensures |Holders(slots[s := None], o)| == |Holders(slots, o)|
  {
    HoldersSet(slots, s, None, o);
  }

  /** A slot that holds nothing supports nothing. */
  lemma EmptySlot(slots: Slots, s: Slot, was: set<ObjId>, alive: set<ObjId>)
    requires s !in slots && Settled(slots[s := None], was, alive)
    ensures Settled(slots, was, alive)
  {
    forall objects: set<ObjId> ensures Supported(slots[s := None], objects) <==> Supported(slots, objects) {
      SameSupport(slots, slots[s := None], objects);
    }
  }

  lemma Dropped(slots: Slots, s: Slot, was: set<ObjId>, alive: set<ObjId>)
    requires s in slots && !s.Property? && Settled(slots[s := None], was, alive)
    ensures Settled(slots - {s}, was, alive)
    ensures s in Kept(slots[s := None], alive) && Kept(slots[s := None], alive)[s] == None
    ensures Kept(slots[s := None], alive) - {s} == Kept(slots - {s}, alive)
  {
    assert (slots - {s})[s := None] == slots[s := None];
    EmptySlot(slots - {s}, s, was, alive);
  }

  lemma SameSupport(a: Slots, b: Slots, objects: set<ObjId>)
    requires forall s <- a.Keys :: a[s].Some? ==> s in b && b[s] == a[s]
    requires forall s <- b.Keys :: b[s].Some? ==> s in a && a[s] == b[s]
    ensures Supported(a, objects) <==> Supported(b, objects)
  {
    OneSupport(a, b, objects);
    OneSupport(b, a, objects);
  }

  lemma OneSupport(a: Slots, b: Slots, objects: set<ObjId>)
    requires forall s <- a.Keys :: a[s].Some? ==> s in b && b[s] == a[s]
    ensures Supported(a, objects) ==> Supported(b, objects)
  {
    if Supported(a, objects) {
      forall o | o in objects
        ensures exists s <- b.Keys :: b[s] == Some(o) && !Orphan(objects, s)
      {
        var s :| s in a && a[s] == Some(o) && !Orphan(objects, s);
        assert b[s] == Some(o);
      }
    }
  }

  /** Emptying a slot and then filling it from another frees what filling it at once would free. */
  lemma FillSettled(slots: Slots, s: Slot, from: Slot, was: set<ObjId>, alive: set<ObjId>)
    requires s != from && from in slots && !from.Property? && Settled(slots[s := None], was, alive)
    ensures Settled(slots[s := slots[from]], was, alive)
  {
    var empty, full := slots[s := None], slots[s := slots[from]];
    forall objects: set<ObjId>
      ensures Supported(full, objects) <==> Supported(empty, objects)
    {
      OneSupport(empty, full, objects);
      if Supported(full, objects) {
        forall o | o in objects
          ensures exists x <- empty.Keys :: empty[x] == Some(o) && !Orphan(objects, x)
        {
          var x :| x in full && full[x] == Some(o) && !Orphan(objects, x);
          var y := if x == s then from else x;
          assert y in empty && empty[y] == Some(o) && !Orphan(objects, y);
        }
      }
    }
  }

  /** The slots that are kept do not depend on the order of filling a slot and freeing. */
  lemma KeptFilled(slots: Slots, s: Slot, v: Option<ObjId>, alive: set<ObjId>)
    requires !Orphan(alive, s)
    ensures Kept(slots[s := None], alive)[s := v] == Kept(slots[s := v], alive)
    ensures Kept(slots, alive)[s := v] == Kept(slots[s := v], alive)
  {
  }

  lemma MovedKept(slots: Slots, s: Slot, from: Slot, alive: set<ObjId>)
    requires s in slots && from in slots && s != from && !s.Property? && !from.Property?
    ensures var empty := Kept(slots[s := None], alive);
            && from in empty && empty[from] == slots[from]
            && empty[s := empty[from]][from := None] == Kept(slots[s := slots[from]][from := None], alive)
  {
  }

  /** Through a temporary: copy there, swap, and drop the temporary. */
  lemma CopiedThrough(slots: Slots, s: Slot, from: Slot, temporary: Slot)
    requires s in slots && from in slots && temporary !in slots
    ensures var copied := slots[temporary := slots[from]];
            copied[temporary := copied[s]][s := copied[temporary]] - {temporary} == slots[s := slots[from]]
  {
  }

  /** Through a temporary: move there, swap, and drop the temporary. */
  lemma MovedThrough(slots: Slots, s: Slot, from: Slot, temporary: Slot)
    requires s in slots && from in slots && temporary !in slots
    ensures var moved := slots[temporary := slots[from]][from := None];
            moved[temporary := moved[s]][s := moved[temporary]] - {temporary}
            == if s == from then slots else slots[s := slots[from]][from := None]
  {
  }

  lemma MovedSettled(slots: Slots, s: Slot, from: Slot, was: set<ObjId>, alive: set<ObjId>)
    requires s != from && s in slots && from in slots && !s.Property? && !from.Property?
    requires Settled(slots[s := None], was, alive)
    ensures Settled(slots[s := slots[from]][from := None], was, alive)
  {
    var empty, full := slots[s := None], slots[s := slots[from]][from := None];
    forall objects: set<ObjId>
      ensures Supported(full, objects) <==> Supported(empty, objects)
    {
      Renamed(full, empty, s, from, objects);
      Renamed(empty, full, from, s, objects);
    }
  }

  lemma Renamed(a: Slots, b: Slots, s: Slot, t: Slot, objects: set<ObjId>)
    requires !t.Property?
    requires forall x <- a.Keys :: a[x].Some? ==> (var y := if x == s then t else x; y in b && b[y] == a[x])
    ensures Supported(a, objects) ==> Supported(b, objects)
  {
    if Supported(a, objects) {
      forall o | o in objects
        ensures exists y <- b.Keys :: b[y] == Some(o) && !Orphan(objects, y)
      {
        var x :| x in a && a[x] == Some(o) && !Orphan(objects, x);
        var y := if x == s then t else x;
        assert y in b && b[y] == Some(o) && !Orphan(objects, y);
      }
    }
  }

  lemma Unchanged(count: map<ObjId, nat>, slots: Slots)
    requires Balanced(count, slots) && forall x <- slots.Keys :: !Orphan(count.Keys, x)
    ensures Settled(slots, count.Keys, count.Keys) && slots == Kept(slots, count.Keys)
  {
    assert slots == Kept(slots, count.Keys);
    AliveSupported(count, slots, slots);
  }

  /** The count of an object is the number of its handles plus the number of properties with it. */
  lemma CountSplits(slots: Slots, o: ObjId)
    ensures |Holders(slots, o)| == |set s <- Holders(slots, o) | s.Local?| + |set s <- Holders(slots, o) | s.Global?|
                                   + |set s <- Holders(slots, o) | s.Property?|
  {
    var all := Holders(slots, o);
    var a, b, c := (set s <- all | s.Local?), (set s <- all | s.Global?), (set s <- all | s.Property?);
    assert all == (a + b) + c;
    assert a !! b && (a + b) !! c;
  }

  /** While references go: the slots left still balance, and nothing is lost that has to stay. */
  ghost predicate Cascading(count: map<ObjId, nat>, slots: Slots, without: Slots, was: set<ObjId>) {
    && Balanced(count, slots) && count.Keys <= was
    && (forall x <- slots.Keys :: x in without && slots[x] == without[x])
    && (forall x <- without.Keys :: !Orphan(count.Keys, x) ==> x in slots)
    && (forall objects: set<ObjId> :: objects <= was && Supported(without, objects) ==> objects <= count.Keys)
  }

  lemma KeptValid(slots: Slots, s: Slot, alive: set<ObjId>, bound: set<nat>)
    requires s in slots && forall x <- slots.Keys :: x.Global? && x.g !in bound ==> slots[x] == None
    ensures var kept := Kept(slots[s := None], alive);
            && (forall x <- kept.Keys :: !Orphan(alive, x))
            && (forall x <- kept.Keys :: x.Global? && x.g !in bound ==> kept[x] == None)
  {
  }

  lemma KeptSlots(alive: set<ObjId>, slots: Slots, without: Slots)
    requires forall x <- slots.Keys :: x in without && slots[x] == without[x] && !Orphan(alive, x)
    requires forall x <- without.Keys :: !Orphan(alive, x) ==> x in slots
    ensures slots == Kept(without, alive)
  {
  }

  lemma FirstStep(count: map<ObjId, nat>, slots: Slots, s: Slot)
    requires Balanced(count, slots) && s in slots && forall x <- slots.Keys :: !Orphan(count.Keys, x)
    ensures Cascading(if slots[s].Some? then Less(count, slots[s].value) else count, slots[s := None], slots[s := None],
                      count.Keys)
  {
    var without := slots[s := None];
    if slots[s].Some? {
      var o := slots[s].value;
      forall p: ObjId ensures |Holders(without, p)| == |Holders(slots, p)| - if p == o then 1 else 0 {
        HoldersSet(slots, s, None, p);
      }
      LessBalanced(count, slots, o, without);
      FirstSurvive(count, slots, s, o);
    } else {
      assert without == slots;
    }
  }

  /** When a slot lets o go, everything supported by the other slots stays alive. */
  lemma FirstSurvive(count: map<ObjId, nat>, slots: Slots, s: Slot, o: ObjId)
    requires Balanced(count, slots) && s in slots && slots[s] == Some(o)
    ensures forall objects: set<ObjId> ::
              objects <= count.Keys && Supported(slots[s := None], objects) ==> objects <= Less(count, o).Keys
  {
    var without := slots[s := None];
    forall objects: set<ObjId> | objects <= count.Keys && Supported(without, objects)
      ensures o in objects ==> count[o] > 1
    {
      if o in objects {
        var x :| x in without && without[x] == Some(o);
        TwoHolders(slots, s, x, o);
      }
    }
  }

  lemma TwoHolders(slots: Slots, s: Slot, x: Slot, o: ObjId)
    requires s in slots && x in slots && s != x && slots[s] == Some(o) == slots[x]
    ensures |Holders(slots, o)| > 1
  {
    assert {s, x} <= Holders(slots, o);
    assert |Holders(slots, o) - {s, x}| == |Holders(slots, o)| - 2;
  }

  /** One step of the cascade. */
  lemma OrphanStep(count: map<ObjId, nat>, slots: Slots, x: Slot, without: Slots, was: set<ObjId>)
    requires Cascading(count, slots, without, was) && x in slots && Orphan(count.Keys, x)
    ensures Cascading(if slots[x].Some? then Less(count, slots[x].value) else count, slots - {x}, without, was)
  {
    forall p: ObjId ensures |Holders(slots - {x}, p)| == |Holders(slots, p)| - if slots[x] == Some(p) then 1 else 0 {
      HoldersDrop(slots, x, p);
    }
    if slots[x].Some? {
      var o := slots[x].value;
      LessBalanced(count, slots, o, slots - {x});
      forall objects: set<ObjId> | objects <= was && Supported(without, objects)
        ensures o in objects ==> count[o] > 1
      {
        if o in objects { OrphanSurvive(count, slots, x, without, objects, o); }
      }
    }
  }

  lemma OrphanSurvive(count: map<ObjId, nat>, slots: Slots, x: Slot, without: Slots, objects: set<ObjId>, o: ObjId)
    requires x in slots && Orphan(count.Keys, x) && slots[x] == Some(o) && o in objects && objects <= count.Keys
    requires Supported(without, objects)
    requires forall y <- without.Keys :: !Orphan(count.Keys, y) ==> y in slots && slots[y] == without[y]
    ensures |Holders(slots, o)| > 1
  {
    var y :| y in without && without[y] == Some(o) && !Orphan(objects, y);
    assert !Orphan(count.Keys, y);
    TwoHolders(slots, x, y, o);
  }

  lemma AliveSupported(count: map<ObjId, nat>, slots: Slots, without: Slots)
    requires Balanced(count, slots) && slots == Kept(without, count.Keys)
    ensures Supported(without, count.Keys)
  {
    forall o | o in count
      ensures exists s <- without.Keys :: without[s] == Some(o) && !Orphan(count.Keys, s)
    {
      assert Holders(slots, o) != {};
      var s :| s in Holders(slots, o);
      assert s in without && without[s] == Some(o) && !Orphan(count.Keys, s);
    }
  }
}
