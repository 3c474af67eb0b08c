/**
 Python's `Global` and `Weak`: a counted reference and the engine it belongs to, and the keeper that
 knows every such handle, so that destroying an engine can empty the engine's handles.
 */
module PyHandles {
  import opened Options

  type ObjId = nat
  type EngineId = nat

  const PY_NONE: ObjId := 0

  /** Where a handle object is. */
  datatype Handle = Global(g: nat) | Weak(w: nat)

  /** The fields: `_ref` (null is None), `_engine`, `_isRealWeakRef`. */
  datatype State = State(ref: Option<ObjId>, engine: Option<EngineId>, weak: bool)

  type Handles = map<Handle, State>
  type Keeper = map<Handle, Option<EngineId>>

  // ---- counting ----

  function Owners(handles: Handles, o: ObjId): set<Handle> {
    set h <- handles.Keys | handles[h].ref == Some(o)
  }

  /** What a handle refers to. */
  function Ref(handles: Handles, h: Handle): Option<ObjId> {
    if h in handles then handles[h].ref else None
  }

  function One(ref: Option<ObjId>, o: ObjId): (n: nat) {
    if ref == Some(o) then 1 else 0
  }

  /** References to o that are not a handle's. */
  function Outside(count: map<ObjId, int>, handles: Handles, o: ObjId): int {
    (if o in count then count[o] else 0) - |Owners(handles, o)|
  }

  lemma OwnersSet(handles: Handles, h: Handle, st: State, o: ObjId)
    ensures |Owners(handles[h := st], o)|
            == |Owners(handles, o)| - One(Ref(handles, h), o) + One(st.ref, o)
  {
    var before, after := Owners(handles, o), Owners(handles[h := st], o);
    assert after - {h} == before - {h};
    assert |before - {h}| == |before| - if h in before then 1 else 0;
    assert |after - {h}| == |after| - if h in after then 1 else 0;
  }

  lemma OwnersDrop(handles: Handles, h: Handle, o: ObjId)
    ensures |Owners(handles - {h}, o)| == |Owners(handles, o)| - One(Ref(handles, h), o)
  {
    assert Owners(handles - {h}, o) == Owners(handles, o) - {h};
  }

  // ---- the keeper ----

  /** The engine exists and has not been destroyed. */
  predicate Live(destroyed: set<EngineId>, e: Option<EngineId>) {
    e.Some? && e.value !in destroyed
  }

  /** What the keeper has to know about one handle. */
  predicate Registered(handles: Handles, keeper: Keeper, destroyed: set<EngineId>, h: Handle)
    requires h in handles
  {
    var st := handles[h];
    && (Live(destroyed, st.engine) ==> st.ref.Some? && h in keeper && keeper[h] == st.engine)
    && (st.ref.Some? && st.ref.value != PY_NONE ==>
          h in keeper && keeper[h] == st.engine && (st.engine.Some? ==> Live(destroyed, st.engine)))
  }

  /** Every handle is known as it should be, and an entry for an engine that is still there is a
      handle of that engine. */
  predicate Consistent(handles: Handles, keeper: Keeper, destroyed: set<EngineId>) {
    && (forall h <- handles.Keys :: Registered(handles, keeper, destroyed, h))
    && (forall h <- keeper.Keys :: Live(destroyed, keeper[h]) ==> HasEngine(handles, h, keeper[h]))
  }

  predicate HasEngine(handles: Handles, h: Handle, e: Option<EngineId>) {
    h in handles && handles[h].engine == e
  }

  /** Values that a handle can be given together with an entry under its engine. */
  predicate Sound(destroyed: set<EngineId>, st: State) {
    && (st.ref.None? ==> !Live(destroyed, st.engine))
    && (st.ref.Some? && st.ref.value != PY_NONE && st.engine.Some? ==> Live(destroyed, st.engine))
  }

  lemma UpdateKeeps(handles: Handles, keeper: Keeper, destroyed: set<EngineId>, h: Handle, st: State)
    requires Consistent(handles, keeper, destroyed) && Sound(destroyed, st)
    ensures Consistent(handles[h := st], keeper[h := st.engine], destroyed)
  {
    var after := handles[h := st];
    forall x | x in after
      ensures Registered(after, keeper[h := st.engine], destroyed, x)
    {
      if x != h { assert Registered(handles, keeper, destroyed, x); }
    }
  }

  /** A handle that has a value is sound: its state can be given to another one. */
  lemma HeldSound(handles: Handles, keeper: Keeper, destroyed: set<EngineId>, h: Handle)
    requires Consistent(handles, keeper, destroyed) && h in handles
    ensures Sound(destroyed, handles[h])
  {
    assert Registered(handles, keeper, destroyed, h);
  }

  lemma NoneKeeps(handles: Handles, keeper: Keeper, destroyed: set<EngineId>, h: Handle)
    requires Consistent(handles, keeper, destroyed) && h in handles
    ensures Consistent(handles[h := State(Some(PY_NONE), handles[h].engine, false)], keeper, destroyed)
  {
    var after := handles[h := State(Some(PY_NONE), handles[h].engine, false)];
    forall x | x in after
      ensures Registered(after, keeper, destroyed, x)
    {
      assert Registered(handles, keeper, destroyed, x);
    }
  }

  lemma DropKeeps(handles: Handles, keeper: Keeper, destroyed: set<EngineId>, h: Handle)
    requires Consistent(handles, keeper, destroyed) && h in handles
    ensures Consistent(handles - {h}, keeper - {h}, destroyed)
    ensures handles[h].ref.None? ==> Consistent(handles - {h}, keeper, destroyed)
  {
    forall x | x in handles - {h}
      ensures Registered(handles - {h}, keeper - {h}, destroyed, x)
      ensures Registered(handles - {h}, keeper, destroyed, x)
    {
      assert Registered(handles, keeper, destroyed, x);
    }
    if handles[h].ref.None? {
      assert Registered(handles, keeper, destroyed, h);
    }
  }

  // ---- destroying an engine ----

  /** `dtor(false)`: what an emptied handle looks like; a Weak keeps its engine. */
  function Emptied(h: Handle, st: State): State {
    if st.ref.None? then st
    else if h.Global? then State(None, None, false) else State(None, st.engine, false)
  }

  /** The handles after an engine's destruction: exactly its own handles are emptied. */
  function AfterEngine(handles: Handles, e: EngineId): Handles {
    map h <- handles.Keys :: if handles[h].engine == Some(e) then Emptied(h, handles[h]) else handles[h]
  }

  function WithoutEngine(keeper: Keeper, e: EngineId): Keeper {
    map h <- keeper.Keys | keeper[h] != Some(e) :: keeper[h]
  }

  lemma EngineGone(handles: Handles, keeper: Keeper, destroyed: set<EngineId>, e: EngineId)
    requires Consistent(handles, keeper, destroyed) && e !in destroyed
    ensures Consistent(AfterEngine(handles, e), WithoutEngine(keeper, e), destroyed + {e})
  {
    var after := AfterEngine(handles, e);
    forall h | h in after
      ensures Registered(after, WithoutEngine(keeper, e), destroyed + {e}, h)
    {
      assert Registered(handles, keeper, destroyed, h);
    }
  }

  /** The keeper finds every handle of the engine and nothing else. */
  lemma KeeperComplete(handles: Handles, keeper: Keeper, destroyed: set<EngineId>, e: EngineId)
    requires Consistent(handles, keeper, destroyed) && e !in destroyed
    ensures (set h <- keeper.Keys | keeper[h] == Some(e)) == (set h <- handles.Keys | handles[h].engine == Some(e))
  {
    forall h | h in keeper && keeper[h] == Some(e) ensures h in handles && handles[h].engine == Some(e) {
      assert Live(destroyed, keeper[h]) && HasEngine(handles, h, keeper[h]);
    }
    forall h | h in handles && handles[h].engine == Some(e)
      ensures h in keeper && keeper[h] == Some(e)
    {
      assert Registered(handles, keeper, destroyed, h);
    }
  }

  /** All but `todo` of the engine's handles are emptied. */
  predicate Partly(start: Handles, now: Handles, e: EngineId, todo: set<Handle>) {
    && now.Keys == start.Keys && todo <= start.Keys
    && (forall h <- todo :: now[h] == start[h] && start[h].engine == Some(e))
    && (forall h <- start.Keys :: h !in todo ==> now[h] == AfterEngine(start, e)[h])
  }

  /** Counts with the references in `gone` taken away. */
  function Less(count: map<ObjId, int>, gone: multiset<ObjId>): (less: map<ObjId, int>)
    ensures forall o: ObjId :: Count(less, o) == Count(count, o) - gone[o]
  {
    map o <- count.Keys + (set x <- gone) :: (if o in count then count[o] else 0) - gone[o]
  }

  function Count(count: map<ObjId, int>, o: ObjId): int {
    if o in count then count[o] else 0
  }

  /** Some handle, other than an excepted one, refers to o. */
  predicate HeldByOther(handles: Handles, except: Option<Handle>, o: ObjId) {
    exists g <- handles.Keys :: except != Some(g) && handles[g].ref == Some(o)
  }

  class Interpreter {
    var count: map<ObjId, int>
    var handles: Handles
    var keeper: Keeper
    var destroyed: set<EngineId>
    var referent: map<ObjId, ObjId>      // of a weak reference object; PY_NONE once it has died
    var dead: set<ObjId>
    var lost: multiset<ObjId>            // references that objects had when they died
    var next: ObjId

    /** Any behaviour of CPython: the references that an object has, with those of what dies with it, and
        what may die with it, once its last reference is released. */
    const contents: ObjId -> multiset<ObjId>
    const perish: ObjId -> set<ObjId>

    constructor (contents: ObjId -> multiset<ObjId>, perish: ObjId -> set<ObjId>)
      ensures Valid() && handles == map[] && keeper == map[] && destroyed == {} && dead == {} && next == 1
      ensures count == map[] && referent == map[] && lost == multiset{}
      ensures this.contents == contents && this.perish == perish
    {
      this.contents, this.perish := contents, perish;
      count, handles, keeper, destroyed := map[], map[], map[], {};
      referent, dead, lost, next := map[], {}, multiset{}, PY_NONE + 1;
    }

    ghost predicate Valid()
      reads this
    {
      Consistent(handles, keeper, destroyed) && Sane(None)
    }

    /** The object has been made and has not died. */
    predicate Exists(o: ObjId)
      reads this
    {
      o < next && o !in dead
    }

    /** Handles refer to objects that exist, and so do weak references; one handle may be excepted. */
    ghost predicate Sane(except: Option<Handle>)
      reads this
    {
      && next > PY_NONE && PY_NONE !in dead && (forall o <- dead :: o < next)
      && (forall w <- referent.Keys :: w != PY_NONE && w < next && Exists(referent[w]))
      && (forall h <- handles.Keys :: except != Some(h) ==> Usable(h, handles[h]))
    }

    /** Only a Weak holds a weak reference object. */
    ghost predicate Usable(h: Handle, st: State)
      reads this
    {
      && (st.ref.Some? ==> Exists(st.ref.value))
      && (st.weak ==> h.Weak? && st.ref.Some? && st.ref.value in referent)
    }

    /** The value a handle stands for: null, None or an object. */
    function Peek(st: State): Option<ObjId>
      reads this
    {
      if st.weak && st.ref.Some? && st.ref.value in referent then Some(referent[st.ref.value]) else st.ref
    }

    /** References to o outside the handles, with those that died with the objects that had them. */
    ghost function Account(o: ObjId): int
      reads this
    {
      Outside(count, handles, o) + lost[o]
    }

    /** No references appear or vanish outside the handles, other than by the death of an object. */
    twostate predicate Conserved()
      reads this
    {
      forall o: ObjId :: Account(o) == old(Account(o))
    }

    /** The handle has the only reference to an object. */
    predicate Last(h: Handle)
      reads this
    {
      var r := Ref(handles, h);
      r.Some? && r.value != PY_NONE && Count(count, r.value) == 1
    }

    /** What dies is what nobody refers to once the handle has released its reference; that is nothing
        unless it was the last one to its object.  If it was, and no other handle pretends to have one,
        the object is dead, and all weak references to it refer to None. */
    twostate predicate DiesOnlyWith(h: Handle)
      reads this
    {
      && dead == old(DeadAfter(h))
      && (!old(Last(h)) ==> dead == old(dead) && lost == old(lost))
      && (old(Last(h)) && !old(HeldByOther(handles, Some(h), Ref(handles, h).value)) ==>
            && old(Ref(handles, h).value) in dead
            && forall w <- old(referent).Keys ::
                 old(referent)[w] == old(Ref(handles, h).value) ==> w in referent && referent[w] == PY_NONE)
    }

    /** Weak references to what has died refer to None, the others to what they did. */
    twostate predicate OthersReferToTheSame()
      reads this
    {
      forall w <- old(referent).Keys ::
        w in referent && referent[w] == if old(referent)[w] in dead then PY_NONE else old(referent)[w]
    }

    // ---- references ----

    method NewRef(r: ObjId)
      modifies this`count
      ensures forall o: ObjId :: Account(o) == old(Account(o)) + One(Some(r), o)
      ensures count == old(count)[r := Count(old(count), r) + 1]
    {
      count := count[r := Count(count, r) + 1];
    }

    /** `Py_XDECREF` of what the handle refers to.  With the last reference the object dies, and others
        may die with it: those that nobody refers to any more. */
    method DecRef(h: Handle)
      requires Sane(None)
      modifies this`count, this`dead, this`lost, this`referent
      ensures Sane(Some(h)) && DiesOnlyWith(h) && OthersReferToTheSame() && referent.Keys == old(referent).Keys
      ensures forall o: ObjId :: Account(o) == old(Account(o)) - One(Ref(handles, h), o)
      ensures forall o <- dead - old(dead) :: !HeldByOther(handles, Some(h), o)
      ensures forall o: ObjId | o !in old(dead) ::
                o in dead <==> old(Last(h)) && MayDie(o, Ref(handles, h).value) && Unreferenced(Some(h), o)
    {
      var r := Ref(handles, h);
      if r.Some? {
        count := count[r.value := Count(count, r.value) - 1];
        if count[r.value] == 0 && r.value != PY_NONE { Die(r.value, Some(h)); }
      }
    }

    /** The object is gone: the references it had are dropped, and what has none left dies with it. */
    method Die(r: ObjId, except: Option<Handle>)
      requires Sane(None)
      modifies this`count, this`dead, this`lost, this`referent
      ensures Sane(except) && OthersReferToTheSame() && referent.Keys == old(referent).Keys
      ensures forall o: ObjId :: Account(o) == old(Account(o))
      ensures dead == old(dead) + old(Dying(Less(count, contents(r)), r, except))
      ensures forall o: ObjId | o !in old(dead) :: o in dead <==> MayDie(o, r) && Unreferenced(except, o)
    {
      count, lost := Less(count, contents(r)), lost + contents(r);
      Bury(Dying(count, r, except), except);
    }

    /** The object whose last reference goes, or one that may die with it. */
    predicate MayDie(o: ObjId, r: ObjId)
      reads this
    {
      (o == r || o in perish(r)) && PY_NONE != o < next
    }

    /** No reference is counted any more, and no handle has one. */
    predicate Unreferenced(except: Option<Handle>, o: ObjId)
      reads this
    {
      Count(count, o) <= 0 && !HeldByOther(handles, except, o)
    }

    /** What dies with r at these counts: what has no reference left and no handle but one excepted. */
    function Dying(counts: map<ObjId, int>, r: ObjId, except: Option<Handle>): (dying: set<ObjId>)
      reads this
    {
      set o <- perish(r) + {r} | o != PY_NONE && o < next && Count(counts, o) <= 0 && !HeldByOther(handles, except, o)
    }

    /** What is dead once the handle has released its reference. */
    function DeadAfter(h: Handle): (after: set<ObjId>)
      reads this
      ensures dead <= after
    {
      var r := Ref(handles, h);
      if r.Some? && r.value != PY_NONE && Count(count, r.value) == 1
      then dead + Dying(Less(count[r.value := 0], contents(r.value)), r.value, Some(h))
      else dead
    }

    method Bury(dying: set<ObjId>, ghost except: Option<Handle>)
      requires Sane(None) && PY_NONE !in dying && forall o <- dying :: o < next && !HeldByOther(handles, except, o)
      modifies this`dead, this`referent
      ensures Sane(except) && OthersReferToTheSame() && referent.Keys == old(referent).Keys
      ensures dead == old(dead) + dying
    {
      ghost var before := referent;
      dead := dead + dying;
      referent := map w <- referent.Keys :: if referent[w] in dead then PY_NONE else referent[w];
      forall g | g in handles && except != Some(g)
        ensures Usable(g, handles[g])
      {
        if handles[g].ref.Some? { assert old(Usable(g, handles[g])) && handles[g].ref.value !in dying; }
      }
    }

    /** Overwrites the fields of a handle, whatever they owned. */
    method Overwrite(h: Handle, st: State)
      requires Sane(Some(h)) && Usable(h, st)
      modifies this`handles
      ensures Sane(None) && handles == old(handles)[h := st]
      ensures forall o: ObjId :: Account(o) == old(Account(o)) + One(Ref(old(handles), h), o) - One(st.ref, o)
    {
      forall o: ObjId
        ensures |Owners(handles[h := st], o)| == |Owners(handles, o)| - One(Ref(handles, h), o) + One(st.ref, o)
      {
        OwnersSet(handles, h, st, o);
      }
      handles := handles[h := st];
    }

    /** The fields of a handle that the keeper is told about. */
    method Record(h: Handle, st: State)
      requires Sane(Some(h)) && Usable(h, st) && Consistent(handles[h := st], keeper[h := st.engine], destroyed)
      modifies this`handles, this`keeper
      ensures Valid() && handles == old(handles)[h := st]
      ensures forall o: ObjId :: Account(o) == old(Account(o)) + One(Ref(old(handles), h), o) - One(st.ref, o)
    {
      Overwrite(h, st);
      keeper := keeper[h := st.engine];
    }

    /** `PyWeakref_NewRef`: a new object that refers to `target`, unless its type allows no such thing. */
    method NewWeakRef(target: ObjId, supported: bool, ghost except: Option<Handle>) returns (w: Option<ObjId>)
      requires Sane(except) && Exists(target)
      modifies this`count, this`referent, this`next
      ensures Sane(except) && w.Some? == supported && next >= old(next)
      ensures supported ==>
                w == Some(old(next)) && next == old(next) + 1 && referent == old(referent)[w.value := target]
      ensures !supported ==> referent == old(referent) && next == old(next)
      ensures forall o: ObjId :: Account(o) == old(Account(o)) + One(w, o)
    {
      w := None;
      if supported {
        w := Some(next);
        NewRef(next);
        referent, next := referent[next := target], next + 1;
      }
    }

    // ---- the rest of the program ----

    /** Somebody other than a handle makes an object and keeps a reference to it. */
    method NewObject() returns (o: ObjId)
      requires Valid()
      modifies this`count, this`next
      ensures Valid() && o == old(next) && Exists(o) && next == old(next) + 1
      ensures count == old(count)[o := Count(old(count), o) + 1]
    {
      o := next;
      NewRef(o);
      next := next + 1;
    }

    /** Somebody other than a handle takes a reference, or gives one up; with the last one the object
        dies. */
    method Elsewhere(o: ObjId, take: bool)
      requires Valid() && Exists(o) && (take || Outside(count, handles, o) > 0)
      modifies this`count, this`dead, this`lost, this`referent
      ensures Valid() && handles == old(handles) && OthersReferToTheSame()
      ensures forall x: ObjId :: Account(x) == old(Account(x)) + if x != o then 0 else if take then 1 else -1
      ensures take || Count(old(count), o) > 1 ==> dead == old(dead) && lost == old(lost)
      ensures !take && Count(old(count), o) == 1 && o != PY_NONE && !HeldByOther(handles, None, o) ==> o in dead
    {
      count := count[o := Count(count, o) + if take then 1 else -1];
      if !take && count[o] == 0 && o != PY_NONE { Die(o, None); }
    }

    // ---- Global ----

    /** A Global from an object: None for the default constructor, a Local's or a Weak's object. */
    method GlobalFrom(h: Handle, obj: ObjId, current: Option<EngineId>)
      requires Valid() && h.Global? && h !in handles && Exists(obj)
      requires current.Some? ==> current.value !in destroyed
      modifies this
      ensures Valid() && Conserved() && destroyed == old(destroyed)
      ensures dead == old(dead) && referent == old(referent) && next == old(next)
      ensures handles == old(handles)[h := State(Some(obj), current, false)]
    {
      UpdateKeeps(handles, keeper, destroyed, h, State(Some(obj), current, false));
      NewRef(obj);
      Record(h, State(Some(obj), current, false));
    }

    /** Copy construction or assignment; what the handle had is released first. */
    method GlobalCopy(h: Handle, source: Handle)
      requires Valid() && h.Global? && source.Global? && source in handles && h != source
      requires handles[source].ref.Some?
      modifies this
      ensures Valid() && Conserved() && DiesOnlyWith(h) && OthersReferToTheSame() && destroyed == old(destroyed)
      ensures handles == old(handles)[h := old(handles)[source]]
    {
      var st := handles[source];
      HeldSound(handles, keeper, destroyed, source);
      UpdateKeeps(handles, keeper, destroyed, h, st);
      DecRef(h);
      assert Some(h) != Some(source) && Usable(source, handles[source]);
      NewRef(st.ref.value);
      Record(h, st);
    }

    /** Move construction or assignment of a Global or a Weak: the source keeps its engine and its entry,
        and is left with None. */
    method Move(h: Handle, source: Handle)
      requires Valid() && h.Global? == source.Global? && source in handles && h != source
      modifies this
      ensures Valid() && Conserved() && DiesOnlyWith(h) && OthersReferToTheSame() && destroyed == old(destroyed)
      ensures handles == old(handles)[h := old(handles)[source]]
                         [source := State(Some(PY_NONE), old(handles)[source].engine, false)]
    {
      var st := handles[source];
      HeldSound(handles, keeper, destroyed, source);
      UpdateKeeps(handles, keeper, destroyed, h, st);
      NoneKeeps(handles[h := st], keeper[h := st.engine], destroyed, source);
      DecRef(h);
      assert Some(h) != Some(source) && Usable(source, handles[source]);
      Record(h, st);
      LeaveNone(source);
    }

    /** The end of a move: the fields are overwritten without releasing what they had. */
    method LeaveNone(h: Handle)
      requires Sane(None) && h in handles
      modifies this`handles, this`count
      ensures Sane(None) && handles == old(handles)[h := State(Some(PY_NONE), old(handles)[h].engine, false)]
      ensures forall o: ObjId :: Account(o) == old(Account(o)) + One(Ref(old(handles), h), o)
    {
      NewRef(PY_NONE);
      Overwrite(h, State(Some(PY_NONE), handles[h].engine, false));
    }

    method Swap(h: Handle, other: Handle)
      requires Valid() && h.Global? == other.Global? && h in handles && other in handles
      modifies this
      ensures Valid() && Conserved() && destroyed == old(destroyed) && count == old(count)
      ensures dead == old(dead) && referent == old(referent)
      ensures handles == old(handles)[h := old(handles)[other]][other := old(handles)[h]]
    {
      var a, b := handles[h], handles[other];
      HeldSound(handles, keeper, destroyed, h);
      HeldSound(handles, keeper, destroyed, other);
      UpdateKeeps(handles, keeper, destroyed, h, b);
      UpdateKeeps(handles[h := b], keeper[h := b.engine], destroyed, other, a);
      Overwrite(h, b);
      Overwrite(other, a);
      keeper := keeper[h := b.engine][other := a.engine];
    }

    /** `reset`. */
    method Reset(h: Handle)
      requires Valid() && h in handles
      modifies this
      ensures Valid() && Conserved() && DiesOnlyWith(h) && OthersReferToTheSame() && destroyed == old(destroyed)
      ensures handles == old(handles)[h := State(Some(PY_NONE), old(handles)[h].engine, false)]
    {
      var st := handles[h];
      NoneKeeps(handles, keeper, destroyed, h);
      DecRef(h);
      NewRef(PY_NONE);
      Overwrite(h, State(Some(PY_NONE), st.engine, false));
    }

    /** The destructor of a handle: an emptied one leaves the keeper alone. */
    method Destroy(h: Handle)
      requires Valid() && h in handles
      modifies this
      ensures Valid() && Conserved() && DiesOnlyWith(h) && OthersReferToTheSame() && destroyed == old(destroyed)
      ensures handles == old(handles) - {h}
    {
      DropKeeps(handles, keeper, destroyed, h);
      if handles[h].ref.Some? {
        keeper := keeper - {h};
        DecRef(h);
      }
      Vanish(h);
    }

    /** The memory of the handle is gone. */
    method Vanish(h: Handle)
      requires h in handles && Sane(Some(h))
      modifies this`handles
      ensures Sane(None) && handles == old(handles) - {h}
      ensures forall o: ObjId :: Account(o) == old(Account(o)) + One(Ref(old(handles), h), o)
    {
      forall o: ObjId ensures |Owners(handles - {h}, o)| == |Owners(handles, o)| - One(Ref(handles, h), o) {
        OwnersDrop(handles, h, o);
      }
      handles := handles - {h};
    }

    // ---- Weak ----

    /** A Weak from an object: of None it is plain, and so it is if there can be no weak reference. */
    method WeakFrom(h: Handle, obj: ObjId, current: Option<EngineId>, supported: bool)
      requires Valid() && h.Weak? && h !in handles && Exists(obj)
      requires current.Some? ==> current.value !in destroyed
      modifies this
      ensures Valid() && Conserved() && destroyed == old(destroyed) && next >= old(next)
      ensures dead == old(dead) && lost == old(lost) && OthersReferToTheSame()
      ensures !supported ==> next == old(next)
      ensures h in handles && handles == old(handles)[h := handles[h]]
      ensures handles[h].ref == Some(if handles[h].weak then old(next) else obj)
      ensures Peek(handles[h]) == Some(obj) && handles[h].engine == current
      ensures handles[h].weak == (supported && obj != PY_NONE)
    {
      var st := WeakState(obj, current, supported, Some(h));
      UpdateKeeps(handles, keeper, destroyed, h, st);
      Record(h, st);
    }

    /** Makes the reference that a Weak to `obj` holds. */
    method WeakState(obj: ObjId, engine: Option<EngineId>, supported: bool, ghost except: Option<Handle>)
      returns (st: State)
      requires Sane(except) && Exists(obj)
      modifies this`count, this`referent, this`next
      ensures Sane(except) && st.engine == engine && st.ref.Some? && Exists(st.ref.value) && Peek(st) == Some(obj)
      ensures st.weak == (supported && obj != PY_NONE) && (st.weak ==> st.ref.value in referent)
      ensures obj == PY_NONE ==> st.ref == Some(PY_NONE)
      ensures st.ref == Some(if st.weak then old(next) else obj) && next >= old(next)
      ensures !supported ==> next == old(next)
      ensures forall o: ObjId :: Account(o) == old(Account(o)) + One(st.ref, o)
      ensures forall w <- old(referent).Keys :: w in referent && referent[w] == old(referent)[w]
    {
      if obj == PY_NONE {
        NewRef(PY_NONE);
        st := State(Some(PY_NONE), engine, false);
      } else {
        var w := NewWeakRef(obj, supported, except);
        if w.None? {
          NewRef(obj);
          st := State(Some(obj), engine, false);
        } else {
          st := State(w, engine, true);
        }
      }
    }

    /** Copy construction or assignment of a Weak.  What the handle had is released first; then it gets a
        new reference to the same target, or None if that is gone, be it only since the release. */
    method WeakCopy(h: Handle, source: Handle, supported: bool)
      requires Valid() && h.Weak? && source.Weak? && source in handles && h != source
      modifies this
      ensures Valid() && Conserved() && DiesOnlyWith(h) && OthersReferToTheSame() && destroyed == old(destroyed)
      ensures h in handles && handles == old(handles)[h := handles[h]]
      ensures handles[h].engine == old(handles)[source].engine
      ensures var target := old(Peek(handles[source]));
              Peek(handles[h])
              == Some(if target.Some? && target.value !in old(DeadAfter(h)) then target.value else PY_NONE)
      ensures var target := old(Peek(handles[source]));
              !old(handles)[source].weak && target.Some? ==> Peek(handles[h]) == target
    {
      var from := handles[source];
      HeldSound(handles, keeper, destroyed, source);
      DecRef(h);
      var origin := Peek(from);
      assert Some(h) != Some(source) && Usable(source, handles[source]);
      var st := WeakState(if origin.Some? then origin.value else PY_NONE, from.engine, supported && from.weak, Some(h));
      UpdateKeeps(handles, keeper, destroyed, h, st);
      Record(h, st);
    }

    // ---- engines ----

    /** The keeper's `dtor`: empties the handles of the engine, and no other, and forgets them. */
    method DestroyEngine(e: EngineId)
      requires Valid() && e !in destroyed
      modifies this
      ensures Valid() && handles == AfterEngine(old(handles), e) && keeper == WithoutEngine(old(keeper), e)
      ensures destroyed == old(destroyed) + {e} && Conserved() && OthersReferToTheSame()
      ensures handles.Keys == old(handles).Keys
      ensures forall h <- handles.Keys ::
                var st := old(handles)[h];
                if st.engine != Some(e) then handles[h] == st
                else handles[h].ref == None && !handles[h].weak
                     && handles[h].engine == if h.Global? then None else Some(e)
    {
      KeeperComplete(handles, keeper, destroyed, e);
      EngineGone(handles, keeper, destroyed, e);
      forall h | h in handles && handles[h].engine == Some(e)
        ensures handles[h].ref.Some?
      {
        assert Registered(handles, keeper, destroyed, h);
      }
      EmptyAll(e);
      keeper := map h <- keeper.Keys | keeper[h] != Some(e) :: keeper[h];
      destroyed := destroyed + {e};
    }

    method EmptyAll(e: EngineId)
      requires (set h <- keeper.Keys | keeper[h] == Some(e)) == set h <- handles.Keys | handles[h].engine == Some(e)
      requires Sane(None)
      modifies this`count, this`handles, this`dead, this`lost, this`referent
      ensures Sane(None) && handles == AfterEngine(old(handles), e) && Conserved() && OthersReferToTheSame()
    {
      ghost var start := handles;
      var todo := set h <- keeper.Keys | keeper[h] == Some(e);
      while todo != {}
        invariant Partly(start, handles, e, todo)
        invariant Sane(None) && Conserved() && OthersReferToTheSame() && old(dead) <= dead
        invariant referent.Keys == old(referent).Keys
      {
        var h :| h in todo;
        EmptyOne(h);
        todo := todo - {h};
      }
    }

    /** `dtor(false)`. */
    method EmptyOne(h: Handle)
      requires h in handles && Sane(None)
      modifies this`count, this`handles, this`dead, this`lost, this`referent
      ensures Sane(None) && handles == old(handles)[h := Emptied(h, old(handles)[h])]
      ensures Conserved() && DiesOnlyWith(h) && OthersReferToTheSame() && referent.Keys == old(referent).Keys
    {
      var st := Emptied(h, handles[h]);
      DecRef(h);
      Overwrite(h, st);
    }
  }

  /** An interpreter in which object 1, a tuple, has the only reference to object 2. */
  method TupleWithOne() returns (p: Interpreter)
    ensures fresh(p) && p.Valid() && p.handles == map[] && p.next == 3 && p.dead == {} && p.lost == multiset{}
    ensures p.contents(1) == multiset{2} && p.perish(1) == {2} && p.Account(1) == 1 && p.Account(2) == 1
  {
    p := new Interpreter(o => if o == 1 then multiset{2} else multiset{}, o => if o == 1 then {2} else {});
    var tuple := p.NewObject();
    var inside := p.NewObject();
  }

  /** With a Weak that is a plain reference to the tuple. */
  method OneWeak() returns (p: Interpreter)
    ensures fresh(p) && p.Valid() && p.dead == {} && p.lost == multiset{} && p.next == 3
    ensures p.handles == map[Weak(0) := State(Some(1), None, false)]
    ensures p.contents(1) == multiset{2} && p.perish(1) == {2}
    ensures p.Account(1) == 1 && p.Account(2) == 1
  {
    p := TupleWithOne();
    p.WeakFrom(Weak(0), 1, None, false);
  }

  /** And with one that refers weakly to what is inside. */
  method TwoWeaks() returns (p: Interpreter)
    ensures fresh(p) && p.Valid() && p.dead == {} && p.lost == multiset{} && 3 in p.referent && p.referent[3] == 2
    ensures p.handles == map[Weak(0) := State(Some(1), None, false), Weak(1) := State(Some(3), None, true)]
    ensures p.contents(1) == multiset{2} && p.perish(1) == {2} && p.next > 3
    ensures p.Account(1) == 1 && p.Account(2) == 1
  {
    p := OneWeak();
    p.WeakFrom(Weak(1), 2, None, true);
  }

  /** Everybody else lets the tuple go. */
  method LastReference() returns (p: Interpreter)
    ensures fresh(p) && p.Valid() && p.dead == {} && 3 in p.referent && p.referent[3] == 2
    ensures p.handles == map[Weak(0) := State(Some(1), None, false), Weak(1) := State(Some(3), None, true)]
    ensures p.contents(1) == multiset{2} && p.perish(1) == {2} && p.next > 3
    ensures Count(p.count, 1) == 1 && Count(p.count, 2) == 1
  {
    p := TwoWeaks();
    assert Owners(p.handles, 1) == {Weak(0)} && Owners(p.handles, 2) == {};
    assert p.Account(1) == 1 && p.Account(2) == 1;
    p.Elsewhere(1, false);
    assert p.Account(1) == 0 && p.Account(2) == 1;
  }

  /** The release before a copy can decide it: the Weak that is assigned to has the last reference to a
      tuple with the source's target in it.  The source referred to the target, and the copy refers to
      None. */
  method TargetDiesInCopy() returns (p: Interpreter, ghost target: Option<ObjId>)
    ensures fresh(p) && p.Valid() && Weak(0) in p.handles
    ensures target == Some(2) && 2 in p.dead && p.Peek(p.handles[Weak(0)]) == Some(PY_NONE)
  {
    p := LastReference();
    target := p.Peek(p.handles[Weak(1)]);
    assert !HeldByOther(p.handles, Some(Weak(0)), 2);
    assert Count(Less(p.count[1 := 0], p.contents(1)), 2) == 0;
    assert 2 in p.DeadAfter(Weak(0));
    p.WeakCopy(Weak(0), Weak(1), true);
  }
}
