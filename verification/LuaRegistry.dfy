/**
 The registries behind Lua's `Global` and `Weak`: two tables of values by id, the id counter and the
 two reference counts of each engine, and the handles that own an id.  Everything here is the
 specification; `LuaHandles` has the code that meets it.
 */
module LuaRegistry {
  import opened Options
  import opened LuaVm

  const WORD: nat := 0x1_0000_0000_0000_0000

  datatype Kind = Strong | Weak

  type Entries = seq<(Value, Value)>

  datatype Registry = Registry(strong: Entries, weak: Entries, counter: nat, strongCount: nat, weakCount: nat)
  {
    function Table(k: Kind): Entries { if k == Strong then strong else weak }

    function Count(k: Kind): nat { if k == Strong then strongCount else weakCount }

    function With(k: Kind, entries: Entries, count: nat): Registry {
      if k == Strong then this.(strong := entries, strongCount := count)
      else this.(weak := entries, weakCount := count)
    }
  }

  // ---- ids ----

  /** `globalIdCounter`: the next id skips 0 when the 64-bit counter wraps. */
  function NextId(counter: nat): (id: nat) {
    var c := (counter + 1) % WORD;
    if c == 0 then 1 else c
  }

  /** The id that the n-th reference gets; the counter starts at 1. */
  function NthId(n: nat): (id: nat) {
    if n == 0 then 1 else NextId(NthId(n - 1))
  }

  lemma NextIdLinear(c: nat)
    requires c < WORD
    ensures NextId(c) == if c == WORD - 1 then 1 else c + 1
  {
  }

  lemma {:induction false} NthIdRange(n: nat)
    ensures 1 <= NthId(n) < WORD
  {
    if n > 0 {
      NthIdRange(n - 1);
      NextIdLinear(NthId(n - 1));
    }
  }

  /** No id is 0, and from any point the next 2^64 - 1 references get different ids; the one after
      them gets the first of these ids again. */
  lemma {:induction false} IdsRepeatExactly(n: nat, k: nat)
    requires k < WORD
    ensures 1 <= NthId(n) < WORD
    ensures NthId(n + k) == if NthId(n) + k < WORD then NthId(n) + k else NthId(n) + k - (WORD - 1)
    ensures NthId(n + k) == NthId(n) <==> k == 0 || k == WORD - 1
    decreases k
  {
    NthIdRange(n);
    if k > 0 {
      IdsRepeatExactly(n, k - 1);
      NextIdLinear(NthId(n + k - 1));
    }
  }

  /** `Array::set` and `Array::get` add one to the id, in 64 bits, and Lua takes it as signed. */
  function Key(id: nat): Value {
    var k := (id + 1) % WORD;
    Int(if k < WORD / 2 then k else k - WORD)
  }

  /** The key is one more than the id, modulo 2^64, as a signed 64-bit integer. */
  lemma KeyOf(id: nat, k: int)
    requires id < WORD
    ensures Key(id) == Int(k) <==> -(WORD / 2) <= k < WORD / 2 && (k - id - 1) % WORD == 0
  {
    var m := (id + 1) % WORD;
    var signed := if m < WORD / 2 then m else m - WORD;
    assert -(WORD / 2) <= signed < WORD / 2 && (signed - id - 1) % WORD == 0;
    if k != signed { assert k as real != signed as real; }
  }

  lemma KeysDiffer(a: nat, b: nat)
    requires a < WORD && b < WORD && a != b
    ensures Key(a) != Key(b)
  {
  }

  // ---- one registry ----

  /** `putGlobalOrWeakTable`; a null Local gets id 0 and is not stored. */
  function Put(reg: Registry, k: Kind, local: Option<Value>): (r: (Registry, nat)) {
    match local
    case None => (reg, 0)
    case Some(v) =>
      var id := NextId(reg.counter);
      (reg.(counter := id).With(k, Assign(reg.Table(k), Key(id), v), (reg.Count(k) + 1) % WORD), id)
  }

  /** `removeGlobalOrWeakTable`, in the engine's own scope; the counts have 64 bits. */
  function Remove(reg: Registry, k: Kind, id: nat): Registry {
    reg.With(k, Assign(reg.Table(k), Key(id), Nil), (reg.Count(k) - 1) % WORD)
  }

  /** `getGlobalOrWeakTable`: a null Local for id 0, else whatever the table has. */
  function Get(reg: Registry, k: Kind, id: nat): Option<Value> {
    if id == 0 then None else Some(Lookup(reg.Table(k), Key(id)))
  }

  /** A garbage collection takes entries out of the weak table. */
  ghost predicate Collected(before: Registry, after: Registry) {
    && after == before.(weak := after.weak) && EntriesOk(after.weak)
    && forall key :: Lookup(after.weak, key) == Lookup(before.weak, key) || Lookup(after.weak, key) == Nil
  }

  // ---- handles ----

  type EngineId = nat
  type HandleId = nat

  datatype Handle = Handle(kind: Kind, engine: Option<EngineId>, index: nat)

  /** `held` is what each handle was built from; it is no part of the program's state.  `strays` are the
      values that were left on each engine's own stack. */
  datatype World = World(engines: seq<Registry>, handles: map<HandleId, Handle>, held: map<HandleId, Value>,
                         strays: seq<nat>)

  datatype Op =
    | Create(h: HandleId, kind: Kind)
    | FromLocal(h: HandleId, kind: Kind, current: EngineId, local: Option<Value>)
    | FromHandle(h: HandleId, kind: Kind, source: HandleId, current: EngineId)
    | Move(h: HandleId, source: HandleId)
    | Swap(h: HandleId, other: HandleId)
    | Reset(h: HandleId, current: EngineId)
    | Destroy(h: HandleId)
    | Collect(engine: EngineId, after: Registry)

  /** What a handle reads: `getValue`. */
  function Reads(w: World, h: HandleId): Option<Value>
    requires h in w.handles && (w.handles[h].engine.Some? ==> w.handles[h].engine.value < |w.engines|)
  {
    var x := w.handles[h];
    if x.engine.None? then None else Get(w.engines[x.engine.value], x.kind, x.index)
  }

  /** Copying and resetting a handle with an id need the scope of its engine; `ResetInOwnEngine` says
      what comes of resetting elsewhere. */
  ghost predicate Able(w: World, op: Op) {
    match op
    case Create(h, _) => h !in w.handles
    case FromLocal(h, _, current, _) => h !in w.handles && current < |w.engines|
    case FromHandle(h, _, s, current) =>
      // Copying a Global demands that it is not empty, unless it has no engine.
      h !in w.handles && s in w.handles && InScope(w, s, current)
      && (w.handles[s].engine.Some? && w.handles[s].kind == Strong ==> w.handles[s].index != 0)
    case Move(h, s) => h !in w.handles && s in w.handles
    case Swap(h, o) => h in w.handles && o in w.handles && w.handles[h].kind == w.handles[o].kind
    case Reset(h, current) => h in w.handles && InScope(w, h, current)
    case Destroy(h) => h in w.handles
    case Collect(e, after) => e < |w.engines| && Collected(w.engines[e], after)
  }

  predicate InScope(w: World, h: HandleId, current: EngineId)
    requires h in w.handles
  {
    current < |w.engines| && (w.handles[h].index != 0 ==> w.handles[h].engine == Some(current))
  }

  predicate WellFormed(w: World) {
    && |w.strays| == |w.engines|
    && forall h <- w.handles.Keys ::
         && h in w.held
         && (w.handles[h].engine.Some? ==> w.handles[h].engine.value < |w.engines|)
         && (w.handles[h].index != 0 ==> w.handles[h].engine.Some?)
  }

  /** The handle keeps a new id of engine e, if there is a value. */
  function Keep(w: World, h: HandleId, kind: Kind, e: EngineId, local: Option<Value>): World
    requires e < |w.engines|
  {
    var (reg, id) := Put(w.engines[e], kind, local);
    w.(engines := w.engines[e := reg], handles := w.handles[h := Handle(kind, Some(e), id)],
       held := w.held[h := if local.Some? then local.value else Nil])
  }

  /** The handle lets its id go. */
  function Release(w: World, h: HandleId, from: EngineId): World
    requires h in w.handles && from < |w.engines|
  {
    var x := w.handles[h];
    if x.index == 0 then w
    else w.(engines := w.engines[from := Remove(w.engines[from], x.kind, x.index)],
            handles := w.handles[h := Handle(x.kind, None, 0)])
  }

  /** A handle comes that owns no id. */
  function Added(w: World, h: HandleId, x: Handle): World {
    w.(handles := w.handles[h := x], held := w.held[h := Nil])
  }

  function Drop(w: World, h: HandleId): World {
    w.(handles := w.handles - {h}, held := w.held - {h})
  }

  ghost function Do(w: World, op: Op): World
    requires WellFormed(w) && Able(w, op)
  {
    match op
    case Create(h, kind) => Added(w, h, Handle(kind, None, 0))
    case FromLocal(h, kind, current, local) => Keep(w, h, kind, current, local)
    case FromHandle(h, kind, s, _) =>
      var x := w.handles[s];
      if x.engine.None? then Added(w, h, Handle(kind, None, 0)) else Keep(w, h, kind, x.engine.value, Reads(w, s))
    case Move(h, s) =>
      var x := w.handles[s];
      w.(handles := w.handles[h := x][s := Handle(x.kind, None, 0)], held := w.held[h := w.held[s]])
    case Swap(h, o) =>
      w.(handles := w.handles[h := w.handles[o]][o := w.handles[h]], held := w.held[h := w.held[o]][o := w.held[h]])
    case Reset(h, current) => Release(w, h, current)
    case Destroy(h) =>
      // The destructor enters the handle's engine first.
      var x := w.handles[h];
      Drop(if x.index != 0 then Release(w, h, x.engine.value) else w, h)
    case Collect(e, after) => w.(engines := w.engines[e := after])
  }

  // ---- the invariant ----

  /** The handles that own an id of the engine's table. */
  function Owners(handles: map<HandleId, Handle>, e: EngineId, k: Kind): set<HandleId> {
    set h <- handles.Keys | Owns(handles[h], e, k)
  }

  predicate Owns(x: Handle, e: EngineId, k: Kind) {
    x.index != 0 && x.engine == Some(e) && x.kind == k
  }

  /** How setting one handle changes the number of owners. */
  lemma OwnersSet(handles: map<HandleId, Handle>, h: HandleId, x: Handle, e: EngineId, k: Kind)
    ensures |Owners(handles[h := x], e, k)|
            == |Owners(handles, e, k)| - (if h in handles && Owns(handles[h], e, k) then 1 else 0)
               + (if Owns(x, e, k) then 1 else 0)
  {
    var before, after := Owners(handles, e, k), Owners(handles[h := x], e, k);
    assert after - {h} == before - {h};
    assert h in after <==> Owns(x, e, k);
    assert h in before <==> h in handles && Owns(handles[h], e, k);
    assert |before - {h}| == |before| - if h in before then 1 else 0;
    assert |after - {h}| == |after| - if h in after then 1 else 0;
  }

  /** The handle reads what it was built from, a Weak possibly nothing. */
  predicate Faithful(w: World, h: HandleId)
    requires WellFormed(w) && h in w.handles
  {
    var x := w.handles[h];
    x.index != 0 ==>
      var reg := w.engines[x.engine.value];
      && 2 <= x.index <= reg.counter
      && (Lookup(reg.Table(x.kind), Key(x.index)) == w.held[h]
          || (x.kind == Weak && Lookup(reg.Table(x.kind), Key(x.index)) == Nil))
  }

  predicate RegistryOk(w: World, e: EngineId)
    requires e < |w.engines|
  {
    var reg := w.engines[e];
    && EntriesOk(reg.strong) && EntriesOk(reg.weak)
    && 1 <= reg.counter < WORD
    && reg.strongCount == |Owners(w.handles, e, Strong)| && reg.weakCount == |Owners(w.handles, e, Weak)|
  }

  predicate Distinct(w: World) {
    forall h, o | h in w.handles && o in w.handles && h != o && w.handles[h].index != 0
                  && w.handles[h].engine == w.handles[o].engine ::
      w.handles[h].index != w.handles[o].index
  }

  predicate Inv(w: World) {
    && WellFormed(w)
    && (forall h <- w.handles.Keys :: Faithful(w, h))
    && (forall e | 0 <= e < |w.engines| :: RegistryOk(w, e))
    && Distinct(w)
  }

  /** The operation does not need an id past the last 64-bit one. */
  ghost predicate NoWrap(w: World, op: Op)
    requires WellFormed(w) && Able(w, op)
  {
    forall e | 0 <= e < |w.engines| && NewIdFrom(w, op, e) :: w.engines[e].counter < WORD - 1
  }

  ghost predicate NewIdFrom(w: World, op: Op, e: EngineId)
    requires WellFormed(w) && Able(w, op)
  {
    || (op.FromLocal? && op.current == e && op.local.Some?)
    || (op.FromHandle? && w.handles[op.source].engine == Some(e) && w.handles[op.source].index != 0)
  }

  // ---- every operation keeps the invariant ----

  /** There are fewer owners than ids. */
  lemma {:induction false} Few(handles: map<HandleId, Handle>, owners: set<HandleId>, n: nat)
    requires forall h <- owners :: h in handles && 1 <= handles[h].index <= n
    requires forall h <- owners, o <- owners | h != o :: handles[h].index != handles[o].index
    ensures |owners| <= n
    decreases n
  {
    if n == 0 {
      assert owners == {};
    } else if h :| h in owners && handles[h].index == n {
      Few(handles, owners - {h}, n - 1);
    } else {
      Few(handles, owners, n - 1);
    }
  }

  lemma OwnersFew(w: World, e: EngineId, k: Kind)
    requires Inv(w) && e < |w.engines|
    ensures |Owners(w.handles, e, k)| <= w.engines[e].counter < WORD
  {
    var owners := Owners(w.handles, e, k);
    assert RegistryOk(w, e);
    forall h | h in owners
      ensures h in w.handles && 1 <= w.handles[h].index <= w.engines[e].counter
    {
      assert Faithful(w, h);
    }
    Few(w.handles, owners, w.engines[e].counter);
  }

  lemma PutFresh(reg: Registry, k: Kind, v: Value, id: nat)
    requires EntriesOk(reg.strong) && EntriesOk(reg.weak) && 1 <= reg.counter < WORD - 1
    ensures var (after, added) := Put(reg, k, Some(v));
            && added == reg.counter + 1 && after.counter == added
            && EntriesOk(after.strong) && EntriesOk(after.weak)
            && Lookup(after.Table(k), Key(added)) == v
            && (id <= reg.counter ==> forall k2 :: Lookup(after.Table(k2), Key(id)) == Lookup(reg.Table(k2), Key(id)))
  {
    var added := reg.counter + 1;
    AssignOk(reg.Table(k), Key(added), v);
    AssignLookup(reg.Table(k), Key(added), v, Key(added));
    AssignLookup(reg.Table(k), Key(added), v, Key(id));
    if id <= reg.counter { KeysDiffer(id, added); }
  }

  lemma RemoveOther(reg: Registry, k: Kind, gone: nat, id: nat)
    requires EntriesOk(reg.strong) && EntriesOk(reg.weak) && gone < WORD
    ensures var after := Remove(reg, k, gone);
            && EntriesOk(after.strong) && EntriesOk(after.weak) && after.counter == reg.counter
            && Lookup(after.Table(k), Key(gone)) == Nil
            && (id < WORD && id != gone ==>
                  forall k2 :: Lookup(after.Table(k2), Key(id)) == Lookup(reg.Table(k2), Key(id)))
  {
    AssignOk(reg.Table(k), Key(gone), Nil);
    AssignLookup(reg.Table(k), Key(gone), Nil, Key(gone));
    AssignLookup(reg.Table(k), Key(gone), Nil, Key(id));
    if id < WORD && id != gone { KeysDiffer(id, gone); }
  }

  lemma KeepFaithful(w: World, h: HandleId, k: Kind, e: EngineId, v: Value, o: HandleId)
    requires Inv(w) && h !in w.handles && e < |w.engines| && w.engines[e].counter < WORD - 1
    requires o in w.handles && w.handles[o].index != 0
    ensures WellFormed(Keep(w, h, k, e, Some(v))) && Faithful(Keep(w, h, k, e, Some(v)), o)
    ensures w.handles[o].engine == Some(e) ==> w.handles[o].index <= w.engines[e].counter
  {
    assert Faithful(w, o) && RegistryOk(w, e);
    if w.handles[o].engine == Some(e) { PutFresh(w.engines[e], k, v, w.handles[o].index); }
  }

  lemma KeepKeeps(w: World, h: HandleId, k: Kind, e: EngineId, v: Value)
    requires Inv(w) && h !in w.handles && e < |w.engines| && w.engines[e].counter < WORD - 1
    ensures Inv(Keep(w, h, k, e, Some(v)))
  {
    var after := Keep(w, h, k, e, Some(v));
    assert RegistryOk(w, e);
    PutFresh(w.engines[e], k, v, 0);
    forall o | o in w.handles && w.handles[o].index != 0
      ensures Faithful(after, o) && (w.handles[o].engine == Some(e) ==> w.handles[o].index <= w.engines[e].counter)
    {
      KeepFaithful(w, h, k, e, v, o);
    }
    forall f | 0 <= f < |w.engines| ensures RegistryOk(after, f) { KeepRegistry(w, h, k, e, v, f); }
  }

  lemma KeepOwners(w: World, h: HandleId, x: Handle, f: EngineId, k: Kind)
    requires Inv(w) && h !in w.handles && f < |w.engines| && w.engines[f].counter < WORD - 1
    ensures var added := if Owns(x, f, k) then 1 else 0;
            && |Owners(w.handles[h := x], f, k)| == |Owners(w.handles, f, k)| + added
            && (w.engines[f].Count(k) + added) % WORD == |Owners(w.handles[h := x], f, k)|
  {
    OwnersFew(w, f, k);
    assert RegistryOk(w, f);
    OwnersSet(w.handles, h, x, f, k);
  }

  lemma KeepRegistry(w: World, h: HandleId, k: Kind, e: EngineId, v: Value, f: EngineId)
    requires Inv(w) && h !in w.handles && e < |w.engines| && w.engines[e].counter < WORD - 1 && f < |w.engines|
    ensures RegistryOk(Keep(w, h, k, e, Some(v)), f)
  {
    var x := Keep(w, h, k, e, Some(v)).handles[h];
    assert RegistryOk(w, f);
    if f == e {
      PutFresh(w.engines[e], k, v, 0);
      KeepOwners(w, h, x, f, Strong);
      KeepOwners(w, h, x, f, Weak);
    } else {
      OwnersSet(w.handles, h, x, f, Strong);
      OwnersSet(w.handles, h, x, f, Weak);
    }
  }

  /** A handle that owns no id can come or go. */
  lemma EmptyKeeps(w: World, h: HandleId, x: Handle)
    requires Inv(w) && h !in w.handles && x.index == 0 && (x.engine.Some? ==> x.engine.value < |w.engines|)
    ensures Inv(Added(w, h, x))
  {
    var after := Added(w, h, x);
    forall o | o in after.handles ensures Faithful(after, o) { if o != h { assert Faithful(w, o); } }
    forall f | 0 <= f < |w.engines|
      ensures RegistryOk(after, f)
    {
      assert RegistryOk(w, f);
      OwnersSet(w.handles, h, x, f, Strong);
      OwnersSet(w.handles, h, x, f, Weak);
    }
  }

  lemma DropKeeps(w: World, h: HandleId)
    requires Inv(w) && h in w.handles && w.handles[h].index == 0
    ensures Inv(Drop(w, h))
  {
    var after := Drop(w, h);
    forall o | o in after.handles ensures Faithful(after, o) { assert Faithful(w, o); }
    forall f | 0 <= f < |w.engines|
      ensures RegistryOk(after, f)
    {
      assert RegistryOk(w, f);
      assert forall k :: Owners(after.handles, f, k) == Owners(w.handles, f, k);
    }
  }

  lemma ReleaseFaithful(w: World, h: HandleId, o: HandleId)
    requires Inv(w) && h in w.handles && w.handles[h].index != 0
    requires o in w.handles && o != h && w.handles[o].index != 0
    ensures var after := Release(w, h, w.handles[h].engine.value);
            WellFormed(after) && Faithful(after, o)
  {
    var x, y := w.handles[h], w.handles[o];
    var e := x.engine.value;
    assert Faithful(w, h) && Faithful(w, o) && RegistryOk(w, e);
    assert RegistryOk(w, y.engine.value);
    if y.engine == Some(e) { RemoveOther(w.engines[e], x.kind, x.index, y.index); }
  }

  lemma ReleaseOwners(w: World, h: HandleId, f: EngineId, k: Kind)
    requires Inv(w) && h in w.handles && f < |w.engines|
    ensures var emptied := w.handles[h := Handle(w.handles[h].kind, None, 0)];
            var gone := if Owns(w.handles[h], f, k) then 1 else 0;
            && |Owners(emptied, f, k)| == |Owners(w.handles, f, k)| - gone
            && (w.engines[f].Count(k) - gone) % WORD == |Owners(emptied, f, k)|
  {
    OwnersFew(w, f, k);
    assert RegistryOk(w, f);
    OwnersSet(w.handles, h, Handle(w.handles[h].kind, None, 0), f, k);
  }

  lemma ReleaseRegistry(w: World, h: HandleId, f: EngineId)
    requires Inv(w) && h in w.handles && w.handles[h].index != 0 && f < |w.engines|
    ensures RegistryOk(Release(w, h, w.handles[h].engine.value), f)
  {
    var x := w.handles[h];
    assert Faithful(w, h) && RegistryOk(w, f);
    ReleaseOwners(w, h, f, Strong);
    ReleaseOwners(w, h, f, Weak);
    if x.engine == Some(f) { RemoveOther(w.engines[f], x.kind, x.index, 0); }
  }

  lemma ReleaseKeeps(w: World, h: HandleId)
    requires Inv(w) && h in w.handles && w.handles[h].index != 0
    ensures Inv(Release(w, h, w.handles[h].engine.value))
    ensures Release(w, h, w.handles[h].engine.value).handles[h].index == 0
  {
    var after := Release(w, h, w.handles[h].engine.value);
    forall o | o in w.handles && o != h && w.handles[o].index != 0
      ensures Faithful(after, o)
    {
      ReleaseFaithful(w, h, o);
    }
    forall f | 0 <= f < |w.engines| ensures RegistryOk(after, f) { ReleaseRegistry(w, h, f); }
  }

  /** One handle takes over another's id. */
  lemma MoveKeeps(w: World, h: HandleId, s: HandleId)
    requires Inv(w) && h !in w.handles && s in w.handles
    ensures Inv(Do(w, Move(h, s)))
  {
    var after := Do(w, Move(h, s));
    forall o | o in after.handles ensures Faithful(after, o) { assert Faithful(w, if o == h then s else o); }
    forall f | 0 <= f < |w.engines|
      ensures RegistryOk(after, f)
    {
      assert RegistryOk(w, f);
      ExchangeSize(w.handles, h, s, w.handles[s], Handle(w.handles[s].kind, None, 0), f, Strong);
      ExchangeSize(w.handles, h, s, w.handles[s], Handle(w.handles[s].kind, None, 0), f, Weak);
    }
  }

  /** Setting two handles keeps the number of owners if their ids are only exchanged. */
  lemma ExchangeSize(handles: map<HandleId, Handle>, h: HandleId, o: HandleId, x: Handle, y: Handle, e: EngineId,
                     k: Kind)
    requires o in handles && h != o && Owns(x, e, k) == Owns(handles[o], e, k)
    requires Owns(y, e, k) == (h in handles && Owns(handles[h], e, k))
    ensures |Owners(handles[h := x][o := y], e, k)| == |Owners(handles, e, k)|
  {
    OwnersSet(handles, h, x, e, k);
    OwnersSet(handles[h := x], o, y, e, k);
  }

  lemma SwapKeeps(w: World, h: HandleId, o: HandleId)
    requires Inv(w) && Able(w, Swap(h, o))
    ensures Inv(Do(w, Swap(h, o)))
  {
    var after := Do(w, Swap(h, o));
    forall x | x in after.handles
      ensures Faithful(after, x)
    {
      assert Faithful(w, if x == h then o else if x == o then h else x);
    }
    SwapDistinct(w, h, o);
    forall f | 0 <= f < |w.engines|
      ensures RegistryOk(after, f)
    {
      assert RegistryOk(w, f);
      if h == o { assert after.handles == w.handles; }
      else {
        ExchangeSize(w.handles, h, o, w.handles[o], w.handles[h], f, Strong);
        ExchangeSize(w.handles, h, o, w.handles[o], w.handles[h], f, Weak);
      }
    }
  }

  lemma SwapDistinct(w: World, h: HandleId, o: HandleId)
    requires Distinct(w) && h in w.handles && o in w.handles
    ensures Distinct(w.(handles := w.handles[h := w.handles[o]][o := w.handles[h]]))
  {
  }

  lemma CollectKeeps(w: World, e: EngineId, reg: Registry)
    requires Inv(w) && e < |w.engines| && Collected(w.engines[e], reg)
    ensures Inv(w.(engines := w.engines[e := reg]))
  {
    var after := w.(engines := w.engines[e := reg]);
    forall o | o in after.handles ensures Faithful(after, o) { assert Faithful(w, o); }
    forall f | 0 <= f < |w.engines|
      ensures RegistryOk(after, f)
    {
      assert RegistryOk(w, f);
    }
  }

  lemma OpKeeps(w: World, op: Op)
    requires Inv(w) && Able(w, op) && NoWrap(w, op)
    ensures Inv(Do(w, op))
  {
    match op
    case Create(h, kind) => EmptyKeeps(w, h, Handle(kind, None, 0));
    case FromLocal(h, kind, current, local) =>
      if local.None? {
        EmptyKeeps(w, h, Handle(kind, Some(current), 0));
        assert w.engines[current := w.engines[current]] == w.engines;
      } else {
        assert NewIdFrom(w, op, current);
        KeepKeeps(w, h, kind, current, local.value);
      }
    case FromHandle(h, kind, s, current) => FromHandleKeeps(w, h, kind, s, current);
    case Move(h, s) => MoveKeeps(w, h, s);
    case Swap(h, o) => SwapKeeps(w, h, o);
    case Reset(h, current) => if w.handles[h].index != 0 { ReleaseKeeps(w, h); }
    case Destroy(h) =>
      if w.handles[h].index != 0 { ReleaseKeeps(w, h); DropKeeps(Release(w, h, w.handles[h].engine.value), h); }
      else { DropKeeps(w, h); }
    case Collect(e, after) => CollectKeeps(w, e, after);
  }

  lemma FromHandleKeeps(w: World, h: HandleId, kind: Kind, s: HandleId, current: EngineId)
    requires Inv(w) && Able(w, FromHandle(h, kind, s, current)) && NoWrap(w, FromHandle(h, kind, s, current))
    ensures Inv(Do(w, FromHandle(h, kind, s, current)))
  {
    var x := w.handles[s];
    if x.engine.None? {
      EmptyKeeps(w, h, Handle(kind, None, 0));
    } else {
      var e := x.engine.value;
      if x.index == 0 {
        EmptyKeeps(w, h, Handle(kind, Some(e), 0));
        assert w.engines[e := w.engines[e]] == w.engines;
      } else {
        assert NewIdFrom(w, FromHandle(h, kind, s, current), e);
        KeepKeeps(w, h, kind, e, Reads(w, s).value);
      }
    }
  }
}
