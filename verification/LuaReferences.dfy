/**
 Whole runs of Lua references over any number of engines: what holds in every run, what assigning a
 `Global` does, and what comes of resetting a handle outside the scope of its engine.
 */
module LuaReferences {
  import opened Options
  import opened LuaVm
  import opened LuaRegistry

  // ---- nothing is left behind ----

  /** Some handle owns the id behind the key. */
  ghost predicate Owned(handles: map<HandleId, Handle>, e: EngineId, k: Kind, key: Value) {
    exists h <- handles.Keys :: Owns(handles[h], e, k) && Key(handles[h].index) == key
  }

  /** Nothing is in the tables that no handle will take out. */
  ghost predicate NoLeaks(w: World, e: EngineId)
    requires e < |w.engines|
  {
    forall k, key :: Lookup(w.engines[e].Table(k), key) != Nil ==> Owned(w.handles, e, k, key)
  }

  ghost predicate Tidy(w: World)
    requires WellFormed(w)
  {
    forall e | 0 <= e < |w.engines| :: NoLeaks(w, e) && w.strays[e] == 0
  }

  /** The whole invariant. */
  ghost predicate Clean(w: World) {
    Inv(w) && Tidy(w)
  }

  lemma OwnerIs(handles: map<HandleId, Handle>, h: HandleId, e: EngineId, k: Kind)
    requires h in handles && Owns(handles[h], e, k)
    ensures Owned(handles, e, k, Key(handles[h].index))
  {
  }

  /** Ids stay owned while their owners stay. */
  lemma StillOwned(handles: map<HandleId, Handle>, after: map<HandleId, Handle>, h: HandleId, e: EngineId, k: Kind,
                   key: Value)
    requires Owned(handles, e, k, key)
    requires forall o <- handles.Keys | o != h :: o in after && after[o] == handles[o]
    requires h in handles && Owns(handles[h], e, k) ==> Key(handles[h].index) != key
    ensures Owned(after, e, k, key)
  {
    var o :| o in handles.Keys && Owns(handles[o], e, k) && Key(handles[o].index) == key;
    OwnerIs(after, o, e, k);
  }

  lemma KeepNoLeaks(w: World, h: HandleId, k: Kind, e: EngineId, v: Value, f: EngineId)
    requires Inv(w) && h !in w.handles && e < |w.engines| && w.engines[e].counter < WORD - 1
    requires f < |w.engines| && NoLeaks(w, f)
    ensures NoLeaks(Keep(w, h, k, e, Some(v)), f)
  {
    var after := Keep(w, h, k, e, Some(v));
    var added := Key(w.engines[e].counter + 1);
    assert RegistryOk(w, e);
    forall k2, key | Lookup(after.engines[f].Table(k2), key) != Nil
      ensures Owned(after.handles, f, k2, key)
    {
      if f == e && k2 == k && key == added {
        OwnerIs(after.handles, h, e, k);
      } else {
        if f == e && k2 == k { AssignLookup(w.engines[e].Table(k), added, v, key); }
        StillOwned(w.handles, after.handles, h, f, k2, key);
      }
    }
  }

  lemma SameTablesNoLeaks(w: World, after: World, h: HandleId, f: EngineId)
    requires f < |w.engines| && NoLeaks(w, f) && f < |after.engines| && after.engines[f] == w.engines[f]
    requires forall o <- w.handles.Keys | o != h :: o in after.handles && after.handles[o] == w.handles[o]
    requires h in w.handles ==> w.handles[h].index == 0
    ensures NoLeaks(after, f)
  {
    forall k, key | Lookup(after.engines[f].Table(k), key) != Nil
      ensures Owned(after.handles, f, k, key)
    {
      StillOwned(w.handles, after.handles, h, f, k, key);
    }
  }

  lemma ReleaseNoLeaks(w: World, h: HandleId, f: EngineId)
    requires Inv(w) && h in w.handles && w.handles[h].index != 0 && f < |w.engines| && NoLeaks(w, f)
    ensures NoLeaks(Release(w, h, w.handles[h].engine.value), f)
  {
    var x := w.handles[h];
    var after := Release(w, h, x.engine.value);
    assert RegistryOk(w, f);
    forall k, key | Lookup(after.engines[f].Table(k), key) != Nil
      ensures Owned(after.handles, f, k, key)
    {
      if x.engine == Some(f) && x.kind == k { AssignLookup(w.engines[f].Table(k), Key(x.index), Nil, key); }
      StillOwned(w.handles, after.handles, h, f, k, key);
    }
  }

  /** The ids of two handles are only exchanged. */
  lemma ExchangeNoLeaks(w: World, after: World, h: HandleId, o: HandleId, f: EngineId)
    requires f < |w.engines| && NoLeaks(w, f) && f < |after.engines| && after.engines[f] == w.engines[f]
    requires forall x <- w.handles.Keys | x != h && x != o :: x in after.handles && after.handles[x] == w.handles[x]
    requires h in w.handles && w.handles[h].index != 0 ==> o in after.handles && after.handles[o] == w.handles[h]
    requires o in w.handles && w.handles[o].index != 0 ==> h in after.handles && after.handles[h] == w.handles[o]
    ensures NoLeaks(after, f)
  {
    forall k, key | Lookup(after.engines[f].Table(k), key) != Nil
      ensures Owned(after.handles, f, k, key)
    {
      var x :| x in w.handles.Keys && Owns(w.handles[x], f, k) && Key(w.handles[x].index) == key;
      OwnerIs(after.handles, if x == h then o else if x == o then h else x, f, k);
    }
  }

  lemma CollectNoLeaks(w: World, e: EngineId, reg: Registry, f: EngineId)
    requires e < |w.engines| && Collected(w.engines[e], reg) && f < |w.engines| && NoLeaks(w, f)
    ensures NoLeaks(w.(engines := w.engines[e := reg]), f)
  {
    var after := w.(engines := w.engines[e := reg]);
    forall k, key | Lookup(after.engines[f].Table(k), key) != Nil
      ensures Owned(after.handles, f, k, key)
    {
      assert Lookup(w.engines[f].Table(k), key) != Nil;
    }
  }

  lemma OpNoLeaks(w: World, op: Op, f: EngineId)
    requires Inv(w) && Able(w, op) && NoWrap(w, op) && f < |w.engines| && NoLeaks(w, f)
    ensures f < |Do(w, op).engines| && NoLeaks(Do(w, op), f)
  {
    var after := Do(w, op);
    match op
    case Create(h, _) => SameTablesNoLeaks(w, after, h, f);
    case FromLocal(h, kind, current, local) =>
      if local.Some? {
        assert NewIdFrom(w, op, current);
        KeepNoLeaks(w, h, kind, current, local.value, f);
      } else {
        SameTablesNoLeaks(w, after, h, f);
      }
    case FromHandle(h, kind, s, _) =>
      if w.handles[s].index == 0 {
        SameTablesNoLeaks(w, after, h, f);
      } else {
        assert NewIdFrom(w, op, w.handles[s].engine.value);
        KeepNoLeaks(w, h, kind, w.handles[s].engine.value, Reads(w, s).value, f);
      }
    case Move(h, s) => ExchangeNoLeaks(w, after, h, s, f);
    case Swap(h, o) => ExchangeNoLeaks(w, after, h, o, f);
    case Reset(h, _) => if w.handles[h].index != 0 { ReleaseNoLeaks(w, h, f); }
    case Destroy(h) =>
      var gone := if w.handles[h].index != 0 then Release(w, h, w.handles[h].engine.value) else w;
      if w.handles[h].index != 0 { ReleaseNoLeaks(w, h, f); }
      SameTablesNoLeaks(gone, after, h, f);
    case Collect(e, reg) => CollectNoLeaks(w, e, reg, f);
  }

  lemma Keeps(w: World, op: Op)
    requires Clean(w) && Able(w, op) && NoWrap(w, op)
    ensures Clean(Do(w, op))
  {
    var after := Do(w, op);
    OpKeeps(w, op);
    assert after.strays == w.strays && |after.engines| == |w.engines|;
    forall f | 0 <= f < |w.engines| ensures NoLeaks(after, f) { OpNoLeaks(w, op, f); }
  }

  // ---- whole runs ----

  ghost predicate Runs(w: World, ops: seq<Op>, last: World)
    decreases |ops|
  {
    if ops == [] then w == last
    else WellFormed(w) && Able(w, ops[0]) && NoWrap(w, ops[0]) && Runs(Do(w, ops[0]), ops[1..], last)
  }

  function Fresh(engines: nat): World {
    World(seq(engines, _ => Registry([], [], 1, 0, 0)), map[], map[], seq(engines, _ => 0))
  }

  lemma {:induction false} RunKeeps(w: World, ops: seq<Op>, last: World)
    requires Clean(w) && Runs(w, ops, last)
    ensures Clean(last)
    decreases |ops|
  {
    if ops != [] {
      Keeps(w, ops[0]);
      RunKeeps(Do(w, ops[0]), ops[1..], last);
    }
  }

  /** In every run: live handles own distinct nonzero ids, a Global reads what it was built from, a
      Weak reads that or nil, the two counts are the numbers of live handles, every entry of a table
      belongs to a live handle, and nothing stays on an engine's stack. */
  lemma RegistrySafe(engines: nat, ops: seq<Op>, w: World)
    requires Runs(Fresh(engines), ops, w)
    ensures WellFormed(w) && Distinct(w)
    ensures forall h <- w.handles.Keys | w.handles[h].index != 0 ::
      Reads(w, h) == Some(w.held[h]) || (w.handles[h].kind == Weak && Reads(w, h) == Some(Nil))
    ensures forall e | 0 <= e < |w.engines| ::
      && w.engines[e].strongCount == |Owners(w.handles, e, Strong)|
      && w.engines[e].weakCount == |Owners(w.handles, e, Weak)|
      && NoLeaks(w, e) && w.strays[e] == 0
  {
    FreshOk(engines);
    RunKeeps(Fresh(engines), ops, w);
    forall h | h in w.handles && w.handles[h].index != 0
      ensures Reads(w, h) == Some(w.held[h]) || (w.handles[h].kind == Weak && Reads(w, h) == Some(Nil))
    {
      assert Faithful(w, h);
    }
    forall e | 0 <= e < |w.engines|
      ensures w.engines[e].strongCount == |Owners(w.handles, e, Strong)|
      ensures w.engines[e].weakCount == |Owners(w.handles, e, Weak)|
      ensures NoLeaks(w, e)
    {
      assert RegistryOk(w, e);
      OwnersFew(w, e, Strong);
      OwnersFew(w, e, Weak);
    }
  }

  // ---- what a handle reads after each operation ----

  /** Every handle reads what it did but the one that the operation makes, changes or takes away, and the
      other side of a move or a swap. */
  lemma OthersRead(w: World, op: Op, o: HandleId)
    requires Inv(w) && Able(w, op) && NoWrap(w, op) && o in w.handles && !op.Collect? && o != op.h
    requires (op.Move? ==> o != op.source) && (op.Swap? ==> o != op.other)
    ensures var after := Do(w, op); WellFormed(after) && o in after.handles && Reads(after, o) == Reads(w, o)
  {
    OpKeeps(w, op);
    var x := w.handles[o];
    assert Faithful(w, o) && (x.engine.Some? ==> RegistryOk(w, x.engine.value));
    match op
    case FromLocal(h, kind, current, local) =>
      if local.Some? && x.engine == Some(current) {
        assert NewIdFrom(w, op, current);
        PutFresh(w.engines[current], kind, local.value, x.index);
      }
    case FromHandle(h, kind, s, _) =>
      if w.handles[s].index != 0 && x.engine == w.handles[s].engine {
        assert NewIdFrom(w, op, x.engine.value);
        PutFresh(w.engines[x.engine.value], kind, Reads(w, s).value, x.index);
      }
    case Reset(h, _) => OthersKeep(w, h, o);
    case Destroy(h) => OthersKeep(w, h, o);
    case _ =>
  }

  lemma OthersKeep(w: World, h: HandleId, o: HandleId)
    requires Inv(w) && h in w.handles && o in w.handles && o != h
    ensures w.handles[h].index != 0 ==>
              var after := Release(w, h, w.handles[h].engine.value);
              WellFormed(after) && o in after.handles && Reads(after, o) == Reads(w, o)
  {
    var x, y := w.handles[h], w.handles[o];
    if x.index != 0 && y.index != 0 && x.engine == y.engine {
      assert Faithful(w, h) && Faithful(w, o) && RegistryOk(w, x.engine.value);
      RemoveOther(w.engines[x.engine.value], x.kind, x.index, y.index);
    }
  }

  /** What the handle itself reads: nothing when it is new without a value, reset or moved from; the value
      it was built from; what its source read; what the handle that it was exchanged with read. */
  lemma OpReads(w: World, op: Op)
    requires Inv(w) && Able(w, op) && NoWrap(w, op)
    ensures var after := Do(w, op);
            WellFormed(after) &&
            match op
            case Create(h, k) => h in after.handles && after.handles[h].kind == k && Reads(after, h) == None
            case FromLocal(h, k, _, local) =>
              h in after.handles && after.handles[h].kind == k && Reads(after, h) == local
            case FromHandle(h, k, s, _) =>
              h in after.handles && after.handles[h].kind == k && Reads(after, h) == Reads(w, s)
            case Move(h, s) =>
              && h in after.handles && s in after.handles
              && Reads(after, h) == Reads(w, s) && Reads(after, s) == None
            case Swap(h, o) =>
              && h in after.handles && o in after.handles
              && Reads(after, h) == Reads(w, o) && Reads(after, o) == Reads(w, h)
            case Reset(h, _) => h in after.handles && Reads(after, h) == None
            case Destroy(h) => h !in after.handles
            case Collect(e, reg) =>
              forall h <- after.handles.Keys ::
                h in w.handles
                && Reads(after, h)
                   == if w.handles[h].engine == Some(e) then Get(reg, w.handles[h].kind, w.handles[h].index)
                      else Reads(w, h)
  {
    OpKeeps(w, op);
    match op
    case FromLocal(h, kind, current, local) =>
      if local.Some? {
        assert NewIdFrom(w, op, current) && RegistryOk(w, current);
        PutFresh(w.engines[current], kind, local.value, 0);
      }
    case FromHandle(h, kind, s, _) =>
      if w.handles[s].index != 0 {
        var e := w.handles[s].engine.value;
        assert NewIdFrom(w, op, e) && RegistryOk(w, e);
        PutFresh(w.engines[e], kind, Reads(w, s).value, 0);
      }
    case _ =>
  }

  // ---- resetting under another engine ----

  /** What a stray assignment can do to an engine: a table of it lost an entry, possibly a registry. */
  ghost predicate Hit(before: Registry, after: Registry) {
    after == before.(strong := after.strong, weak := after.weak)
  }

  /** `reset` under any current engine.  A Weak removes its id from the current engine's table.  A Global
      pushes its own engine's table on that engine's stack, but clears the entry in whatever is in the
      same slot of the current engine's stack, and closes the frame there: its own entry stays, and
      so does one value on its own stack. */
  function ResetAs(w: World, h: HandleId, current: EngineId, hit: Registry): World
    requires WellFormed(w) && h in w.handles && current < |w.engines|
  {
    var x := w.handles[h];
    if x.index == 0 || x.kind == Weak || x.engine == Some(current) then Release(w, h, current)
    else
      var e := x.engine.value;
      var own := w.engines[e];
      w.(engines := w.engines[current := hit][e := own.With(x.kind, own.Table(x.kind), (own.Count(x.kind) - 1) % WORD)],
         handles := w.handles[h := Handle(x.kind, None, 0)],
         strays := w.strays[e := w.strays[e] + 1])
  }

  /** Resetting a handle is right exactly under its own engine. */
  lemma ResetInOwnEngine(w: World, h: HandleId, current: EngineId, hit: Registry)
    requires Clean(w) && h in w.handles && w.handles[h].index != 0 && current < |w.engines|
    requires Hit(w.engines[current], hit)
    ensures Clean(ResetAs(w, h, current, hit)) <==> w.handles[h].engine == Some(current)
  {
    var after := ResetAs(w, h, current, hit);
    if w.handles[h].engine == Some(current) {
      assert Able(w, Reset(h, current));
      Keeps(w, Reset(h, current));
    } else if w.handles[h].kind == Weak {
      OwnersSet(w.handles, h, after.handles[h], current, Weak);
      assert RegistryOk(w, current) && !RegistryOk(after, current);
    } else {
      var e := w.handles[h].engine.value;
      assert w.strays[e] == 0 && after.strays[e] == 1;
    }
  }

  lemma HeldReads(w: World, h: HandleId)
    requires Inv(w) && h in w.handles && w.handles[h].index != 0 && w.handles[h].kind == Strong
    ensures Reads(w, h) == Some(w.held[h])
  {
    assert Faithful(w, h);
  }

  /** Such a reset, for any value and either kind: a handle of engine 0 is reset while engine 1 is the
      current one.  The entry stays in engine 0 with nobody to remove it.  For a Weak, engine 1 then
      counts one reference less than none, which is 2^64 - 1, and engine 0 still counts one; for a
      Global, engine 0 has a value too many on its stack. */
  lemma ForeignResetPossible(k: Kind, v: Value, hit: Registry) returns (w: World)
    requires v != Nil && Hit(Fresh(2).engines[1], hit)
    ensures Runs(Fresh(2), [FromLocal(0, k, 0, Some(v))], w) && Clean(w) && |w.engines| == 2
    ensures 0 in w.handles && w.handles[0].kind == k && w.handles[0].index != 0
    ensures var after := ResetAs(w, 0, 1, hit);
            && !Clean(after) && after.handles[0].index == 0
            && Owners(after.handles, 0, k) == {} && Owners(after.handles, 1, k) == {}
            && Lookup(after.engines[0].Table(k), Key(2)) == v && !NoLeaks(after, 0)
            && (k == Weak ==> after.engines[1].weakCount == WORD - 1 && after.engines[0].weakCount == 1)
            && (k == Strong ==> after.engines[0].strongCount == 0 && after.strays[0] == 1)
  {
    w := OneHandle(k, v);
    ResetInOwnEngine(w, 0, 1, hit);
    LeftBehind(w, k, v, hit);
  }

  lemma OneHandle(k: Kind, v: Value) returns (w: World)
    ensures Runs(Fresh(2), [FromLocal(0, k, 0, Some(v))], w) && Clean(w) && |w.engines| == 2
    ensures w.handles == map[0 := Handle(k, Some(0), 2)] && w.engines[1] == Fresh(2).engines[1]
    ensures w.engines[0].Count(k) == 1 && Lookup(w.engines[0].Table(k), Key(2)) == v
  {
    FreshOk(2);
    var op := FromLocal(0, k, 0, Some(v));
    w := Do(Fresh(2), op);
    assert [op][1..] == [] && Runs(w, [], w);
    Keeps(Fresh(2), op);
    PutFresh(Fresh(2).engines[0], k, v, 0);
  }

  lemma LeftBehind(w: World, k: Kind, v: Value, hit: Registry)
    requires WellFormed(w) && |w.engines| == 2
    requires w.handles == map[0 := Handle(k, Some(0), 2)]
    requires v != Nil && Lookup(w.engines[0].Table(k), Key(2)) == v
    requires w.engines[0].Count(k) == 1
    ensures var after := ResetAs(w, 0, 1, hit);
            && Owners(after.handles, 0, k) == {} && Owners(after.handles, 1, k) == {}
            && Lookup(after.engines[0].Table(k), Key(2)) == v && !NoLeaks(after, 0)
  {
    var after := ResetAs(w, 0, 1, hit);
    assert after.handles == map[0 := Handle(k, None, 0)];
    assert !Owned(after.handles, 0, k, Key(2));
  }

  lemma FreshOk(engines: nat)
    ensures Clean(Fresh(engines))
  {
    forall e | 0 <= e < engines
      ensures RegistryOk(Fresh(engines), e)
    {
      assert Owners(map[], e, Strong) == {} && Owners(map[], e, Weak) == {};
    }
  }

  /** Copy assignment: copy to a temporary, swap with it, destroy it. */
  ghost function Assign3(h: HandleId, s: HandleId, temp: HandleId, current: EngineId): seq<Op> {
    [FromHandle(temp, Strong, s, current), Swap(temp, h), Destroy(temp)]
  }

  lemma AssignShape(w: World, h: HandleId, s: HandleId, temp: HandleId, current: EngineId, done: World)
    requires Inv(w) && h in w.handles && s in w.handles && temp !in w.handles
    requires w.handles[h].kind == w.handles[s].kind == Strong
    requires Runs(w, Assign3(h, s, temp, current), done)
    ensures done.handles.Keys == w.handles.Keys && h in done.held && done.handles[h].kind == Strong
    ensures done.handles[h].engine == w.handles[s].engine
    ensures done.handles[h].index != 0 <==> w.handles[s].index != 0
    ensures w.handles[s].index != 0 ==> Some(done.held[h]) == Reads(w, s)
    ensures forall o | o in w.handles && o != h ::
      o in done.held && o in w.held && done.handles[o] == w.handles[o] && done.held[o] == w.held[o]
  {
    ThreeRuns(w, FromHandle(temp, Strong, s, current), Swap(temp, h), Destroy(temp), done);
    var copied := Do(w, FromHandle(temp, Strong, s, current));
    CopiedShape(w, temp, s, current);
    var swapped := Do(copied, Swap(temp, h));
    assert swapped.handles[h] == copied.handles[temp] && swapped.held[h] == copied.held[temp];
    assert swapped.handles.Keys == copied.handles.Keys;
    DestroyedShape(swapped, temp);
  }

  lemma ThreeRuns(w: World, a: Op, b: Op, c: Op, done: World)
    requires Runs(w, [a, b, c], done)
    ensures WellFormed(w) && Able(w, a)
    ensures WellFormed(Do(w, a)) && Able(Do(w, a), b)
    ensures WellFormed(Do(Do(w, a), b)) && Able(Do(Do(w, a), b), c)
    ensures done == Do(Do(Do(w, a), b), c)
  {
    assert [a, b, c][1..] == [b, c] && [b, c][1..] == [c] && [c][1..] == [];
    assert Runs(Do(w, a), [b, c], done);
    assert Runs(Do(Do(w, a), b), [c], done);
    assert Runs(Do(Do(Do(w, a), b), c), [], done);
  }

  lemma CopiedShape(w: World, temp: HandleId, s: HandleId, current: EngineId)
    requires WellFormed(w) && Able(w, FromHandle(temp, Strong, s, current)) && w.handles[s].kind == Strong
    ensures var copied := Do(w, FromHandle(temp, Strong, s, current));
            && copied.handles.Keys == w.handles.Keys + {temp}
            && copied.handles[temp].kind == Strong && copied.handles[temp].engine == w.handles[s].engine
            && (copied.handles[temp].index != 0 <==> w.handles[s].index != 0)
            && (w.handles[s].index != 0 ==> Some(copied.held[temp]) == Reads(w, s))
            && forall o | o in w.handles :: copied.handles[o] == w.handles[o] && copied.held[o] == w.held[o]
  {
  }

  lemma DestroyedShape(w: World, h: HandleId)
    requires WellFormed(w) && h in w.handles
    ensures var done := Do(w, Destroy(h));
            && done.handles.Keys == w.handles.Keys - {h}
            && forall o | o in w.handles && o != h ::
                 o in done.held && done.handles[o] == w.handles[o] && done.held[o] == w.held[o]
  {
  }

  /** After assigning a Global to another, itself included, it reads as the source did, nothing if that
      is empty, and every other Global reads as before. */
  lemma AssignReads(w: World, h: HandleId, s: HandleId, temp: HandleId, current: EngineId, done: World)
    requires Clean(w) && h in w.handles && s in w.handles && temp !in w.handles
    requires w.handles[h].kind == w.handles[s].kind == Strong
    requires Runs(w, Assign3(h, s, temp, current), done)
    ensures Clean(done) && done.handles.Keys == w.handles.Keys
    ensures Reads(done, h) == Reads(w, s)
    ensures w.handles[s].index == 0 ==> done.handles[h] == Handle(Strong, None, 0)
    ensures forall o <- w.handles.Keys | o != h && w.handles[o].kind == Strong && w.handles[o].index != 0 ::
      Reads(done, o) == Reads(w, o)
  {
    RunKeeps(w, Assign3(h, s, temp, current), done);
    AssignShape(w, h, s, temp, current, done);
    SourceAble(w, h, s, temp, current, done);
    if w.handles[s].index != 0 { HeldReads(done, h); } else { EmptyReads(w, s); EmptyReads(done, h); }
    forall o | o in w.handles && o != h && w.handles[o].kind == Strong && w.handles[o].index != 0
      ensures Reads(done, o) == Reads(w, o)
    {
      HeldReads(w, o);
      HeldReads(done, o);
    }
  }

  lemma EmptyReads(w: World, h: HandleId)
    requires WellFormed(w) && h in w.handles && w.handles[h].index == 0
    ensures Reads(w, h) == None
  {
  }

  lemma SourceAble(w: World, h: HandleId, s: HandleId, temp: HandleId, current: EngineId, done: World)
    requires WellFormed(w) && s in w.handles && w.handles[s].kind == Strong
    requires Runs(w, Assign3(h, s, temp, current), done)
    ensures w.handles[s].engine.Some? ==> w.handles[s].index != 0
  {
    assert Able(w, FromHandle(temp, Strong, s, current));
  }
}
