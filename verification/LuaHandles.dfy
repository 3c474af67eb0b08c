/**
 The registries of one Lua engine as tables of its state, and the `Global` and `Weak` handles over
 them.  In the scope of the engine each method does to the registry what `LuaRegistry` specifies and
 leaves the stack alone; `Remove` and `Reset` say what they do in any other engine's scope.
 */
module LuaHandles {
  import opened Options
  import opened LuaFrames
  import opened LuaVm
  import opened LuaRegistry

  const STRONG_TOKEN: nat := 2
  const WEAK_TOKEN: nat := 3
  const MODE: Value := Str("__mode")

  function Token(k: Kind): Value {
    Ptr(if k == Strong then STRONG_TOKEN else WEAK_TOKEN)
  }

  /** What a stack index says: the null Local is index 0. */
  function Local(stack: seq<Value>, local: nat): Option<Value>
    requires local <= |stack|
  {
    if local == 0 then None else Some(stack[local - 1])
  }

  class LuaEngine {
    const lua: LuaState
    const env: TableId       // the table behind kLuaGlobalEnvName
    const strong: TableId
    const weak: TableId
    var counter: nat
    var strongCount: nat
    var weakCount: nat

    function TableOf(k: Kind): TableId {
      if k == Strong then strong else weak
    }

    predicate Valid()
      reads this, lua
    {
      HasTables(lua.heap) && 1 <= counter < WORD
    }

    /** The global table leads to the two registries. */
    predicate HasTables(h: Heap) {
      && env != strong && env != weak && strong != weak
      && {env, strong, weak} <= h.tables.Keys
      && Lookup(h.tables[env].entries, Token(Strong)) == TableRef(strong)
      && Lookup(h.tables[env].entries, Token(Weak)) == TableRef(weak)
    }

    /** The second registry has a metatable that says that its values do not keep objects alive. */
    predicate WeaklyHeld(h: Heap) {
      && weak in h.tables && h.tables[weak].meta.Some?
      && var m := h.tables[weak].meta.value;
      && m in h.tables && m !in {env, strong, weak} && Lookup(h.tables[m].entries, MODE) == Str("v")
    }

    function View(): Registry
      requires Valid()
      reads this, lua
    {
      Registry(lua.heap.tables[strong].entries, lua.heap.tables[weak].entries, counter, strongCount, weakCount)
    }

    /** `initGlobalRegistry`, on a state whose global environment is at index `global`. */
    constructor (lua: LuaState, global: nat)
      requires global >= 1 && lua.IsTable(global)
      modifies lua
      ensures fresh(this) && this.lua == lua && Valid() && WeaklyHeld(lua.heap)
      ensures View() == Registry([], [], 1, 0, 0)
      ensures var meta := lua.heap.tables[weak].meta;
              meta.Some? && meta.value in lua.heap.tables
              && Lookup(lua.heap.tables[meta.value].entries, Str("__mode")) == Str("v")
      ensures lua.stack == old(lua.stack)
    {
      var globalTable := lua.At(global).t;
      ghost var entries := lua.TableAt(global).entries;
      var s := NewRegistry(lua, global, Strong);
      ghost var entries1 := lua.TableAt(global).entries;
      var w := NewWeakRegistry(lua, global);
      AssignLookup(entries, Token(Strong), TableRef(s), Token(Strong));
      AssignLookup(entries1, Token(Weak), TableRef(w), Token(Strong));
      AssignLookup(entries1, Token(Weak), TableRef(w), Token(Weak));
      this.lua, env, strong, weak := lua, globalTable, s, w;
      counter, strongCount, weakCount := 1, 0, 0;
    }

    /** `globalIdCounter`. */
    method GlobalIdCounter() returns (id: nat)
      requires counter < WORD
      modifies this`counter
      ensures id == counter == NextId(old(counter))
    {
      counter := (counter + 1) % WORD;
      while counter == 0
        invariant counter == (old(counter) + 1) % WORD || counter == NextId(old(counter))
        decreases if counter == 0 then 1 else 0
      {
        counter := (counter + 1) % WORD;
      }
      id := counter;
    }

    /** Pushes the registry table, on this engine's own stack, as the three functions below begin. */
    method PushTable(k: Kind) returns (table: nat)
      requires Valid()
      modifies lua`stack
      ensures table == |lua.stack|
      ensures lua.stack == old(lua.stack) + [TableRef(env), TableRef(TableOf(k))]
    {
      lua.Push(TableRef(env));
      var global := lua.GetTop();
      assert lua.At(global) == TableRef(env);
      lua.RawGet(global, Token(k));
      table := lua.GetTop();
    }

    function Entries(h: Heap, k: Kind): LuaRegistry.Entries
      requires HasTables(h)
    {
      h.tables[TableOf(k)].entries
    }

    /** What an assignment to a registry table does to the tables. */
    lemma Assigned(before: Heap, after: Heap, k: Kind, key: Value, v: Value)
      requires HasTables(before)
      requires after == RawHeap(before.tables[TableOf(k) := Table(Assign(Entries(before, k), key, v),
                                                                  before.tables[TableOf(k)].meta)], before.next)
      ensures HasTables(after) && OtherTablesSame(before, after)
      ensures Entries(after, k) == Assign(Entries(before, k), key, v)
      ensures forall other | other != k :: Entries(after, other) == Entries(before, other)
    {
    }

    /** Stores the value under a new id, between opening the frame and closing it. */
    method Store(local: nat, k: Kind) returns (id: nat)
      requires Valid() && 1 <= local <= |lua.stack|
      modifies this, lua
      ensures Valid() && lua.stack == old(lua.stack) + [TableRef(env)]
      ensures (View(), id) == LuaRegistry.Put(old(View()), k, Some(old(lua.stack)[local - 1]))
      ensures OtherTablesSame(old(lua.heap), lua.heap)
    {
      ghost var value := lua.stack[local - 1];
      var table := PushTable(k);
      var c := GlobalIdCounter();
      assert lua.At(table) == TableRef(TableOf(k)) && lua.stack[local - 1] == value;
      ArraySet(lua, table, c, local);
      Assigned(old(lua.heap), lua.heap, k, Key(c), value);
      lua.Pop(1);
      id := c;
      if k == Strong { strongCount := (strongCount + 1) % WORD; } else { weakCount := (weakCount + 1) % WORD; }
    }

    /** `putGlobalOrWeakTable`. */
    method Put(local: nat, k: Kind) returns (id: nat)
      requires Valid() && local <= |lua.stack|
      modifies this, lua
      ensures Valid() && lua.stack == old(lua.stack)
      ensures (View(), id) == LuaRegistry.Put(old(View()), k, Local(lua.stack, local))
      ensures OtherTablesSame(old(lua.heap), lua.heap)
      ensures local == 0 <==> id == 0
      ensures local != 0 ==> Lookup(View().Table(k), Key(id)) == lua.stack[local - 1]
    {
      id := 0;
      if local != 0 {
        var scope := new StackFrameScope(lua);
        id := Store(local, k);
        scope.Destroy();
        AssignLookup(old(View()).Table(k), Key(id), lua.stack[local - 1], Key(id));
      }
    }

    /** Only table t of the current engine has changed: an entry has gone.  The count goes down. */
    twostate predicate Lost(id: nat, k: Kind, current: LuaEngine, t: TableId)
      reads this, lua, current.lua
    {
      && (current != this ==> lua.heap == old(lua.heap))
      && t in old(current.lua.heap).tables
      && current.lua.heap == RawHeap(old(current.lua.heap).tables[
                                       t := Table(Assign(old(current.lua.heap).tables[t].entries, Key(id), Nil),
                                                  old(current.lua.heap).tables[t].meta)],
                                     old(current.lua.heap).next)
      && counter == old(counter)
      && strongCount == (if k == Strong then (old(strongCount) - 1) % WORD else old(strongCount))
      && weakCount == (if k == Weak then (old(weakCount) - 1) % WORD else old(weakCount))
    }

    /** Clears the entry, between opening the frame and closing it. */
    method Clear(id: nat, k: Kind, current: LuaEngine) returns (ok: bool)
      requires Valid() && (current != this ==> current.lua != lua)
      modifies this, lua, current.lua
      ensures current != this ==> ok == old(current.lua.IsTable(|lua.stack| + 2))
      ensures current == this ==> ok
      ensures ok ==> Lost(id, k, current, if current == this then TableOf(k)
                                          else old(current.lua.At(|lua.stack| + 2)).t)
      ensures ok ==> lua.stack == old(lua.stack) + [TableRef(env)]
      ensures ok && current != this ==> current.lua.stack == old(current.lua.stack)
    {
      var table := PushTable(k);
      ok := current.lua.IsTable(table);
      if ok {
        ArraySet(current.lua, table, id, 0);
        lua.Pop(1);
        if k == Strong { strongCount := (strongCount - 1) % WORD; } else { weakCount := (weakCount - 1) % WORD; }
      }
    }

    /** `removeGlobalOrWeakTable`, while `current` is the current engine: the frame and the assignment
        are on its stack, the registry table on this engine's own.  If the two differ, what is in the
        same slot of the other stack is taken for the table; with no table there the result is false,
        and the rest is undefined. */
    method Remove(id: nat, k: Kind, current: LuaEngine) returns (ok: bool)
      requires Valid() && (current != this ==> current.lua != lua)
      modifies this, lua, current.lua
      ensures current == this ==>
                && ok && Valid() && lua.stack == old(lua.stack)
                && View() == LuaRegistry.Remove(old(View()), k, id)
                && OtherTablesSame(old(lua.heap), lua.heap)
      ensures current != this ==> ok == old(current.lua.IsTable(|lua.stack| + 2))
      ensures current != this && ok ==> RemovedElsewhere(id, k, current)
    {
      var scope := new StackFrameScope(current.lua);
      ok := Clear(id, k, current);
      if ok {
        scope.Destroy();
        if current == this { Assigned(old(lua.heap), lua.heap, k, Key(id), Nil); }
      }
    }

    /** A removal under another engine: the entry stays, the count goes down, the global table stays on
        this engine's stack, and some table of the other engine has lost an entry. */
    twostate predicate RemovedElsewhere(id: nat, k: Kind, current: LuaEngine)
      reads this, lua, current.lua
    {
      && old(current.lua.IsTable(|lua.stack| + 2))
      && Lost(id, k, current, old(current.lua.At(|lua.stack| + 2)).t)
      && lua.stack == old(lua.stack) + [TableRef(env)] && current.lua.stack == old(current.lua.stack)
    }

    /** `getGlobalOrWeakTable`: leaves the value on top of the stack, if there is an id at all. */
    method Get(id: nat, k: Kind) returns (local: nat)
      requires Valid()
      modifies lua`stack
      ensures local <= |lua.stack| && Local(lua.stack, local) == LuaRegistry.Get(View(), k, id)
      ensures lua.stack == old(lua.stack) + if local == 0 then [] else [LuaRegistry.Get(View(), k, id).value]
      ensures local == if id == 0 then 0 else |lua.stack|
      ensures id != 0 ==> lua.stack == old(lua.stack) + [Lookup(View().Table(k), Key(id))]
    {
      if id == 0 { return 0; }
      var scope := new StackFrameScope(lua);
      var table := PushTable(k);
      assert lua.At(table) == TableRef(TableOf(k));
      lua.RawGet(table, Key(id));
      local := scope.ReturnRawValue(lua.GetTop());
      scope.Destroy();
    }

    /** No table but the two registries has other entries, and no table another metatable. */
    predicate OtherTablesSame(before: Heap, after: Heap) {
      && before.tables.Keys == after.tables.Keys && before.next == after.next
      && (forall t <- before.tables.Keys :: before.tables[t].meta == after.tables[t].meta)
      && (forall t <- before.tables.Keys :: t != strong && t != weak ==> before.tables[t] == after.tables[t])
    }

    /** So the second registry stays one of weak values. */
    lemma StaysWeak(before: Heap, after: Heap)
      requires WeaklyHeld(before) && OtherTablesSame(before, after)
      ensures WeaklyHeld(after)
    {
    }
  }

  /** `Array::set`, which adds one to the index. */
  method ArraySet(lua: LuaState, arr: nat, index: nat, local: nat)
    requires arr >= 1 && lua.IsTable(arr) && local <= |lua.stack|
    modifies lua
    ensures lua.stack == old(lua.stack)
    ensures lua.heap == RawHeap(old(lua.heap).tables[old(lua.At(arr)).t := Table(
                                  Assign(old(lua.TableAt(arr)).entries, Key(index),
                                         var v := Local(lua.stack, local); if v.Some? then v.value else Nil),
                                  old(lua.TableAt(arr)).meta)],
                                old(lua.heap).next)
  {
    if local == 0 { lua.Push(Nil); } else { lua.PushValue(local); }
    assert lua.At(arr) == old(lua.At(arr));
    lua.RawSetTop(arr, Key(index));
  }

  /** Stores a new table under the token. */
  method NewRegistry(lua: LuaState, global: nat, k: Kind) returns (t: TableId)
    requires global >= 1 && lua.IsTable(global)
    modifies lua
    ensures lua.stack == old(lua.stack) && t !in old(lua.heap).tables
    ensures lua.heap.tables == old(lua.heap).tables[t := Table([], None)][
              old(lua.At(global)).t := Table(Assign(old(lua.TableAt(global)).entries, Token(k), TableRef(t)),
                                             old(lua.TableAt(global)).meta)]
  {
    ghost var _ := lua.NewTable();
    t := lua.At(-1).t;
    assert lua.At(global) == old(lua.At(global));
    lua.RawSetTop(global, Token(k));
  }

  /** Stores a new table with weak values under the token. */
  method NewWeakRegistry(lua: LuaState, global: nat) returns (t: TableId)
    requires global >= 1 && lua.IsTable(global)
    modifies lua
    ensures lua.stack == old(lua.stack) && t !in old(lua.heap).tables
    ensures exists m :: (
              && m !in old(lua.heap).tables && m != t
              && lua.heap.tables
                 == old(lua.heap).tables[m := Table([(MODE, Str("v"))], None)][t := Table([], Some(m))][
                      old(lua.At(global)).t := Table(Assign(old(lua.TableAt(global)).entries, Token(Weak), TableRef(t)),
                                                     old(lua.TableAt(global)).meta)])
  {
    ghost var start := lua.stack;
    ghost var _ := lua.NewTable();
    t := lua.At(-1).t;
    WeakValues(lua, start, t);
    assert lua.At(global) == old(lua.At(global));
    lua.RawSetTop(global, Token(Weak));
  }

  /** Gives the table on top of the stack a metatable for weak values. */
  method WeakValues(lua: LuaState, ghost below: seq<Value>, ghost t: TableId)
    requires lua.stack == below + [TableRef(t)] && t in lua.heap.tables
    modifies lua
    ensures lua.stack == old(lua.stack)
    ensures exists m :: (
              && m !in old(lua.heap).tables && m != t
              && lua.heap.tables == old(lua.heap).tables[m := Table([(MODE, Str("v"))], None)][
                                      t := Table(old(lua.heap).tables[t].entries, Some(m))])
  {
    ghost var m := lua.NewTable();
    var meta := lua.GetTop();
    ghost var stack := lua.stack;
    lua.Push(MODE);
    lua.Push(Str("v"));
    assert lua.stack == stack + [MODE, Str("v")];
    assert lua.At(meta) == TableRef(m);
    lua.RawSet(meta, stack, MODE, Str("v"));
    assert lua.At(-2) == TableRef(t);
    lua.SetMetatable(-2);
  }

  /** A `Global` or `Weak` object. */
  class Ref {
    const kind: Kind
    var engine: LuaEngine?
    var index: nat

    predicate Valid()
      reads this, engine, if engine != null then {engine.lua} else {}
    {
      && (engine != null ==> engine.Valid())
      && (index != 0 ==> engine != null)
    }

    constructor (kind: Kind)
      ensures this.kind == kind && engine == null && index == 0
    {
      this.kind, engine, index := kind, null, 0;
    }

    /** From a Local of the current engine. */
    constructor FromLocal(kind: Kind, current: LuaEngine, local: nat)
      requires current.Valid() && local <= |current.lua.stack|
      modifies current, current.lua
      ensures this.kind == kind && engine == current && current.Valid()
      ensures current.lua.stack == old(current.lua.stack)
      ensures (current.View(), index)
              == LuaRegistry.Put(old(current.View()), kind, Local(old(current.lua.stack), local))
    {
      this.kind, engine := kind, current;
      var id := current.Put(local, kind);
      index := id;
    }

    /** From another handle, in the scope of its engine: the four copying constructors of Global and
        Weak. */
    constructor FromRef(kind: Kind, source: Ref, ghost current: LuaEngine)
      requires source.Valid() && (source.index != 0 ==> source.engine == current)
      requires source.kind == Strong && source.engine != null ==> source.index != 0
      modifies if source.engine != null then {source.engine, source.engine.lua} else {}
      ensures this.kind == kind && engine == source.engine && Valid()
      ensures engine == null ==> index == 0
      ensures engine != null ==>
                && engine.lua.stack == old(source.engine.lua.stack)
                && (engine.View(), index)
                   == LuaRegistry.Put(old(source.engine.View()), kind,
                                      LuaRegistry.Get(old(source.engine.View()), source.kind, source.index))
    {
      var e := source.engine;
      var id := 0;
      this.kind := kind;
      if e != null {
        var local := e.Get(source.index, source.kind);
        if local != 0 {
          id := e.Put(local, kind);
          e.lua.Pop(1);
        }
      }
      engine := e;
      index := id;
    }

    constructor Move(source: Ref)
      modifies source
      ensures kind == source.kind && engine == old(source.engine) && index == old(source.index)
      ensures source.engine == null && source.index == 0
    {
      kind, engine, index := source.kind, source.engine, source.index;
      new;
      source.engine, source.index := null, 0;
    }

    method Swap(rhs: Ref)
      modifies this, rhs
      ensures engine == old(rhs.engine) && index == old(rhs.index)
      ensures rhs.engine == old(engine) && rhs.index == old(index)
    {
      engine, rhs.engine := rhs.engine, engine;
      index, rhs.index := rhs.index, index;
    }

    /** `getValue`, in the scope of the handle's engine. */
    method GetValue(ghost current: LuaEngine) returns (local: nat)
      requires Valid() && (index != 0 ==> engine == current)
      modifies if engine != null then {engine.lua} else {}
      ensures Valid()
      ensures engine == null ==> local == 0
      ensures engine != null ==>
                var v := LuaRegistry.Get(old(engine.View()), kind, index);
                && engine.View() == old(engine.View())
                && (local == 0 <==> v == None)
                && engine.lua.stack == old(engine.lua.stack) + (if v.Some? then [v.value] else [])
                && (v.Some? ==> local == |engine.lua.stack|)
    {
      local := 0;
      if engine != null { local := engine.Get(index, kind); }
    }

    /** `reset`, while `current` is the current engine: a Weak removes its id from that engine's table. */
    method Reset(current: LuaEngine) returns (ok: bool)
      requires Valid() && current.Valid() && (engine != null && engine != current ==> engine.lua != current.lua)
      modifies this, current, current.lua, if engine != null then {engine, engine.lua} else {}
      ensures old(index) == 0 ==>
                ok && index == 0 && engine == old(engine) && current.Valid() && current.View() == old(current.View())
      ensures old(index) != 0 && ok ==> index == 0 && engine == null
      ensures old(index) != 0 && (kind == Weak || old(engine) == current) ==>
                && ok && current.Valid() && current.lua.stack == old(current.lua.stack)
                && current.View() == LuaRegistry.Remove(old(current.View()), kind, old(index))
      ensures old(index) != 0 && kind == Strong && old(engine) != current ==>
                var own: LuaEngine := old(engine);
                && ok == old(current.lua.IsTable(|own.lua.stack| + 2))
                && (ok ==> own.RemovedElsewhere(old(index), kind, current))
    {
      ok := true;
      if index != 0 {
        var from: LuaEngine := if kind == Strong then engine else current;
        ok := from.Remove(index, kind, current);
        if ok { index, engine := 0, null; }
      }
    }

    /** The destructor enters the handle's engine, if there is an id, and resets. */
    method Destroy()
      requires Valid()
      modifies this, if engine != null then {engine, engine.lua} else {}
      ensures old(index) == 0 ==>
                engine == old(engine) && (engine != null ==> engine.Valid() && engine.View() == old(engine.View()))
      ensures old(index) != 0 ==>
                var own: LuaEngine := old(engine);
                && index == 0 && engine == null && own.Valid() && own.lua.stack == old(own.lua.stack)
                && own.View() == LuaRegistry.Remove(old(own.View()), kind, old(index))
    {
      if index != 0 {
        var _ := Reset(engine);
      }
    }
  }
}
