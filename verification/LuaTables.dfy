/**
 The walks over Lua tables: `getKeys`, `judgeIsArray`, `luaCopyTable` and `instanceOf`, for every
 traversal order.
 */
module LuaTables {
  import opened Options
  import opened LuaVm

  /** The string keys among the entries, in traversal order. */
  function StringKeys(entries: seq<(Value, Value)>): (keys: seq<Value>) {
    if entries == [] then []
    else StringKeys(entries[..|entries| - 1])
         + if entries[|entries| - 1].0.Str? then [entries[|entries| - 1].0] else []
  }

  lemma {:induction false} StringKeysMeaning(entries: seq<(Value, Value)>, v: Value)
    ensures v in StringKeys(entries) <==> v.Str? && exists e <- entries :: e.0 == v
  {
    if entries != [] {
      var last := entries[|entries| - 1];
      StringKeysMeaning(entries[..|entries| - 1], v);
      assert forall e :: e in entries <==> e in entries[..|entries| - 1] || e == last;
    }
  }

  lemma {:induction false} StringKeysDistinct(entries: seq<(Value, Value)>)
    requires forall i, j | 0 <= i < j < |entries| :: entries[i].0 != entries[j].0
    ensures forall i, j | 0 <= i < j < |StringKeys(entries)| :: StringKeys(entries)[i] != StringKeys(entries)[j]
  {
    if entries != [] {
      var before := entries[..|entries| - 1];
      StringKeysDistinct(before);
      var last := entries[|entries| - 1].0;
      forall i | 0 <= i < |StringKeys(before)|
        ensures StringKeys(before)[i] != last
      {
        assert StringKeys(before)[i] in StringKeys(before);
        StringKeysMeaning(before, StringKeys(before)[i]);
      }
    }
  }

  /** `getKeys` finds exactly the string keys of the table, each once. */
  lemma KeysComplete(entries: seq<(Value, Value)>)
    requires EntriesOk(entries)
    ensures forall v: Value :: v in StringKeys(entries) <==> v.Str? && exists e <- entries :: e.0 == v
    ensures forall i, j | 0 <= i < j < |StringKeys(entries)| :: StringKeys(entries)[i] != StringKeys(entries)[j]
  {
    forall v: Value
      ensures v in StringKeys(entries) <==> v.Str? && exists e <- entries :: e.0 == v
    {
      StringKeysMeaning(entries, v);
    }
    forall i, j | 0 <= i < j < |entries|
      ensures entries[i].0 != entries[j].0
    {
      EntryOk(entries, j);
    }
    StringKeysDistinct(entries);
  }

  /** The slots above height `from` up to height `to`. */
  function Slots(from: nat, to: nat): (slots: seq<nat>) {
    if to <= from then [] else Slots(from, to - 1) + [to]
  }

  lemma {:induction false} SlotsMeaning(from: nat, to: nat)
    requires from <= to
    ensures |Slots(from, to)| == to - from
    ensures forall i | 0 <= i < to - from :: Slots(from, to)[i] == from + 1 + i
  {
    if from < to { SlotsMeaning(from, to - 1); }
  }

  /** What is on the stack when `done` entries have been visited: the string keys so far, and the
      next entry if there is one. */
  function Visited(start: seq<Value>, entries: seq<(Value, Value)>, done: nat): seq<Value>
    requires done <= |entries|
  {
    start + StringKeys(entries[..done]) + if done < |entries| then [entries[done].0, entries[done].1] else []
  }

  /** The slots of the string keys among the first `done` entries. */
  function KeySlots(from: nat, entries: seq<(Value, Value)>, done: nat): seq<nat>
    requires done <= |entries|
  {
    Slots(from, from + |StringKeys(entries[..done])|)
  }

  /** `Local<Object>::getKeys`: the stack grows by exactly the string keys, and the i-th Local is the
      slot that holds the i-th key. */
  method GetKeys(lua: LuaState, val: nat) returns (ret: seq<nat>)
    requires val >= 1 && lua.IsTable(val)
    modifies lua`stack
    ensures lua.stack == old(lua.stack) + StringKeys(old(lua.TableAt(val)).entries)
    ensures ret == Slots(|old(lua.stack)|, |lua.stack|)
  {
    ret := [];
    ghost var entries := lua.TableAt(val).entries;
    ghost var start := lua.stack;
    lua.Push(Nil);
    ghost var done := 0;
    var more := lua.Next(val, start, 0);
    NothingVisited(start, entries);
    while more
      invariant done <= |entries| && more == (done < |entries|)
      invariant lua.stack == Visited(start, entries, done)
      invariant ret == KeySlots(|start|, entries, done)
      decreases |entries| - done
    {
      more, ret := VisitKey(lua, val, start, done, ret);
      done := done + 1;
    }
    AllVisited(start, entries);
  }

  lemma AllVisited(start: seq<Value>, entries: seq<(Value, Value)>)
    ensures Visited(start, entries, |entries|) == start + StringKeys(entries)
    ensures KeySlots(|start|, entries, |entries|) == Slots(|start|, |start| + |StringKeys(entries)|)
  {
    assert entries[..|entries|] == entries;
  }

  lemma NothingVisited(start: seq<Value>, entries: seq<(Value, Value)>)
    ensures Visited(start, entries, 0) == start + if entries == [] then [] else [entries[0].0, entries[0].1]
    ensures KeySlots(|start|, entries, 0) == []
  {
  }

  lemma KeysStep(entries: seq<(Value, Value)>, done: nat)
    requires done < |entries|
    ensures StringKeys(entries[..done + 1])
            == StringKeys(entries[..done]) + if entries[done].0.Str? then [entries[done].0] else []
  {
    assert entries[..done + 1][..done] == entries[..done];
  }

  /** The loop body of `getKeys` and the step to the next key: a string key stays on the stack, and
      a copy of the key goes to lua_next. */
  method VisitKey(lua: LuaState, val: nat, ghost start: seq<Value>, ghost done: nat, keys: seq<nat>)
    returns (more: bool, ret: seq<nat>)
    requires 1 <= val <= |start| && lua.IsTable(val) && done < |lua.TableAt(val).entries|
    requires lua.stack == Visited(start, lua.TableAt(val).entries, done)
    requires keys == KeySlots(|start|, lua.TableAt(val).entries, done)
    modifies lua`stack
    ensures var entries := old(lua.TableAt(val)).entries;
            && more == (done + 1 < |entries|)
            && lua.stack == Visited(start, entries, done + 1)
            && ret == KeySlots(|start|, entries, done + 1)
  {
    ghost var entries := lua.TableAt(val).entries;
    ghost var kept := start + StringKeys(entries[..done]);
    ret := KeepStringKey(lua, |start|, kept, entries[done].0, entries[done].1, keys);
    KeysStep(entries, done);
    assert lua.stack == start + StringKeys(entries[..done + 1]) + [entries[done].0];
    more := lua.Next(val, start + StringKeys(entries[..done + 1]), done + 1);
  }

  method KeepStringKey(lua: LuaState, ghost from: nat, ghost kept: seq<Value>, ghost key: Value, ghost value: Value,
                       keys: seq<nat>)
    returns (ret: seq<nat>)
    requires lua.stack == kept + [key, value] && from <= |kept| && keys == Slots(from, |kept|)
    modifies lua`stack
    ensures lua.stack == kept + if key.Str? then [key, key] else [key]
    ensures ret == Slots(from, |kept| + if key.Str? then 1 else 0)
  {
    ret := keys;
    lua.Pop(1);
    assert lua.stack == kept + [key];
    if lua.At(-1).Str? {
      lua.PushValue(-1);
      ret := ret + [lua.AbsIndex(-2)];
    }
  }

  /** The keys read as the numbers 1, 2, 3, ... in the order of the traversal. */
  predicate CountsUp(toNumber: Value -> Option<real>, entries: seq<(Value, Value)>) {
    forall i | 0 <= i < |entries| :: toNumber(entries[i].0) == Some((i + 1) as real)
  }

  /** `judgeIsArray` leaves the stack alone and answers whether the keys count up. */
  method JudgeIsArray(lua: LuaState, index: nat) returns (isArray: bool)
    requires index >= 1 && lua.IsTable(index)
    modifies lua`stack
    ensures lua.stack == old(lua.stack)
    ensures isArray == CountsUp(v => lua.ToNumber(v), old(lua.TableAt(index)).entries)
  {
    var currentIndex := 0;
    ghost var entries := lua.TableAt(index).entries;
    ghost var start := lua.stack;
    lua.Push(Nil);
    ghost var done := 0;
    var more := lua.Next(index, start, 0);
    while more
      invariant done <= |entries| && more == (done < |entries|) && currentIndex == done
      invariant lua.stack == start + if more then [entries[done].0, entries[done].1] else []
      invariant forall i | 0 <= i < done :: lua.ToNumber(entries[i].0) == Some((i + 1) as real)
      decreases |entries| - done
    {
      lua.PushValue(-2);
      assert lua.stack == start + [entries[done].0, entries[done].1, entries[done].0];
      var number := lua.ToNumber(lua.At(-1));
      if number.Some? { currentIndex := currentIndex + 1; }
      if number.None? || number.value != currentIndex as real {
        lua.Pop(3);
        assert lua.ToNumber(entries[done].0) != Some((done + 1) as real);
        return false;
      }
      lua.Pop(2);
      assert lua.stack == start + [entries[done].0];
      more := lua.Next(index, start, done + 1);
      done := done + 1;
    }
    return true;
  }

  /** One entry after the other: the next key has to read as the next number. */
  lemma CountsUpStep(toNumber: Value -> Option<real>, entries: seq<(Value, Value)>, e: (Value, Value))
    ensures CountsUp(toNumber, [])
    ensures CountsUp(toNumber, entries + [e])
            <==> CountsUp(toNumber, entries) && toNumber(e.0) == Some((|entries| + 1) as real)
  {
    var all := entries + [e];
    assert all[|entries|] == e && forall i | 0 <= i < |entries| :: all[i] == entries[i];
  }

  /** The answer yes means that the table has exactly n entries, whose keys read as 1..n. */
  lemma CountsUpMeaning(toNumber: Value -> Option<real>, entries: seq<(Value, Value)>, r: real)
    requires CountsUp(toNumber, entries)
    ensures (exists e <- entries :: toNumber(e.0) == Some(r)) <==> 1.0 <= r <= |entries| as real && r == r.Floor as real
  {
    if 1.0 <= r <= |entries| as real && r == r.Floor as real {
      assert entries[r.Floor - 1] in entries;
    }
    if e :| e in entries && toNumber(e.0) == Some(r) {
      var i :| 0 <= i < |entries| && entries[i] == e;
      assert r == (i + 1) as real;
    }
  }

  // ---- luaCopyTable ----

  function Entries(h: Heap, t: TableId): seq<(Value, Value)> {
    if t in h.tables then h.tables[t].entries else []
  }

  function CopyInto(to: seq<(Value, Value)>, from: seq<(Value, Value)>): seq<(Value, Value)> {
    if from == [] then to
    else Assign(CopyInto(to, from[..|from| - 1]), from[|from| - 1].0, from[|from| - 1].1)
  }

  lemma {:induction false} CopyIntoOk(to: seq<(Value, Value)>, from: seq<(Value, Value)>, n: nat)
    requires EntriesOk(to) && EntriesOk(from) && n <= |from|
    ensures EntriesOk(CopyInto(to, from[..n]))
  {
    if n > 0 {
      CopyIntoOk(to, from, n - 1);
      EntryOk(from, n - 1);
      assert from[..n][..n - 1] == from[..n - 1];
      AssignOk(CopyInto(to, from[..n - 1]), from[n - 1].0, from[n - 1].1);
    }
  }

  /** The copy has the source's value for every key of the source and keeps its own other keys. */
  lemma {:induction false} CopyIntoMeaning(to: seq<(Value, Value)>, from: seq<(Value, Value)>, n: nat, key: Value)
    requires EntriesOk(to) && EntriesOk(from) && n <= |from|
    ensures Lookup(CopyInto(to, from[..n]), key) == if Has(from, n, key) then Lookup(from, key) else Lookup(to, key)
  {
    if n > 0 {
      CopyIntoMeaning(to, from, n - 1, key);
      CopyIntoOk(to, from, n - 1);
      assert from[..n][..n - 1] == from[..n - 1];
      AssignLookup(CopyInto(to, from[..n - 1]), from[n - 1].0, from[n - 1].1, key);
      LookupAt(from, n - 1);
      EntryOk(from, n - 1);
    }
  }

  predicate Has(entries: seq<(Value, Value)>, n: nat, key: Value)
    requires n <= |entries|
  {
    exists i :: 0 <= i < n && entries[i].0 == key
  }

  lemma {:induction false} AssignSame(entries: seq<(Value, Value)>, i: nat)
    requires EntriesOk(entries) && i < |entries|
    ensures Assign(entries, entries[i].0, entries[i].1) == entries
  {
    EntryOk(entries, i);
    if i > 0 {
      assert entries[1..][i - 1] == entries[i] && entries[0].0 != entries[i].0;
      AssignSame(entries[1..], i - 1);
    }
  }

  lemma {:induction false} CopyIntoSelf(entries: seq<(Value, Value)>, n: nat)
    requires EntriesOk(entries) && n <= |entries|
    ensures CopyInto(entries, entries[..n]) == entries
  {
    if n > 0 {
      assert entries[..n][..n - 1] == entries[..n - 1];
      CopyIntoSelf(entries, n - 1);
      AssignSame(entries, n - 1);
    }
  }

  /** `luaCopyTable` copies every entry of one table into another, leaves the stack alone, and
      changes no other table; copying a table into itself changes nothing. */
  method LuaCopyTable(lua: LuaState, from: nat, to: nat)
    requires from >= 1 && to >= 1 && lua.IsTable(from) && lua.IsTable(to)
    modifies lua
    ensures lua.stack == old(lua.stack)
    ensures lua.heap == WithEntries(old(lua.heap), old(lua.At(to)).t,
                                    CopyInto(old(lua.TableAt(to)).entries, old(lua.TableAt(from)).entries))
    ensures lua.heap.tables.Keys == old(lua.heap).tables.Keys
    ensures forall t <- lua.heap.tables.Keys | t != old(lua.At(to)).t :: lua.heap.tables[t] == old(lua.heap).tables[t]
    ensures forall key ::
              Lookup(lua.heap.tables[old(lua.At(to)).t].entries, key)
              == var v := Lookup(old(lua.TableAt(from)).entries, key);
                 if v != Nil then v else Lookup(old(lua.TableAt(to)).entries, key)
  {
    ghost var source := lua.TableAt(from).entries;
    ghost var start := lua.stack;
    ghost var before := lua.heap;
    ghost var done := 0;
    CopiedNothing(before, start[from - 1].t, start[to - 1].t);
    lua.Push(Nil);
    var more := lua.Next(from, start, 0);
    while more
      invariant done <= |source| && more == (done < |source|)
      invariant lua.stack == start + if more then [source[done].0, source[done].1] else []
      invariant lua.heap == Copied(before, start[from - 1].t, start[to - 1].t, done)
      decreases |source| - done
    {
      more := CopyStep(lua, from, to, start, before, done);
      done := done + 1;
    }
    assert source[..done] == source;
    CopyReads(before.tables[start[to - 1].t].entries, source);
  }

  lemma CopyReads(to: seq<(Value, Value)>, from: seq<(Value, Value)>)
    requires EntriesOk(to) && EntriesOk(from)
    ensures forall key ::
              Lookup(CopyInto(to, from), key) == var v := Lookup(from, key); if v != Nil then v else Lookup(to, key)
  {
    assert from[..|from|] == from;
    forall key
      ensures Lookup(CopyInto(to, from), key) == var v := Lookup(from, key); if v != Nil then v else Lookup(to, key)
    {
      CopyIntoMeaning(to, from, |from|, key);
      HasIsPresent(from, key);
    }
  }

  lemma HasIsPresent(entries: seq<(Value, Value)>, key: Value)
    requires EntriesOk(entries)
    ensures Has(entries, |entries|, key) <==> Lookup(entries, key) != Nil
  {
    if Has(entries, |entries|, key) {
      var i :| 0 <= i < |entries| && entries[i].0 == key;
      LookupAt(entries, i);
      EntryOk(entries, i);
    } else {
      LookupAbsent(entries, key);
    }
  }

  /** The heap after the first `done` entries of one table were copied into another. */
  function Copied(h: Heap, from: TableId, to: TableId, done: nat): RawHeap
    requires from in h.tables && to in h.tables && done <= |h.tables[from].entries|
  {
    WithEntries(h, to, CopyInto(h.tables[to].entries, h.tables[from].entries[..done]))
  }

  lemma CopiedNothing(h: Heap, from: TableId, to: TableId)
    requires from in h.tables && to in h.tables
    ensures Copied(h, from, to, 0) == h
  {
    assert h.tables[from].entries[..0] == [];
    assert h.tables[to := h.tables[to]] == h.tables;
  }

  lemma CopiedOne(h: Heap, from: TableId, to: TableId, done: nat)
    requires from in h.tables && to in h.tables && done < |h.tables[from].entries|
    ensures var entries := h.tables[from].entries;
            && Copied(h, from, to, done).tables[from].entries == entries
            && Copied(h, from, to, done + 1)
               == WithEntries(Copied(h, from, to, done), to,
                              Assign(Copied(h, from, to, done).tables[to].entries, entries[done].0, entries[done].1))
  {
    var entries := h.tables[from].entries;
    assert entries[..done + 1][..done] == entries[..done];
    if from == to { CopyIntoSelf(entries, done); }
    CopyIntoOk(h.tables[to].entries, entries, done);
  }

  /** The loop body and the step to the next key. */
  method CopyStep(lua: LuaState, from: nat, to: nat, ghost start: seq<Value>, ghost before: Heap, ghost done: nat)
    returns (more: bool)
    requires 1 <= from <= |start| && 1 <= to <= |start| && start[from - 1].TableRef? && start[to - 1].TableRef?
    requires start[from - 1].t in before.tables && start[to - 1].t in before.tables
    requires done < |before.tables[start[from - 1].t].entries|
    requires lua.heap == Copied(before, start[from - 1].t, start[to - 1].t, done)
    requires var e := before.tables[start[from - 1].t].entries[done]; lua.stack == start + [e.0, e.1]
    modifies lua
    ensures lua.heap == Copied(before, start[from - 1].t, start[to - 1].t, done + 1)
    ensures var entries := before.tables[start[from - 1].t].entries;
            && more == (done + 1 < |entries|)
            && lua.stack == start + if more then [entries[done + 1].0, entries[done + 1].1] else []
  {
    ghost var f, t := start[from - 1].t, start[to - 1].t;
    ghost var entries := before.tables[f].entries;
    EntryOk(entries, done);
    CopiedOne(before, f, t, done);
    CopyEntry(lua, to, start, entries[done].0, entries[done].1);
    assert lua.heap == Copied(before, f, t, done + 1);
    CopiedEntries(before, f, t, done + 1);
    assert lua.TableAt(from).entries == entries;
    more := lua.Next(from, start, done + 1);
  }

  lemma CopiedEntries(h: Heap, from: TableId, to: TableId, done: nat)
    requires from in h.tables && to in h.tables && done <= |h.tables[from].entries|
    ensures Copied(h, from, to, done).tables[from].entries == h.tables[from].entries
  {
    if from == to { CopyIntoSelf(h.tables[from].entries, done); }
  }

  /** The heap with the entries of one table replaced. */
  function WithEntries(h: RawHeap, t: TableId, entries: seq<(Value, Value)>): RawHeap
    requires t in h.tables
  {
    RawHeap(h.tables[t := Table(entries, h.tables[t].meta)], h.next)
  }

  /** The loop body: duplicates the key under the value and assigns; the key stays for lua_next. */
  method CopyEntry(lua: LuaState, to: nat, ghost below: seq<Value>, ghost key: Value, ghost value: Value)
    requires 1 <= to <= |below| && lua.stack == below + [key, value] && lua.IsTable(to) && key != Nil
    modifies lua
    ensures lua.stack == below + [key]
    ensures lua.heap == WithEntries(old(lua.heap), old(lua.At(to)).t, Assign(old(lua.TableAt(to)).entries, key, value))
  {
    lua.PushValue(-2);
    assert lua.stack == below + [key, value, key];
    lua.Insert(-2);
    assert lua.stack == (below + [key]) + [key, value];
    lua.RawSet(to, below + [key], key, value);
  }

  // ---- instanceOf ----

  /** The key under which a native class keeps its class define. */
  const CLASS_DEFINE_TOKEN: nat := 1

  /** `lua_touserdata`: the null pointer for what is no userdata. */
  function ToUserdata(v: Value): (p: nat)
    ensures p != 0 ==> v == Ptr(p)
  {
    if v.Ptr? then v.p else 0
  }

  /** The table carries this class define, which is not null. */
  predicate Carries(entries: seq<(Value, Value)>, classDefine: nat) {
    classDefine != 0 && Lookup(entries, Ptr(CLASS_DEFINE_TOKEN)) == Ptr(classDefine)
  }

  /** `LuaEngine::isInstanceOf` with a class define. */
  method IsInstanceOfDefine(lua: LuaState, classDefine: nat, selfIndex: nat) returns (r: bool)
    requires selfIndex <= |lua.stack|
    modifies lua`stack
    ensures lua.stack == old(lua.stack)
    ensures r == (selfIndex != 0 && old(lua.IsTable(selfIndex))
                  && Carries(old(lua.TableAt(selfIndex)).entries, classDefine))
  {
    if selfIndex == 0 || classDefine == 0 { return false; }
    if !lua.IsTable(selfIndex) { return false; }
    lua.RawGet(selfIndex, Ptr(CLASS_DEFINE_TOKEN));
    var ptr := ToUserdata(lua.At(-1));
    lua.Pop(1);
    r := ptr == classDefine;
  }

  /** `LuaEngine::isInstanceOf` with a class table. */
  method IsInstanceOfClass(lua: LuaState, classIndex: nat, selfIndex: nat) returns (r: bool)
    requires classIndex <= |lua.stack| && selfIndex <= |lua.stack|
    modifies lua`stack
    ensures lua.stack == old(lua.stack)
    ensures r == (classIndex != 0 && selfIndex != 0 && old(lua.IsTable(classIndex)) && old(lua.IsTable(selfIndex))
                  && SameClass(old(lua.TableAt(selfIndex)).entries, old(lua.TableAt(classIndex)).entries))
  {
    if classIndex == 0 { return false; }
    if !lua.IsTable(classIndex) { return false; }
    lua.RawGet(classIndex, Ptr(CLASS_DEFINE_TOKEN));
    var classDefine := ToUserdata(lua.At(-1));
    lua.Pop(1);
    assert lua.stack == old(lua.stack);
    r := IsInstanceOfDefine(lua, classDefine, selfIndex);
  }

  function Metatable(h: Heap, v: Value): Value {
    if v.TableRef? && v.t in h.tables && h.tables[v.t].meta.Some? then TableRef(h.tables[v.t].meta.value) else Nil
  }

  /** The k-th metatable of a value, nil past the end of the chain. */
  function Meta(h: Heap, v: Value, k: nat): Value {
    if k == 0 then v else Metatable(h, Meta(h, v, k - 1))
  }

  /** The walk up the metatables of v, looking for `target`, is over after k steps. */
  predicate StopsAt(h: Heap, v: Value, target: Value, k: nat) {
    k >= 1 && (Meta(h, v, k) == Nil || Meta(h, v, k) == target)
  }

  /** `Local<Object>::instanceOf`: the class defines agree, or the type is one of the object's
      metatables.  Only if the type is a table of another class does it walk up the metatables, in
      `steps` steps; `InstanceOfEnds` says when there is such a number. */
  method InstanceOf(lua: LuaState, val: nat, typeIndex: nat, ghost steps: nat) returns (r: bool)
    requires val >= 1 && lua.IsTable(val) && typeIndex <= |lua.stack|
    requires Walks(lua.heap, lua.At(val), Type(lua.stack, typeIndex)) ==>
               StopsAt(lua.heap, lua.At(val), lua.At(typeIndex), steps)
    modifies lua`stack
    ensures lua.stack == old(lua.stack)
    ensures r == (typeIndex != 0 && old(lua.IsTable(typeIndex)) &&
                  (|| SameClass(old(lua.TableAt(val)).entries, old(lua.TableAt(typeIndex)).entries)
                   || OnChain(lua.heap, old(lua.At(val)), old(lua.At(typeIndex)))))
  {
    if typeIndex == 0 || !lua.IsTable(typeIndex) { return false; }
    var isInstance := IsInstanceOfClass(lua, val, typeIndex);
    if isInstance { return true; }
    r := WalkMetatables(lua, val, typeIndex, steps);
  }

  /** The type given to `instanceOf`; a null Local is no value, here nil. */
  function Type(stack: seq<Value>, typeIndex: nat): Value
    requires typeIndex <= |stack|
  {
    if typeIndex == 0 then Nil else stack[typeIndex - 1]
  }

  /** `instanceOf` has to look at the metatables: the type is a table, and its class define is not the
      object's. */
  predicate Walks(h: Heap, v: Value, type_: Value) {
    type_.TableRef? && type_.t in h.tables && !SameClass(Entries(h, RefOf(v)), Entries(h, type_.t))
  }

  function RefOf(v: Value): TableId {
    if v.TableRef? then v.t else 0
  }

  /** Termination of `instanceOf`, exactly: it ends unless the type is a table of another class and the
      metatables come round before meeting it, and then it never does. */
  lemma InstanceOfEnds(h: Heap, v: Value, type_: Value)
    ensures (Walks(h, v, type_) ==> exists k: nat :: StopsAt(h, v, type_, k))
            <==> !Walks(h, v, type_) || !Cycles(h, v, type_)
  {
    StopsUnlessCyclic(h, v, type_);
  }

  /** Both tables carry the same class define. */
  predicate SameClass(self: seq<(Value, Value)>, class_: seq<(Value, Value)>) {
    var c := Lookup(class_, Ptr(CLASS_DEFINE_TOKEN));
    c.Ptr? && c.p != 0 && Lookup(self, Ptr(CLASS_DEFINE_TOKEN)) == c
  }

  /** Looked up by hand: two tables with the same pointer under the token are of the same class; if one of
      them has none there, or a null one, or they differ, they are not. */
  lemma ClassDefines(self: seq<(Value, Value)>, class_: seq<(Value, Value)>, p: nat, q: nat)
    ensures Lookup(self, Ptr(CLASS_DEFINE_TOKEN)) == Ptr(p) && Lookup(class_, Ptr(CLASS_DEFINE_TOKEN)) == Ptr(q) ==>
              (SameClass(self, class_) <==> p == q && p != 0)
    ensures !Lookup(self, Ptr(CLASS_DEFINE_TOKEN)).Ptr? || !Lookup(class_, Ptr(CLASS_DEFINE_TOKEN)).Ptr? ==>
              !SameClass(self, class_)
    ensures SameClass(self, class_) <==> exists c: nat :: Carries(self, c) && Carries(class_, c)
  {
    if SameClass(self, class_) {
      var c := Lookup(class_, Ptr(CLASS_DEFINE_TOKEN)).p;
      assert Carries(self, c) && Carries(class_, c);
    }
  }

  /** The target is among the metatables of v. */
  ghost predicate OnChain(h: Heap, v: Value, target: Value) {
    exists k: nat :: k >= 1 && Meta(h, v, k) == target
  }

  /** Step by step: a value without a metatable has nothing on its chain, another one has its metatable and
      what is on that one's chain. */
  lemma OnChainStep(h: Heap, v: Value, target: TableId)
    ensures (!v.TableRef? || v.t !in h.tables || h.tables[v.t].meta.None?) ==> !OnChain(h, v, TableRef(target))
    ensures v.TableRef? && v.t in h.tables && h.tables[v.t].meta.Some? ==>
              var m := h.tables[v.t].meta.value;
              OnChain(h, v, TableRef(target)) <==> m == target || OnChain(h, TableRef(m), TableRef(target))
  {
    assert Meta(h, v, 1) == Metatable(h, Meta(h, v, 0));
    if !v.TableRef? || v.t !in h.tables || h.tables[v.t].meta.None? {
      forall k: nat | k >= 1 ensures Meta(h, v, k) == Nil { NilStays(h, v, 1, k); }
    } else {
      var m := TableRef(h.tables[v.t].meta.value);
      forall k: nat ensures Meta(h, v, k + 1) == Meta(h, m, k) { MetaOnwards(h, v, k); }
      if OnChain(h, v, TableRef(target)) {
        var k: nat :| k >= 1 && Meta(h, v, k) == TableRef(target);
        assert Meta(h, v, k - 1 + 1) == Meta(h, m, k - 1);
      }
      if OnChain(h, m, TableRef(target)) {
        var k: nat :| k >= 1 && Meta(h, m, k) == TableRef(target);
        assert Meta(h, v, k + 1) == Meta(h, m, k);
      }
    }
  }

  lemma {:induction false} MetaOnwards(h: Heap, v: Value, k: nat)
    ensures Meta(h, v, k + 1) == Meta(h, Metatable(h, v), k)
  {
    if k > 0 { MetaOnwards(h, v, k - 1); } else { assert Meta(h, v, 1) == Metatable(h, Meta(h, v, 0)); }
  }

  /** When `instanceOf` walks: of two tables, unless both carry the same class define; and for a type that
      is no table, never. */
  lemma WalksExactly(h: Heap, v: Value, type_: Value)
    requires v.TableRef? && v.t in h.tables
    ensures Walks(h, v, type_) <==>
            && type_.TableRef? && type_.t in h.tables
            && forall c: nat :: !(Carries(h.tables[v.t].entries, c) && Carries(h.tables[type_.t].entries, c))
  {
    if type_.TableRef? && type_.t in h.tables {
      ClassDefines(h.tables[v.t].entries, h.tables[type_.t].entries, 0, 0);
    }
  }

  /** The loop of `instanceOf` up the metatables. */
  method WalkMetatables(lua: LuaState, val: nat, typeIndex: nat, ghost steps: nat) returns (r: bool)
    requires val >= 1 && lua.IsTable(val) && typeIndex >= 1 && lua.IsTable(typeIndex)
    requires StopsAt(lua.heap, lua.At(val), lua.At(typeIndex), steps)
    modifies lua`stack
    ensures lua.stack == old(lua.stack)
    ensures r == OnChain(lua.heap, old(lua.At(val)), old(lua.At(typeIndex)))
  {
    ghost var start := lua.stack;
    ghost var v, target := lua.At(val), lua.At(typeIndex);
    lua.PushValue(val);
    var meta := lua.GetTop();
    ghost var k := 0;
    var has := lua.GetMetatable(meta);
    assert has == (Meta(lua.heap, v, 1) != Nil);
    while has
      invariant has == (Meta(lua.heap, v, k + 1) != Nil)
      invariant lua.stack == start + [Meta(lua.heap, v, k)] + if has then [Meta(lua.heap, v, k + 1)] else []
      invariant NotStopped(lua.heap, v, target, k)
      decreases steps - k
    {
      var met := Climb(lua, meta, typeIndex, start, Meta(lua.heap, v, k));
      k := k + 1;
      if met { return true; }
      has := lua.GetMetatable(meta);
      assert has == (Meta(lua.heap, v, k + 1) != Nil);
    }
    lua.Pop(1);
    assert lua.stack == start;
    NeverMet(lua.heap, v, target, k);
    return false;
  }

  /** Replaces the value on top by its metatable and compares; a match ends the walk. */
  method Climb(lua: LuaState, meta: nat, typeIndex: nat, ghost start: seq<Value>, ghost current: Value)
    returns (met: bool)
    requires meta == |start| + 1 && 1 <= typeIndex <= |start|
    requires lua.stack == start + [current, Metatable(lua.heap, current)]
    modifies lua`stack
    ensures met == (Metatable(lua.heap, current) == start[typeIndex - 1])
    ensures lua.stack == start + if met then [] else [Metatable(lua.heap, current)]
  {
    lua.Replace(meta);
    assert lua.stack == start + [Metatable(lua.heap, current)];
    met := lua.At(meta) == lua.At(typeIndex);
    if met { lua.Pop(1); }
  }

  lemma NeverMet(h: Heap, v: Value, target: Value, k: nat)
    requires NotStopped(h, v, target, k) && Meta(h, v, k + 1) == Nil && target != Nil
    ensures !OnChain(h, v, target)
  {
    forall j: nat | j >= 1
      ensures Meta(h, v, j) != target
    {
      if j > k { NilStays(h, v, k + 1, j); } else { assert !StopsAt(h, v, target, j); }
    }
  }

  lemma {:induction false} NilStays(h: Heap, v: Value, k: nat, j: nat)
    requires k <= j && Meta(h, v, k) == Nil
    ensures Meta(h, v, j) == Nil
    decreases j - k
  {
    if k < j { NilStays(h, v, k + 1, j); }
  }

  /** A metatable that comes round again before the walk has met the type. */
  ghost predicate Cycles(h: Heap, v: Value, target: Value) {
    exists p: nat, q: nat :: p < q && Meta(h, v, p) == Meta(h, v, q) && NotStopped(h, v, target, q)
  }

  ghost predicate NotStopped(h: Heap, v: Value, target: Value, n: nat) {
    forall j | 1 <= j <= n :: !StopsAt(h, v, target, j)
  }

  lemma {:induction false} Repeats(h: Heap, v: Value, p: nat, q: nat, i: nat)
    requires p < q && Meta(h, v, p) == Meta(h, v, q)
    ensures Meta(h, v, p + i) == Meta(h, v, q + i)
  {
    if i > 0 { Repeats(h, v, p, q, i - 1); }
  }

  lemma {:induction false} CycleNeverStops(h: Heap, v: Value, target: Value, p: nat, q: nat, n: nat)
    requires p < q && Meta(h, v, p) == Meta(h, v, q) && NotStopped(h, v, target, q)
    ensures !StopsAt(h, v, target, n)
  {
    if n > q {
      Repeats(h, v, p, q, n - q);
      CycleNeverStops(h, v, target, p, q, n - q + p);
    }
  }

  function Visits(h: Heap, v: Value, n: nat): set<Value> {
    if n == 0 then {} else Visits(h, v, n - 1) + {Meta(h, v, n - 1)}
  }

  /** The step at which the walk was at x. */
  function VisitedAt(h: Heap, v: Value, n: nat, x: Value): (k: nat)
    requires x in Visits(h, v, n)
    ensures k < n && Meta(h, v, k) == x
  {
    if x == Meta(h, v, n - 1) then n - 1 else VisitedAt(h, v, n - 1, x)
  }

  lemma NextIsNew(h: Heap, v: Value, target: Value, n: nat)
    requires NotStopped(h, v, target, n) && !Cycles(h, v, target)
    ensures Meta(h, v, n) !in Visits(h, v, n)
  {
    if Meta(h, v, n) in Visits(h, v, n) {
      var k := VisitedAt(h, v, n, Meta(h, v, n));
    }
  }

  lemma AllTables(h: Heap, v: Value, target: Value, n: nat)
    requires NotStopped(h, v, target, n + 1)
    ensures Meta(h, v, n).TableRef? && Meta(h, v, n).t in h.tables
  {
    assert !StopsAt(h, v, target, n + 1);
    assert Meta(h, v, n + 1) == Metatable(h, Meta(h, v, n));
  }

  lemma {:induction false} ManyTables(h: Heap, v: Value, target: Value, n: nat)
    requires NotStopped(h, v, target, n) && !Cycles(h, v, target)
    ensures |Visits(h, v, n)| == n
  {
    if n > 0 {
      NotStoppedBefore(h, v, target, n);
      ManyTables(h, v, target, n - 1);
      NextIsNew(h, v, target, n - 1);
    }
  }

  lemma NotStoppedBefore(h: Heap, v: Value, target: Value, n: nat)
    requires n > 0 && NotStopped(h, v, target, n)
    ensures NotStopped(h, v, target, n - 1)
  {
  }

  lemma {:induction false} OnlyTables(h: Heap, v: Value, target: Value, n: nat)
    requires NotStopped(h, v, target, n)
    ensures Visits(h, v, n) <= set t <- h.tables.Keys :: TableRef(t)
  {
    if n > 0 {
      NotStoppedBefore(h, v, target, n);
      OnlyTables(h, v, target, n - 1);
      AllTables(h, v, target, n - 1);
    }
  }

  lemma {:induction false} RefsSize(ts: set<TableId>)
    ensures |set t <- ts :: TableRef(t)| == |ts|
  {
    if ts != {} {
      var t :| t in ts;
      RefsSize(ts - {t});
      assert (set u <- ts :: TableRef(u)) == (set u <- ts - {t} :: TableRef(u)) + {TableRef(t)};
    }
  }

  /** Termination of `instanceOf`, exactly: the walk stops unless the chain of metatables comes round
      before meeting the type, and then it never does. */
  lemma StopsUnlessCyclic(h: Heap, v: Value, target: Value)
    ensures (exists k: nat :: StopsAt(h, v, target, k)) <==> !Cycles(h, v, target)
  {
    if Cycles(h, v, target) {
      var p: nat, q: nat :| p < q && Meta(h, v, p) == Meta(h, v, q) && NotStopped(h, v, target, q);
      forall k: nat ensures !StopsAt(h, v, target, k) { CycleNeverStops(h, v, target, p, q, k); }
    } else if forall k: nat :: !StopsAt(h, v, target, k) {
      var n := |h.tables| + 1;
      ManyTables(h, v, target, n);
      OnlyTables(h, v, target, n);
      RefsSize(h.tables.Keys);
      Subset(Visits(h, v, n), set t <- h.tables.Keys :: TableRef(t));
      assert false;
    }
  }

  /** A table that is its own metatable makes `instanceOf` run forever for any other type. */
  lemma OwnMetatable(h: Heap, t: TableId, target: Value, k: nat)
    requires t in h.tables && h.tables[t].meta == Some(t) && target != TableRef(t)
    ensures !StopsAt(h, TableRef(t), target, k)
  {
    assert Meta(h, TableRef(t), 1) == Metatable(h, Meta(h, TableRef(t), 0));
    CycleNeverStops(h, TableRef(t), target, 0, 1, k);
  }
}
