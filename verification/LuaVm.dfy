/**
 The Lua state a `Local<T>` points into: the value stack and the tables, with the calls of
 section 4.6 of the Lua 5.4 Reference Manual that ScriptX makes.

 A table is the list of its entries in the order `lua_next` visits them; that order is arbitrary,
 so what is proved for every table holds for every traversal order.
 */
module LuaVm {
  import opened Options

  type TableId = nat

  datatype Value =
    | Nil
    | Bool(b: bool)
    | Num(n: real)
    | Str(s: string)
    | Ptr(p: nat)              // light userdata; 0 is the null pointer
    | Fn(f: nat)
    | TableRef(t: TableId)

  /** An integer key. */
  function Int(k: int): Value {
    Num(k as real)
  }

  datatype Table = Table(entries: seq<(Value, Value)>, meta: Option<TableId>)

  /** No nil key, no nil value, no key twice. */
  predicate EntriesOk(entries: seq<(Value, Value)>) {
    entries != [] ==>
      && entries[0].0 != Nil && entries[0].1 != Nil
      && (forall e <- entries[1..] :: e.0 != entries[0].0)
      && EntriesOk(entries[1..])
  }

  function Lookup(entries: seq<(Value, Value)>, key: Value): Value {
    if entries == [] then Nil
    else if entries[0].0 == key then entries[0].1
    else Lookup(entries[1..], key)
  }

  /** Raw assignment; assigning nil removes the entry. */
  function Assign(entries: seq<(Value, Value)>, key: Value, value: Value): seq<(Value, Value)> {
    if entries == [] then (if value == Nil then [] else [(key, value)])
    else if entries[0].0 == key then (if value == Nil then entries[1..] else [(key, value)] + entries[1..])
    else [entries[0]] + Assign(entries[1..], key, value)
  }

  /** The tables, each with an id below `next`. */
  datatype RawHeap = RawHeap(tables: map<TableId, Table>, next: TableId)

  predicate HeapOk(h: RawHeap) {
    forall t <- h.tables.Keys :: t < h.next && EntriesOk(h.tables[t].entries)
  }

  type Heap = h: RawHeap | HeapOk(h) witness RawHeap(map[], 0)

  /** What calling a value with arguments does: the callee may change any table. */
  datatype CallResult = Returned(values: seq<Value>, heap: Heap) | Raised(error: Value, heap: Heap)

  // ---- facts about entries ----

  lemma {:induction false} LookupAt(entries: seq<(Value, Value)>, i: nat)
    requires EntriesOk(entries) && i < |entries|
    ensures Lookup(entries, entries[i].0) == entries[i].1
  {
    if i > 0 {
      assert entries[1..][i - 1] == entries[i];
      assert entries[i] in entries[1..];
      LookupAt(entries[1..], i - 1);
    }
  }

  lemma {:induction false} EntryOk(entries: seq<(Value, Value)>, i: nat)
    requires EntriesOk(entries) && i < |entries|
    ensures entries[i].0 != Nil && entries[i].1 != Nil
    ensures forall j | 0 <= j < i :: entries[j].0 != entries[i].0
  {
    if i > 0 {
      EntryOk(entries[1..], i - 1);
      assert entries[i] in entries[1..];
      assert forall j | 1 <= j < i :: entries[j] == entries[1..][j - 1];
    }
  }

  lemma {:induction false} LookupAbsent(entries: seq<(Value, Value)>, key: Value)
    requires forall i | 0 <= i < |entries| :: entries[i].0 != key
    ensures Lookup(entries, key) == Nil
  {
    if entries != [] { LookupAbsent(entries[1..], key); }
  }

  lemma {:induction false} AssignKeys(entries: seq<(Value, Value)>, key: Value, value: Value)
    ensures forall e <- Assign(entries, key, value) :: e in entries || (value != Nil && e == (key, value))
  {
    if entries != [] && entries[0].0 != key { AssignKeys(entries[1..], key, value); }
  }

  lemma {:induction false} AssignOk(entries: seq<(Value, Value)>, key: Value, value: Value)
    requires EntriesOk(entries) && key != Nil
    ensures EntriesOk(Assign(entries, key, value))
  {
    if entries != [] && entries[0].0 != key {
      AssignOk(entries[1..], key, value);
      AssignKeys(entries[1..], key, value);
      assert Assign(entries, key, value)[1..] == Assign(entries[1..], key, value);
    } else if entries != [] && value != Nil {
      assert Assign(entries, key, value)[1..] == entries[1..];
    }
  }

  /** Assignment is assignment. */
  lemma {:induction false} AssignLookup(entries: seq<(Value, Value)>, key: Value, value: Value, other: Value)
    requires EntriesOk(entries)
    ensures Lookup(Assign(entries, key, value), other) == if other == key then value else Lookup(entries, other)
  {
    if entries != [] {
      if entries[0].0 != key {
        AssignLookup(entries[1..], key, value, other);
        assert Assign(entries, key, value)[1..] == Assign(entries[1..], key, value);
      } else if value == Nil {
        if other == key { LookupAbsent(entries[1..], key); }
      } else {
        assert Assign(entries, key, value)[1..] == entries[1..];
      }
    }
  }

  /** A border: n is 0 or a key that is present, and the next integer is not. */
  predicate Border(entries: seq<(Value, Value)>, n: nat) {
    && (n == 0 || Lookup(entries, Int(n)) != Nil)
    && Lookup(entries, Int(n + 1)) == Nil
  }

  lemma {:induction false} PresentKey(entries: seq<(Value, Value)>, key: Value)
    requires Lookup(entries, key) != Nil
    ensures exists i :: 0 <= i < |entries| && entries[i].0 == key
  {
    if entries[0].0 != key {
      PresentKey(entries[1..], key);
      var i :| 0 <= i < |entries[1..]| && entries[1..][i].0 == key;
      assert entries[i + 1].0 == key;
    }
  }

  function Integers(n: nat): set<Value> {
    set k | 1 <= k <= n :: Int(k)
  }

  lemma {:induction false} IntegersSize(n: nat)
    ensures |Integers(n)| == n
  {
    if n > 0 {
      IntegersSize(n - 1);
      assert Integers(n) == Integers(n - 1) + {Int(n)};
    }
  }

  lemma {:induction false} KeysSize(entries: seq<(Value, Value)>)
    ensures |set e <- entries :: e.0| <= |entries|
  {
    if entries != [] {
      KeysSize(entries[1..]);
      assert (set e <- entries :: e.0) == {entries[0].0} + set e <- entries[1..] :: e.0;
    }
  }

  lemma BorderBound(entries: seq<(Value, Value)>, n: nat)
    requires forall k | 1 <= k <= n :: Lookup(entries, Int(k)) != Nil
    ensures n <= |entries|
  {
    IntegersSize(n);
    KeysSize(entries);
    var keys := set e <- entries :: e.0;
    forall v | v in Integers(n)
      ensures v in keys
    {
      PresentKey(entries, v);
      var i :| 0 <= i < |entries| && entries[i].0 == v;
      assert entries[i] in entries;
    }
    Subset(Integers(n), keys);
  }

  lemma {:induction false} Subset<T>(a: set<T>, b: set<T>)
    requires a <= b
    ensures |a| <= |b|
  {
    if a != {} {
      var x :| x in a;
      Subset(a - {x}, b - {x});
    }
  }

  /** Index of the entry after `key` in traversal order; the traversal starts at nil. */
  function NextIndex(entries: seq<(Value, Value)>, key: Value): nat {
    if key == Nil then 0
    else if entries == [] then 0
    else if entries[0].0 == key then 1
    else 1 + NextIndex(entries[1..], key)
  }

  lemma {:induction false} NextIndexAt(entries: seq<(Value, Value)>, i: nat)
    requires EntriesOk(entries) && i < |entries|
    ensures NextIndex(entries, entries[i].0) == i + 1 && entries[i].0 != Nil
  {
    if i > 0 {
      assert entries[1..][i - 1] == entries[i];
      assert entries[i] in entries[1..];
      NextIndexAt(entries[1..], i - 1);
    }
  }

  class LuaState {
    var stack: seq<Value>
    var heap: Heap

    /** What calls do, and how strings read as numbers: any behaviour at all. */
    const callee: (Value, seq<Value>, Heap) -> CallResult
    const strToNumber: string -> Option<real>

    constructor (callee: (Value, seq<Value>, Heap) -> CallResult, strToNumber: string -> Option<real>)
      ensures stack == [] && heap == RawHeap(map[], 0)
      ensures this.callee == callee && this.strToNumber == strToNumber
    {
      this.callee, this.strToNumber := callee, strToNumber;
      stack, heap := [], RawHeap(map[], 0);
    }

    /** An acceptable index: counted from the bottom, or from the top if negative. */
    predicate Valid(i: int)
      reads this
    {
      1 <= i <= |stack| || -|stack| <= i <= -1
    }

    function AbsIndex(i: int): (r: nat)
      requires Valid(i)
      reads this
      ensures 1 <= r <= |stack|
    {
      if i > 0 then i else |stack| + i + 1
    }

    function At(i: int): Value
      requires Valid(i)
      reads this
    {
      stack[AbsIndex(i) - 1]
    }

    predicate IsTable(i: int)
      reads this
    {
      Valid(i) && At(i).TableRef? && At(i).t in heap.tables
    }

    function TableAt(i: int): Table
      requires IsTable(i)
      reads this
    {
      heap.tables[At(i).t]
    }

    function GetTop(): (n: nat)
      reads this
    {
      |stack|
    }

    method SetTop(n: nat)
      modifies this`stack
      ensures stack == if n <= |old(stack)| then old(stack)[..n] else old(stack) + seq(n - |old(stack)|, _ => Nil)
    {
      if n <= |stack| { stack := stack[..n]; } else { stack := stack + seq(n - |stack|, _ => Nil); }
    }

    method Pop(n: nat)
      requires n <= |stack|
      modifies this`stack
      ensures stack == old(stack)[..|old(stack)| - n]
    {
      stack := stack[..|stack| - n];
    }

    method Push(v: Value)
      modifies this`stack
      ensures stack == old(stack) + [v]
    {
      stack := stack + [v];
    }

    method PushValue(i: int)
      requires Valid(i)
      modifies this`stack
      ensures stack == old(stack) + [old(At(i))]
    {
      stack := stack + [At(i)];
    }

    /** Moves the top element into position i, shifting up the elements above. */
    method Insert(i: int)
      requires Valid(i)
      modifies this`stack
      ensures stack == old(stack)[..old(AbsIndex(i)) - 1] + [old(stack)[|old(stack)| - 1]]
                       + old(stack)[old(AbsIndex(i)) - 1..|old(stack)| - 1]
    {
      var k := AbsIndex(i) - 1;
      stack := stack[..k] + [stack[|stack| - 1]] + stack[k..|stack| - 1];
    }

    /** Removes the element at position i, shifting down the elements above. */
    method Remove(i: int)
      requires Valid(i)
      modifies this`stack
      ensures stack == old(stack)[..old(AbsIndex(i)) - 1] + old(stack)[old(AbsIndex(i))..]
    {
      var k := AbsIndex(i);
      stack := stack[..k - 1] + stack[k..];
    }

    /** Moves the top element into position i, without shifting, and pops it. */
    method Replace(i: int)
      requires Valid(i)
      modifies this`stack
      ensures stack == old(stack)[old(AbsIndex(i)) - 1 := old(stack)[|old(stack)| - 1]][..|old(stack)| - 1]
    {
      stack := stack[AbsIndex(i) - 1 := stack[|stack| - 1]][..|stack| - 1];
    }

    /** Pops a table and makes it the metatable of the table at i. */
    method SetMetatable(i: int)
      requires |stack| > 0 && stack[|stack| - 1].TableRef? && IsTable(i)
      modifies this
      ensures stack == old(stack)[..|old(stack)| - 1]
      ensures heap == RawHeap(old(heap).tables[old(At(i)).t := Table(old(TableAt(i)).entries,
                                                                     Some(old(stack)[|old(stack)| - 1].t))],
                              old(heap).next)
    {
      var id, meta := At(i).t, stack[|stack| - 1].t;
      heap := RawHeap(heap.tables[id := Table(TableAt(i).entries, Some(meta))], heap.next);
      stack := stack[..|stack| - 1];
    }

    method NewTable() returns (ghost id: TableId)
      modifies this
      ensures id !in old(heap).tables && stack == old(stack) + [TableRef(id)]
      ensures heap == RawHeap(old(heap).tables[id := Table([], None)], old(heap).next + 1)
    {
      id := heap.next;
      stack := stack + [TableRef(heap.next)];
      heap := RawHeap(heap.tables[heap.next := Table([], None)], heap.next + 1);
    }

    /** t[key] without metamethods. */
    method RawGet(i: int, key: Value)
      requires IsTable(i)
      modifies this`stack
      ensures stack == old(stack) + [Lookup(old(TableAt(i)).entries, key)]
    {
      stack := stack + [Lookup(TableAt(i).entries, key)];
    }

    /** t[key] = v without metamethods, where v is the top of the stack, which is popped. */
    method RawSetTop(i: int, key: Value)
      requires IsTable(i) && key != Nil
      modifies this
      ensures stack == old(stack)[..|old(stack)| - 1]
      ensures heap == RawHeap(old(heap).tables[
                                old(At(i)).t := Table(
                                  Assign(old(TableAt(i)).entries, key, old(stack)[|old(stack)| - 1]),
                                  old(TableAt(i)).meta)],
                              old(heap).next)
    {
      var id := At(i).t;
      var t := TableAt(i);
      AssignOk(t.entries, key, stack[|stack| - 1]);
      heap := RawHeap(heap.tables[id := Table(Assign(t.entries, key, stack[|stack| - 1]), t.meta)], heap.next);
      stack := stack[..|stack| - 1];
    }

    /** t[k] = v without metamethods, for the key and the value on top of the stack, both popped. */
    method RawSet(i: nat, ghost below: seq<Value>, ghost key: Value, ghost value: Value)
      requires 1 <= i <= |below| && IsTable(i) && key != Nil
      requires stack == below + [key, value]
      modifies this
      ensures stack == below
      ensures heap == RawHeap(old(heap).tables[old(At(i)).t := Table(
                                Assign(old(TableAt(i)).entries, key, value), old(TableAt(i)).meta)], old(heap).next)
    {
      var id := At(i).t;
      var t := TableAt(i);
      var k, v := stack[|stack| - 2], stack[|stack| - 1];
      AssignOk(t.entries, k, v);
      heap := RawHeap(heap.tables[id := Table(Assign(t.entries, k, v), t.meta)], heap.next);
      stack := stack[..|stack| - 2];
    }

    /** luaL_len of a table without metatable: some border. */
    method Len(i: int) returns (n: nat)
      requires IsTable(i)
      ensures Border(TableAt(i).entries, n)
    {
      var entries := TableAt(i).entries;
      n := 0;
      while Lookup(entries, Int(n + 1)) != Nil
        invariant forall k | 1 <= k <= n :: Lookup(entries, Int(k)) != Nil
        decreases |entries| - n
      {
        n := n + 1;
        BorderBound(entries, n);
      }
    }

    /** lua_next: pops a key and pushes the next key and its value, or nothing at the end.  `visited`
        is the number of entries up to the popped key; nil starts the traversal. */
    method Next(i: nat, ghost below: seq<Value>, ghost visited: nat) returns (more: bool)
      requires 1 <= i <= |below| && IsTable(i) && visited <= |TableAt(i).entries|
      requires stack == below + [if visited == 0 then Nil else TableAt(i).entries[visited - 1].0]
      modifies this`stack
      ensures var entries := old(TableAt(i)).entries;
              && more == (visited < |entries|)
              && stack == below + if more then [entries[visited].0, entries[visited].1] else []
    {
      var entries := TableAt(i).entries;
      if visited > 0 { NextIndexAt(entries, visited - 1); }
      var k := NextIndex(entries, stack[|stack| - 1]);
      stack := stack[..|stack| - 1];
      more := k < |entries|;
      if more { stack := stack + [entries[k].0, entries[k].1]; }
    }

    /** Pushes the metatable of the value at i, if it has one. */
    method GetMetatable(i: int) returns (has: bool)
      requires Valid(i)
      modifies this`stack
      ensures has == old(IsTable(i) && TableAt(i).meta.Some?)
      ensures stack == if has then old(stack) + [TableRef(old(TableAt(i)).meta.value)] else old(stack)
    {
      has := IsTable(i) && TableAt(i).meta.Some?;
      if has { stack := stack + [TableRef(TableAt(i).meta.value)]; }
    }

    function ToNumber(v: Value): Option<real> {
      match v
      case Num(n) => Some(n)
      case Str(s) => strToNumber(s)
      case _ => None
    }

    /** lua_pcall with all results and the handler at `handler`: the function and its arguments are
        replaced by the results, or by one error value. */
    method PCall(nArgs: nat, handler: nat, ghost below: seq<Value>, ghost f: Value, ghost args: seq<Value>)
      returns (ok: bool)
      requires stack == below + [f] + args && |args| == nArgs && 1 <= handler <= |below|
      modifies this
      ensures var result := callee(f, args, old(heap));
              && ok == result.Returned? && heap == result.heap
              && stack == below + if ok then result.values else [result.error]
    {
      var k := |stack| - nArgs - 1;
      assert stack[..k] == below && stack[k + 1..] == args;
      var result := callee(stack[k], stack[k + 1..], heap);
      heap := result.heap;
      ok := result.Returned?;
      stack := stack[..k] + if ok then result.values else [result.error];
    }
  }
}
