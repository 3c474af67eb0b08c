/**
 `callFunction`, through which every script function is called, and `Array` in its Lua form.
 A `Local` is a stack index; the null Local is 0.
 */
module LuaCalls {
  import opened Options
  import opened LuaVm

  /** The value a Local stands for. */
  function Read(stack: seq<Value>, local: nat): Value
    requires local <= |stack|
  {
    if local == 0 then Nil else stack[local - 1]
  }

  function ReadAll(stack: seq<Value>, locals: seq<nat>): (values: seq<Value>)
    requires forall l <- locals :: l <= |stack|
    ensures |values| == |locals|
  {
    seq(|locals|, i requires 0 <= i < |locals| => assert locals[i] in locals; Read(stack, locals[i]))
  }

  /** `pushValue`: a null Local pushes nil. */
  method PushLocal(lua: LuaState, local: nat)
    requires local <= |lua.stack|
    modifies lua`stack
    ensures lua.stack == old(lua.stack) + [Read(old(lua.stack), local)]
  {
    if local == 0 { lua.Push(Nil); } else { lua.PushValue(local); }
  }

  /** `pushValues`. */
  method PushLocals(lua: LuaState, locals: seq<nat>)
    requires forall l <- locals :: l <= |lua.stack|
    modifies lua`stack
    ensures lua.stack == old(lua.stack) + ReadAll(old(lua.stack), locals)
  {
    ghost var start := lua.stack;
    for i := 0 to |locals|
      invariant forall l <- locals :: l <= |start|
      invariant lua.stack == start + ReadAll(start, locals)[..i]
    {
      assert locals[i] in locals;
      PushLocal(lua, locals[i]);
      assert ReadAll(start, locals)[..i + 1] == ReadAll(start, locals)[..i] + [Read(start, locals[i])];
    }
  }

  // ---- arrays ----

  /** The entries of an array that holds `values`. */
  function ArrayEntries(values: seq<Value>): (entries: seq<(Value, Value)>)
    ensures |entries| == |values|
  {
    seq(|values|, i requires 0 <= i < |values| => (Int(i + 1), values[i]))
  }

  function NonNil(values: seq<Value>): (kept: seq<Value>)
    ensures Nil !in kept
  {
    if values == [] then []
    else NonNil(values[..|values| - 1]) + if values[|values| - 1] == Nil then [] else [values[|values| - 1]]
  }

  lemma {:induction false} DistinctOk(entries: seq<(Value, Value)>)
    requires forall i | 0 <= i < |entries| :: entries[i].0 != Nil && entries[i].1 != Nil
    requires forall i, j | 0 <= i < j < |entries| :: entries[i].0 != entries[j].0
    ensures EntriesOk(entries)
  {
    if entries != [] { DistinctOk(entries[1..]); }
  }

  lemma ArrayOk(values: seq<Value>)
    requires Nil !in values
    ensures EntriesOk(ArrayEntries(values))
  {
    var entries := ArrayEntries(values);
    forall i | 0 <= i < |entries|
      ensures entries[i].0 != Nil && entries[i].1 != Nil
    {
      assert values[i] in values;
    }
    DistinctOk(entries);
  }

  /** An array reads back its values at 1, 2, 3, ... and has nothing anywhere else. */
  lemma ArrayReads(values: seq<Value>, key: Value)
    requires Nil !in values
    ensures forall k | 1 <= k <= |values| :: Lookup(ArrayEntries(values), Int(k)) == values[k - 1]
    ensures (forall k | 1 <= k <= |values| :: key != Int(k)) ==> Lookup(ArrayEntries(values), key) == Nil
  {
    ArrayOk(values);
    forall k | 1 <= k <= |values|
      ensures Lookup(ArrayEntries(values), Int(k)) == values[k - 1]
    {
      LookupAt(ArrayEntries(values), k - 1);
    }
    if forall k | 1 <= k <= |values| :: key != Int(k) {
      forall i | 0 <= i < |values| ensures ArrayEntries(values)[i].0 != key { assert key != Int(i + 1); }
      LookupAbsent(ArrayEntries(values), key);
    }
  }

  /** A table without holes: these values at 1, 2, 3, ..., and nothing at the integers after them.  Its
      other entries, and the order of all of them, are arbitrary. */
  ghost predicate Holds(entries: seq<(Value, Value)>, values: seq<Value>) {
    && Nil !in values
    && (forall k | 1 <= k <= |values| :: Lookup(entries, Int(k)) == values[k - 1])
    && (forall k: nat | k > |values| :: Lookup(entries, Int(k)) == Nil)
  }

  lemma ArrayHolds(values: seq<Value>)
    requires Nil !in values
    ensures EntriesOk(ArrayEntries(values)) && Holds(ArrayEntries(values), values)
  {
    ArrayOk(values);
    ArrayReads(values, Nil);
    forall k: nat | k > |values|
      ensures Lookup(ArrayEntries(values), Int(k)) == Nil
    {
      ArrayReads(values, Int(k));
    }
  }

  /** The length of a table without holes is its number of values: the border is unique. */
  lemma ArrayBorder(entries: seq<(Value, Value)>, values: seq<Value>, n: nat)
    requires Holds(entries, values) && Border(entries, n)
    ensures n == |values|
  {
    forall k | 1 <= k <= |values|
      ensures Lookup(entries, Int(k)) != Nil
    {
      assert values[k - 1] in values;
    }
  }

  /** An array stays one. */
  lemma ArrayAdd(values: seq<Value>, v: Value)
    ensures Assign(ArrayEntries(values), Int(|values| + 1), v) == ArrayEntries(Added(values, v))
  {
    AssignNew(ArrayEntries(values), Int(|values| + 1), v);
    assert ArrayEntries(values) + [(Int(|values| + 1), v)] == ArrayEntries(values + [v]);
  }

  function Added(values: seq<Value>, v: Value): seq<Value> {
    values + if v == Nil then [] else [v]
  }

  /** Assigning the next integer adds the value at the end; assigning nil to it changes nothing. */
  lemma AddHolds(entries: seq<(Value, Value)>, values: seq<Value>, v: Value)
    requires EntriesOk(entries) && Holds(entries, values)
    ensures Holds(Assign(entries, Int(|values| + 1), v), Added(values, v))
  {
    var after := Assign(entries, Int(|values| + 1), v);
    forall k: nat
      ensures Lookup(after, Int(k)) == if k == |values| + 1 then v else Lookup(entries, Int(k))
    {
      AssignLookup(entries, Int(|values| + 1), v, Int(k));
    }
  }

  lemma {:induction false} AssignNew(entries: seq<(Value, Value)>, key: Value, value: Value)
    requires forall i | 0 <= i < |entries| :: entries[i].0 != key
    ensures Assign(entries, key, value) == entries + if value == Nil then [] else [(key, value)]
  {
    if entries != [] {
      AssignNew(entries[1..], key, value);
      assert entries[0].0 != key;
    }
  }

  /** `Array::add` of the value at index `value`, on any table without holes: the value comes after
      those that are there, and every other key reads as before.  Adding nil does nothing. */
  method Add(lua: LuaState, arr: nat, value: nat, ghost values: seq<Value>)
    requires arr >= 1 && lua.IsTable(arr) && value <= |lua.stack|
    requires Holds(lua.TableAt(arr).entries, values)
    modifies lua
    ensures lua.stack == old(lua.stack)
    ensures var v := Read(lua.stack, value);
            var entries := Assign(old(lua.TableAt(arr)).entries, Int(|values| + 1), v);
            && lua.heap == RawHeap(old(lua.heap).tables[
                                     old(lua.At(arr)).t := Table(entries, old(lua.TableAt(arr)).meta)],
                                   old(lua.heap).next)
            && Holds(entries, Added(values, v))
            && forall key | key != Int(|values| + 1) ::
                 Lookup(entries, key) == Lookup(old(lua.TableAt(arr)).entries, key)
  {
    ghost var v := Read(lua.stack, value);
    ghost var entries := lua.TableAt(arr).entries;
    var size := lua.Len(arr);
    ArrayBorder(entries, values, size);
    AddHolds(entries, values, v);
    forall key
      ensures Lookup(Assign(entries, Int(size + 1), v), key) == if key == Int(size + 1) then v else Lookup(entries, key)
    {
      AssignLookup(entries, Int(size + 1), v, key);
    }
    PushLocal(lua, value);
    assert lua.At(arr) == old(lua.At(arr));
    lua.RawSetTop(arr, Int(size + 1));
  }

  // ---- callFunction ----

  datatype Outcome = Result(local: nat) | Thrown(error: Value)

  const ERROR_HANDLER: nat := 0

  /** Where the results go: the slot of the function when it is on top already, else the next one. */
  function Base(height: nat, func: nat): nat {
    if func == 0 then height else height + 1
  }

  /** What the callee gets: the receiver first, if there is one, and then the arguments in order. */
  function Arguments(stack: seq<Value>, thiz: nat, args: seq<nat>): seq<Value>
    requires thiz <= |stack| && forall a <- args :: a <= |stack|
  {
    (if thiz == 0 then [] else [Read(stack, thiz)]) + ReadAll(stack, args)
  }

  /** Position by position. */
  lemma ArgumentsInOrder(stack: seq<Value>, thiz: nat, args: seq<nat>)
    requires thiz <= |stack| && forall a <- args :: a <= |stack|
    ensures var received := Arguments(stack, thiz, args);
            && |received| == |args| + (if thiz == 0 then 0 else 1)
            && (thiz != 0 ==> received[0] == stack[thiz - 1])
            && forall i | 0 <= i < |args| ::
                 var place := if thiz == 0 then i else i + 1;
                 args[i] <= |stack| && received[place] == if args[i] == 0 then Nil else stack[args[i] - 1]
  {
    forall i | 0 <= i < |args|
      ensures args[i] <= |stack|
      ensures ReadAll(stack, args)[i] == if args[i] == 0 then Nil else stack[args[i] - 1]
    {
      assert args[i] in args;
    }
  }

  /** What a call leaves on the stack, besides the slots below its base. */
  ghost predicate Left(below: seq<Value>, result: CallResult, r: Outcome, stack: seq<Value>, heap: Heap) {
    match result
    case Raised(error, h) => r == Thrown(error) && stack == below && heap == h
    case Returned(values, h) =>
      if |values| == 0 then r == Result(0) && stack == below && heap == h
      else if |values| == 1 then r == Result(|below| + 1) && stack == below + values && heap == h
      else
        r == Result(|below| + 1) && OneArray(below, NonNil(values), h, stack, heap)
  }

  /** A new array of the values is on top of the stack, and the rest is as before. */
  ghost predicate OneArray(below: seq<Value>, values: seq<Value>, before: Heap, stack: seq<Value>, heap: Heap) {
    exists id :: id !in before.tables && stack == below + [TableRef(id)]
                 && heap == RawHeap(before.tables[id := Table(ArrayEntries(values), None)], before.next + 1)
  }

  /** Then the top of the stack is a table that was not there before and reads as the values at 1, 2, 3 and
      so on; no other table has changed. */
  lemma OneArrayReads(below: seq<Value>, values: seq<Value>, before: Heap, stack: seq<Value>, heap: Heap)
    requires OneArray(below, values, before, stack, heap) && Nil !in values
    ensures |stack| == |below| + 1 && stack[..|below|] == below && stack[|below|].TableRef?
    ensures var t := stack[|below|].t;
            && t !in before.tables && heap.tables.Keys == before.tables.Keys + {t}
            && (forall o <- before.tables.Keys :: heap.tables[o] == before.tables[o])
            && Holds(heap.tables[t].entries, values)
  {
    ArrayHolds(values);
  }

  /** The stack that the arguments are read from: a Local is the value it was, except one at the slot
      of a function that was on top already, where the handler is by then. */
  function Seen(was: seq<Value>, func: nat): (stack: seq<Value>)
    requires |was| >= 1
    ensures |stack| == Base(|was|, func)
    ensures forall l | 0 <= l <= |was| ::
              Read(stack, l) == if func == 0 && l == |was| then Fn(ERROR_HANDLER) else Read(was, l)
  {
    was[..Base(|was|, func) - 1] + [Fn(ERROR_HANDLER)]
  }

  /** So the receiver and arguments below the function arrive as they were, the receiver first and the
      arguments behind it in their order. */
  lemma ArgumentsArrive(was: seq<Value>, func: nat, thiz: nat, args: seq<nat>)
    requires |was| >= 1 && thiz <= |was| && forall a <- args :: a <= |was|
    requires func == 0 ==> thiz < |was| && forall a <- args :: a < |was|
    ensures var received := Arguments(Seen(was, func), thiz, args);
            && |received| == |args| + (if thiz == 0 then 0 else 1)
            && (thiz != 0 ==> received[0] == was[thiz - 1])
            && forall i | 0 <= i < |args| ::
                 var place := if thiz == 0 then i else i + 1;
                 args[i] <= |was| && received[place] == if args[i] == 0 then Nil else was[args[i] - 1]
  {
    var below := was[..Base(|was|, func) - 1];
    ReadSame(below, was, args);
    ReadSame(below, Seen(was, func), args);
    assert Arguments(Seen(was, func), thiz, args) == Arguments(was, thiz, args);
    ArgumentsInOrder(was, thiz, args);
  }

  /** Calls `func`, or the function on top of the stack if it is null.  On every path the slots below
      the base stay as they are and at most one value is left, at the base. */
  method CallFunction(lua: LuaState, func: nat, thiz: nat, args: seq<nat>) returns (r: Outcome)
    requires |lua.stack| >= 1 && func <= |lua.stack| && thiz <= |lua.stack|
    requires forall a <- args :: a <= |lua.stack|
    modifies lua
    ensures var was := old(lua.stack);
            var f := if func == 0 then was[|was| - 1] else was[func - 1];
            var result := lua.callee(f, Arguments(Seen(was, func), thiz, args), old(lua.heap));
            var below := if func == 0 then was[..|was| - 1] else was;
            match result
            case Raised(error, h) => r == Thrown(error) && lua.stack == below && lua.heap == h
            case Returned(values, h) =>
              if |values| == 0 then r == Result(0) && lua.stack == below && lua.heap == h
              else if |values| == 1 then r == Result(|below| + 1) && lua.stack == below + values && lua.heap == h
              else r == Result(|below| + 1) && OneArray(below, NonNil(values), h, lua.stack, lua.heap)
  {
    ghost var was := lua.stack;
    var base := lua.GetTop();
    if func != 0 {
      base := base + 1;
      PushLocal(lua, func);
    }
    ghost var below, f := was[..base - 1], if func == 0 then was[|was| - 1] else was[func - 1];
    assert lua.stack == below + [f];
    PushArguments(lua, base, below, f, thiz, args);
    ghost var arguments := Arguments(Seen(was, func), thiz, args);
    var nArgs := |args| + if thiz != 0 then 1 else 0;
    var ok := lua.PCall(nArgs, base, below + [Fn(ERROR_HANDLER)], f, arguments);
    r := TakeResults(lua, base, below, ok, lua.callee(f, arguments, old(lua.heap)));
  }

  /** Removes the handler and turns what the call left into the outcome. */
  method TakeResults(lua: LuaState, base: nat, ghost below: seq<Value>, ok: bool, ghost result: CallResult)
    returns (r: Outcome)
    requires base == |below| + 1 && ok == result.Returned? && lua.heap == result.heap
    requires lua.stack == below + [Fn(ERROR_HANDLER)] + if ok then result.values else [result.error]
    modifies lua
    ensures Left(below, result, r, lua.stack, lua.heap)
  {
    lua.Remove(base);
    assert lua.stack == below + if ok then result.values else [result.error];
    if ok {
      var returnCount := lua.GetTop() - base + 1;
      if returnCount == 0 {
        r := Result(0);
      } else if returnCount == 1 {
        r := Result(base);
      } else {
        CollectResults(lua, base, below, result.values);
        r := Result(base);
      }
    } else {
      r := Thrown(lua.At(-1));
      lua.Pop(1);
      assert lua.stack == below;
    }
  }

  /** Puts the handler under the function and pushes the receiver, if any, and the arguments. */
  method PushArguments(lua: LuaState, base: nat, ghost below: seq<Value>, ghost f: Value, thiz: nat, args: seq<nat>)
    requires lua.stack == below + [f] && base == |below| + 1 && thiz <= base
    requires forall a <- args :: a <= base
    modifies lua`stack
    ensures lua.stack == below + [Fn(ERROR_HANDLER), f] + Arguments(below + [Fn(ERROR_HANDLER)], thiz, args)
  {
    lua.Push(Fn(ERROR_HANDLER));
    lua.Insert(base);
    ghost var start := below + [Fn(ERROR_HANDLER), f];
    assert lua.stack == start;
    if thiz != 0 { PushLocal(lua, thiz); }
    ghost var now := lua.stack;
    PushLocals(lua, args);
    ReadSame(below + [Fn(ERROR_HANDLER)], now, args);
  }

  lemma ReadSame(below: seq<Value>, now: seq<Value>, locals: seq<nat>)
    requires below <= now && forall l <- locals :: l <= |below|
    ensures ReadAll(now, locals) == ReadAll(below, locals)
  {
    forall i | 0 <= i < |locals|
      ensures ReadAll(now, locals)[i] == ReadAll(below, locals)[i]
    {
      assert locals[i] in locals;
    }
  }

  /** Several results become one array, which takes their place. */
  method CollectResults(lua: LuaState, base: nat, ghost below: seq<Value>, ghost values: seq<Value>)
    requires lua.stack == below + values && base == |below| + 1 && |values| > 1
    modifies lua
    ensures exists id :: id !in old(lua.heap).tables && lua.stack == below + [TableRef(id)]
                         && lua.heap == RawHeap(old(lua.heap).tables[id := Table(ArrayEntries(NonNil(values)), None)],
                                                old(lua.heap).next + 1)
  {
    ghost var before := lua.heap;
    var returnCount := lua.GetTop() - base + 1;
    ghost var id := lua.NewTable();
    var arr := lua.GetTop();
    ghost var start := lua.stack;
    assert values[..0] == [];
    for i := 0 to returnCount
      invariant lua.stack == start
      invariant lua.heap
                == RawHeap(before.tables[id := Table(ArrayEntries(NonNil(values[..i])), None)], before.next + 1)
    {
      assert values[..i + 1][..i] == values[..i];
      AddResult(lua, arr, base + i, NonNil(values[..i]), values[i], before, id);
    }
    assert values[..returnCount] == values;
    KeepTop(lua, base, below, values, TableRef(id));
  }

  /** The top of the stack replaces everything from the base on. */
  method KeepTop(lua: LuaState, base: nat, ghost below: seq<Value>, ghost values: seq<Value>, ghost top: Value)
    requires lua.stack == below + values + [top] && base == |below| + 1 && values != []
    modifies lua`stack
    ensures lua.stack == below + [top]
  {
    lua.Replace(base);
    lua.SetTop(base);
  }

  method AddResult(lua: LuaState, arr: nat, value: nat, ghost values: seq<Value>, ghost v: Value,
                   ghost before: Heap, ghost id: TableId)
    requires 1 <= arr <= |lua.stack| && lua.stack[arr - 1] == TableRef(id) && Nil !in values
    requires 1 <= value <= |lua.stack| && lua.stack[value - 1] == v
    requires lua.heap == RawHeap(before.tables[id := Table(ArrayEntries(values), None)], before.next + 1)
    modifies lua
    ensures lua.stack == old(lua.stack)
    ensures lua.heap == RawHeap(before.tables[id := Table(ArrayEntries(Added(values, v)), None)], before.next + 1)
  {
    ArrayHolds(values);
    ArrayAdd(values, v);
    Add(lua, arr, value, values);
  }

  // ---- what the array of results means ----

  /** The array keeps the order of the non-nil results: the k-th of them follows k earlier ones. */
  lemma {:induction false} NonNilOrder(values: seq<Value>, i: nat)
    requires i < |values| && values[i] != Nil
    ensures |NonNil(values[..i])| < |NonNil(values)|
    ensures NonNil(values)[|NonNil(values[..i])|] == values[i]
  {
    var n := |values| - 1;
    if i < n {
      NonNilOrder(values[..n], i);
      assert values[..n][..i] == values[..i];
    }
  }

  /** Nothing else is in the array. */
  lemma {:induction false} NonNilSource(values: seq<Value>, k: nat) returns (i: nat)
    requires k < |NonNil(values)|
    ensures i < |values| && values[i] == NonNil(values)[k] && |NonNil(values[..i])| == k
  {
    var n := |values| - 1;
    if k < |NonNil(values[..n])| {
      i := NonNilSource(values[..n], k);
      assert values[..n][..i] == values[..i];
    } else {
      i := n;
    }
  }
}
