/**
 `StackFrameScope` on Lua: the base slot that a frame pushes, the value that may escape into it, and
 what any nesting of frames, with any work inside them, leaves on the stack.
 */
module LuaFrames {
  import opened Options
  import opened LuaVm

  class StackFrameScope {
    const lua: LuaState
    const base: nat
    var hasReturnValue: bool

    /** Pushes the base slot. */
    constructor (lua: LuaState)
      modifies lua`stack
      ensures this.lua == lua && base == |old(lua.stack)| + 1 && !hasReturnValue
      ensures lua.stack == old(lua.stack) + [Nil] && lua.heap == old(lua.heap)
    {
      this.lua, hasReturnValue := lua, false;
      lua.Push(Nil);
      base := lua.GetTop();
    }

    /** `returnRawValue`: copies the value at `val`, nil for 0, into the base slot. */
    method ReturnRawValue(val: nat) returns (index: nat)
      requires 1 <= base <= |lua.stack| && val <= |lua.stack|
      modifies this, lua`stack
      ensures index == base && hasReturnValue
      ensures lua.stack == old(lua.stack)[base - 1 := if val == 0 then Nil else old(lua.stack)[val - 1]]
    {
      if val == 0 { lua.Push(Nil); } else { lua.PushValue(val); }
      lua.Replace(base);
      hasReturnValue := true;
      index := base;
    }

    /** The destructor cuts the stack back, above or below the base slot. */
    method Destroy()
      requires 1 <= base <= |lua.stack|
      modifies lua`stack
      ensures lua.stack == old(lua.stack)[..if hasReturnValue then base else base - 1]
    {
      if hasReturnValue { lua.SetTop(base); } else { lua.SetTop(base - 1); }
    }
  }

  /** What happens inside a frame: a value pushed or popped, the value at a stack index (0 for none)
      returned out of the frame, and inner frames. */
  datatype Work =
    | Push(v: Value)
    | Pop
    | Return(local: nat)
    | Frame(inside: seq<Work>)

  /** What a frame has: its escaped value, if any, and the values above its base slot. */
  datatype Frames = Frames(escaped: Option<Value>, locals: seq<Value>)

  /** The value at a stack index, seen from inside a frame over `outer`; the base slot holds the
      escaped value, and an index that is none of the stack's counts as 0. */
  function SlotValue(outer: seq<Value>, f: Frames, index: nat): Value {
    if index == 0 then Nil
    else if index <= |outer| then outer[index - 1]
    else if index == |outer| + 1 then (if f.escaped.Some? then f.escaped.value else Nil)
    else if index - |outer| - 2 < |f.locals| then f.locals[index - |outer| - 2]
    else Nil
  }

  /** Meaning of the work, with no stack of slots: a frame changes nothing outside itself, and hands
      out at most its escaped value. */
  function Inside(outer: seq<Value>, f: Frames, work: seq<Work>): Frames
    decreases work
  {
    if work == [] then f
    else Inside(outer, Step(outer, f, work[0]), work[1..])
  }

  function Step(outer: seq<Value>, f: Frames, w: Work): Frames
    decreases w
  {
    match w
    case Push(v) => f.(locals := f.locals + [v])
    case Pop => if f.locals == [] then f else f.(locals := f.locals[..|f.locals| - 1])
    case Return(local) => f.(escaped := Some(SlotValue(outer, f, local)))
    case Frame(inside) =>
      var inner := Inside(Stack(outer, f), Frames(None, []), inside);
      f.(locals := f.locals + Handed(inner))
  }

  /** What a frame hands out to the frame around it. */
  function Handed(f: Frames): (r: seq<Value>) {
    match f.escaped
    case None => []
    case Some(v) => [v]
  }

  /** The stack inside a frame. */
  function Stack(outer: seq<Value>, f: Frames): (s: seq<Value>)
    ensures outer <= s && |s| == |outer| + 1 + |f.locals|
  {
    outer + [if f.escaped.Some? then f.escaped.value else Nil] + f.locals
  }

  /** Runs the work on the real stack. */
  method Run(lua: LuaState, scope: StackFrameScope, work: seq<Work>, ghost outer: seq<Value>, ghost f: Frames)
    returns (ghost last: Frames)
    requires scope.lua == lua && scope.base == |outer| + 1 && scope.hasReturnValue == f.escaped.Some?
    requires lua.stack == Stack(outer, f)
    modifies scope, lua`stack
    ensures last == Inside(outer, f, work) && scope.hasReturnValue == last.escaped.Some?
    ensures lua.stack == Stack(outer, last)
    decreases work, 0
  {
    last := f;
    var i := 0;
    while i < |work|
      invariant i <= |work| && Inside(outer, f, work) == Inside(outer, last, work[i..])
      invariant scope.hasReturnValue == last.escaped.Some? && lua.stack == Stack(outer, last)
    {
      assert work[i..][0] == work[i] && work[i..][1..] == work[i + 1..];
      last := RunStep(lua, scope, work[i], outer, last);
      i := i + 1;
    }
  }

  method RunStep(lua: LuaState, scope: StackFrameScope, w: Work, ghost outer: seq<Value>, ghost f: Frames)
    returns (ghost last: Frames)
    requires scope.lua == lua && scope.base == |outer| + 1 && scope.hasReturnValue == f.escaped.Some?
    requires lua.stack == Stack(outer, f)
    modifies scope, lua`stack
    ensures last == Step(outer, f, w) && scope.hasReturnValue == last.escaped.Some?
    ensures lua.stack == Stack(outer, last)
    decreases w
  {
    last := Step(outer, f, w);
    match w {
      case Push(v) => lua.Push(v);
      case Pop => if lua.GetTop() > scope.base { lua.Pop(1); }
      case Return(local) =>
        var _ := scope.ReturnRawValue(if local <= lua.GetTop() then local else 0);
      case Frame(inside) => RunFrame(lua, inside);
    }
  }

  /** A whole frame: the entry height comes back, or that height plus one with the escaped value in
      the frame's base slot; every older slot is as it was. */
  method RunFrame(lua: LuaState, inside: seq<Work>)
    modifies lua`stack
    ensures lua.stack == old(lua.stack) + Handed(Inside(old(lua.stack), Frames(None, []), inside))
    decreases inside, 1
  {
    ghost var outer := lua.stack;
    var scope := new StackFrameScope(lua);
    assert lua.stack == Stack(outer, Frames(None, []));
    ghost var last := Run(lua, scope, inside, outer, Frames(None, []));
    scope.Destroy();
    assert lua.stack == outer + Handed(last);
  }

  /** The frame's own work returns a value; what its inner frames return does not count. */
  predicate Returns(work: seq<Work>) {
    exists w <- work :: w.Return?
  }

  /** A frame hands out a value exactly if its own work returns one. */
  lemma {:induction false} EscapesIffReturned(outer: seq<Value>, f: Frames, work: seq<Work>)
    ensures Inside(outer, f, work).escaped.Some? <==> f.escaped.Some? || Returns(work)
    decreases |work|
  {
    if work != [] {
      EscapesIffReturned(outer, Step(outer, f, work[0]), work[1..]);
      assert forall w :: w in work <==> w == work[0] || w in work[1..];
    }
  }

  lemma {:induction false} InsideAppend(outer: seq<Value>, f: Frames, before: seq<Work>, after: seq<Work>)
    ensures Inside(outer, f, before + after) == Inside(outer, Inside(outer, f, before), after)
    decreases |before|
  {
    if before == [] {
      assert before + after == after;
    } else {
      assert (before + after)[0] == before[0] && (before + after)[1..] == before[1..] + after;
      InsideAppend(outer, Step(outer, f, before[0]), before[1..], after);
    }
  }

  /** The last value returned is the one that the frame hands out, whatever happens before it and
      whatever is pushed, popped or framed after it. */
  lemma LastReturnEscapes(outer: seq<Value>, before: seq<Work>, local: nat, after: seq<Work>)
    requires !Returns(after)
    ensures var all := before + [Return(local)] + after;
            Handed(Inside(outer, Frames(None, []), all))
            == [SlotValue(outer, Inside(outer, Frames(None, []), before), local)]
  {
    var start := Frames(None, []);
    var now := Inside(outer, start, before);
    InsideAppend(outer, start, before, [Return(local)] + after);
    assert before + [Return(local)] + after == before + ([Return(local)] + after);
    assert ([Return(local)] + after)[1..] == after;
    Escaped(outer, Step(outer, now, Return(local)), after);
  }

  lemma {:induction false} Escaped(outer: seq<Value>, f: Frames, work: seq<Work>)
    requires !Returns(work)
    ensures Inside(outer, f, work).escaped == f.escaped
    decreases |work|
  {
    if work != [] {
      assert work[0] in work;
      assert forall w <- work[1..] :: w in work;
      Escaped(outer, Step(outer, f, work[0]), work[1..]);
    }
  }

  /** A frame after some work. */
  function Done(outer: seq<Value>, work: seq<Work>): Frames {
    Inside(outer, Frames(None, []), work)
  }

  /** The work puts the value on top of the frame's stack: it is pushed, or an inner frame hands it out. */
  predicate Yields(outer: seq<Value>, f: Frames, w: Work, v: Value) {
    w == Push(v) || (w.Frame? && Handed(Done(Stack(outer, f), w.inside)) == [v])
  }

  lemma Onward(outer: seq<Value>, before: seq<Work>, w: Work)
    ensures Done(outer, before + [w]) == Step(outer, Done(outer, before), w)
  {
    InsideAppend(outer, Frames(None, []), before, [w]);
    assert [w][1..] == [];
  }

  lemma YieldsTop(outer: seq<Value>, before: seq<Work>, w: Work, v: Value)
    requires Yields(outer, Done(outer, before), w, v)
    ensures Stack(outer, Done(outer, before + [w])) == Stack(outer, Done(outer, before)) + [v]
    ensures Stack(outer, Done(outer, before + [w] + [Pop])) == Stack(outer, Done(outer, before))
  {
    Onward(outer, before, w);
    Onward(outer, before + [w], Pop);
  }

  lemma SlotIsStack(outer: seq<Value>, f: Frames, index: nat)
    requires 1 <= index <= |Stack(outer, f)|
    ensures SlotValue(outer, f, index) == Stack(outer, f)[index - 1]
  {
  }

  /** Such a value stands on top of the stack until it is popped, and returned from there it is what the
      frame hands out. */
  lemma TopEscapes(outer: seq<Value>, before: seq<Work>, w: Work, v: Value, after: seq<Work>)
    requires Yields(outer, Done(outer, before), w, v) && !Returns(after)
    ensures var top := |Stack(outer, Done(outer, before))| + 1;
            Handed(Done(outer, before + [w] + [Return(top)] + after)) == [v]
    ensures Stack(outer, Done(outer, before + [w] + [Pop])) == Stack(outer, Done(outer, before))
  {
    var top := |Stack(outer, Done(outer, before))| + 1;
    YieldsTop(outer, before, w, v);
    SlotIsStack(outer, Done(outer, before + [w]), top);
    LastReturnEscapes(outer, before + [w], top, after);
  }
}
