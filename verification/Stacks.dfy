/** Many fibers on one stack: the active part of a fiber's stack is copied out when it is switched out, and back
    in when it is switched in again. */
module Stacks {
  import opened Basics

  /** The swap space for `active` bytes: rounded up to kilobytes, always past the next boundary. */
  function BufferSize(active: nat, minimum: nat): (n: nat)
    ensures active < n && minimum < n && n % 1024 == 0
    ensures n <= Max(active, minimum) + 1024
  {
    (Max(active, minimum) / 1024 + 1) * 1024
  }

  /** The swap space of one fiber. Addresses are indices into the stack, which grows downwards: the active region
      of a fiber reaches from `lower` to the end of the stack. */
  class StackBuffer {
    var buffer: array?<byte>

    constructor ()
      ensures buffer == null
    {
      buffer := null;
    }

    ghost function Content(): Option<seq<byte>>
      reads this, buffer
    {
      if buffer == null then None else Some(buffer[..])
    }

    method Save(stack: array<byte>, lower: nat, minimum: nat)
      requires lower <= stack.Length && stack != buffer
      modifies this, buffer
      ensures buffer != stack && (buffer == old(buffer) || fresh(buffer))
      ensures Saved(stack[lower..], minimum, Content())
    {
      var size := stack.Length - lower;
      var want := Max(size, minimum);
      want := (want / 1024 + 1) * 1024;
      if buffer == null || want != buffer.Length {
        buffer := new byte[want];
      }
      var b := buffer;
      forall k | 0 <= k < size {
        b[k] := stack[lower + k];
      }
      assert b[..][..size] == stack[lower..];
    }

    method Restore(stack: array<byte>, lower: nat)
      requires lower <= stack.Length && stack != buffer
      requires buffer != null ==> stack.Length - lower <= buffer.Length
      modifies stack
      ensures stack[..] == Restored(old(stack[..]), lower, Content())
    {
      if buffer == null {
        return;
      }
      var b := buffer;
      forall k | lower <= k < stack.Length {
        stack[k] := b[k - lower];
      }
    }
  }

  /** After saving, the buffer begins with the active bytes; the rest of it is left over from before. */
  predicate Saved(active: seq<byte>, minimum: nat, buffer: Option<seq<byte>>) {
    buffer.Some? && |buffer.value| == BufferSize(|active|, minimum) && buffer.value[..|active|] == active
  }

  function Restored(stack: seq<byte>, lower: nat, buffer: Option<seq<byte>>): (r: seq<byte>)
    requires lower <= |stack| && (buffer.Some? ==> |stack| - lower <= |buffer.value|)
    ensures |r| == |stack|
  {
    match buffer
    case None => stack
    case Some(b) => stack[..lower] + b[..|stack| - lower]
  }

  /** A fiber, as far as its stack is concerned. Only `Shared` ones use the shared stack. */
  class FiberStack {
    const shared: bool
    var lower: nat
    const swap: StackBuffer

    constructor (shared: bool, lower: nat)
      ensures this.shared == shared && this.lower == lower && fresh(swap) && swap.buffer == null
    {
      this.shared, this.lower := shared, lower;
      swap := new StackBuffer();
    }
  }

  /** What happens on the way from one fiber to another: either directly, or on the stack of the trampoline. */
  method SwitchStacks(from: FiberStack, to: FiberStack, stack: array<byte>, minimum: nat)
    requires from.swap != to.swap && from.lower <= stack.Length && to.lower <= stack.Length
    requires stack != from.swap.buffer && stack != to.swap.buffer
    requires from.swap.buffer != null ==> from.swap.buffer != to.swap.buffer
    requires to.swap.buffer != null ==> stack.Length - to.lower <= to.swap.buffer.Length
    modifies stack, from.swap, from.swap.buffer
    ensures if from.shared then Saved(old(stack[from.lower..]), minimum, from.swap.Content())
            else from.swap.Content() == old(from.swap.Content())
    ensures to.swap.Content() == old(to.swap.Content())
    ensures stack[..] == if to.shared then Restored(old(stack[..]), to.lower, to.swap.Content()) else old(stack[..])
  {
    if from.shared || to.shared {
      if from.shared {
        from.swap.Save(stack, from.lower, minimum);
      }
      if to.shared {
        to.swap.Restore(stack, to.lower);
      }
    }
  }

  // ---------------------------------------------------------------- all fibers, over whole runs

  /** A fiber's stack pointer, and its swap space if it was ever switched out. */
  datatype Slot = Slot(shared: bool, lower: nat, buffer: Option<seq<byte>>)

  datatype Memory = Memory(stack: seq<byte>, slots: seq<Slot>, current: nat)

  datatype Action =
    | Work(stack: seq<byte>, lower: nat)   // the current fiber executes
    | Add(shared: bool, lower: nat)        // another fiber is allocated, with a given initial stack
    | Switch(to: nat)

  ghost predicate Valid(m: Memory) {
    && m.current < |m.slots|
    && forall f :: 0 <= f < |m.slots| && m.slots[f].shared ==> Fits(m.slots[f], |m.stack|, f == m.current)
  }

  /** The fiber's active region is on the stack, and when it is not executing, its swap space has room for it. */
  predicate Fits(s: Slot, size: nat, executing: bool) {
    && s.lower <= size
    && (!executing && s.buffer.Some? ==> size - s.lower <= |s.buffer.value|)
  }

  /** Only a fiber that is on the shared stack changes it; how, is its own business. */
  ghost predicate Next(m: Memory, m': Memory, a: Action, minimum: nat)
    requires Valid(m)
  {
    match a
    case Work(stack, lower) =>
      var s := m.slots[m.current];
      if s.shared then
        && |stack| == |m.stack| && lower <= |stack|
        && m' == Memory(stack, m.slots[m.current := s.(lower := lower)], m.current)
      else m' == m
    case Add(shared, lower) =>
      lower <= |m.stack| && m' == m.(slots := m.slots + [Slot(shared, lower, None)])
    case Switch(to) =>
      && to < |m.slots| && to != m.current
      && var from := m.slots[m.current];
      && var dest := m.slots[to];
      && |m'.slots| == |m.slots| && m'.current == to
      && (forall f :: 0 <= f < |m.slots| && f != m.current ==> m'.slots[f] == m.slots[f])
      && var from' := m'.slots[m.current];
      && from' == from.(buffer := from'.buffer)
      && (if from.shared then Saved(m.stack[from.lower..], minimum, from'.buffer) else from'.buffer == from.buffer)
      && m'.stack == if dest.shared then Restored(m.stack, dest.lower, dest.buffer) else m.stack
  }

  /** No step makes a swap space too small for what it has to hold, or a region leave the stack. */
  lemma NextKeepsValid(m: Memory, m': Memory, a: Action, minimum: nat)
    requires Valid(m) && Next(m, m', a, minimum)
    ensures Valid(m') && |m'.stack| == |m.stack| && |m.slots| <= |m'.slots|
  {
    if a.Switch? {
      forall f | 0 <= f < |m'.slots| && m'.slots[f].shared
        ensures Fits(m'.slots[f], |m'.stack|, f == m'.current)
      {
        assert Fits(m.slots[f], |m.stack|, f == m.current);
      }
    } else {
      assert m.slots[m.current].shared ==> Fits(m.slots[m.current], |m.stack|, true);
    }
  }

  ghost predicate Steps(ms: seq<Memory>, acts: seq<Action>, minimum: nat) {
    && |ms| == |acts| + 1 && Valid(ms[0])
    && forall i, j :: 0 <= i && j == i + 1 && j < |ms| ==> Valid(ms[i]) ==> Next(ms[i], ms[j], acts[i], minimum)
  }

  lemma {:induction false} AllValid(ms: seq<Memory>, acts: seq<Action>, minimum: nat, i: nat)
    requires Steps(ms, acts, minimum) && i < |ms|
    ensures Valid(ms[i]) && |ms[i].stack| == |ms[0].stack|
  {
    if i > 0 {
      AllValid(ms, acts, minimum, i - 1);
      NextKeepsValid(ms[i - 1], ms[i], acts[i - 1], minimum);
    }
  }

  /** Fiber `f` is out, and its swap space holds the bytes that it left. */
  ghost predicate Holds(m: Memory, f: nat, lower: nat, left: seq<byte>) {
    && f < |m.slots| && m.slots[f].shared && m.slots[f].lower == lower
    && m.slots[f].buffer.Some? && |left| <= |m.slots[f].buffer.value| && m.slots[f].buffer.value[..|left|] == left
  }

  lemma SwitchedOut(m: Memory, m': Memory, a: Action, minimum: nat)
    requires Valid(m) && Next(m, m', a, minimum)
    requires m.slots[m.current].shared && m'.current != m.current
    ensures m.slots[m.current].lower <= |m.stack|
    ensures Holds(m', m.current, m.slots[m.current].lower, m.stack[m.slots[m.current].lower..])
  {
    assert Fits(m.slots[m.current], |m.stack|, true);
  }

  lemma StaysOut(m: Memory, m': Memory, a: Action, minimum: nat, f: nat, lower: nat, left: seq<byte>)
    requires Valid(m) && Next(m, m', a, minimum)
    requires f != m.current && Holds(m, f, lower, left)
    ensures Holds(m', f, lower, left)
  {
  }

  lemma SwitchedIn(m: Memory, m': Memory, a: Action, minimum: nat, f: nat, lower: nat, left: seq<byte>)
    requires Valid(m) && Next(m, m', a, minimum)
    requires f != m.current && m'.current == f && Holds(m, f, lower, left) && lower + |left| == |m.stack|
    ensures |m'.stack| == |m.stack| && m'.stack[lower..] == left
  {
  }

  lemma {:induction false} HeldUntil(ms: seq<Memory>, acts: seq<Action>, minimum: nat, i: nat, k: nat)
    requires Steps(ms, acts, minimum) && i < k < |ms|
    requires Valid(ms[i]) && ms[i].slots[ms[i].current].shared
    requires forall q :: i < q < k ==> ms[q].current != ms[i].current
    requires ms[i + 1].current != ms[i].current
    ensures var f := ms[i].current;
            var lower := ms[i].slots[f].lower;
            lower <= |ms[i].stack| && Holds(ms[k], f, lower, ms[i].stack[lower..])
    decreases k
  {
    AllValid(ms, acts, minimum, k - 1);
    if k == i + 1 {
      SwitchedOut(ms[i], ms[k], acts[i], minimum);
    } else {
      HeldUntil(ms, acts, minimum, i, k - 1);
      var f := ms[i].current;
      StaysOut(ms[k - 1], ms[k], acts[k - 1], minimum, f, ms[i].slots[f].lower, ms[i].stack[ms[i].slots[f].lower..]);
    }
  }

  /** In every interleaving, a fiber on the shared stack that becomes current again at step `j`, for the first time
      since it was switched out after step `i`, finds in its active region exactly the bytes that it left there. */
  lemma FindsItsBytes(ms: seq<Memory>, acts: seq<Action>, minimum: nat, i: nat, j: nat)
    requires Steps(ms, acts, minimum) && i + 1 < j < |ms|
    requires ms[i].current < |ms[i].slots| && ms[i].slots[ms[i].current].shared
    requires forall q :: i < q < j ==> ms[q].current != ms[i].current
    requires ms[j].current == ms[i].current
    ensures var f := ms[i].current;
            var lower := ms[i].slots[f].lower;
            && lower <= |ms[i].stack| == |ms[j].stack|
            && f < |ms[j].slots| && ms[j].slots[f].lower == lower
            && ms[j].stack[lower..] == ms[i].stack[lower..]
  {
    var f := ms[i].current;
    AllValid(ms, acts, minimum, i);
    AllValid(ms, acts, minimum, j - 1);
    AllValid(ms, acts, minimum, j);
    assert Fits(ms[i].slots[f], |ms[i].stack|, true);
    var lower := ms[i].slots[f].lower;
    HeldUntil(ms, acts, minimum, i, j - 1);
    SwitchedIn(ms[j - 1], ms[j], acts[j - 1], minimum, f, lower, ms[i].stack[lower..]);
    assert Holds(ms[j], f, lower, ms[i].stack[lower..]) by {
      StaysOut(ms[j - 1], ms[j], acts[j - 1], minimum, f, lower, ms[i].stack[lower..]);
    }
  }

  // ---------------------------------------------------------------- the objects take these steps

  ghost function SlotOf(x: FiberStack): Slot
    reads x, x.swap, x.swap.buffer
  {
    Slot(x.shared, x.lower, x.swap.Content())
  }

  ghost function MemoryOf(fibers: seq<FiberStack>, stack: array<byte>, current: nat): Memory
    reads fibers, set x | x in fibers :: x.swap, set x | x in fibers :: x.swap.buffer, stack
  {
    Memory(stack[..],
           seq(|fibers|, i requires 0 <= i < |fibers|
                           reads fibers, (set x | x in fibers :: x.swap), (set x | x in fibers :: x.swap.buffer)
                           => SlotOf(fibers[i])),
           current)
  }

  /** No two fibers have a swap space in common, and none has the stack for it. */
  ghost predicate Apart(fibers: seq<FiberStack>, stack: array<byte>)
    reads set x | x in fibers :: x.swap
  {
    && (forall i :: 0 <= i < |fibers| ==> fibers[i].swap.buffer != stack)
    && (forall i, j :: 0 <= i < j < |fibers| ==>
          fibers[i].swap != fibers[j].swap
          && (fibers[i].swap.buffer == null || fibers[i].swap.buffer != fibers[j].swap.buffer))
  }

  /** Switching stacks is the step from one fiber to the other, for all fibers there are. */
  method SwitchFibers(fibers: seq<FiberStack>, current: nat, to: nat, stack: array<byte>, minimum: nat)
    requires current < |fibers| && to < |fibers| && current != to && Apart(fibers, stack)
    requires Valid(MemoryOf(fibers, stack, current))
    requires fibers[current].lower <= stack.Length && fibers[to].lower <= stack.Length
    requires var b := fibers[to].swap.buffer; b != null ==> stack.Length - fibers[to].lower <= b.Length
    modifies stack, fibers[current].swap, fibers[current].swap.buffer
    ensures Next(old(MemoryOf(fibers, stack, current)), MemoryOf(fibers, stack, to), Switch(to), minimum)
  {
    SwitchStacks(fibers[current], fibers[to], stack, minimum);
  }
}
