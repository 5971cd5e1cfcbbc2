/** Fibers: co-routines that give control back to whoever called them, are reused through a cache, and are driven
    by resumables. One step of the machine is what happens between two pieces of payload code. */
module Fibers {
  import opened Basics

  type Id = nat

  /** The pseudo-fiber of the top-level process. */
  const MAIN: Id := 0

  datatype State = Init | Running | Aborting | Yielded | Idle

  /** A result or an exception, with the payload function it comes from. */
  datatype Value = Value(job: nat, content: int)

  /** Why a fiber switched to another one: that is, what it does when it gets control back. */
  datatype Purpose = Execute | Cancel | Discard

  /** A fiber's call of another one that is not back yet, with the context's handle as it was before. */
  datatype Call = Call(callee: Id, purpose: Purpose, resumable: nat, handle: Option<Id>)

  datatype Fiber = Fiber(state: State, job: Option<nat>, result: Option<Value>, exception: Option<Value>,
                         caller: Option<Id>, call: Option<Call>)

  datatype Resumable = Resumable(fiber: Option<Id>, done: bool, result: Option<Value>, alive: bool)

  /** The payload functions are numbered by the resumables they were given to. */
  datatype World = World(fibers: seq<Fiber>, current: Id, handle: Option<Id>, cache: seq<Id>, cached: nat,
                         resumables: seq<Resumable>)

  /** The upper limit for the cache, from the configuration. */
  type Limit = nat

  const FRESH: Fiber := Fiber(Init, None, None, None, None, None)

  const START: World := World([FRESH], MAIN, None, [], 0, [])

  predicate WellFormed(w: World) {
    && w.current < |w.fibers|
    && (forall k :: 0 <= k < |w.cache| ==> w.cache[k] < |w.fibers|)
    && (forall r :: 0 <= r < |w.resumables| && w.resumables[r].fiber.Some? ==> w.resumables[r].fiber.value < |w.fibers|)
  }

  // ---------------------------------------------------------------- the operations

  function IsDone(s: State): bool {
    s != Running && s != Yielded
  }

  /** A fiber from the cache, or a new one. */
  function Create(w: World): (World, Id) {
    if |w.cache| > 0 then
      (w.(cache := w.cache[..|w.cache| - 1], cached := if w.cached > 0 then w.cached - 1 else 0),
       w.cache[|w.cache| - 1])
    else (w.(fibers := w.fibers + [FRESH]), |w.fibers|)
  }

  /** The construction of a resumable. */
  function Make(w: World): World
    requires WellFormed(w)
  {
    var (v, f) := Create(w);
    var x := v.fibers[f].(result := None, exception := None, job := Some(|w.resumables|));
    v.(fibers := v.fibers[f := x], resumables := v.resumables + [Resumable(Some(f), false, None, true)])
  }

  /** `Fiber::run`, up to where the other fiber takes over. */
  function Run(w: World, f: Id, call: Call): Option<World>
    requires WellFormed(w) && f < |w.fibers|
  {
    if f == w.current then None
    else
      var x := w.fibers[f];
      var x' := x.(state := if x.state != Aborting then Running else Aborting, caller := Some(w.current));
      var y := w.fibers[w.current].(call := Some(call));
      Some(w.(fibers := w.fibers[f := x'][w.current := y], current := f))
  }

  /** The end of `Fiber::destroy`: back to the cache if there is room. */
  function Put(w: World, f: Id, limit: Limit): World {
    if |w.cache| < limit then w.(cache := w.cache + [f], cached := w.cached + 1) else w
  }

  function SetResumable(w: World, r: nat, x: Resumable): World
    requires r < |w.resumables|
  {
    w.(resumables := w.resumables[r := x])
  }

  function SetFiber(w: World, f: Id, x: Fiber): World
    requires f < |w.fibers|
  {
    w.(fibers := w.fibers[f := x])
  }

  /** What a resumable does once its fiber gave back control. */
  function Settle(w: World, r: nat, f: Id, limit: Limit): World
    requires r < |w.resumables| && f < |w.fibers|
  {
    var x := w.resumables[r];
    if w.fibers[f].exception.Some? then
      Put(SetResumable(w, r, x.(done := true, result := None, fiber := None)), f, limit)
    else if IsDone(w.fibers[f].state) then
      Put(SetResumable(w, r, x.(done := true, result := w.fibers[f].result, fiber := None)), f, limit)
    else w
  }

  /** `Fiber::_yield`, and what the fiber that it switches to does next: the end of its own `Fiber::run`, where a
      state other than yielded or idle is an internal error, and the rest of the caller of that. */
  function GiveBack(w: World, limit: Limit): Option<World>
    requires WellFormed(w)
  {
    match w.fibers[w.current].caller
    case None => None
    case Some(c) =>
      if c == w.current || c >= |w.fibers| || w.fibers[c].call.None? then None
      else
        var call := w.fibers[c].call.value;
        var f, r := call.callee, call.resumable;
        if f >= |w.fibers| || r >= |w.resumables| then None
        else if w.fibers[f].state != Yielded && w.fibers[f].state != Idle then None
        else
          var v := SetFiber(w, c, w.fibers[c].(call := None)).(current := c);
          match call.purpose
          case Execute =>
            if w.resumables[r].fiber.None? then None
            else Some(Settle(v.(handle := call.handle), r, w.resumables[r].fiber.value, limit))
          case Cancel =>
            Some(SetResumable(v.(handle := call.handle), r, v.resumables[r].(result := None, done := true)))
          case Discard => Some(Put(v, f, limit))
  }

  datatype Action =
    | New                        // the current fiber constructs a resumable
    | Start(r: nat)              // ... runs one for the first time
    | Resume(r: nat)             // ... resumes one
    | Abort(r: nat)              // ... aborts one
    | Destroy(r: nat)            // ... destroys one
    | Yield                      // the current payload gives back control
    | Return(content: int)       // the current payload function returns
    | Throw(content: int)        // ... or leaves with an exception

  /** One step; none if an assertion fails or an internal error is raised. */
  function Step(w: World, a: Action, limit: Limit): Option<World>
    requires WellFormed(w)
  {
    match a
    case New => Some(Make(w))
    case Start(r) =>
      if r >= |w.resumables| || w.resumables[r].fiber.None? then None
      else var f := w.resumables[r].fiber.value;
           Run(w.(handle := Some(f)), f, Call(f, Execute, r, w.handle))
    case Resume(r) =>
      if r >= |w.resumables| || w.resumables[r].fiber.None? then None
      else var f := w.resumables[r].fiber.value;
           if w.fibers[f].state != Yielded then None
           else Run(w.(handle := Some(f)), f, Call(f, Execute, r, w.handle))
    case Abort(r) =>
      if r >= |w.resumables| then None
      else if w.resumables[r].fiber.None? then Some(w)
      else var f := w.resumables[r].fiber.value;
           if w.fibers[f].state != Yielded then None
           else Run(SetFiber(w, f, w.fibers[f].(state := Aborting)).(handle := Some(f)), f,
                    Call(f, Cancel, r, w.handle))
    case Destroy(r) =>
      if r >= |w.resumables| then None
      else
        var v := SetResumable(w, r, w.resumables[r].(fiber := None, alive := false));
        if w.resumables[r].fiber.None? then Some(v)
        else var f := w.resumables[r].fiber.value;
             if w.fibers[f].state == Yielded then
               Run(SetFiber(v, f, v.fibers[f].(state := Aborting)), f, Call(f, Discard, r, w.handle))
             else Some(Put(v, f, limit))
    case Yield =>
      if w.handle.None? then Some(w)       // refused with an exception
      else
        var f := w.handle.value;
        if f >= |w.fibers| || w.fibers[f].state != Running || f != w.current then None
        else GiveBack(SetFiber(w, f, w.fibers[f].(state := Yielded)), limit)
    case Return(content) => Finish(w, content, false, limit)
    case Throw(content) => Finish(w, content, true, limit)
  }

  /** What a fiber is like after its payload function has ended. */
  function Ended(x: Fiber, content: int, threw: bool): Fiber
    requires x.job.Some?
  {
    var v := Value(x.job.value, content);
    (if threw then x.(exception := Some(v)) else x.(result := Some(v))).(job := None, state := Idle)
  }

  /** The end of a payload function in the loop of `__fiber_run_trampoline`. */
  function Finish(w: World, content: int, threw: bool, limit: Limit): Option<World>
    requires WellFormed(w)
  {
    var x := w.fibers[w.current];
    if x.job.None? then None else GiveBack(SetFiber(w, w.current, Ended(x, content, threw)), limit)
  }
}
