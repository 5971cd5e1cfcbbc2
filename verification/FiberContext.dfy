/** The fibers, the context they share and the resumables, updated in place. */
module FiberContext {
  import opened Basics
  import opened Fibers
  import opened FiberOrder

  /** A step of a context in order that is used as told succeeds and keeps it so. */
  ghost predicate InOrder(w: World, a: Action, limit: Limit, ok: bool, v: World)
    requires WellFormed(w)
  {
    Good(w, limit) && Allowed(w, a) ==> ok && Good(v, limit)
  }

  lemma StepInOrder(w: World, a: Action, limit: Limit)
    requires WellFormed(w)
    ensures Step(w, a, limit).Some? ==> InOrder(w, a, limit, true, Step(w, a, limit).value)
    ensures Step(w, a, limit).None? ==> forall v :: InOrder(w, a, limit, false, v)
  {
    if Good(w, limit) && Allowed(w, a) {
      StepKeeps(w, a, limit);
    }
  }

  class Context {
    var fibers: seq<Fiber>
    var current: Id
    var handle: Option<Id>
    var cache: seq<Id>
    var cached: nat
    var resumables: seq<Resumable>
    const limit: Limit

    function View(): World
      reads this
    {
      World(fibers, current, handle, cache, cached, resumables)
    }

    constructor (limit: Limit)
      ensures View() == START && this.limit == limit && Good(View(), limit)
    {
      StartIsGood(limit);
      fibers, current, handle, cache, cached, resumables := [FRESH], MAIN, None, [], 0, [];
      this.limit := limit;
    }

    method Create() returns (f: Id)
      requires WellFormed(View())
      modifies this
      ensures (View(), f) == Fibers.Create(old(View())) && f < |fibers|
    {
      if |cache| > 0 {
        f := cache[|cache| - 1];
        cache := cache[..|cache| - 1];
        cached := if cached > 0 then cached - 1 else 0;
      } else {
        f := |fibers|;
        fibers := fibers + [FRESH];
      }
    }

    /** Resets what a previous payload left, and sets the next one. */
    method Initialize(f: Id, job: nat)
      requires f < |fibers|
      modifies this`fibers
      ensures fibers == old(fibers)[f := old(fibers)[f].(result := None, exception := None, job := Some(job))]
    {
      fibers := fibers[f := fibers[f].(result := None)];
      fibers := fibers[f := fibers[f].(exception := None)];
      fibers := fibers[f := fibers[f].(job := Some(job))];
    }

    method MakeResumable()
      requires WellFormed(View())
      modifies this
      ensures View() == Make(old(View()))
      ensures InOrder(old(View()), Action.New, limit, true, View())
    {
      StepInOrder(View(), Action.New, limit);
      var f := Create();
      Initialize(f, |resumables|);
      resumables := resumables + [Resumable(Some(f), false, None, true)];
    }

    /** `Fiber::run` and `Fiber::_activate`. */
    method Run(f: Id, call: Call) returns (ok: bool)
      requires WellFormed(View()) && f < |fibers|
      modifies this
      ensures ok <==> Fibers.Run(old(View()), f, call).Some?
      ensures ok ==> View() == Fibers.Run(old(View()), f, call).value
    {
      if fibers[f].state != Aborting {
        fibers := fibers[f := fibers[f].(state := Running)];
      }
      if f == current {
        return false;
      }
      fibers := fibers[f := fibers[f].(caller := Some(current))];
      fibers := fibers[current := fibers[current].(call := Some(call))];
      current := f;
      return true;
    }

    method Put(f: Id)
      modifies this
      ensures View() == Fibers.Put(old(View()), f, limit)
    {
      if |cache| < limit {
        cache := cache + [f];
        cached := cached + 1;
      }
    }

    /** `Resumable::yielded` */
    method Settle(r: nat, f: Id)
      requires r < |resumables| && f < |fibers|
      modifies this
      ensures View() == Fibers.Settle(old(View()), r, f, limit)
    {
      if fibers[f].exception.Some? {
        resumables := resumables[r := resumables[r].(done := true)];
        resumables := resumables[r := resumables[r].(result := None)];
        Put(f);
        resumables := resumables[r := resumables[r].(fiber := None)];
        return;
      }
      if IsDone(fibers[f].state) {
        resumables := resumables[r := resumables[r].(done := true)];
        resumables := resumables[r := resumables[r].(result := fibers[f].result)];
        Put(f);
        resumables := resumables[r := resumables[r].(fiber := None)];
      }
    }

    /** `Fiber::_yield`, and the rest of the operation that the caller is in. */
    method GiveBack() returns (ok: bool)
      requires WellFormed(View())
      modifies this
      ensures ok <==> Fibers.GiveBack(old(View()), limit).Some?
      ensures ok ==> View() == Fibers.GiveBack(old(View()), limit).value
    {
      var caller := fibers[current].caller;
      if caller.None? || caller.value == current || caller.value >= |fibers| || fibers[caller.value].call.None? {
        return false;
      }
      var c := caller.value;
      var call := fibers[c].call.value;
      var r := call.resumable;
      if call.callee >= |fibers| || r >= |resumables| {
        return false;
      }
      match fibers[call.callee].state {
        case Yielded | Idle =>
        case Init | Running | Aborting => return false;
      }
      fibers := fibers[c := fibers[c].(call := None)];
      current := c;
      match call.purpose
      case Execute =>
        if resumables[r].fiber.None? {
          return false;
        }
        handle := call.handle;
        Settle(r, resumables[r].fiber.value);
        return true;
      case Cancel =>
        handle := call.handle;
        resumables := resumables[r := resumables[r].(result := None)];
        resumables := resumables[r := resumables[r].(done := true)];
        return true;
      case Discard =>
        Put(call.callee);
        return true;
    }

    /** `Resumable::run` and `Resumable::resume`, which differ in what they assert. */
    method Execute(r: nat, resume: bool) returns (ok: bool)
      requires WellFormed(View())
      modifies this
      ensures var s := Step(old(View()), if resume then Action.Resume(r) else Action.Start(r), limit);
              (ok <==> s.Some?) && (ok ==> View() == s.value)
      ensures InOrder(old(View()), if resume then Action.Resume(r) else Action.Start(r), limit, ok, View())
    {
      StepInOrder(View(), if resume then Action.Resume(r) else Action.Start(r), limit);
      if r >= |resumables| || resumables[r].fiber.None? {
        return false;
      }
      var f := resumables[r].fiber.value;
      var old' := handle;
      if resume && fibers[f].state != Yielded {
        return false;
      }
      handle := Some(f);
      ok := Run(f, Call(f, Purpose.Execute, r, old'));
    }

    /** `Resumable::abort` */
    method Cancel(r: nat) returns (ok: bool)
      requires WellFormed(View())
      modifies this
      ensures var s := Step(old(View()), Action.Abort(r), limit);
              (ok <==> s.Some?) && (ok ==> View() == s.value)
      ensures InOrder(old(View()), Action.Abort(r), limit, ok, View())
    {
      StepInOrder(View(), Action.Abort(r), limit);
      if r >= |resumables| {
        return false;
      }
      if resumables[r].fiber.None? {
        return true;
      }
      var f := resumables[r].fiber.value;
      var old' := handle;
      if fibers[f].state != Yielded {
        return false;
      }
      handle := Some(f);
      fibers := fibers[f := fibers[f].(state := Aborting)];
      ok := Run(f, Call(f, Purpose.Cancel, r, old'));
    }

    /** The destructor of a resumable, and `Fiber::destroy`. */
    method Discard(r: nat) returns (ok: bool)
      requires WellFormed(View())
      modifies this
      ensures var s := Step(old(View()), Action.Destroy(r), limit);
              (ok <==> s.Some?) && (ok ==> View() == s.value)
      ensures InOrder(old(View()), Action.Destroy(r), limit, ok, View())
    {
      StepInOrder(View(), Action.Destroy(r), limit);
      if r >= |resumables| {
        return false;
      }
      var x := resumables[r];
      resumables := resumables[r := x.(fiber := None, alive := false)];
      if x.fiber.None? {
        return true;
      }
      var f := x.fiber.value;
      if fibers[f].state == Yielded {
        fibers := fibers[f := fibers[f].(state := Aborting)];
        ok := Run(f, Call(f, Purpose.Discard, r, handle));
      } else {
        Put(f);
        return true;
      }
    }

    /** `hilti::rt::detail::yield` */
    method YieldControl() returns (ok: bool)
      requires WellFormed(View())
      modifies this
      ensures var s := Step(old(View()), Yield, limit);
              (ok <==> s.Some?) && (ok ==> View() == s.value)
      ensures InOrder(old(View()), Action.Yield, limit, ok, View())
    {
      StepInOrder(View(), Action.Yield, limit);
      hide Fibers.GiveBack, Fibers.Settle;
      if handle.None? {
        return true;
      }
      var f := handle.value;
      if f >= |fibers| || fibers[f].state != Running || f != current {
        return false;
      }
      fibers := fibers[f := fibers[f].(state := Yielded)];
      ok := GiveBack();
    }

    /** The end of a payload function. */
    method FinishPayload(content: int, threw: bool) returns (ok: bool)
      requires WellFormed(View())
      modifies this
      ensures var s := Finish(old(View()), content, threw, limit);
              (ok <==> s.Some?) && (ok ==> View() == s.value)
      ensures InOrder(old(View()), if threw then Action.Throw(content) else Action.Return(content), limit, ok, View())
    {
      StepInOrder(View(), if threw then Action.Throw(content) else Action.Return(content), limit);
      hide Fibers.GiveBack, Fibers.Settle, InOrder, Ended;
      if fibers[current].job.None? {
        return false;
      }
      EndPayload(content, threw);
      ok := GiveBack();
    }

    /** Records the outcome of the current fiber's function, and leaves the fiber idle. */
    method EndPayload(content: int, threw: bool)
      requires WellFormed(View()) && fibers[current].job.Some?
      modifies this`fibers
      ensures View() == SetFiber(old(View()), current, Ended(old(fibers[current]), content, threw))
      ensures WellFormed(View())
    {
      var f := current;
      var v := Value(fibers[f].job.value, content);
      if threw {
        fibers := fibers[f := fibers[f].(exception := Some(v))];
      } else {
        fibers := fibers[f := fibers[f].(result := Some(v))];
      }
      fibers := fibers[f := fibers[f].(job := None)];
      fibers := fibers[f := fibers[f].(state := Idle)];
    }
  }
}
