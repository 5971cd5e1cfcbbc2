/** What each step does to fibers, resumables and the context, in every good world. */
module FiberEffects {
  import opened Basics
  import opened Fibers
  import opened FiberOrder
  import opened FiberResults

  /** Fiber `f` has taken over: the one that was current waits for it, and all others are as they were. */
  ghost predicate TakenOver(w: World, v: World, f: Id, state: State)
    requires WellFormed(w)
  {
    && WellFormed(v) && f < |w.fibers| == |v.fibers| && f != w.current && v.current == f
    && v.fibers[f] == w.fibers[f].(state := state, caller := Some(w.current))
    && v.fibers[w.current] == w.fibers[w.current].(call := v.fibers[w.current].call)
    && (forall k :: 0 <= k < |w.fibers| && k != f && k != w.current ==> v.fibers[k] == w.fibers[k])
    && v.cache == w.cache && v.cached == w.cached
  }

  /** All resumables but `r` are as they were. */
  ghost predicate OnlyResumable(w: World, v: World, r: nat) {
    && |v.resumables| == |w.resumables|
    && forall k :: 0 <= k < |w.resumables| && k != r ==> v.resumables[k] == w.resumables[k]
  }

  lemma HeldIsElsewhere(w: World, own: seq<Owner>, path: seq<Id>, limit: Limit, r: nat)
    requires Inv(w, own, path, limit) && r < |w.resumables| && w.resumables[r].fiber.Some?
    ensures var f := w.resumables[r].fiber.value;
            && f != MAIN && own[f] == Held(r) && FiberOk(w.fibers[f], own[f])
            && (!Active(w.fibers[f].state) ==> f != w.current)
            && (w.fibers[f].job.Some? ==> w.fibers[f].job == Some(r))
            && (w.fibers[f].state == Yielded ==> w.fibers[f].job == Some(r))
  {
    CurrentIsActive(w, own, path, limit);
  }

  /** Running a resumable, for the first time or again, gives control to its fiber, which executes its function with
      the context's handle set to it; nothing else changes. */
  lemma RunEffect(w: World, r: nat, resume: bool, limit: Limit)
    requires Good(w, limit) && WellFormed(w)
    requires Allowed(w, if resume then Action.Resume(r) else Action.Start(r))
    ensures var next := Step(w, if resume then Action.Resume(r) else Action.Start(r), limit);
            && r < |w.resumables| && w.resumables[r].fiber.Some? && next.Some?
            && var f, v := w.resumables[r].fiber.value, next.value;
            && TakenOver(w, v, f, Running) && v.fibers[f].job == Some(r) && v.handle == Some(f)
            && v.resumables == w.resumables && PendingCall(v) == Some(Call(f, Execute, r, w.handle))
  {
    var own, path :| Inv(w, own, path, limit);
    HeldIsElsewhere(w, own, path, limit, r);
  }

  /** Aborting a suspended resumable gives control to its fiber, so that the function ends; if it has no fiber, there
      is nothing to do. */
  lemma AbortEffect(w: World, r: nat, limit: Limit)
    requires Good(w, limit) && WellFormed(w) && Allowed(w, Action.Abort(r))
    ensures var next := Step(w, Action.Abort(r), limit);
            && r < |w.resumables| && next.Some?
            && var v := next.value;
               if w.resumables[r].fiber.None? then v == w
               else
                 var f := w.resumables[r].fiber.value;
                 && TakenOver(w, v, f, Aborting) && v.fibers[f].job == Some(r) && v.handle == Some(f)
                 && v.resumables == w.resumables && PendingCall(v) == Some(Call(f, Cancel, r, w.handle))
  {
    var own, path :| Inv(w, own, path, limit);
    if w.resumables[r].fiber.Some? {
      HeldIsElsewhere(w, own, path, limit, r);
    }
  }

  /** A destroyed resumable loses its fiber. A suspended one gets control first, with the handle as it is; any other
      goes to the cache if there is room. */
  lemma DestroyEffect(w: World, r: nat, limit: Limit)
    requires Good(w, limit) && WellFormed(w) && Allowed(w, Action.Destroy(r))
    ensures var next := Step(w, Action.Destroy(r), limit);
            && r < |w.resumables| && next.Some?
            && var v := next.value;
            && OnlyResumable(w, v, r) && v.resumables[r] == w.resumables[r].(fiber := None, alive := false)
            && v.handle == w.handle
            && match w.resumables[r].fiber
               case None => v.fibers == w.fibers && v.current == w.current && v.cache == w.cache
               case Some(f) =>
                 if w.fibers[f].state == Yielded then
                   && TakenOver(w, v, f, Aborting) && v.fibers[f].job == Some(r)
                   && PendingCall(v) == Some(Call(f, Discard, r, w.handle))
                 else
                   && v.fibers == w.fibers && v.current == w.current
                   && v.cache == if |w.cache| < limit then w.cache + [f] else w.cache
  {
    var own, path :| Inv(w, own, path, limit);
    if w.resumables[r].fiber.Some? {
      HeldIsElsewhere(w, own, path, limit, r);
    }
  }

  /** A new resumable gets the fiber that was put into the cache last, or else a new one, with its own function and no
      outcome. */
  lemma NewEffect(w: World, limit: Limit)
    requires Good(w, limit) && WellFormed(w)
    ensures var next := Step(w, Action.New, limit);
            && next.Some?
            && var v, r := next.value, |w.resumables|;
            && |v.resumables| == r + 1 && v.resumables[..r] == w.resumables
            && v.resumables[r].fiber.Some? && v.resumables[r].alive
            && !v.resumables[r].done && v.resumables[r].result == None
            && var f := v.resumables[r].fiber.value;
            && f < |v.fibers| && v.fibers[f].job == Some(r)
            && v.fibers[f].result == None && v.fibers[f].exception == None
            && (v.fibers[f].state == Init || v.fibers[f].state == Idle)
            && |v.fibers| >= |w.fibers|
            && (forall k :: 0 <= k < |w.fibers| && k != f ==> v.fibers[k] == w.fibers[k])
            && v.current == w.current && v.handle == w.handle
            && if |w.cache| > 0 then v.cache + [f] == w.cache && |v.fibers| == |w.fibers|
               else v.cache == [] && f == |w.fibers| && |v.fibers| == f + 1
  {
    var own, path :| Inv(w, own, path, limit);
    if |w.cache| > 0 {
      var f := w.cache[|w.cache| - 1];
      assert own[f] == Cached && FiberOk(w.fibers[f], own[f]);
    }
  }

  /** Control is back with the caller of the fiber that was current, which is left as `x`. */
  ghost predicate GivenBack(w: World, v: World, x: Fiber)
    requires WellFormed(w)
  {
    && w.fibers[w.current].caller.Some?
    && var c := w.fibers[w.current].caller.value;
    && |v.fibers| == |w.fibers| && c < |w.fibers| && c != w.current && v.current == c
    && v.fibers[w.current] == x && v.fibers[c] == w.fibers[c].(call := None)
    && forall k :: 0 <= k < |w.fibers| && k != c && k != w.current ==> v.fibers[k] == w.fibers[k]
  }

  /** Yielding gives control back, with the handle as it was before the call; the fiber stays with its resumable. */
  lemma YieldEffect(w: World, limit: Limit)
    requires Good(w, limit) && WellFormed(w) && Allowed(w, Yield)
    ensures var next := Step(w, Yield, limit);
            && next.Some?
            && if w.handle.None? then next.value == w
               else
                 && PendingCall(w).Some? && GivenBack(w, next.value, w.fibers[w.current].(state := Yielded))
                 && next.value.handle == PendingCall(w).value.handle
                 && next.value.resumables == w.resumables && next.value.cache == w.cache
  {
    var own, path :| Inv(w, own, path, limit);
    CurrentIsActive(w, own, path, limit);
    if w.handle.Some? {
      TopOfPath(w, own, path);
      var c := path[|path| - 2];
      var r := w.fibers[c].call.value.resumable;
      assert ResumableOk(w.resumables[r], r, w.fibers) && FiberOk(w.fibers[w.current], own[w.current]);
      assert SetResumable(w, r, w.resumables[r]) == w;
    }
  }

  lemma CallIsPending(w: World, own: seq<Owner>, path: seq<Id>, limit: Limit)
    requires Inv(w, own, path, limit) && w.current != MAIN
    ensures |path| >= 2 && PendingCall(w).Some?
    ensures var c := path[|path| - 2];
            && c < |w.fibers| && c != w.current && Linked(w, own, c, w.current)
            && w.fibers[w.current].caller == Some(c) && PendingCall(w) == w.fibers[c].call
    ensures w.fibers[w.current].job.Some?
    ensures PendingCall(w).value.purpose != Discard ==>
              w.fibers[w.current].job == Some(PendingCall(w).value.resumable)
  {
    TopOfPath(w, own, path);
    CurrentIsActive(w, own, path, limit);
    assert FiberOk(w.fibers[w.current], own[w.current]);
  }

  /** A fiber whose payload function has ended, with a result or an exception. */
  ghost predicate HasEnded(x: Fiber, y: Fiber, content: int, threw: bool)
    requires x.job.Some?
  {
    && y.state == Idle && y.job == None && y.caller == x.caller && y.call == x.call
    && y.result == (if threw then None else Some(Value(x.job.value, content)))
    && y.exception == (if threw then Some(Value(x.job.value, content)) else None)
  }

  /** What a resumable is like after its fiber's function has ended, depending on what the fiber was called for. */
  ghost predicate Settled(x: Resumable, y: Resumable, purpose: Purpose, outcome: Option<Value>) {
    y == match purpose
         case Execute => x.(fiber := None, done := true, result := outcome)
         case Cancel => x.(done := true, result := None)
         case Discard => x
  }

  /** `v` is where `w` comes to when the current payload function ends. */
  ghost predicate FinishedTo(w: World, v: World, content: int, threw: bool, limit: Limit)
    requires WellFormed(w)
  {
    && PendingCall(w).Some? && w.fibers[w.current].job.Some?
    && var call := PendingCall(w).value;
    && w.current < |v.fibers| && GivenBack(w, v, v.fibers[w.current])
    && HasEnded(w.fibers[w.current], v.fibers[w.current], content, threw)
    && v.handle == (if call.purpose == Discard then w.handle else call.handle)
    && OnlyResumable(w, v, call.resumable) && call.resumable < |w.resumables|
    && Settled(w.resumables[call.resumable], v.resumables[call.resumable], call.purpose,
               if threw then None else Some(Value(call.resumable, content)))
    && v.cache == (if call.purpose == Cancel then w.cache else PutCache(w, limit))
  }

  lemma ExecuteFinishes(w: World, own: seq<Owner>, path: seq<Id>, content: int, threw: bool, limit: Limit)
    requires Inv(w, own, path, limit) && w.current != MAIN && PendingCall(w).Some?
    requires PendingCall(w).value.purpose == Execute
    ensures var next := Finish(w, content, threw, limit);
            next.Some? && FinishedTo(w, next.value, content, threw, limit)
  {
    CallIsPending(w, own, path, limit);
    var r := PendingCall(w).value.resumable;
    assert FiberOk(w.fibers[w.current], own[w.current]) && ResumableOk(w.resumables[r], r, w.fibers);
    hide Inv, OwnersOk, CacheOk, FibersOk, ResumablesOk, PathOk, HandlesOk;
  }

  lemma CancelFinishes(w: World, own: seq<Owner>, path: seq<Id>, content: int, threw: bool, limit: Limit)
    requires Inv(w, own, path, limit) && w.current != MAIN && PendingCall(w).Some?
    requires PendingCall(w).value.purpose == Cancel
    ensures var next := Finish(w, content, threw, limit);
            next.Some? && FinishedTo(w, next.value, content, threw, limit)
  {
    CallIsPending(w, own, path, limit);
    assert FiberOk(w.fibers[w.current], own[w.current]);
  }

  lemma DiscardFinishes(w: World, own: seq<Owner>, path: seq<Id>, content: int, threw: bool, limit: Limit)
    requires Inv(w, own, path, limit) && w.current != MAIN && PendingCall(w).Some?
    requires PendingCall(w).value.purpose == Discard
    ensures var next := Finish(w, content, threw, limit);
            next.Some? && FinishedTo(w, next.value, content, threw, limit)
  {
    CallIsPending(w, own, path, limit);
    assert FiberOk(w.fibers[w.current], own[w.current]);
  }

  lemma GoodParts(w: World, limit: Limit) returns (own: seq<Owner>, path: seq<Id>)
    requires Good(w, limit)
    ensures Inv(w, own, path, limit)
  {
    own, path :| Inv(w, own, path, limit);
  }

  lemma StepFinishes(w: World, content: int, threw: bool, limit: Limit)
    requires WellFormed(w)
    ensures Step(w, if threw then Action.Throw(content) else Action.Return(content), limit)
            == Finish(w, content, threw, limit)
  {
  }

  /** The end of a payload function gives control back, with the handle as it was before the call. The resumable that
      ran it is done and has given up its fiber; one that was aborted is done and keeps it. */
  lemma FinishEffect(w: World, content: int, threw: bool, limit: Limit)
    requires Good(w, limit) && WellFormed(w) && w.current != MAIN
    ensures var next := Step(w, if threw then Action.Throw(content) else Action.Return(content), limit);
            next.Some? && FinishedTo(w, next.value, content, threw, limit)
  {
    hide *;
    var own, path := GoodParts(w, limit);
    CallIsPending(w, own, path, limit);
    StepFinishes(w, content, threw, limit);
    match PendingCall(w).value.purpose
    case Execute => ExecuteFinishes(w, own, path, content, threw, limit);
    case Cancel => CancelFinishes(w, own, path, content, threw, limit);
    case Discard => DiscardFinishes(w, own, path, content, threw, limit);
  }

  // ---------------------------------------------------------------- calls and returns

  /** A world to which control has come back: of the fibers, only `f` may differ, and whoever is current is not waiting
      any more. */
  ghost predicate BackAgain(w: World, v: World, f: Id)
    requires WellFormed(w)
  {
    && v.current == w.current && v.handle == w.handle && |v.fibers| == |w.fibers| && f != w.current
    && v.fibers[w.current] == w.fibers[w.current].(call := None)
    && forall k :: 0 <= k < |w.fibers| && k != f && k != w.current ==> v.fibers[k] == w.fibers[k]
  }

  /** Running a resumable whose function then yields changes nothing but that its fiber is suspended. */
  lemma RunThenYield(w: World, r: nat, resume: bool, limit: Limit)
    requires Good(w, limit) && WellFormed(w)
    requires Allowed(w, if resume then Action.Resume(r) else Action.Start(r))
    ensures var next := Step(w, if resume then Action.Resume(r) else Action.Start(r), limit);
            && next.Some? && WellFormed(next.value) && r < |w.resumables| && w.resumables[r].fiber.Some?
            && var last := Step(next.value, Yield, limit);
            && last.Some? && BackAgain(w, last.value, w.resumables[r].fiber.value)
            && var f := w.resumables[r].fiber.value;
            && last.value.fibers[f] == w.fibers[f].(state := Yielded, caller := Some(w.current))
            && last.value.resumables == w.resumables && last.value.cache == w.cache
  {
    var a := if resume then Action.Resume(r) else Action.Start(r);
    StepKeeps(w, a, limit);
    RunEffect(w, r, resume, limit);
    var v := Step(w, a, limit).value;
    assert Allowed(v, Yield);
    YieldEffect(v, limit);
    hide Step, Good;
  }

  /** Running a resumable whose function then ends leaves it done with just that outcome; its fiber is idle. */
  lemma RunThenFinish(w: World, r: nat, resume: bool, content: int, threw: bool, limit: Limit)
    requires Good(w, limit) && WellFormed(w)
    requires Allowed(w, if resume then Action.Resume(r) else Action.Start(r))
    ensures var next := Step(w, if resume then Action.Resume(r) else Action.Start(r), limit);
            && next.Some? && WellFormed(next.value) && r < |w.resumables| && w.resumables[r].fiber.Some?
            && var last := Step(next.value, if threw then Action.Throw(content) else Action.Return(content), limit);
            && last.Some? && BackAgain(w, last.value, w.resumables[r].fiber.value)
            && last.value.fibers[w.resumables[r].fiber.value].state == Idle
            && last.value.resumables
               == w.resumables[r := w.resumables[r].(fiber := None, done := true,
                                                     result := if threw then None else Some(Value(r, content)))]
  {
    var a := if resume then Action.Resume(r) else Action.Start(r);
    StepKeeps(w, a, limit);
    RunEffect(w, r, resume, limit);
    var v := Step(w, a, limit).value;
    NotMain(w, r, limit);
    FinishEffect(v, content, threw, limit);
    hide Step, Good;
  }

  lemma NotMain(w: World, r: nat, limit: Limit)
    requires Good(w, limit) && r < |w.resumables| && w.resumables[r].fiber.Some?
    ensures w.resumables[r].fiber.value != MAIN
  {
    var own, path :| Inv(w, own, path, limit);
    HeldIsElsewhere(w, own, path, limit, r);
  }

  /** Aborting a suspended resumable, whose function then ends in whatever way, leaves it done without a result; its
      fiber is idle. */
  lemma AbortThenFinish(w: World, r: nat, content: int, threw: bool, limit: Limit)
    requires Good(w, limit) && WellFormed(w) && Allowed(w, Action.Abort(r)) && w.resumables[r].fiber.Some?
    ensures var next := Step(w, Action.Abort(r), limit);
            && next.Some? && WellFormed(next.value)
            && var last := Step(next.value, if threw then Action.Throw(content) else Action.Return(content), limit);
            && last.Some? && BackAgain(w, last.value, w.resumables[r].fiber.value)
            && last.value.fibers[w.resumables[r].fiber.value].state == Idle
            && last.value.resumables == w.resumables[r := w.resumables[r].(done := true, result := None)]
  {
    StepKeeps(w, Action.Abort(r), limit);
    AbortEffect(w, r, limit);
    NotMain(w, r, limit);
    FinishEffect(Step(w, Action.Abort(r), limit).value, content, threw, limit);
    hide Step, Good;
  }
}
