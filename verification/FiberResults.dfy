/** What holds of fibers and resumables in every run. */
module FiberResults {
  import opened Basics
  import opened Fibers
  import opened FiberOrder

  function RunAll(w: World, acts: seq<Action>, limit: Limit): Option<World>
    requires WellFormed(w)
    decreases |acts|
  {
    if |acts| == 0 then Some(w)
    else match Step(w, acts[0], limit)
         case None => None
         case Some(v) => if WellFormed(v) then RunAll(v, acts[1..], limit) else None
  }

  ghost predicate AllAllowed(w: World, acts: seq<Action>, limit: Limit)
    requires WellFormed(w)
    decreases |acts|
  {
    |acts| > 0 ==>
      && Allowed(w, acts[0])
      && (Step(w, acts[0], limit).Some? && WellFormed(Step(w, acts[0], limit).value) ==>
            AllAllowed(Step(w, acts[0], limit).value, acts[1..], limit))
  }

  lemma GoodIsWellFormed(w: World, limit: Limit)
    requires Good(w, limit)
    ensures WellFormed(w)
  {
  }

  lemma {:induction false} RunAllKeeps(w: World, acts: seq<Action>, limit: Limit)
    requires Good(w, limit) && WellFormed(w) && AllAllowed(w, acts, limit)
    ensures RunAll(w, acts, limit).Some? && Good(RunAll(w, acts, limit).value, limit)
    decreases |acts|
  {
    if |acts| > 0 {
      StepKeeps(w, acts[0], limit);
      hide Good, Step, Allowed;
      var v := Step(w, acts[0], limit).value;
      GoodIsWellFormed(v, limit);
      RunAllKeeps(v, acts[1..], limit);
    }
  }

  /** No run of a program that uses resumables as told comes to a failing assertion or internal error. */
  lemma NoInternalError(acts: seq<Action>, limit: Limit)
    requires AllAllowed(START, acts, limit)
    ensures RunAll(START, acts, limit).Some? && Good(RunAll(START, acts, limit).value, limit)
  {
    StartIsGood(limit);
    RunAllKeeps(START, acts, limit);
  }

  /** Following the callers from the current fiber leads along `path`, backwards, to main. */
  ghost predicate CallerPath(w: World, path: seq<Id>) {
    && |path| > 0 && path[0] == MAIN && path[|path| - 1] == w.current
    && Distinct(path)
    && forall i :: 0 <= i < |path| - 1 ==> Calls(w, path, i)
  }

  ghost predicate Calls(w: World, path: seq<Id>, i: nat) {
    i + 1 < |path| && path[i + 1] < |w.fibers| && w.fibers[path[i + 1]].caller == Some(path[i])
  }

  /** The callers of the current fiber lead to main without a repeat, and they are, with the current fiber, the ones
      that are running or aborting. */
  lemma CallersLeadToMain(w: World, limit: Limit)
    requires Good(w, limit)
    ensures exists path :: CallerPath(w, path)
                           && forall f :: 0 < f < |w.fibers| ==> (f in path <==> Active(w.fibers[f].state))
  {
    var own, path :| Inv(w, own, path, limit);
    forall i | 0 <= i < |path| - 1
      ensures Calls(w, path, i)
    {
      assert Link(w, own, path, i);
    }
    forall f | 0 < f < |w.fibers|
      ensures f in path <==> Active(w.fibers[f].state)
    {
      if f in path {
        OnPathIsActive(w, own, path, f);
      }
    }
    assert CallerPath(w, path);
  }

  /** The cache holds only fibers without a payload under way, each once, and its counter is right. */
  lemma CacheIsClean(w: World, limit: Limit)
    requires Good(w, limit)
    ensures WellFormed(w) && w.cached == |w.cache| <= limit
    ensures forall k :: 0 <= k < |w.cache| ==> w.fibers[w.cache[k]].state == Init || w.fibers[w.cache[k]].state == Idle
    ensures forall j, k :: 0 <= j < k < |w.cache| ==> w.cache[j] != w.cache[k]
    ensures forall r, k :: 0 <= r < |w.resumables| && 0 <= k < |w.cache| ==> w.resumables[r].fiber != Some(w.cache[k])
  {
    var own, path :| Inv(w, own, path, limit);
    forall k | 0 <= k < |w.cache|
      ensures w.fibers[w.cache[k]].state == Init || w.fibers[w.cache[k]].state == Idle
    {
      assert FiberOk(w.fibers[w.cache[k]], own[w.cache[k]]);
    }
  }

  /** A resumable never has a result that is not its own function's, and none before it is done. */
  lemma OwnResultOnly(w: World, limit: Limit, r: nat)
    requires Good(w, limit) && r < |w.resumables| && w.resumables[r].result.Some?
    ensures w.resumables[r].done && w.resumables[r].result.value.job == r
  {
    var own, path :| Inv(w, own, path, limit);
    assert ResumableOk(w.resumables[r], r, w.fibers);
  }

  /** The call that the current fiber's caller waits for. */
  function PendingCall(w: World): Option<Call>
    requires WellFormed(w)
  {
    match w.fibers[w.current].caller
    case None => None
    case Some(c) => if c < |w.fibers| then w.fibers[c].call else None
  }

  /** A function that ends leaves the resumable that ran it done, without a fiber, and with exactly its result; or
      without one, if an exception is rethrown. The fiber goes to the cache if there is room. */
  lemma OutcomeDelivered(w: World, limit: Limit, content: int, threw: bool)
    requires Good(w, limit) && WellFormed(w) && w.current != MAIN
    requires PendingCall(w).Some? && PendingCall(w).value.purpose == Execute
    ensures var v := Finish(w, content, threw, limit);
            var r := PendingCall(w).value.resumable;
            && v.Some? && r < |v.value.resumables|
            && var x := v.value.resumables[r];
            && x.fiber.None? && x.done && x.result == (if threw then None else Some(Value(r, content)))
            && v.value.cache == PutCache(w, limit)
  {
    var own, path :| Inv(w, own, path, limit);
    TopOfPath(w, own, path);
    FinishExecuteKeeps(w, own, path, limit, content, threw);
  }

  /** A function that is aborted leaves the resumable done without a result, but with its fiber. */
  lemma AbortDelivered(w: World, limit: Limit, content: int, threw: bool)
    requires Good(w, limit) && WellFormed(w) && w.current != MAIN
    requires PendingCall(w).Some? && PendingCall(w).value.purpose == Cancel
    ensures var v := Finish(w, content, threw, limit);
            var r := PendingCall(w).value.resumable;
            && v.Some? && r < |v.value.resumables| && WellFormed(v.value)
            && var x := v.value.resumables[r];
            x.fiber == Some(w.current) && x.done && x.result.None? && v.value.fibers[w.current].state == Idle
  {
    var own, path :| Inv(w, own, path, limit);
    TopOfPath(w, own, path);
    FinishCancelKeeps(w, own, path, limit, content, threw);
    GoodIsWellFormed(Finish(w, content, threw, limit).value, limit);
  }

  /** A suspended fiber that is destroyed ends up in the cache if there is room, after its function was aborted. */
  lemma DiscardDelivered(w: World, limit: Limit, content: int, threw: bool)
    requires Good(w, limit) && WellFormed(w) && w.current != MAIN
    requires PendingCall(w).Some? && PendingCall(w).value.purpose == Discard
    ensures var v := Finish(w, content, threw, limit);
            v.Some? && v.value.resumables == w.resumables && v.value.cache == PutCache(w, limit)
  {
    var own, path :| Inv(w, own, path, limit);
    TopOfPath(w, own, path);
    FinishDiscardKeeps(w, own, path, limit, content, threw);
  }

  /** A function that yields leaves the resumable that ran it not done, with a yielded fiber. */
  lemma YieldSuspends(w: World, limit: Limit)
    requires Good(w, limit) && WellFormed(w) && Allowed(w, Yield) && w.handle.Some?
    ensures w.handle.value == w.current && PendingCall(w).Some?
    ensures var v := Step(w, Yield, limit);
            var r := PendingCall(w).value.resumable;
            && v.Some? && r < |v.value.resumables| && w.current < |v.value.fibers|
            && !v.value.resumables[r].done && v.value.resumables[r].fiber == Some(w.current)
            && v.value.fibers[w.current].state == Yielded && v.value.current == w.fibers[w.current].caller.value
  {
    var own, path :| Inv(w, own, path, limit);
    CurrentIsActive(w, own, path, limit);
    TopOfPath(w, own, path);
    var c := path[|path| - 2];
    var r := w.fibers[c].call.value.resumable;
    assert ResumableOk(w.resumables[r], r, w.fibers) && FiberOk(w.fibers[w.current], own[w.current]);
  }

  /** Yielding is refused properly, or works, unless the payload is being aborted and the context has a handle: then,
      and only then, an assertion fails. */
  lemma YieldSafeExactly(w: World, limit: Limit)
    requires Good(w, limit) && WellFormed(w)
    ensures Step(w, Yield, limit).Some? <==> w.handle.None? || w.fibers[w.current].state != Aborting
  {
    var own, path :| Inv(w, own, path, limit);
    CurrentIsActive(w, own, path, limit);
    if w.handle.Some? && w.fibers[w.current].state != Aborting {
      YieldKeeps(w, own, path, limit);
    }
  }

  /** An allowed step that leads from `w` to `v`. */
  ghost predicate Leads(w: World, a: Action, v: World, limit: Limit) {
    WellFormed(w) && Allowed(w, a) && Step(w, a, limit) == Some(v) && WellFormed(v)
  }

  lemma RunStep(w: World, a: Action, v: World, acts: seq<Action>, limit: Limit)
    requires Leads(w, a, v, limit)
    ensures WellFormed(w) && WellFormed(v) && RunAll(w, [a] + acts, limit) == RunAll(v, acts, limit)
    ensures AllAllowed(w, [a] + acts, limit) <==> AllAllowed(v, acts, limit)
  {
    assert ([a] + acts)[1..] == acts;
  }

  /** A world of main and one more fiber, on which a resumable runs its function. */
  function Pair(main: Fiber, x: Fiber, current: Id, handle: Option<Id>): World {
    World([main, x], current, handle, [], 0, [Resumable(Some(1), false, None, true)])
  }

  lemma PairUpdate(main: Fiber, x: Fiber, y: Fiber)
    ensures [main, x][1 := y] == [main, y] && [main, x][0 := y] == [y, x]
  {
  }

  lemma FirstResumable(limit: Limit)
    ensures Leads(START, New, Pair(FRESH, FRESH.(job := Some(0)), MAIN, None), limit)
  {
    PairUpdate(FRESH, FRESH, FRESH.(job := Some(0)));
    assert [FRESH] + [FRESH] == [FRESH, FRESH];
    assert [] + [Resumable(Some(1), false, None, true)] == [Resumable(Some(1), false, None, true)];
  }

  lemma FirstRun(x: Fiber, limit: Limit)
    requires x == FRESH.(job := Some(0))
    ensures Leads(Pair(FRESH, x, MAIN, None), Start(0),
                  Pair(FRESH.(call := Some(Call(1, Execute, 0, None))), x.(state := Running, caller := Some(MAIN)), 1,
                       Some(1)), limit)
  {
    PairUpdate(FRESH, x, x.(state := Running, caller := Some(MAIN)));
    PairUpdate(FRESH, x.(state := Running, caller := Some(MAIN)), FRESH.(call := Some(Call(1, Execute, 0, None))));
  }

  lemma FirstYield(x: Fiber, limit: Limit)
    requires x.state == Running && x.caller == Some(MAIN) && x.exception == None
    ensures Leads(Pair(FRESH.(call := Some(Call(1, Execute, 0, None))), x, 1, Some(1)), Yield,
                  Pair(FRESH, x.(state := Yielded), MAIN, None), limit)
  {
    var main := FRESH.(call := Some(Call(1, Execute, 0, None)));
    PairUpdate(main, x, x.(state := Yielded));
    PairUpdate(main, x.(state := Yielded), FRESH);
    assert main.(call := None) == FRESH;
  }

  lemma FirstAbort(x: Fiber, limit: Limit)
    requires x.state == Yielded && x.caller == Some(MAIN)
    ensures Leads(Pair(FRESH, x, MAIN, None), Abort(0),
                  Pair(FRESH.(call := Some(Call(1, Cancel, 0, None))), x.(state := Aborting), 1, Some(1)), limit)
  {
    var y := x.(state := Aborting);
    PairUpdate(FRESH, x, y);
    PairUpdate(FRESH, y, y);
    PairUpdate(FRESH, y, FRESH.(call := Some(Call(1, Cancel, 0, None))));
    assert y.(caller := Some(MAIN)) == y;
  }

  /** Four allowed steps lead there: a payload yields, is aborted, and yields again. */
  lemma AbortedPayloadYields(limit: Limit)
    ensures var acts := [New, Start(0), Yield, Abort(0)];
            && AllAllowed(START, acts, limit) && RunAll(START, acts, limit).Some?
            && var w := RunAll(START, acts, limit).value;
               WellFormed(w) && w.handle.Some? && w.fibers[w.current].state == Aborting && Step(w, Yield, limit) == None
  {
    hide *;
    var x := FRESH.(job := Some(0));
    var x' := x.(state := Running, caller := Some(MAIN));
    var x'' := x'.(state := Yielded);
    var called := FRESH.(call := Some(Call(1, Execute, 0, None)));
    var canceled := FRESH.(call := Some(Call(1, Cancel, 0, None)));
    var w1, w2 := Pair(FRESH, x, MAIN, None), Pair(called, x', 1, Some(1));
    var w3, w4 := Pair(FRESH, x'', MAIN, None), Pair(canceled, x''.(state := Aborting), 1, Some(1));
    FreshHasNoError();
    FirstResumable(limit);
    FirstRun(x, limit);
    FirstYield(x', limit);
    FirstAbort(x'', limit);
    RunStep(START, New, w1, [Start(0), Yield, Abort(0)], limit);
    RunStep(w1, Start(0), w2, [Yield, Abort(0)], limit);
    RunStep(w2, Yield, w3, [Abort(0)], limit);
    RunStep(w3, Abort(0), w4, [], limit);
    RunNothing(w4, limit);
    YieldRefused(canceled, x''.(state := Aborting), limit);
    assert [New, Start(0), Yield, Abort(0)] == [New] + [Start(0), Yield, Abort(0)];
    assert [Start(0), Yield, Abort(0)] == [Start(0)] + [Yield, Abort(0)] && [Yield, Abort(0)] == [Yield] + [Abort(0)];
    assert [Abort(0)] == [Abort(0)] + [];
  }

  lemma FreshHasNoError()
    ensures FRESH.exception == None
  {
  }

  lemma RunNothing(w: World, limit: Limit)
    requires WellFormed(w)
    ensures RunAll(w, [], limit) == Some(w) && AllAllowed(w, [], limit)
  {
  }

  lemma YieldRefused(main: Fiber, x: Fiber, limit: Limit)
    requires x.state == Aborting
    ensures var w := Pair(main, x, 1, Some(1));
            && WellFormed(w) && w.handle.Some? && w.fibers[w.current].state == Aborting && Step(w, Yield, limit) == None
  {
  }

  // ---------------------------------------------------------------- filling the cache

  function CreateMany(w: World, n: nat): (World, seq<Id>)
  {
    if n == 0 then (w, [])
    else
      var (v, fs) := CreateMany(w, n - 1);
      (Create(v).0, fs + [Create(v).1])
  }

  /** Destroying fibers that have nothing to abort. */
  function PutMany(w: World, fs: seq<Id>, limit: Limit): World
    decreases |fs|
  {
    if |fs| == 0 then w else PutMany(Put(w, fs[|fs| - 1], limit), fs[..|fs| - 1], limit)
  }

  function PrimeCache(w: World, limit: Limit): World {
    var (v, fs) := CreateMany(w, limit);
    PutMany(v, fs, limit)
  }

  /** Fibers `fs` are held by somebody who is about to destroy them. */
  ghost predicate Spare(w: World, own: seq<Owner>, fs: seq<Id>)
    requires |own| == |w.fibers|
  {
    && Distinct(fs)
    && forall k :: 0 <= k < |fs| ==> fs[k] < |own| && own[fs[k]] == Nobody && w.fibers[fs[k]].state != Yielded
  }

  lemma PopKeeps(w: World, own: seq<Owner>, path: seq<Id>, limit: Limit)
    requires Inv(w, own, path, limit) && |w.cache| > 0
    ensures Inv(Create(w).0, own[Create(w).1 := Nobody], path, limit)
  {
    var (v, f) := Create(w);
    var own' := own[f := Nobody];
    assert FiberOk(w.fibers[f], own[f]);
    assert v.fibers == w.fibers[f := w.fibers[f]];
    assert CacheOk(v, own', limit);
    assert OwnersOk(v, own');
    hide Linked, ResumableOk, HandleOk, PathOk, HandlesOk, FibersOk, OwnersOk, CacheOk;
    LocalFibers(w, own, v, own', f, w.fibers[f], Nobody);
    LocalPath(w, own, v, own', f, w.fibers[f], Nobody, path);
  }

  lemma PutKeeps(w: World, own: seq<Owner>, path: seq<Id>, limit: Limit, f: Id)
    requires Inv(w, own, path, limit)
    requires f < |own| && own[f] == Nobody && w.fibers[f].state != Yielded
    ensures Inv(Put(w, f, limit), own[f := PutOwner(w, limit)], path, limit)
  {
    var v := Put(w, f, limit);
    var o := PutOwner(w, limit);
    var own' := own[f := o];
    assert FiberOk(w.fibers[f], own[f]);
    assert v.fibers == w.fibers[f := w.fibers[f]];
    assert CacheOk(v, own', limit);
    assert OwnersOk(v, own');
    hide Linked, ResumableOk, HandleOk, PathOk, HandlesOk, FibersOk, OwnersOk, CacheOk;
    LocalFibers(w, own, v, own', f, w.fibers[f], o);
    LocalPath(w, own, v, own', f, w.fibers[f], o, path);
  }

  lemma CreateSpare(w: World, own: seq<Owner>, path: seq<Id>, limit: Limit, fs: seq<Id>) returns (own': seq<Owner>)
    requires Inv(w, own, path, limit) && Spare(w, own, fs)
    ensures Inv(Create(w).0, own', path, limit) && Spare(Create(w).0, own', fs + [Create(w).1])
    ensures |Create(w).0.cache| == if |w.cache| > 0 then |w.cache| - 1 else 0
  {
    if |w.cache| > 0 {
      var f := Create(w).1;
      own' := own[f := Nobody];
      PopKeeps(w, own, path, limit);
      assert FiberOk(w.fibers[f], own[f]);
    } else {
      own' := own + [Nobody];
      GrowKeeps(w, own, path, limit);
    }
  }

  lemma {:induction false} CreateManySpare(w: World, own: seq<Owner>, path: seq<Id>, limit: Limit, n: nat)
      returns (own': seq<Owner>)
    requires Inv(w, own, path, limit)
    ensures Inv(CreateMany(w, n).0, own', path, limit) && Spare(CreateMany(w, n).0, own', CreateMany(w, n).1)
    ensures |CreateMany(w, n).1| == n
    ensures |CreateMany(w, n).0.cache| == if |w.cache| > n then |w.cache| - n else 0
  {
    if n == 0 {
      own' := own;
    } else {
      hide Inv, Spare, Create;
      var own1 := CreateManySpare(w, own, path, limit, n - 1);
      own' := CreateSpare(CreateMany(w, n - 1).0, own1, path, limit, CreateMany(w, n - 1).1);
    }
  }

  lemma {:induction false} PutManyKeeps(w: World, own: seq<Owner>, path: seq<Id>, limit: Limit, fs: seq<Id>)
    requires Inv(w, own, path, limit) && Spare(w, own, fs)
    ensures Good(PutMany(w, fs, limit), limit)
    ensures |PutMany(w, fs, limit).cache| == Min(|w.cache| + |fs|, limit)
    decreases |fs|
  {
    if |fs| == 0 {
      IsGood(w, own, path, limit);
    } else {
      var f, rest := fs[|fs| - 1], fs[..|fs| - 1];
      var own' := own[f := PutOwner(w, limit)];
      PutKeeps(w, own, path, limit, f);
      assert Spare(Put(w, f, limit), own', rest) by {
        hide Inv;
      }
      hide Good, Spare;
      PutManyKeeps(Put(w, f, limit), own', path, limit, rest);
    }
  }

  /** Priming fills the cache, and everything stays in order. */
  lemma PrimeCacheFills(w: World, limit: Limit)
    requires Good(w, limit)
    ensures Good(PrimeCache(w, limit), limit) && |PrimeCache(w, limit).cache| == limit
  {
    var own, path :| Inv(w, own, path, limit);
    var own' := CreateManySpare(w, own, path, limit, limit);
    PutManyKeeps(CreateMany(w, limit).0, own', path, limit, CreateMany(w, limit).1);
  }
}
