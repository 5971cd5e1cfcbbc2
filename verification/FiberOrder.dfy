/** The order that every step of the fiber machine keeps. */
module FiberOrder {
  import opened Basics
  import opened Fibers

  /** Who holds the unique pointer to a fiber: the context, nobody any more, the cache, a resumable, or a call of
      `Fiber::destroy` that is under way. */
  datatype Owner = Root | Nobody | Cached | Held(r: nat) | Dropped

  ghost predicate OwnersOk(w: World, own: seq<Owner>) {
    && WellFormed(w)
    && |own| == |w.fibers| && own[MAIN] == Root
    && (forall f :: 0 < f < |own| ==> own[f] != Root)
    && (forall f :: 0 <= f < |own| && own[f].Held? ==>
          own[f].r < |w.resumables| && w.resumables[own[f].r].fiber == Some(f))
    && (forall r :: 0 <= r < |w.resumables| && w.resumables[r].fiber.Some? ==>
          own[w.resumables[r].fiber.value] == Held(r))
  }

  /** The cache has no duplicates, and its counter is right. */
  ghost predicate CacheOk(w: World, own: seq<Owner>, limit: Limit)
    requires WellFormed(w) && |own| == |w.fibers|
  {
    && w.cached == |w.cache| <= limit
    && (forall k :: 0 <= k < |w.cache| ==> own[w.cache[k]] == Cached)
    && (forall j, k :: 0 <= j < k < |w.cache| ==> w.cache[j] != w.cache[k])
  }

  predicate Active(s: State) {
    s == Running || s == Aborting
  }

  /** A fiber has a payload function while it executes or is suspended, an outcome only after that; and both are
      its resumable's. */
  predicate FiberOk(x: Fiber, o: Owner) {
    && (x.state == Running || x.state == Yielded ==> o.Held?)
    && (x.state == Aborting ==> o.Held? || o.Dropped?)
    && (Active(x.state) || x.state == Yielded ==> x.job.Some?)
    && (x.job.Some? ==> x.result.None? && x.exception.None?)
    && (o.Held? ==>
          && (x.job.Some? ==> x.job.value == o.r)
          && (x.result.Some? ==> x.result.value.job == o.r)
          && (x.exception.Some? ==> x.exception.value.job == o.r))
  }

  ghost predicate FibersOk(w: World, own: seq<Owner>)
    requires |own| == |w.fibers|
  {
    && |w.fibers| > 0 && w.fibers[MAIN].state == Init
    && forall f :: 0 <= f < |w.fibers| ==> FiberOk(w.fibers[f], own[f])
  }

  predicate ResumableOk(x: Resumable, r: nat, fibers: seq<Fiber>)
    requires x.fiber.Some? ==> x.fiber.value < |fibers|
  {
    && (x.result.Some? ==> x.done && x.result.value.job == r)
    && (x.alive && !x.done ==> x.fiber.Some?)
    && (x.fiber.Some? ==>
          var y := fibers[x.fiber.value];
          && x.alive
          && (!x.done ==> y.job == Some(r))
          && (x.done ==> y.state == Idle && y.job.None? && x.result.None?))
  }

  ghost predicate ResumablesOk(w: World)
    requires WellFormed(w)
  {
    forall r :: 0 <= r < |w.resumables| ==> ResumableOk(w.resumables[r], r, w.fibers)
  }

  /** The context's handle at the time when fiber `a`, which is current or waits for another one, executes. */
  function HandleAt(w: World, a: Id): Option<Id>
    requires a < |w.fibers|
  {
    if a == w.current then w.handle
    else match w.fibers[a].call
         case Some(call) => call.handle
         case None => None
  }

  /** Fiber `a` called `b` and waits for it. */
  predicate Linked(w: World, own: seq<Owner>, a: Id, b: Id)
    requires |own| == |w.fibers|
  {
    && a < |w.fibers| && b < |w.fibers|
    && w.fibers[b].caller == Some(a)
    && w.fibers[a].call.Some?
    && var call := w.fibers[a].call.value;
    && call.callee == b && call.resumable < |w.resumables|
    && match call.purpose
       case Execute => w.fibers[b].state == Running && own[b] == Held(call.resumable)
       case Cancel => w.fibers[b].state == Aborting && own[b] == Held(call.resumable)
       case Discard => w.fibers[b].state == Aborting && own[b] == Dropped && HandleAt(w, b) == call.handle
  }

  ghost predicate Link(w: World, own: seq<Owner>, path: seq<Id>, i: nat)
    requires |own| == |w.fibers|
  {
    i + 1 < |path| && Linked(w, own, path[i], path[i + 1])
  }

  predicate Distinct(path: seq<Id>) {
    forall i, j :: 0 <= i < j < |path| ==> path[i] != path[j]
  }

  /** The callers, from main to the current fiber, without a repeat; just these are active. */
  ghost predicate PathOk(w: World, own: seq<Owner>, path: seq<Id>)
    requires |own| == |w.fibers|
  {
    && |path| > 0 && path[0] == MAIN && path[|path| - 1] == w.current
    && (forall i :: 0 <= i < |path| ==> path[i] < |w.fibers|)
    && Distinct(path)
    && (forall i :: 0 <= i < |path| - 1 ==> Link(w, own, path, i))
    && (forall f :: 0 <= f < |w.fibers| && Active(w.fibers[f].state) ==> f in path)
  }

  /** The handle is the fiber that executes, if that is not aborting. */
  predicate HandleOk(w: World, a: Id)
    requires a < |w.fibers|
  {
    && (a == MAIN ==> HandleAt(w, a) == None)
    && (w.fibers[a].state == Running ==> HandleAt(w, a) == Some(a))
  }

  ghost predicate HandlesOk(w: World, path: seq<Id>) {
    forall i :: 0 <= i < |path| ==> path[i] < |w.fibers| && HandleOk(w, path[i])
  }

  ghost predicate Inv(w: World, own: seq<Owner>, path: seq<Id>, limit: Limit) {
    && OwnersOk(w, own) && CacheOk(w, own, limit) && FibersOk(w, own) && ResumablesOk(w)
    && PathOk(w, own, path) && HandlesOk(w, path)
  }

  ghost predicate Good(w: World, limit: Limit) {
    exists own, path :: Inv(w, own, path, limit)
  }

  lemma StartIsGood(limit: Limit)
    ensures Good(START, limit)
  {
    assert Inv(START, [Root], [MAIN], limit);
  }

  /** What resumables ask of those who use them. */
  ghost predicate Allowed(w: World, a: Action)
    requires WellFormed(w)
  {
    match a
    case New => true
    case Start(r) =>     // only once
      && r < |w.resumables| && w.resumables[r].fiber.Some?
      && var x := w.fibers[w.resumables[r].fiber.value];
      && x.job.Some? && (x.state == Init || x.state == Idle)
    case Resume(r) =>    // only when the function has yielded
      r < |w.resumables| && w.resumables[r].fiber.Some? && w.fibers[w.resumables[r].fiber.value].state == Yielded
    case Abort(r) =>
      && r < |w.resumables|
      && (w.resumables[r].fiber.Some? ==> w.fibers[w.resumables[r].fiber.value].state == Yielded)
    case Destroy(r) =>   // not while it executes
      && r < |w.resumables|
      && (w.resumables[r].fiber.Some? ==> !Active(w.fibers[w.resumables[r].fiber.value].state))
    case Yield =>        // not by a payload that is being aborted
      w.handle.Some? ==> w.fibers[w.current].state != Aborting
    case Return(_) => w.current != MAIN
    case Throw(_) => w.current != MAIN
  }

  // ---------------------------------------------------------------- steps that keep it

  /** Fiber `f`, whose owner is `o` from now on, and the pending call of fiber `c` have changed. */
  ghost predicate Changed(w: World, own: seq<Owner>, v: World, own': seq<Owner>,
                          f: Id, x: Fiber, o: Owner, c: Id, k: Option<Call>) {
    && |own| == |w.fibers| && f != c && f != MAIN && f < |w.fibers| && c < |w.fibers|
    && v.fibers == w.fibers[f := x][c := w.fibers[c].(call := k)]
    && own' == own[f := o] && o != Root && FiberOk(x, o)
  }

  lemma ChangedFibers(w: World, own: seq<Owner>, v: World, own': seq<Owner>,
                      f: Id, x: Fiber, o: Owner, c: Id, k: Option<Call>)
    requires Changed(w, own, v, own', f, x, o, c, k) && FibersOk(w, own)
    ensures FibersOk(v, own')
  {
    forall g | 0 <= g < |v.fibers|
      ensures FiberOk(v.fibers[g], own'[g])
    {
      assert FiberOk(w.fibers[g], own[g]);
    }
  }

  lemma ResumableFrame(x: Resumable, r: nat, w: World, v: World, own: seq<Owner>, own': seq<Owner>,
                       f: Id, y: Fiber, o: Owner, c: Id, k: Option<Call>)
    requires Changed(w, own, v, own', f, y, o, c, k)
    requires x.fiber.Some? ==> x.fiber.value < |w.fibers| && x.fiber.value != f
    requires ResumableOk(x, r, w.fibers)
    ensures ResumableOk(x, r, v.fibers)
  {
  }

  /** Resumable `r` is the one concerned. */
  lemma ChangedResumables(w: World, own: seq<Owner>, v: World, own': seq<Owner>,
                          f: Id, x: Fiber, o: Owner, c: Id, k: Option<Call>, r: nat)
    requires Changed(w, own, v, own', f, x, o, c, k) && OwnersOk(w, own) && ResumablesOk(w) && WellFormed(v)
    requires r < |w.resumables| == |v.resumables| && v.resumables == w.resumables[r := v.resumables[r]]
    requires own[f].Held? ==> own[f] == Held(r)
    requires ResumableOk(v.resumables[r], r, v.fibers)
    ensures ResumablesOk(v)
  {
    forall q | 0 <= q < |v.resumables|
      ensures ResumableOk(v.resumables[q], q, v.fibers)
    {
      if q != r {
        assert ResumableOk(w.resumables[q], q, w.fibers);
        ResumableFrame(w.resumables[q], q, w, v, own, own', f, x, o, c, k);
      }
    }
  }

  lemma ChangedOwners(w: World, own: seq<Owner>, v: World, own': seq<Owner>,
                      f: Id, x: Fiber, o: Owner, c: Id, k: Option<Call>, r: nat)
    requires Changed(w, own, v, own', f, x, o, c, k) && OwnersOk(w, own) && WellFormed(v)
    requires r < |w.resumables| == |v.resumables| && v.resumables == w.resumables[r := v.resumables[r]]
    requires own[f].Held? ==> own[f] == Held(r)
    requires if o.Held? then o == own[f] && v.resumables[r].fiber == w.resumables[r].fiber
             else if own[f].Held? then v.resumables[r].fiber == None
             else v.resumables[r].fiber == w.resumables[r].fiber
    ensures OwnersOk(v, own')
  {
  }

  lemma ChangedCache(w: World, own: seq<Owner>, v: World, own': seq<Owner>,
                     f: Id, x: Fiber, o: Owner, c: Id, k: Option<Call>, limit: Limit)
    requires WellFormed(w) && WellFormed(v)
    requires Changed(w, own, v, own', f, x, o, c, k) && CacheOk(w, own, limit) && own[f] != Cached
    requires if o == Cached then v.cache == w.cache + [f] && v.cached == w.cached + 1 && |w.cache| < limit
             else v.cache == w.cache && v.cached == w.cached
    ensures CacheOk(v, own', limit)
  {
  }

  /** A link that does not concern what changed. */
  lemma LinkFrame(w: World, own: seq<Owner>, v: World, own': seq<Owner>, a: Id, b: Id)
    requires |own| == |w.fibers| && |own'| == |v.fibers| && Linked(w, own, a, b)
    requires a < |v.fibers| && b < |v.fibers| && own'[b] == own[b] && |w.resumables| <= |v.resumables|
    requires v.fibers[a].call == w.fibers[a].call
    requires v.fibers[b].caller == w.fibers[b].caller && v.fibers[b].state == w.fibers[b].state
    requires HandleAt(v, b) == HandleAt(w, b)
    ensures Linked(v, own', a, b)
  {
  }

  lemma PathPush(w: World, own: seq<Owner>, v: World, own': seq<Owner>,
                 f: Id, x: Fiber, o: Owner, k: Call, path: seq<Id>)
    requires w.current < |w.fibers| && Changed(w, own, v, own', f, x, o, w.current, Some(k)) && PathOk(w, own, path)
    requires v.current == f && f !in path && k.handle == w.handle && |w.resumables| <= |v.resumables|
    requires Linked(v, own', w.current, f)
    ensures PathOk(v, own', path + [f])
  {
    var n, p := |path|, path + [f];
    forall i | 0 <= i < |p| - 1
      ensures Link(v, own', p, i)
    {
      if i < n - 1 {
        assert Link(w, own, path, i);
        assert path[i] != path[n - 1];
        LinkFrame(w, own, v, own', path[i], path[i + 1]);
      }
    }
    forall g | 0 <= g < |v.fibers| && Active(v.fibers[g].state)
      ensures g in p
    {
      assert g == f || Active(w.fibers[g].state);
    }
  }

  lemma PathPop(w: World, own: seq<Owner>, v: World, own': seq<Owner>,
                f: Id, x: Fiber, o: Owner, c: Id, path: seq<Id>)
    requires Changed(w, own, v, own', f, x, o, c, None) && PathOk(w, own, path)
    requires |path| >= 2 && f == w.current && c == path[|path| - 2] == v.current
    requires !Active(x.state) && v.handle == HandleAt(w, c) && |w.resumables| <= |v.resumables|
    ensures PathOk(v, own', path[..|path| - 1])
  {
    var n := |path|;
    var p := path[..n - 1];
    forall i | 0 <= i < |p| - 1
      ensures Link(v, own', p, i)
    {
      assert Link(w, own, path, i);
      assert path[i] != path[n - 2] && path[i] != path[n - 1] && path[i + 1] != path[n - 1];
      LinkFrame(w, own, v, own', path[i], path[i + 1]);
    }
    forall g | 0 <= g < |v.fibers| && Active(v.fibers[g].state)
      ensures g in p
    {
      assert Active(w.fibers[g].state) && g != f;
    }
  }

  lemma HandleFrame(w: World, v: World, a: Id)
    requires a < |w.fibers| && a < |v.fibers| && HandleOk(w, a)
    requires HandleAt(v, a) == HandleAt(w, a) && v.fibers[a].state == w.fibers[a].state
    ensures HandleOk(v, a)
  {
  }

  lemma HandlesPush(w: World, own: seq<Owner>, v: World, own': seq<Owner>,
                    f: Id, x: Fiber, o: Owner, k: Call, path: seq<Id>)
    requires w.current < |w.fibers| && Changed(w, own, v, own', f, x, o, w.current, Some(k)) && PathOk(w, own, path)
    requires v.current == f && f !in path && k.handle == w.handle
    requires HandlesOk(w, path) && HandleOk(v, f)
    ensures HandlesOk(v, path + [f])
  {
    var p := path + [f];
    forall i | 0 <= i < |p|
      ensures p[i] < |v.fibers| && HandleOk(v, p[i])
    {
      if i < |path| {
        assert HandleOk(w, path[i]);
        HandleFrame(w, v, path[i]);
      }
    }
  }

  lemma HandlesPop(w: World, own: seq<Owner>, v: World, own': seq<Owner>,
                   f: Id, x: Fiber, o: Owner, c: Id, path: seq<Id>)
    requires Changed(w, own, v, own', f, x, o, c, None) && PathOk(w, own, path)
    requires |path| >= 2 && f == w.current && c == path[|path| - 2] == v.current && v.handle == HandleAt(w, c)
    requires HandlesOk(w, path)
    ensures HandlesOk(v, path[..|path| - 1])
  {
    var n := |path|;
    forall i | 0 <= i < n - 1
      ensures path[i] < |v.fibers| && HandleOk(v, path[i])
    {
      assert HandleOk(w, path[i]) && path[i] != path[n - 1];
      HandleFrame(w, v, path[i]);
    }
  }

  lemma OnPathIsActive(w: World, own: seq<Owner>, path: seq<Id>, f: Id)
    requires |own| == |w.fibers| && PathOk(w, own, path) && f in path
    ensures f < |w.fibers| && (f == MAIN || Active(w.fibers[f].state))
  {
    var i :| 0 <= i < |path| && path[i] == f;
    if i > 0 {
      assert Link(w, own, path, i - 1);
    }
  }

  /** The current fiber has called fiber `f` of resumable `r`. */
  lemma CallKeeps(w: World, own: seq<Owner>, path: seq<Id>, limit: Limit, v: World, own': seq<Owner>,
                  f: Id, x: Fiber, o: Owner, k: Call, r: nat)
    requires Inv(w, own, path, limit) && WellFormed(v)
    requires Changed(w, own, v, own', f, x, o, w.current, Some(k))
    requires r < |w.resumables| == |v.resumables| && v.resumables == w.resumables[r := v.resumables[r]]
    requires own[f] == Held(r) && !Active(w.fibers[f].state)
    requires v.current == f && k.handle == w.handle && v.cache == w.cache && v.cached == w.cached
    requires o == Dropped || o == own[f]
    requires v.resumables[r].fiber == if o == Dropped then None else Some(f)
    requires ResumableOk(v.resumables[r], r, v.fibers)
    requires Linked(v, own', w.current, f) && HandleOk(v, f)
    ensures Inv(v, own', path + [f], limit)
  {
    if f in path {
      OnPathIsActive(w, own, path, f);
    }
    hide Linked, FiberOk, ResumableOk, HandleOk, Changed, PathOk, FibersOk, ResumablesOk, CacheOk, HandlesOk;
    ChangedOwners(w, own, v, own', f, x, o, w.current, Some(k), r);
    ChangedCache(w, own, v, own', f, x, o, w.current, Some(k), limit);
    ChangedFibers(w, own, v, own', f, x, o, w.current, Some(k));
    ChangedResumables(w, own, v, own', f, x, o, w.current, Some(k), r);
    PathPush(w, own, v, own', f, x, o, k, path);
    HandlesPush(w, own, v, own', f, x, o, k, path);
  }

  /** Starting or resuming. */
  lemma RunKeeps(w: World, own: seq<Owner>, path: seq<Id>, limit: Limit, r: nat)
    requires Inv(w, own, path, limit)
    requires r < |w.resumables| && w.resumables[r].fiber.Some?
    requires !Active(w.fibers[w.resumables[r].fiber.value].state)
    requires w.fibers[w.resumables[r].fiber.value].job.Some?
    ensures var f := w.resumables[r].fiber.value;
            var v := Run(w.(handle := Some(f)), f, Call(f, Execute, r, w.handle));
            v.Some? && Good(v.value, limit)
  {
    var f := w.resumables[r].fiber.value;
    var k := Call(f, Execute, r, w.handle);
    CurrentIsOther(w, own, path, limit, r);
    var v := Run(w.(handle := Some(f)), f, k).value;
    var x := w.fibers[f].(state := Running, caller := Some(w.current));
    assert FiberOk(w.fibers[f], own[f]) && ResumableOk(w.resumables[r], r, w.fibers);
    assert own == own[f := own[f]];
    hide Good, PathOk, HandlesOk, FibersOk, CacheOk, ResumablesOk, OwnersOk;
    CallKeeps(w, own, path, limit, v, own, f, x, own[f], k, r);
    IsGood(v, own, path + [f], limit);
  }

  lemma IsGood(w: World, own: seq<Owner>, path: seq<Id>, limit: Limit)
    requires Inv(w, own, path, limit)
    ensures Good(w, limit)
  {
  }

  /** A resumable whose fiber is not active is not run by its own fiber. */
  lemma CurrentIsOther(w: World, own: seq<Owner>, path: seq<Id>, limit: Limit, r: nat)
    requires Inv(w, own, path, limit)
    requires r < |w.resumables| && w.resumables[r].fiber.Some?
    ensures var f := w.resumables[r].fiber.value;
            f != MAIN && own[f] == Held(r) && (!Active(w.fibers[f].state) ==> f != w.current)
  {
    OnPathIsActive(w, own, path, w.current);
  }

  lemma AbortKeeps(w: World, own: seq<Owner>, path: seq<Id>, limit: Limit, r: nat)
    requires Inv(w, own, path, limit)
    requires r < |w.resumables| && w.resumables[r].fiber.Some?
    requires w.fibers[w.resumables[r].fiber.value].state == Yielded
    ensures Step(w, Abort(r), limit).Some? && Good(Step(w, Abort(r), limit).value, limit)
  {
    var f := w.resumables[r].fiber.value;
    var k := Call(f, Cancel, r, w.handle);
    CurrentIsOther(w, own, path, limit, r);
    var v := Step(w, Abort(r), limit).value;
    var x := w.fibers[f].(state := Aborting, caller := Some(w.current));
    assert FiberOk(w.fibers[f], own[f]) && ResumableOk(w.resumables[r], r, w.fibers);
    assert own == own[f := own[f]];
    assert v.fibers == w.fibers[f := x][w.current := w.fibers[w.current].(call := Some(k))];
    hide Good, PathOk, HandlesOk, FibersOk, CacheOk, ResumablesOk, OwnersOk, Step, Run;
    CallKeeps(w, own, path, limit, v, own, f, x, own[f], k, r);
    IsGood(v, own, path + [f], limit);
  }

  lemma DestroyYieldedKeeps(w: World, own: seq<Owner>, path: seq<Id>, limit: Limit, r: nat)
    requires Inv(w, own, path, limit)
    requires r < |w.resumables| && w.resumables[r].fiber.Some?
    requires w.fibers[w.resumables[r].fiber.value].state == Yielded
    ensures Step(w, Destroy(r), limit).Some? && Good(Step(w, Destroy(r), limit).value, limit)
  {
    var f := w.resumables[r].fiber.value;
    var k := Call(f, Discard, r, w.handle);
    CurrentIsOther(w, own, path, limit, r);
    var v := Step(w, Destroy(r), limit).value;
    var x := w.fibers[f].(state := Aborting, caller := Some(w.current));
    assert FiberOk(w.fibers[f], own[f]) && ResumableOk(w.resumables[r], r, w.fibers);
    assert v.fibers == w.fibers[f := x][w.current := w.fibers[w.current].(call := Some(k))];
    hide Good, PathOk, HandlesOk, FibersOk, CacheOk, ResumablesOk, OwnersOk, Step, Run;
    CallKeeps(w, own, path, limit, v, own[f := Dropped], f, x, Dropped, k, r);
    IsGood(v, own[f := Dropped], path + [f], limit);
  }

  /** The current fiber was called by the one before it, which waits for it. */
  lemma TopOfPath(w: World, own: seq<Owner>, path: seq<Id>)
    requires |own| == |w.fibers| && PathOk(w, own, path) && w.current != MAIN
    ensures |path| >= 2 && w.current < |w.fibers|
    ensures var c := path[|path| - 2];
            c < |w.fibers| && c != w.current && Linked(w, own, c, w.current)
  {
    assert Link(w, own, path, |path| - 2);
  }

  /** Control is back at fiber `c`, from fiber `f`; `r` is the resumable that `c` used. */
  lemma BackKeeps(w: World, own: seq<Owner>, path: seq<Id>, limit: Limit, v: World, own': seq<Owner>,
                  f: Id, x: Fiber, o: Owner, c: Id, r: nat)
    requires Inv(w, own, path, limit) && WellFormed(v) && |path| >= 2
    requires Changed(w, own, v, own', f, x, o, c, None)
    requires r < |w.resumables| == |v.resumables| && v.resumables == w.resumables[r := v.resumables[r]]
    requires own[f] == Held(r) || own[f] == Dropped
    requires f == w.current && c == path[|path| - 2] == v.current
    requires !Active(x.state) && v.handle == HandleAt(w, c)
    requires o == own[f] || o == Cached || o == Nobody
    requires v.resumables[r].fiber == if o != own[f] && own[f] == Held(r) then None else w.resumables[r].fiber
    requires if o == Cached then v.cache == w.cache + [f] && v.cached == w.cached + 1 && |w.cache| < limit
             else v.cache == w.cache && v.cached == w.cached
    requires ResumableOk(v.resumables[r], r, v.fibers) && !o.Dropped?
    ensures Inv(v, own', path[..|path| - 1], limit)
  {
    hide Linked, FiberOk, ResumableOk, HandleOk, Changed, PathOk, FibersOk, ResumablesOk, CacheOk, HandlesOk;
    ChangedOwners(w, own, v, own', f, x, o, c, None, r);
    ChangedCache(w, own, v, own', f, x, o, c, None, limit);
    ChangedFibers(w, own, v, own', f, x, o, c, None);
    ChangedResumables(w, own, v, own', f, x, o, c, None, r);
    PathPop(w, own, v, own', f, x, o, c, path);
    HandlesPop(w, own, v, own', f, x, o, c, path);
  }

  lemma YieldKeeps(w: World, own: seq<Owner>, path: seq<Id>, limit: Limit)
    requires Inv(w, own, path, limit)
    requires w.current != MAIN && w.fibers[w.current].state == Running
    ensures Step(w, Yield, limit).Some? && Good(Step(w, Yield, limit).value, limit)
  {
    TopOfPath(w, own, path);
    var f, c := w.current, path[|path| - 2];
    var r := w.fibers[c].call.value.resumable;
    assert HandleOk(w, f) && FiberOk(w.fibers[f], own[f]) && ResumableOk(w.resumables[r], r, w.fibers);
    var x := w.fibers[f].(state := Yielded);
    var v := Step(w, Yield, limit).value;
    assert v.fibers == w.fibers[f := x][c := w.fibers[c].(call := None)];
    assert own == own[f := own[f]];
    hide Good, PathOk, HandlesOk, FibersOk, CacheOk, ResumablesOk, OwnersOk, Step, GiveBack;
    BackKeeps(w, own, path, limit, v, own, f, x, own[f], c, r);
    IsGood(v, own, path[..|path| - 1], limit);
  }

  /** Who owns a fiber after it was put back. */
  function PutOwner(w: World, limit: Limit): Owner {
    if |w.cache| < limit then Cached else Nobody
  }

  /** The cache after the current fiber was put back. */
  function PutCache(w: World, limit: Limit): seq<Id> {
    if |w.cache| < limit then w.cache + [w.current] else w.cache
  }

  lemma FinishExecuteKeeps(w: World, own: seq<Owner>, path: seq<Id>, limit: Limit, content: int, threw: bool)
    requires Inv(w, own, path, limit) && w.current != MAIN && |path| >= 2
    requires path[|path| - 2] < |w.fibers| && Linked(w, own, path[|path| - 2], w.current)
    requires w.fibers[path[|path| - 2]].call.value.purpose == Execute
    ensures var r := w.fibers[path[|path| - 2]].call.value.resumable;
            var n := Finish(w, content, threw, limit);
            && n.Some? && Good(n.value, limit)
            && r < |n.value.resumables|
            && n.value.resumables[r] == w.resumables[r].(fiber := None, done := true,
                                                         result := if threw then None else Some(Value(r, content)))
            && n.value.cache == PutCache(w, limit)
  {
    var f, c := w.current, path[|path| - 2];
    var r := w.fibers[c].call.value.resumable;
    assert FiberOk(w.fibers[f], own[f]) && ResumableOk(w.resumables[r], r, w.fibers);
    var x := Ended(w.fibers[f], content, threw);
    var v := Finish(w, content, threw, limit).value;
    var o := PutOwner(w, limit);
    assert v.fibers == w.fibers[f := x][c := w.fibers[c].(call := None)];
    hide Good, PathOk, HandlesOk, FibersOk, CacheOk, ResumablesOk, OwnersOk, Finish, GiveBack;
    BackKeeps(w, own, path, limit, v, own[f := o], f, x, o, c, r);
    IsGood(v, own[f := o], path[..|path| - 1], limit);
  }

  lemma FinishCancelKeeps(w: World, own: seq<Owner>, path: seq<Id>, limit: Limit, content: int, threw: bool)
    requires Inv(w, own, path, limit) && w.current != MAIN && |path| >= 2
    requires path[|path| - 2] < |w.fibers| && Linked(w, own, path[|path| - 2], w.current)
    requires w.fibers[path[|path| - 2]].call.value.purpose == Cancel
    ensures var r := w.fibers[path[|path| - 2]].call.value.resumable;
            var n := Finish(w, content, threw, limit);
            && n.Some? && Good(n.value, limit)
            && r < |n.value.resumables| && n.value.resumables[r] == w.resumables[r].(done := true, result := None)
  {
    var f, c := w.current, path[|path| - 2];
    var r := w.fibers[c].call.value.resumable;
    assert FiberOk(w.fibers[f], own[f]) && ResumableOk(w.resumables[r], r, w.fibers);
    var x := Ended(w.fibers[f], content, threw);
    var v := Finish(w, content, threw, limit).value;
    assert v.fibers == w.fibers[f := x][c := w.fibers[c].(call := None)];
    assert own == own[f := own[f]];
    hide Good, PathOk, HandlesOk, FibersOk, CacheOk, ResumablesOk, OwnersOk, Finish, GiveBack;
    BackKeeps(w, own, path, limit, v, own, f, x, own[f], c, r);
    IsGood(v, own, path[..|path| - 1], limit);
  }

  lemma FinishDiscardKeeps(w: World, own: seq<Owner>, path: seq<Id>, limit: Limit, content: int, threw: bool)
    requires Inv(w, own, path, limit) && w.current != MAIN && |path| >= 2
    requires path[|path| - 2] < |w.fibers| && Linked(w, own, path[|path| - 2], w.current)
    requires w.fibers[path[|path| - 2]].call.value.purpose == Discard
    ensures var n := Finish(w, content, threw, limit);
            n.Some? && Good(n.value, limit) && n.value.resumables == w.resumables && n.value.cache == PutCache(w, limit)
  {
    var f, c := w.current, path[|path| - 2];
    var r := w.fibers[c].call.value.resumable;
    assert FiberOk(w.fibers[f], own[f]) && ResumableOk(w.resumables[r], r, w.fibers);
    var x := Ended(w.fibers[f], content, threw);
    var v := Finish(w, content, threw, limit).value;
    var o := PutOwner(w, limit);
    assert v.fibers == w.fibers[f := x][c := w.fibers[c].(call := None)];
    assert v.resumables == w.resumables[r := v.resumables[r]];
    ResumableFrameSelf(w, own, v, f, x, o, c, r);
    hide Good, PathOk, HandlesOk, FibersOk, CacheOk, ResumablesOk, OwnersOk, Finish, GiveBack;
    BackKeeps(w, own, path, limit, v, own[f := o], f, x, o, c, r);
    IsGood(v, own[f := o], path[..|path| - 1], limit);
  }

  lemma ResumableFrameSelf(w: World, own: seq<Owner>, v: World, f: Id, x: Fiber, o: Owner, c: Id, r: nat)
    requires OwnersOk(w, own) && ResumablesOk(w) && r < |w.resumables| && f < |own| && own[f] == Dropped
    requires Changed(w, own, v, own[f := o], f, x, o, c, None)
    ensures ResumableOk(w.resumables[r], r, v.fibers)
  {
    ResumableFrame(w.resumables[r], r, w, v, own, own[f := o], f, x, o, c, None);
  }

  // ---------------------------------------------------------------- steps without a switch

  /** Only fiber `f`, which is not active, and its owner have changed. */
  ghost predicate Local(w: World, own: seq<Owner>, v: World, own': seq<Owner>, f: Id, x: Fiber, o: Owner) {
    && |own| == |w.fibers| && f != MAIN && f < |w.fibers|
    && v.fibers == w.fibers[f := x] && own' == own[f := o] && o != Root && FiberOk(x, o)
    && !Active(x.state) && !Active(w.fibers[f].state)
    && v.current == w.current && v.handle == w.handle && |w.resumables| <= |v.resumables|
  }

  lemma LocalFibers(w: World, own: seq<Owner>, v: World, own': seq<Owner>, f: Id, x: Fiber, o: Owner)
    requires Local(w, own, v, own', f, x, o) && FibersOk(w, own)
    ensures FibersOk(v, own')
  {
    forall g | 0 <= g < |v.fibers|
      ensures FiberOk(v.fibers[g], own'[g])
    {
      assert FiberOk(w.fibers[g], own[g]);
    }
  }

  lemma LocalPath(w: World, own: seq<Owner>, v: World, own': seq<Owner>, f: Id, x: Fiber, o: Owner, path: seq<Id>)
    requires Local(w, own, v, own', f, x, o) && PathOk(w, own, path) && HandlesOk(w, path)
    ensures PathOk(v, own', path) && HandlesOk(v, path)
  {
    if f in path {
      OnPathIsActive(w, own, path, f);
    }
    forall i | 0 <= i < |path| - 1
      ensures Link(v, own', path, i)
    {
      assert Link(w, own, path, i);
      LinkFrame(w, own, v, own', path[i], path[i + 1]);
    }
    forall i | 0 <= i < |path|
      ensures HandleOk(v, path[i])
    {
      assert HandleOk(w, path[i]);
      HandleFrame(w, v, path[i]);
    }
    forall g | 0 <= g < |v.fibers| && Active(v.fibers[g].state)
      ensures g in path
    {
      assert Active(w.fibers[g].state);
    }
  }

  /** A new fiber that nobody owns yet. */
  lemma GrowKeeps(w: World, own: seq<Owner>, path: seq<Id>, limit: Limit)
    requires Inv(w, own, path, limit)
    ensures Inv(w.(fibers := w.fibers + [FRESH]), own + [Nobody], path, limit)
  {
    var v, own' := w.(fibers := w.fibers + [FRESH]), own + [Nobody];
    forall i | 0 <= i < |path| - 1
      ensures Link(v, own', path, i)
    {
      assert Link(w, own, path, i);
      LinkFrame(w, own, v, own', path[i], path[i + 1]);
    }
    forall i | 0 <= i < |path|
      ensures HandleOk(v, path[i])
    {
      assert HandleOk(w, path[i]);
      HandleFrame(w, v, path[i]);
    }
    forall r | 0 <= r < |v.resumables|
      ensures ResumableOk(v.resumables[r], r, v.fibers)
    {
      assert ResumableOk(w.resumables[r], r, w.fibers);
    }
    hide Linked, ResumableOk, HandleOk;
    forall g | 0 <= g < |v.fibers|
      ensures FiberOk(v.fibers[g], own'[g])
    {
      assert g < |own| ==> FiberOk(w.fibers[g], own[g]);
    }
  }

  /** A resumable is made with a fiber `f` that was in the cache or has no owner. */
  lemma TakeKeeps(w: World, own: seq<Owner>, path: seq<Id>, limit: Limit, f: Id, v: World)
    requires Inv(w, own, path, limit)
    requires f < |own| && own[f] == if |w.cache| > 0 then Cached else Nobody
    requires |w.cache| > 0 ==> f == w.cache[|w.cache| - 1]
    requires var r := |w.resumables|;
             v == World(w.fibers[f := w.fibers[f].(result := None, exception := None, job := Some(r))],
                        w.current, w.handle, if |w.cache| > 0 then w.cache[..|w.cache| - 1] else [],
                        if |w.cache| > 0 then w.cached - 1 else w.cached,
                        w.resumables + [Resumable(Some(f), false, None, true)])
    ensures Inv(v, own[f := Held(|w.resumables|)], path, limit)
  {
    var r := |w.resumables|;
    var own' := own[f := Held(r)];
    assert FiberOk(w.fibers[f], own[f]);
    forall q | 0 <= q < |v.resumables|
      ensures ResumableOk(v.resumables[q], q, v.fibers)
    {
      if q < r {
        assert ResumableOk(w.resumables[q], q, w.fibers);
      }
    }
    var x := v.fibers[f];
    hide Linked, ResumableOk, HandleOk, PathOk, HandlesOk, FibersOk;
    LocalFibers(w, own, v, own', f, x, Held(r));
    LocalPath(w, own, v, own', f, x, Held(r), path);
    TakeCache(w, own, limit, f, v);
    TakeOwners(w, own, f, v);
  }

  lemma TakeCache(w: World, own: seq<Owner>, limit: Limit, f: Id, v: World)
    requires WellFormed(w) && WellFormed(v) && |own| == |w.fibers| == |v.fibers| && CacheOk(w, own, limit) && f < |own|
    requires if |w.cache| > 0 then v.cache == w.cache[..|w.cache| - 1] && f == w.cache[|w.cache| - 1]
             else v.cache == []
    requires v.cached == if |w.cache| > 0 then w.cached - 1 else w.cached
    ensures CacheOk(v, own[f := Held(|w.resumables|)], limit)
  {
  }

  lemma TakeOwners(w: World, own: seq<Owner>, f: Id, v: World)
    requires OwnersOk(w, own) && WellFormed(v) && |v.fibers| == |w.fibers| && f < |own|
    requires own[f] == Cached || own[f] == Nobody
    requires v.resumables == w.resumables + [Resumable(Some(f), false, None, true)]
    ensures OwnersOk(v, own[f := Held(|w.resumables|)])
  {
  }

  lemma NewKeeps(w: World, own: seq<Owner>, path: seq<Id>, limit: Limit)
    requires Inv(w, own, path, limit)
    ensures Good(Make(w), limit)
  {
    var v := Make(w);
    if |w.cache| > 0 {
      var f := w.cache[|w.cache| - 1];
      hide Good, PathOk, HandlesOk, FibersOk, ResumablesOk, OwnersOk, FiberOk;
      TakeKeeps(w, own, path, limit, f, v);
      IsGood(v, own[f := Held(|w.resumables|)], path, limit);
    } else {
      var u := w.(fibers := w.fibers + [FRESH]);
      assert v.cache == [];
      hide Good, PathOk, HandlesOk, FibersOk, ResumablesOk, OwnersOk, FiberOk;
      GrowKeeps(w, own, path, limit);
      TakeKeeps(u, own + [Nobody], path, limit, |w.fibers|, v);
      IsGood(v, (own + [Nobody])[|w.fibers| := Held(|w.resumables|)], path, limit);
    }
  }

  lemma ReleaseIs(w: World, r: nat, limit: Limit)
    requires WellFormed(w) && r < |w.resumables| && w.resumables[r].fiber.Some?
    requires w.fibers[w.resumables[r].fiber.value].state != Yielded
    ensures var f := w.resumables[r].fiber.value;
            var n := Step(w, Destroy(r), limit);
            && f < |w.fibers| && n.Some? && WellFormed(n.value)
            && n.value.fibers == w.fibers && n.value.current == w.current && n.value.handle == w.handle
            && n.value.resumables == w.resumables[r := w.resumables[r].(fiber := None, alive := false)]
            && (PutOwner(w, limit) == Cached || PutOwner(w, limit) == Nobody)
            && if PutOwner(w, limit) == Cached then
                 n.value.cache == w.cache + [f] && n.value.cached == w.cached + 1 && |w.cache| < limit
               else n.value.cache == w.cache && n.value.cached == w.cached
  {
  }

  lemma LocalCache(w: World, own: seq<Owner>, v: World, own': seq<Owner>, f: Id, o: Owner, limit: Limit)
    requires WellFormed(w) && WellFormed(v) && |own| == |w.fibers| == |v.fibers| && f < |own| && own' == own[f := o]
    requires CacheOk(w, own, limit) && own[f] != Cached
    requires if o == Cached then v.cache == w.cache + [f] && v.cached == w.cached + 1 && |w.cache| < limit
             else v.cache == w.cache && v.cached == w.cached
    ensures CacheOk(v, own', limit)
  {
  }

  lemma SameIsLocal(w: World, own: seq<Owner>, v: World, f: Id, o: Owner)
    requires |own| == |w.fibers| && f != MAIN && f < |w.fibers| && v.fibers == w.fibers && FibersOk(w, own)
    requires o == Cached || o == Nobody
    requires !Active(w.fibers[f].state) && w.fibers[f].state != Yielded
    requires v.current == w.current && v.handle == w.handle && |w.resumables| <= |v.resumables|
    ensures Local(w, own, v, own[f := o], f, w.fibers[f], o)
  {
    assert FiberOk(w.fibers[f], own[f]);
    assert v.fibers == w.fibers[f := w.fibers[f]];
  }

  lemma InvParts(w: World, own: seq<Owner>, path: seq<Id>, limit: Limit)
    ensures Inv(w, own, path, limit) <==>
              && OwnersOk(w, own) && CacheOk(w, own, limit) && FibersOk(w, own) && ResumablesOk(w)
              && PathOk(w, own, path) && HandlesOk(w, path)
    ensures OwnersOk(w, own) ==> WellFormed(w) && |own| == |w.fibers|
  {
  }

  /** Destroying a resumable without a suspended function. */
  lemma ReleaseKeeps(w: World, own: seq<Owner>, path: seq<Id>, limit: Limit, r: nat)
    requires Inv(w, own, path, limit)
    requires r < |w.resumables| && w.resumables[r].fiber.Some?
    requires var s := w.fibers[w.resumables[r].fiber.value].state; !Active(s) && s != Yielded
    ensures Step(w, Destroy(r), limit).Some? && Good(Step(w, Destroy(r), limit).value, limit)
  {
    hide *;
    var f, o := w.resumables[r].fiber.value, PutOwner(w, limit);
    InvParts(w, own, path, limit);
    CurrentIsOther(w, own, path, limit, r);
    ReleaseIs(w, r, limit);
    var own' := own[f := o];
    var v := Step(w, Destroy(r), limit).value;
    SameIsLocal(w, own, v, f, o);
    ReleaseResumables(w, own, r, v);
    LocalFibers(w, own, v, own', f, w.fibers[f], o);
    LocalPath(w, own, v, own', f, w.fibers[f], o, path);
    ReleaseOwners(w, own, v, r, f, o);
    LocalCache(w, own, v, own', f, o, limit);
    InvParts(v, own', path, limit);
    IsGood(v, own', path, limit);
  }

  lemma ReleaseResumables(w: World, own: seq<Owner>, r: nat, v: World)
    requires OwnersOk(w, own) && WellFormed(v) && ResumablesOk(w) && r < |w.resumables| && v.fibers == w.fibers
    requires v.resumables == w.resumables[r := w.resumables[r].(fiber := None, alive := false)]
    ensures ResumablesOk(v)
  {
    forall q | 0 <= q < |v.resumables|
      ensures ResumableOk(v.resumables[q], q, v.fibers)
    {
      assert ResumableOk(w.resumables[q], q, w.fibers);
    }
  }

  lemma ReleaseOwners(w: World, own: seq<Owner>, v: World, r: nat, f: Id, o: Owner)
    requires OwnersOk(w, own) && WellFormed(v) && |v.fibers| == |w.fibers|
    requires r < |w.resumables| && w.resumables[r].fiber == Some(f) && (o == Cached || o == Nobody)
    requires v.resumables == w.resumables[r := w.resumables[r].(fiber := None, alive := false)]
    ensures OwnersOk(v, own[f := o])
  {
  }

  /** Destroying a resumable that has no fiber any more. */
  lemma ForgetKeeps(w: World, own: seq<Owner>, path: seq<Id>, limit: Limit, r: nat)
    requires Inv(w, own, path, limit)
    requires r < |w.resumables| && w.resumables[r].fiber.None?
    ensures Step(w, Destroy(r), limit).Some? && Good(Step(w, Destroy(r), limit).value, limit)
  {
    var v := Step(w, Destroy(r), limit).value;
    ReleaseResumables(w, own, r, v);
    forall i | 0 <= i < |path| - 1
      ensures Link(v, own, path, i)
    {
      assert Link(w, own, path, i);
      LinkFrame(w, own, v, own, path[i], path[i + 1]);
    }
    forall i | 0 <= i < |path|
      ensures HandleOk(v, path[i])
    {
      assert HandleOk(w, path[i]);
      HandleFrame(w, v, path[i]);
    }
    hide Linked, ResumableOk, HandleOk, FiberOk, Step, Good;
    IsGood(v, own, path, limit);
  }

  // ---------------------------------------------------------------- any step

  lemma FinishKeeps(w: World, own: seq<Owner>, path: seq<Id>, limit: Limit, content: int, threw: bool)
    requires Inv(w, own, path, limit) && w.current != MAIN
    ensures Finish(w, content, threw, limit).Some? && Good(Finish(w, content, threw, limit).value, limit)
  {
    TopOfPath(w, own, path);
    var c := path[|path| - 2];
    hide Good, Finish, Linked;
    match PurposeOf(w, own, c)
    case Execute => FinishExecuteKeeps(w, own, path, limit, content, threw);
    case Cancel => FinishCancelKeeps(w, own, path, limit, content, threw);
    case Discard => FinishDiscardKeeps(w, own, path, limit, content, threw);
  }

  /** Why fiber `c` waits for the current one. */
  function PurposeOf(w: World, own: seq<Owner>, c: Id): Purpose
    requires |own| == |w.fibers| && Linked(w, own, c, w.current)
  {
    w.fibers[c].call.value.purpose
  }

  /** Each step keeps the world in order, and in particular raises no internal error: when control returns to
      `Fiber::run`, the fiber that it ran is yielded or idle. */
  lemma StepKeeps(w: World, a: Action, limit: Limit)
    requires Good(w, limit) && WellFormed(w) && Allowed(w, a)
    ensures Step(w, a, limit).Some? && Good(Step(w, a, limit).value, limit)
  {
    var own, path :| Inv(w, own, path, limit);
    StepKeepsInv(w, own, path, a, limit);
  }

  lemma StepKeepsInv(w: World, own: seq<Owner>, path: seq<Id>, a: Action, limit: Limit)
    requires Inv(w, own, path, limit) && Allowed(w, a)
    ensures Step(w, a, limit).Some? && Good(Step(w, a, limit).value, limit)
  {
    match a
    case New => NewKeeps(w, own, path, limit);
    case Start(r) => RunKeeps(w, own, path, limit, r);
    case Resume(r) =>
      YieldedHasJob(w, own, path, limit, r);
      RunKeeps(w, own, path, limit, r);
    case Abort(r) =>
      if w.resumables[r].fiber.Some? {
        AbortKeeps(w, own, path, limit, r);
      } else {
        IsGood(w, own, path, limit);
      }
    case Destroy(r) =>
      if w.resumables[r].fiber.None? {
        ForgetKeeps(w, own, path, limit, r);
      } else if w.fibers[w.resumables[r].fiber.value].state == Yielded {
        DestroyYieldedKeeps(w, own, path, limit, r);
      } else {
        ReleaseKeeps(w, own, path, limit, r);
      }
    case Yield =>
      CurrentIsActive(w, own, path, limit);
      if w.handle.None? {
        IsGood(w, own, path, limit);
      } else {
        YieldKeeps(w, own, path, limit);
      }
    case Return(content) => FinishKeeps(w, own, path, limit, content, false);
    case Throw(content) => FinishKeeps(w, own, path, limit, content, true);
  }

  lemma YieldedHasJob(w: World, own: seq<Owner>, path: seq<Id>, limit: Limit, r: nat)
    requires Inv(w, own, path, limit)
    requires r < |w.resumables| && w.resumables[r].fiber.Some?
    requires w.fibers[w.resumables[r].fiber.value].state == Yielded
    ensures w.fibers[w.resumables[r].fiber.value].job.Some?
  {
    assert FiberOk(w.fibers[w.resumables[r].fiber.value], own[w.resumables[r].fiber.value]);
  }

  lemma CurrentIsActive(w: World, own: seq<Owner>, path: seq<Id>, limit: Limit)
    requires Inv(w, own, path, limit)
    ensures w.current == MAIN ==> w.handle == None
    ensures w.current != MAIN ==> Active(w.fibers[w.current].state)
    ensures w.fibers[w.current].state == Running ==> w.handle == Some(w.current)
  {
    assert path[|path| - 1] in path;
    OnPathIsActive(w, own, path, w.current);
    assert HandleOk(w, path[|path| - 1]);
  }
}
