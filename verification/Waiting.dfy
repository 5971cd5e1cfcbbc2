/** How a parser waits for input: the coroutine side of incremental parsing. */
module Waiting {
  import opened Basics

  /** The part of the stream that a parser looks at; without an end it grows with the stream. */
  datatype View = View(begin: nat, end: Option<nat>)

  /** The number of bytes available inside a view of a stream that has `have` bytes so far. */
  function Size(v: View, have: nat): nat {
    if v.begin > have then 0
    else if v.end.None? || v.end.value >= have then have - v.begin
    else if v.end.value > v.begin then v.end.value - v.begin
    else 0
  }

  /** End-of-data can be seen, even if not reached yet: nothing that arrives later will matter to the view. */
  predicate HaveEod(v: View, have: nat, frozen: bool) {
    frozen || (v.end.Some? && v.end.value <= have)
  }

  datatype Answer = Ready | Eod | Blocked

  /** What waiting for `min` bytes comes to, given what has arrived so far. */
  function Wait(v: View, min: nat, have: nat, frozen: bool): Answer {
    if min <= Size(v, have) then Ready else if HaveEod(v, have, frozen) then Eod else Blocked
  }

  /** One position of the input; none where data is missing. */
  type Entry = Option<byte>

  /** What a feeder has handed over so far, and what it will hand over, chunk by chunk, before it
      signals the end of the input. */
  datatype Supply = Supply(data: seq<Entry>, frozen: bool, pending: seq<seq<Entry>>)

  function Flatten(chunks: seq<seq<Entry>>): seq<Entry> {
    if |chunks| == 0 then [] else chunks[0] + Flatten(chunks[1..])
  }

  /** The whole input. */
  function Total(s: Supply): seq<Entry> {
    s.data + Flatten(s.pending)
  }

  /** A frozen stream gets no more data. */
  ghost predicate Consistent(s: Supply) {
    s.frozen ==> |s.pending| == 0
  }

  /** The feeder's next call: another chunk, or the end of the input. */
  function Next(s: Supply): (r: Supply)
    requires !s.frozen
    ensures Total(r) == Total(s)
    ensures Consistent(r)
  {
    if |s.pending| == 0 then s.(frozen := true)
    else
      assert s.data + (s.pending[0] + Flatten(s.pending[1..])) == s.data + s.pending[0] + Flatten(s.pending[1..]);
      s.(data := s.data + s.pending[0], pending := s.pending[1..])
  }

  /** The first supply from `s` on with which waiting for `min` bytes does not block. */
  function Awaited(v: View, min: nat, s: Supply): (r: Supply)
    requires Consistent(s)
    ensures Consistent(r) && Total(r) == Total(s)
    ensures Wait(v, min, |r.data|, r.frozen) != Blocked
    decreases |s.pending|, !s.frozen
  {
    if Wait(v, min, |s.data|, s.frozen) == Blocked then Awaited(v, min, Next(s)) else s
  }

  // ---------------------------------------------------------------- answers do not depend on the cutting

  /** More data never makes a view smaller, and once its end has been seen never larger. */
  lemma SizeGrows(v: View, have: nat, all: nat)
    requires have <= all
    ensures Size(v, have) <= Size(v, all)
    ensures v.end.Some? && v.end.value <= have ==> Size(v, have) == Size(v, all)
  {
  }

  /** Whatever the cuts, waiting for `min` bytes succeeds if and only if the whole input has that many. */
  lemma AnswerIsFixed(v: View, min: nat, s: Supply)
    requires Consistent(s)
    ensures var r := Awaited(v, min, s);
            Wait(v, min, |r.data|, r.frozen) == if min <= Size(v, |Total(s)|) then Ready else Eod
  {
    var r := Awaited(v, min, s);
    assert Total(r) == r.data + Flatten(r.pending);
    SizeGrows(v, |r.data|, |Total(r)|);
  }

  // ---------------------------------------------------------------- the wait functions

  /** The stream as the parser's fiber sees it: suspending lets the feeder run. */
  class Input {
    var data: seq<Entry>
    var frozen: bool
    var pending: seq<seq<Entry>>

    ghost function State(): Supply
      reads this
    {
      Supply(data, frozen, pending)
    }

    constructor (chunks: seq<seq<Entry>>)
      ensures State() == Supply([], false, chunks)
    {
      data, frozen, pending := [], false, chunks;
    }

    /** Suspends the fiber until the feeder has made its next call and resumes it. */
    method Yield()
      requires !frozen
      modifies this
      ensures State() == Next(old(State()))
    {
      if |pending| == 0 {
        frozen := true;
      } else {
        data, pending := data + pending[0], pending[1..];
      }
    }

    /** Waits until the view has grown; false if end-of-data comes first. */
    method WaitForMoreOrEod(cur: View) returns (grown: bool)
      requires Consistent(State())
      modifies this
      ensures State() == Awaited(cur, Size(cur, |old(data)|) + 1, old(State()))
      ensures Consistent(State())
      ensures grown <==> Wait(cur, Size(cur, |old(data)|) + 1, |data|, frozen) == Ready
    {
      var old_ := Size(cur, |data|);
      var new_ := Size(cur, |data|);
      while old_ == new_
        invariant Consistent(State()) && new_ == Size(cur, |data|) && |old(data)| <= |data|
        invariant Awaited(cur, old_ + 1, State()) == Awaited(cur, old_ + 1, old(State()))
        decreases |pending|, !frozen
      {
        if HaveEod(cur, |data|, frozen) {
          return false;
        }
        Yield();
        new_ := Size(cur, |data|);
      }
      return true;
    }

    /** Waits until the view has `min` bytes; false if end-of-data comes first. */
    method WaitForInputOrEod(cur: View, min: nat) returns (ok: bool)
      requires Consistent(State())
      modifies this
      ensures State() == Awaited(cur, min, old(State())) && Consistent(State())
      ensures ok <==> min <= Size(cur, |old(Total(State()))|)
    {
      AnswerIsFixed(cur, min, State());
      AwaitedIs(cur, min);
      hide Awaited, Next, Total, Flatten, Consistent;
      while min > Size(cur, |data|)
        invariant Consistent(State())
        invariant Awaited(cur, min, State()) == Awaited(cur, min, old(State()))
        decreases |pending|, !frozen
      {
        AwaitMore(cur, Size(cur, |data|) + 1, min, State());
        var more := WaitForMoreOrEod(cur);
        if !more {
          return false;
        }
      }
      return true;
    }

    /** Waits until the view has `min` bytes; the flag stands for the parse error thrown otherwise. */
    method WaitForInput(cur: View, min: nat) returns (ok: bool)
      requires Consistent(State())
      modifies this
      ensures State() == Awaited(cur, min, old(State())) && Consistent(State())
      ensures ok <==> min <= Size(cur, |old(Total(State()))|)
    {
      AnswerIsFixed(cur, min, State());
      AwaitedIs(cur, min);
      hide Awaited, Next, Total, Flatten, Consistent;
      while min > Size(cur, |data|)
        invariant Consistent(State())
        invariant Awaited(cur, min, State()) == Awaited(cur, min, old(State()))
        decreases |pending|, !frozen
      {
        AwaitMore(cur, Size(cur, |data|) + 1, min, State());
        var more := WaitForMoreOrEod(cur);
        if !more {
          return false;
        }
      }
      return true;
    }

    /** Waits until all of the view is there; afterwards nothing that is still to come affects it, unless it is 2^64 - 1
        bytes or more. The flag stands for the arithmetic error of a view that ends before its begin. */
    method WaitForEod(cur: View) returns (ok: bool)
      requires Consistent(State())
      modifies this
      ensures ok <==> (cur.end.Some? ==> cur.begin <= cur.end.value)
      ensures if ok then State() == Awaited(cur, EodSize(cur), old(State())) else State() == old(State())
      ensures Consistent(State())
      ensures ok && (cur.end.Some? || |old(Total(State()))| < TWO_TO_THE_64 - 1) ==>
                Size(cur, |data|) == Size(cur, |old(Total(State()))|)
    {
      var min := TWO_TO_THE_64 - 1;
      if cur.end.Some? {
        if cur.end.value < cur.begin {
          return false;
        }
        min := cur.end.value - cur.begin;
      }
      AnswerIsFixed(cur, min, State());
      SizeGrows(cur, |Awaited(cur, min, State()).data|, |Total(State())|);
      var _ := WaitForInputOrEod(cur, min);
      return true;
    }

    /** Whether the view is at its end; waits for a byte if neither a byte nor the end is in sight. */
    method AtEod(cur: View) returns (eod: bool)
      requires Consistent(State())
      modifies this
      ensures State() == Awaited(cur, 1, old(State())) && Consistent(State())
      ensures eod <==> Size(cur, |old(Total(State()))|) == 0
    {
      AnswerIsFixed(cur, 1, State());
      if Size(cur, |data|) > 0 {
        return false;
      }
      if HaveEod(cur, |data|, frozen) {
        return true;
      }
      var more := WaitForMoreOrEod(cur);
      return !more;
    }
  }

  /** Waiting is over as soon as it does not block. */
  lemma AwaitedIs(v: View, min: nat)
    ensures forall s: Supply :: Consistent(s) && Wait(v, min, |s.data|, s.frozen) != Blocked ==> Awaited(v, min, s) == s
  {
  }

  /** How many bytes make a view complete; for a view without an end, more than can ever arrive. */
  function EodSize(v: View): nat
    requires v.end.Some? ==> v.begin <= v.end.value
  {
    if v.end.Some? then v.end.value - v.begin else TWO_TO_THE_64 - 1
  }

  /** Waiting for fewer bytes first does not change what is there after waiting for more. */
  lemma {:induction false} AwaitMore(v: View, few: nat, min: nat, s: Supply)
    requires Consistent(s) && few <= min
    ensures Awaited(v, min, Awaited(v, few, s)) == Awaited(v, min, s)
    ensures Wait(v, few, |s.data|, s.frozen) == Blocked ==>
              |Awaited(v, few, s).pending| < |s.pending| || (|s.pending| == 0 && !s.frozen && Awaited(v, few, s).frozen)
    decreases |s.pending|, !s.frozen
  {
    if Wait(v, few, |s.data|, s.frozen) == Blocked {
      AwaitMore(v, few, min, Next(s));
    }
  }

  /** Waiting for the end of data goes on exactly as long as the view's end is not in sight; for a view without an end,
      at most until it has 2^64 - 1 bytes. */
  lemma EodBlocksExactly(v: View, have: nat, frozen: bool)
    requires v.end.Some? ==> v.begin <= v.end.value
    ensures Wait(v, EodSize(v), have, frozen) == Blocked <==>
              && !frozen
              && if v.end.Some? then v.begin < v.end.value && have < v.end.value
                 else Size(v, have) < TWO_TO_THE_64 - 1
  {
  }
}
