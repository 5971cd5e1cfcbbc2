/** The sink's reassembly state, and what each of its operations makes of it. */
module Reassembly {
  import opened Basics
  import opened Chunks

  /** `cur` is the sequence number of the next byte to deliver, `last` the end of what has been
      reassembled, `trim` the end of what has been trimmed. `delivered` logs what connected units get,
      `overlaps` and `undelivered` what the hooks are told. */
  datatype State = State(
    autoTrim: bool,
    size: nat,
    cur: nat,
    last: nat,
    trim: nat,
    chunks: seq<Chunk>,
    delivered: seq<byte>,
    overlaps: seq<Overlap>,
    undelivered: seq<(nat, seq<byte>)>)

  /** A write: `data` begins at the relative sequence number `rseq`. */
  datatype Segment = Segment(rseq: nat, data: seq<byte>)

  function Init(): State {
    State(true, 0, 0, 0, 0, [], [], [], [])
  }

  /** A chunk with data goes to the connected units and moves both cursors behind itself. */
  function Deliver(s: State, data: seq<byte>, rupper: nat): State {
    if |data| == 0 then s
    else s.(size := s.size + |data|, delivered := s.delivered + data, cur := rupper, last := rupper)
  }

  /** What is left after erasing chunks from the front that begin before `rseq`. */
  function Kept(cs: seq<Chunk>, rseq: nat): seq<Chunk> {
    if |cs| == 0 || cs[0].rseq >= rseq then cs else Kept(cs[1..], rseq)
  }

  /** The reports for erased chunks that had not been delivered. */
  function Dropped(cs: seq<Chunk>, cur: nat, rseq: nat): seq<(nat, seq<byte>)> {
    if |cs| == 0 || cs[0].rseq >= rseq then []
    else (if cur < cs[0].rseq then [(cs[0].rseq, cs[0].data)] else []) + Dropped(cs[1..], cur, rseq)
  }

  function Trim(s: State, rseq: nat): State {
    s.(chunks := Kept(s.chunks, rseq),
       undelivered := s.undelivered + Dropped(s.chunks, s.cur, rseq),
       trim := rseq)
  }

  /** Delivers a chunk if it continues what has been reassembled. */
  function DeliverChunk(s: State, c: Chunk): (r: State)
    ensures r.chunks == s.chunks
  {
    if c.rseq == s.last then Deliver(s.(last := s.last + Max(0, c.rupper - c.rseq)), c.data, c.rupper) else s
  }

  function DeliverAll(s: State, cs: seq<Chunk>): State
    decreases |cs|
  {
    if |cs| == 0 then s else DeliverAll(DeliverChunk(s, cs[0]), cs[1..])
  }

  /** Delivers from chunk `pos` on; in auto-trim mode, then drops what has been reassembled. */
  function TryDeliver(s: State, pos: nat): State
    requires pos <= |s.chunks|
  {
    var t := DeliverAll(s, s.chunks[pos..]);
    if t.autoTrim then Trim(t, t.last) else t
  }

  /** Where `data` enters the buffer. An empty buffer takes it as one chunk that spans `len` numbers. */
  function Buffer(cs: seq<Chunk>, data: seq<byte>, rseq: nat, len: nat): (r: Added)
    requires |data| > 0
    ensures r.pos < |r.chunks|
  {
    if |cs| == 0 then Added([Chunk(data, rseq, rseq + len)], 0, [], true) else Add(cs, data, rseq)
  }

  /** Buffers `data` and delivers if that filled the hole that delivery waits for. The flag is false if
      buffering raised an error, which leaves the sink half-way. */
  function Enter(s: State, data: seq<byte>, rseq: nat, len: nat): (State, bool)
    requires |data| > 0
  {
    var added := Buffer(s.chunks, data, rseq, len);
    var t := s.(chunks := added.chunks, overlaps := s.overlaps + added.overlaps);
    if !added.ok then
      (t, false)
    else
      var c := added.chunks[added.pos];
      if c.rseq > s.last || c.rupper <= s.last then (t, true) else (TryDeliver(t, added.pos), true)
  }

  /** The entry point for all new data. */
  function NewData(s: State, data: seq<byte>, rseq: nat): (State, bool) {
    if |data| == 0 then
      (s, true)
    else if s.autoTrim && |s.chunks| == 0 && rseq == s.cur then
      (Deliver(s, data, rseq + |data|), true)
    else if rseq + |data| <= s.trim then
      (s, true)
    else
      var old_ := Max(0, s.trim - rseq);
      Enter(s, data[old_..], rseq + old_, |data|)
  }

  // ---------------------------------------------------------------- what every step keeps

  /** What holds of a sink in good order: nothing that could be delivered is held back. */
  ghost predicate Orderly(s: State) {
    && Wf(s.chunks, 0)
    && s.cur == s.last == s.size == |s.delivered|
    && Lookup(s.chunks, s.cur) == None
  }

  /** The byte known for `i` once `data` has arrived at `rseq`. */
  ghost function After(s: State, data: seq<byte>, rseq: nat, i: nat): Option<byte> {
    Overlay(Lookup(s.chunks, i), data, rseq, i)
  }

  /** `t` has delivered, beyond `s`, exactly the contiguous run of bytes now known, and still holds the rest. */
  ghost predicate Advances(s: State, data: seq<byte>, rseq: nat, t: State) {
    && s.delivered <= t.delivered
    && (forall i: nat :: |s.delivered| <= i < |t.delivered| ==> After(s, data, rseq, i) == Some(t.delivered[i]))
    && (forall i: nat :: |t.delivered| <= i ==> Lookup(t.chunks, i) == After(s, data, rseq, i))
    && Lookup(t.chunks, |t.delivered|) == None
  }

  /** `Advances` leaves no choice: states that know the same undelivered bytes deliver the same. */
  lemma AdvanceUnique(s: State, k: State, data: seq<byte>, rseq: nat, s': State, k': State)
    requires s.delivered == k.delivered
    requires forall i: nat :: |s.delivered| <= i ==> Lookup(s.chunks, i) == Lookup(k.chunks, i)
    requires Advances(s, data, rseq, s') && Advances(k, data, rseq, k')
    ensures s'.delivered == k'.delivered
    ensures forall i: nat :: |s'.delivered| <= i ==> Lookup(s'.chunks, i) == Lookup(k'.chunks, i)
  {
    var n, m := |s'.delivered|, |k'.delivered|;
    assert After(s, data, rseq, n) == After(k, data, rseq, n);
    assert After(s, data, rseq, m) == After(k, data, rseq, m);
    assert n == m;
    forall i: nat | |s.delivered| <= i < n
      ensures s'.delivered[i] == k'.delivered[i]
    {
      assert After(s, data, rseq, i) == After(k, data, rseq, i);
    }
    assert forall i: nat :: i < |s.delivered| ==> s'.delivered[i] == k'.delivered[i];
  }

  // ---------------------------------------------------------------- parts of a chunk list

  /** From chunk `pos` on, lookup needs only the chunks from there. */
  lemma {:induction false} LookupFrom(cs: seq<Chunk>, lo: nat, pos: nat)
    requires Wf(cs, lo) && pos < |cs|
    ensures Wf(cs[pos..], cs[pos].rseq) && lo <= cs[pos].rseq
    ensures forall i: nat :: cs[pos].rseq <= i ==> Lookup(cs, i) == Lookup(cs[pos..], i)
  {
    if pos > 0 {
      LookupFrom(cs[1..], cs[0].rupper, pos - 1);
      assert cs[1..][pos - 1..] == cs[pos..];
    }
  }

  /** A byte that some chunk spans is found. */
  lemma {:induction false} LookupIn(cs: seq<Chunk>, lo: nat, pos: nat, i: nat)
    requires Wf(cs, lo) && pos < |cs| && cs[pos].rseq <= i < cs[pos].rupper
    ensures Lookup(cs, i).Some?
  {
    LookupFrom(cs, lo, pos);
  }

  /** Trimming to a hole loses nothing beyond it. */
  lemma {:induction false} KeptKeeps(cs: seq<Chunk>, lo: nat, rseq: nat)
    requires Wf(cs, lo) && Lookup(cs, rseq) == None
    ensures Wf(Kept(cs, rseq), lo)
    ensures forall i: nat :: rseq <= i ==> Lookup(Kept(cs, rseq), i) == Lookup(cs, i)
  {
    if |cs| > 0 && cs[0].rseq < rseq {
      KeptKeeps(cs[1..], cs[0].rupper, rseq);
      WfFrom(Kept(cs[1..], rseq), cs[0].rupper, lo);
    }
  }

  lemma OrderedLower(cs: seq<Chunk>, lo: nat, lo': nat)
    requires Ordered(cs, lo) && lo' <= lo
    ensures Ordered(cs, lo')
  {
  }

  lemma WfFrom(cs: seq<Chunk>, lo: nat, lo': nat)
    requires Wf(cs, lo) && lo' <= lo
    ensures Wf(cs, lo')
  {
  }

  // ---------------------------------------------------------------- delivery

  /** Delivering from a list all of whose chunks come at `s.last` or later takes its contiguous run. */
  ghost predicate Delivers(s: State, cs: seq<Chunk>, t: State) {
    && t == s.(size := t.size, cur := t.cur, last := t.last, delivered := t.delivered)
    && t.cur == t.last == t.size == |t.delivered|
    && s.delivered <= t.delivered
    && (forall i: nat :: |s.delivered| <= i < |t.delivered| ==> Lookup(cs, i) == Some(t.delivered[i]))
    && Lookup(cs, t.cur) == None
  }

  lemma {:induction false} DeliverAllDelivers(s: State, cs: seq<Chunk>)
    requires Wf(cs, s.last) && s.cur == s.last == s.size == |s.delivered|
    ensures Delivers(s, cs, DeliverAll(s, cs))
    decreases |cs|
  {
    if |cs| == 0 {
    } else if cs[0].rseq == s.last {
      DeliverAllDelivers(DeliverChunk(s, cs[0]), cs[1..]);
    } else {
      WfFrom(cs[1..], cs[0].rupper, s.last);
      DeliverAllDelivers(s, cs[1..]);
      LookupBelow(cs[1..], cs[0].rupper, s.last);
    }
  }

  /** Delivery that starts at a chunk lying right at the cursor ends in good order. */
  lemma TryDeliverAdvances(s: State, pos: nat)
    requires Wf(s.chunks, 0) && s.cur == s.last == s.size == |s.delivered|
    requires pos < |s.chunks| && s.chunks[pos].rseq == s.last
    ensures var t := TryDeliver(s, pos);
            && Orderly(t) && s.delivered <= t.delivered && t.autoTrim == s.autoTrim
            && (forall i: nat :: |s.delivered| <= i < t.cur ==> Lookup(s.chunks, i) == Some(t.delivered[i]))
            && (forall i: nat :: t.cur <= i ==> Lookup(t.chunks, i) == Lookup(s.chunks, i))
            && (if s.autoTrim then t.trim == t.cur else t.chunks == s.chunks && t.trim == s.trim)
  {
    LookupFrom(s.chunks, 0, pos);
    var t := DeliverAll(s, s.chunks[pos..]);
    DeliverAllDelivers(s, s.chunks[pos..]);
    assert Lookup(s.chunks, t.cur) == None;
    KeptKeeps(s.chunks, 0, t.last);
  }

  // ---------------------------------------------------------------- new data

  /** If the buffer covers what comes between the start of new data and the cursor, all is well. */
  lemma EnterAdvances(s: State, data: seq<byte>, rseq: nat)
    requires Orderly(s) && |data| > 0
    requires rseq <= s.cur < rseq + |data| ==> Covered(s.chunks, rseq, s.cur)
    ensures var (t, ok) := Enter(s, data, rseq, |data|);
            && ok && Orderly(t) && Advances(s, data, rseq, t) && t.autoTrim == s.autoTrim
            && (s.autoTrim && s.trim <= s.cur ==> t.trim <= t.cur)
            && (!s.autoTrim ==>
                  t.trim == s.trim && forall i: nat :: Lookup(t.chunks, i) == After(s, data, rseq, i))
  {
    var added := Buffer(s.chunks, data, rseq, |data|);
    assert added == Add(s.chunks, data, rseq);
    AddKeepsWf(s.chunks, data, rseq, 0);
    AddReturns(s.chunks, data, rseq, 0);
    forall i: nat
      ensures Lookup(added.chunks, i) == After(s, data, rseq, i)
    {
      AddLookup(s.chunks, data, rseq, 0, i);
    }
    var t := s.(chunks := added.chunks, overlaps := s.overlaps + added.overlaps);
    var c := added.chunks[added.pos];
    if rseq <= s.cur < rseq + |data| {
      FirstHole(s, added, rseq, rseq + |data|);
      TryDeliverAdvances(t, added.pos);
    } else {
      if c.rseq <= s.last < c.rupper {
        LookupIn(added.chunks, 0, added.pos, s.last);
        assert false;
      }
    }
  }

  /** The chunk returned for data that covers the cursor begins at the cursor. */
  lemma FirstHole(s: State, added: Added, rseq: nat, rupper: nat)
    requires Orderly(s) && rseq <= s.cur < rupper
    requires Covered(s.chunks, rseq, s.cur) && Returned(s.chunks, added, rseq, rupper)
    ensures added.chunks[added.pos].rseq == s.cur < added.chunks[added.pos].rupper
  {
    var c := added.chunks[added.pos];
    assert Lookup(s.chunks, s.cur) == None;
    assert !Covered(s.chunks, rseq, rupper);
    assert Lookup(s.chunks, c.rseq) == None;
  }
}
