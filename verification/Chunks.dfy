/** The sink's chunk list, and how new data is split around what is already buffered. */
module Chunks {
  import opened Basics

  /** One buffered piece of input. `rupper` is the sequence number just past its last byte. */
  datatype Chunk = Chunk(data: seq<byte>, rseq: nat, rupper: nat)

  /** What the overlap hook is told: where, the bytes buffered there, and the bytes that arrived. */
  datatype Overlap = Overlap(rseq: nat, before: seq<byte>, after: seq<byte>)

  /** Outcome of adding data: the new list, the chunk to try delivering from, the overlap reports, and
      whether all went well; `ok` is false if reading a buffered chunk raised an out-of-range error. */
  datatype Added = Added(chunks: seq<Chunk>, pos: nat, overlaps: seq<Overlap>, ok: bool)

  /** `std::string::substr`: fails if `from` lies past the end, and cuts off at the end otherwise. */
  function Substr(data: seq<byte>, from: nat, len: nat): Option<seq<byte>> {
    if from > |data| then None else Some(data[from..Min(from + len, |data|)])
  }

  /** Adds `data` at `rseq`, walking down the list: bytes already buffered win, holes are filled. */
  function Add(cs: seq<Chunk>, data: seq<byte>, rseq: nat): (r: Added)
    requires |data| > 0
    ensures r.pos < |r.chunks|
    decreases |cs| + |data|
  {
    var rupper := rseq + |data|;
    if |cs| == 0 then
      Added([Chunk(data, rseq, rupper)], 0, [], true)
    else if cs[0].rupper <= rseq then
      var r := Add(cs[1..], data, rseq);
      r.(chunks := [cs[0]] + r.chunks, pos := r.pos + 1)
    else if rupper <= cs[0].rseq then
      Added([Chunk(data, rseq, rupper)] + cs, 0, [], true)
    else if rseq < cs[0].rseq then
      var n := cs[0].rseq - rseq;
      var r := Add(cs, data[n..], cs[0].rseq);
      r.(chunks := [Chunk(data[..n], rseq, rseq + n)] + r.chunks, pos := 0)
    else
      var n := Min(rupper, cs[0].rupper) - rseq;
      var before := Substr(cs[0].data, rseq - cs[0].rseq, n);
      if before.None? then
        Added(cs, 0, [], false)
      else
        var report := Overlap(rseq, before.value, data[..n]);
        if n == |data| then
          Added(cs, 0, [report], true)
        else
          var r := Add(cs[1..], data[n..], rseq + n);
          Added([cs[0]] + r.chunks, r.pos + 1, [report] + r.overlaps, r.ok)
  }

  // ---------------------------------------------------------------- what a chunk list means

  /** Chunks begin at `lo` or later, are sorted, non-empty, and do not overlap. */
  ghost predicate Ordered(cs: seq<Chunk>, lo: nat) {
    |cs| == 0 || (lo <= cs[0].rseq < cs[0].rupper && Ordered(cs[1..], cs[0].rupper))
  }

  /** Each chunk holds one byte for every sequence number it spans. */
  ghost predicate Full(cs: seq<Chunk>) {
    |cs| == 0 || (|cs[0].data| == cs[0].rupper - cs[0].rseq && Full(cs[1..]))
  }

  ghost predicate Wf(cs: seq<Chunk>, lo: nat) {
    Ordered(cs, lo) && Full(cs)
  }

  /** The byte buffered at sequence number `i`, if any. */
  ghost function Lookup(cs: seq<Chunk>, i: nat): Option<byte> {
    if |cs| == 0 then None
    else if cs[0].rseq <= i < cs[0].rseq + |cs[0].data| then Some(cs[0].data[i - cs[0].rseq])
    else Lookup(cs[1..], i)
  }

  /** The policy "First": what is buffered wins, the segment fills the holes. */
  ghost function Overlay(old_: Option<byte>, data: seq<byte>, rseq: nat, i: nat): Option<byte> {
    if old_.Some? then old_
    else if rseq <= i < rseq + |data| then Some(data[i - rseq])
    else None
  }

  ghost predicate Covered(cs: seq<Chunk>, lo: nat, hi: nat) {
    forall i: nat :: lo <= i < hi ==> Lookup(cs, i).Some?
  }

  ghost predicate Hole(cs: seq<Chunk>, lo: nat, hi: nat) {
    forall i: nat :: lo <= i < hi ==> Lookup(cs, i) == None
  }

  ghost function StoredBytes(cs: seq<Chunk>): nat {
    if |cs| == 0 then 0 else |cs[0].data| + StoredBytes(cs[1..])
  }

  ghost function ReportedBytes(os: seq<Overlap>): nat {
    if |os| == 0 then 0 else |os[0].after| + ReportedBytes(os[1..])
  }

  /** Nothing is buffered below the list's lower bound. */
  lemma {:induction false} LookupBelow(cs: seq<Chunk>, lo: nat, i: nat)
    requires Wf(cs, lo) && i < lo
    ensures Lookup(cs, i) == None
  {
    if |cs| > 0 {
      LookupBelow(cs[1..], cs[0].rupper, i);
    }
  }

  // ---------------------------------------------------------------- the five forms of a step of `Add`

  /** The segment comes first; chunk lists left of it play no role. */
  ghost predicate Front(cs: seq<Chunk>, data: seq<byte>, rseq: nat) {
    |cs| == 0 || (rseq < cs[0].rupper && rseq + |data| <= cs[0].rseq)
  }

  /** The first chunk comes completely before the segment. */
  ghost predicate Skips(cs: seq<Chunk>, data: seq<byte>, rseq: nat) {
    |cs| > 0 && cs[0].rupper <= rseq
  }

  /** The segment begins before the first chunk and reaches into it. */
  ghost predicate Splits(cs: seq<Chunk>, data: seq<byte>, rseq: nat) {
    |cs| > 0 && rseq < cs[0].rseq < rseq + |data| && rseq < cs[0].rupper
  }

  /** The segment begins inside the first chunk and goes on past it. */
  ghost predicate Passes(cs: seq<Chunk>, data: seq<byte>, rseq: nat) {
    |cs| > 0 && cs[0].rseq <= rseq < cs[0].rupper < rseq + |data|
  }

  /** The segment lies inside the first chunk. */
  ghost predicate Inside(cs: seq<Chunk>, data: seq<byte>, rseq: nat) {
    |cs| > 0 && cs[0].rseq <= rseq < cs[0].rupper && rseq + |data| <= cs[0].rupper
  }

  // ---------------------------------------------------------------- adding data: main properties

  lemma WfCons(c: Chunk, cs: seq<Chunk>, lo: nat)
    requires lo <= c.rseq < c.rupper && |c.data| == c.rupper - c.rseq && Wf(cs, c.rupper)
    ensures Wf([c] + cs, lo)
  {
    assert ([c] + cs)[1..] == cs;
  }

  lemma WfRest(cs: seq<Chunk>, lo: nat)
    requires Wf(cs, lo) && |cs| > 0
    ensures lo <= cs[0].rseq < cs[0].rupper && |cs[0].data| == cs[0].rupper - cs[0].rseq
    ensures Wf(cs[1..], cs[0].rupper) && Wf(cs, cs[0].rseq)
  {
  }

  lemma AddFront(cs: seq<Chunk>, data: seq<byte>, rseq: nat)
    requires |data| > 0 && Front(cs, data, rseq)
    ensures Add(cs, data, rseq) == Added([Chunk(data, rseq, rseq + |data|)] + cs, 0, [], true)
  {
  }

  lemma AddSkips(cs: seq<Chunk>, data: seq<byte>, rseq: nat)
    requires |data| > 0 && Skips(cs, data, rseq)
    ensures var r := Add(cs[1..], data, rseq);
            Add(cs, data, rseq) == r.(chunks := [cs[0]] + r.chunks, pos := r.pos + 1)
  {
  }

  lemma AddSplits(cs: seq<Chunk>, data: seq<byte>, rseq: nat)
    requires Splits(cs, data, rseq)
    ensures var n := cs[0].rseq - rseq; var r := Add(cs, data[n..], cs[0].rseq);
            Add(cs, data, rseq) == r.(chunks := [Chunk(data[..n], rseq, rseq + n)] + r.chunks, pos := 0)
  {
  }

  lemma AddPasses(cs: seq<Chunk>, data: seq<byte>, rseq: nat)
    requires Passes(cs, data, rseq) && |cs[0].data| == cs[0].rupper - cs[0].rseq
    ensures var n := cs[0].rupper - rseq; var r := Add(cs[1..], data[n..], cs[0].rupper);
            var report := Overlap(rseq, cs[0].data[rseq - cs[0].rseq..], data[..n]);
            Add(cs, data, rseq) == Added([cs[0]] + r.chunks, r.pos + 1, [report] + r.overlaps, r.ok)
  {
    var held, from := cs[0].data, rseq - cs[0].rseq;
    assert held[from..Min(from + (cs[0].rupper - rseq), |held|)] == held[from..];
  }

  lemma AddInside(cs: seq<Chunk>, data: seq<byte>, rseq: nat)
    requires |data| > 0 && Inside(cs, data, rseq) && |cs[0].data| == cs[0].rupper - cs[0].rseq
    ensures var from := rseq - cs[0].rseq;
            Add(cs, data, rseq) == Added(cs, 0, [Overlap(rseq, cs[0].data[from..from + |data|], data)], true)
  {
    assert data[..|data|] == data;
  }

  /** The list stays well formed, and reading it never fails. */
  lemma {:induction false} AddKeepsWf(cs: seq<Chunk>, data: seq<byte>, rseq: nat, lo: nat)
    requires Wf(cs, lo) && |data| > 0 && lo <= rseq
    ensures Wf(Add(cs, data, rseq).chunks, lo) && Add(cs, data, rseq).ok
    decreases |cs| + |data|
  {
    hide Add, Wf;
    if |cs| > 0 {
      WfRest(cs, lo);
    }
    if Front(cs, data, rseq) {
      AddFront(cs, data, rseq);
      FrontFits(cs, data, rseq, lo);
      WfCons(Chunk(data, rseq, rseq + |data|), cs, lo);
    } else if Skips(cs, data, rseq) {
      AddKeepsWf(cs[1..], data, rseq, cs[0].rupper);
      AddSkips(cs, data, rseq);
      WfCons(cs[0], Add(cs[1..], data, rseq).chunks, lo);
    } else if Splits(cs, data, rseq) {
      var n := cs[0].rseq - rseq;
      AddKeepsWf(cs, data[n..], cs[0].rseq, cs[0].rseq);
      AddSplits(cs, data, rseq);
      WfCons(Chunk(data[..n], rseq, rseq + n), Add(cs, data[n..], cs[0].rseq).chunks, lo);
    } else if Passes(cs, data, rseq) {
      var n := cs[0].rupper - rseq;
      AddKeepsWf(cs[1..], data[n..], cs[0].rupper, cs[0].rupper);
      AddPasses(cs, data, rseq);
      WfCons(cs[0], Add(cs[1..], data[n..], cs[0].rupper).chunks, lo);
    } else {
      AddInside(cs, data, rseq);
    }
  }

  lemma FrontFits(cs: seq<Chunk>, data: seq<byte>, rseq: nat, lo: nat)
    requires Wf(cs, lo) && Front(cs, data, rseq)
    ensures Wf(cs, rseq + |data|)
  {
  }

  lemma LookupCons(c: Chunk, cs: seq<Chunk>, i: nat)
    ensures Lookup([c] + cs, i) ==
            if c.rseq <= i < c.rseq + |c.data| then Some(c.data[i - c.rseq]) else Lookup(cs, i)
  {
    assert ([c] + cs)[1..] == cs;
  }

  lemma LookupSkips(cs: seq<Chunk>, data: seq<byte>, rseq: nat, i: nat)
    requires |data| > 0 && Skips(cs, data, rseq)
    requires Lookup(Add(cs[1..], data, rseq).chunks, i) == Overlay(Lookup(cs[1..], i), data, rseq, i)
    ensures Lookup(Add(cs, data, rseq).chunks, i) == Overlay(Lookup(cs, i), data, rseq, i)
  {
    LookupCons(cs[0], Add(cs[1..], data, rseq).chunks, i);
  }

  lemma LookupFront(cs: seq<Chunk>, data: seq<byte>, rseq: nat, lo: nat, i: nat)
    requires Wf(cs, lo) && |data| > 0 && Front(cs, data, rseq)
    ensures Lookup(Add(cs, data, rseq).chunks, i) == Overlay(Lookup(cs, i), data, rseq, i)
  {
    LookupCons(Chunk(data, rseq, rseq + |data|), cs, i);
    if |cs| > 0 && i < cs[0].rseq {
      LookupBelow(cs, cs[0].rseq, i);
    }
  }

  lemma LookupSplits(cs: seq<Chunk>, data: seq<byte>, rseq: nat, lo: nat, i: nat)
    requires Wf(cs, lo) && Splits(cs, data, rseq)
    requires var n := cs[0].rseq - rseq;
             Lookup(Add(cs, data[n..], rseq + n).chunks, i) == Overlay(Lookup(cs, i), data[n..], rseq + n, i)
    ensures Lookup(Add(cs, data, rseq).chunks, i) == Overlay(Lookup(cs, i), data, rseq, i)
  {
    var n := cs[0].rseq - rseq;
    LookupCons(Chunk(data[..n], rseq, rseq + n), Add(cs, data[n..], rseq + n).chunks, i);
    if i < cs[0].rseq {
      LookupBelow(cs, cs[0].rseq, i);
    }
  }

  lemma OverlayBehind(old_: Option<byte>, data: seq<byte>, rseq: nat, n: nat, i: nat)
    requires n <= |data| && !(rseq <= i < rseq + n)
    ensures Overlay(old_, data, rseq, i) == Overlay(old_, data[n..], rseq + n, i)
  {
  }

  lemma LookupPasses(cs: seq<Chunk>, data: seq<byte>, rseq: nat, lo: nat, i: nat)
    requires Wf(cs, lo) && Passes(cs, data, rseq)
    requires var n := cs[0].rupper - rseq;
             Lookup(Add(cs[1..], data[n..], rseq + n).chunks, i) == Overlay(Lookup(cs[1..], i), data[n..], rseq + n, i)
    ensures Lookup(Add(cs, data, rseq).chunks, i) == Overlay(Lookup(cs, i), data, rseq, i)
  {
    hide Add, Wf, Lookup;
    var n := cs[0].rupper - rseq;
    var rest := Add(cs[1..], data[n..], rseq + n).chunks;
    WfRest(cs, lo);
    AddPasses(cs, data, rseq);
    assert Add(cs, data, rseq).chunks == [cs[0]] + rest;
    assert cs == [cs[0]] + cs[1..];
    LookupCons(cs[0], cs[1..], i);
    LookupCons(cs[0], rest, i);
    if !(cs[0].rseq <= i < cs[0].rupper) {
      hide Overlay;
      OverlayBehind(Lookup(cs[1..], i), data, rseq, n, i);
    }
  }

  /** Afterwards each byte is the one buffered before, or else the one that just arrived. */
  lemma {:induction false} AddLookup(cs: seq<Chunk>, data: seq<byte>, rseq: nat, lo: nat, i: nat)
    requires Wf(cs, lo) && |data| > 0
    ensures Lookup(Add(cs, data, rseq).chunks, i) == Overlay(Lookup(cs, i), data, rseq, i)
    decreases |cs| + |data|
  {
    if Front(cs, data, rseq) {
      LookupFront(cs, data, rseq, lo, i);
    } else if Skips(cs, data, rseq) {
      AddLookup(cs[1..], data, rseq, cs[0].rupper, i);
      LookupSkips(cs, data, rseq, i);
    } else if Splits(cs, data, rseq) {
      AddLookup(cs, data[cs[0].rseq - rseq..], cs[0].rseq, lo, i);
      LookupSplits(cs, data, rseq, lo, i);
    } else if Passes(cs, data, rseq) {
      AddLookup(cs[1..], data[cs[0].rupper - rseq..], cs[0].rupper, cs[0].rupper, i);
      LookupPasses(cs, data, rseq, lo, i);
    }
  }

  /** The returned chunk fills the first hole that the segment meets, from its start up to the next
      buffered byte or the segment's end. If the segment meets no hole, nothing is added and the
      returned chunk is the one holding the segment's last byte. */
  ghost predicate Returned(cs: seq<Chunk>, r: Added, rseq: nat, rupper: nat)
    requires rseq < rupper
  {
    && r.pos < |r.chunks|
    && var c := r.chunks[r.pos];
    if Covered(cs, rseq, rupper) then
      r.chunks == cs && c.rseq <= rupper - 1 < c.rupper
    else
      && rseq <= c.rseq < c.rupper <= rupper
      && Covered(cs, rseq, c.rseq) && Hole(cs, c.rseq, c.rupper)
      && (c.rupper < rupper ==> Lookup(cs, c.rupper).Some?)
  }

  /** `Returned` is not affected by a first chunk that ends before `mid`, if the segment is covered up to there. */
  lemma ReturnedBehind(cs: seq<Chunk>, r: Added, rseq: nat, mid: nat, rupper: nat)
    requires |cs| > 0 && |cs[0].data| == cs[0].rupper - cs[0].rseq && cs[0].rupper <= mid
    requires rseq <= mid < rupper && Returned(cs[1..], r, mid, rupper)
    requires Covered(cs, rseq, mid)
    ensures Returned(cs, r.(chunks := [cs[0]] + r.chunks, pos := r.pos + 1), rseq, rupper)
  {
    assert forall i: nat :: mid <= i ==> Lookup(cs, i) == Lookup(cs[1..], i);
    if Covered(cs[1..], mid, rupper) {
      assert Covered(cs, rseq, rupper);
    } else {
      assert !Covered(cs, rseq, rupper);
    }
  }

  lemma ReturnedPrefix(cs: seq<Chunk>, r: Added, rseq: nat, hi: nat, rupper: nat)
    requires rseq < hi <= rupper && Hole(cs, rseq, hi) && (hi < rupper ==> Lookup(cs, hi).Some?)
    requires r.pos < |r.chunks| && r.chunks[r.pos].rseq == rseq && r.chunks[r.pos].rupper == hi
    ensures Returned(cs, r, rseq, rupper)
  {
    assert Lookup(cs, rseq) == None;
  }

  lemma HoleBefore(cs: seq<Chunk>, lo: nat)
    requires |cs| > 0 && Wf(cs, lo)
    ensures Hole(cs, 0, cs[0].rseq)
  {
    forall i: nat | i < cs[0].rseq
      ensures Lookup(cs, i) == None
    {
      LookupBelow(cs, cs[0].rseq, i);
    }
  }

  lemma ReturnsFront(cs: seq<Chunk>, data: seq<byte>, rseq: nat, lo: nat)
    requires Wf(cs, lo) && |data| > 0 && (Front(cs, data, rseq) || Splits(cs, data, rseq))
    ensures Returned(cs, Add(cs, data, rseq), rseq, rseq + |data|)
  {
    var rupper := rseq + |data|;
    if |cs| > 0 {
      HoleBefore(cs, lo);
    }
    var hi := if |cs| == 0 then rupper else Min(rupper, cs[0].rseq);
    ReturnedPrefix(cs, Add(cs, data, rseq), rseq, hi, rupper);
  }

  lemma ReturnsSkips(cs: seq<Chunk>, data: seq<byte>, rseq: nat, lo: nat)
    requires Wf(cs, lo) && |data| > 0 && Skips(cs, data, rseq)
    requires Returned(cs[1..], Add(cs[1..], data, rseq), rseq, rseq + |data|)
    ensures Returned(cs, Add(cs, data, rseq), rseq, rseq + |data|)
  {
    ReturnedBehind(cs, Add(cs[1..], data, rseq), rseq, rseq, rseq + |data|);
  }

  lemma CoversItself(cs: seq<Chunk>, rseq: nat)
    requires |cs| > 0 && cs[0].rseq <= rseq && |cs[0].data| == cs[0].rupper - cs[0].rseq
    ensures Covered(cs, rseq, cs[0].rupper)
  {
  }

  lemma ReturnsPasses(cs: seq<Chunk>, data: seq<byte>, rseq: nat, lo: nat)
    requires Wf(cs, lo) && Passes(cs, data, rseq)
    requires var n := cs[0].rupper - rseq;
             Returned(cs[1..], Add(cs[1..], data[n..], rseq + n), rseq + n, rseq + |data|)
    ensures Returned(cs, Add(cs, data, rseq), rseq, rseq + |data|)
  {
    hide Add, Wf, Lookup, Returned, Covered;
    var n := cs[0].rupper - rseq;
    var rest := Add(cs[1..], data[n..], rseq + n);
    WfRest(cs, lo);
    AddPasses(cs, data, rseq);
    CoversItself(cs, rseq);
    ReturnedBehind(cs, rest, rseq, rseq + n, rseq + |data|);
    ReturnedAnyReports(cs, rest.(chunks := [cs[0]] + rest.chunks, pos := rest.pos + 1), Add(cs, data, rseq),
                       rseq, rseq + |data|);
  }

  lemma ReturnedAnyReports(cs: seq<Chunk>, r: Added, r': Added, rseq: nat, rupper: nat)
    requires rseq < rupper && Returned(cs, r, rseq, rupper) && r'.chunks == r.chunks && r'.pos == r.pos
    ensures Returned(cs, r', rseq, rupper)
  {
  }

  lemma {:induction false} AddReturns(cs: seq<Chunk>, data: seq<byte>, rseq: nat, lo: nat)
    requires Wf(cs, lo) && |data| > 0
    ensures Returned(cs, Add(cs, data, rseq), rseq, rseq + |data|)
    decreases |cs| + |data|
  {
    if Front(cs, data, rseq) || Splits(cs, data, rseq) {
      ReturnsFront(cs, data, rseq, lo);
    } else if Skips(cs, data, rseq) {
      AddReturns(cs[1..], data, rseq, cs[0].rupper);
      ReturnsSkips(cs, data, rseq, lo);
    } else if Passes(cs, data, rseq) {
      AddReturns(cs[1..], data[cs[0].rupper - rseq..], cs[0].rupper, cs[0].rupper);
      ReturnsPasses(cs, data, rseq, lo);
    } else {
      assert Covered(cs, rseq, rseq + |data|);
    }
  }

  ghost predicate Conserves(cs: seq<Chunk>, data: seq<byte>, rseq: nat)
    requires |data| > 0
  {
    var r := Add(cs, data, rseq);
    StoredBytes(r.chunks) + ReportedBytes(r.overlaps) == StoredBytes(cs) + |data|
  }

  lemma StoredCons(c: Chunk, cs: seq<Chunk>)
    ensures StoredBytes([c] + cs) == |c.data| + StoredBytes(cs)
  {
    assert ([c] + cs)[1..] == cs;
  }

  lemma ConservesSkips(cs: seq<Chunk>, data: seq<byte>, rseq: nat)
    requires |data| > 0 && Skips(cs, data, rseq) && Conserves(cs[1..], data, rseq)
    ensures Conserves(cs, data, rseq)
  {
    StoredCons(cs[0], Add(cs[1..], data, rseq).chunks);
  }

  lemma ConservesFront(cs: seq<Chunk>, data: seq<byte>, rseq: nat)
    requires |data| > 0 && Front(cs, data, rseq)
    ensures Conserves(cs, data, rseq)
  {
    StoredCons(Chunk(data, rseq, rseq + |data|), cs);
  }

  lemma ConservesSplits(cs: seq<Chunk>, data: seq<byte>, rseq: nat)
    requires Splits(cs, data, rseq)
    requires Conserves(cs, data[cs[0].rseq - rseq..], cs[0].rseq)
    ensures Conserves(cs, data, rseq)
  {
    var n := cs[0].rseq - rseq;
    StoredCons(Chunk(data[..n], rseq, rseq + n), Add(cs, data[n..], cs[0].rseq).chunks);
  }

  lemma ConservesPasses(cs: seq<Chunk>, data: seq<byte>, rseq: nat, lo: nat)
    requires Wf(cs, lo) && Passes(cs, data, rseq)
    requires Conserves(cs[1..], data[cs[0].rupper - rseq..], cs[0].rupper)
    ensures Conserves(cs, data, rseq)
  {
    var n := cs[0].rupper - rseq;
    var rest := Add(cs[1..], data[n..], cs[0].rupper);
    StoredCons(cs[0], rest.chunks);
    var report := Overlap(rseq, cs[0].data[rseq - cs[0].rseq..], data[..n]);
    assert ([report] + rest.overlaps)[1..] == rest.overlaps;
  }

  /** No byte of a segment is lost or counted twice: each is either stored or reported as overlap. */
  lemma {:induction false} AddConserves(cs: seq<Chunk>, data: seq<byte>, rseq: nat, lo: nat)
    requires Wf(cs, lo) && |data| > 0
    ensures var r := Add(cs, data, rseq);
            StoredBytes(r.chunks) + ReportedBytes(r.overlaps) == StoredBytes(cs) + |data|
    decreases |cs| + |data|
  {
    assert Conserves(cs, data, rseq) by {
      if Front(cs, data, rseq) {
        ConservesFront(cs, data, rseq);
      } else if Skips(cs, data, rseq) {
        AddConserves(cs[1..], data, rseq, cs[0].rupper);
        ConservesSkips(cs, data, rseq);
      } else if Splits(cs, data, rseq) {
        AddConserves(cs, data[cs[0].rseq - rseq..], cs[0].rseq, lo);
        ConservesSplits(cs, data, rseq);
      } else if Passes(cs, data, rseq) {
        AddConserves(cs[1..], data[cs[0].rupper - rseq..], cs[0].rupper, cs[0].rupper);
        ConservesPasses(cs, data, rseq, lo);
      }
    }
  }

  /** A report gives both versions of a stretch of the segment that was buffered already. */
  ghost predicate TrueReport(cs: seq<Chunk>, data: seq<byte>, rseq: nat, o: Overlap) {
    && |o.before| == |o.after| > 0
    && rseq <= o.rseq && o.rseq + |o.after| <= rseq + |data|
    && (forall k: nat :: k < |o.after| ==>
          o.after[k] == data[o.rseq - rseq + k] && Lookup(cs, o.rseq + k) == Some(o.before[k]))
  }

  /** All reports are true; they start at `lo` or later, come in order, and do not overlap. */
  ghost predicate TrueReports(cs: seq<Chunk>, data: seq<byte>, rseq: nat, os: seq<Overlap>, lo: nat) {
    |os| == 0 ||
    (lo <= os[0].rseq && TrueReport(cs, data, rseq, os[0])
     && TrueReports(cs, data, rseq, os[1..], os[0].rseq + |os[0].after|))
  }

  lemma ReportCarriesOver(cs: seq<Chunk>, data: seq<byte>, rseq: nat, rest: seq<Chunk>, n: nat, o: Overlap)
    requires n <= |data| && TrueReport(rest, data[n..], rseq + n, o)
    requires forall i: nat :: rseq + n <= i ==> Lookup(cs, i) == Lookup(rest, i)
    ensures TrueReport(cs, data, rseq, o)
  {
    forall k: nat | k < |o.after|
      ensures o.after[k] == data[o.rseq - rseq + k] && Lookup(cs, o.rseq + k) == Some(o.before[k])
    {
      assert data[n..][o.rseq - (rseq + n) + k] == data[o.rseq - rseq + k];
    }
  }

  /** Reports about a rest of the segment and of the list are true of the whole. */
  lemma {:induction false} ReportsCarryOver(cs: seq<Chunk>, data: seq<byte>, rseq: nat,
                                            rest: seq<Chunk>, n: nat, os: seq<Overlap>, lo: nat, lo': nat)
    requires n <= |data| && TrueReports(rest, data[n..], rseq + n, os, lo) && lo' <= lo
    requires forall i: nat :: rseq + n <= i ==> Lookup(cs, i) == Lookup(rest, i)
    ensures TrueReports(cs, data, rseq, os, lo')
  {
    if |os| > 0 {
      var next := os[0].rseq + |os[0].after|;
      ReportCarriesOver(cs, data, rseq, rest, n, os[0]);
      ReportsCarryOver(cs, data, rseq, rest, n, os[1..], next, next);
    }
  }

  lemma FirstReport(cs: seq<Chunk>, data: seq<byte>, rseq: nat, n: nat)
    requires |cs| > 0 && |cs[0].data| == cs[0].rupper - cs[0].rseq
    requires cs[0].rseq <= rseq && 0 < n <= |data| && rseq + n <= cs[0].rupper
    ensures var o := Overlap(rseq, cs[0].data[rseq - cs[0].rseq..rseq - cs[0].rseq + n], data[..n]);
            TrueReport(cs, data, rseq, o)
  {
  }

  lemma ReportsCons(cs: seq<Chunk>, data: seq<byte>, rseq: nat, o: Overlap, os: seq<Overlap>, lo: nat)
    requires lo <= o.rseq && TrueReport(cs, data, rseq, o)
    requires TrueReports(cs, data, rseq, os, o.rseq + |o.after|)
    ensures TrueReports(cs, data, rseq, [o] + os, lo)
  {
    assert ([o] + os)[1..] == os;
  }

  lemma ReportsSkips(cs: seq<Chunk>, data: seq<byte>, rseq: nat, lo: nat)
    requires Wf(cs, lo) && |data| > 0 && Skips(cs, data, rseq)
    requires TrueReports(cs[1..], data, rseq, Add(cs[1..], data, rseq).overlaps, rseq)
    ensures TrueReports(cs, data, rseq, Add(cs, data, rseq).overlaps, rseq)
  {
    assert data[0..] == data;
    ReportsCarryOver(cs, data, rseq, cs[1..], 0, Add(cs[1..], data, rseq).overlaps, rseq, rseq);
  }

  lemma ReportsSplits(cs: seq<Chunk>, data: seq<byte>, rseq: nat)
    requires Splits(cs, data, rseq)
    requires var n := cs[0].rseq - rseq;
             TrueReports(cs, data[n..], rseq + n, Add(cs, data[n..], rseq + n).overlaps, rseq + n)
    ensures TrueReports(cs, data, rseq, Add(cs, data, rseq).overlaps, rseq)
  {
    var n := cs[0].rseq - rseq;
    ReportsCarryOver(cs, data, rseq, cs, n, Add(cs, data[n..], rseq + n).overlaps, rseq + n, rseq);
  }

  lemma ReportsPasses(cs: seq<Chunk>, data: seq<byte>, rseq: nat, lo: nat)
    requires Wf(cs, lo) && Passes(cs, data, rseq)
    requires var n := cs[0].rupper - rseq;
             TrueReports(cs[1..], data[n..], rseq + n, Add(cs[1..], data[n..], rseq + n).overlaps, rseq + n)
    ensures TrueReports(cs, data, rseq, Add(cs, data, rseq).overlaps, rseq)
  {
    hide Add, Wf, TrueReports;
    WfRest(cs, lo);
    var n := cs[0].rupper - rseq;
    var from := rseq - cs[0].rseq;
    var o := Overlap(rseq, cs[0].data[from..from + n], data[..n]);
    var os := Add(cs[1..], data[n..], rseq + n).overlaps;
    FirstReport(cs, data, rseq, n);
    ReportsCarryOver(cs, data, rseq, cs[1..], n, os, rseq + n, rseq + n);
    AddPasses(cs, data, rseq);
    assert o.before == cs[0].data[from..];
    ReportsCons(cs, data, rseq, o, os, rseq);
  }

  lemma ReportsInside(cs: seq<Chunk>, data: seq<byte>, rseq: nat, lo: nat)
    requires Wf(cs, lo) && |data| > 0 && Inside(cs, data, rseq)
    ensures TrueReports(cs, data, rseq, Add(cs, data, rseq).overlaps, rseq)
  {
    FirstReport(cs, data, rseq, |data|);
  }

  /** The overlap hook sees the truth, in order and without repetition; with `AddConserves`, all of it. */
  lemma {:induction false} AddReports(cs: seq<Chunk>, data: seq<byte>, rseq: nat, lo: nat)
    requires Wf(cs, lo) && |data| > 0
    ensures TrueReports(cs, data, rseq, Add(cs, data, rseq).overlaps, rseq)
    decreases |cs| + |data|
  {
    if Front(cs, data, rseq) {
    } else if Skips(cs, data, rseq) {
      AddReports(cs[1..], data, rseq, cs[0].rupper);
      ReportsSkips(cs, data, rseq, lo);
    } else if Splits(cs, data, rseq) {
      AddReports(cs, data[cs[0].rseq - rseq..], cs[0].rseq, lo);
      ReportsSplits(cs, data, rseq);
    } else if Passes(cs, data, rseq) {
      AddReports(cs[1..], data[cs[0].rupper - rseq..], cs[0].rupper, cs[0].rupper);
      ReportsPasses(cs, data, rseq, lo);
    } else {
      ReportsInside(cs, data, rseq, lo);
    }
  }
}
