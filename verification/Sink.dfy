/** The sink itself: an object whose methods update the reassembly state in place. */
module Sink {
  import opened Basics
  import opened Chunks
  import Reassembly
  import KeepMode
  import AutoTrim

  // ---------------------------------------------------------------- facts that connect index and list form

  lemma {:induction false} AddKeepsOrdered(cs: seq<Chunk>, data: seq<byte>, rseq: nat, lo: nat)
    requires Ordered(cs, lo) && |data| > 0 && lo <= rseq
    ensures Ordered(Add(cs, data, rseq).chunks, lo)
    decreases |cs| + |data|
  {
    if Skips(cs, data, rseq) {
      AddKeepsOrdered(cs[1..], data, rseq, cs[0].rupper);
    } else if Splits(cs, data, rseq) {
      AddKeepsOrdered(cs, data[cs[0].rseq - rseq..], cs[0].rseq, cs[0].rseq);
    } else if Passes(cs, data, rseq) {
      AddKeepsOrdered(cs[1..], data[cs[0].rupper - rseq..], cs[0].rupper, cs[0].rupper);
    }
  }

  /** Splitting an ordered list. */
  lemma {:induction false} OrderedFrom(cs: seq<Chunk>, lo: nat, c: nat)
    requires Ordered(cs, lo) && c <= |cs|
    ensures Ordered(cs[c..], if c == 0 then lo else cs[c - 1].rupper)
    ensures c > 0 ==> lo < cs[c - 1].rupper
  {
    if c > 0 {
      OrderedFrom(cs[1..], cs[0].rupper, c - 1);
      assert cs[1..][c - 1..] == cs[c..];
    }
  }

  /** Joining an ordered list to the front part of another. */
  lemma {:induction false} OrderedJoin(cs: seq<Chunk>, lo: nat, c: nat, rest: seq<Chunk>)
    requires Ordered(cs, lo) && c <= |cs|
    requires Ordered(rest, if c == 0 then lo else cs[c - 1].rupper)
    ensures Ordered(cs[..c] + rest, lo)
  {
    if c == 0 {
      assert cs[..c] + rest == rest;
    } else {
      OrderedJoin(cs[1..], cs[0].rupper, c - 1, rest);
      assert (cs[..c] + rest)[1..] == cs[1..][..c - 1] + rest;
    }
  }

  /** Data that continues the last chunk goes behind it. */
  lemma {:induction false} AddAtEnd(cs: seq<Chunk>, lo: nat, data: seq<byte>, rseq: nat)
    requires Ordered(cs, lo) && |data| > 0 && (|cs| > 0 ==> rseq == cs[|cs| - 1].rupper)
    ensures Add(cs, data, rseq) == Added(cs + [Chunk(data, rseq, rseq + |data|)], |cs|, [], true)
  {
    if |cs| > 0 {
      OrderedFrom(cs[1..], cs[0].rupper, |cs| - 1);
      AddAtEnd(cs[1..], cs[0].rupper, data, rseq);
      assert [cs[0]] + (cs[1..] + [Chunk(data, rseq, rseq + |data|)]) == cs + [Chunk(data, rseq, rseq + |data|)];
    }
  }

  /** Entering `data` at `rseq` from chunk `c0` on has turned the list `cs` into `after`, the reports
      `os` into `os'`, and returned chunk `newC` and the flag `ok`, just as `Add` has it. */
  ghost predicate Entered(cs: seq<Chunk>, os: seq<Overlap>, data: seq<byte>, rseq: nat, c0: nat,
                          after: seq<Chunk>, os': seq<Overlap>, newC: nat, ok: bool)
    requires c0 <= |cs| && |data| > 0
  {
    var r := Add(cs[c0..], data, rseq);
    after == cs[..c0] + r.chunks && newC == c0 + r.pos && os' == os + r.overlaps && ok == r.ok
  }

  /** Chunk `c0` comes before the data, or the list ends at `c0`. */
  ghost predicate Behind(cs: seq<Chunk>, c0: nat, rseq: nat) {
    c0 <= |cs| && (c0 > 0 ==> cs[c0 - 1].rupper <= rseq)
  }

  lemma EnteredKeepsOrdered(cs: seq<Chunk>, os: seq<Overlap>, data: seq<byte>, rseq: nat, c0: nat,
                            after: seq<Chunk>, os': seq<Overlap>, newC: nat, ok: bool)
    requires Ordered(cs, 0) && Behind(cs, c0, rseq) && |data| > 0
    requires Entered(cs, os, data, rseq, c0, after, os', newC, ok)
    ensures Ordered(after, 0)
  {
    OrderedFrom(cs, 0, c0);
    AddKeepsOrdered(cs[c0..], data, rseq, if c0 == 0 then 0 else cs[c0 - 1].rupper);
    OrderedJoin(cs, 0, c0, Add(cs[c0..], data, rseq).chunks);
  }

  lemma EnteredAtEnd(cs: seq<Chunk>, os: seq<Overlap>, data: seq<byte>, rseq: nat, c0: nat)
    requires Ordered(cs, 0) && c0 <= |cs| && |data| > 0
    requires |cs| > 0 && rseq == cs[|cs| - 1].rupper
    ensures Entered(cs, os, data, rseq, c0, cs + [Chunk(data, rseq, rseq + |data|)], os, |cs|, true)
  {
    hide Ordered, Add;
    OrderedFrom(cs, 0, c0);
    AddAtEnd(cs[c0..], if c0 == 0 then 0 else cs[c0 - 1].rupper, data, rseq);
    assert cs[..c0] + (cs[c0..] + [Chunk(data, rseq, rseq + |data|)]) == cs + [Chunk(data, rseq, rseq + |data|)];
  }

  /** Data that comes right before chunk `c`, or at the end, as a whole. */
  lemma EnteredFront(cs: seq<Chunk>, os: seq<Overlap>, data: seq<byte>, rseq: nat, c: nat)
    requires c <= |cs| && |data| > 0 && Front(cs[c..], data, rseq)
    ensures Entered(cs, os, data, rseq, c, cs[..c] + [Chunk(data, rseq, rseq + |data|)] + cs[c..], os, c, true)
  {
  }

  lemma EnteredSkips(cs: seq<Chunk>, os: seq<Overlap>, data: seq<byte>, rseq: nat, c: nat,
                     after: seq<Chunk>, os': seq<Overlap>, newC: nat, ok: bool)
    requires c < |cs| && cs[c].rupper <= rseq && |data| > 0
    requires Entered(cs, os, data, rseq, c + 1, after, os', newC, ok)
    ensures Entered(cs, os, data, rseq, c, after, os', newC, ok)
  {
    var rest := Add(cs[c + 1..], data, rseq);
    assert cs[c..][1..] == cs[c + 1..];
    assert cs[..c + 1] + rest.chunks == cs[..c] + ([cs[c]] + rest.chunks);
  }

  /** Chunks that come completely before the data make no difference. */
  lemma {:induction false} EnteredLater(cs: seq<Chunk>, os: seq<Overlap>, data: seq<byte>, rseq: nat, c0: nat, c: nat,
                                        after: seq<Chunk>, os': seq<Overlap>, newC: nat, ok: bool)
    requires c0 <= c <= |cs| && |data| > 0
    requires forall k :: c0 <= k < c ==> cs[k].rupper <= rseq
    requires Entered(cs, os, data, rseq, c, after, os', newC, ok)
    ensures Entered(cs, os, data, rseq, c0, after, os', newC, ok)
    decreases c
  {
    if c0 < c {
      EnteredSkips(cs, os, data, rseq, c - 1, after, os', newC, ok);
      EnteredLater(cs, os, data, rseq, c0, c - 1, after, os', newC, ok);
    }
  }

  /** Data of which a prefix comes before chunk `c`: the prefix goes in, then the rest. */
  lemma EnteredSplit(cs: seq<Chunk>, os: seq<Overlap>, data: seq<byte>, rseq: nat, c: nat,
                     after: seq<Chunk>, os': seq<Overlap>, newC: nat, ok: bool)
    requires c < |cs| && Splits(cs[c..], data, rseq)
    requires var n := cs[c].rseq - rseq;
             var split := cs[..c] + [Chunk(data[..n], rseq, rseq + n)] + cs[c..];
             Entered(split, os, data[n..], rseq + n, c + 1, after, os', newC, ok)
    ensures Entered(cs, os, data, rseq, c, after, os', c, ok)
  {
    var n := cs[c].rseq - rseq;
    var piece := Chunk(data[..n], rseq, rseq + n);
    var split := cs[..c] + [piece] + cs[c..];
    var rest := Add(cs[c..], data[n..], rseq + n);
    assert split[c + 1..] == cs[c..] && split[..c + 1] == cs[..c] + [piece];
    assert cs[..c] + [piece] + rest.chunks == cs[..c] + ([piece] + rest.chunks);
  }

  lemma EnteredInside(cs: seq<Chunk>, os: seq<Overlap>, data: seq<byte>, rseq: nat, c: nat)
    requires c < |cs| && Inside(cs[c..], data, rseq) && |data| > 0
    ensures var before := Substr(cs[c].data, rseq - cs[c].rseq, |data|);
            if before.None? then
              Entered(cs, os, data, rseq, c, cs, os, c, false)
            else
              Entered(cs, os, data, rseq, c, cs, os + [Chunks.Overlap(rseq, before.value, data)], c, true)
  {
    assert cs == cs[..c] + cs[c..] && data[..|data|] == data;
  }

  lemma EnteredPasses(cs: seq<Chunk>, os: seq<Overlap>, data: seq<byte>, rseq: nat, c: nat,
                      after: seq<Chunk>, os': seq<Overlap>, newC: nat, ok: bool)
    requires c < |cs| && Passes(cs[c..], data, rseq)
    requires var n := cs[c].rupper - rseq;
             var before := Substr(cs[c].data, rseq - cs[c].rseq, n);
             if before.None? then
               after == cs && os' == os && newC == c && !ok
             else
               var report := Chunks.Overlap(rseq, before.value, data[..n]);
               Entered(cs, os + [report], data[n..], rseq + n, c, after, os', newC, ok)
    ensures Entered(cs, os, data, rseq, c, after, os', newC, ok)
  {
    var n := cs[c].rupper - rseq;
    AddPassing(cs[c..], data, rseq);
    assert cs == cs[..c] + cs[c..] && cs[c..][1..] == cs[c + 1..];
    hide Add;
    var rest := Add(cs[c + 1..], data[n..], rseq + n);
    assert cs[..c + 1] + rest.chunks == cs[..c] + ([cs[c]] + rest.chunks);
  }

  lemma AddPassing(cs: seq<Chunk>, data: seq<byte>, rseq: nat)
    requires Passes(cs, data, rseq)
    ensures var n := cs[0].rupper - rseq;
            var before := Substr(cs[0].data, rseq - cs[0].rseq, n);
            var r := Add(cs[1..], data[n..], rseq + n);
            Add(cs, data, rseq) ==
              if before.None? then Added(cs, 0, [], false)
              else Added([cs[0]] + r.chunks, r.pos + 1,
                         [Chunks.Overlap(rseq, before.value, data[..n])] + r.overlaps, r.ok)
  {
  }

  lemma SplitOrdered(cs: seq<Chunk>, c: nat, prefix: Chunk)
    requires Ordered(cs, 0) && c < |cs| && Behind(cs, c, prefix.rseq)
    requires prefix.rseq < prefix.rupper <= cs[c].rseq
    ensures var split := cs[..c] + [prefix] + cs[c..];
            && Ordered(split, 0) && |split| == |cs| + 1
            && Behind(split, c + 1, prefix.rupper) && split[c + 1] == cs[c]
    ensures cs[c].rseq < cs[c].rupper
  {
    OrderedFrom(cs, 0, c);
    OrderedJoin(cs, 0, c, [prefix] + cs[c..]);
    assert cs[..c] + [prefix] + cs[c..] == cs[..c] + ([prefix] + cs[c..]);
  }

  lemma BufferIs(cs: seq<Chunk>, data: seq<byte>, rseq: nat, len: nat, os: seq<Overlap>,
                 after: seq<Chunk>, os': seq<Overlap>, newC: nat, ok: bool)
    requires |data| > 0
    requires if |cs| == 0 then
               after == [Chunk(data, rseq, rseq + len)] && os' == os && newC == 0 && ok
             else
               Entered(cs, os, data, rseq, 0, after, os', newC, ok)
    ensures var added := Reassembly.Buffer(cs, data, rseq, len);
            added.chunks == after && os' == os + added.overlaps && added.pos == newC && added.ok == ok
  {
    assert cs[0..] == cs;
  }

  lemma DeliverNext(s: Reassembly.State, cs: seq<Chunk>, c: nat)
    requires c < |cs|
    ensures Reassembly.DeliverAll(s, cs[c..]) == Reassembly.DeliverAll(Reassembly.DeliverChunk(s, cs[c]), cs[c + 1..])
  {
    assert cs[c..][1..] == cs[c + 1..];
  }

  class Sink {
    var autoTrim: bool
    var size: nat
    var initialSeq: nat
    var cur: nat
    var last: nat
    var trim: nat
    var chunks: seq<Chunk>

    // What the connected units and their hooks get to see.
    var delivered: seq<byte>
    var overlaps: seq<Overlap>
    var undelivered: seq<(nat, seq<byte>)>

    ghost predicate Valid()
      reads this
    {
      Ordered(chunks, 0) && initialSeq < TWO_TO_THE_64
    }

    ghost function View(): Reassembly.State
      reads this
    {
      Reassembly.State(autoTrim, size, cur, last, trim, chunks, delivered, overlaps, undelivered)
    }

    constructor ()
      ensures Valid() && View() == Reassembly.Init() && initialSeq == 0
    {
      autoTrim, size, initialSeq, cur, last, trim, chunks := true, 0, 0, 0, 0, 0, [];
      delivered, overlaps, undelivered := [], [], [];
    }

    /** Adds new data to the buffer, beginning the search for its place at chunk `c0`. */
    method AddAndCheck(data: seq<byte>, rseq: nat, rupper: nat, c0: nat) returns (newC: nat, ok: bool)
      requires Valid() && 0 < |chunks| && Behind(chunks, c0, rseq)
      requires |data| == rupper - rseq > 0
      modifies this`chunks, this`overlaps
      ensures Entered(old(chunks), old(overlaps), data, rseq, c0, chunks, overlaps, newC, ok)
      ensures Valid()
      decreases rupper - rseq, 2
    {
      ghost var all, os := chunks, overlaps;
      // A continuation of the last chunk needs no search.
      if rseq == chunks[|chunks| - 1].rupper {
        chunks := chunks + [Chunk(data, rseq, rupper)];
        newC, ok := |chunks| - 1, true;
        EnteredAtEnd(all, os, data, rseq, c0);
      } else {
        var c := FirstNotBefore(rseq, c0);
        if c == |chunks| {
          // There is nothing behind the data.
          chunks := chunks + [Chunk(data, rseq, rupper)];
          newC, ok := |chunks| - 1, true;
          EnteredFront(all, os, data, rseq, c);
          assert all[..c] + [Chunk(data, rseq, rupper)] + all[c..] == chunks;
        } else if rupper <= chunks[c].rseq {
          // The data fits in front of chunk c.
          chunks := chunks[..c] + [Chunk(data, rseq, rupper)] + chunks[c..];
          newC, ok := c, true;
          EnteredFront(all, os, data, rseq, c);
        } else {
          newC, ok := BreakUp(data, rseq, rupper, c);
        }
        EnteredLater(all, os, data, rseq, c0, c, chunks, overlaps, newC, ok);
      }
      EnteredKeepsOrdered(all, os, data, rseq, c0, chunks, overlaps, newC, ok);
    }

    /** The first chunk from `c0` on that does not come completely before `rseq`. */
    method FirstNotBefore(rseq: nat, c0: nat) returns (c: nat)
      requires Behind(chunks, c0, rseq)
      ensures c0 <= c && Behind(chunks, c, rseq)
      ensures forall k :: c0 <= k < c ==> chunks[k].rupper <= rseq
      ensures c < |chunks| ==> rseq < chunks[c].rupper
    {
      c := c0;
      while c < |chunks| && chunks[c].rupper <= rseq
        invariant c0 <= c && Behind(chunks, c, rseq)
        invariant forall k :: c0 <= k < c ==> chunks[k].rupper <= rseq
      {
        c := c + 1;
      }
    }

    /** The part of `AddAndCheck` for data that overlaps chunk `c`: splits off a prefix that comes before it. */
    method BreakUp(data: seq<byte>, rseq: nat, rupper: nat, c: nat) returns (newC: nat, ok: bool)
      requires Valid() && Behind(chunks, c, rseq) && c < |chunks|
      requires |data| == rupper - rseq > 0
      requires rseq < chunks[c].rupper && chunks[c].rseq < rupper
      modifies this`chunks, this`overlaps
      ensures Entered(old(chunks), old(overlaps), data, rseq, c, chunks, overlaps, newC, ok)
      ensures Valid()
      decreases rupper - rseq, 1
    {
      ghost var all, os := chunks, overlaps;
      if rseq < chunks[c].rseq {
        var prefixLen := chunks[c].rseq - rseq;
        var prefix := Chunk(data[..prefixLen], rseq, rseq + prefixLen);
        SplitOrdered(chunks, c, prefix);
        chunks := chunks[..c] + [prefix] + chunks[c..];
        assert chunks[c + 1] == all[c];
        var at, k := Overlap(data[prefixLen..], rseq + prefixLen, rupper, c + 1);
        newC, ok := c, k;
        EnteredSplit(all, os, data, rseq, c, chunks, overlaps, at, ok);
      } else {
        newC, ok := Overlap(data, rseq, rupper, c);
      }
    }

    /** The part of `AddAndCheck` for data that begins inside chunk `c`: reports the overlap, then goes on. */
    method Overlap(data: seq<byte>, rseq: nat, rupper: nat, c: nat) returns (newC: nat, ok: bool)
      requires Valid() && Behind(chunks, c, rseq) && c < |chunks|
      requires |data| == rupper - rseq > 0
      requires chunks[c].rseq <= rseq < chunks[c].rupper
      modifies this`chunks, this`overlaps
      ensures Entered(old(chunks), old(overlaps), data, rseq, c, chunks, overlaps, newC, ok)
      ensures Valid()
      decreases rupper - rseq, 0
    {
      ghost var all, os := chunks, overlaps;
      var newLen := rupper - rseq;
      var cLen := chunks[c].rupper - rseq;
      var overlapLen := if newLen < cLen then newLen else cLen;
      var before := Substr(chunks[c].data, rseq - chunks[c].rseq, overlapLen);
      newC, ok := c, before.Some?;
      if before.Some? {
        overlaps := overlaps + [Chunks.Overlap(rseq, before.value, data[..overlapLen])];
        if overlapLen < newLen {
          newC, ok := AddAndCheck(data[overlapLen..], rseq + overlapLen, rupper, c);
        }
      }
      if overlapLen < newLen {
        EnteredPasses(all, os, data, rseq, c, chunks, overlaps, newC, ok);
      } else {
        EnteredInside(all, os, data, rseq, c);
      }
    }

    /** Delivers data to the connected units. */
    method Deliver(data: seq<byte>, rupper: nat)
      requires Valid()
      modifies this`size, this`cur, this`last, this`delivered
      ensures View() == Reassembly.Deliver(old(View()), data, rupper)
    {
      if |data| == 0 {
        return;
      }
      size := size + |data|;
      delivered := delivered + data;
      cur := rupper;
      last := rupper;
    }

    /** Drops chunks that begin before `rseq`. */
    method Trim(rseq: nat)
      requires Valid()
      modifies this`chunks, this`undelivered, this`trim
      ensures View() == Reassembly.Trim(old(View()), rseq)
      ensures Valid()
    {
      ghost var all, reports := chunks, undelivered;
      ghost var lo := 0;
      while |chunks| > 0
        invariant Ordered(chunks, lo)
        invariant Reassembly.Kept(chunks, rseq) == Reassembly.Kept(all, rseq)
        invariant undelivered + Reassembly.Dropped(chunks, cur, rseq) == reports + Reassembly.Dropped(all, cur, rseq)
        decreases |chunks|
      {
        if chunks[0].rseq >= rseq {
          break;
        }
        if cur < chunks[0].rseq {
          undelivered := undelivered + [(chunks[0].rseq, chunks[0].data)];
        }
        lo := chunks[0].rupper;
        chunks := chunks[1..];
      }
      Reassembly.OrderedLower(chunks, lo, 0);
      trim := rseq;
    }

    /** Delivers chunk `c` if it continues what has been put together so far. */
    method OfferChunk(c: nat)
      requires Valid() && c < |chunks|
      modifies this`size, this`cur, this`last, this`delivered
      ensures Valid() && View() == Reassembly.DeliverChunk(old(View()), chunks[c])
    {
      OrderedFrom(chunks, 0, c);
      if chunks[c].rseq == last {
        last := last + (chunks[c].rupper - chunks[c].rseq);
        Deliver(chunks[c].data, chunks[c].rupper);
      }
    }

    /** Delivers as much as possible, starting at chunk `c0`. */
    method TryDeliver(c0: nat)
      requires Valid() && c0 <= |chunks|
      modifies this
      ensures View() == Reassembly.TryDeliver(old(View()), c0)
      ensures Valid() && initialSeq == old(initialSeq)
    {
      var c := c0;
      while c < |chunks|
        invariant c0 <= c <= |chunks| && Valid() && initialSeq == old(initialSeq) && chunks == old(chunks)
        invariant Reassembly.DeliverAll(View(), chunks[c..]) == Reassembly.DeliverAll(old(View()), chunks[c0..])
        invariant autoTrim == old(autoTrim) && trim == old(trim)
      {
        DeliverNext(View(), chunks, c);
        OfferChunk(c);
        c := c + 1;
      }
      if autoTrim {
        Trim(last);
      }
    }

    /** The entry point for all new data; `ok` is false if an out-of-range error escapes. */
    method NewData(data0: seq<byte>, rseq0: nat) returns (ok: bool)
      requires Valid()
      modifies this
      ensures (View(), ok) == Reassembly.NewData(old(View()), data0, rseq0)
      ensures Valid() && initialSeq == old(initialSeq)
    {
      var data, rseq, len := data0, rseq0, |data0|;
      ok := true;
      if len == 0 {
        return;
      }
      if autoTrim && |chunks| == 0 && rseq == cur {
        // The fast path: no buffering at all.
        Deliver(data, rseq + len);
        return;
      }
      var rupper := rseq + len;
      if rupper <= trim {
        return;
      }
      if rseq < trim {
        // What lies before the trim point is dropped.
        var amountOld := trim - rseq;
        rseq := rseq + amountOld;
        data := data[amountOld..];
      }
      ok := Enter(data, rseq, rupper, len);
    }

    /** The part of `NewData` that buffers what is not old, and then tries to deliver. */
    method Enter(data: seq<byte>, rseq: nat, rupper: nat, len: nat) returns (ok: bool)
      requires Valid() && |data| == rupper - rseq > 0 && len > 0
      modifies this
      ensures (View(), ok) == Reassembly.Enter(old(View()), data, rseq, len)
      ensures Valid() && initialSeq == old(initialSeq)
    {
      var c := 0;
      ok := true;
      if |chunks| == 0 {
        assert overlaps + [] == overlaps;
        chunks := [Chunk(data, rseq, rseq + len)];
      } else {
        assert chunks[0..] == chunks && chunks[..0] == [];
        c, ok := AddAndCheck(data, rseq, rupper, 0);
      }
      BufferIs(old(chunks), data, rseq, len, old(overlaps), chunks, overlaps, c, ok);
      if ok {
        // Delivery is due only if the returned chunk reaches across the cursor.
        if chunks[c].rseq > last || chunks[c].rupper <= last {
          return;
        }
        TryDeliver(c);
      }
    }

    /** Turns an absolute sequence number into a relative one, in 64-bit arithmetic. */
    function RSeq(seq_: nat): (r: nat)
      reads this
      requires Valid() && seq_ < TWO_TO_THE_64
      ensures r < TWO_TO_THE_64 && (initialSeq + r) % TWO_TO_THE_64 == seq_
    {
      if seq_ >= initialSeq then seq_ - initialSeq else seq_ - initialSeq + TWO_TO_THE_64
    }

    /** The current position in the sequence space. */
    method SequenceNumber() returns (r: nat)
      requires Valid() && cur < TWO_TO_THE_64
      ensures r < TWO_TO_THE_64 && RSeq(r) == cur
    {
      r := (initialSeq + cur) % TWO_TO_THE_64;
    }

    /** Writes data at an absolute sequence number, or else at the current end of the input. */
    method Write(data: seq<byte>, seq_: Option<nat>) returns (ok: bool)
      requires Valid() && (seq_.Some? ==> seq_.value < TWO_TO_THE_64)
      requires (if seq_.Some? then RSeq(seq_.value) else cur) + |data| < TWO_TO_THE_64
      modifies this
      ensures Valid() && initialSeq == old(initialSeq)
      ensures var rseq := if seq_.Some? then old(RSeq(seq_.value)) else old(cur);
              && (View(), ok) == Reassembly.NewData(old(View()), data, rseq)
              && (forall ws :: old(View()) == KeepMode.Run(ws) ==>
                    ok && View() == KeepMode.Run(ws + [Reassembly.Segment(rseq, data)]))
              && (forall ws :: old(View()) == AutoTrim.Run(ws) ==>
                    View() == AutoTrim.Run(ws + [Reassembly.Segment(rseq, data)]))
    {
      ghost var rseq := if seq_.Some? then RSeq(seq_.value) else cur;
      ghost var w := Reassembly.Segment(rseq, data);
      forall ws
        ensures KeepMode.Run(ws + [w]) == Reassembly.NewData(KeepMode.Run(ws), data, rseq).0
        ensures AutoTrim.Run(ws + [w]) == Reassembly.NewData(AutoTrim.Run(ws), data, rseq).0
        ensures Reassembly.NewData(KeepMode.Run(ws), data, rseq).1
      {
        AutoTrim.RunSnoc(ws, w);
        KeepMode.RunIsOrderly(ws + [w]);
        assert (ws + [w])[..|ws|] == ws;
      }
      ok := true;
      if |data| == 0 {
        return;
      }
      match seq_
      case Some(n) => ok := NewData(data, RSeq(n));
      case None => ok := NewData(data, cur);
    }

    method SetAutoTrim(enable: bool)
      requires Valid()
      modifies this`autoTrim
      ensures Valid() && View() == old(View()).(autoTrim := enable)
    {
      autoTrim := enable;
    }

    /** Back to the state of a new sink; the units it was connected to are no longer its own. */
    method Close()
      requires Valid()
      modifies this
      ensures Valid() && View() == Reassembly.Init() && initialSeq == 0
    {
      autoTrim, size, initialSeq, cur, last, trim, chunks := true, 0, 0, 0, 0, 0, [];
      delivered, overlaps, undelivered := [], [], [];
    }

    /** Only a sink without input takes a new initial sequence number; any other is closed, with an error. */
    method SetInitialSequenceNumber(seq_: nat) returns (ok: bool)
      requires Valid() && seq_ < TWO_TO_THE_64
      modifies this
      ensures Valid()
      ensures ok <==> old(cur) == 0 && |old(chunks)| == 0
      ensures ok ==> View() == old(View()) && RSeq(seq_) == 0
      ensures !ok ==> View() == Reassembly.Init() && initialSeq == 0
    {
      if cur != 0 || |chunks| != 0 {
        Close();
        return false;
      }
      initialSeq := seq_;
      return true;
    }
  }
}
