/** Views of a stream, and the several ways of reading the bytes they cover. */
module Views {
  import opened Basics
  import opened Layout
  import opened Chain

  /** A place in a stream, with a chunk remembered as a hint. */
  datatype Position = Position(offset: nat, chunk: Chunk?)

  /** Wherever the hint is looked at, it is a current chunk from which the place can be reached. */
  ghost predicate Current(chain: Chain, p: Position)
    reads chain, chain.nodes
  {
    chain.headOffset <= p.offset < |chain.history| && p.chunk != null ==>
      p.chunk in chain.nodes && p.chunk.offset <= p.offset
  }

  ghost predicate NoGaps(history: seq<Option<byte>>, lo: nat, hi: nat) {
    forall o :: lo <= o < hi && o < |history| ==> history[o].Some?
  }

  /** The bytes from offset `lo` to `hi`, where nothing is missing. */
  ghost function TextOf(history: seq<Option<byte>>, lo: nat, hi: nat): (t: seq<byte>)
    requires lo <= hi
    ensures |t| == hi - lo
    ensures forall k :: 0 <= k < hi - lo && lo + k < |history| && history[lo + k].Some? ==>
              t[k] == history[lo + k].value
  {
    seq(hi - lo, k requires 0 <= k < hi - lo =>
          if lo + k < |history| && history[lo + k].Some? then history[lo + k].value else 0)
  }

  /** Where the first gap at or behind offset `lo` begins, or else `hi`. */
  ghost function DataEnd(history: seq<Option<byte>>, lo: nat, hi: nat): (r: nat)
    requires lo <= hi
    ensures lo <= r <= hi && NoGaps(history, lo, r)
    ensures r < hi ==> r < |history| && history[r].None?
    decreases hi - lo
  {
    if lo == hi || (lo < |history| && history[lo].None?) then lo else DataEnd(history, lo + 1, hi)
  }

  /** A subrange of a stream; without an end it grows with the stream. */
  datatype View = View(chain: Chain, begin: Position, end: Option<Position>) {

    /** Begin and end are usable positions of the stream. */
    ghost predicate Bound()
      reads chain, chain.nodes
    {
      && chain.Valid() && chain.state != Invalid
      && chain.headOffset <= begin.offset && Current(chain, begin)
      && (end.Some? ==> Current(chain, end.value))
    }

    /** The end, moreover, does not lie before the begin: iterating from there would not come to the end. */
    ghost predicate Valid()
      reads chain, chain.nodes
    {
      Bound() && (end.Some? ==> begin.offset <= end.value.offset)
    }

    predicate EndsBeforeBegin() {
      end.Some? && end.value.offset < begin.offset
    }

    /** Where the view's available bytes end. */
    ghost function Limit(): nat
      reads chain
    {
      var all := |chain.history|;
      Max(begin.offset, if end.None? then all else Min(end.value.offset, all))
    }

    ghost predicate GapFree()
      reads chain
    {
      NoGaps(chain.history, begin.offset, Limit())
    }

    /** The bytes the view refers to: all that is available between its begin and its end. */
    ghost function Text(): (t: seq<byte>)
      reads chain
      ensures |t| == Limit() - begin.offset && begin.offset <= Limit()
    {
      TextOf(chain.history, begin.offset, Limit())
    }

    /** The text in front of the first gap. */
    ghost function Lead(): (t: seq<byte>)
      reads chain
      ensures t <= Text() && (t == Text() <==> GapFree())
    {
      var n := DataEnd(chain.history, begin.offset, Limit()) - begin.offset;
      assert |Text()[..n]| == n;
      Text()[..n]
    }

    /** The number of bytes actually available inside the view. A begin that trimming has overtaken makes a difference
        only if nothing of the stream is left. */
    method Size() returns (n: nat)
      requires chain.Valid()
      ensures n == if chain.nodes == [] && begin.offset < chain.headOffset then 0 else Limit() - begin.offset
    {
      chain.EndIsHistory();
      var tail := chain.tail;
      if tail == null {
        return 0;
      }
      if begin.offset > tail.EndOffset() {
        return 0;
      }
      if end.None? || end.value.offset >= tail.EndOffset() {
        return tail.EndOffset() - begin.offset;
      }
      return if end.value.offset > begin.offset then end.value.offset - begin.offset else 0;
    }

    method UnsafeBegin() returns (i: UnsafeConstIterator)
      requires Bound()
      ensures fresh(i) && Inside(i) && i.offset == begin.offset
    {
      i := new UnsafeConstIterator(chain, begin);
    }

    method UnsafeEnd() returns (i: UnsafeConstIterator)
      requires Bound()
      ensures fresh(i) && i.chain == chain && i.Synced()
      ensures i.offset == if end.Some? then end.value.offset else |chain.history|
    {
      chain.EndIsHistory();
      var e := if end.Some? then end.value else Position(chain.EndOffset(), chain.tail);
      i := new UnsafeConstIterator(chain, e);
    }

    /** Iterator `i` lies inside the view, or at the limit of its available bytes. */
    ghost predicate Inside(i: UnsafeConstIterator)
      reads i, chain, chain.nodes
    {
      i.chain == chain && i.Synced() && begin.offset <= i.offset <= Limit()
    }

    lemma InsideBounds(i: UnsafeConstIterator)
      requires Inside(i)
      ensures begin.offset <= i.offset <= Limit()
    {
    }

    /** The comparison of `i` with the view's end: true exactly at the limit of the available bytes. */
    method Reached(i: UnsafeConstIterator) returns (b: bool)
      requires Valid() && Inside(i)
      ensures b <==> i.offset == Limit()
    {
      var e := UnsafeEnd();
      StopsAtLimit(this, i, e);
      b := i.SameAs(e);
    }

    /** `*i++`, without a result if the byte is missing. */
    method TryTake(i: UnsafeConstIterator) returns (b: Option<byte>)
      requires Bound() && Inside(i) && i.offset < Limit()
      modifies i
      ensures old(i.offset) < |chain.history| && b == chain.history[old(i.offset)]
      ensures Inside(i) && i.offset == old(i.offset) + if b.Some? then 1 else 0
    {
      b := i.Dereference();
      if b.Some? {
        i.Increment();
      }
    }

    /** `*i`, without a result if the byte is missing. */
    method TryLook(i: UnsafeConstIterator) returns (b: Option<byte>)
      requires Bound() && Inside(i) && i.offset < Limit()
      ensures i.offset < |chain.history| && b == chain.history[i.offset]
    {
      b := i.Dereference();
    }

    /** `++i` */
    method Step(i: UnsafeConstIterator)
      requires Bound() && Inside(i) && i.offset < Limit()
      modifies i
      ensures Inside(i) && i.offset == old(i.offset) + 1
    {
      i.Increment();
    }

    method Copy(i: UnsafeConstIterator) returns (j: UnsafeConstIterator)
      requires Bound() && Inside(i)
      ensures fresh(j) && Inside(j) && j.offset == i.offset
    {
      j := new UnsafeConstIterator.Copy(i);
    }
  }

  /** The iterator used internally: its chunk is always the one that holds its offset. */
  class UnsafeConstIterator {
    const chain: Chain
    var offset: nat
    var chunk: Chunk?

    ghost predicate Synced()
      reads this, chain, chain.nodes
    {
      chain.Valid() && chain.state != Invalid && chunk == chain.Holder(offset)
    }

    constructor (chain: Chain, p: Position)
      requires chain.Valid() && chain.state != Invalid && Current(chain, p)
      ensures this.chain == chain && offset == p.offset && Synced()
    {
      chain.EndIsHistory();
      var r := chain.FindChunk(p.offset, if chain.InRange(p.offset) then p.chunk else null);
      this.chain, offset, chunk := chain, p.offset, r.value;
    }

    constructor Copy(i: UnsafeConstIterator)
      requires i.Synced()
      ensures chain == i.chain && offset == i.offset && Synced()
    {
      chain, offset, chunk := i.chain, i.offset, i.chunk;
    }

    /** At or beyond the end of the stream. */
    predicate IsEnd()
      reads this, chain, chain.tail
    {
      offset >= chain.EndOffset()
    }

    predicate SameAs(other: UnsafeConstIterator)
      reads this, chain, chain.tail, other, other.chain, other.chain.tail
    {
      offset == other.offset || (IsEnd() && other.IsEnd())
    }

    method Increment()
      requires Synced()
      modifies this
      ensures Synced() && offset == old(offset) + 1
    {
      offset := offset + 1;
      if chunk != null {
        HolderHolds(chain, offset - 1);
        if offset < chunk.EndOffset() {
          // Still in the same chunk.
          StaysWithin(chain, offset - 1);
          return;
        }
      }
      var r := chain.FindChunk(offset, chunk);
      chunk := r.value;
    }

    /** The byte at the iterator's position, if it is not missing. */
    method Dereference() returns (b: Option<byte>)
      requires Synced() && chain.headOffset <= offset < |chain.history|
      ensures b == chain.history[offset]
    {
      FindExact(chain.pieces, chain.headOffset, offset);
      LaidEnds(chain.pieces, chain.headOffset, chain.history);
      HolderHolds(chain, offset);
      if chunk.payload.Gap? {
        return None;
      }
      return Some(chunk.payload.bytes[offset - chunk.offset]);
    }
  }

  /** The chunk that holds an offset also holds the next one, if that lies before the chunk's end. */
  lemma StaysWithin(chain: Chain, o: nat)
    requires chain.Valid() && chain.Holder(o) != null && o + 1 < chain.Holder(o).EndOffset()
    ensures chain.Holder(o + 1) == chain.Holder(o)
  {
    var i := Find(chain.pieces, o);
    assert chain.nodes[i].AsPiece() == chain.pieces[i];
    FindExact(chain.pieces, chain.headOffset, o + 1);
  }

  /** Iterating from a view's begin stops exactly at the limit of its available bytes. */
  lemma StopsAtLimit(v: View, i: UnsafeConstIterator, e: UnsafeConstIterator)
    requires v.Valid() && i.chain == e.chain == v.chain
    requires e.offset == if v.end.Some? then v.end.value.offset else |v.chain.history|
    requires v.begin.offset <= i.offset <= v.Limit()
    ensures i.SameAs(e) <==> i.offset == v.Limit()
  {
    v.chain.EndIsHistory();
  }

  /** Copies the view byte by byte into raw memory; the flag stands for the error that a byte is missing. */
  method CopyRaw(v: View, dst: array<byte>) returns (ok: bool)
    requires v.Valid() && dst.Length >= |v.Text()|
    modifies dst
    ensures ok <==> v.GapFree()
    ensures dst[..|v.Lead()|] == v.Lead()
    ensures forall j :: |v.Lead()| <= j < dst.Length ==> dst[j] == old(dst[j])
  {
    hide *;
    ghost var lead := v.Lead();
    LeadIs(v);
    ValidIsBound(v);
    var i := v.UnsafeBegin();
    var k := 0;
    var end := v.Reached(i);
    while !end
      invariant fresh(i) && v.Valid() && v.Bound() && v.Inside(i) && i.offset == v.begin.offset + k
      invariant end <==> i.offset == v.Limit()
      invariant 0 <= k <= |lead| && v.Lead() == lead && dst.Length >= |v.Text()|
      invariant forall j :: 0 <= j < k ==> dst[j] == lead[j]
      invariant forall j :: k <= j < dst.Length ==> dst[j] == old(dst[j])
      decreases |lead| - k
    {
      LeadGoesOn(v, i);
      var b := v.TryTake(i);
      if b.None? {
        return false;
      }
      dst[k] := b.value;
      k := k + 1;
      end := v.Reached(i);
    }
    return true;
  }

  lemma BoundParts(v: View)
    requires v.Bound()
    ensures v.chain.Valid() && v.chain.state != Invalid && v.chain.headOffset <= v.begin.offset
  {
  }

  lemma ValidIsBound(v: View)
    requires v.Valid()
    ensures v.Bound()
  {
  }

  lemma LeadIs(v: View)
    ensures |v.Lead()| <= |v.Text()| && |v.Text()| == v.Limit() - v.begin.offset && v.begin.offset <= v.Limit()
    ensures |v.Lead()| == |v.Text()| <==> v.GapFree()
  {
  }

  /** One position further: the lead ends at a gap and nowhere else. */
  lemma LeadGoesOn(v: View, i: UnsafeConstIterator)
    requires v.Valid() && v.Inside(i) && i.offset <= v.begin.offset + |v.Lead()| && i.offset != v.Limit()
    ensures v.begin.offset <= i.offset < v.Limit() && i.offset < |v.chain.history|
    ensures var k := i.offset - v.begin.offset;
            if v.chain.history[i.offset].Some? then k < |v.Lead()| && v.Lead()[k] == v.chain.history[i.offset].value
            else k == |v.Lead()| < |v.Text()|
    ensures |v.Lead()| == |v.Text()| <==> v.GapFree()
  {
  }
}
