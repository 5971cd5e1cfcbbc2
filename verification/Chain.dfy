/** The linked list of chunks behind a stream, and the safe iterators into it. */
module Chain {
  import opened Basics
  import opened Layout

  datatype State = Mutable | Frozen | Invalid

  datatype Error = InvalidIterator | FrozenStream | MissingData

  class Chunk {
    var offset: nat
    var payload: Payload
    var next: Chunk?

    constructor (payload: Payload)
      ensures this.payload == payload && offset == 0 && next == null
    {
      this.payload, offset, next := payload, 0, null;
    }

    function AsPiece(): Piece
      reads this
    {
      Piece(offset, payload)
    }

    function EndOffset(): nat
      reads this
    {
      offset + Len(payload)
    }

    predicate InRange(o: nat)
      reads this
    {
      offset <= o < EndOffset()
    }

    /** Cuts off what comes before `o`; there is nothing to do for a gap but to move its offset. */
    method Trim(o: nat)
      requires InRange(o)
      modifies this`offset, this`payload
      ensures AsPiece() == Cut(old(AsPiece()), o)
    {
      if payload.Bytes? {
        payload := Bytes(payload.bytes[o - offset..]);
      }
      offset := o;
    }
  }

  class Chain {
    var state: State
    var head: Chunk?
    var headOffset: nat
    var tail: Chunk?

    /** The chunks in order, their values, and everything that was ever appended. */
    ghost var nodes: seq<Chunk>
    ghost var pieces: seq<Piece>
    ghost var history: seq<Option<byte>>

    ghost predicate Linked()
      reads this, nodes
    {
      && |pieces| == |nodes|
      && (forall i, j :: 0 <= i < j < |nodes| ==> nodes[i] != nodes[j])
      && (forall i :: 0 <= i < |nodes| ==> nodes[i].AsPiece() == pieces[i])
      && (forall i {:trigger nodes[i].next} :: 0 <= i < |nodes| - 1 ==> nodes[i].next == nodes[i + 1])
      && (|nodes| > 0 ==> nodes[|nodes| - 1].next == null)
      && head == (if |nodes| > 0 then nodes[0] else null)
      && tail == (if |nodes| > 0 then nodes[|nodes| - 1] else null)
    }

    /** The list is well linked and lays out the stream's history from the head offset on. Nothing is left of an
        invalidated stream. */
    ghost predicate Valid()
      reads this, nodes
    {
      Linked() && Laid(pieces, headOffset, history) && (state == Invalid ==> nodes == [] && history == [])
    }

    constructor ()
      ensures Valid() && state == Mutable && headOffset == 0 && history == [] && nodes == [] && pieces == []
      ensures tail == null
    {
      state, head, headOffset, tail := Mutable, null, 0, null;
      nodes, pieces, history := [], [], [];
    }

    function EndOffset(): nat
      reads this, tail
    {
      if tail != null then tail.EndOffset() else headOffset
    }

    predicate InRange(o: nat)
      reads this, tail
    {
      headOffset <= o < EndOffset()
    }

    /** The end offset is the number of bytes ever appended. */
    lemma EndIsHistory()
      requires Valid()
      ensures EndOffset() == |history|
    {
      LaidEnds(pieces, headOffset, history);
      assert |nodes| > 0 ==> nodes[|nodes| - 1].AsPiece() == pieces[|nodes| - 1];
    }

    /** The chunk that holds offset `o`, or null. */
    ghost function Holder(o: nat): Chunk?
      reads this
      requires |pieces| == |nodes|
    {
      var i := Find(pieces, o);
      if i < |nodes| then nodes[i] else null
    }

    /** Appends a chunk and gives it its place in the stream. */
    method Append(chunk: Chunk) returns (r: Option<Error>)
      requires Valid() && chunk !in nodes && chunk.next == null && Len(chunk.payload) > 0
      modifies this, tail, chunk
      ensures Valid() && state == old(state) && headOffset == old(headOffset)
      ensures r == match old(state)
                   case Invalid => Some(InvalidIterator)
                   case Frozen => Some(FrozenStream)
                   case Mutable => None
      ensures r.Some? ==> history == old(history) && nodes == old(nodes) && pieces == old(pieces)
      ensures r.None? ==>
                && history == old(history) + Content(old(chunk.payload)) && nodes == old(nodes) + [chunk]
                && pieces == old(pieces) + [Piece(|old(history)|, old(chunk.payload))]
    {
      if state == Invalid {
        return Some(InvalidIterator);
      }
      if state == Frozen {
        return Some(FrozenStream);
      }
      EndIsHistory();
      LaidEnds(pieces, headOffset, history);
      LaidAppend(pieces, headOffset, history, Piece(EndOffset(), chunk.payload));
      history := history + Content(chunk.payload);
      Link(chunk);
      return None;
    }

    /** Appends bytes or a gap as a new chunk; nothing happens if there are none. */
    method AppendData(data: Payload) returns (r: Option<Error>)
      requires Valid()
      modifies this, tail
      ensures Valid() && state == old(state) && headOffset == old(headOffset)
      ensures tail == old(tail) || (tail != null && fresh(tail))
      ensures nodes == old(nodes) || (tail != null && nodes == old(nodes) + [tail])
      ensures pieces == if Len(data) > 0 && r == None then old(pieces) + [Piece(|old(history)|, data)] else old(pieces)
      ensures r == if Len(data) == 0 || old(state) == Mutable then None
                   else if old(state) == Invalid then Some(InvalidIterator) else Some(FrozenStream)
      ensures history == if r == None then old(history) + Content(data) else old(history)
    {
      if Len(data) == 0 {
        assert history + Content(data) == history;
        return None;
      }
      var chunk := new Chunk(data);
      r := Append(chunk);
    }

    /** Makes `chunk` the successor of the tail, or else the head, and sets its offset. */
    method Link(chunk: Chunk)
      requires Linked() && chunk !in nodes && chunk.next == null
      modifies this`head, this`tail, this`nodes, this`pieces, (if tail != null then {tail} else {})`next, chunk`offset
      ensures Linked() && nodes == old(nodes) + [chunk]
      ensures pieces == old(pieces) + [Piece(old(EndOffset()), chunk.payload)]
    {
      if tail != null {
        chunk.offset := tail.EndOffset();
        tail.next := chunk;
      } else {
        chunk.offset := headOffset;
        head := chunk;
      }
      tail := chunk;
      nodes, pieces := nodes + [chunk], pieces + [chunk.AsPiece()];
    }

    /** Deletes the head chunk. */
    method DropHead()
      requires Linked() && head != null
      modifies this`head, this`tail, this`nodes, this`pieces
      ensures Linked() && nodes == old(nodes)[1..] && pieces == old(pieces)[1..]
    {
      head := head.next;
      if head == null || head.next == null {
        tail := head;
      }
      nodes, pieces := nodes[1..], pieces[1..];
    }

    method CutHead(o: nat)
      requires Linked() && head != null && head.InRange(o)
      modifies this`pieces, head`offset, head`payload
      ensures Linked() && nodes == old(nodes) && nodes[0].AsPiece() == pieces[0]
      ensures pieces == [Cut(old(pieces)[0], o)] + old(pieces)[1..]
    {
      assert nodes[0].AsPiece() == pieces[0];
      head.Trim(o);
      pieces := [head.AsPiece()] + pieces[1..];
    }

    /** One pass of the trimming loop. */
    method Advance(o: nat) returns (stop: bool)
      requires Linked() && head != null
      modifies this`head, this`tail, this`nodes, this`pieces, nodes
      ensures Linked() && (pieces, stop) == Pass(old(pieces), o)
      ensures nodes == if End(old(pieces)[0]) <= o then old(nodes)[1..] else old(nodes)
    {
      assert nodes[0].AsPiece() == pieces[0];
      stop := false;
      if o >= head.EndOffset() {
        DropHead();
      } else if head.InRange(o) {
        CutHead(o);
        stop := true;
      }
    }

    /** Deletes the chunks that end at `o` or before, and cuts the one that holds `o`. */
    method Cutoff(o: nat) returns (ghost k: nat)
      requires Linked() && Contiguous(pieces, headOffset) && (nodes == [] || headOffset <= o)
      modifies this`head, this`tail, this`nodes, this`pieces, nodes
      ensures Linked() && pieces == Trimmed(old(pieces), o)
      ensures k == Dropped(old(pieces), o) <= |old(nodes)| && nodes == old(nodes)[k..]
    {
      k := 0;
      ghost var at := headOffset;
      while head != null
        invariant k <= |old(nodes)| && nodes == old(nodes)[k..] && Linked()
        invariant Trimmed(pieces, o) == Trimmed(old(pieces), o) && k + Dropped(pieces, o) == Dropped(old(pieces), o)
        invariant nodes == [] || (0 <= at <= o && Contiguous(pieces, at))
        decreases |nodes|
      {
        TrimStep(pieces, at, o);
        at := End(pieces[0]);
        var stop := Advance(o);
        if stop {
          return;
        }
        k := k + 1;
      }
    }

    method SetHeadOffset(o: nat)
      requires Linked()
      modifies this`headOffset
      ensures Linked() && headOffset == o
    {
      headOffset := o;
    }

    /** Drops everything before `o`. While there are chunks, the trim point must not lie before the head, or the loop
        does not end (`TrimEndsExactly`). */
    method Trim(o: nat) returns (r: Option<Error>)
      requires Valid() && (nodes == [] || headOffset <= o)
      modifies this`head, this`headOffset, this`tail, this`nodes, this`pieces, nodes
      ensures state == Invalid ==> r == Some(InvalidIterator) && Valid() && nodes == old(nodes)
      ensures state != Invalid ==>
                && r == None && Linked() && headOffset == o && pieces == Trimmed(old(pieces), o)
                && nodes == old(nodes)[Dropped(old(pieces), o)..]
                && (Laid(pieces, headOffset, history) <==> TrimPoint(old(pieces), history, o))
    {
      if state == Invalid {
        return Some(InvalidIterator);
      }
      TrimPointExactly(pieces, headOffset, history, o);
      assert Contiguous(pieces, headOffset);
      hide *;
      ghost var _ := Cutoff(o);
      SetHeadOffset(o);
      return None;
    }

    /** A new stream with the same content, and none of the chunks; its offsets begin at zero. */
    method DeepCopy() returns (r: Result<Chain, Error>)
      requires Valid()
      ensures r == Err(InvalidIterator) <==> state == Invalid
      ensures state != Invalid ==>
                && r.Ok? && fresh(r.value) && fresh(r.value.nodes) && r.value.Valid() && r.value.state == Mutable
                && r.value.headOffset == 0 && r.value.history == history[headOffset..]
    {
      hide *;
      if state == Invalid {
        return Err(InvalidIterator);
      }
      var copy := new Chain();
      ContentsOfAll();
      var c := head;
      ghost var i := 0;
      while c != null
        invariant 0 <= i <= |nodes| == |pieces| && c == if i < |nodes| then nodes[i] else null
        invariant Linked()
        invariant fresh(copy) && copy.Valid() && copy.state == Mutable && copy.headOffset == 0
        invariant (copy.tail != null ==> fresh(copy.tail)) && fresh(copy.nodes)
        invariant copy.history == Contents(pieces[..i])
        decreases |nodes| - i
      {
        NodeAt(i);
        ContentsSnoc(pieces, i);
        var _ := copy.AppendData(c.payload);
        c := c.next;
        i := i + 1;
      }
      return Ok(copy);
    }

    lemma ContentsOfAll()
      requires Valid()
      ensures Linked() && |pieces| == |nodes| && head == (if |nodes| > 0 then nodes[0] else null)
      ensures Contents(pieces[..0]) == [] && Contents(pieces[..|pieces|]) == history[headOffset..]
    {
      assert pieces[..0] == [] && pieces[..|pieces|] == pieces;
    }

    lemma NodeAt(i: nat)
      requires Linked() && i < |nodes|
      ensures i < |pieces| && nodes[i].AsPiece() == pieces[i] && nodes[i].payload == pieces[i].payload
      ensures nodes[i].next == if i + 1 < |nodes| then nodes[i + 1] else null
    {
    }

    /** Gives up all chunks; iterators that are still around fail from now on. */
    method Invalidate()
      modifies this
      ensures Valid() && state == Invalid && headOffset == 0
    {
      state, head, headOffset, tail := Invalid, null, 0, null;
      nodes, pieces, history := [], [], [];
    }

    method Freeze()
      modifies this`state
      ensures state == if old(state) == Invalid then Invalid else Frozen
    {
      if state != Invalid {
        state := Frozen;
      }
    }

    method Unfreeze()
      modifies this`state
      ensures state == if old(state) == Invalid then Invalid else Mutable
    {
      if state != Invalid {
        state := Mutable;
      }
    }

    /** The chunk that holds offset `o`. The search starts at `hint` if that helps; a hint must be a current
        chunk, but the answer is the same for all of them. */
    method FindChunk(o: nat, hint: Chunk?) returns (r: Result<Chunk?, Error>)
      requires Valid() && (hint != null ==> hint in nodes)
      ensures r == if state == Invalid then Err(InvalidIterator) else Ok(Holder(o))
      ensures r.Ok? ==> (r.value != null <==> headOffset <= o < |history|)
    {
      if state == Invalid {
        return Err(InvalidIterator);
      }
      FindExact(pieces, headOffset, o);
      LaidEnds(pieces, headOffset, history);
      var c := head;
      ghost var i := 0;
      var from := if hint == null then tail else hint;
      if from != null && from.offset <= o {
        c := from;
        i :| 0 <= i < |nodes| && nodes[i] == c;
        assert nodes[i].AsPiece() == pieces[i];
        HintBefore(pieces, headOffset, o, i);
      }
      while c != null && !c.InRange(o)
        invariant 0 <= i <= Find(pieces, o)
        invariant c == if i < |nodes| then nodes[i] else null
        decreases |nodes| - i
      {
        assert nodes[i].AsPiece() == pieces[i];
        c := c.next;
        i := i + 1;
      }
      if c != null {
        assert nodes[i].AsPiece() == pieces[i];
      }
      return Ok(c);
    }

    /** An iterator at the beginning. */
    method Begin() returns (r: Result<SafeConstIterator, Error>)
      requires Valid()
      ensures r == Err(InvalidIterator) <==> state == Invalid
      ensures r.Ok? ==>
                && fresh(r.value) && r.value.chain == this && r.value.offset == headOffset && r.value.chunk == head
                && r.value.Valid() && r.value.Ahead()
    {
      if state == Invalid {
        return Err(InvalidIterator);
      }
      var i := new SafeConstIterator.Begin(this);
      return Ok(i);
    }

    /** An iterator at any offset. */
    method At(o: nat) returns (r: Result<SafeConstIterator, Error>)
      requires Valid()
      ensures r == Err(InvalidIterator) <==> state == Invalid
      ensures r.Ok? ==>
                && fresh(r.value) && r.value.chain == this && r.value.offset == o && r.value.chunk == Holder(o)
                && r.value.Valid() && r.value.Ahead()
    {
      if state == Invalid {
        return Err(InvalidIterator);
      }
      var i := new SafeConstIterator.At(this, o);
      return Ok(i);
    }

    /** The end iterator remembers the tail, which does not hold the iterator's offset. */
    method AtEnd() returns (r: Result<SafeConstIterator, Error>)
      requires Valid()
      ensures r == Err(InvalidIterator) <==> state == Invalid
      ensures r.Ok? ==>
                && fresh(r.value) && r.value.chain == this && r.value.offset == |history| && r.value.chunk == tail
                && r.value.Valid() && (r.value.chunk != null ==> r.value.offset == r.value.reach)
    {
      if state == Invalid {
        return Err(InvalidIterator);
      }
      var i := new SafeConstIterator.AtEnd(this);
      return Ok(i);
    }

    /** As `FindChunk`, with where the chunk ends. */
    method Recall(o: nat, hint: Chunk?) returns (c: Chunk?, ghost reach: nat)
      requires Valid() && state != Invalid && (hint != null ==> hint in nodes)
      ensures c == Holder(o)
      ensures c != null ==> o < reach && Tracked(nodes, pieces, headOffset, c, reach)
    {
      var r := FindChunk(o, hint);
      c := r.value;
      reach := 0;
      if c != null {
        HolderHolds(this, o);
        reach := c.EndOffset();
      }
    }
  }

  // ---------------------------------------------------------------- remembered chunks

  /** For chunks `nodes` with values `ps` from offset `head` on: a chunk that ended at `reach` when it was
      last seen is alive exactly as long as the stream has not been trimmed up to there, and still ends there. */
  ghost predicate Tracked(nodes: seq<Chunk>, ps: seq<Piece>, head: nat, c: Chunk, reach: nat) {
    && |nodes| == |ps|
    && (c in nodes <==> head < reach)
    && (forall i :: 0 <= i < |nodes| && nodes[i] == c ==> End(ps[i]) == reach)
  }

  /** Trimming keeps track of remembered chunks. */
  lemma TrimKeepsTrack(nodes: seq<Chunk>, ps: seq<Piece>, head: nat, c: Chunk, reach: nat, o: nat)
    requires Tracked(nodes, ps, head, c, reach) && Contiguous(ps, head) && head <= o && !InsideGap(ps, o)
    ensures |Trimmed(ps, o)| == |ps| - Dropped(ps, o)
    ensures Tracked(nodes[Dropped(ps, o)..], Trimmed(ps, o), o, c, reach)
  {
    var k := Dropped(ps, o);
    TrimmedLength(ps, head, o);
    if c in nodes {
      var j :| 0 <= j < |nodes| && nodes[j] == c;
      DroppedExact(ps, head, o, j);
      if k <= j {
        assert nodes[k..][j - k] == c;
      }
    }
    forall i | 0 <= i < |nodes| && nodes[i] == c
      ensures k <= i ==> reach > o && End(Trimmed(ps, o)[i - k]) == reach
    {
      DroppedExact(ps, head, o, i);
      if k <= i {
        TrimmedEnd(ps, head, o, i);
      }
    }
    assert forall i :: 0 <= i < |nodes[k..]| ==> nodes[k..][i] == nodes[i + k];
  }

  /** So does appending another chunk. */
  lemma AppendKeepsTrack(nodes: seq<Chunk>, ps: seq<Piece>, head: nat, c: Chunk, reach: nat, chunk: Chunk, p: Piece)
    requires Tracked(nodes, ps, head, c, reach) && c != chunk
    ensures Tracked(nodes + [chunk], ps + [p], head, c, reach)
  {
  }

  // ---------------------------------------------------------------- safe iterators

  /** An iterator: an offset, and a chunk remembered from when the iterator was last moved; the chunk may
      have been deleted since. `reach` is where it ended. */
  class SafeConstIterator {
    const chain: Chain
    var offset: nat
    var chunk: Chunk?
    ghost var reach: nat

    ghost predicate Valid()
      reads this, chain, chain.nodes
    {
      && chain.Valid()
      && (chunk != null && chain.state != Invalid ==>
            Tracked(chain.nodes, chain.pieces, chain.headOffset, chunk, reach))
    }

    /** The remembered chunk ended behind the iterator when it was last seen. */
    ghost predicate Ahead()
      reads this
    {
      chunk != null ==> offset < reach
    }

    /** The iterator may be moved to offset `o`, or be dereferenced there: the chunk that this looks at,
        which is only done for an offset in range, has not been deleted. */
    ghost predicate SafeAt(o: nat)
      reads this, chain, chain.nodes
      requires chain.Valid()
    {
      chain.headOffset <= o < |chain.history| && chunk != null ==> chunk in chain.nodes
    }

    constructor Begin(chain: Chain)
      requires chain.Valid() && chain.state != Invalid
      ensures this.chain == chain && offset == chain.headOffset && chunk == chain.head
      ensures Valid() && Ahead()
    {
      this.chain, offset, chunk := chain, chain.headOffset, chain.head;
      reach := if chain.head != null then chain.head.EndOffset() else 0;
      new;
      if |chain.nodes| > 0 {
        assert chain.nodes[0].AsPiece() == chain.pieces[0];
      }
    }

    constructor At(chain: Chain, o: nat)
      requires chain.Valid() && chain.state != Invalid
      ensures this.chain == chain && offset == o && chunk == chain.Holder(o)
      ensures Valid() && Ahead()
    {
      var c;
      ghost var end;
      c, end := chain.Recall(o, null);
      this.chain, offset, chunk, reach := chain, o, c, end;
    }

    /** The end iterator remembers the tail, which does not hold the iterator's offset. */
    constructor AtEnd(chain: Chain)
      requires chain.Valid() && chain.state != Invalid
      ensures this.chain == chain && offset == |chain.history| && chunk == chain.tail
      ensures Valid() && (chunk != null ==> offset == reach)
    {
      chain.EndIsHistory();
      this.chain, offset, chunk := chain, chain.EndOffset(), chain.tail;
      reach := chain.EndOffset();
      new;
      if |chain.nodes| > 0 {
        LaidEnds(chain.pieces, chain.headOffset, chain.history);
        ContiguousFrom(chain.pieces, chain.headOffset, |chain.pieces| - 1);
      }
    }

    /** Moves forward by `n` bytes. */
    method Increment(n: nat)
      requires Valid() && SafeAt(offset + n)
      modifies this
      ensures Valid() && offset == old(offset) + n
      ensures n > 0 && chain.state != Invalid ==> chunk == chain.Holder(offset) && Ahead()
      ensures n == 0 || chain.state == Invalid ==> chunk == old(chunk) && reach == old(reach)
    {
      if n == 0 {
        return;
      }
      hide Laid, Chain.Linked, Chain.Holder, Tracked;
      offset := offset + n;
      if chain.state == Invalid {
        return;
      }
      chain.EndIsHistory();
      var c;
      ghost var end;
      c, end := chain.Recall(offset, if chain.InRange(offset) then chunk else null);
      chunk, reach := c, end;
    }

    /** The byte at the iterator's position. */
    method Dereference() returns (r: Result<byte, Error>)
      requires Valid() && SafeAt(offset)
      ensures r == if chain.state == Invalid || !(chain.headOffset <= offset < |chain.history|) then
                     Err(InvalidIterator)
                   else if chain.history[offset].None? then Err(MissingData)
                   else Ok(chain.history[offset].value)
    {
      if chain.state == Invalid {
        return Err(InvalidIterator);
      }
      chain.EndIsHistory();
      if !chain.InRange(offset) {
        return Err(InvalidIterator);
      }
      var found := chain.FindChunk(offset, chunk);
      var c := found.value;
      HolderHolds(chain, offset);
      if c.payload.Gap? {
        return Err(MissingData);
      }
      return Ok(c.payload.bytes[offset - c.offset]);
    }

    /** Exactly when an iterator is safe to move to `o`: unless `o` is out of range, the stream must not
        have been trimmed up to the end of the chunk where the iterator was last. */
    lemma SafeExactly(o: nat)
      requires Valid()
      ensures SafeAt(o) <==> chunk == null || !(chain.headOffset <= o < |chain.history|) || chain.headOffset < reach
    {
    }

    /** So an iterator that came from `Begin` or was moved, and has not been overtaken by trimming, is safe. */
    lemma NotOvertaken(o: nat)
      requires Valid() && chain.headOffset <= offset && Ahead()
      ensures SafeAt(o)
    {
    }
  }

  /** The chunk found for an offset holds the stream's history there. */
  lemma HolderHolds(chain: Chain, o: nat)
    requires chain.Valid() && chain.Holder(o) != null
    ensures var c := chain.Holder(o);
            && c in chain.nodes && Holds(c.AsPiece(), o)
            && o < |chain.history| && ByteAt(c.AsPiece(), o) == chain.history[o]
            && chain.headOffset <= o && Tracked(chain.nodes, chain.pieces, chain.headOffset, c, c.EndOffset())
  {
    var i := Find(chain.pieces, o);
    assert chain.headOffset < End(chain.pieces[i]) by { ContiguousFrom(chain.pieces, chain.headOffset, i + 1); }
    assert chain.nodes[i].AsPiece() == chain.pieces[i];
    PieceIsHistory(chain.pieces, chain.headOffset, chain.history, i, o);
    ContiguousFrom(chain.pieces, chain.headOffset, i);
  }

  // ---------------------------------------------------------------- iterators that go stale

  /** Appending while an iterator is outstanding. */
  method AppendUnder(it: SafeConstIterator, chunk: Chunk)
    requires it.Valid() && it.chain.state == Mutable
    requires chunk !in it.chain.nodes && chunk != it.chunk && chunk.next == null && Len(chunk.payload) > 0
    modifies it.chain, it.chain.tail, chunk
    ensures it.Valid() && it.chain.state == Mutable && it.chain.headOffset == old(it.chain.headOffset)
    ensures it.chain.history == old(it.chain.history) + Content(old(chunk.payload))
    ensures it.chain.nodes == old(it.chain.nodes) + [chunk]
    ensures it.chain.pieces == old(it.chain.pieces) + [Piece(|old(it.chain.history)|, old(chunk.payload))]
  {
    ghost var nodes, ps := it.chain.nodes, it.chain.pieces;
    var _ := it.chain.Append(chunk);
    if it.chunk != null {
      AppendKeepsTrack(nodes, ps, it.chain.headOffset, it.chunk, it.reach, chunk, it.chain.pieces[|ps|]);
    }
  }

  /** Trimming while two iterators are outstanding. */
  method TrimUnder(it: SafeConstIterator, it': SafeConstIterator, o: nat)
    requires it.Valid() && it'.Valid() && it.chain == it'.chain && it.chain.state != Invalid
    requires it.chain.headOffset <= o <= |it.chain.history| && !InsideGap(it.chain.pieces, o)
    modifies it.chain, it.chain.nodes
    ensures it.Valid() && it'.Valid() && it.chain.state == old(it.chain.state)
    ensures it.chain.headOffset == o && it.chain.history == old(it.chain.history)
    ensures it.chain.nodes == old(it.chain.nodes)[Dropped(old(it.chain.pieces), o)..]
  {
    ghost var nodes, ps, head := it.chain.nodes, it.chain.pieces, it.chain.headOffset;
    var _ := it.chain.Trim(o);
    if it.chunk != null {
      TrimKeepsTrack(nodes, ps, head, it.chunk, it.reach, o);
    }
    if it'.chunk != null {
      TrimKeepsTrack(nodes, ps, head, it'.chunk, it'.reach, o);
    }
  }

  /** Invalidating the stream while an iterator is outstanding: nothing is looked at any more, and using it fails. */
  method InvalidateUnder(it: SafeConstIterator, n: nat) returns (r: Result<byte, Error>)
    requires it.Valid()
    modifies it, it.chain
    ensures it.Valid() && it.offset == old(it.offset) + n && it.chunk == old(it.chunk)
    ensures r == Err(InvalidIterator)
  {
    it.chain.Invalidate();
    it.Increment(n);
    r := it.Dereference();
  }

  /** A stream of one one-byte chunk, with iterators at its beginning and at its end. */
  method OneChunk(x: byte) returns (chain: Chain, first: SafeConstIterator, last: SafeConstIterator, a: Chunk)
    ensures fresh(chain) && fresh(a) && chain.Valid() && chain.state == Mutable && chain.headOffset == 0
    ensures chain.nodes == [a] && chain.pieces == [Piece(0, Bytes([x]))] && chain.history == [Some(x)]
    ensures first.chain == last.chain == chain && first.Valid() && last.Valid()
    ensures first.offset == 0 && last.offset == 1
    ensures first.chunk == last.chunk == a && first.reach == last.reach == 1
  {
    chain := new Chain();
    a := new Chunk(Bytes([x]));
    var _ := chain.Append(a);
    assert chain.nodes[0].AsPiece() == chain.pieces[0];
    first := new SafeConstIterator.Begin(chain);
    last := new SafeConstIterator.AtEnd(chain);
  }

  /** A stream that has been trimmed to its end can be trimmed back: the next chunk is then found at an offset that
      belongs to the first. */
  method TrimmedBack(x: byte, y: byte) returns (chain: Chain, b: Chunk)
    ensures chain.Linked() && chain.pieces == [Piece(0, Bytes([y]))] && chain.history == [Some(x)]
  {
    hide *;
    var first, last, a;
    chain, first, last, a := OneChunk(x);
    OneTrimmed(x);
    ValidIs(chain);
    var _ := chain.Trim(1);
    assert chain.nodes == [];
    ValidIs(chain);
    var _ := chain.Trim(0);
    b := new Chunk(Bytes([y]));
    TailIs(chain);
    chain.Link(b);
    assert chain.pieces == [Piece(0, b.payload)];
  }

  lemma ValidIs(chain: Chain)
    ensures chain.Valid() ==> chain.Linked() && Laid(chain.pieces, chain.headOffset, chain.history)
    ensures chain.Linked() && Laid(chain.pieces, chain.headOffset, chain.history) && chain.state != Invalid ==>
              chain.Valid()
  {
  }

  lemma TailIs(chain: Chain)
    requires chain.Linked()
    ensures chain.tail == if |chain.nodes| > 0 then chain.nodes[|chain.nodes| - 1] else null
    ensures chain.nodes == [] ==> chain.EndOffset() == chain.headOffset
  {
  }

  lemma OneTrimmed(x: byte)
    ensures var p := [Piece(0, Bytes([x]))];
            Trimmed(p, 1) == [] && Dropped(p, 1) == 1 && TrimPoint(p, [Some(x)], 1)
    ensures Trimmed([], 0) == [] && Dropped([], 0) == 0
  {
    assert [Piece(0, Bytes([x]))][1..] == [];
  }

  /** The same after another one-byte chunk has been appended, and the first one trimmed away. */
  method TwoChunks(x: byte, y: byte) returns (chain: Chain, first: SafeConstIterator, middle: SafeConstIterator)
    ensures chain.Valid() && chain.headOffset == 1 && chain.history == [Some(x), Some(y)]
    ensures first.chain == middle.chain == chain && first.Valid() && middle.Valid()
    ensures first.offset == 0 && middle.offset == 1
    ensures first.chunk == middle.chunk != null && first.reach == middle.reach == 1
  {
    hide *;
    var a;
    chain, first, middle, a := OneChunk(x);
    var b := new Chunk(Bytes([y]));
    ghost var q := Piece(1, Bytes([y]));
    OneContent(y);
    NoGapToCut(chain.pieces + [q], 1);
    ValidIs(chain);
    TailIs(chain);
    AppendUnder(first, b);
    SameTrack(first, middle);
    TrimUnder(first, middle, 1);
  }

  lemma OneContent(y: byte)
    ensures Content(Bytes([y])) == [Some(y)] && Len(Bytes([y])) == 1
  {
  }

  lemma NoGapToCut(ps: seq<Piece>, o: nat)
    ensures (forall i :: 0 <= i < |ps| ==> ps[i].payload.Bytes?) ==> !InsideGap(ps, o)
  {
  }

  lemma SameTrack(it: SafeConstIterator, it': SafeConstIterator)
    requires it.Valid() && it'.chain == it.chain && it'.chunk == it.chunk && it'.reach == it.reach
    ensures it'.Valid() && it.chain.Valid()
  {
  }

  /** An iterator that trimming has overtaken must not be moved back into the stream: it would look at
      its chunk, which has been deleted. */
  method OvertakenIsUnsafe(x: byte, y: byte) returns (chain: Chain, it: SafeConstIterator)
    ensures it.Valid() && it.chain == chain && it.offset == 0 < chain.headOffset && !it.SafeAt(it.offset + 1)
  {
    var middle;
    chain, it, middle := TwoChunks(x, y);
  }

  /** An iterator from `end()` may not even be dereferenced once the chunk that was then the last is gone,
      although its offset is in range. */
  method OldEndIsUnsafe(x: byte, y: byte) returns (chain: Chain, it: SafeConstIterator)
    ensures it.Valid() && it.chain == chain && it.offset == chain.headOffset == 1 && !it.SafeAt(it.offset)
  {
    var first;
    chain, first, it := TwoChunks(x, y);
  }

  lemma TrimStep(ps: seq<Piece>, at: nat, o: nat)
    requires |ps| > 0 && Contiguous(ps, at) && at <= o
    ensures if End(ps[0]) <= o then
              Trimmed(ps, o) == Trimmed(ps[1..], o) && Dropped(ps, o) == 1 + Dropped(ps[1..], o)
              && Contiguous(ps[1..], End(ps[0]))
            else
              Holds(ps[0], o) && Dropped(ps, o) == 0 && Trimmed(ps, o) == [Cut(ps[0], o)] + ps[1..]
  {
  }
}
