/** Taking a fixed number of bytes off the beginning of a view. */
module Extraction {
  import opened Basics
  import opened Layout
  import opened Chain
  import opened Views
  import opened Reading

  datatype ExtractError = WouldBlock | MissingData

  /** The shortcut for bytes that all lie in the chunk remembered by the view's begin. */
  ghost predicate FastPath(v: View, n: nat)
    requires v.Bound()
    reads v.chain, v.chain.nodes, v.begin.chunk
  {
    && v.begin.offset < |v.chain.history|
    && v.begin.chunk != null && v.begin.chunk.InRange(v.begin.offset + n)
  }

  /** What taking `n` bytes comes to. */
  datatype Outcome = Taken | TooFew | Missing

  /** With the shortcut: data is missing if the chunk is a gap. */
  ghost function Shortcut(v: View, n: nat): Outcome
    requires v.Bound() && FastPath(v, n)
    reads v.chain, v.chain.nodes, v.begin.chunk
  {
    if v.chain.history[v.begin.offset].None? then Missing else Taken
  }

  /** Byte by byte. */
  ghost function Bytewise(v: View, n: nat): Outcome
    reads v.chain
  {
    if n > |v.Text()| then TooFew
    else if NoGaps(v.chain.history, v.begin.offset, v.begin.offset + n) then Taken
    else Missing
  }

  ghost function OutcomeOf(v: View, n: nat): Outcome
    requires v.Bound()
    reads v.chain, v.chain.nodes, v.begin.chunk
  {
    if FastPath(v, n) then Shortcut(v, n) else Bytewise(v, n)
  }

  /** The chunk of the shortcut is a gap, or has all the bytes. */
  lemma ShortcutChunk(v: View, n: nat)
    requires v.Bound() && FastPath(v, n)
    ensures v.begin.chunk in v.chain.nodes && v.begin.chunk.offset <= v.begin.offset
    ensures v.begin.chunk.payload.Gap? <==> v.chain.history[v.begin.offset].None?
    ensures v.begin.chunk.payload.Bytes? ==> NoGaps(v.chain.history, v.begin.offset, v.begin.offset + n)
    ensures v.begin.offset + n < v.begin.chunk.EndOffset() <= |v.chain.history|
  {
    var c, history := v.begin.chunk, v.chain.history;
    ChunkIsHistory(v.chain, c);
    forall o | v.begin.offset <= o <= v.begin.offset + n
      ensures history[o].Some? <==> c.payload.Bytes?
    {
      assert Content(c.payload)[o - c.offset] == history[o];
    }
  }

  /** Extracts `n` bytes into `dst` and returns the rest of the view. */
  method Extract(v: View, dst: array<byte>, n: nat) returns (r: Result<View, ExtractError>)
    requires v.Bound() && n <= dst.Length
    modifies dst
    ensures r.Ok? <==> OutcomeOf(v, n) == Taken
    ensures r == Err(WouldBlock) <==> OutcomeOf(v, n) == TooFew
    ensures r.Ok? ==>
              && r.value.chain == v.chain && r.value.end == v.end
              && r.value.begin.offset == v.begin.offset + n && r.value.Bound()
              && dst[..n] == TextOf(v.chain.history, v.begin.offset, v.begin.offset + n)
    ensures r == Err(WouldBlock) ==> dst[..] == old(dst[..])
  {
    hide Laid, Chain.Linked, TextOf, Chain.Holder, NoGaps;
    v.chain.EndIsHistory();
    if v.chain.InRange(v.begin.offset) && v.begin.chunk != null && v.begin.chunk.InRange(v.begin.offset + n) {
      var c := v.begin.chunk;
      ShortcutChunk(v, n);
      if c.payload.Gap? {
        return Err(ExtractError.MissingData);
      }
      CopyFrom(v, c, dst, n);
      return Ok(View(v.chain, Position(v.begin.offset + n, c), v.end));
    }
    r := ExtractBytewise(v, dst, n);
  }

  /** The same without the shortcut. */
  method ExtractBytewise(v: View, dst: array<byte>, n: nat) returns (r: Result<View, ExtractError>)
    requires v.Bound() && n <= dst.Length
    modifies dst
    ensures r.Ok? <==> Bytewise(v, n) == Taken
    ensures r == Err(WouldBlock) <==> Bytewise(v, n) == TooFew
    ensures r.Ok? ==>
              && r.value.chain == v.chain && r.value.end == v.end
              && r.value.begin.offset == v.begin.offset + n && r.value.Bound()
              && dst[..n] == TextOf(v.chain.history, v.begin.offset, v.begin.offset + n)
    ensures r == Err(WouldBlock) ==> dst[..] == old(dst[..])
  {
    BytewiseCases(v, n);
    hide *;
    var size := v.Size();
    if n > size {
      return Err(WouldBlock);
    }
    var p := v.UnsafeBegin();
    var ok := CopyBytes(v, p, dst, n);
    if !ok {
      return Err(ExtractError.MissingData);
    }
    InsideIsCurrent(v, p);
    BoundFrom(v, View(v.chain, Position(p.offset, p.chunk), v.end));
    return Ok(View(v.chain, Position(p.offset, p.chunk), v.end));
  }

  lemma BytewiseCases(v: View, n: nat)
    requires v.Bound()
    ensures |v.Text()| == v.Limit() - v.begin.offset
    ensures Bytewise(v, n) == TooFew <==> n > |v.Text()|
    ensures Bytewise(v, n) == Taken <==>
            n <= |v.Text()| && NoGaps(v.chain.history, v.begin.offset, v.begin.offset + n)
  {
  }

  lemma InsideIsCurrent(v: View, p: UnsafeConstIterator)
    requires v.Bound() && v.Inside(p)
    ensures Current(v.chain, Position(p.offset, p.chunk))
    ensures p.chain == v.chain
  {
    InStreamHasHolder(v.chain, p.offset);
    if p.chunk != null {
      HolderHolds(v.chain, p.offset);
    }
  }

  lemma BoundFrom(v: View, rest: View)
    requires v.Bound() && rest.chain == v.chain && rest.end == v.end
    requires rest.begin.offset >= v.begin.offset && Current(v.chain, rest.begin)
    ensures rest.Bound()
  {
  }

  /** Copies from inside a chunk. */
  method CopyFrom(v: View, c: Chunk, dst: array<byte>, n: nat)
    requires v.Bound() && n <= dst.Length && c in v.chain.nodes && c.payload.Bytes?
    requires c.offset <= v.begin.offset && c.InRange(v.begin.offset + n)
    modifies dst
    ensures dst[..n] == TextOf(v.chain.history, v.begin.offset, v.begin.offset + n)
  {
    hide Laid, Chain.Linked, TextOf, Content;
    ghost var history := v.chain.history;
    ChunkIsHistory(v.chain, c);
    SpanIsText(c.AsPiece(), history, v.begin.offset, v.begin.offset + n);
    var from := v.begin.offset - c.offset;
    var bytes := c.payload.bytes;
    hide *;
    forall k | 0 <= k < n {
      dst[k] := bytes[from + k];
    }
    assert dst[..n] == bytes[from..from + n];
  }

  /** Copies byte by byte, through however many chunks, until a byte is missing. */
  method CopyBytes(v: View, p: UnsafeConstIterator, dst: array<byte>, n: nat) returns (ok: bool)
    requires v.Bound() && v.Inside(p) && p.offset == v.begin.offset && n <= dst.Length && n <= |v.Text()|
    modifies dst, p
    ensures v.Inside(p)
    ensures ok <==> NoGaps(v.chain.history, v.begin.offset, v.begin.offset + n)
    ensures ok ==> p.offset == v.begin.offset + n
    ensures ok ==> dst[..n] == TextOf(v.chain.history, v.begin.offset, v.begin.offset + n)
  {
    hide *;
    ghost var history, lo := v.chain.history, v.begin.offset;
    WithinText(v, n);
    CopiedNone(history, lo, dst[..0]);
    var i := 0;
    while i < n
      invariant 0 <= i <= n && v.Bound() && v.Inside(p) && p.offset == lo + i
      invariant v.chain.history == history && lo + n <= v.Limit() && Copied(history, lo, dst[..i])
    {
      ghost var before := dst[..i];
      CopiedNext(history, lo, before, n);
      var b := v.TryTake(p);
      if b.None? {
        return false;
      }
      dst[i] := b.value;
      assert dst[..i + 1] == before + [b.value];
      i := i + 1;
    }
    CopiedText(history, lo, dst[..n]);
    return true;
  }

  /** The bytes are those of the history from `lo` on, where none is missing. */
  ghost predicate Copied(history: seq<Option<byte>>, lo: nat, bytes: seq<byte>) {
    forall k :: 0 <= k < |bytes| ==> lo + k < |history| && Some(bytes[k]) == history[lo + k]
  }

  lemma WithinText(v: View, n: nat)
    requires n <= |v.Text()|
    ensures v.begin.offset + n <= v.Limit()
  {
  }

  lemma CopiedNone(history: seq<Option<byte>>, lo: nat, bytes: seq<byte>)
    requires bytes == []
    ensures Copied(history, lo, bytes)
  {
  }

  lemma CopiedNext(history: seq<Option<byte>>, lo: nat, bytes: seq<byte>, n: nat)
    requires Copied(history, lo, bytes) && |bytes| < n
    ensures var o := lo + |bytes|;
            o < |history| ==>
              if history[o].None? then !NoGaps(history, lo, lo + n)
              else Copied(history, lo, bytes + [history[o].value])
  {
  }

  lemma CopiedText(history: seq<Option<byte>>, lo: nat, bytes: seq<byte>)
    requires Copied(history, lo, bytes)
    ensures bytes == TextOf(history, lo, lo + |bytes|) && NoGaps(history, lo, lo + |bytes|)
  {
    var t := TextOf(history, lo, lo + |bytes|);
    forall k | 0 <= k < |bytes|
      ensures bytes[k] == t[k]
    {
      var b := bytes[k];
      assert lo + k < |history|;
    }
    forall o | lo <= o < lo + |bytes|
      ensures o < |history| && history[o].Some?
    {
      var b := bytes[o - lo];
    }
  }

  lemma TextPrefix(v: View, n: nat)
    requires n <= |v.Text()|
    ensures v.Text()[..n] == TextOf(v.chain.history, v.begin.offset, v.begin.offset + n)
    ensures v.Text()[n..] == TextOf(v.chain.history, v.begin.offset + n, v.Limit())
  {
  }

  /** The shortcut does not look at the view's end, and looks at the chunk even if no byte is asked for: it agrees with
      the byte-wise way exactly if the view does not end before the bytes, or no byte is asked for, and if that is not
      done in a gap. */
  lemma PathsAgreeExactly(v: View, n: nat)
    requires v.Bound() && FastPath(v, n)
    ensures Shortcut(v, n) == Bytewise(v, n) <==>
              if n == 0 then v.chain.history[v.begin.offset].Some?
              else v.end.None? || v.begin.offset + n <= v.end.value.offset
  {
    ShortcutChunk(v, n);
    if n > 0 && v.chain.history[v.begin.offset].None? {
      assert !NoGaps(v.chain.history, v.begin.offset, v.begin.offset + n);
    }
  }

  /** So both ways agree for any bytes that the view has. */
  lemma OutcomeWithin(v: View, n: nat)
    requires v.Bound() && 0 < n <= |v.Text()|
    ensures OutcomeOf(v, n) == if NoGaps(v.chain.history, v.begin.offset, v.begin.offset + n) then Taken else Missing
  {
    if FastPath(v, n) {
      PathsAgreeExactly(v, n);
    }
  }

  /** What is left after extracting bytes that the view has is the rest of its text. */
  lemma RestOfText(v: View, rest: View, n: nat)
    requires v.Bound() && n <= |v.Text()|
    requires rest.chain == v.chain && rest.end == v.end && rest.begin.offset == v.begin.offset + n
    requires Current(v.chain, rest.begin)
    ensures rest.Bound() && rest.Text() == v.Text()[n..]
    ensures v.Valid() ==> rest.Valid()
  {
    TextPrefix(v, n);
  }

  // ---------------------------------------------------------------- past the end of a view

  /** A stream that has been given its three bytes at once, or one by one. */
  method ThreeBytes(x: byte, y: byte, z: byte, atOnce: bool) returns (chain: Chain)
    ensures fresh(chain) && chain.Valid() && chain.state == Mutable && chain.headOffset == 0
    ensures chain.history == [Some(x), Some(y), Some(z)]
    ensures chain.pieces == if atOnce then [Piece(0, Bytes([x, y, z]))]
                            else [Piece(0, Bytes([x])), Piece(1, Bytes([y])), Piece(2, Bytes([z]))]
  {
    hide *;
    chain := new Chain();
    ContentOf([x, y, z]);
    ContentOf([x]);
    ContentOf([y]);
    ContentOf([z]);
    if atOnce {
      var _ := chain.AppendData(Bytes([x, y, z]));
      assert chain.pieces == [] + [Piece(0, Bytes([x, y, z]))];
    } else {
      var _ := chain.AppendData(Bytes([x]));
      assert chain.history == [Some(x)] && chain.pieces == [] + [Piece(0, Bytes([x]))];
      var _ := chain.AppendData(Bytes([y]));
      assert chain.history == [Some(x), Some(y)];
      var _ := chain.AppendData(Bytes([z]));
    }
  }

  lemma ContentOf(bytes: seq<byte>)
    ensures Len(Bytes(bytes)) == |bytes| && |Content(Bytes(bytes))| == |bytes|
    ensures forall i :: 0 <= i < |bytes| ==> Content(Bytes(bytes))[i] == Some(bytes[i])
  {
  }

  /** The view of a stream's first byte, from its beginning. */
  method FirstByte(chain: Chain) returns (v: View)
    requires chain.Valid() && chain.state != Invalid && chain.headOffset == 0 && |chain.history| == 3
    requires NoGaps(chain.history, 0, 3)
    ensures v.Valid() && v.Bound() && v.chain == chain && v.begin.offset == 0 && v.end == Some(Position(1, null))
    ensures |v.Text()| == 1 && v.begin.chunk == chain.head && chain.head != null && chain.head.InRange(0)
    ensures chain.head.AsPiece() == chain.pieces[0]
  {
    LaidEnds(chain.pieces, 0, chain.history);
    assert chain.nodes[0].AsPiece() == chain.pieces[0];
    v := View(chain, Position(0, chain.head), Some(Position(1, null)));
  }

  method TakeTwoAtOnce(x: byte, y: byte, z: byte) returns (v: View, taken: Result<View, ExtractError>)
    ensures v.chain.history == [Some(x), Some(y), Some(z)] && v.Text() == [x]
    ensures v.begin.offset == 0 && v.end == Some(Position(1, null)) && v.Bound() && OutcomeOf(v, 2) == Taken
    ensures taken.Ok? && taken.value.begin.offset == 2 && taken.value.Bound() && !taken.value.Valid()
  {
    hide *;
    var dst := new byte[2];
    var chain := ThreeBytes(x, y, z, true);
    NoneMissing(chain.history);
    v := FirstByte(chain);
    FirstText(v);
    SinglePiece(v, [x, y, z]);
    taken := Extract(v, dst, 2);
    if taken.Ok? {
      BeginsPastEnd(taken.value);
    }
  }

  method TakeTwoByteByByte(x: byte, y: byte, z: byte) returns (v: View, taken: Result<View, ExtractError>)
    ensures v.chain.history == [Some(x), Some(y), Some(z)] && v.Text() == [x]
    ensures v.begin.offset == 0 && v.end == Some(Position(1, null)) && v.Bound() && OutcomeOf(v, 2) == TooFew
    ensures taken == Err(WouldBlock)
  {
    hide *;
    var dst := new byte[2];
    var chain := ThreeBytes(x, y, z, false);
    NoneMissing(chain.history);
    v := FirstByte(chain);
    FirstText(v);
    ContentOf([x]);
    BytewisePieces(v);
    taken := Extract(v, dst, 2);
  }

  /** Asked for more bytes than it has, the same view of the same data gives them or not, depending on how the data was
      handed over. */
  method PastTheEnd(x: byte, y: byte, z: byte)
      returns (v: View, taken: Result<View, ExtractError>, v': View, taken': Result<View, ExtractError>)
    ensures v.chain.history == v'.chain.history && v.Text() == v'.Text() == [x]
    ensures v.begin.offset == v'.begin.offset && v.end == v'.end && v.Bound() && v'.Bound()
    ensures OutcomeOf(v, 2) == Taken && OutcomeOf(v', 2) == TooFew
    ensures taken.Ok? && taken.value.begin.offset == 2 && taken.value.Bound() && !taken.value.Valid()
    ensures taken' == Err(WouldBlock)
  {
    hide *;
    v, taken := TakeTwoAtOnce(x, y, z);
    v', taken' := TakeTwoByteByByte(x, y, z);
  }

  lemma NoneMissing(history: seq<Option<byte>>)
    ensures (forall i :: 0 <= i < |history| ==> history[i].Some?) ==> NoGaps(history, 0, |history|)
  {
  }

  lemma FirstText(v: View)
    requires v.begin.offset == 0 && v.end == Some(Position(1, null)) && |v.chain.history| == 3
    requires v.chain.history[0].Some?
    ensures v.Text() == [v.chain.history[0].value]
  {
  }

  lemma SinglePiece(v: View, bytes: seq<byte>)
    requires v.Bound() && v.begin.offset == 0 && |v.chain.history| == |bytes| == 3 && v.chain.history[0].Some?
    requires v.begin.chunk == v.chain.head && v.chain.head != null
    requires v.chain.head.AsPiece() == Piece(0, Bytes(bytes))
    ensures OutcomeOf(v, 2) == Taken
  {
  }

  lemma BytewisePieces(v: View)
    requires v.Bound() && v.begin.offset == 0 && v.begin.chunk == v.chain.head && v.chain.head != null
    requires |v.Text()| == 1 && v.chain.head.AsPiece().offset == 0 && Len(v.chain.head.AsPiece().payload) == 1
    ensures OutcomeOf(v, 2) == TooFew
  {
  }

  lemma BeginsPastEnd(v: View)
    requires v.Bound() && v.begin.offset == 2 && v.end == Some(Position(1, null))
    ensures !v.Valid()
  {
  }
}
