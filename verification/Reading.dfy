/** Reading a view block by block, chunk by chunk, or a fixed number of bytes: all give the view's text. */
module Reading {
  import opened Basics
  import opened Layout
  import opened Chain
  import opened Views

  // ---------------------------------------------------------------- chunks inside a view

  /** A chunk of the stream has the history of the offsets it spans; the next one begins where it ends. */
  lemma ChunkIsHistory(chain: Chain, c: Chunk)
    requires chain.Valid() && c in chain.nodes
    ensures chain.headOffset <= c.offset < c.EndOffset() <= |chain.history|
    ensures Content(c.payload) == chain.history[c.offset..c.EndOffset()]
    ensures c.next == null ==> c.EndOffset() == |chain.history|
    ensures c.next != null ==>
              && c.next in chain.nodes && c.next.offset == c.EndOffset() < |chain.history|
              && Holds(c.next.AsPiece(), c.EndOffset())
  {
    hide Laid, Contents, Content;
    var i :| 0 <= i < |chain.nodes| && chain.nodes[i] == c;
    assert chain.nodes[i].AsPiece() == chain.pieces[i];
    PieceSpansHistory(chain.pieces, chain.headOffset, chain.history, i);
    if i + 1 < |chain.nodes| {
      assert chain.nodes[i + 1].AsPiece() == chain.pieces[i + 1];
    }
  }

  /** A chunk is a gap exactly if data is missing at an offset that it holds. */
  lemma SpanKind(p: Piece, history: seq<Option<byte>>, o: nat)
    requires End(p) <= |history| && Content(p.payload) == history[p.offset..End(p)] && Holds(p, o)
    ensures p.payload.Gap? <==> history[o].None?
  {
    assert Content(p.payload)[o - p.offset] == history[o];
  }

  /** A chunk that holds an offset where nothing is missing is not a gap. */
  lemma SpanIsData(p: Piece, history: seq<Option<byte>>, o: nat)
    requires End(p) <= |history| && Content(p.payload) == history[p.offset..End(p)]
    requires Holds(p, o) && history[o].Some?
    ensures p.payload.Bytes?
  {
    assert Content(p.payload)[o - p.offset] == history[o];
  }

  /** The bytes of a chunk from offset `o` to `hi` are the text there. */
  lemma SpanIsText(p: Piece, history: seq<Option<byte>>, o: nat, hi: nat)
    requires End(p) <= |history| && Content(p.payload) == history[p.offset..End(p)]
    requires p.payload.Bytes? && p.offset <= o <= hi <= End(p)
    ensures p.payload.bytes[o - p.offset..hi - p.offset] == TextOf(history, o, hi)
  {
    var t := TextOf(history, o, hi);
    forall k | 0 <= k < |t|
      ensures p.payload.bytes[o - p.offset + k] == t[k]
    {
      assert Content(p.payload)[o - p.offset + k] == history[o + k];
    }
  }

  lemma TextJoin(history: seq<Option<byte>>, lo: nat, mid: nat, hi: nat)
    requires lo <= mid <= hi
    ensures TextOf(history, lo, hi) == TextOf(history, lo, mid) + TextOf(history, mid, hi)
    ensures |TextOf(history, lo, lo)| == 0
  {
  }

  // ---------------------------------------------------------------- block-wise iteration

  /** A stretch of the view that lies in one chunk, and the chunk to go on with. */
  datatype Block = Block(bytes: seq<byte>, offset: nat, isFirst: bool, isLast: bool, next: Chunk?)

  /** The block gives the view's text from its offset on; the next chunk begins where it ends, unless
      that is the limit of the view. */
  ghost predicate BlockOf(v: View, b: Block)
    requires v.Bound()
    reads v.chain, v.chain.nodes
  {
    var stop := b.offset + |b.bytes|;
    && v.begin.offset <= b.offset <= stop <= v.Limit() && (|b.bytes| > 0 || v.EndsBeforeBegin())
    && b.bytes == TextOf(v.chain.history, b.offset, stop) && NoGaps(v.chain.history, b.offset, stop)
    && (b.isLast <==> b.next == null) && (b.isLast <==> stop == v.Limit())
    && (b.next != null ==> b.next in v.chain.nodes && Holds(b.next.AsPiece(), stop) && b.next.offset == stop)
  }

  /** What `firstBlock` and `nextBlock` have in common: the block in chunk `c` from offset `o` on. */
  method BlockAt(v: View, c: Chunk, o: nat, isFirst: bool) returns (r: Result<Block, Error>)
    requires v.Bound() && c in v.chain.nodes && Holds(c.AsPiece(), o)
    requires v.begin.offset <= o && (o < v.Limit() || (o == v.begin.offset && v.EndsBeforeBegin()))
    ensures o < |v.chain.history| && (r == Err(MissingData) <==> v.chain.history[o].None?)
    ensures v.chain.history[o].Some? ==>
              r.Ok? && BlockOf(v, r.value) && r.value.offset == o && r.value.isFirst == isFirst
  {
    hide *;
    BlockParts(v, c, o);
    v.chain.EndIsHistory();
    if c.payload.Gap? {
      return Err(MissingData);
    }
    ghost var hi := Max(o, Min(c.EndOffset(), v.Limit()));
    var start := c.payload.bytes[o - c.offset..];
    var isLast := c.next == null || (v.end.Some? && v.end.value.offset <= c.EndOffset());
    var size;
    if v.end.Some? && isLast {
      size := Max(Min(v.end.value.offset, v.chain.EndOffset()), o) - o;
    } else {
      size := |start|;
    }
    BlockSize(v, c, o, isLast, size, |start|);
    assert start[..size] == c.payload.bytes[o - c.offset..hi - c.offset];
    var b := Block(start[..size], o, isFirst, isLast, if isLast then null else c.next);
    BlockIs(v, c, b, hi);
    return Ok(b);
  }

  /** Where a block in chunk `c` from offset `o` on lies, and what it holds. */
  lemma BlockParts(v: View, c: Chunk, o: nat)
    requires v.Bound() && c in v.chain.nodes && Holds(c.AsPiece(), o)
    requires v.begin.offset <= o && (o < v.Limit() || (o == v.begin.offset && v.EndsBeforeBegin()))
    ensures v.chain.Valid() && o < |v.chain.history| && (c.payload.Gap? <==> v.chain.history[o].None?)
    ensures c.offset <= o < c.EndOffset()
    ensures var hi := Max(o, Min(c.EndOffset(), v.Limit()));
            && o <= hi <= c.EndOffset()
            && (c.payload.Bytes? ==>
                  && |c.payload.bytes| == c.EndOffset() - c.offset
                  && c.payload.bytes[o - c.offset..hi - c.offset] == TextOf(v.chain.history, o, hi))
  {
    hide Laid, Chain.Linked, TextOf;
    ChunkIsHistory(v.chain, c);
    SpanKind(c.AsPiece(), v.chain.history, o);
    if c.payload.Bytes? {
      SpanIsText(c.AsPiece(), v.chain.history, o, Max(o, Min(c.EndOffset(), v.Limit())));
    }
  }

  /** The source's way of computing a block's size. */
  lemma BlockSize(v: View, c: Chunk, o: nat, isLast: bool, size: int, n: nat)
    requires v.Bound() && c in v.chain.nodes && Holds(c.AsPiece(), o) && n == c.EndOffset() - o
    requires v.begin.offset <= o && (o < v.Limit() || (o == v.begin.offset && v.EndsBeforeBegin()))
    requires isLast <==> c.next == null || (v.end.Some? && v.end.value.offset <= c.EndOffset())
    requires v.chain.EndOffset() == |v.chain.history|
    requires size == if v.end.Some? && isLast then Max(Min(v.end.value.offset, v.chain.EndOffset()), o) - o else n
    ensures o + size == Max(o, Min(c.EndOffset(), v.Limit()))
    ensures isLast <==> o + size == v.Limit()
  {
    hide Laid, Chain.Linked, TextOf;
    ChunkIsHistory(v.chain, c);
  }

  lemma BlockIs(v: View, c: Chunk, b: Block, hi: nat)
    requires v.Bound() && c in v.chain.nodes && Holds(c.AsPiece(), b.offset) && c.payload.Bytes?
    requires v.begin.offset <= b.offset
    requires b.offset < v.Limit() || (b.offset == v.begin.offset && v.EndsBeforeBegin())
    requires hi == b.offset + |b.bytes| == Max(b.offset, Min(c.EndOffset(), v.Limit()))
    requires b.bytes == TextOf(v.chain.history, b.offset, hi)
    requires b.next == (if b.isLast then null else c.next) && (b.isLast <==> hi == v.Limit())
    requires c.next == null ==> b.isLast
    ensures BlockOf(v, b)
  {
    hide Laid, Chain.Linked, TextOf;
    ChunkIsHistory(v.chain, c);
    forall o | b.offset <= o < hi
      ensures v.chain.history[o].Some?
    {
      SpanKind(c.AsPiece(), v.chain.history, o);
    }
  }

  /** There is no first block: the view is empty, or begins beyond the stream. */
  ghost predicate Nothing(v: View)
    reads v.chain
  {
    v.begin.offset >= |v.chain.history| || (v.end.Some? && v.end.value.offset == v.begin.offset)
  }

  method FirstBlock(v: View) returns (r: Result<Option<Block>, Error>)
    requires v.Bound()
    ensures r == Ok(None) <==> Nothing(v)
    ensures r == Err(MissingData) <==> !Nothing(v) && v.chain.history[v.begin.offset].None?
    ensures !Nothing(v) && v.chain.history[v.begin.offset].Some? ==>
              && r.Ok? && r.value.Some? && BlockOf(v, r.value.value)
              && r.value.value.offset == v.begin.offset && r.value.value.isFirst
  {
    hide Laid, Chain.Linked;
    var i := v.UnsafeBegin();
    var e := v.UnsafeEnd();
    InStreamHasHolder(v.chain, v.begin.offset);
    v.chain.EndIsHistory();
    if i.SameAs(e) || i.chunk == null {
      return Ok(None);
    }
    var found := v.chain.FindChunk(v.begin.offset, if v.chain.InRange(v.begin.offset) then v.begin.chunk else null);
    HolderHolds(v.chain, v.begin.offset);
    var first := BlockAt(v, found.value, v.begin.offset, true);
    match first
    case Err(e) => return Err(e);
    case Ok(b) => return Ok(Some(b));
  }

  method NextBlock(v: View, current: Block) returns (r: Result<Option<Block>, Error>)
    requires v.Bound() && BlockOf(v, current)
    ensures r == Ok(None) <==> current.isLast
    ensures var stop := current.offset + |current.bytes|;
            !current.isLast ==>
              && stop < |v.chain.history|
              && (r == Err(MissingData) <==> v.chain.history[stop].None?)
              && (v.chain.history[stop].Some? ==>
                    && r.Ok? && r.value.Some? && BlockOf(v, r.value.value)
                    && r.value.value.offset == stop && !r.value.value.isFirst)
  {
    if current.next == null {
      return Ok(None);
    }
    var next := BlockAt(v, current.next, current.next.offset, false);
    match next
    case Err(e) => return Err(e);
    case Ok(b) => return Ok(Some(b));
  }

  /** Every offset inside the stream has its chunk. */
  lemma InStreamHasHolder(chain: Chain, o: nat)
    requires chain.Valid()
    ensures chain.Holder(o) != null <==> chain.headOffset <= o < |chain.history|
  {
    FindExact(chain.pieces, chain.headOffset, o);
    LaidEnds(chain.pieces, chain.headOffset, chain.history);
  }

  /** Copying the view fails: there is a gap in it, or it ends before its begin and begins in a gap. */
  ghost predicate CopyFails(v: View)
    reads v.chain
  {
    !v.GapFree()
    || (v.EndsBeforeBegin() && v.begin.offset < |v.chain.history| && v.chain.history[v.begin.offset].None?)
  }

  /** Appends a view's data to bytes, block by block; the flag stands for the error that data is missing, before which
      what comes before the gap has been appended. */
  method AppendView(base: seq<byte>, v: View) returns (r: seq<byte>, ok: bool)
    requires v.Bound()
    ensures r == base + v.Lead()
    ensures ok <==> !CopyFails(v)
  {
    hide *;
    r := base;
    ghost var lo, hi, history := v.begin.offset, v.Limit(), v.chain.history;
    ghost var at := lo;
    CopyBegins(v);
    var block := FirstBlock(v);
    CopyBegins(v);
    FirstCases(v, block);
    while block.Ok? && block.value.Some?
      invariant v.Bound() && v.Limit() == hi && v.chain.history == history && v.begin.offset == lo
      invariant lo <= at <= hi && r == base + TextOf(history, lo, at) && NoGaps(history, lo, at)
      invariant block.Ok? && block.value.Some? ==> BlockOf(v, block.value.value) && block.value.value.offset == at
      invariant block == Ok(None) ==> at == hi && !CopyFails(v)
      invariant block.Err? ==> CopyFails(v) && (at == hi || GapAt(history, at))
      decreases if block.Ok? && block.value.Some? && !block.value.value.isLast then hi + 1 - at else 0,
                block.Ok? && block.value.Some?
    {
      var b := block.value.value;
      ghost var next := at + |b.bytes|;
      BlockFacts(v, b);
      TextJoin(history, lo, at, next);
      NoGapsJoin(history, lo, at, next);
      r := r + b.bytes;
      CopyGoesOn(v, b);
      block := NextBlock(v, b);
      at := next;
    }
    LeadUpTo(v, at);
    ok := block.Ok?;
  }

  ghost predicate GapAt(history: seq<Option<byte>>, o: nat) {
    o < |history| && history[o].None?
  }

  lemma NoGapsJoin(history: seq<Option<byte>>, lo: nat, mid: nat, hi: nat)
    requires lo <= mid <= hi && NoGaps(history, lo, mid) && NoGaps(history, mid, hi)
    ensures NoGaps(history, lo, hi)
  {
  }

  lemma CopyBegins(v: View)
    requires v.Bound()
    ensures v.begin.offset <= v.Limit() && NoGaps(v.chain.history, v.begin.offset, v.begin.offset)
    ensures |TextOf(v.chain.history, v.begin.offset, v.begin.offset)| == 0
    ensures Nothing(v) ==> v.begin.offset == v.Limit() && !CopyFails(v)
    ensures !Nothing(v) ==>
              && (GapAt(v.chain.history, v.begin.offset) <==> v.chain.history[v.begin.offset].None?)
              && (v.chain.history[v.begin.offset].None? ==> CopyFails(v))
  {
  }

  lemma FirstCases(v: View, block: Result<Option<Block>, Error>)
    requires v.Bound()
    requires block == Ok(None) <==> Nothing(v)
    requires block == Err(MissingData) <==> !Nothing(v) && v.chain.history[v.begin.offset].None?
    requires !Nothing(v) && v.chain.history[v.begin.offset].Some? ==> block.Ok?
    ensures block.Ok? && block.value.Some? ==> !Nothing(v) && v.chain.history[v.begin.offset].Some?
    ensures block.Err? ==> !Nothing(v) && v.chain.history[v.begin.offset].None?
  {
  }

  lemma CopyGoesOn(v: View, b: Block)
    requires v.Bound() && BlockOf(v, b) && NoGaps(v.chain.history, v.begin.offset, b.offset + |b.bytes|)
    requires b.offset == v.begin.offset ==> !Nothing(v) && v.chain.history[v.begin.offset].Some?
    ensures var stop := b.offset + |b.bytes|;
            && (b.isLast ==> stop == v.Limit() && !CopyFails(v))
            && (!b.isLast && stop < |v.chain.history| && v.chain.history[stop].None? ==>
                  CopyFails(v) && GapAt(v.chain.history, stop))
  {
  }

  lemma LeadUpTo(v: View, at: nat)
    requires v.begin.offset <= at <= v.Limit() && NoGaps(v.chain.history, v.begin.offset, at)
    requires at == v.Limit() || GapAt(v.chain.history, at)
    ensures v.Lead() == TextOf(v.chain.history, v.begin.offset, at)
  {
    TextJoin(v.chain.history, v.begin.offset, at, v.Limit());
  }

  lemma BlockFacts(v: View, b: Block)
    requires v.Bound() && BlockOf(v, b)
    ensures b.offset <= b.offset + |b.bytes| <= v.Limit() && (!b.isLast ==> |b.bytes| > 0)
    ensures b.bytes == TextOf(v.chain.history, b.offset, b.offset + |b.bytes|)
    ensures NoGaps(v.chain.history, b.offset, b.offset + |b.bytes|)
    ensures b.isLast <==> b.offset + |b.bytes| == v.Limit()
  {
  }

  // ---------------------------------------------------------------- chunk by chunk, for printing

  /** What is printed in place of missing data. */
  const GAP_TEXT: seq<byte> := [60, 103, 97, 112, 62]

  lemma Placeholder()
    ensures |GAP_TEXT| == |"<gap>"| && forall k :: 0 <= k < |GAP_TEXT| ==> GAP_TEXT[k] as int == "<gap>"[k] as int
  {
  }

  /** The part of a chunk that a view from `start` to `stop` covers; for a gap, a placeholder. If the view ends before
      its begin, computing the length of that part is an arithmetic error. */
  function Printed(p: Piece, start: nat, stop: nat): Option<seq<byte>>
    requires p.offset < stop && start < End(p)
  {
    if p.payload.Gap? then Some(GAP_TEXT)
    else if stop < start then None
    else Some(p.payload.bytes[Max(start, p.offset) - p.offset..Min(stop, End(p)) - p.offset])
  }

  function Joined(a: Option<seq<byte>>, b: Option<seq<byte>>): Option<seq<byte>> {
    if a.Some? && b.Some? then Some(a.value + b.value) else None
  }

  /** The same for chunks one after another, of which `start` does not lie behind the first. */
  function PrintedFrom(ps: seq<Piece>, start: nat, stop: nat): Option<seq<byte>> {
    if |ps| == 0 || ps[0].offset >= stop || start >= End(ps[0]) then Some([])
    else Joined(Printed(ps[0], start, stop), PrintedFrom(ps[1..], start, stop))
  }

  /** Where a view's end is, whether or not the stream extends that far. */
  ghost function StopOf(v: View): nat
    reads v.chain
  {
    if v.end.Some? then v.end.value.offset else |v.chain.history|
  }

  /** What is printed for a view: the parts of its chunks, from the one that holds its begin. */
  ghost function PrintedView(v: View): Option<seq<byte>>
    reads v.chain
  {
    PrintedFrom(v.chain.pieces[Find(v.chain.pieces, v.begin.offset)..], v.begin.offset, StopOf(v))
  }

  lemma HolderInStream(v: View)
    requires v.Valid() && Find(v.chain.pieces, v.begin.offset) < |v.chain.pieces|
    ensures v.begin.offset < |v.chain.history| && v.begin.offset <= StopOf(v)
  {
    FindExact(v.chain.pieces, v.chain.headOffset, v.begin.offset);
    LaidEnds(v.chain.pieces, v.chain.headOffset, v.chain.history);
  }

  lemma {:induction false} LaidFrom(ps: seq<Piece>, head: nat, history: seq<Option<byte>>, i: nat)
    requires Laid(ps, head, history) && i < |ps|
    ensures Laid(ps[i..], ps[i].offset, history)
  {
    if i > 0 {
      LaidTail(ps, head, history);
      LaidFrom(ps[1..], End(ps[0]), history, i - 1);
      assert ps[1..][i - 1..] == ps[i..];
    }
  }

  /** Where nothing is missing, what is printed is the text; but the first chunk must not be a gap of which nothing is
      covered. */
  lemma {:induction false} PrintedIsText(ps: seq<Piece>, head: nat, history: seq<Option<byte>>, start: nat, stop: nat)
    requires Laid(ps, head, history) && |ps| > 0 && start <= stop && start < End(ps[0])
    requires var lo, hi := Max(start, head), Min(stop, |history|);
             lo <= hi && NoGaps(history, lo, hi) && (ps[0].payload.Bytes? || lo < hi || head >= stop)
    ensures PrintedFrom(ps, start, stop) == Some(TextOf(history, Max(start, head), Min(stop, |history|)))
  {
    hide Laid, Contents, Content, TextOf;
    var p, lo, hi := ps[0], Max(start, head), Min(stop, |history|);
    PieceSpansHistory(ps, head, history, 0);
    LaidHead(ps, head, history);
    TextJoin(history, lo, lo, hi);
    if head < stop {
      if lo < hi {
        SpanIsData(p, history, lo);
      }
      var mid := Min(stop, End(p));
      SpanIsText(p, history, lo, mid);
      TextJoin(history, lo, mid, hi);
      if mid < hi {
        LaidTail(ps, head, history);
        PrintedIsText(ps[1..], End(p), history, start, stop);
      } else {
        TextJoin(history, mid, mid, hi);
      }
    }
  }

  lemma LaidHead(ps: seq<Piece>, head: nat, history: seq<Option<byte>>)
    requires Laid(ps, head, history) && |ps| > 0
    ensures ps[0].offset == head
  {
  }

  /** The view is empty, and lies inside a gap past its beginning. */
  ghost predicate EmptyInGap(v: View)
    reads v.chain
  {
    v.begin.offset == v.Limit() && InsideGap(v.chain.pieces, v.begin.offset)
  }

  /** What is printed for a view without missing data is its text, except exactly for an empty view inside a gap, for
      which it is the placeholder. */
  lemma PrintedExactly(v: View)
    requires v.Valid() && v.GapFree()
    ensures PrintedView(v) == Some(if EmptyInGap(v) then GAP_TEXT else v.Text())
    ensures PrintedView(v) == Some(v.Text()) <==> !EmptyInGap(v)
  {
    var ps, lo, history := v.chain.pieces, v.begin.offset, v.chain.history;
    var i := Find(ps, lo);
    FindExact(ps, v.chain.headOffset, lo);
    LaidEnds(ps, v.chain.headOffset, history);
    if i < |ps| {
      HolderInStream(v);
      LaidFrom(ps, v.chain.headOffset, history, i);
      if EmptyInGap(v) {
        LaidTail(ps[i..], ps[i].offset, history);
        assert PrintedFrom(ps[i..][1..], lo, lo) == Some([]);
        JoinedLaws(GAP_TEXT, [], Some([]));
      } else {
        PrintedIsText(ps[i..], ps[i].offset, history, lo, StopOf(v));
      }
    }
  }

  /** A view that ends before its begin has no text. Printing it gives nothing, or else the placeholder or an arithmetic
      error: exactly if its end lies in the same chunk as its begin, past the beginning of that chunk. */
  lemma PrintedInverted(v: View)
    requires v.Bound() && v.EndsBeforeBegin()
    ensures var i := Find(v.chain.pieces, v.begin.offset);
            PrintedView(v) == if i == |v.chain.pieces| || v.chain.pieces[i].offset >= StopOf(v) then Some([])
                              else if v.chain.pieces[i].payload.Gap? then Some(GAP_TEXT) else None
  {
    var ps, lo := v.chain.pieces, v.begin.offset;
    var i := Find(ps, lo);
    LaidParts(ps, v.chain.headOffset, v.chain.history);
    if i < |ps| {
      if i + 1 < |ps| {
        Apart(ps, v.chain.headOffset, i, i + 1);
      }
      assert ps[i..][1..] == ps[i + 1..] && ps[i..][0] == ps[i];
      assert PrintedFrom(ps[i + 1..], lo, StopOf(v)) == Some([]);
    }
    JoinedLaws(GAP_TEXT, [], Some([]));
  }

  lemma PrintStep(v: View, i: nat)
    requires v.Bound() && Find(v.chain.pieces, v.begin.offset) <= i < |v.chain.nodes| == |v.chain.pieces|
    ensures v.begin.offset < End(v.chain.pieces[i]) && v.chain.nodes[i].AsPiece() == v.chain.pieces[i]
    ensures v.chain.nodes[i].next == if i + 1 < |v.chain.nodes| then v.chain.nodes[i + 1] else null
    ensures var ps := v.chain.pieces;
            ps[i].offset < StopOf(v) ==>
              PrintedFrom(ps[i..], v.begin.offset, StopOf(v))
              == Joined(Printed(ps[i], v.begin.offset, StopOf(v)),
                        PrintedFrom(ps[i + 1..], v.begin.offset, StopOf(v)))
    ensures v.chain.pieces[i].offset >= StopOf(v) ==>
              PrintedFrom(v.chain.pieces[i..], v.begin.offset, StopOf(v)) == Some([])
  {
    hide Laid, Content, Contents, Printed;
    var ps := v.chain.pieces;
    var f := Find(ps, v.begin.offset);
    LaidParts(ps, v.chain.headOffset, v.chain.history);
    if f < i {
      Apart(ps, v.chain.headOffset, f, i);
    }
    assert ps[i..][1..] == ps[i + 1..];
  }

  lemma LaidParts(ps: seq<Piece>, head: nat, history: seq<Option<byte>>)
    requires Laid(ps, head, history)
    ensures Contiguous(ps, head)
  {
  }

  /** The view's data, collected chunk by chunk; none stands for an arithmetic error. */
  method DataForPrint(v: View) returns (r: Option<seq<byte>>)
    requires v.Bound()
    ensures r == PrintedView(v)
    ensures v.Valid() && v.GapFree() ==> r == Some(if EmptyInGap(v) then GAP_TEXT else v.Text())
    ensures v.Valid() && v.GapFree() ==> (r == Some(v.Text()) <==> !EmptyInGap(v))
  {
    hide *;
    var begin := v.UnsafeBegin();
    var end := v.UnsafeEnd();
    var start, stop := begin.offset, end.offset;
    ghost var ps, nodes := v.chain.pieces, v.chain.nodes;
    ghost var i := Find(ps, start);
    var c := begin.chunk;
    PrintStarts(v, begin, stop);
    var data: seq<byte> := [];
    JoinedLaws(data, data, PrintedView(v));
    if v.Valid() && v.GapFree() {
      PrintedExactly(v);
    }
    while c != null && c.offset < stop
      invariant v.Bound() && v.chain.pieces == ps && v.chain.nodes == nodes && |nodes| == |ps|
      invariant StopOf(v) == stop && v.begin.offset == start
      invariant Find(ps, start) <= i <= |ps| && c == if i < |nodes| then nodes[i] else null
      invariant PrintedView(v) == Joined(Some(data), PrintedFrom(ps[i..], start, stop))
      decreases |ps| - i
    {
      PrintStep(v, i);
      PieceOf(c);
      var piece := ChunkData(c, start, stop);
      JoinedNone(Some(data), PrintedFrom(ps[i + 1..], start, stop));
      if piece.None? {
        return None;
      }
      JoinedLaws(data, piece.value, PrintedFrom(ps[i + 1..], start, stop));
      data := data + piece.value;
      c := c.next;
      i := i + 1;
    }
    if i < |ps| {
      PrintStep(v, i);
      PieceOf(c);
    } else {
      NonePrinted(ps[i..], start, stop);
    }
    JoinedLaws(data, [], Some([]));
    return Some(data);
  }

  lemma JoinedLaws(a: seq<byte>, b: seq<byte>, c: Option<seq<byte>>)
    ensures Joined(Some([]), c) == c && Joined(Some(a), Some([])) == Some(a)
    ensures Joined(Some(a), Joined(Some(b), c)) == Joined(Some(a + b), c)
  {
    if c.Some? {
      assert a + b + c.value == a + (b + c.value);
      assert [] + c.value == c.value;
    }
    assert a + [] == a;
  }

  lemma JoinedNone(a: Option<seq<byte>>, c: Option<seq<byte>>)
    ensures Joined(a, Joined(None, c)) == None
  {
  }

  lemma PrintStarts(v: View, begin: UnsafeConstIterator, stop: nat)
    requires v.Bound() && v.Inside(begin) && begin.offset == v.begin.offset
    requires stop == if v.end.Some? then v.end.value.offset else |v.chain.history|
    ensures StopOf(v) == stop && |v.chain.nodes| == |v.chain.pieces|
    ensures var i := Find(v.chain.pieces, v.begin.offset);
            && begin.chunk == (if i < |v.chain.nodes| then v.chain.nodes[i] else null)
            && PrintedView(v) == PrintedFrom(v.chain.pieces[i..], v.begin.offset, stop)
  {
  }

  lemma NonePrinted(ps: seq<Piece>, start: nat, stop: nat)
    ensures |ps| == 0 ==> PrintedFrom(ps, start, stop) == Some([])
  {
  }

  lemma PieceOf(c: Chunk)
    ensures c.AsPiece() == Piece(c.offset, c.payload) && End(c.AsPiece()) == c.EndOffset()
  {
  }

  /** A stream that is one gap, and an empty view inside it: iterating gives nothing, printing gives the gap. */
  method GapIsPrinted() returns (v: View, read: seq<byte>, ok: bool, printed: Option<seq<byte>>)
    ensures v.Valid() && |v.Text()| == 0 && ok && read == [] && printed == Some(GAP_TEXT)
    ensures !CopyFails(v) && PrintedView(v) == printed
  {
    hide *;
    var chain := new Chain();
    var gap := new Chunk(Gap(2));
    GapContent();
    var _ := chain.Append(gap);
    assert chain.pieces == [] + [Piece(0, Gap(2))];
    v := View(chain, Position(1, null), Some(Position(1, null)));
    InsideOneGap(v, gap);
    read, ok := AppendView([], v);
    printed := DataForPrint(v);
  }

  lemma GapContent()
    ensures Content(Gap(2)) == [None, None] && Len(Gap(2)) == 2
  {
  }

  lemma InsideOneGap(v: View, gap: Chunk)
    requires v.chain.Valid() && v.chain.state == Mutable && v.chain.headOffset == 0
    requires v.chain.nodes == [gap] && v.chain.pieces == [Piece(0, Gap(2))] && v.chain.history == [None, None]
    requires v.begin == Position(1, null) && v.end == Some(Position(1, null))
    ensures v.Valid() && v.Bound() && v.GapFree() && EmptyInGap(v)
    ensures |v.Text()| == 0 && |v.Lead()| == 0 && !CopyFails(v)
  {
    assert gap.AsPiece() == v.chain.pieces[0];
    assert v.chain.Holder(1) == gap;
  }

  method ChunkData(c: Chunk, start: nat, stop: nat) returns (r: Option<seq<byte>>)
    requires c.offset < stop && start < c.EndOffset()
    ensures r == Printed(c.AsPiece(), start, stop)
  {
    if c.payload.Gap? {
      return Some(GAP_TEXT);
    }
    var from, size := 0, |c.payload.bytes|;
    if c.InRange(start) {
      from, size := from + (start - c.offset), size - (start - c.offset);
    }
    if c.InRange(start) && c.InRange(stop) {
      if stop < start {
        return None;
      }
      size := stop - start;
    } else if c.InRange(stop) {
      size := stop - c.offset;
    }
    return Some(c.payload.bytes[from..from + size]);
  }
}
