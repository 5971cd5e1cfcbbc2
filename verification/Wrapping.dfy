/** The reassembler in 64-bit arithmetic: what becomes of writes just before the initial sequence number, whose end
    wraps around. */
module Wrapping {
  import opened Basics
  import opened Chunks
  import opened Reassembly
  import Sink

  function Wrap(n: nat): (r: nat)
    ensures r < TWO_TO_THE_64
  {
    n % TWO_TO_THE_64
  }

  lemma WrapIs(n: nat)
    requires n < 2 * TWO_TO_THE_64
    ensures Wrap(n) == if n < TWO_TO_THE_64 then n else n - TWO_TO_THE_64
  {
  }

  /** `Chunks.Add` for data that is taken to end at `rupper`. */
  function AddWrapping(cs: seq<Chunk>, data: seq<byte>, rseq: nat, rupper: nat): (r: Added)
    requires 0 < |data| < TWO_TO_THE_64 && rseq < TWO_TO_THE_64 && rupper == Wrap(rseq + |data|)
    requires Below(cs)
    ensures r.pos < |r.chunks|
    decreases |cs| + |data|
  {
    WrapIs(rseq + |data|);
    if |cs| == 0 then
      Added([Chunk(data, rseq, rupper)], 0, [], true)
    else if cs[0].rupper <= rseq then
      var r := AddWrapping(cs[1..], data, rseq, rupper);
      r.(chunks := [cs[0]] + r.chunks, pos := r.pos + 1)
    else if rupper <= cs[0].rseq then
      Added([Chunk(data, rseq, rupper)] + cs, 0, [], true)
    else if rseq < cs[0].rseq then
      var n := cs[0].rseq - rseq;
      var r := AddWrapping(cs, data[n..], cs[0].rseq, rupper);
      r.(chunks := [Chunk(data[..n], rseq, rseq + n)] + r.chunks, pos := 0)
    else
      var n := Min(|data|, cs[0].rupper - rseq);
      var before := Substr(cs[0].data, rseq - cs[0].rseq, n);
      if before.None? then
        Added(cs, 0, [], false)
      else
        var report := Overlap(rseq, before.value, data[..n]);
        if n == |data| then
          Added(cs, 0, [report], true)
        else
          var r := AddWrapping(cs[1..], data[n..], rseq + n, rupper);
          Added([cs[0]] + r.chunks, r.pos + 1, [report] + r.overlaps, r.ok)
  }

  /** All sequence numbers fit. */
  ghost predicate Below(cs: seq<Chunk>) {
    forall i :: 0 <= i < |cs| ==> cs[i].rseq < TWO_TO_THE_64 && cs[i].rupper < TWO_TO_THE_64
  }

  function BufferWrapping(cs: seq<Chunk>, data: seq<byte>, rseq: nat, len: nat): (r: Added)
    requires 0 < |data| < TWO_TO_THE_64 && rseq < TWO_TO_THE_64 && Below(cs)
    ensures r.pos < |r.chunks|
  {
    if |cs| == 0 then Added([Chunk(data, rseq, Wrap(rseq + len))], 0, [], true)
    else AddWrapping(cs, data, rseq, Wrap(rseq + |data|))
  }

  /** A sink whose cursors and chunks fit into 64 bits. */
  ghost predicate Fits(s: State) {
    Below(s.chunks) && s.trim <= s.last == s.cur < TWO_TO_THE_64
  }

  /** Delivering after new data has been buffered, if that filled the hole that delivery waits for. */
  function Continue(s: State, added: Added): (State, bool)
    requires added.pos < |added.chunks|
  {
    var t := s.(chunks := added.chunks, overlaps := s.overlaps + added.overlaps);
    if !added.ok then
      (t, false)
    else
      var c := added.chunks[added.pos];
      if c.rseq > s.last || c.rupper <= s.last then (t, true) else (TryDeliver(t, added.pos), true)
  }

  /** `Reassembly.NewData` in 64-bit arithmetic. */
  function NewDataWrapping(s: State, data: seq<byte>, rseq: nat): (State, bool)
    requires Fits(s) && |data| < TWO_TO_THE_64 && rseq < TWO_TO_THE_64
  {
    WrapIs(rseq + |data|);
    if |data| == 0 then
      (s, true)
    else if s.autoTrim && |s.chunks| == 0 && rseq == s.cur then
      (Deliver(s, data, Wrap(rseq + |data|)), true)
    else if Wrap(rseq + |data|) <= s.trim then
      (s, true)
    else
      var old_ := Max(0, s.trim - rseq);
      Continue(s, BufferWrapping(s.chunks, data[old_..], rseq + old_, |data|))
  }

  // ---------------------------------------------------------------- where nothing wraps around

  ghost predicate Same(cs: seq<Chunk>, data: seq<byte>, rseq: nat)
    requires |data| > 0 && rseq + |data| < TWO_TO_THE_64 && Below(cs)
  {
    AddWrapping(cs, data, rseq, Wrap(rseq + |data|)) == Add(cs, data, rseq)
  }

  lemma SameSplit(cs: seq<Chunk>, data: seq<byte>, rseq: nat)
    requires Splits(cs, data, rseq) && rseq + |data| < TWO_TO_THE_64 && Below(cs)
    requires Same(cs, data[cs[0].rseq - rseq..], cs[0].rseq)
    ensures Same(cs, data, rseq)
  {
    WrapIs(rseq + |data|);
  }

  lemma SamePassing(cs: seq<Chunk>, data: seq<byte>, rseq: nat)
    requires Passes(cs, data, rseq) && rseq + |data| < TWO_TO_THE_64 && Below(cs)
    requires Same(cs[1..], data[cs[0].rupper - rseq..], cs[0].rupper)
    ensures Same(cs, data, rseq)
  {
    WrapIs(rseq + |data|);
  }

  lemma {:induction false} AddAgrees(cs: seq<Chunk>, data: seq<byte>, rseq: nat)
    requires |data| > 0 && rseq + |data| < TWO_TO_THE_64 && Below(cs)
    ensures AddWrapping(cs, data, rseq, Wrap(rseq + |data|)) == Add(cs, data, rseq)
    decreases |cs| + |data|
  {
    WrapIs(rseq + |data|);
    assert Same(cs, data, rseq) by {
      if Splits(cs, data, rseq) {
        AddAgrees(cs, data[cs[0].rseq - rseq..], cs[0].rseq);
        SameSplit(cs, data, rseq);
      } else if Passes(cs, data, rseq) {
        AddAgrees(cs[1..], data[cs[0].rupper - rseq..], cs[0].rupper);
        SamePassing(cs, data, rseq);
      } else if Skips(cs, data, rseq) {
        AddAgrees(cs[1..], data, rseq);
      }
    }
  }

  /** Where the chunk of a write ends that is stored, or would be. */
  function StoredEnd(s: State, w: Segment): nat {
    (if |s.chunks| == 0 then Max(w.rseq, s.trim) else w.rseq) + |w.data|
  }

  lemma BufferAgrees(cs: seq<Chunk>, data: seq<byte>, rseq: nat, len: nat)
    requires 0 < |data| < TWO_TO_THE_64 && Below(cs) && rseq + |data| < TWO_TO_THE_64
    requires |cs| == 0 ==> rseq + len < TWO_TO_THE_64
    ensures BufferWrapping(cs, data, rseq, len) == Buffer(cs, data, rseq, len)
  {
    hide Add, AddWrapping, Wrap;
    if |cs| == 0 {
      WrapIs(rseq + len);
    } else {
      AddAgrees(cs, data, rseq);
    }
  }

  /** What `NewData` does when it buffers. */
  lemma NewDataBuffers(s: State, w: Segment)
    requires |w.data| > 0 && s.trim < w.rseq + |w.data|
    requires !(s.autoTrim && |s.chunks| == 0 && w.rseq == s.cur)
    ensures var old_ := Max(0, s.trim - w.rseq);
            NewData(s, w.data, w.rseq)
            == Continue(s, Buffer(s.chunks, w.data[old_..], w.rseq + old_, |w.data|))
  {
    hide Buffer, TryDeliver;
  }

  /** As long as the ends fit, the sink is the one of the other results. */
  lemma Agrees(s: State, w: Segment)
    requires Fits(s) && w.rseq + |w.data| < TWO_TO_THE_64 && StoredEnd(s, w) < TWO_TO_THE_64
    ensures NewDataWrapping(s, w.data, w.rseq) == NewData(s, w.data, w.rseq)
  {
    hide Continue, BufferWrapping, Buffer, Wrap;
    WrapIs(w.rseq + |w.data|);
    if |w.data| > 0 && !(s.autoTrim && |s.chunks| == 0 && w.rseq == s.cur) && s.trim < w.rseq + |w.data| {
      var old_ := Max(0, s.trim - w.rseq);
      NewDataBuffers(s, w);
      BufferAgrees(s.chunks, w.data[old_..], w.rseq + old_, |w.data|);
      hide NewData;
    }
  }

  // ---------------------------------------------------------------- where something does

  /** The write is stored as a chunk whose end wraps around. */
  ghost predicate Wraps(s: State, w: Segment) {
    && !(s.autoTrim && |s.chunks| == 0 && w.rseq == s.cur)
    && Wrap(w.rseq + |w.data|) > s.trim
    && StoredEnd(s, w) >= TWO_TO_THE_64
  }

  /** A chunk that ends before it begins. */
  predicate Inverted(c: Chunk) {
    c.rupper <= c.rseq
  }

  lemma {:induction false} OrderedRuns(cs: seq<Chunk>, lo: nat)
    requires Ordered(cs, lo)
    ensures forall i :: 0 <= i < |cs| ==> !Inverted(cs[i])
  {
    if |cs| > 0 {
      OrderedRuns(cs[1..], cs[0].rupper);
      assert forall i :: 0 < i < |cs| ==> cs[i] == cs[1..][i - 1];
    }
  }

  /** Data whose end wraps around ends up, cut off in front by what is stored already, in a chunk that ends before it
      begins; that is the chunk that the delivery decision looks at. */
  lemma {:induction false} AddInverted(cs: seq<Chunk>, lo: nat, data: seq<byte>, rseq: nat)
    requires Wf(cs, lo) && Below(cs) && 0 < |data| < TWO_TO_THE_64 && rseq < TWO_TO_THE_64
    requires rseq + |data| > TWO_TO_THE_64
    ensures var r := AddWrapping(cs, data, rseq, Wrap(rseq + |data|));
            r.ok && r.chunks[r.pos].rupper == Wrap(rseq + |data|) < rseq <= r.chunks[r.pos].rseq
    decreases |cs| + |data|
  {
    WrapIs(rseq + |data|);
    if |cs| > 0 {
      if cs[0].rupper <= rseq {
        AddInverted(cs[1..], cs[0].rupper, data, rseq);
      } else if rseq + |data| - TWO_TO_THE_64 > cs[0].rseq {
        AddInverted(cs[1..], cs[0].rupper, data[cs[0].rupper - rseq..], cs[0].rupper);
      }
    }
  }

  lemma BufferInverted(cs: seq<Chunk>, data: seq<byte>, rseq: nat, len: nat)
    requires Wf(cs, 0) && Below(cs) && 0 < |data| <= len < TWO_TO_THE_64 && rseq < TWO_TO_THE_64
    requires if |cs| == 0 then rseq + len >= TWO_TO_THE_64 else rseq + |data| > TWO_TO_THE_64
    ensures var r := BufferWrapping(cs, data, rseq, len);
            r.ok && Inverted(r.chunks[r.pos]) && r.chunks[r.pos].rupper < rseq
  {
    hide AddWrapping, Wrap;
    if |cs| == 0 {
      WrapIs(rseq + len);
    } else {
      AddInverted(cs, 0, data, rseq);
    }
  }

  lemma WrappedIsStored(s: State, w: Segment)
    requires Fits(s) && Wf(s.chunks, 0) && w.rseq < TWO_TO_THE_64 && 0 < |w.data| < TWO_TO_THE_64 && Wraps(s, w)
    ensures var t := NewDataWrapping(s, w.data, w.rseq).0;
            t.delivered == s.delivered && exists i :: 0 <= i < |t.chunks| && Inverted(t.chunks[i])
  {
    hide Wrap, Wf, BufferWrapping, TryDeliver;
    WrapIs(w.rseq + |w.data|);
    var old_ := Max(0, s.trim - w.rseq);
    var data, rseq := w.data[old_..], w.rseq + old_;
    BufferInverted(s.chunks, data, rseq, |w.data|);
    var added := BufferWrapping(s.chunks, data, rseq, |w.data|);
    var c := added.chunks[added.pos];
    assert c.rseq > s.last || c.rupper <= s.last;
    assert NewDataWrapping(s, w.data, w.rseq) == Continue(s, added);
    assert Inverted(Continue(s, added).0.chunks[added.pos]);
  }

  lemma {:induction false} KeptOrdered(cs: seq<Chunk>, lo: nat, rseq: nat)
    requires Ordered(cs, lo)
    ensures Ordered(Kept(cs, rseq), lo)
  {
    if |cs| > 0 && cs[0].rseq < rseq {
      KeptOrdered(cs[1..], cs[0].rupper, rseq);
      OrderedLower(Kept(cs[1..], rseq), cs[0].rupper, lo);
    }
  }

  lemma {:induction false} DeliverAllKeepsChunks(s: State, cs: seq<Chunk>)
    ensures DeliverAll(s, cs).chunks == s.chunks
    decreases |cs|
  {
    if |cs| > 0 {
      DeliverAllKeepsChunks(DeliverChunk(s, cs[0]), cs[1..]);
    }
  }

  lemma ContinueOrdered(s: State, added: Added)
    requires added.pos < |added.chunks| && Ordered(added.chunks, 0)
    ensures Ordered(Continue(s, added).0.chunks, 0)
  {
    hide Ordered, DeliverAll, Kept;
    var t := s.(chunks := added.chunks, overlaps := s.overlaps + added.overlaps);
    DeliverAllKeepsChunks(t, t.chunks[added.pos..]);
    KeptOrdered(t.chunks, 0, DeliverAll(t, t.chunks[added.pos..]).last);
  }

  lemma BufferOrdered(cs: seq<Chunk>, data: seq<byte>, rseq: nat, len: nat)
    requires Ordered(cs, 0) && 0 < |data| <= len
    ensures Ordered(Buffer(cs, data, rseq, len).chunks, 0)
  {
    hide Add;
    if |cs| > 0 {
      Sink.AddKeepsOrdered(cs, data, rseq, 0);
    }
  }

  lemma NewDataOrdered(s: State, w: Segment)
    requires Ordered(s.chunks, 0)
    ensures Ordered(NewData(s, w.data, w.rseq).0.chunks, 0)
  {
    hide Ordered, Continue, Buffer;
    if |w.data| > 0 && !(s.autoTrim && |s.chunks| == 0 && w.rseq == s.cur) && s.trim < w.rseq + |w.data| {
      var old_ := Max(0, s.trim - w.rseq);
      NewDataBuffers(s, w);
      BufferOrdered(s.chunks, w.data[old_..], w.rseq + old_, |w.data|);
      ContinueOrdered(s, Buffer(s.chunks, w.data[old_..], w.rseq + old_, |w.data|));
      hide NewData;
    }
  }

  /** A write leaves behind a chunk that ends before it begins if and only if it is stored with an end that wraps
      around. */
  lemma WrapsExactly(s: State, w: Segment)
    requires Fits(s) && Wf(s.chunks, 0) && w.rseq < TWO_TO_THE_64 && 0 < |w.data| < TWO_TO_THE_64
    ensures var t := NewDataWrapping(s, w.data, w.rseq).0;
            (exists i :: 0 <= i < |t.chunks| && Inverted(t.chunks[i])) <==> Wraps(s, w)
  {
    if Wraps(s, w) {
      WrappedIsStored(s, w);
    } else {
      var t := NewDataWrapping(s, w.data, w.rseq).0;
      WrapIs(w.rseq + |w.data|);
      if w.rseq + |w.data| < TWO_TO_THE_64 && StoredEnd(s, w) < TWO_TO_THE_64 {
        Agrees(s, w);
        NewDataOrdered(s, w);
      } else {
        assert t.chunks == s.chunks;
      }
      OrderedRuns(t.chunks, 0);
    }
  }

  /** Trimming never gets past a chunk that begins at the trim point or later, wherever that chunk ends: it stays, with
      everything behind it. */
  lemma {:induction false} TrimStopsAt(cs: seq<Chunk>, i: nat, rseq: nat) returns (k: nat)
    requires i < |cs| && rseq <= cs[i].rseq
    ensures k <= i && Kept(cs, rseq) == cs[k..]
  {
    k := 0;
    if cs[0].rseq < rseq {
      k := TrimStopsAt(cs[1..], i - 1, rseq);
      assert cs[1..][k..] == cs[k + 1..];
      k := k + 1;
    }
  }

  /** The last sequence number before the initial one. */
  const LAST: nat := TWO_TO_THE_64 - 1

  /** The chunk that two bytes written there leave in a new sink. */
  function Early(x: byte, y: byte): Chunk {
    Chunk([x, y], LAST, 1)
  }

  lemma EarlyIsStored(x: byte, y: byte)
    ensures Wraps(Init(), Segment(LAST, [x, y]))
    ensures NewDataWrapping(Init(), [x, y], LAST) == (Init().(chunks := [Early(x, y)]), true)
  {
    WrapIs(LAST + 2);
    assert Init().overlaps + [] == [];
    assert [x, y][0..] == [x, y];
  }

  lemma DeliverPair(s: State, c: Chunk, d: Chunk)
    ensures DeliverAll(s, [c, d]) == DeliverChunk(DeliverChunk(s, c), d) && DeliverAll(s, [c]) == DeliverChunk(s, c)
  {
    assert [c, d][1..] == [d] && [d][1..] == [] && [c][1..] == [];
    assert DeliverAll(DeliverChunk(s, c), [d]) == DeliverAll(DeliverChunk(DeliverChunk(s, c), d), []);
    assert DeliverAll(s, [c]) == DeliverAll(DeliverChunk(s, c), []);
  }

  /** The beginning of the stream is delivered and removed, but the early chunk is not. */
  lemma FirstAfterEarly(x: byte, y: byte, d: seq<byte>)
    requires 0 < |d| < LAST
    ensures var (t, ok) := NewDataWrapping(Init().(chunks := [Early(x, y)]), d, 0);
            && ok && t.delivered == d && t.cur == t.last == t.trim == |d| && t.autoTrim
            && t.chunks == [Early(x, y)] && Fits(t)
  {
    var w, c := Early(x, y), Chunk(d, 0, |d|);
    var s := Init().(chunks := [w]);
    WrapIs(|d|);
    assert d[0..] == d;
    assert AddWrapping([w], d, 0, |d|) == Added([c] + [w], 0, [], true);
    assert [c] + [w] == [c, w] && [c, w][0..] == [c, w] && [c, w][1..] == [w];
    var t := s.(chunks := [c, w], overlaps := s.overlaps + []);
    DeliverPair(t, c, w);
    assert Kept([c, w], |d|) == Kept([w], |d|) == [w];
  }

  /** What comes then is delivered, but not removed any more. */
  lemma MoreAfterEarly(s: State, x: byte, y: byte, e: seq<byte>)
    requires s.chunks == [Early(x, y)] && s.autoTrim && s.cur == s.last == s.trim && 0 < |e|
    requires 0 < s.cur && s.cur + |e| < LAST
    ensures Fits(s)
    ensures var (t, ok) := NewDataWrapping(s, e, s.cur);
            && ok && t.delivered == s.delivered + e && t.cur == t.trim == s.cur + |e|
            && t.chunks == [Early(x, y), Chunk(e, s.cur, s.cur + |e|)]
  {
    var w, c := Early(x, y), Chunk(e, s.cur, s.cur + |e|);
    WrapIs(s.cur + |e|);
    assert e[0..] == e;
    assert [w][1..] == [];
    assert AddWrapping([], e, s.cur, s.cur + |e|) == Added([c], 0, [], true);
    assert [w] + [c] == [w, c] && [w, c][1..] == [c];
    DeliverPair(s.(chunks := [w, c], overlaps := s.overlaps + []), c, w);
    assert Kept([w, c], s.cur + |e|) == [w, c];
  }

  /** Two bytes written just before the initial sequence number, the second of which is the first of the stream, are
      stored for good, and with them whatever is delivered later than the data that comes next. */
  lemma EarlyStays(x: byte, y: byte, d: seq<byte>, e: seq<byte>)
    requires 0 < |d| && 0 < |e| && |d| + |e| < LAST
    ensures var s := NewDataWrapping(Init(), [x, y], LAST).0;
            && Wraps(Init(), Segment(LAST, [x, y])) && Fits(s)
            && var t := NewDataWrapping(s, d, 0).0;
               && Fits(t) && t.delivered == d && t.cur == |d|
               && var u := NewDataWrapping(t, e, |d|).0;
                  && u.delivered == d + e && u.trim == |d| + |e|
                  && u.chunks == [Early(x, y), Chunk(e, |d|, |d| + |e|)]
  {
    EarlyIsStored(x, y);
    FirstAfterEarly(x, y, d);
    hide NewDataWrapping;
    MoreAfterEarly(NewDataWrapping(Init().(chunks := [Early(x, y)]), d, 0).0, x, y, e);
  }
}
