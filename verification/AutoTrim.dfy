/** Auto-trimming, the default: exactly which writes make it lose data that keeping everything would not. */
module AutoTrim {
  import opened Basics
  import opened Chunks
  import opened Reassembly
  import KeepMode

  /** A trimming sink in good order. */
  ghost predicate Trimming(s: State) {
    Orderly(s) && s.autoTrim && s.trim <= s.cur
  }

  /** The trimming sink `s` simulates `k`: same output, and the same bytes waiting to be delivered. */
  ghost predicate Simulates(s: State, k: State) {
    && s.delivered == k.delivered && s.cur == k.cur
    && forall i: nat :: s.cur <= i ==> Lookup(s.chunks, i) == Lookup(k.chunks, i)
  }

  /** The write reaches from before the cursor to beyond it, and some byte between its start (or the
      trim point, if later) and the cursor is no longer buffered. */
  ghost predicate Straddles(s: State, w: Segment) {
    w.rseq < s.cur < w.rseq + |w.data| && !Covered(s.chunks, Max(w.rseq, s.trim), s.cur)
  }

  /** The write reaches from before the trim point to beyond it while nothing is buffered, so that its
      chunk claims more sequence numbers than it has bytes, and no trimming follows that erases it. */
  ghost predicate Overclaims(s: State, w: Segment) {
    && |s.chunks| == 0 && w.rseq < s.trim < w.rseq + |w.data|
    && !(w.rseq + |w.data| <= s.cur < s.trim + |w.data|)
  }

  ghost predicate Damages(s: State, w: Segment) {
    Straddles(s, w) || Overclaims(s, w)
  }

  // ---------------------------------------------------------------- harmless writes

  /** A write that ends at the trim point or before leaves everything as it is. */
  lemma OldWrite(s: State, w: Segment)
    requires Trimming(s) && |w.data| > 0 && w.rseq + |w.data| <= s.trim
    ensures NewData(s, w.data, w.rseq) == (s, true) && Advances(s, w.data, w.rseq, s)
  {
  }

  /** The fast path. */
  lemma FastPath(s: State, w: Segment)
    requires Trimming(s) && |w.data| > 0 && |s.chunks| == 0 && w.rseq == s.cur
    ensures var (t, ok) := NewData(s, w.data, w.rseq);
            ok && Trimming(t) && Advances(s, w.data, w.rseq, t)
  {
  }

  /** The overlong chunk is erased again at once. */
  lemma ErasedWrite(s: State, w: Segment)
    requires Trimming(s) && |s.chunks| == 0 && w.rseq < s.trim < w.rseq + |w.data|
    requires w.rseq + |w.data| <= s.cur < s.trim + |w.data|
    ensures var (t, ok) := NewData(s, w.data, w.rseq);
            ok && Trimming(t) && Advances(s, w.data, w.rseq, t)
  {
    var old_ := s.trim - w.rseq;
    var c := Chunk(w.data[old_..], s.trim, s.trim + |w.data|);
    var u := s.(chunks := [c], overlaps := s.overlaps + []);
    assert u.chunks[0..] == [c] && [c][1..] == [];
    assert DeliverAll(u, [c]) == u;
    assert Kept([c], s.cur) == [];
    assert NewData(s, w.data, w.rseq) == (Trim(u, s.cur), true);
  }

  /** The part of a write that does not lie before the trim point. */
  function Fresh(s: State, w: Segment): Segment
    requires s.trim < w.rseq + |w.data|
  {
    var old_ := Max(0, s.trim - w.rseq);
    Segment(w.rseq + old_, w.data[old_..])
  }

  lemma EntersFresh(s: State, w: Segment)
    requires |w.data| > 0 && s.trim < w.rseq + |w.data|
    requires |s.chunks| > 0 || w.rseq != s.cur
    ensures var f := Fresh(s, w);
            && NewData(s, w.data, w.rseq) == Enter(s, f.data, f.rseq, |w.data|)
            && (|s.chunks| > 0 || s.trim <= w.rseq ==>
                  Enter(s, f.data, f.rseq, |w.data|) == Enter(s, f.data, f.rseq, |f.data|))
  {
  }

  lemma FreshAdvances(s: State, w: Segment, t: State)
    requires s.trim <= s.cur == |s.delivered| && s.trim < w.rseq + |w.data|
    requires Advances(s, Fresh(s, w).data, Fresh(s, w).rseq, t)
    ensures Advances(s, w.data, w.rseq, t)
  {
    var f := Fresh(s, w);
    assert forall i: nat :: s.cur <= i ==> After(s, f.data, f.rseq, i) == After(s, w.data, w.rseq, i);
  }

  /** Data from the trim point on, entered into the buffer. */
  lemma BufferedWrite(s: State, w: Segment)
    requires Trimming(s) && |w.data| > 0 && !Straddles(s, w)
    requires s.trim < w.rseq + |w.data|
    requires |s.chunks| > 0 || (w.rseq != s.cur && s.trim <= w.rseq)
    ensures var (t, ok) := NewData(s, w.data, w.rseq);
            ok && Trimming(t) && Advances(s, w.data, w.rseq, t)
  {
    EntersFresh(s, w);
    EnterAdvances(s, Fresh(s, w).data, Fresh(s, w).rseq);
    FreshAdvances(s, w, NewData(s, w.data, w.rseq).0);
  }

  lemma HarmlessWrite(s: State, w: Segment)
    requires Trimming(s) && !Damages(s, w)
    ensures var (t, ok) := NewData(s, w.data, w.rseq);
            ok && Trimming(t) && Advances(s, w.data, w.rseq, t)
  {
    if |w.data| == 0 {
    } else if |s.chunks| == 0 && w.rseq == s.cur {
      FastPath(s, w);
    } else if w.rseq + |w.data| <= s.trim {
      OldWrite(s, w);
    } else if |s.chunks| == 0 && w.rseq < s.trim {
      ErasedWrite(s, w);
    } else {
      BufferedWrite(s, w);
    }
  }

  // ---------------------------------------------------------------- damaging writes

  /** Chunks that lie beyond what has been reassembled are not delivered. */
  lemma {:induction false} NothingToDeliver(s: State, cs: seq<Chunk>, lo: nat)
    requires Ordered(cs, lo) && s.last < lo
    ensures DeliverAll(s, cs) == s
    decreases |cs|
  {
    if |cs| > 0 {
      NothingToDeliver(s, cs[1..], cs[0].rupper);
    }
  }

  /** Trying to deliver from a chunk that lies across the cursor delivers nothing. */
  lemma StuckAcross(s: State, pos: nat)
    requires pos < |s.chunks| && Ordered(s.chunks[pos..], 0) && s.chunks[pos].rseq < s.last < s.chunks[pos].rupper
    ensures TryDeliver(s, pos).delivered == s.delivered
  {
    NothingToDeliver(s, s.chunks[pos..][1..], s.chunks[pos].rupper);
  }

  /** Whatever a straddling write adds first begins before the cursor. */
  lemma AddsBeforeCursor(s: State, w: Segment)
    requires Trimming(s) && Straddles(s, w)
    ensures var f := Fresh(s, w);
            var added := Buffer(s.chunks, f.data, f.rseq, |w.data|);
            && added.chunks[added.pos].rseq < s.cur
            && Ordered(added.chunks[added.pos..], 0)
  {
    var f := Fresh(s, w);
    var added := Buffer(s.chunks, f.data, f.rseq, |w.data|);
    if |s.chunks| > 0 {
      AddKeepsWf(s.chunks, f.data, f.rseq, 0);
      AddReturns(s.chunks, f.data, f.rseq, 0);
      LookupFrom(added.chunks, 0, added.pos);
      WfFrom(added.chunks[added.pos..], added.chunks[added.pos].rseq, 0);
    }
  }

  lemma StraddlingDeliversNothing(s: State, w: Segment)
    requires Trimming(s) && Straddles(s, w)
    ensures NewData(s, w.data, w.rseq).0.delivered == s.delivered
  {
    var f := Fresh(s, w);
    var added := Buffer(s.chunks, f.data, f.rseq, |w.data|);
    EntersFresh(s, w);
    AddsBeforeCursor(s, w);
    var c := added.chunks[added.pos];
    if s.last < c.rupper {
      StuckAcross(s.(chunks := added.chunks, overlaps := s.overlaps + added.overlaps), added.pos);
    }
  }

  /** Where keeping everything would deliver, the trimming sink does not. */
  lemma StraddlingDamages(s: State, k: State, w: Segment)
    requires Trimming(s) && KeepMode.Keeping(k) && Simulates(s, k) && Straddles(s, w)
    ensures !Simulates(NewData(s, w.data, w.rseq).0, NewData(k, w.data, w.rseq).0)
  {
    KeepMode.WriteKeeps(k, w);
    StraddlingDeliversNothing(s, w);
    assert After(k, w.data, w.rseq, k.cur).Some?;
  }

  /** The damage does not show at once: all of the write is old, and what is left behind is a chunk of delivered
      numbers that lacks bytes at its end. */
  ghost predicate Latent(s: State, w: Segment) {
    Overclaims(s, w) && w.rseq + |w.data| <= s.cur
  }

  /** What a latent write leaves behind. */
  function LatentChunk(s: State, w: Segment): Chunk
    requires w.rseq < s.trim < w.rseq + |w.data|
  {
    Chunk(w.data[s.trim - w.rseq..], s.trim, s.trim + |w.data|)
  }

  lemma LatentWrite(s: State, w: Segment)
    requires Trimming(s) && Latent(s, w)
    ensures NewData(s, w.data, w.rseq) == (s.(chunks := [LatentChunk(s, w)]), true)
  {
    assert s.overlaps + [] == s.overlaps;
  }

  /** The buffer is left with a chunk that lacks bytes, or the cursor skips ahead of the data. */
  lemma OverclaimingDamages(s: State, w: Segment)
    requires Trimming(s) && Overclaims(s, w) && !Straddles(s, w)
    ensures var t := NewData(s, w.data, w.rseq).0;
            && !Trimming(t)
            && if Latent(s, w) then
                 && t == s.(chunks := [LatentChunk(s, w)])
                 && |t.chunks[0].data| < t.chunks[0].rupper - t.chunks[0].rseq
               else
                 t.cur == |t.delivered| + (s.trim - w.rseq) && t.trim == t.cur && |t.chunks| == 0
  {
    if Latent(s, w) {
      LatentWrite(s, w);
    } else {
      SkipsAhead(s, w);
    }
  }

  lemma SkipsAhead(s: State, w: Segment)
    requires Trimming(s) && Overclaims(s, w) && !Straddles(s, w) && !Latent(s, w)
    ensures var t := NewData(s, w.data, w.rseq).0;
            t.cur == |t.delivered| + (s.trim - w.rseq) && t.trim == t.cur && |t.chunks| == 0
  {
    var f := Fresh(s, w);
    var c := Chunk(f.data, s.trim, s.trim + |w.data|);
    var u := s.(chunks := [c], overlaps := s.overlaps + []);
    assert s.trim < s.cur ==> Lookup(s.chunks, s.trim) == None;
    assert u.chunks[0..] == [c] && [c][1..] == [];
    assert DeliverAll(u, [c]) == DeliverChunk(u, c);
    assert Kept([c], c.rupper) == Kept([], c.rupper);
  }

  // ---------------------------------------------------------------- main results

  /** One write keeps the simulation if and only if it is not a damaging one. */
  lemma SimulationStep(s: State, k: State, w: Segment)
    requires Trimming(s) && KeepMode.Keeping(k) && Simulates(s, k)
    ensures var s', k' := NewData(s, w.data, w.rseq).0, NewData(k, w.data, w.rseq).0;
            Trimming(s') && Simulates(s', k') <==> !Damages(s, w)
    ensures !Damages(s, w) ==> NewData(s, w.data, w.rseq).1
  {
    if Straddles(s, w) {
      StraddlingDamages(s, k, w);
    } else if Overclaims(s, w) {
      OverclaimingDamages(s, w);
    } else {
      HarmlessWrite(s, w);
      KeepMode.WriteKeeps(k, w);
      AdvanceUnique(s, k, w.data, w.rseq, NewData(s, w.data, w.rseq).0, NewData(k, w.data, w.rseq).0);
    }
  }

  lemma LatentSimulates(s: State, k: State, w: Segment)
    requires Trimming(s) && KeepMode.Keeping(k) && Simulates(s, k) && Latent(s, w)
    ensures Simulates(NewData(s, w.data, w.rseq).0, NewData(k, w.data, w.rseq).0)
  {
    LatentWrite(s, w);
    KeepMode.WriteKeeps(k, w);
    assert After(k, w.data, w.rseq, k.cur) == None;
  }

  /** Overclaiming beyond the cursor moves the cursor further than there is data. */
  lemma OverclaimingSkipsAhead(s: State, k: State, w: Segment)
    requires Trimming(s) && KeepMode.Keeping(k) && Overclaims(s, w) && !Straddles(s, w) && !Latent(s, w)
    ensures !Simulates(NewData(s, w.data, w.rseq).0, NewData(k, w.data, w.rseq).0)
  {
    SkipsAhead(s, w);
    KeepMode.WriteKeeps(k, w);
  }

  /** One write keeps output, cursor and undelivered content those of a sink that keeps everything if and only if it
      is not a damaging one, or its damage is latent. */
  lemma SimulationExactly(s: State, k: State, w: Segment)
    requires Trimming(s) && KeepMode.Keeping(k) && Simulates(s, k)
    ensures Simulates(NewData(s, w.data, w.rseq).0, NewData(k, w.data, w.rseq).0) <==> !Damages(s, w) || Latent(s, w)
  {
    if Latent(s, w) {
      LatentSimulates(s, k, w);
    } else if Straddles(s, w) {
      StraddlingDamages(s, k, w);
    } else if Overclaims(s, w) {
      OverclaimingSkipsAhead(s, k, w);
    } else {
      SimulationStep(s, k, w);
    }
  }

  /** What latent damage does later: the next write with data raises an out-of-range error exactly if it begins past
      the bytes of the chunk left behind, but before the end that the chunk claims. */
  lemma LatentFailsExactly(s: State, w: Segment, x: Segment)
    requires Trimming(s) && Latent(s, w)
    ensures var t := NewData(s, w.data, w.rseq).0;
            NewData(t, x.data, x.rseq).1
            <==> |x.data| == 0 || !(w.rseq + |w.data| < x.rseq < s.trim + |w.data|)
  {
    LatentWrite(s, w);
    var t := NewData(s, w.data, w.rseq).0;
    var c := LatentChunk(s, w);
    if |x.data| > 0 && s.trim < x.rseq + |x.data| {
      var f := Fresh(t, x);
      AddToOne(c, f.data, f.rseq);
    }
  }

  lemma AddToOne(c: Chunk, data: seq<byte>, rseq: nat)
    requires |data| > 0 && c.rseq <= rseq
    ensures Add([c], data, rseq).ok <==> !(c.rseq + |c.data| < rseq < c.rupper)
  {
    assert [c][1..] == [];
  }

  /** So some write fails exactly if at least two bytes of the damaging one were trimmed. */
  lemma LatentCanFailExactly(s: State, w: Segment)
    requires Trimming(s) && Latent(s, w)
    ensures var t := NewData(s, w.data, w.rseq).0;
            (exists x: Segment :: !NewData(t, x.data, x.rseq).1) <==> s.trim >= w.rseq + 2
  {
    var t := NewData(s, w.data, w.rseq).0;
    if s.trim >= w.rseq + 2 {
      var x := Segment(w.rseq + |w.data| + 1, [0]);
      LatentFailsExactly(s, w, x);
    } else if x: Segment :| !NewData(t, x.data, x.rseq).1 {
      LatentFailsExactly(s, w, x);
    }
  }

  /** The state of a sink in its default mode after a run of writes. */
  function Run(ws: seq<Segment>): State {
    if |ws| == 0 then Init()
    else
      var w := ws[|ws| - 1];
      NewData(Run(ws[..|ws| - 1]), w.data, w.rseq).0
  }

  /** No write of the run is a damaging one when it arrives. */
  ghost predicate Harmless(ws: seq<Segment>) {
    |ws| == 0 || (Harmless(ws[..|ws| - 1]) && !Damages(Run(ws[..|ws| - 1]), ws[|ws| - 1]))
  }

  /** Over every run of harmless writes, trimming makes no difference to what is delivered. */
  lemma {:induction false} SimulatesKeeping(ws: seq<Segment>)
    requires Harmless(ws)
    ensures Trimming(Run(ws)) && Simulates(Run(ws), KeepMode.Run(ws))
  {
    if |ws| > 0 {
      var rest := ws[..|ws| - 1];
      SimulatesKeeping(rest);
      KeepMode.RunIsOrderly(rest);
      SimulationStep(Run(rest), KeepMode.Run(rest), ws[|ws| - 1]);
    }
  }

  /** Both modes are in step at the beginning and after each write. */
  ghost predicate InStep(ws: seq<Segment>) {
    forall n: nat :: n <= |ws| ==> Simulates(Run(ws[..n]), KeepMode.Run(ws[..n]))
  }

  /** No write is a latent damage when it arrives. */
  ghost predicate NoneLatent(ws: seq<Segment>) {
    forall n: nat :: n < |ws| ==> !Latent(Run(ws[..n]), ws[n])
  }

  lemma InStepSnoc(ws: seq<Segment>, w: Segment)
    ensures InStep(ws + [w]) <==> InStep(ws) && Simulates(Run(ws + [w]), KeepMode.Run(ws + [w]))
    ensures NoneLatent(ws + [w]) <==> NoneLatent(ws) && !Latent(Run(ws), w)
  {
    hide Run, KeepMode.Run, Simulates, Latent;
    var all := ws + [w];
    assert all[..|all|] == all && all[..|ws|] == ws;
    assert forall n: nat :: n <= |ws| ==> all[..n] == ws[..n];
    assert forall n: nat :: n < |ws| ==> all[n] == ws[n];
  }

  lemma InStepNone(ws: seq<Segment>)
    requires |ws| == 0
    ensures InStep(ws) && Harmless(ws)
  {
  }

  /** Keeping in step through all of a run is being harmless, for runs without latent damage. */
  lemma {:induction false} HarmlessExactly(ws: seq<Segment>)
    requires NoneLatent(ws)
    ensures InStep(ws) <==> Harmless(ws)
    decreases |ws|
  {
    hide *;
    if |ws| == 0 {
      InStepNone(ws);
    } else {
      var rest, w := ws[..|ws| - 1], ws[|ws| - 1];
      assert ws == rest + [w];
      InStepSnoc(rest, w);
      RunSnoc(rest, w);
      HarmlessExactly(rest);
      if Harmless(rest) {
        SimulatesKeeping(rest);
        KeepMode.RunIsOrderly(rest);
        SimulationExactly(Run(rest), KeepMode.Run(rest), w);
      }
    }
  }

  /** So harmless runs deliver the first write at every sequence number, and as much as possible. */
  lemma DeliversFirstWrites(ws: seq<Segment>)
    requires Harmless(ws)
    ensures var s := Run(ws);
            && s.cur == |s.delivered|
            && (forall i: nat :: i < s.cur ==> KeepMode.FirstWrite(ws, i) == Some(s.delivered[i]))
            && KeepMode.FirstWrite(ws, s.cur) == None
  {
    SimulatesKeeping(ws);
    KeepMode.DeliversFirstWrites(ws);
  }

  // ---------------------------------------------------------------- what damage looks like

  lemma RunSnoc(ws: seq<Segment>, w: Segment)
    ensures Run(ws + [w]) == NewData(Run(ws), w.data, w.rseq).0
    ensures KeepMode.Run(ws + [w]) == NewData(KeepMode.Run(ws), w.data, w.rseq).0
    ensures Harmless(ws + [w]) <==> Harmless(ws) && !Damages(Run(ws), w)
  {
    assert (ws + [w])[..|ws|] == ws;
  }

  /** With an empty buffer and a stale trim point, a write across the cursor vanishes without a trace. */
  lemma LostWrite(s: State, w: Segment)
    requires Trimming(s) && |s.chunks| == 0 && s.trim < s.cur && w.rseq < s.cur < w.rseq + |w.data|
    ensures var t := NewData(s, w.data, w.rseq).0;
            t.delivered == s.delivered && |t.chunks| == 0 && t.cur == s.cur == t.trim
  {
    var f := Fresh(s, w);
    EntersFresh(s, w);
    var c := Chunk(f.data, f.rseq, f.rseq + |w.data|);
    var u := s.(chunks := [c], overlaps := s.overlaps + []);
    assert u.chunks[0..] == [c];
    NothingToDeliver(u, [c][1..], c.rupper);
    assert NewData(s, w.data, w.rseq).0 == Trim(u, s.cur);
    assert Kept([c], s.cur) == Kept([c][1..], s.cur);
  }

  /** `w1` overlaps the end of `w0`, which begins the stream. */
  ghost predicate Retransmits(w0: Segment, w1: Segment) {
    w0.rseq == 0 < w1.rseq < |w0.data| < w1.rseq + |w1.data|
  }

  lemma RetransmissionCovers(w0: Segment, w1: Segment)
    requires Retransmits(w0, w1)
    ensures |KeepMode.Run([w0, w1]).delivered| == w1.rseq + |w1.data|
    ensures |KeepMode.Run([w1, w0]).delivered| == w1.rseq + |w1.data|
  {
    assert w0 in [w0, w1] && w1 in [w0, w1] && w0 in [w1, w0] && w1 in [w1, w0];
    KeepMode.DeliveredLength([w0, w1], w1.rseq + |w1.data|);
    KeepMode.DeliveredLength([w1, w0], w1.rseq + |w1.data|);
  }

  /** In the default mode the new bytes of a retransmission are lost: after `w0` has been delivered,
      `w1` delivers nothing and nothing of it stays buffered, while a sink that keeps everything
      delivers all of it. */
  lemma RetransmissionIsLost(w0: Segment, w1: Segment)
    requires Retransmits(w0, w1)
    ensures Run([w0, w1]).delivered == w0.data && |Run([w0, w1]).chunks| == 0
    ensures |KeepMode.Run([w0, w1]).delivered| == w1.rseq + |w1.data|
  {
    AfterBeginning(w0);
    RetransmissionCovers(w0, w1);
    hide Run, KeepMode.Run, NewData, Trimming;
    RunSnoc([w0], w1);
    assert [w0] + [w1] == [w0, w1];
    LostWrite(Run([w0]), w1);
  }

  lemma AfterBeginning(w: Segment)
    requires w.rseq == 0 && |w.data| > 0
    ensures var s := Run([w]);
            Trimming(s) && s.chunks == [] && s.delivered == w.data && s.trim == 0 && s.cur == |w.data|
  {
    RunSnoc([], w);
    assert [] + [w] == [w];
    assert Run([w]) == Deliver(Init(), w.data, |w.data|);
  }

  /** The same two writes in the other order are delivered in full: in the default mode order matters. */
  lemma ReversedIsDelivered(w0: Segment, w1: Segment)
    requires Retransmits(w0, w1)
    ensures |Run([w1, w0]).delivered| == w1.rseq + |w1.data|
  {
    RunSnoc([], w1);
    RunSnoc([w1], w0);
    assert [] + [w1] == [w1] && [w1] + [w0] == [w1, w0];
    DeliversFirstWrites([w1]);
    assert KeepMode.FirstWrite([w1], 0) == None;
    SimulatesKeeping([w1]);
    SimulatesKeeping([w1, w0]);
    RetransmissionCovers(w0, w1);
  }

  /** The first two bytes in reverse order, then more of the stream. */
  function Swapped(a: byte, b: byte, more: seq<byte>): seq<Segment> {
    [Segment(1, [b]), Segment(0, [a]), Segment(2, more)]
  }

  lemma DeliverTwo(s: State, c: Chunk, d: Chunk)
    ensures DeliverAll(s, [c, d]) == DeliverChunk(DeliverChunk(s, c), d)
  {
    assert [c, d][1..] == [d] && [d][1..] == [];
    assert DeliverAll(s, [c, d]) == DeliverAll(DeliverChunk(s, c), [d]);
    assert DeliverAll(DeliverChunk(s, c), [d]) == DeliverAll(DeliverChunk(DeliverChunk(s, c), d), []);
  }

  lemma KeptNone(c: Chunk, d: Chunk, rseq: nat)
    requires c.rseq < rseq && d.rseq < rseq
    ensures Kept([c, d], rseq) == []
  {
    assert [c, d][1..] == [d] && [d][1..] == [];
    assert Kept([c, d], rseq) == Kept([d], rseq) == Kept([], rseq);
  }

  lemma AfterSecondByte(b: byte)
    ensures Run([Segment(1, [b])]) == Init().(chunks := [Chunk([b], 1, 2)])
  {
    RunSnoc([], Segment(1, [b]));
    assert [] + [Segment(1, [b])] == [Segment(1, [b])];
    assert Init().overlaps + [] == [];
  }

  lemma AddBefore(a: byte, b: byte)
    ensures Add([Chunk([b], 1, 2)], [a], 0) == Added([Chunk([a], 0, 1), Chunk([b], 1, 2)], 0, [], true)
  {
  }

  lemma AfterFirstByte(a: byte, b: byte)
    ensures var s := NewData(Init().(chunks := [Chunk([b], 1, 2)]), [a], 0).0;
            Trimming(s) && s.chunks == [] && s.trim == s.cur == 2
  {
    var c, d := Chunk([a], 0, 1), Chunk([b], 1, 2);
    var s := Init().(chunks := [d]);
    AddBefore(a, b);
    var u := s.(chunks := [c, d], overlaps := s.overlaps + []);
    assert u.chunks[0..] == [c, d];
    DeliverTwo(u, c, d);
    KeptNone(c, d, 2);
    hide DeliverAll, Kept, Add;
    var t := DeliverChunk(DeliverChunk(u, c), d);
    assert t.last == 2 && t.cur == 2 && t.size == 2 && |t.delivered| == 2;
    assert [a][0..] == [a];
    assert NewData(s, [a], 0).0 == Trim(t, 2);
  }

  lemma FastPathMoves(s: State, data: seq<byte>)
    requires Trimming(s) && s.chunks == [] && |data| > 0
    ensures var t := NewData(s, data, s.cur).0;
            Trimming(t) && t.chunks == [] && t.trim == s.trim && t.cur == s.cur + |data|
  {
  }

  lemma AfterSwapped(a: byte, b: byte, more: seq<byte>)
    requires |more| > 0
    ensures var s := Run(Swapped(a, b, more));
            Trimming(s) && s.chunks == [] && s.trim == 2 && s.cur == 2 + |more|
  {
    hide *;
    var w0, w1, w2 := Segment(1, [b]), Segment(0, [a]), Segment(2, more);
    SwappedIs(a, b, more);
    RunSnoc([w0], w1);
    RunSnoc([w0] + [w1], w2);
    AfterSecondByte(b);
    AfterFirstByte(a, b);
    FastPathMoves(Run([w0] + [w1]), more);
  }

  lemma SwappedIs(a: byte, b: byte, more: seq<byte>)
    ensures Swapped(a, b, more) == [Segment(1, [b])] + [Segment(0, [a])] + [Segment(2, more)]
  {
  }

  /** Latent damage comes about by writes alone: after the two first bytes in reverse order and more of the stream,
      repeating the stream's beginning makes a later write of a byte fail that has long been delivered. */
  lemma LatentIsReachable(a: byte, b: byte, more: seq<byte>, again: seq<byte>, x: byte)
    requires 2 < |again| <= |more|
    ensures var ws := Swapped(a, b, more) + [Segment(0, again)];
            && Latent(Run(Swapped(a, b, more)), Segment(0, again))
            && |again| + 1 < Run(ws).cur && !NewData(Run(ws), [x], |again| + 1).1
  {
    AfterSwapped(a, b, more);
    RunSnoc(Swapped(a, b, more), Segment(0, again));
    LatentWrite(Run(Swapped(a, b, more)), Segment(0, again));
    LatentFailsExactly(Run(Swapped(a, b, more)), Segment(0, again), Segment(|again| + 1, [x]));
  }
}
