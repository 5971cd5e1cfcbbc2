/** What the hooks of a sink are told: overlaps, and data that is trimmed without having been delivered. */
module Hooks {
  import opened Basics
  import opened Chunks
  import opened Reassembly
  import KeepMode
  import AutoTrim

  // ---------------------------------------------------------------- no write loses data unnoticed

  ghost predicate NonEmpty(cs: seq<Chunk>) {
    forall i :: 0 <= i < |cs| ==> |cs[i].data| > 0
  }

  /** Both cursors agree, and there are no empty chunks. */
  ghost predicate Regular(s: State) {
    s.last == s.cur && NonEmpty(s.chunks)
  }

  lemma {:induction false} AddNonEmpty(cs: seq<Chunk>, data: seq<byte>, rseq: nat)
    requires NonEmpty(cs) && |data| > 0
    ensures NonEmpty(Add(cs, data, rseq).chunks)
    decreases |cs| + |data|
  {
    if |cs| == 0 {
    } else if cs[0].rupper <= rseq {
      AddNonEmpty(cs[1..], data, rseq);
    } else if rseq + |data| <= cs[0].rseq {
    } else if rseq < cs[0].rseq {
      AddNonEmpty(cs, data[cs[0].rseq - rseq..], cs[0].rseq);
    } else if cs[0].rupper < rseq + |data| {
      AddNonEmpty(cs[1..], data[cs[0].rupper - rseq..], cs[0].rupper);
    }
  }

  lemma {:induction false} KeptNonEmpty(cs: seq<Chunk>, rseq: nat)
    requires NonEmpty(cs)
    ensures NonEmpty(Kept(cs, rseq))
  {
    if |cs| > 0 && cs[0].rseq < rseq {
      KeptNonEmpty(cs[1..], rseq);
    }
  }

  lemma {:induction false} DeliverAllRegular(s: State, cs: seq<Chunk>)
    requires s.last == s.cur && NonEmpty(cs)
    ensures var t := DeliverAll(s, cs);
            && t.last == t.cur && t.chunks == s.chunks
            && t.undelivered == s.undelivered && t.overlaps == s.overlaps
    decreases |cs|
  {
    if |cs| > 0 {
      DeliverAllRegular(DeliverChunk(s, cs[0]), cs[1..]);
    }
  }

  lemma {:induction false} NothingDropped(cs: seq<Chunk>, cur: nat, rseq: nat)
    requires rseq <= cur
    ensures Dropped(cs, cur, rseq) == []
  {
    if |cs| > 0 && cs[0].rseq < rseq {
      NothingDropped(cs[1..], cur, rseq);
    }
  }

  lemma TryDeliverReports(s: State, pos: nat)
    requires Regular(s) && pos <= |s.chunks|
    ensures var t := TryDeliver(s, pos);
            Regular(t) && t.undelivered == s.undelivered && t.overlaps == s.overlaps
  {
    DeliverAllRegular(s, s.chunks[pos..]);
    var t := DeliverAll(s, s.chunks[pos..]);
    NothingDropped(t.chunks, t.cur, t.last);
    KeptNonEmpty(t.chunks, t.last);
    assert s.undelivered + [] == s.undelivered;
  }

  lemma BufferNonEmpty(cs: seq<Chunk>, data: seq<byte>, rseq: nat, len: nat)
    requires NonEmpty(cs) && |data| > 0
    ensures NonEmpty(Buffer(cs, data, rseq, len).chunks)
  {
    if |cs| > 0 {
      AddNonEmpty(cs, data, rseq);
    }
  }

  /** What entering data into the buffer tells the hooks. */
  lemma EnterReports(s: State, data: seq<byte>, rseq: nat, len: nat)
    requires Regular(s) && |data| > 0
    ensures var t := Enter(s, data, rseq, len).0;
            && Regular(t) && t.undelivered == s.undelivered
            && t.overlaps == s.overlaps + Buffer(s.chunks, data, rseq, len).overlaps
  {
    hide Buffer, TryDeliver;
    BufferNonEmpty(s.chunks, data, rseq, len);
    var added := Buffer(s.chunks, data, rseq, len);
    TryDeliverReports(s.(chunks := added.chunks, overlaps := s.overlaps + added.overlaps), added.pos);
  }

  /** No write makes a sink report undelivered data, not even a damaging one. */
  lemma WriteReports(s: State, w: Segment)
    requires Regular(s)
    ensures var t := NewData(s, w.data, w.rseq).0;
            Regular(t) && t.undelivered == s.undelivered
  {
    hide Enter;
    var old_ := Max(0, s.trim - w.rseq);
    if old_ < |w.data| {
      EnterReports(s, w.data[old_..], w.rseq + old_, |w.data|);
    }
  }

  lemma {:induction false} KeepRunRegular(ws: seq<Segment>)
    ensures Regular(KeepMode.Run(ws)) && KeepMode.Run(ws).undelivered == []
  {
    hide NewData;
    if |ws| > 0 {
      KeepRunRegular(ws[..|ws| - 1]);
      WriteReports(KeepMode.Run(ws[..|ws| - 1]), ws[|ws| - 1]);
    }
  }

  lemma {:induction false} TrimRunRegular(ws: seq<Segment>)
    ensures Regular(AutoTrim.Run(ws)) && AutoTrim.Run(ws).undelivered == []
  {
    hide NewData;
    if |ws| > 0 {
      TrimRunRegular(ws[..|ws| - 1]);
      WriteReports(AutoTrim.Run(ws[..|ws| - 1]), ws[|ws| - 1]);
    }
  }

  /** The hook for undelivered data is not called by any run of writes, in either mode. */
  lemma NoneUndelivered(ws: seq<Segment>)
    ensures KeepMode.Run(ws).undelivered == [] && AutoTrim.Run(ws).undelivered == []
  {
    KeepRunRegular(ws);
    TrimRunRegular(ws);
  }

  // ---------------------------------------------------------------- trimming

  /** A report of data that is erased from `cs`, leaving `kept`: it lies beyond the cursor, with the stored bytes. */
  ghost predicate TrueLoss(cs: seq<Chunk>, kept: seq<Chunk>, cur: nat, at: nat, data: seq<byte>) {
    && cur < at && |data| > 0
    && forall k: nat :: k < |data| ==> Lookup(cs, at + k) == Some(data[k]) && Lookup(kept, at + k) == None
  }

  /** All reports are true; they start at `lo` or later, come in order, and do not overlap. */
  ghost predicate TrueLosses(cs: seq<Chunk>, kept: seq<Chunk>, cur: nat, os: seq<(nat, seq<byte>)>, lo: nat) {
    |os| == 0 ||
    (lo <= os[0].0 && TrueLoss(cs, kept, cur, os[0].0, os[0].1)
     && TrueLosses(cs, kept, cur, os[1..], os[0].0 + |os[0].1|))
  }

  /** Some report is about sequence number `i`. */
  ghost predicate LossTold(os: seq<(nat, seq<byte>)>, i: nat) {
    |os| > 0 && (os[0].0 <= i < os[0].0 + |os[0].1| || LossTold(os[1..], i))
  }

  lemma LossCarriesOver(cs: seq<Chunk>, rest: seq<Chunk>, kept: seq<Chunk>, cur: nat, at: nat, data: seq<byte>, lo: nat)
    requires TrueLoss(rest, kept, cur, at, data) && lo <= at
    requires forall i: nat :: lo <= i ==> Lookup(cs, i) == Lookup(rest, i)
    ensures TrueLoss(cs, kept, cur, at, data)
  {
    forall k: nat | k < |data|
      ensures Lookup(cs, at + k) == Some(data[k]) && Lookup(kept, at + k) == None
    {
      var i: nat := at + k;
      assert Lookup(rest, at + k) == Some(data[k]);
      assert Lookup(cs, i) == Lookup(rest, i);
    }
  }

  lemma {:induction false} LossesCarryOver(cs: seq<Chunk>, rest: seq<Chunk>, kept: seq<Chunk>, cur: nat,
                                           os: seq<(nat, seq<byte>)>, lo: nat, lo': nat)
    requires TrueLosses(rest, kept, cur, os, lo) && lo' <= lo
    requires forall i: nat :: lo <= i ==> Lookup(cs, i) == Lookup(rest, i)
    ensures TrueLosses(cs, kept, cur, os, lo')
  {
    hide Lookup, TrueLoss;
    if |os| > 0 {
      var next := os[0].0 + |os[0].1|;
      LossCarriesOver(cs, rest, kept, cur, os[0].0, os[0].1, lo);
      LossesCarryOver(cs, rest, kept, cur, os[1..], next, next);
    }
  }

  lemma {:induction false} KeptLater(cs: seq<Chunk>, lo: nat, rseq: nat)
    requires Wf(cs, lo)
    ensures Wf(Kept(cs, rseq), lo)
  {
    if |cs| > 0 && cs[0].rseq < rseq {
      KeptLater(cs[1..], cs[0].rupper, rseq);
      WfFrom(Kept(cs[1..], rseq), cs[0].rupper, lo);
    }
  }

  lemma LossesCons(cs: seq<Chunk>, kept: seq<Chunk>, cur: nat, o: (nat, seq<byte>), os: seq<(nat, seq<byte>)>, lo: nat)
    requires lo <= o.0 && TrueLoss(cs, kept, cur, o.0, o.1) && TrueLosses(cs, kept, cur, os, o.0 + |o.1|)
    ensures TrueLosses(cs, kept, cur, [o] + os, lo)
    ensures forall i: nat :: LossTold([o] + os, i) <==> o.0 <= i < o.0 + |o.1| || LossTold(os, i)
  {
    assert ([o] + os)[1..] == os;
  }

  lemma {:induction false} DroppedTold(cs: seq<Chunk>, lo: nat, cur: nat, rseq: nat)
    requires Wf(cs, lo)
    ensures TrueLosses(cs, Kept(cs, rseq), cur, Dropped(cs, cur, rseq), lo)
  {
    if |cs| > 0 && cs[0].rseq < rseq {
      var c, rest := cs[0], cs[1..];
      var kept, os := Kept(rest, rseq), Dropped(rest, cur, rseq);
      WfRest(cs, lo);
      DroppedTold(rest, c.rupper, cur, rseq);
      KeptLater(rest, c.rupper, rseq);
      forall i: nat | i < c.rupper
        ensures Lookup(kept, i) == None
      {
        LookupBelow(kept, c.rupper, i);
      }
      LossesCarryOver(cs, rest, kept, cur, os, c.rupper, c.rupper);
      assert [] + os == os;
      if cur < c.rseq {
        LossesCons(cs, kept, cur, (c.rseq, c.data), os, lo);
      } else {
        LossesCarryOver(cs, cs, kept, cur, os, c.rupper, lo);
      }
    }
  }

  lemma {:induction false} DroppedTellsAll(cs: seq<Chunk>, lo: nat, cur: nat, rseq: nat)
    requires Wf(cs, lo) && Lookup(cs, cur) == None
    ensures forall i: nat :: cur < i && Lookup(cs, i).Some? && Lookup(Kept(cs, rseq), i) == None ==>
              LossTold(Dropped(cs, cur, rseq), i)
  {
    if |cs| > 0 && cs[0].rseq < rseq {
      var c, os := cs[0], Dropped(cs[1..], cur, rseq);
      WfRest(cs, lo);
      DroppedTellsAll(cs[1..], c.rupper, cur, rseq);
      assert c.rseq <= cur ==> c.rupper <= cur;
      assert [] + os == os && ([(c.rseq, c.data)] + os)[1..] == os;
    }
  }

  /** Trimming to any number reports only data that is erased beyond the cursor, with its bytes, in order and without
      repetition; and all of it, unless a chunk lies across the cursor. */
  lemma TrimReports(s: State, rseq: nat) returns (os: seq<(nat, seq<byte>)>)
    requires Wf(s.chunks, 0)
    ensures var t := Trim(s, rseq);
            && t == s.(chunks := t.chunks, undelivered := s.undelivered + os, trim := rseq)
            && TrueLosses(s.chunks, t.chunks, s.cur, os, 0)
            && (Orderly(s) ==>
                  forall i: nat :: s.cur < i && Lookup(s.chunks, i).Some? && Lookup(t.chunks, i) == None ==>
                    LossTold(os, i))
  {
    os := Dropped(s.chunks, s.cur, rseq);
    DroppedTold(s.chunks, 0, s.cur, rseq);
    if Orderly(s) {
      DroppedTellsAll(s.chunks, 0, s.cur, rseq);
    }
  }

  // ---------------------------------------------------------------- overlaps

  /** Some report is about sequence number `i`. */
  ghost predicate OverlapTold(os: seq<Overlap>, i: nat) {
    |os| > 0 && (os[0].rseq <= i < os[0].rseq + |os[0].after| || OverlapTold(os[1..], i))
  }

  /** Every byte of the segment that was stored already is reported. */
  lemma {:induction false} AddReportsAll(cs: seq<Chunk>, data: seq<byte>, rseq: nat, lo: nat, i: nat)
    requires Wf(cs, lo) && rseq <= i < rseq + |data| && Lookup(cs, i).Some?
    ensures OverlapTold(Add(cs, data, rseq).overlaps, i)
    decreases |cs| + |data|
  {
    hide Add, Wf;
    if |cs| > 0 {
      WfRest(cs, lo);
      if i < cs[0].rseq {
        LookupBelow(cs, cs[0].rseq, i);
      }
    }
    if Skips(cs, data, rseq) {
      AddReportsAll(cs[1..], data, rseq, cs[0].rupper, i);
      AddSkips(cs, data, rseq);
    } else if Splits(cs, data, rseq) {
      AddReportsAll(cs, data[cs[0].rseq - rseq..], cs[0].rseq, lo, i);
      AddSplits(cs, data, rseq);
    } else if Passes(cs, data, rseq) {
      AddPasses(cs, data, rseq);
      var n := cs[0].rupper - rseq;
      var r := Add(cs[1..], data[n..], cs[0].rupper);
      var o := Overlap(rseq, cs[0].data[rseq - cs[0].rseq..], data[..n]);
      assert ([o] + r.overlaps)[1..] == r.overlaps;
      if cs[0].rupper <= i {
        AddReportsAll(cs[1..], data[n..], cs[0].rupper, cs[0].rupper, i);
      }
    } else if Inside(cs, data, rseq) {
      AddInside(cs, data, rseq);
    }
  }

  /** Every byte of a write that was stored already is reported, except before the trim point. */
  ghost predicate AllTold(s: State, w: Segment, os: seq<Overlap>) {
    forall i: nat :: Max(w.rseq, s.trim) <= i < w.rseq + |w.data| && Lookup(s.chunks, i).Some? ==> OverlapTold(os, i)
  }

  /** A write appends to the overlap reports just the true ones, in order and without repetition, and all of them. */
  lemma OverlapReports(s: State, w: Segment) returns (os: seq<Overlap>)
    requires Orderly(s)
    ensures NewData(s, w.data, w.rseq).0.overlaps == s.overlaps + os
    ensures TrueReports(s.chunks, w.data, w.rseq, os, w.rseq) && AllTold(s, w, os)
  {
    hide *;
    os := [];
    assert s.overlaps + os == s.overlaps;
    if s.trim < w.rseq + |w.data| && |w.data| > 0 && |s.chunks| > 0 {
      var old_ := Max(0, s.trim - w.rseq);
      OldIs(s, w);
      os := Add(s.chunks, w.data[old_..], w.rseq + old_).overlaps;
      BufferReports(s, w);
      BufferedReports(s, w);
    } else {
      NothingEntered(s, w);
    }
  }

  lemma OldIs(s: State, w: Segment)
    requires s.trim < w.rseq + |w.data|
    ensures |w.data| > 0 ==> 0 <= Max(0, s.trim - w.rseq) < |w.data|
  {
  }

  lemma NothingEntered(s: State, w: Segment)
    requires Orderly(s) && (w.rseq + |w.data| <= s.trim || |w.data| == 0 || |s.chunks| == 0)
    ensures NewData(s, w.data, w.rseq).0.overlaps == s.overlaps
    ensures TrueReports(s.chunks, w.data, w.rseq, [], w.rseq) && AllTold(s, w, [])
  {
    OrderlyIsRegular(s);
    var old_ := Max(0, s.trim - w.rseq);
    if |w.data| > 0 && s.trim < w.rseq + |w.data| {
      EnterReports(s, w.data[old_..], w.rseq + old_, |w.data|);
      assert s.overlaps + [] == s.overlaps;
    }
    hide Enter;
  }

  lemma BufferReports(s: State, w: Segment)
    requires Orderly(s) && |s.chunks| > 0 && s.trim < w.rseq + |w.data| && |w.data| > 0
    ensures var old_ := Max(0, s.trim - w.rseq);
            NewData(s, w.data, w.rseq).0.overlaps
            == s.overlaps + Add(s.chunks, w.data[old_..], w.rseq + old_).overlaps
  {
    var old_ := Max(0, s.trim - w.rseq);
    OrderlyIsRegular(s);
    EnterReports(s, w.data[old_..], w.rseq + old_, |w.data|);
    hide Enter, Add, Orderly;
  }

  lemma BufferedReports(s: State, w: Segment)
    requires Orderly(s) && |s.chunks| > 0 && s.trim < w.rseq + |w.data| && |w.data| > 0
    ensures var old_ := Max(0, s.trim - w.rseq);
            var os := Add(s.chunks, w.data[old_..], w.rseq + old_).overlaps;
            TrueReports(s.chunks, w.data, w.rseq, os, w.rseq) && AllTold(s, w, os)
  {
    hide Add, Wf, Lookup, TrueReports, OverlapTold;
    var old_ := Max(0, s.trim - w.rseq);
    var data, rseq := w.data[old_..], w.rseq + old_;
    var os := Add(s.chunks, data, rseq).overlaps;
    AddReports(s.chunks, data, rseq, 0);
    ReportsCarryOver(s.chunks, w.data, w.rseq, s.chunks, old_, os, rseq, w.rseq);
    forall i: nat | rseq <= i < rseq + |data| && Lookup(s.chunks, i).Some?
      ensures OverlapTold(os, i)
    {
      AddReportsAll(s.chunks, data, rseq, 0, i);
    }
  }

  lemma OrderlyIsRegular(s: State)
    requires Orderly(s)
    ensures Regular(s)
  {
    FullIsNonEmpty(s.chunks, 0);
  }

  lemma {:induction false} FullIsNonEmpty(cs: seq<Chunk>, lo: nat)
    requires Wf(cs, lo)
    ensures NonEmpty(cs)
  {
    if |cs| > 0 {
      FullIsNonEmpty(cs[1..], cs[0].rupper);
    }
  }
}
