/** Reassembly with auto-trimming off: over every run of writes, the sink delivers the longest prefix
    of the "first write wins" contents of the sequence space. */
module KeepMode {
  import opened Basics
  import opened Chunks
  import opened Reassembly

  /** A sink right after auto-trimming has been switched off. */
  function Start(): State {
    Init().(autoTrim := false)
  }

  /** The state after a run of writes; errors do not occur (`RunIsOrderly`), so the flag is dropped. */
  function Run(ws: seq<Segment>): State {
    if |ws| == 0 then Start()
    else
      var w := ws[|ws| - 1];
      NewData(Run(ws[..|ws| - 1]), w.data, w.rseq).0
  }

  /** The reference: the first byte ever written at sequence number `i`. */
  ghost function FirstWrite(ws: seq<Segment>, i: nat): Option<byte> {
    if |ws| == 0 then None
    else if ws[0].rseq <= i < ws[0].rseq + |ws[0].data| then Some(ws[0].data[i - ws[0].rseq])
    else FirstWrite(ws[1..], i)
  }

  /** The sink in good order that has kept everything it ever got. */
  ghost predicate Keeping(s: State) {
    && Orderly(s) && !s.autoTrim && s.trim == 0
    && forall i: nat :: i < s.cur ==> Lookup(s.chunks, i) == Some(s.delivered[i])
  }

  /** One write keeps the sink in order, overlays the contents, and delivers what has become contiguous. */
  lemma WriteKeeps(s: State, w: Segment)
    requires Keeping(s)
    ensures var (t, ok) := NewData(s, w.data, w.rseq);
            && ok && Keeping(t) && Advances(s, w.data, w.rseq, t)
            && forall i: nat :: Lookup(t.chunks, i) == After(s, w.data, w.rseq, i)
  {
    var t := NewData(s, w.data, w.rseq).0;
    if |w.data| > 0 {
      assert w.data[0..] == w.data;
      assert Covered(s.chunks, 0, s.cur);
      EnterAdvances(s, w.data, w.rseq);
      forall i: nat | i < t.cur
        ensures Lookup(t.chunks, i) == Some(t.delivered[i])
      {
        assert i < s.cur ==> s.delivered[i] == t.delivered[i];
      }
    }
  }

  /** The first write wins: a later write shows only where nothing was written before. */
  lemma {:induction false} FirstWriteSnoc(ws: seq<Segment>, w: Segment, i: nat)
    ensures FirstWrite(ws + [w], i) == Overlay(FirstWrite(ws, i), w.data, w.rseq, i)
  {
    if |ws| == 0 {
      assert (ws + [w])[1..] == [];
    } else {
      assert (ws + [w])[1..] == ws[1..] + [w];
      FirstWriteSnoc(ws[1..], w, i);
    }
  }

  lemma {:induction false} RunIsOrderly(ws: seq<Segment>)
    ensures Keeping(Run(ws))
    ensures |ws| > 0 ==>
              var w := ws[|ws| - 1];
              NewData(Run(ws[..|ws| - 1]), w.data, w.rseq).1
  {
    if |ws| > 0 {
      RunIsOrderly(ws[..|ws| - 1]);
      WriteKeeps(Run(ws[..|ws| - 1]), ws[|ws| - 1]);
    }
  }

  /** The buffer of a sink that keeps everything is the "first write wins" map. */
  lemma {:induction false} RunBuffersFirstWrites(ws: seq<Segment>, i: nat)
    ensures Lookup(Run(ws).chunks, i) == FirstWrite(ws, i)
  {
    if |ws| > 0 {
      var rest, w := ws[..|ws| - 1], ws[|ws| - 1];
      RunIsOrderly(rest);
      WriteKeeps(Run(rest), w);
      RunBuffersFirstWrites(rest, i);
      assert ws == rest + [w];
      FirstWriteSnoc(rest, w, i);
    }
  }

  /** Main result: after every run, all cursors agree; what was delivered is the first write at each
      sequence number below them; and delivery is maximal, the byte at the cursor was never written. */
  lemma DeliversFirstWrites(ws: seq<Segment>)
    ensures var s := Run(ws);
            && s.cur == s.last == s.size == |s.delivered|
            && (forall i: nat :: i < s.cur ==> FirstWrite(ws, i) == Some(s.delivered[i]))
            && FirstWrite(ws, s.cur) == None
  {
    var s := Run(ws);
    RunIsOrderly(ws);
    forall i: nat | i <= s.cur
      ensures Lookup(s.chunks, i) == FirstWrite(ws, i)
    {
      RunBuffersFirstWrites(ws, i);
    }
  }

  // ---------------------------------------------------------------- order independence

  /** Some segment covers sequence number `i`. */
  ghost predicate Covers(ws: seq<Segment>, i: nat) {
    exists w :: w in ws && w.rseq <= i < w.rseq + |w.data|
  }

  /** Every segment is cut from the one source text. */
  ghost predicate CutFrom(ws: seq<Segment>, source: seq<byte>) {
    forall w :: w in ws ==>
      w.rseq + |w.data| <= |source| && w.data == source[w.rseq..w.rseq + |w.data|]
  }

  lemma {:induction false} FirstWriteCovers(ws: seq<Segment>, i: nat)
    ensures FirstWrite(ws, i).Some? <==> Covers(ws, i)
  {
    if |ws| > 0 {
      FirstWriteCovers(ws[1..], i);
      assert forall w :: w in ws <==> w == ws[0] || w in ws[1..];
    }
  }

  lemma {:induction false} FirstWriteFromSource(ws: seq<Segment>, source: seq<byte>, i: nat)
    requires CutFrom(ws, source) && FirstWrite(ws, i).Some?
    ensures i < |source| && FirstWrite(ws, i) == Some(source[i])
  {
    if ws[0].rseq <= i < ws[0].rseq + |ws[0].data| {
      assert ws[0] in ws;
    } else {
      FirstWriteFromSource(ws[1..], source, i);
    }
  }

  /** Any segments of one text, in any order and with any overlaps, deliver the longest prefix of the
      text that they cover. */
  lemma DeliversCoveredPrefix(ws: seq<Segment>, source: seq<byte>)
    requires CutFrom(ws, source)
    ensures var d := Run(ws).delivered;
            && d <= source
            && (forall i: nat :: i < |d| ==> Covers(ws, i))
            && !Covers(ws, |d|)
  {
    var d := Run(ws).delivered;
    DeliversFirstWrites(ws);
    FirstWriteCovers(ws, |d|);
    if |d| > 0 {
      FirstWriteFromSource(ws, source, |d| - 1);
    }
    forall i: nat | i < |d|
      ensures Covers(ws, i) && i < |source| && d[i] == source[i]
    {
      FirstWriteCovers(ws, i);
      FirstWriteFromSource(ws, source, i);
    }
  }

  /** Reassembly is order independent: reordering, duplicating and re-cutting segments of one text
      does not change what is delivered, as long as they cover the same sequence numbers. */
  lemma OrderIndependent(ws: seq<Segment>, ws': seq<Segment>, source: seq<byte>)
    requires CutFrom(ws, source) && CutFrom(ws', source)
    requires forall i: nat :: Covers(ws, i) <==> Covers(ws', i)
    ensures Run(ws).delivered == Run(ws').delivered
  {
    DeliversCoveredPrefix(ws, source);
    DeliversCoveredPrefix(ws', source);
  }

  /** How much is delivered depends only on what has been covered. */
  lemma DeliveredLength(ws: seq<Segment>, n: nat)
    requires forall i: nat :: Covers(ws, i) <==> i < n
    ensures |Run(ws).delivered| == n
  {
    DeliversFirstWrites(ws);
    var m := |Run(ws).delivered|;
    FirstWriteCovers(ws, m);
    if n < m {
      FirstWriteCovers(ws, n);
    }
  }
}
