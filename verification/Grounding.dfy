/** The views and the operations that the parsing results speak of are those of the stream. */
module Grounding {
  import opened Basics
  import opened Layout
  import Chain
  import Driver
  import Extraction
  import Parsing
  import Reading
  import Views
  import Waiting

  /** A stream's view, without the chunks that its positions remember. */
  function AsRange(v: Views.View): Waiting.View {
    Waiting.View(v.begin.offset, if v.end.None? then None else Some(v.end.value.offset))
  }

  /** A view of the stream has as many bytes as waiting for input goes by. */
  lemma SizeAgrees(v: Views.View)
    requires v.Bound()
    ensures v.Limit() - v.begin.offset == Waiting.Size(AsRange(v), |v.chain.history|)
  {
  }

  /** `_haveEod`, on a stream. */
  method HaveEod(v: Views.View) returns (eod: bool)
    requires v.Bound()
    ensures eod == Waiting.HaveEod(AsRange(v), |v.chain.history|, v.chain.state == Chain.Frozen)
  {
    v.chain.EndIsHistory();
    if v.chain.state == Chain.Frozen {
      return true;
    }
    if v.end.Some? {
      return v.end.value.offset <= v.chain.EndOffset();
    }
    return false;
  }

  /** What a parser sees of a stream in its view. */
  lemma EntriesAgree(v: Views.View)
    requires v.Bound()
    ensures var d := Parsing.Entries(AsRange(v), v.chain.history);
            Parsing.Values(d) == v.Text() && (Parsing.HasGap(d) <==> !v.GapFree())
  {
    SizeAgrees(v);
    var lo, d, history := v.begin.offset, Parsing.Entries(AsRange(v), v.chain.history), v.chain.history;
    assert |d| == |v.Text()|;
    assert forall i :: 0 <= i < |d| ==> d[i] == history[lo + i];
    forall o | lo <= o < v.Limit()
      ensures d[o - lo] == history[o]
    {
    }
  }

  /** Copying a view does what a parser is told. */
  lemma CopyAgrees(v: Views.View)
    requires v.Bound()
    ensures Parsing.Copy(AsRange(v), v.chain.history)
            == if Reading.CopyFails(v) then Parsing.Raises(Parsing.MissingData)
               else Parsing.Goes(Parsing.Data(v.Lead()), AsRange(v))
  {
    EntriesAgree(v);
    hide Parsing.Values, Parsing.HasGap, Parsing.Entries;
  }

  lemma TakenAgree(v: Views.View, n: nat)
    requires v.begin.offset + n <= |v.chain.history|
    ensures var d := v.chain.history[v.begin.offset..v.begin.offset + n];
            && Parsing.Values(d) == Views.TextOf(v.chain.history, v.begin.offset, v.begin.offset + n)
            && (Parsing.HasGap(d) <==> !Views.NoGaps(v.chain.history, v.begin.offset, v.begin.offset + n))
  {
    var lo := v.begin.offset;
    var d := v.chain.history[lo..lo + n];
    forall o | lo <= o < lo + n
      ensures d[o - lo] == v.chain.history[o]
    {
    }
  }

  /** What taking bytes from a view comes to, as a parser is told. */
  ghost predicate Told(o: Extraction.Outcome, e: Parsing.Effect) {
    match o
    case Taken => e.Goes?
    case TooFew => e == Parsing.Raises(Parsing.WouldBlock)
    case Missing => e == Parsing.Raises(Parsing.MissingData)
  }

  /** Taking bytes from a view does what a parser is told, with the shortcut and without. */
  lemma ExtractAgrees<R>(v: Views.View, n: nat, frozen: bool)
    requires v.Bound()
    ensures var e := Parsing.Perform<R>(Parsing.Extract(n), AsRange(v), v.chain.history, frozen,
                                        Extraction.FastPath(v, n));
            && Told(Extraction.OutcomeOf(v, n), e)
            && (e.Goes? ==> e == Parsing.Goes(Parsing.Data(Views.TextOf(v.chain.history, v.begin.offset,
                                                                        v.begin.offset + n)),
                                              AsRange(v).(begin := v.begin.offset + n)))
  {
    SizeAgrees(v);
    if Extraction.FastPath(v, n) {
      Extraction.ShortcutChunk(v, n);
    }
    if v.begin.offset + n <= |v.chain.history| {
      TakenAgree(v, n);
    }
    hide Parsing.Values, Parsing.HasGap, Views.NoGaps;
  }

  /** Two positions lie in one chunk of a stream exactly if they came in one piece. */
  lemma {:induction false} HeldTogether(ps: seq<Piece>, head: nat, chunks: seq<seq<Waiting.Entry>>, lo: nat, hi: nat)
    requires Contiguous(ps, head) && |ps| == |chunks| && head <= lo <= hi
    requires forall i :: 0 <= i < |ps| ==> Content(ps[i].payload) == chunks[i]
    ensures Driver.Together(chunks, lo - head, hi - head) <==> Find(ps, lo) < |ps| && Holds(ps[Find(ps, lo)], hi)
  {
    if |ps| > 0 && !Holds(ps[0], lo) {
      assert |chunks[0]| == Len(ps[0].payload);
      HeldTogether(ps[1..], End(ps[0]), chunks[1..], lo, hi);
    }
  }

  /** So `Driver.Remembering` is right for views that remember the chunk that they begin in. */
  lemma RemembersExactly(v: Views.View, n: nat, chunks: seq<seq<Waiting.Entry>>, steps: nat)
    requires v.Bound() && v.chain.headOffset == 0 && v.begin.chunk == v.chain.Holder(v.begin.offset)
    requires |v.chain.pieces| == |chunks|
    requires forall i :: 0 <= i < |chunks| ==> Content(v.chain.pieces[i].payload) == chunks[i]
    ensures Extraction.FastPath(v, n) <==> Driver.Remembering(chunks)(steps, v.begin.offset, v.begin.offset + n)
  {
    var ps, lo := v.chain.pieces, v.begin.offset;
    HeldTogether(ps, 0, chunks, lo, lo + n);
    FindExact(ps, 0, lo);
    LaidEnds(ps, 0, v.chain.history);
    if Find(ps, lo) < |ps| {
      assert v.chain.nodes[Find(ps, lo)].AsPiece() == ps[Find(ps, lo)];
    }
  }
}
