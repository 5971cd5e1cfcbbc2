/** Searching for a byte string: in plain bytes, and in a view of a stream of any chunking. */
module Search {
  import opened Basics
  import Layout
  import opened Chain
  import opened Views

  /** The needle agrees with the haystack from `p` on, as far as the haystack goes. */
  ghost predicate Agrees(hay: seq<byte>, p: nat, needle: seq<byte>) {
    forall k :: 0 <= k < |needle| && p + k < |hay| ==> hay[p + k] == needle[k]
  }

  /** The needle occurs at `p`. */
  ghost predicate Occurs(hay: seq<byte>, p: nat, needle: seq<byte>) {
    p + |needle| <= |hay| && hay[p..p + |needle|] == needle
  }

  /** The first position from `p` on where the needle agrees with what there is. */
  ghost function FirstAgreeing(hay: seq<byte>, needle: seq<byte>, p: nat): (r: nat)
    requires p <= |hay|
    ensures p <= r <= |hay|
    decreases |hay| - p
  {
    if p == |hay| || Agrees(hay, p, needle) then p else FirstAgreeing(hay, needle, p + 1)
  }

  /** The result of a search from `p` on: whether the needle was found, and where, or else the first
      position at which it may still turn out to begin. */
  ghost function Found(hay: seq<byte>, needle: seq<byte>, p: nat): (r: (bool, nat))
    requires p <= |hay|
    ensures p <= r.1 <= |hay|
  {
    var at := FirstAgreeing(hay, needle, p);
    (at + |needle| <= |hay|, at)
  }

  // ---------------------------------------------------------------- what the result means

  lemma {:induction false} FirstAgreeingIsFirst(hay: seq<byte>, needle: seq<byte>, p: nat)
    requires p <= |hay|
    ensures var r := FirstAgreeing(hay, needle, p);
            Agrees(hay, r, needle) && forall q :: p <= q < r ==> !Agrees(hay, q, needle)
    decreases |hay| - p
  {
    if p < |hay| && !Agrees(hay, p, needle) {
      FirstAgreeingIsFirst(hay, needle, p + 1);
    }
  }

  /** Where there are enough bytes, agreeing is occurring. */
  lemma AgreesLong(hay: seq<byte>, q: nat, needle: seq<byte>)
    requires q + |needle| <= |hay|
    ensures Agrees(hay, q, needle) <==> Occurs(hay, q, needle)
  {
    var there := hay[q..q + |needle|];
    assert forall k :: 0 <= k < |there| ==> there[k] == hay[q + k];
  }

  /** Where there are not, it is that all remaining bytes are a prefix of the needle. */
  lemma AgreesShort(hay: seq<byte>, q: nat, needle: seq<byte>)
    requires q <= |hay| <= q + |needle|
    ensures Agrees(hay, q, needle) <==> hay[q..] <= needle
  {
    var rest := hay[q..];
    assert forall k :: 0 <= k < |rest| ==> rest[k] == hay[q + k];
  }

  /** A search succeeds if and only if the needle occurs, and then gives its first occurrence. If it
      fails, it gives the first position whose remaining bytes are all a prefix of the needle. */
  lemma FoundExactly(hay: seq<byte>, needle: seq<byte>, p: nat)
    requires p <= |hay|
    ensures var (found, at) := Found(hay, needle, p);
            && (found <==> exists q :: p <= q && Occurs(hay, q, needle))
            && (found ==> Occurs(hay, at, needle) && forall q :: p <= q < at ==> !Occurs(hay, q, needle))
            && (!found ==> hay[at..] <= needle && forall q :: p <= q < at ==> !(hay[q..] <= needle))
  {
    var (found, at) := Found(hay, needle, p);
    FirstAgreeingIsFirst(hay, needle, p);
    forall q | p <= q <= |hay|
      ensures Occurs(hay, q, needle) ==> at <= q
      ensures q < at ==> !(hay[q..] <= needle)
    {
      if q + |needle| <= |hay| {
        AgreesLong(hay, q, needle);
        if hay[q..] <= needle { AgreesShort(hay, q, needle); }
      } else {
        AgreesShort(hay, q, needle);
      }
    }
    if found {
      AgreesLong(hay, at, needle);
    } else {
      AgreesShort(hay, at, needle);
    }
  }

  /** After more data has arrived, searching on from where an unsuccessful search ended gives the same
      result as searching again from the start. */
  lemma {:induction false} SearchGoesOn(hay: seq<byte>, more: seq<byte>, needle: seq<byte>, p: nat)
    requires p <= |hay| && !Found(hay, needle, p).0
    ensures Found(hay + more, needle, Found(hay, needle, p).1) == Found(hay + more, needle, p)
    decreases |hay| - p
  {
    if p < |hay| && !Agrees(hay, p, needle) {
      var k :| 0 <= k < |needle| && p + k < |hay| && hay[p + k] != needle[k];
      assert (hay + more)[p + k] == hay[p + k];
      SearchGoesOn(hay, more, needle, p + 1);
    }
  }

  // ---------------------------------------------------------------- the search in bytes

  /** Searches from index `n` on. */
  method FindBytes(hay: seq<byte>, needle: seq<byte>, n: nat) returns (found: bool, i: nat)
    requires n <= |hay|
    ensures (found, i) == Found(hay, needle, n)
  {
    if |needle| == 0 {
      return true, n;
    }
    var first := needle[0];
    i := n;
    while true
      invariant n <= i <= |hay| && FirstAgreeing(hay, needle, i) == FirstAgreeing(hay, needle, n)
      decreases |hay| - i
    {
      if i == |hay| {
        return false, i;
      }
      if hay[i] == first {
        var x, y := i, 0;
        while true
          invariant i <= x == i + y <= |hay| && y < |needle|
          invariant forall k :: 0 <= k < y ==> hay[i + k] == needle[k]
          decreases |hay| - x
        {
          if x == |hay| {
            assert Agrees(hay, i, needle);
            return false, i;
          }
          var same := hay[x] == needle[y];
          x, y := x + 1, y + 1;
          if !same {
            assert !Agrees(hay, i, needle);
            break;
          }
          if y == |needle| {
            assert Agrees(hay, i, needle);
            return true, i;
          }
        }
        assert !Agrees(hay, i, needle);
      } else {
        assert hay[i + 0] != needle[0];
      }
      i := i + 1;
    }
  }

  // ---------------------------------------------------------------- the search in a view

  datatype Verdict = Match | Mismatch | Short

  /** The needle's first `y` bytes are those of the haystack at `p`. */
  ghost predicate Matched(hay: seq<byte>, p: nat, needle: seq<byte>, y: nat) {
    p + y <= |hay| && y <= |needle| && forall k :: 0 <= k < y ==> hay[p + k] == needle[k]
  }

  lemma MatchedStep(hay: seq<byte>, p: nat, needle: seq<byte>, y: nat)
    requires Matched(hay, p, needle, y) && y < |needle|
    ensures p + y <= |hay|
    ensures p + y == |hay| ==> Agrees(hay, p, needle) && p + |needle| > |hay|
    ensures p + y < |hay| && hay[p + y] != needle[y] ==> !Agrees(hay, p, needle)
    ensures p + y < |hay| && hay[p + y] == needle[y] ==> Matched(hay, p, needle, y + 1)
    ensures p + y < |hay| && hay[p + y] == needle[y] && y + 1 == |needle| ==>
              Agrees(hay, p, needle) && p + |needle| <= |hay|
  {
  }

  lemma MatchedNone(hay: seq<byte>, p: nat, needle: seq<byte>)
    requires p <= |hay|
    ensures Matched(hay, p, needle, 0)
  {
  }

  /** The text up to the first gap at or behind offset `from`, or else all of it. */
  ghost function Ahead(v: View, from: nat): (t: seq<byte>)
    requires v.begin.offset <= from <= v.Limit()
    reads v.chain
    ensures from - v.begin.offset <= |t| <= |v.Text()|
  {
    v.Text()[..DataEnd(v.chain.history, from, v.Limit()) - v.begin.offset]
  }

  /** What a search from offset `from` on comes to, counted from the view's begin: it fails if it comes to a gap. */
  ghost function Searched(v: View, needle: seq<byte>, from: nat): Result<(bool, nat), Error>
    requires v.begin.offset <= from <= v.Limit()
    reads v.chain
  {
    var found := Found(Ahead(v, from), needle, from - v.begin.offset);
    if found.0 || Ahead(v, from) == v.Text() then Ok(found) else Err(MissingData)
  }

  /** One position of the text ahead: it ends at a gap, or else at the limit. */
  lemma AheadAt(v: View, from: nat, i: UnsafeConstIterator)
    requires v.Bound() && v.Inside(i) && v.begin.offset <= from <= v.Limit()
    requires from <= i.offset <= v.begin.offset + |Ahead(v, from)|
    ensures v.begin.offset <= i.offset <= v.Limit() == v.begin.offset + |v.Text()|
    ensures i.offset == v.Limit() ==> Ahead(v, from) == v.Text() && i.offset == v.begin.offset + |Ahead(v, from)|
    ensures i.offset < v.Limit() ==>
              && i.offset < |v.chain.history|
              && if v.chain.history[i.offset].Some? then
                   && i.offset < v.begin.offset + |Ahead(v, from)|
                   && Ahead(v, from)[i.offset - v.begin.offset] == v.chain.history[i.offset].value
                 else i.offset == v.begin.offset + |Ahead(v, from)| && Ahead(v, from) != v.Text()
  {
    if i.offset < v.Limit() {
      assert v.Text()[i.offset - v.begin.offset..] != [];
    }
  }

  /** Compares the needle with the view's bytes from iterator `i` on; none if a gap comes first. */
  method CompareAt(v: View, needle: seq<byte>, i: UnsafeConstIterator, ghost from: nat) returns (r: Option<Verdict>)
    requires v.Valid() && v.Inside(i) && |needle| > 0 && v.begin.offset <= from <= i.offset
    requires i.offset <= v.begin.offset + |Ahead(v, from)|
    ensures var hay, p := Ahead(v, from), i.offset - v.begin.offset;
            r == if !Agrees(hay, p, needle) then Some(Mismatch)
                 else if p + |needle| <= |hay| then Some(Match)
                 else if hay == v.Text() then Some(Short) else None
  {
    hide *;
    ghost var hay, p := Ahead(v, from), i.offset - v.begin.offset;
    ValidIsBound(v);
    AheadAt(v, from, i);
    var x := v.Copy(i);
    var y := 0;
    MatchedNone(hay, p, needle);
    while true
      invariant fresh(x) && v.Valid() && v.Bound() && v.Inside(x) && v.begin.offset <= from <= v.Limit()
      invariant Ahead(v, from) == hay && x.offset == v.begin.offset + p + y && 0 <= y < |needle|
      invariant Matched(hay, p, needle, y) && p + y <= |hay|
      decreases |needle| - y
    {
      MatchedStep(hay, p, needle, y);
      AheadAt(v, from, x);
      var atEnd := v.Reached(x);
      if atEnd {
        return Some(Short);
      }
      var b := v.TryTake(x);
      if b.None? {
        return None;
      }
      if b.value != needle[y] {
        return Some(Mismatch);
      }
      y := y + 1;
      if y == |needle| {
        return Some(Match);
      }
      MatchedBound(hay, p, needle, y);
    }
  }

  lemma MatchedBound(hay: seq<byte>, p: nat, needle: seq<byte>, y: nat)
    requires Matched(hay, p, needle, y)
    ensures p + y <= |hay|
  {
  }

  lemma FirstAgreeingStep(hay: seq<byte>, needle: seq<byte>, p: nat)
    requires p <= |hay|
    ensures p == |hay| || Agrees(hay, p, needle) ==> FirstAgreeing(hay, needle, p) == p
    ensures p < |hay| && !Agrees(hay, p, needle) ==> FirstAgreeing(hay, needle, p) == FirstAgreeing(hay, needle, p + 1)
    ensures p < |hay| && |needle| > 0 && hay[p] != needle[0] ==> !Agrees(hay, p, needle)
  {
    assert p < |hay| ==> hay[p + 0] == hay[p];
  }

  /** Searches forward from iterator `n`, which is moved to the result. It is an error to come to a gap. */
  method FindForward(v: View, needle: seq<byte>, n: UnsafeConstIterator) returns (r: Result<bool, Error>)
    requires v.Valid() && v.Inside(n)
    modifies n
    ensures v.Inside(n)
    ensures var s := Searched(v, needle, old(n.offset));
            if r.Ok? then s == Ok((r.value, n.offset - v.begin.offset)) else s == Err(r.error)
  {
    hide *;
    v.InsideBounds(n);
    ghost var from := n.offset;
    ghost var start := from - v.begin.offset;
    StartAhead(v, from);
    ghost var hay := Ahead(v, from);
    FoundIs(hay, needle, start);
    SearchedIs(v, needle, from);
    if |needle| == 0 {
      return Ok(true);
    }
    var first := needle[0];
    while true
      invariant v.Valid() && v.Inside(n) && v.begin.offset <= from <= n.offset && from <= v.Limit()
      invariant Ahead(v, from) == hay && start <= n.offset - v.begin.offset <= |hay|
      invariant FirstAgreeing(hay, needle, n.offset - v.begin.offset) == FirstAgreeing(hay, needle, start)
      decreases v.begin.offset + |hay| - n.offset
    {
      ValidIsBound(v);
      SearchedIs(v, needle, from);
      AheadAt(v, from, n);
      FirstAgreeingStep(hay, needle, n.offset - v.begin.offset);
      var atEnd := v.Reached(n);
      if atEnd {
        return Ok(false);
      }
      var b := v.TryLook(n);
      if b.None? {
        return Err(MissingData);
      }
      if b.value == first {
        var verdict := CompareAt(v, needle, n, from);
        match verdict {
          case None => return Err(MissingData);
          case Some(Match) => return Ok(true);
          case Some(Short) => return Ok(false);
          case Some(Mismatch) =>
        }
      }
      v.Step(n);
    }
  }

  lemma StartAhead(v: View, from: nat)
    requires v.begin.offset <= from <= v.Limit()
    ensures from - v.begin.offset <= |Ahead(v, from)|
  {
  }

  lemma SearchedIs(v: View, needle: seq<byte>, from: nat)
    requires v.begin.offset <= from <= v.Limit()
    ensures var found := Found(Ahead(v, from), needle, from - v.begin.offset);
            Searched(v, needle, from)
            == if found.0 || Ahead(v, from) == v.Text() then Ok(found) else Err(MissingData)
  {
  }

  lemma FoundIs(hay: seq<byte>, needle: seq<byte>, p: nat)
    requires p <= |hay|
    ensures var at := FirstAgreeing(hay, needle, p);
            Found(hay, needle, p) == (at + |needle| <= |hay|, at)
    ensures |needle| == 0 ==> Found(hay, needle, p) == (true, p)
  {
  }

  lemma AheadOfAll(v: View)
    requires v.Valid() && v.GapFree()
    ensures v.Bound() && v.begin.offset <= v.Limit() && Ahead(v, v.begin.offset) == v.Text()
  {
  }

  /** The two searches agree, however the view's bytes are spread over chunks. */
  method FindBothWays(v: View, needle: seq<byte>, bytes: seq<byte>)
      returns (inView: (bool, nat), inBytes: (bool, nat))
    requires v.Valid() && v.GapFree() && v.Text() == bytes
    ensures inView == inBytes == Found(bytes, needle, 0) && Ok(inView) == Searched(v, needle, v.begin.offset)
  {
    hide *;
    AheadOfAll(v);
    var n := v.UnsafeBegin();
    SearchedIs(v, needle, v.begin.offset);
    var found := FindForward(v, needle, n);
    inView := (found.value, n.offset - v.begin.offset);
    var f, i := FindBytes(bytes, needle, 0);
    inBytes := (f, i);
  }

  // ---------------------------------------------------------------- searching on after more data has arrived

  /** The remembered chunk is a current one from which the place can be reached, wherever the stream ends. */
  ghost predicate Anchored(chain: Chain, p: Position)
    reads chain, chain.nodes
  {
    p.chunk != null ==> p.chunk in chain.nodes && p.chunk.offset <= p.offset
  }

  ghost predicate AnchoredView(v: View)
    reads v.chain, v.chain.nodes
  {
    v.Valid() && Anchored(v.chain, v.begin) && (v.end.Some? ==> Anchored(v.chain, v.end.value))
  }

  lemma AnchorIndex(chain: Chain, p: Position) returns (i: nat)
    requires chain.Linked() && Anchored(chain, p)
    ensures p.chunk != null ==>
              i < |chain.nodes| == |chain.pieces| && chain.nodes[i] == p.chunk && chain.pieces[i].offset <= p.offset
  {
    i := 0;
    if p.chunk != null {
      i :| i < |chain.nodes| && chain.nodes[i] == p.chunk;
      assert chain.nodes[i].AsPiece() == chain.pieces[i];
    }
  }

  lemma StillAnchored(chain: Chain, p: Position, i: nat)
    requires chain.Linked()
    requires p.chunk != null ==>
               i < |chain.nodes| && chain.nodes[i] == p.chunk && chain.pieces[i].offset <= p.offset
    ensures Anchored(chain, p)
  {
    if p.chunk != null {
      assert chain.nodes[i].AsPiece() == chain.pieces[i];
    }
  }

  /** Where a view's available bytes end with a given history. */
  ghost function LimitAt(v: View, history: seq<Option<byte>>): nat {
    Max(v.begin.offset, if v.end.None? then |history| else Min(v.end.value.offset, |history|))
  }

  lemma TextAt(v: View)
    ensures v.Limit() == LimitAt(v, v.chain.history) == v.begin.offset + |v.Text()|
    ensures v.Text() == TextOf(v.chain.history, v.begin.offset, v.Limit())
    ensures v.GapFree() <==> NoGaps(v.chain.history, v.begin.offset, v.Limit())
  {
  }

  lemma TextExtended(v: View, before: seq<Option<byte>>, after: seq<Option<byte>>)
    requires before <= after
    ensures v.begin.offset <= LimitAt(v, before) <= LimitAt(v, after)
    ensures TextOf(before, v.begin.offset, LimitAt(v, before)) <= TextOf(after, v.begin.offset, LimitAt(v, after))
  {
    var lo := v.begin.offset;
    var t, u := TextOf(before, lo, LimitAt(v, before)), TextOf(after, lo, LimitAt(v, after));
    forall k | 0 <= k < |t|
      ensures t[k] == u[k]
    {
      assert lo + k < |before| && after[lo + k] == before[lo + k];
    }
  }

  lemma AnchoredParts(v: View)
    ensures AnchoredView(v) <==>
            v.Valid() && Anchored(v.chain, v.begin) && (v.end.Some? ==> Anchored(v.chain, v.end.value))
    ensures v.Valid() ==> v.chain.Valid() && v.chain.Linked() && v.chain.headOffset <= v.begin.offset
    ensures v.Valid() && v.end.Some? ==> v.begin.offset <= v.end.value.offset
  {
  }

  lemma AnchoredIsValid(v: View)
    requires v.chain.Valid() && v.chain.state == Mutable && v.chain.headOffset <= v.begin.offset
    requires Anchored(v.chain, v.begin)
    requires v.end.Some? ==> Anchored(v.chain, v.end.value) && v.begin.offset <= v.end.value.offset
    ensures AnchoredView(v)
  {
  }

  /** Appending data or a gap leaves a view usable, and continues its text. */
  method AppendUnderView(v: View, data: Layout.Payload)
    requires AnchoredView(v) && v.chain.state == Mutable
    modifies v.chain, v.chain.tail
    ensures AnchoredView(v) && v.chain.state == Mutable && old(v.Text()) <= v.Text()
    ensures v.chain.history == old(v.chain.history) + Layout.Content(data)
  {
    hide *;
    ghost var before := v.chain.history;
    TextAt(v);
    AnchoredParts(v);
    TextExtended(v, before, before + Layout.Content(data));
    ghost var i := AnchorIndex(v.chain, v.begin);
    ghost var j := 0;
    if v.end.Some? {
      j := AnchorIndex(v.chain, v.end.value);
    }
    var _ := v.chain.AppendData(data);
    ValidIsLinked(v.chain);
    StillAnchored(v.chain, v.begin, i);
    if v.end.Some? {
      StillAnchored(v.chain, v.end.value, j);
    }
    AnchoredIsValid(v);
    TextAt(v);
  }

  lemma ValidIsLinked(chain: Chain)
    requires chain.Valid()
    ensures chain.Linked() && |chain.nodes| == |chain.pieces|
  {
  }

  /** Searches forward from offset `at`; the result's place is counted from the view's begin. */
  method FindFrom(v: View, needle: seq<byte>, at: nat) returns (r: Result<(bool, nat), Error>)
    requires v.Valid() && v.begin.offset <= at <= v.Limit()
    ensures r == Searched(v, needle, at)
  {
    hide *;
    StartInside(v, at);
    var i := new UnsafeConstIterator(v.chain, Position(at, null));
    InsideAt(v, i);
    var found := FindForward(v, needle, i);
    match found
    case Ok(b) => return Ok((b, i.offset - v.begin.offset));
    case Err(e) => return Err(e);
  }

  lemma StartInside(v: View, at: nat)
    requires v.Valid() && v.begin.offset <= at <= v.Limit()
    ensures Current(v.chain, Position(at, null)) && v.chain.Valid() && v.chain.state != Invalid
    ensures at - v.begin.offset <= |v.Text()|
  {
  }

  lemma InsideAt(v: View, i: UnsafeConstIterator)
    requires v.Valid() && i.chain == v.chain && i.Synced() && v.begin.offset <= i.offset <= v.Limit()
    ensures v.Inside(i)
  {
  }

  /** The text ahead as appending continues it, where there was no gap before: from the view's begin, and from a later
      place in the text that there was. */
  lemma AheadExtended(v: View, before: seq<Option<byte>>, k: nat)
    requires before <= v.chain.history && NoGaps(before, v.begin.offset, LimitAt(v, before))
    requires k <= LimitAt(v, before) - v.begin.offset && v.begin.offset <= LimitAt(v, before)
    ensures v.begin.offset + k <= v.Limit()
    ensures TextOf(before, v.begin.offset, LimitAt(v, before)) <= Ahead(v, v.begin.offset)
    ensures Ahead(v, v.begin.offset + k) == Ahead(v, v.begin.offset)
  {
    var lo, mid, hi, after := v.begin.offset, LimitAt(v, before), v.Limit(), v.chain.history;
    TextExtended(v, before, after);
    DataEndFrom(after, lo, lo + k, hi);
    DataEndFrom(after, lo, mid, hi);
  }

  lemma DataEndFrom(history: seq<Option<byte>>, lo: nat, mid: nat, hi: nat)
    requires lo <= mid <= hi && NoGaps(history, lo, mid)
    ensures DataEnd(history, lo, hi) == DataEnd(history, mid, hi)
  {
  }

  /** A search that found nothing has seen all of the text. */
  lemma NotFoundIsAll(v: View, needle: seq<byte>)
    requires v.begin.offset <= v.Limit()
    requires var s := Searched(v, needle, v.begin.offset); s.Ok? && !s.value.0
    ensures v.GapFree() && Searched(v, needle, v.begin.offset) == Ok(Found(v.Text(), needle, 0))
  {
    assert |Ahead(v, v.begin.offset)| == |v.Text()|;
  }

  /** After more data or a gap has arrived, searching on in the view from where an unsuccessful search ended gives the
      same as searching again from the view's begin, or fails just as that does. */
  method SearchOn(v: View, needle: seq<byte>, data: Layout.Payload)
      returns (first: Result<(bool, nat), Error>, onward: Result<(bool, nat), Error>,
               again: Result<(bool, nat), Error>)
    requires AnchoredView(v) && v.chain.state == Mutable
    modifies v.chain, v.chain.tail
    ensures v.begin.offset <= old(v.Limit()) && v.begin.offset <= v.Limit()
    ensures first == old(Searched(v, needle, v.begin.offset)) && again == Searched(v, needle, v.begin.offset)
    ensures first.Ok? && !first.value.0 ==>
              && v.begin.offset + first.value.1 <= v.Limit()
              && onward == Searched(v, needle, v.begin.offset + first.value.1) == again
  {
    hide *;
    ghost var text, lo, before := v.Text(), v.begin.offset, v.chain.history;
    AnchoredParts(v);
    TextAt(v);
    first := FindFrom(v, needle, v.begin.offset);
    if first.Ok? && !first.value.0 {
      NotFoundIsAll(v, needle);
    }
    AppendUnderView(v, data);
    AnchoredParts(v);
    TextAt(v);
    again := FindFrom(v, needle, v.begin.offset);
    onward := again;
    if first.Ok? && !first.value.0 {
      FoundWithin(text, needle);
      AheadExtended(v, before, first.value.1);
      ghost var hay := Ahead(v, lo);
      assert hay == text + hay[|text|..];
      SearchGoesOn(text, hay[|text|..], needle, 0);
      SearchedIs(v, needle, lo);
      SearchedIs(v, needle, lo + first.value.1);
      onward := FindFrom(v, needle, v.begin.offset + first.value.1);
    }
  }

  lemma FoundWithin(hay: seq<byte>, needle: seq<byte>)
    ensures Found(hay, needle, 0).1 <= |hay|
  {
  }
}
