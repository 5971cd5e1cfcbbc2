/** How a stream's chunks lie one after another, and what they make of the stream's history. */
module Layout {
  import opened Basics

  /** Content of a chunk: bytes, or a gap that stands for missing data. */
  datatype Payload = Bytes(bytes: seq<byte>) | Gap(len: nat)

  /** A chunk as a value. */
  datatype Piece = Piece(offset: nat, payload: Payload)

  function Len(p: Payload): nat {
    if p.Bytes? then |p.bytes| else p.len
  }

  function End(p: Piece): nat {
    p.offset + Len(p.payload)
  }

  predicate Holds(p: Piece, o: nat) {
    p.offset <= o < End(p)
  }

  /** One entry per sequence position; None where data is missing. */
  function Content(p: Payload): (c: seq<Option<byte>>)
    ensures |c| == Len(p)
  {
    if p.Bytes? then seq(|p.bytes|, i requires 0 <= i < |p.bytes| => Some(p.bytes[i])) else seq(p.len, i => None)
  }

  function Contents(ps: seq<Piece>): seq<Option<byte>> {
    if |ps| == 0 then [] else Content(ps[0].payload) + Contents(ps[1..])
  }

  /** Non-empty pieces that follow each other without a break, from offset `o` on. */
  ghost predicate Contiguous(ps: seq<Piece>, o: nat) {
    |ps| == 0 || (ps[0].offset == o && Len(ps[0].payload) > 0 && Contiguous(ps[1..], End(ps[0])))
  }

  /** The pieces are what remains of the stream's history once everything before `head` is gone. */
  ghost predicate Laid(ps: seq<Piece>, head: nat, history: seq<Option<byte>>) {
    head <= |history| && Contiguous(ps, head) && Contents(ps) == history[head..]
  }

  /** Where the next piece would begin. */
  function EndOf(ps: seq<Piece>, head: nat): nat {
    if |ps| == 0 then head else End(ps[|ps| - 1])
  }

  // ---------------------------------------------------------------- offsets

  lemma {:induction false} ContiguousFrom(ps: seq<Piece>, o: nat, i: nat)
    requires Contiguous(ps, o) && i <= |ps|
    ensures Contiguous(ps[i..], if i == 0 then o else End(ps[i - 1]))
    ensures i > 0 ==> o < End(ps[i - 1])
    ensures i < |ps| ==> o <= ps[i].offset == (if i == 0 then o else End(ps[i - 1])) && Len(ps[i].payload) > 0
  {
    if i > 0 {
      ContiguousFrom(ps[1..], End(ps[0]), i - 1);
      assert ps[1..][i - 1..] == ps[i..];
    }
  }

  /** Pieces lie in order. */
  lemma Apart(ps: seq<Piece>, o: nat, i: nat, j: nat)
    requires Contiguous(ps, o) && i < j < |ps|
    ensures End(ps[i]) <= ps[j].offset
  {
    ContiguousFrom(ps, o, i + 1);
    ContiguousFrom(ps[i + 1..], End(ps[i]), j - i - 1);
  }

  lemma {:induction false} ContentsLength(ps: seq<Piece>, o: nat)
    requires Contiguous(ps, o)
    ensures o + |Contents(ps)| == EndOf(ps, o)
  {
    if |ps| > 0 {
      ContentsLength(ps[1..], End(ps[0]));
    }
  }

  /** The stream ends where its history ends. */
  lemma LaidEnds(ps: seq<Piece>, head: nat, history: seq<Option<byte>>)
    requires Laid(ps, head, history)
    ensures EndOf(ps, head) == |history|
  {
    ContentsLength(ps, head);
  }

  /** The entry of a piece at offset `o`. */
  function ByteAt(p: Piece, o: nat): Option<byte>
    requires Holds(p, o)
  {
    Content(p.payload)[o - p.offset]
  }

  /** Each piece holds the history of its own offsets. */
  lemma {:induction false} PieceIsHistory(ps: seq<Piece>, head: nat, history: seq<Option<byte>>, i: nat, o: nat)
    requires Laid(ps, head, history) && i < |ps| && Holds(ps[i], o)
    ensures o < |history| && ByteAt(ps[i], o) == history[o]
  {
    if i == 0 {
      assert Contents(ps)[o - head] == Content(ps[0].payload)[o - head];
    } else {
      LaidTail(ps, head, history);
      PieceIsHistory(ps[1..], End(ps[0]), history, i - 1, o);
    }
  }

  /** A piece's content is the stretch of history that it spans. */
  lemma {:induction false} PieceSpansHistory(ps: seq<Piece>, head: nat, history: seq<Option<byte>>, i: nat)
    requires Laid(ps, head, history) && i < |ps|
    ensures head <= ps[i].offset < End(ps[i]) <= |history|
    ensures Content(ps[i].payload) == history[ps[i].offset..End(ps[i])]
    ensures if i + 1 < |ps| then ps[i + 1].offset == End(ps[i]) < |history| && Holds(ps[i + 1], End(ps[i]))
            else End(ps[i]) == |history|
  {
    LaidTail(ps, head, history);
    LaidEnds(ps, head, history);
    if i == 0 {
      assert Content(ps[0].payload) == Contents(ps)[..Len(ps[0].payload)];
      if |ps| > 1 {
        LaidEnds(ps[1..], End(ps[0]), history);
        LaidTail(ps[1..], End(ps[0]), history);
      }
    } else {
      PieceSpansHistory(ps[1..], End(ps[0]), history, i - 1);
    }
  }

  lemma LaidTail(ps: seq<Piece>, head: nat, history: seq<Option<byte>>)
    requires Laid(ps, head, history) && |ps| > 0
    ensures Laid(ps[1..], End(ps[0]), history)
  {
    var n := Len(ps[0].payload);
    assert Contents(ps[1..]) == Contents(ps)[n..];
    assert history[head..][n..] == history[head + n..];
  }

  // ---------------------------------------------------------------- finding a piece

  /** The index of the piece that holds offset `o`; `|ps|` if there is none. */
  function Find(ps: seq<Piece>, o: nat): (i: nat)
    ensures i <= |ps| && (i < |ps| ==> Holds(ps[i], o))
  {
    if |ps| == 0 || Holds(ps[0], o) then 0 else 1 + Find(ps[1..], o)
  }

  /** Some piece holds `o` exactly if `o` lies between head and end; and no other piece does. */
  lemma {:induction false} FindExact(ps: seq<Piece>, head: nat, o: nat)
    requires Contiguous(ps, head)
    ensures Find(ps, o) < |ps| <==> head <= o < EndOf(ps, head)
    ensures forall j :: 0 <= j < |ps| && Holds(ps[j], o) ==> j == Find(ps, o)
  {
    if |ps| > 0 {
      FindExact(ps[1..], End(ps[0]), o);
      ContentsLength(ps[1..], End(ps[0]));
      forall j | 0 < j < |ps|
        ensures ps[j] == ps[1..][j - 1] && End(ps[0]) <= ps[j].offset
      {
        Apart(ps, head, 0, j);
      }
    }
  }

  // ---------------------------------------------------------------- appending

  lemma {:induction false} ContiguousAppend(ps: seq<Piece>, o: nat, p: Piece)
    requires Contiguous(ps, o) && p.offset == EndOf(ps, o) && Len(p.payload) > 0
    ensures Contiguous(ps + [p], o)
    ensures Contents(ps + [p]) == Contents(ps) + Content(p.payload)
  {
    if |ps| == 0 {
      assert ps + [p] == [p] && [p][1..] == [];
    } else {
      ContiguousAppend(ps[1..], End(ps[0]), p);
      assert (ps + [p])[1..] == ps[1..] + [p];
    }
  }

  /** Appending a piece at the end appends its content to the history. */
  lemma LaidAppend(ps: seq<Piece>, head: nat, history: seq<Option<byte>>, p: Piece)
    requires Laid(ps, head, history) && p.offset == EndOf(ps, head) && Len(p.payload) > 0
    ensures Laid(ps + [p], head, history + Content(p.payload))
  {
    ContiguousAppend(ps, head, p);
    assert (history + Content(p.payload))[head..] == history[head..] + Content(p.payload);
  }

  // ---------------------------------------------------------------- trimming

  /** A chunk cut at `o`; a gap keeps its length. */
  function Cut(p: Piece, o: nat): Piece
    requires Holds(p, o)
  {
    Piece(o, if p.payload.Bytes? then Bytes(p.payload.bytes[o - p.offset..]) else p.payload)
  }

  /** Drops pieces that end at `o` or before and cuts the one that holds `o`. */
  function Trimmed(ps: seq<Piece>, o: nat): seq<Piece> {
    if |ps| == 0 then ps
    else if End(ps[0]) <= o then Trimmed(ps[1..], o)
    else if Holds(ps[0], o) then [Cut(ps[0], o)] + ps[1..]
    else ps
  }

  /** The trim point lies inside a gap, past its beginning. */
  ghost predicate InsideGap(ps: seq<Piece>, o: nat) {
    var i := Find(ps, o);
    i < |ps| && ps[i].payload.Gap? && ps[i].offset < o
  }

  lemma CutGap(ps: seq<Piece>, head: nat, history: seq<Option<byte>>, o: nat)
    requires Laid(ps, head, history) && |ps| > 0 && ps[0].payload.Gap? && head < o < End(ps[0])
    ensures !Laid([Cut(ps[0], o)] + ps[1..], o, history)
  {
    var cut := [Cut(ps[0], o)] + ps[1..];
    assert cut[1..] == ps[1..];
    assert |Contents(cut)| == |Contents(ps)| > |history[o..]|;
  }

  lemma CutContents(p: Piece, o: nat)
    requires Holds(p, o) && (p.payload.Gap? ==> o == p.offset)
    ensures Content(Cut(p, o).payload) == Content(p.payload)[o - p.offset..] && End(Cut(p, o)) == End(p)
  {
  }

  lemma CutBytes(ps: seq<Piece>, head: nat, history: seq<Option<byte>>, o: nat)
    requires Laid(ps, head, history) && |ps| > 0 && Holds(ps[0], o) && (ps[0].payload.Gap? ==> o == head)
    ensures Laid([Cut(ps[0], o)] + ps[1..], o, history)
  {
    var p, n := Cut(ps[0], o), o - head;
    var cut := [p] + ps[1..];
    assert cut[1..] == ps[1..];
    CutContents(ps[0], o);
    assert Contents(cut) == Contents(ps)[n..];
    assert history[head..][n..] == history[o..];
  }

  /** Trimming to a point of the stream forgets what comes before it and nothing else, exactly if the
      point does not lie inside a gap: a gap cut there keeps its length, and shifts all that follows. */
  lemma {:induction false} TrimExact(ps: seq<Piece>, head: nat, history: seq<Option<byte>>, o: nat)
    requires Laid(ps, head, history) && head <= o <= |history|
    ensures Laid(Trimmed(ps, o), o, history) <==> !InsideGap(ps, o)
  {
    LaidEnds(ps, head, history);
    if |ps| == 0 {
    } else if Holds(ps[0], o) {
      if InsideGap(ps, o) {
        CutGap(ps, head, history, o);
      } else {
        CutBytes(ps, head, history, o);
      }
    } else {
      LaidTail(ps, head, history);
      TrimExact(ps[1..], End(ps[0]), history, o);
    }
  }

  /** A gap of two bytes and a byte behind it, trimmed to the middle of the gap: the gap now reaches over the byte,
      which cannot be found any more. */
  lemma GapHidesByte(x: byte)
    ensures var ps, history := [Piece(0, Gap(2)), Piece(2, Bytes([x]))], [None, None, Some(x)];
            && Laid(ps, 0, history) && Find(ps, 2) == 1 && InsideGap(ps, 1)
            && !Laid(Trimmed(ps, 1), 1, history) && Find(Trimmed(ps, 1), 2) == 0 && Trimmed(ps, 1)[0].payload.Gap?
  {
    var ps, history := [Piece(0, Gap(2)), Piece(2, Bytes([x]))], [None, None, Some(x)];
    assert ps[1..] == [Piece(2, Bytes([x]))] && ps[1..][1..] == [];
    assert Contents(ps[1..]) == [Some(x)] + Contents([]) == [Some(x)];
    assert Contents(ps) == [None, None] + Contents(ps[1..]) == history[0..];
    assert Find(ps[1..], 2) == 0;
    TrimExact(ps, 0, history, 1);
  }

  /** A trim point past the end of the stream makes the stream skip ahead of its history. */
  lemma {:induction false} TrimBeyond(ps: seq<Piece>, head: nat, o: nat)
    requires Contiguous(ps, head) && EndOf(ps, head) <= o
    ensures |Trimmed(ps, o)| == 0
  {
    if |ps| > 0 {
      ContentsLength(ps, head);
      ContentsLength(ps[1..], End(ps[0]));
      TrimBeyond(ps[1..], End(ps[0]), o);
    }
  }

  /** Where a stream can be trimmed to without spoiling its layout. */
  ghost predicate TrimPoint(ps: seq<Piece>, history: seq<Option<byte>>, o: nat) {
    if |ps| == 0 then o == |history| else o <= |history| && !InsideGap(ps, o)
  }

  /** The layout is right after trimming if and only if the trim point was; without pieces, that is only the end. */
  lemma TrimPointExactly(ps: seq<Piece>, head: nat, history: seq<Option<byte>>, o: nat)
    requires Laid(ps, head, history) && (|ps| == 0 || head <= o)
    ensures Laid(Trimmed(ps, o), o, history) <==> TrimPoint(ps, history, o)
  {
    LaidEnds(ps, head, history);
    if o > |history| {
      TrimBeyond(ps, head, o);
    } else if |ps| > 0 {
      TrimExact(ps, head, history, o);
    }
  }

  // ---------------------------------------------------------------- the loop that trims

  /** One pass: the pieces afterwards, and whether the loop breaks. A piece that begins after `o` stays as it is. */
  function Pass(ps: seq<Piece>, o: nat): (seq<Piece>, bool)
    requires |ps| > 0
  {
    if End(ps[0]) <= o then (ps[1..], false)
    else if Holds(ps[0], o) then ([Cut(ps[0], o)] + ps[1..], true)
    else (ps, false)
  }

  /** At most `n` passes: the pieces afterwards, and whether the loop has ended. */
  function Passes(ps: seq<Piece>, o: nat, n: nat): (seq<Piece>, bool)
    decreases n
  {
    if |ps| == 0 then (ps, true)
    else if n == 0 then (ps, false)
    else if Pass(ps, o).1 then Pass(ps, o)
    else Passes(Pass(ps, o).0, o, n - 1)
  }

  /** Before the head, every pass leaves everything as it is. */
  lemma {:induction false} StuckBeforeHead(ps: seq<Piece>, head: nat, o: nat, n: nat)
    requires Contiguous(ps, head) && |ps| > 0 && o < head
    ensures Passes(ps, o, n) == (ps, false)
  {
    if n > 0 {
      StuckBeforeHead(ps, head, o, n - 1);
    }
  }

  lemma {:induction false} PassesTrim(ps: seq<Piece>, head: nat, o: nat)
    requires Contiguous(ps, head) && head <= o
    ensures Passes(ps, o, |ps|) == (Trimmed(ps, o), true)
  {
    if |ps| > 0 && End(ps[0]) <= o {
      PassesTrim(ps[1..], End(ps[0]), o);
    }
  }

  /** The loop ends if and only if there are no pieces or the trim point does not lie before the first. */
  lemma TrimEndsExactly(ps: seq<Piece>, head: nat, o: nat)
    requires Contiguous(ps, head)
    ensures (exists n: nat :: Passes(ps, o, n).1) <==> |ps| == 0 || head <= o
  {
    if |ps| == 0 {
      assert Passes(ps, o, 0).1;
    } else if head <= o {
      PassesTrim(ps, head, o);
    } else if n: nat :| Passes(ps, o, n).1 {
      StuckBeforeHead(ps, head, o, n);
    }
  }

  /** How many pieces `Trimmed` drops: exactly those that end at `o` or before. */
  function Dropped(ps: seq<Piece>, o: nat): (k: nat)
    ensures k <= |ps|
  {
    if |ps| > 0 && End(ps[0]) <= o then 1 + Dropped(ps[1..], o) else 0
  }

  lemma {:induction false} DroppedExact(ps: seq<Piece>, at: nat, o: nat, i: nat)
    requires Contiguous(ps, at) && i < |ps|
    ensures i < Dropped(ps, o) <==> End(ps[i]) <= o
  {
    if End(ps[0]) > o {
      if i > 0 {
        Apart(ps, at, 0, i);
      }
    } else if i > 0 {
      DroppedExact(ps[1..], End(ps[0]), o, i - 1);
    }
  }

  lemma {:induction false} TrimmedLength(ps: seq<Piece>, at: nat, o: nat)
    requires Contiguous(ps, at) && at <= o
    ensures |Trimmed(ps, o)| == |ps| - Dropped(ps, o)
  {
    if |ps| > 0 && End(ps[0]) <= o {
      TrimmedLength(ps[1..], End(ps[0]), o);
    }
  }

  /** The end of a piece that survives trimming does not move, unless it is a gap cut inside. */
  lemma {:induction false} TrimmedEnd(ps: seq<Piece>, at: nat, o: nat, i: nat)
    requires Contiguous(ps, at) && Dropped(ps, o) <= i < |ps| && !InsideGap(ps, o)
    ensures |Trimmed(ps, o)| == |ps| - Dropped(ps, o)
    ensures End(Trimmed(ps, o)[i - Dropped(ps, o)]) == End(ps[i])
  {
    if End(ps[0]) <= o {
      TrimmedEnd(ps[1..], End(ps[0]), o, i - 1);
    }
  }

  /** A piece that begins at `o` or before does not come after the one that holds `o`. */
  lemma HintBefore(ps: seq<Piece>, at: nat, o: nat, k: nat)
    requires Contiguous(ps, at) && k < |ps| && ps[k].offset <= o
    ensures k <= Find(ps, o)
  {
    var f := Find(ps, o);
    if f < k {
      Apart(ps, at, f, k);
    }
  }

  lemma {:induction false} ContentsSnoc(ps: seq<Piece>, i: nat)
    requires i < |ps|
    ensures Contents(ps[..i + 1]) == Contents(ps[..i]) + Content(ps[i].payload)
  {
    if i == 0 {
      assert ps[..1][1..] == [];
    } else {
      ContentsSnoc(ps[1..], i - 1);
      assert ps[..i + 1][1..] == ps[1..][..i] && ps[..i][1..] == ps[1..][..i - 1];
    }
  }
}
