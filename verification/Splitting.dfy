/** Splitting strings at a delimiter and joining them again. */
module Splitting {
  import opened Basics

  predicate EndsWith(s: string, d: string) {
    |d| <= |s| && s[|s| - |d|..] == d
  }

  predicate OccursAt(s: string, d: string, p: nat) {
    p + |d| <= |s| && s[p..p + |d|] == d
  }

  ghost predicate Contains(s: string, d: string) {
    exists p :: OccursAt(s, d, p)
  }

  /** Where `d` first occurs in `s`. */
  function Find(s: string, d: string): (r: Option<nat>)
    ensures r.None? ==> !Contains(s, d)
    ensures r.Some? ==> OccursAt(s, d, r.value) && forall q | 0 <= q < r.value :: !OccursAt(s, d, q)
  {
    FindFrom(s, d, 0)
  }

  function FindFrom(s: string, d: string, from: nat): (r: Option<nat>)
    requires from <= |s| && forall q | 0 <= q < from :: !OccursAt(s, d, q)
    ensures r.None? ==> forall q: nat :: !OccursAt(s, d, q)
    ensures r.Some? ==> OccursAt(s, d, r.value) && forall q | 0 <= q < r.value :: !OccursAt(s, d, q)
    decreases |s| - from
  {
    if OccursAt(s, d, from) then Some(from)
    else if from == |s| then None
    else FindFrom(s, d, from + 1)
  }

  /** The parts of `s` before each delimiter, and what is left after the last one unless that is empty. */
  function Pieces(s: string, d: string): (l: seq<string>)
    requires |d| > 0
    ensures |l| > 0
  {
    match Find(s, d)
    case None => [s]
    case Some(p) =>
      var rest := s[p + |d|..];
      [s[..p]] + if rest == "" then [] else Pieces(rest, d)
  }

  function Splits(s: string, d: string): (l: seq<string>)
    ensures |l| > 0
  {
    if d == "" || |s| < |d| then [s]
    else Pieces(s, d) + if EndsWith(s, d) then [""] else []
  }

  lemma PiecesStep(s: string, d: string)
    requires |d| > 0
    ensures Find(s, d).None? ==> Pieces(s, d) == [s]
    ensures Find(s, d).Some? ==>
              var p := Find(s, d).value;
              var rest := s[p + |d|..];
              && s == s[..p] + d + rest
              && (rest == "" ==> Pieces(s, d) == [s[..p]])
              && (rest != "" ==> Pieces(s, d) == [s[..p]] + Pieces(rest, d))
  {
    if Find(s, d).Some? {
      var p := Find(s, d).value;
      assert s == s[..p] + s[p..p + |d|] + s[p + |d|..];
    }
  }

  lemma Regroup(l: seq<string>, x: string, m: seq<string>)
    ensures l + ([x] + m) == l + [x] + m
  {
  }

  method Split(s0: string, delim: string) returns (l: seq<string>)
    ensures l == Splits(s0, delim)
  {
    var s := s0;
    if delim == "" {
      return [s];
    }
    if |s| < |delim| {
      return [s];
    }
    l := [];
    var endsInDelim := s[|s| - |delim|..] == delim;
    hide Pieces, Contains, OccursAt, FindFrom;
    while true
      invariant Pieces(s0, delim) == l + Pieces(s, delim)
      decreases |s|
    {
      PiecesStep(s, delim);
      var p := Find(s, delim);
      if p == None {
        l := l + [s];
        break;
      }
      Regroup(l, s[..p.value], Pieces(s[p.value + |delim|..], delim));
      l := l + [s[..p.value]];
      s := s[p.value + |delim|..];
      if s == "" {
        break;
      }
    }
    if endsInDelim {
      l := l + [""];
    }
  }

  function Joined(l: seq<string>, d: string): string {
    if |l| == 0 then ""
    else if |l| == 1 then l[0]
    else l[0] + d + Joined(l[1..], d)
  }

  lemma {:induction false} JoinedSnoc(l: seq<string>, x: string, d: string)
    requires |l| > 0
    ensures Joined(l + [x], d) == Joined(l, d) + d + x
    decreases |l|
  {
    assert (l + [x])[1..] == l[1..] + [x];
    if |l| > 1 {
      JoinedSnoc(l[1..], x, d);
      assert l[0] + d + (Joined(l[1..], d) + d + x) == (l[0] + d + Joined(l[1..], d)) + d + x;
    }
  }

  method Join(l: seq<string>, delim: string) returns (result: string)
    ensures result == Joined(l, delim)
  {
    result := "";
    var first := true;
    for i := 0 to |l|
      invariant first <==> i == 0
      invariant result == Joined(l[..i], delim)
    {
      assert l[..i + 1] == l[..i] + [l[i]];
      if i > 0 {
        JoinedSnoc(l[..i], l[i], delim);
      }
      if !first {
        result := result + delim;
      }
      result := result + l[i];
      first := false;
    }
    assert l[..|l|] == l;
  }

  // ---------------------------------------------------------------- joining what was split

  /** The scan for delimiters ends exactly at the end of `s`. */
  predicate ScansToEnd(s: string, d: string)
    requires |d| > 0
  {
    match Find(s, d)
    case None => false
    case Some(p) => s[p + |d|..] == "" || ScansToEnd(s[p + |d|..], d)
  }

  lemma EndsLater(x: string, rest: string, d: string)
    requires EndsWith(rest, d)
    ensures EndsWith(x + rest, d)
  {
    assert (x + rest)[|x + rest| - |d|..] == rest[|rest| - |d|..];
  }

  lemma JoinedFirst(x: string, l: seq<string>, d: string, rest: string)
    requires |l| > 0
    ensures Joined(l, d) == rest ==> Joined([x] + l, d) == x + d + rest
    ensures Joined(l, d) + d == rest ==> Joined([x] + l, d) + d == x + d + rest
  {
    assert ([x] + l)[1..] == l;
    assert x + d + Joined(l, d) + d == x + d + (Joined(l, d) + d);
  }

  lemma {:induction false} JoinedPieces(s: string, d: string)
    requires |d| > 0
    ensures ScansToEnd(s, d) ==> Joined(Pieces(s, d), d) + d == s && EndsWith(s, d)
    ensures !ScansToEnd(s, d) ==> Joined(Pieces(s, d), d) == s
    decreases |s|
  {
    hide Pieces, Contains, FindFrom;
    PiecesStep(s, d);
    var p := Find(s, d);
    if p.Some? {
      var x, rest := s[..p.value], s[p.value + |d|..];
      if rest != "" {
        JoinedPieces(rest, d);
        hide *;
        JoinedFirst(x, Pieces(rest, d), d, rest);
        if EndsWith(rest, d) {
          EndsLater(x + d, rest, d);
        }
      }
    }
  }

  /** Joining reverts splitting unless the string ends in a delimiter that overlaps one found before; then it
      adds a delimiter. */
  lemma JoinSplitExactly(s: string, d: string)
    ensures Joined(Splits(s, d), d)
            == if |d| > 0 && EndsWith(s, d) && !ScansToEnd(s, d) then s + d else s
  {
    if |d| > 0 && |s| >= |d| {
      JoinedPieces(s, d);
      if EndsWith(s, d) {
        JoinedSnoc(Pieces(s, d), "", d);
      }
      assert Pieces(s, d) + [] == Pieces(s, d);
    }
  }

  /** `d` begins and ends with the same `k` characters. */
  predicate Border(d: string, k: nat) {
    0 < k < |d| && d[..k] == d[|d| - k..]
  }

  /** `d` cannot overlap itself. */
  ghost predicate Unbordered(d: string) {
    forall k :: !Border(d, k)
  }

  lemma OverlapIsBorder(s: string, d: string, p: nat, q: nat)
    requires OccursAt(s, d, p) && OccursAt(s, d, q) && p < q < p + |d|
    ensures Border(d, p + |d| - q)
  {
    var k := p + |d| - q;
    assert d[..k] == s[q..q + |d|][..k] == s[q..p + |d|];
    assert d[|d| - k..] == s[p..p + |d|][|d| - k..] == s[q..p + |d|];
  }

  lemma {:induction false} UnborderedScans(s: string, d: string)
    requires |d| > 0 && Unbordered(d) && EndsWith(s, d)
    ensures ScansToEnd(s, d)
    decreases |s|
  {
    var q := |s| - |d|;
    assert s[q..q + |d|] == s[q..];
    assert OccursAt(s, d, q);
    var p := Find(s, d).value;
    if p < q {
      if q < p + |d| {
        OverlapIsBorder(s, d, p, q);
        assert false;
      }
      var rest := s[p + |d|..];
      assert rest[|rest| - |d|..] == s[q..];
      UnborderedScans(rest, d);
    }
  }

  lemma BorderOverlaps(d: string, k: nat)
    requires Border(d, k)
    ensures EndsWith(d + d[k..], d) && OccursAt(d + d[k..], d, 0) && (d + d[k..])[|d|..] == d[k..]
  {
    var s := d + d[k..];
    assert s[|s| - |d|..] == d[|d| - k..] + d[k..];
    assert d[..k] + d[k..] == d;
  }

  /** A border gives a string that is not restored. */
  lemma BorderBreaks(d: string, k: nat)
    requires Border(d, k)
    ensures var s := d + d[k..];
            EndsWith(s, d) && !ScansToEnd(s, d) && Joined(Splits(s, d), d) == s + d
  {
    var s := d + d[k..];
    BorderOverlaps(d, k);
    JoinSplitExactly(s, d);
    assert Find(s, d) == Some(0);
    assert Find(d[k..], d).None?;
    hide Joined, Splits, OccursAt, EndsWith, Find;
  }

  /** Joining reverts splitting for all strings exactly when the delimiter cannot overlap itself. */
  lemma JoinRevertsSplitExactly(d: string)
    ensures (forall s :: Joined(Splits(s, d), d) == s) <==> Unbordered(d)
  {
    if Unbordered(d) {
      forall s
        ensures Joined(Splits(s, d), d) == s
      {
        JoinSplitExactly(s, d);
        if |d| > 0 && EndsWith(s, d) {
          UnborderedScans(s, d);
        }
      }
    } else {
      var k :| Border(d, k);
      BorderBreaks(d, k);
    }
  }

  // ---------------------------------------------------------------- splitting what was joined

  ghost predicate FreeOf(l: seq<string>, d: string) {
    forall i :: 0 <= i < |l| ==> !Contains(l[i], d)
  }

  lemma PrefixIsFree(s: string, d: string, p: nat)
    requires OccursAt(s, d, p) && |d| > 0 && forall q | 0 <= q < p :: !OccursAt(s, d, q)
    ensures !Contains(s[..p], d)
  {
    if q: nat :| OccursAt(s[..p], d, q) {
      assert s[..p][q..q + |d|] == s[q..q + |d|];
      assert OccursAt(s, d, q);
    }
  }

  lemma {:induction false} PiecesAreFree(s: string, d: string)
    requires |d| > 0
    ensures FreeOf(Pieces(s, d), d)
    decreases |s|
  {
    var p := Find(s, d);
    if p.Some? {
      PrefixIsFree(s, d, p.value);
      if s[p.value + |d|..] != "" {
        PiecesAreFree(s[p.value + |d|..], d);
      }
    }
  }

  /** No piece contains the delimiter. */
  lemma SplitsAreFree(s: string, d: string)
    requires |d| > 0
    ensures FreeOf(Splits(s, d), d)
  {
    PiecesAreFree(s, d);
  }

  lemma OccursInFront(w: string, x: string, d: string, p: nat)
    requires OccursAt(w + x, d, p) && p + |d| <= |w|
    ensures Contains(w, d)
  {
    assert w[p..p + |d|] == (w + x)[p..p + |d|];
    assert OccursAt(w, d, p);
  }

  lemma EndOccurs(s: string, d: string)
    requires EndsWith(s, d)
    ensures Contains(s, d)
  {
    assert OccursAt(s, d, |s| - |d|);
  }

  /** The first delimiter after a piece free of it is the one put there. */
  lemma FindAfterPiece(w: string, d: string, t: string)
    requires |d| > 0 && Unbordered(d) && !Contains(w, d)
    ensures Find(w + d + t, d) == Some(|w|)
  {
    var s := w + d + t;
    assert s == w + (d + t);
    assert OccursAt(s, d, |w|);
    var p := Find(s, d).value;
    if p < |w| {
      if p + |d| <= |w| {
        OccursInFront(w, d + t, d, p);
      } else {
        OverlapIsBorder(s, d, p, |w|);
      }
    }
  }

  /** A string that ends in a delimiter right behind another one ends there or in the rest. */
  lemma EndsInRest(w: string, d: string, t: string)
    requires |d| > 0 && Unbordered(d) && t != ""
    ensures EndsWith(w + d + t, d) <==> EndsWith(t, d)
  {
    var s := w + d + t;
    if |t| >= |d| {
      assert s[|s| - |d|..] == t[|t| - |d|..];
    } else if EndsWith(s, d) {
      var q := |s| - |d|;
      assert s[q..q + |d|] == s[q..];
      assert OccursAt(s, d, |w|) && OccursAt(s, d, q);
      OverlapIsBorder(s, d, |w|, q);
    }
  }

  lemma SplitFirst(w: string, d: string, t: string)
    requires |d| > 0 && Unbordered(d) && !Contains(w, d)
    ensures Splits(w + d + t, d) == [w] + Splits(t, d)
  {
    var s := w + d + t;
    FindAfterPiece(w, d, t);
    assert s[|w| + |d|..] == t && s[..|w|] == w;
    if t == "" {
      assert s[|s| - |d|..] == d;
    } else {
      EndsInRest(w, d, t);
      if |t| < |d| {
        assert Find(t, d).None?;
        assert Pieces(t, d) == [t];
      }
    }
  }

  /** Splitting reverts joining: with a delimiter that cannot overlap itself, any pieces without it are found
      again. */
  lemma {:induction false} SplitRevertsJoin(l: seq<string>, d: string)
    requires |l| > 0 && |d| > 0 && Unbordered(d) && FreeOf(l, d)
    ensures Splits(Joined(l, d), d) == l
  {
    if |l| == 1 {
      var s := l[0];
      assert Find(s, d).None?;
      if EndsWith(s, d) {
        EndOccurs(s, d);
      }
    } else {
      SplitRevertsJoin(l[1..], d);
      SplitFirst(l[0], d, Joined(l[1..], d));
    }
  }
}
