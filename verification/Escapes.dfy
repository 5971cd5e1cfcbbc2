/** Escaping arbitrary bytes as printable text, and expanding escape sequences in place. */
module Escapes {
  import opened Basics
  import Integers

  type bytes = seq<byte>

  const BACKSLASH: byte := 92
  const QUOTE: byte := 34
  const PLUS: byte := 43
  const MINUS: byte := 45
  const LOWER_U: byte := 117
  const UPPER_U: byte := 85
  const LOWER_X: byte := 120

  lemma Characters()
    ensures BACKSLASH as int == '\\' as int && QUOTE as int == '\"' as int
    ensures PLUS as int == '+' as int && MINUS as int == '-' as int
    ensures LOWER_U as int == 'u' as int && UPPER_U as int == 'U' as int && LOWER_X as int == 'x' as int
  {
  }

  // ---------------------------------------------------------------- numbers in text

  datatype NumberError = BadBase | EmptyRange

  /** What `c` counts as in base `base`. The first test is for `'0' + base`, also when that is past '9'. */
  function Digit(c: byte, base: nat): (d: Option<nat>)
    requires 2 <= base <= 36
    ensures d.Some? ==> d.value < base
  {
    var x := c as nat;
    if 48 <= x < 48 + base then Some(x - 48)
    else if 97 <= x < 87 + base then Some(x - 87)
    else if 65 <= x < 55 + base then Some(x - 55)
    else None
  }

  /** The usual digits: 0 to 9, then letters of either case. */
  function UsualDigit(c: byte, base: nat): Option<nat>
    requires 2 <= base <= 36
  {
    var x := c as nat;
    var d := if 48 <= x <= 57 then x - 48 else if 97 <= x <= 122 then x - 87 else if 65 <= x <= 90 then x - 55 else 36;
    if d < base then Some(d) else None
  }

  /** Digits mean what they usually do, except for the characters following '9' in bases above ten. */
  lemma DigitIsUsualExactly(c: byte, base: nat)
    requires 2 <= base <= 36
    ensures Digit(c, base) == UsualDigit(c, base) <==> !(57 < c as nat < 48 + base)
  {
  }

  /** How many digits `s` begins with. */
  function DigitCount(s: bytes, base: nat): (n: nat)
    requires 2 <= base <= 36
    ensures n <= |s|
    ensures forall k :: 0 <= k < n ==> Digit(s[k], base).Some?
    ensures n < |s| ==> Digit(s[n], base).None?
  {
    if |s| == 0 || Digit(s[0], base).None? then 0 else 1 + DigitCount(s[1..], base)
  }

  predicate AllDigits(s: bytes, base: nat)
    requires 2 <= base <= 36
  {
    forall k :: 0 <= k < |s| ==> Digit(s[k], base).Some?
  }

  /** The number that a string of digits denotes. */
  function ValueOf(s: bytes, base: nat): int
    requires 2 <= base <= 36 && AllDigits(s, base)
  {
    if |s| == 0 then 0
    else Shift(ValueOf(s[..|s| - 1], base), base, Digit(s[|s| - 1], base).value)
  }

  /** 1 if `s` starts with a sign, else 0. */
  function SignLength(s: bytes): (n: nat)
    ensures n <= |s|
  {
    if |s| > 0 && (s[0] == MINUS || s[0] == PLUS) then 1 else 0
  }

  /** The signed number at the beginning of `s`, with its length, which is 0 if there is none. */
  function Atoi(s: bytes, base: nat): (r: (nat, int))
    requires 2 <= base <= 36
    ensures r.0 <= |s|
  {
    var start := SignLength(s);
    var digits := s[start..];
    var n := DigitCount(digits, base);
    if n == 0 then (0, 0)
    else
      var v := ValueOf(digits[..n], base);
      (start + n, if s[0] == MINUS then -v else v)
  }

  /** Digits end at the first byte that is none. */
  lemma {:induction false} CountIs(s: bytes, base: nat, n: nat)
    requires 2 <= base <= 36 && n <= |s|
    requires forall k :: 0 <= k < n ==> Digit(s[k], base).Some?
    requires n < |s| ==> Digit(s[n], base).None?
    ensures DigitCount(s, base) == n
  {
    if n > 0 {
      CountIs(s[1..], base, n - 1);
    }
  }

  /** Appends a digit to a number. */
  function Shift(n: int, base: nat, d: nat): int {
    n * base + d
  }

  lemma NextDigit(s: bytes, base: nat, b: byte)
    requires 2 <= base <= 36 && AllDigits(s, base) && Digit(b, base).Some?
    ensures AllDigits(s + [b], base)
    ensures ValueOf(s + [b], base) == Shift(ValueOf(s, base), base, Digit(b, base).value)
  {
    assert (s + [b])[..|s|] == s;
  }

  lemma NoDigits(s: bytes, base: nat)
    requires 2 <= base <= 36 && s == []
    ensures AllDigits(s, base) && ValueOf(s, base) == 0
  {
  }

  /** Storing a number after each digit in a variable of type `t` is the same as storing it at the end. */
  lemma WrapShift(t: Integers.IntType, n: int, base: nat, d: nat)
    ensures Integers.Wrap(t, Shift(Integers.Wrap(t, n), base, d)) == Integers.Wrap(t, Shift(n, base, d))
  {
    Integers.WrapIsModular(t, n);
    Integers.ShiftCongruent(Integers.Wrap(t, n), n, base, d, Integers.Pow256(t.width));
  }

  lemma WrapNegated(t: Integers.IntType, n: int)
    ensures Integers.Wrap(t, -Integers.Wrap(t, n)) == Integers.Wrap(t, -n)
  {
    Integers.WrapIsModular(t, n);
    Integers.ShiftCongruent(Integers.Wrap(t, n), n, -1, 0, Integers.Pow256(t.width));
  }

  lemma WrapZero(t: Integers.IntType)
    ensures Integers.Wrap(t, 0) == 0
  {
    Integers.WrapOfValue(t, 0);
  }

  /** The number found after reading the `n` digits that follow the sign. */
  lemma AtoiIs(s: bytes, base: nat, n: nat, digits: bytes)
    requires 2 <= base <= 36 && SignLength(s) + n <= |s|
    requires digits == s[SignLength(s)..SignLength(s) + n] && AllDigits(digits, base)
    requires SignLength(s) + n < |s| ==> Digit(s[SignLength(s) + n], base).None?
    ensures Atoi(s, base).0 == if n == 0 then 0 else SignLength(s) + n
    ensures n > 0 ==>
              Atoi(s, base).1 == if s[0] == MINUS then -ValueOf(digits, base) else ValueOf(digits, base)
    ensures n == 0 ==> Atoi(s, base).1 == 0
  {
    var all := s[SignLength(s)..];
    assert all[..n] == digits;
    forall k | 0 <= k < n
      ensures Digit(all[k], base).Some?
    {
      assert all[k] == digits[k];
    }
    CountIs(all, base, n);
  }

  lemma SignIs(s: bytes)
    requires |s| > 0
    ensures SignLength(s) == if s[0] == MINUS || s[0] == PLUS then 1 else 0
  {
  }

  /** Reads digits from `first` on into a variable of type `t`, which stays unset if there are none. */
  method ReadDigits(s: array<byte>, first: nat, end: nat, base: nat, t: Integers.IntType)
      returns (n: Option<int>, i: nat)
    requires first <= end <= s.Length && 2 <= base <= 36
    ensures first <= i <= end && AllDigits(s[first..i], base) && (i < end ==> Digit(s[i], base).None?)
    ensures n == if i == first then None else Some(Integers.Wrap(t, ValueOf(s[first..i], base)))
  {
    hide *;
    n, i := None, first;
    NoDigits(s[first..i], base);
    WrapZero(t);
    while i < end
      invariant first <= i <= end && AllDigits(s[first..i], base)
      invariant n == if i == first then None else Some(Integers.Wrap(t, ValueOf(s[first..i], base)))
      invariant i == first ==> ValueOf(s[first..i], base) == 0
    {
      var d := Digit(s[i], base);
      if d == None {
        break;
      }
      ghost var before := s[first..i];
      NextDigit(before, base, s[i]);
      WrapShift(t, ValueOf(before, base), base, d.value);
      assert s[first..i + 1] == before + [s[i]];
      var old_ := if n.None? then 0 else n.value;
      n := Some(Integers.Wrap(t, Shift(old_, base, d.value)));
      i := i + 1;
    }
  }

  /** Reads the number at `from`, up to `end`, into a variable of type `t`. */
  method ReadNumber(s: array<byte>, from: nat, end: nat, base: nat, t: Integers.IntType)
      returns (r: Result<(nat, int), NumberError>)
    requires from <= end <= s.Length
    ensures base < 2 || base > 36 ==> r == Err(BadBase)
    ensures 2 <= base <= 36 && from == end ==> r == Err(EmptyRange)
    ensures 2 <= base <= 36 && from < end ==>
              r == Ok((from + Atoi(s[from..end], base).0, Integers.Wrap(t, Atoi(s[from..end], base).1)))
  {
    hide *;
    if base < 2 || base > 36 {
      return Err(BadBase);
    }
    if from == end {
      return Err(EmptyRange);
    }
    ghost var text := s[from..end];
    SignIs(text);
    var neg := s[from] == MINUS;
    var first := if s[from] == MINUS || s[from] == PLUS then from + 1 else from;
    var n, i := ReadDigits(s, first, end, base, t);
    assert text[first - from..i - from] == s[first..i];
    AtoiIs(text, base, i - first, s[first..i]);
    WrapZero(t);
    WrapNegated(t, ValueOf(s[first..i], base));
    if n.None? {
      return Ok((from, 0));
    }
    return Ok((i, if neg then Integers.Wrap(t, -n.value) else n.value));
  }

  // ---------------------------------------------------------------- escaping

  /** The characters that `isprint` accepts in the "C" locale. */
  predicate Printable(b: byte) {
    32 <= b <= 126
  }

  function HexDigit(n: nat): byte
    requires n < 16
  {
    if n < 10 then (48 + n) as byte else (87 + n) as byte
  }

  function EscapeByte(b: byte, quotes: bool, octal: bool): bytes {
    if b == BACKSLASH then [BACKSLASH, BACKSLASH]
    else if b == QUOTE && quotes then [BACKSLASH, QUOTE]
    else if Printable(b) then [b]
    else if octal then [BACKSLASH, 48 + b / 64, 48 + b / 8 % 8, 48 + b % 8]
    else [BACKSLASH, LOWER_X, HexDigit(b as nat / 16), HexDigit(b as nat % 16)]
  }

  function Escape(s: bytes, quotes: bool, octal: bool): bytes {
    if |s| == 0 then [] else EscapeByte(s[0], quotes, octal) + Escape(s[1..], quotes, octal)
  }

  lemma {:induction false} EscapeSnoc(s: bytes, k: nat, quotes: bool, octal: bool)
    requires k < |s|
    ensures Escape(s[..k + 1], quotes, octal) == Escape(s[..k], quotes, octal) + EscapeByte(s[k], quotes, octal)
    decreases k
  {
    if k > 0 {
      EscapeSnoc(s[1..], k - 1, quotes, octal);
      assert s[1..][..k] == s[..k + 1][1..] && s[1..][..k - 1] == s[..k][1..];
    } else {
      assert s[..1][1..] == [];
    }
  }

  method EscapeBytes(s: bytes, quotes: bool, octal: bool) returns (esc: bytes)
    ensures esc == Escape(s, quotes, octal)
  {
    esc := [];
    for p := 0 to |s|
      invariant esc == Escape(s[..p], quotes, octal)
    {
      EscapeSnoc(s, p, quotes, octal);
      if s[p] == BACKSLASH {
        esc := esc + [BACKSLASH, BACKSLASH];
      } else if s[p] == QUOTE && quotes {
        esc := esc + [BACKSLASH, QUOTE];
      } else if Printable(s[p]) {
        esc := esc + [s[p]];
      } else if octal {
        esc := esc + [BACKSLASH, 48 + s[p] / 64, 48 + s[p] / 8 % 8, 48 + s[p] % 8];
      } else {
        esc := esc + [BACKSLASH, LOWER_X, HexDigit(s[p] as nat / 16), HexDigit(s[p] as nat % 16)];
      }
    }
    assert s[..|s|] == s;
  }

  // ---------------------------------------------------------------- expanding, out of place

  datatype Error = BrokenSequence | Incomplete(digits: nat) | NotUnicode | CannotEncode | NoHexDigits | NotHex
                 | UnknownSequence

  /** The types of the variables that escape sequences are read into. */
  const CHAR: Integers.IntType := Integers.IntType(1, true)
  const INT32: Integers.IntType := Integers.IntType(4, true)

  /** Storing a number in a character keeps its low-order byte. */
  lemma ByteOfChar(v: int)
    ensures Integers.Wrap(CHAR, v) % 256 == v % 256
  {
    Integers.WrapIsModular(CHAR, v);
    assert Integers.Pow256(1) == 256 * Integers.Pow256(0);
  }

  /** The UTF-8 encoding of a code point; empty if there is none. */
  type Encoder = f: int -> bytes | forall v :: |f(v)| <= 4 witness v => []

  /** The one-letter escape sequences. */
  function Simple(c: byte): Option<byte> {
    match c as int
    case 92 => Some(92)
    case 34 => Some(34)
    case 48 => Some(0)
    case 97 => Some(7)
    case 98 => Some(8)
    case 101 => Some(27)
    case 102 => Some(12)
    case 110 => Some(10)
    case 114 => Some(13)
    case 116 => Some(9)
    case 118 => Some(11)
    case _ => None
  }

  /** A code point of `n` hexadecimal digits after a prefix of two bytes. */
  function Unicode(s: bytes, n: nat, encode: Encoder): (r: Result<(bytes, nat), Error>)
    requires |s| >= 2
    ensures r.Ok? ==> |r.value.0| <= 4 && r.value.1 == 2 + n <= |s|
  {
    if |s| < 2 + n then Err(Incomplete(n))
    else
      var (k, v) := Atoi(s[2..2 + n], 16);
      if k != n then Err(NotUnicode) else Encoded(encode(Integers.Wrap(INT32, v)), n)
  }

  function Encoded(out: bytes, n: nat): Result<(bytes, nat), Error> {
    if |out| == 0 then Err(CannotEncode) else Ok((out, 2 + n))
  }

  /** A byte of one or two hexadecimal digits after a prefix of two bytes. */
  function Hex(s: bytes): (r: Result<(bytes, nat), Error>)
    requires |s| >= 2
    ensures r.Ok? ==> |r.value.0| == 1 && 2 < r.value.1 <= |s|
  {
    var n := Min(|s| - 2, 2);
    if n == 0 then Err(NoHexDigits)
    else
      var (k, v) := Atoi(s[2..2 + n], 16);
      if k != n then Err(NotHex) else Ok(([(v % 256) as byte], 2 + n))
  }

  /** The meaning of the first character or escape sequence of `s`, and its length. */
  function First(s: bytes, encode: Encoder): (r: Result<(bytes, nat), Error>)
    requires |s| > 0
    ensures r.Ok? ==> |r.value.0| <= r.value.1 && 0 < r.value.1 <= |s|
  {
    if s[0] != BACKSLASH then Ok((s[..1], 1))
    else if |s| == 1 then Err(BrokenSequence)
    else if Simple(s[1]).Some? then Ok(([Simple(s[1]).value], 2))
    else if s[1] == LOWER_U then Unicode(s, 4, encode)
    else if s[1] == UPPER_U then Unicode(s, 8, encode)
    else if s[1] == LOWER_X then Hex(s)
    else Err(UnknownSequence)
  }

  function Prepend(out: bytes, r: Result<bytes, Error>): Result<bytes, Error> {
    match r
    case Ok(t) => Ok(out + t)
    case Err(e) => Err(e)
  }

  /** So an escape sequence may end in one of the characters that follow '9', as if that were a hexadecimal digit. */
  lemma AcceptsNoDigit(c: byte, encode: Encoder)
    requires 57 < c as nat < 64
    ensures UsualDigit(c, 16) == None
    ensures First([BACKSLASH, LOWER_X, 49, c], encode) == Ok(([(16 + (c as nat - 48)) as byte], 4))
  {
    var digits: bytes := [49, c];
    assert [BACKSLASH, LOWER_X, 49, c][2..4] == digits == digits[0..];
    CountIs(digits, 16, 2);
    assert digits[..2] == digits && digits[..1] == [49] && [49 as byte][..0] == [];
    assert ValueOf([49], 16) == 1;
  }

  /** The string with all escape sequences expanded. It is never longer than the original. */
  function Expand(s: bytes, encode: Encoder): (r: Result<bytes, Error>)
    ensures r.Ok? ==> |r.value| <= |s|
  {
    if |s| == 0 then Ok([])
    else
      match First(s, encode)
      case Err(e) => Err(e)
      case Ok((out, k)) => Prepend(out, Expand(s[k..], encode))
  }

  // ---------------------------------------------------------------- expanding in place

  /** Overwrites from position `d` on. */
  method Put(s: array<byte>, d: nat, out: bytes)
    requires d + |out| <= s.Length
    modifies s
    ensures s[..d] == old(s[..d]) && s[d..d + |out|] == out && s[d + |out|..] == old(s[d + |out|..])
  {
    forall k | 0 <= k < |out| {
      s[d + k] := out[k];
    }
  }

  /** The reading position `c` and writing position `d` have moved past the first character or escape sequence,
      and what it means has been written. */
  ghost predicate Stepped(before: bytes, after: bytes, c: nat, d: nat, first: Result<(bytes, nat), Error>,
                          r: Result<(nat, nat), Error>)
  {
    match first
    case Err(e) => r == Err(e)
    case Ok((out, k)) =>
      && r == Ok((c + k, d + |out|)) && |after| == |before| && d + |out| <= c + k <= |after|
      && after[..d] == before[..d] && after[d..d + |out|] == out && after[c + k..] == before[c + k..]
  }

  lemma StepFailed(before: bytes, after: bytes, c: nat, d: nat, e: Error)
    ensures Stepped(before, after, c, d, Err(e), Err(e))
  {
  }

  lemma StepDone(before: bytes, after: bytes, c: nat, d: nat, out: bytes, k: nat)
    requires |after| == |before| && d + |out| <= c + k <= |after|
    requires after[..d] == before[..d] && after[d..d + |out|] == out && after[d + |out|..] == before[d + |out|..]
    ensures Stepped(before, after, c, d, Ok((out, k)), Ok((c + k, d + |out|)))
  {
    var e := d + |out|;
    assert after[c + k..] == after[e..][c + k - e..] == before[e..][c + k - e..] == before[c + k..];
  }

  /** Writes what the sequence of length `k` at `c` means. */
  method Emit(s: array<byte>, c: nat, d: nat, k: nat, out: bytes) returns (r: Result<(nat, nat), Error>)
    requires d + |out| <= c + k <= s.Length
    modifies s
    ensures r == Ok((c + k, d + |out|)) && Stepped(old(s[..]), s[..], c, d, Ok((out, k)), r)
  {
    ghost var before := s[..];
    hide *;
    Put(s, d, out);
    assert before[..d] == s[..][..d] && before[d + |out|..] == s[..][d + |out|..];
    StepDone(before, s[..], c, d, out, k);
    return Ok((c + k, d + |out|));
  }

  /** The number that exactly `n` hexadecimal digits, or a sign and fewer, denote in type `t`. */
  function Hexadecimal(s: bytes, t: Integers.IntType): Option<int> {
    if Atoi(s, 16).0 == |s| then Some(Integers.Wrap(t, Atoi(s, 16).1)) else None
  }

  method ReadHexadecimal(s: array<byte>, from: nat, end: nat, t: Integers.IntType) returns (v: Option<int>)
    requires from < end <= s.Length
    ensures v == Hexadecimal(s[from..end], t)
  {
    hide Atoi;
    var x := ReadNumber(s, from, end, 16, t);
    var (at, n) := x.value;
    v := if at != end then None else Some(n);
  }

  lemma UnicodeCases(s: bytes, n: nat, encode: Encoder, digits: bytes)
    requires |s| >= 2 && (|s| >= 2 + n ==> digits == s[2..2 + n])
    ensures |s| < 2 + n ==> Unicode(s, n, encode) == Err(Incomplete(n))
    ensures |s| >= 2 + n ==>
              var v := Hexadecimal(digits, INT32);
              && (v.None? ==> Unicode(s, n, encode) == Err(NotUnicode))
              && (v.Some? ==> Unicode(s, n, encode) == Encoded(encode(v.value), n))
  {
  }

  /** A code point whose digits start at `c`. */
  method ExpandUnicode(s: array<byte>, c: nat, d: nat, n: nat, encode: Encoder) returns (r: Result<(nat, nat), Error>)
    requires 2 <= c <= s.Length && d + 2 <= c && 4 <= n
    modifies s
    ensures Stepped(old(s[..]), s[..], c - 2, d, Unicode(old(s[c - 2..]), n, encode), r)
  {
    hide *;
    ghost var before, text := s[..], s[c - 2..];
    UnicodeCases(text, n, encode, if c + n <= s.Length then s[c..c + n] else []);
    if c + n > s.Length {
      StepFailed(before, before, c - 2, d, Incomplete(n));
      return Err(Incomplete(n));
    }
    var v := ReadHexadecimal(s, c, c + n, INT32);
    if v.None? {
      StepFailed(before, before, c - 2, d, NotUnicode);
      return Err(NotUnicode);
    }
    r := EmitEncoded(s, c - 2, d, n, encode(v.value));
  }

  /** Writes an encoded code point, if there is one. */
  method EmitEncoded(s: array<byte>, c: nat, d: nat, n: nat, out: bytes) returns (r: Result<(nat, nat), Error>)
    requires c + 2 + n <= s.Length && d <= c && |out| <= 4 <= n
    modifies s
    ensures Stepped(old(s[..]), s[..], c, d, Encoded(out, n), r)
  {
    if |out| == 0 {
      StepFailed(s[..], s[..], c, d, CannotEncode);
      return Err(CannotEncode);
    }
    r := Emit(s, c, d, 2 + n, out);
  }

  lemma HexCases(s: bytes, digits: bytes)
    requires |s| >= 2 && digits == s[2..2 + Min(|s| - 2, 2)]
    ensures |s| == 2 ==> Hex(s) == Err(NoHexDigits)
    ensures |s| > 2 ==>
              var v := Hexadecimal(digits, CHAR);
              && (v.None? ==> Hex(s) == Err(NotHex))
              && (v.Some? ==> Hex(s) == Ok(([(v.value % 256) as byte], 2 + |digits|)))
  {
    ByteOfChar(Atoi(digits, 16).1);
  }

  lemma MinIs(a: int, b: int)
    ensures Min(a, b) == if a < b then a else b
  {
  }

  /** A byte whose digits start at `c`. */
  method ExpandHex(s: array<byte>, c: nat, d: nat) returns (r: Result<(nat, nat), Error>)
    requires 2 <= c <= s.Length && d + 2 <= c
    modifies s
    ensures Stepped(old(s[..]), s[..], c - 2, d, Hex(old(s[c - 2..])), r)
  {
    hide *;
    ghost var before, text := s[..], s[c - 2..];
    var end := Min(c + 2, s.Length);
    MinIs(c + 2, s.Length);
    MinIs(|text| - 2, 2);
    HexCases(text, s[c..end]);
    if c == s.Length {
      StepFailed(before, before, c - 2, d, NoHexDigits);
      return Err(NoHexDigits);
    }
    var v := ReadHexadecimal(s, c, end, CHAR);
    if v.None? {
      StepFailed(before, before, c - 2, d, NotHex);
      return Err(NotHex);
    }
    r := Emit(s, c - 2, d, 2 + (end - c), [(v.value % 256) as byte]);
  }

  /** One round of the loop. */
  method ExpandFirst(s: array<byte>, c0: nat, d: nat, encode: Encoder) returns (r: Result<(nat, nat), Error>)
    requires d <= c0 < s.Length
    modifies s
    ensures Stepped(old(s[..]), s[..], c0, d, First(old(s[c0..]), encode), r)
  {
    ghost var before := s[..];
    hide Stepped, Simple, Expand, Unicode, Hex;
    var c := c0;
    if s[c] != BACKSLASH {
      assert s[c..][..1] == [s[c]];
      r := Emit(s, c0, d, 1, [s[c]]);
      return;
    }
    c := c + 1;
    if c == s.Length {
      StepFailed(before, before, c0, d, BrokenSequence);
      return Err(BrokenSequence);
    }
    var e := s[c];
    c := c + 1;
    var simple := Simple(e);
    if simple.Some? {
      r := Emit(s, c0, d, 2, [simple.value]);
    } else if e == LOWER_U {
      r := ExpandUnicode(s, c, d, 4, encode);
    } else if e == UPPER_U {
      r := ExpandUnicode(s, c, d, 8, encode);
    } else if e == LOWER_X {
      r := ExpandHex(s, c, d);
    } else {
      StepFailed(before, before, c0, d, UnknownSequence);
      return Err(UnknownSequence);
    }
  }

  lemma ExpandOnce(s: bytes, encode: Encoder)
    requires |s| > 0
    ensures First(s, encode).Err? ==> Expand(s, encode) == Err(First(s, encode).error)
    ensures First(s, encode).Ok? ==>
              Expand(s, encode) == Prepend(First(s, encode).value.0, Expand(s[First(s, encode).value.1..], encode))
  {
  }

  lemma PrependTwice(x: bytes, y: bytes, r: Result<bytes, Error>)
    ensures Prepend(x, Prepend(y, r)) == Prepend(x + y, r)
  {
    if r.Ok? {
      assert x + (y + r.value) == x + y + r.value;
    }
  }

  lemma StepWritten(before: bytes, after: bytes, c: nat, d: nat, out: bytes, k: nat, r: Result<(nat, nat), Error>)
    requires d <= c < |before| && k > 0
    requires Stepped(before, after, c, d, Ok((out, k)), r)
    ensures r == Ok((c + k, d + |out|)) && d + |out| <= c + k <= |after| == |before|
    ensures after[..d + |out|] == before[..d] + out && after[c + k..] == before[c..][k..]
  {
    assert after[..d + |out|] == after[..d] + after[d..d + |out|];
    assert before[c + k..] == before[c..][k..];
  }

  /** One round that succeeds: with `whole` the outcome from the beginning, and `rest` and `rest'` from before and
      after the round. */
  lemma StepSucceeds(all: bytes, before: bytes, after: bytes, c: nat, d: nat, r: Result<(nat, nat), Error>, out: bytes,
                     k: nat, whole: Result<bytes, Error>, rest: Result<bytes, Error>, rest': Result<bytes, Error>)
    requires d <= c < |before| == |all| && before[c..] == all[c..] && 0 < k <= |before| - c
    requires whole == Prepend(before[..d], rest) && rest == Prepend(out, rest')
    requires Stepped(before, after, c, d, Ok((out, k)), r)
    ensures r == Ok((c + k, d + |out|)) && d + |out| <= c + k <= |after| == |all| && after[c + k..] == all[c + k..]
    ensures whole == Prepend(after[..d + |out|], rest')
  {
    hide *;
    assert all[c..][k..] == all[c + k..];
    StepWritten(before, after, c, d, out, k, r);
    PrependTwice(before[..d], out, rest');
  }

  lemma StepExpands(all: bytes, before: bytes, after: bytes, c: nat, d: nat, encode: Encoder,
                    r: Result<(nat, nat), Error>, whole: Result<bytes, Error>)
    requires d <= c < |before| == |all| && before[c..] == all[c..]
    requires whole == Prepend(before[..d], Expand(all[c..], encode))
    requires Stepped(before, after, c, d, First(before[c..], encode), r)
    ensures r.Err? ==> whole == Err(r.error)
    ensures r.Ok? ==>
              var (c', d') := r.value;
              && d' <= c' <= |after| == |all| && c < c' && after[c'..] == all[c'..]
              && whole == Prepend(after[..d'], Expand(all[c'..], encode))
  {
    hide Expand, First;
    ExpandOnce(all[c..], encode);
    var first := First(before[c..], encode);
    if first.Ok? {
      var (out, k) := first.value;
      assert all[c..][k..] == all[c + k..];
      StepSucceeds(all, before, after, c, d, r, out, k, whole, Expand(all[c..], encode), Expand(all[c + k..], encode));
    }
  }

  lemma EmptyPrepend(out: bytes, r: Result<bytes, Error>)
    requires out == []
    ensures r == Prepend(out, r)
  {
    if r.Ok? {
      assert out + r.value == r.value;
    }
  }

  lemma ExpandNothing(s: bytes, encode: Encoder, out: bytes)
    requires s == []
    ensures Prepend(out, Expand(s, encode)) == Ok(out)
  {
    assert out + [] == out;
  }

  /** Expands all escape sequences, writing into the string that it reads. What is written never reaches what is
      still to be read, so the outcome is the same as when writing elsewhere. */
  method ExpandEscapes(s: array<byte>, encode: Encoder) returns (r: Result<bytes, Error>)
    modifies s
    ensures r == Expand(old(s[..]), encode)
  {
    ghost var all := s[..];
    var c: nat, d: nat := 0, 0;
    assert s[c..] == all[c..] == all;
    EmptyPrepend(s[..d], Expand(all, encode));
    hide *;
    while c != s.Length
      invariant d <= c <= s.Length == |all| && s[c..] == all[c..]
      invariant Expand(all, encode) == Prepend(s[..d], Expand(all[c..], encode))
      decreases s.Length - c
    {
      ghost var before := s[..];
      assert s[c..] == before[c..];
      var x := ExpandFirst(s, c, d, encode);
      StepExpands(all, before, s[..], c, d, encode, x, Expand(all, encode));
      if x.Err? {
        return Err(x.error);
      }
      c, d := x.value.0, x.value.1;
    }
    ExpandNothing(all[c..], encode, s[..d]);
    return Ok(s[..d]);
  }

  // ---------------------------------------------------------------- round trips

  lemma HexRead(b: byte)
    ensures Atoi([HexDigit(b as nat / 16), HexDigit(b as nat % 16)], 16) == (2, b as int)
  {
    var h, l := b as nat / 16, b as nat % 16;
    var s := [HexDigit(h), HexDigit(l)];
    assert Digit(s[0], 16) == Some(h) && Digit(s[1], 16) == Some(l);
    CountIs(s, 16, 2);
    assert s[0..] == s && s[0..2] == s;
    assert s[..1] == [s[0]] && s[..1][..0] == [];
    assert ValueOf(s[..1], 16) == h;
    assert ValueOf(s, 16) == h * 16 + l;
  }

  /** An escaped byte is expanded to the byte, whatever follows it. */
  lemma FirstEscaped(b: byte, quotes: bool, octal: bool, rest: bytes, encode: Encoder)
    requires octal ==> Printable(b)
    ensures var e := EscapeByte(b, quotes, octal);
            First(e + rest, encode) == Ok(([b], |e|))
  {
    var e := EscapeByte(b, quotes, octal);
    var s := e + rest;
    if !Printable(b) {
      assert s[2..4] == [HexDigit(b as nat / 16), HexDigit(b as nat % 16)];
      HexRead(b);
    } else if |e| == 1 {
      assert s[..1] == [b];
    }
  }

  lemma ExpandStep(b: byte, quotes: bool, octal: bool, rest: bytes, encode: Encoder)
    requires octal ==> Printable(b)
    ensures Expand(EscapeByte(b, quotes, octal) + rest, encode) == Prepend([b], Expand(rest, encode))
  {
    var e := EscapeByte(b, quotes, octal);
    FirstEscaped(b, quotes, octal, rest, encode);
    assert (e + rest)[|e|..] == rest;
  }

  predicate AllPrintable(s: bytes) {
    forall k :: 0 <= k < |s| ==> Printable(s[k])
  }

  /** Expanding reverts escaping, with and without escaping of quotes. */
  lemma {:induction false} ExpandEscaped(s: bytes, quotes: bool, octal: bool, encode: Encoder)
    requires octal ==> AllPrintable(s)
    ensures Expand(Escape(s, quotes, octal), encode) == Ok(s)
  {
    if |s| > 0 {
      ExpandEscaped(s[1..], quotes, octal, encode);
      ExpandStep(s[0], quotes, octal, Escape(s[1..], quotes, octal), encode);
      assert [s[0]] + s[1..] == s;
    }
  }

  lemma ExpandPlain(b: byte, rest: bytes, encode: Encoder)
    requires b != BACKSLASH
    ensures Expand([b] + rest, encode) == Prepend([b], Expand(rest, encode))
  {
    var s := [b] + rest;
    assert s[..1] == [b] && s[1..] == rest;
  }

  /** An octal sequence is taken for a `\0` with two more digits behind it, or for nothing known. */
  lemma OctalStep(b: byte, quotes: bool, rest: bytes, encode: Encoder)
    requires !Printable(b)
    ensures var r := Expand(EscapeByte(b, quotes, true) + rest, encode);
            r.Ok? ==> Expand(rest, encode).Ok? && |r.value| == 3 + |Expand(rest, encode).value|
  {
    var e := EscapeByte(b, quotes, true);
    var s := e + rest;
    ExpandOnce(s, encode);
    if Expand(s, encode).Ok? {
      assert s[1] == 48;
      assert First(s, encode) == Ok(([0], 2));
      assert s[2..] == [e[2]] + ([e[3]] + rest);
      hide First, Expand;
      ExpandPlain(e[2], [e[3]] + rest, encode);
      ExpandPlain(e[3], rest, encode);
    }
  }

  lemma {:induction false} OctalIsLonger(s: bytes, quotes: bool, encode: Encoder)
    ensures var r := Expand(Escape(s, quotes, true), encode);
            r.Ok? ==> |r.value| >= |s| && (!AllPrintable(s) ==> |r.value| > |s|)
  {
    if |s| > 0 {
      OctalIsLonger(s[1..], quotes, encode);
      var rest := Escape(s[1..], quotes, true);
      if Printable(s[0]) {
        ExpandStep(s[0], quotes, true, rest, encode);
        assert AllPrintable(s[1..]) ==> AllPrintable(s);
      } else {
        OctalStep(s[0], quotes, rest, encode);
      }
    }
  }

  /** Escaping with octal numbers is reverted exactly if there was nothing to write as a number. */
  lemma OctalRevertedExactly(s: bytes, quotes: bool, encode: Encoder)
    ensures Expand(Escape(s, quotes, true), encode) == Ok(s) <==> AllPrintable(s)
  {
    if AllPrintable(s) {
      ExpandEscaped(s, quotes, true, encode);
    } else {
      OctalIsLonger(s, quotes, encode);
    }
  }

  /** The escaped form consists of printable characters only. */
  lemma {:induction false} EscapedIsPrintable(s: bytes, quotes: bool, octal: bool)
    ensures AllPrintable(Escape(s, quotes, octal))
  {
    if |s| > 0 {
      EscapedIsPrintable(s[1..], quotes, octal);
      EscapedByteIsPrintable(s[0], quotes, octal);
    }
  }

  lemma EscapedByteIsPrintable(b: byte, quotes: bool, octal: bool)
    ensures AllPrintable(EscapeByte(b, quotes, octal))
  {
  }

  // ---------------------------------------------------------------- what escape sequences mean

  /** The letters of one-letter escape sequences, and the codes that they stand for: `\a` is 7, `\b` is 8, `\e` is 27,
      `\f` is 12 and `\v` is 11. */
  const LETTERS: string := "\\\"0abefnrtv"
  const CODES: seq<int> :=
    ['\\' as int, '\"' as int, '\0' as int, 7, 8, 27, 12, '\n' as int, '\r' as int, '\t' as int, 11]

  /** Each letter expands to its code, whatever follows it. */
  lemma LettersExpand(k: nat, c: byte, code: byte, rest: bytes, encode: Encoder)
    requires k < |LETTERS| && c as int == LETTERS[k] as int
    ensures |CODES| == |LETTERS|
    ensures code as int == CODES[k] ==> Expand([BACKSLASH, c] + rest, encode) == Prepend([code], Expand(rest, encode))
  {
    var s := [BACKSLASH, c] + rest;
    assert s[2..] == rest;
    ExpandOnce(s, encode);
    LetterCode(k, c);
    assert First(s, encode) == Ok(([CODES[k] as byte], 2));
  }

  lemma LetterCode(k: nat, c: byte)
    requires k < |LETTERS| && c as int == LETTERS[k] as int
    ensures |CODES| == |LETTERS| && 0 <= CODES[k] < 256 && Simple(c) == Some(CODES[k] as byte)
  {
  }

  /** Any other letter is refused, apart from those of numbers. */
  lemma OthersRefused(c: byte, rest: bytes, encode: Encoder)
    requires forall k :: 0 <= k < |LETTERS| ==> c as int != LETTERS[k] as int
    requires c as int != 'u' as int && c as int != 'U' as int && c as int != 'x' as int
    ensures Expand([BACKSLASH, c] + rest, encode) == Err(UnknownSequence)
  {
    var s := [BACKSLASH, c] + rest;
    ExpandOnce(s, encode);
    assert LETTERS[0] == '\\' && LETTERS[1] == '\"' && LETTERS[2] == '0' && LETTERS[3] == 'a' && LETTERS[4] == 'b';
    assert LETTERS[5] == 'e' && LETTERS[6] == 'f' && LETTERS[7] == 'n' && LETTERS[8] == 'r' && LETTERS[9] == 't';
    assert LETTERS[10] == 'v';
  }

  /** A backslash at the end is refused. */
  lemma BackslashAlone(encode: Encoder)
    ensures Expand([BACKSLASH], encode) == Err(BrokenSequence)
  {
    ExpandOnce([BACKSLASH], encode);
  }

  lemma AtoiUnsigned(digits: bytes, base: nat)
    requires 2 <= base <= 36 && |digits| > 0 && AllDigits(digits, base)
    ensures Atoi(digits, base) == (|digits|, ValueOf(digits, base))
  {
    CountIs(digits, base, |digits|);
    assert digits[..|digits|] == digits == digits[0..];
    hide ValueOf;
  }

  /** A string of digits and nothing else is read as the number that it denotes; a sign in front negates it, or not. */
  lemma AtoiDenotes(digits: bytes, base: nat, minus: bool)
    requires 2 <= base <= 36 && |digits| > 0 && AllDigits(digits, base)
    ensures Atoi(digits, base) == (|digits|, ValueOf(digits, base))
    ensures Atoi([if minus then MINUS else PLUS] + digits, base)
            == (1 + |digits|, if minus then -ValueOf(digits, base) else ValueOf(digits, base))
  {
    AtoiUnsigned(digits, base);
    CountIs(digits, base, |digits|);
    var s := [if minus then MINUS else PLUS] + digits;
    assert s[1..] == digits && digits[..|digits|] == digits;
    hide ValueOf, DigitCount, AllDigits;
  }

  /** The sequences that are followed by a number. */
  lemma NumberIsFirst(s: bytes, encode: Encoder)
    requires |s| >= 2 && s[0] == BACKSLASH
    ensures s[1] == LOWER_U ==> First(s, encode) == Unicode(s, 4, encode)
    ensures s[1] == UPPER_U ==> First(s, encode) == Unicode(s, 8, encode)
    ensures s[1] == LOWER_X ==> First(s, encode) == Hex(s)
  {
    hide Unicode, Hex;
  }

  /** `\u` with four hexadecimal digits, and `\U` with eight, stand for the encoding of the number that the digits
      denote, as far as it fits into 32 bits. */
  lemma UnicodeExpands(long: bool, digits: bytes, rest: bytes, encode: Encoder)
    requires |digits| == (if long then 8 else 4) && AllDigits(digits, 16)
    ensures var out := encode(Integers.Wrap(INT32, ValueOf(digits, 16)));
            Expand([BACKSLASH, if long then UPPER_U else LOWER_U] + digits + rest, encode)
            == if out == [] then Err(CannotEncode) else Prepend(out, Expand(rest, encode))
  {
    hide Expand, First, Atoi, ValueOf, AllDigits, Integers.Wrap;
    var s := [BACKSLASH, if long then UPPER_U else LOWER_U] + digits + rest;
    var n := |digits|;
    assert s[2..2 + n] == digits && s[2 + n..] == rest;
    AtoiUnsigned(digits, 16);
    ExpandOnce(s, encode);
    NumberIsFirst(s, encode);
  }

  /** With fewer characters behind them they are incomplete. */
  lemma UnicodeIncomplete(long: bool, rest: bytes, encode: Encoder)
    requires |rest| < (if long then 8 else 4)
    ensures Expand([BACKSLASH, if long then UPPER_U else LOWER_U] + rest, encode)
            == Err(Incomplete(if long then 8 else 4))
  {
    hide Expand, First, Atoi;
    var s := [BACKSLASH, if long then UPPER_U else LOWER_U] + rest;
    ExpandOnce(s, encode);
    NumberIsFirst(s, encode);
  }

  /** `\x` with two hexadecimal digits, or with one at the end of the string, stands for the byte that they denote. */
  lemma HexExpands(digits: bytes, rest: bytes, encode: Encoder)
    requires 1 <= |digits| <= 2 && AllDigits(digits, 16) && (|digits| == 1 ==> rest == [])
    ensures Expand([BACKSLASH, LOWER_X] + digits + rest, encode)
            == Prepend([(ValueOf(digits, 16) % 256) as byte], Expand(rest, encode))
  {
    hide Expand, First, Atoi, ValueOf, AllDigits;
    var s := [BACKSLASH, LOWER_X] + digits + rest;
    var n := |digits|;
    assert s[2..2 + n] == digits && s[2 + n..] == rest;
    AtoiUnsigned(digits, 16);
    ExpandOnce(s, encode);
    NumberIsFirst(s, encode);
  }

  // ---------------------------------------------------------------- what bytes are escaped, and how

  /** A byte is left as it is exactly if it is a printable character other than the backslash and, if asked for, the
      quote. */
  lemma UnescapedExactly(b: byte, quotes: bool, octal: bool)
    ensures EscapeByte(b, quotes, octal) == [b] <==>
              ' ' as int <= b as int <= '~' as int && b as int != '\\' as int && !(quotes && b as int == '\"' as int)
  {
  }

  /** As a number, a byte is written with two lower-case hexadecimal digits that denote it, or three octal ones. */
  lemma EscapedDenotes(b: byte, quotes: bool)
    requires !Printable(b)
    ensures var e := EscapeByte(b, quotes, false);
            && |e| == 4 && e[0] as int == '\\' as int && e[1] as int == 'x' as int
            && e[2] as int == "0123456789abcdef"[b as int / 16] as int
            && e[3] as int == "0123456789abcdef"[b as int % 16] as int
            && Atoi(e[2..], 16) == (2, b as int)
    ensures var e := EscapeByte(b, quotes, true);
            && |e| == 4 && e[0] as int == '\\' as int && AllDigits(e[1..], 8) && Atoi(e[1..], 8) == (3, b as int)
  {
    HexRead(b);
    HexDigitIs(b as nat / 16);
    HexDigitIs(b as nat % 16);
    OctalRead(b);
    var e := EscapeByte(b, quotes, false);
    assert e[2..] == [HexDigit(b as nat / 16), HexDigit(b as nat % 16)];
    var o := EscapeByte(b, quotes, true);
    assert o[1..] == [48 + b / 64, 48 + b / 8 % 8, 48 + b % 8];
  }

  lemma HexDigitIs(n: nat)
    requires n < 16
    ensures HexDigit(n) as int == "0123456789abcdef"[n] as int
  {
    var digits := "0123456789abcdef";
    assert n < 10 ==> digits[n] as int == 48 + n;
    assert n >= 10 ==> digits[n] as int == 87 + n;
  }

  lemma OctalRead(b: byte)
    ensures var s: bytes := [48 + b / 64, 48 + b / 8 % 8, 48 + b % 8];
            AllDigits(s, 8) && Atoi(s, 8) == (3, b as int)
  {
    var s: bytes := [48 + b / 64, 48 + b / 8 % 8, 48 + b % 8];
    AtoiUnsigned(s, 8);
    assert s[..2] == [s[0], s[1]] && s[..2][..1] == [s[0]] && s[..1][..0] == [];
    assert ValueOf(s[..2][..1], 8) == b as int / 64;
    assert ValueOf(s[..2], 8) == b as int / 8;
  }
}
