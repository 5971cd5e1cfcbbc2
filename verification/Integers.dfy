/** Packing integers into bytes and unpacking them again, for every width, signedness and byte order. */
module Integers {
  import opened Basics

  datatype ByteOrder = Big | Little | Network | Host | Undef

  datatype Error = UndefinedByteOrder | InsufficientData

  /** An integer type of 1, 2, 4 or 8 bytes. */
  datatype IntType_ = IntType(width: nat, signed: bool)
  type IntType = t: IntType_ | t.width in {1, 2, 4, 8} witness IntType(1, false)

  function Pow256(n: nat): (p: nat)
    ensures p > 0
  {
    if n == 0 then 1 else 256 * Pow256(n - 1)
  }

  predicate InRange(t: IntType, x: int) {
    if t.signed then 0 <= 2 * x + Pow256(t.width) && 2 * x < Pow256(t.width) else 0 <= x < Pow256(t.width)
  }

  /** What is left of `x` when it is stored in type `t`. */
  function Wrap(t: IntType, x: int): (r: int)
    ensures InRange(t, r)
  {
    var m := Pow256(t.width);
    if t.signed && 2 * (x % m) >= m then x % m - m else x % m
  }

  /** The `n` low-order bytes of `x` in two's complement, most significant first. */
  function BigEndian(x: int, n: nat): (bs: seq<byte>)
    ensures |bs| == n
    decreases n
  {
    if n == 0 then [] else BigEndian(x / 256, n - 1) + [(x % 256) as byte]
  }

  /** The number that bytes denote, most significant first. */
  function Value(bs: seq<byte>): nat {
    if |bs| == 0 then 0 else Value(bs[..|bs| - 1]) * 256 + bs[|bs| - 1] as nat
  }

  function Reverse(bs: seq<byte>): (r: seq<byte>)
    ensures |r| == |bs|
    ensures forall k :: 0 <= k < |bs| ==> r[k] == bs[|bs| - 1 - k]
  {
    seq(|bs|, k requires 0 <= k < |bs| => bs[|bs| - 1 - k])
  }

  /** Big, Little or undefined, once the host's order is known. */
  function Resolve(order: ByteOrder, system: ByteOrder): ByteOrder {
    var o := if order == Host then system else order;
    if o == Network then Big else o
  }

  /** Bytes in memory order, from or to most significant first. */
  function Arrange(bs: seq<byte>, little: bool): (r: seq<byte>)
    ensures |r| == |bs|
  {
    if little then Reverse(bs) else bs
  }

  function Pack(t: IntType, x: int, order: ByteOrder, system: ByteOrder): Result<seq<byte>, Error> {
    var o := Resolve(order, system);
    if o == Big || o == Little then Ok(Arrange(BigEndian(x, t.width), o == Little)) else Err(UndefinedByteOrder)
  }

  function Unpack(t: IntType, data: seq<byte>, order: ByteOrder, system: ByteOrder): Result<(int, seq<byte>), Error> {
    var o := Resolve(order, system);
    if |data| < t.width then Err(InsufficientData)
    else if o == Big || o == Little then
      Ok((Wrap(t, Value(Arrange(data[..t.width], o == Little))), data[t.width..]))
    else Err(UndefinedByteOrder)
  }

  // ---------------------------------------------------------------- arithmetic

  lemma Distribute(a: int, b: int, m: int)
    ensures (a - b) * m == a * m - b * m
  {
  }

  lemma SmallMultiple(d: int, m: int)
    requires -m < d * m < m
    ensures d == 0
  {
  }

  lemma DivUnique(x: int, m: nat, q: int, r: int)
    requires m > 0 && x == q * m + r && 0 <= r < m
    ensures x / m == q && x % m == r
  {
    var q', r' := x / m, x % m;
    assert x == q' * m + r';
    Distribute(q, q', m);
    SmallMultiple(q - q', m);
  }

  /** Splitting off the last base-256 digit. */
  lemma ModDigits(x: int, m: nat)
    requires m > 0
    ensures x % (256 * m) == (x / 256) % m * 256 + x % 256
  {
    var q, s := (x / 256) / m, (x / 256) % m;
    assert x == 256 * (q * m + s) + x % 256;
    assert 256 * (q * m) == q * (256 * m);
    DivUnique(x, 256 * m, q, s * 256 + x % 256);
  }

  /** Bytes denote what was written into them, up to what does not fit. */
  lemma {:induction false} ValueOfBigEndian(x: int, n: nat)
    ensures Value(BigEndian(x, n)) == x % Pow256(n)
    decreases n
  {
    if n > 0 {
      ValueOfBigEndian(x / 256, n - 1);
      ModDigits(x, Pow256(n - 1));
      assert BigEndian(x, n)[..n - 1] == BigEndian(x / 256, n - 1);
    }
  }

  /** Writing the number that bytes denote gives the bytes back. */
  lemma {:induction false} BigEndianOfValue(bs: seq<byte>)
    ensures BigEndian(Value(bs), |bs|) == bs
  {
    if |bs| > 0 {
      var front, b := bs[..|bs| - 1], bs[|bs| - 1];
      BigEndianOfValue(front);
      DivUnique(Value(bs), 256, Value(front), b as int);
      assert bs == front + [b];
    }
  }

  lemma WrapIsModular(t: IntType, x: int)
    ensures Wrap(t, x) % Pow256(t.width) == x % Pow256(t.width)
  {
    var m := Pow256(t.width);
    var r := x % m;
    DivUnique(r - m, m, -1, r);
    DivUnique(r, m, 0, r);
  }

  lemma WrapOfValue(t: IntType, x: int)
    requires InRange(t, x)
    ensures Wrap(t, x) == x
  {
    var m := Pow256(t.width);
    if x < 0 {
      DivUnique(x, m, -1, x + m);
    } else {
      DivUnique(x, m, 0, x);
    }
  }

  /** Equal low-order digits give equal bytes. */
  lemma {:induction false} BigEndianModular(x: int, n: nat)
    ensures BigEndian(x, n) == BigEndian(x % Pow256(n), n)
  {
    ValueOfBigEndian(x, n);
    BigEndianOfValue(BigEndian(x, n));
  }

  /** Dividing twice is dividing by the product. */
  lemma DivTwice(x: int, a: nat, b: nat)
    requires a > 0 && b > 0
    ensures a * b > 0 && x / a / b == x / (a * b)
  {
    var y := x / a;
    var r, q, s := x % a, y / b, y % b;
    assert x == y * a + r && y == q * b + s;
    assert y * a == q * (a * b) + s * a by { Distribute(q * b, -s, a); Reorder(q, a, b); }
    Smaller(s, r, a, b);
    DivUnique(x, a * b, q, s * a + r);
  }

  lemma Reorder(q: int, a: int, b: int)
    ensures q * b * a == q * (a * b)
  {
  }

  lemma Nonnegative(x: nat, y: nat)
    ensures x * y >= 0
  {
  }

  lemma Smaller(s: nat, r: nat, a: nat, b: nat)
    requires r < a && s < b
    ensures 0 <= s * a + r < a * b
  {
    Nonnegative(s, a);
    Nonnegative(b - 1 - s, a);
    Distribute(b - 1, s, a);
    Distribute(b, 1, a);
  }

  /** The byte at each place is the digit of that weight. */
  lemma {:induction false} DigitAt(x: int, n: nat, k: nat)
    requires k < n
    ensures BigEndian(x, n)[k] as int == x / Pow256(n - 1 - k) % 256
    decreases n
  {
    if k < n - 1 {
      DigitAt(x / 256, n - 1, k);
      DivTwice(x, 256, Pow256(n - 2 - k));
    }
  }

  /** In network order, the first byte of a packed number is the digit of the highest weight; in little-endian order, it
      is that of the lowest. And so on. */
  lemma PackedDigits(t: IntType, x: int, order: ByteOrder, system: ByteOrder, k: nat)
    requires Pack(t, x, order, system).Ok? && k < t.width
    ensures var bs := Pack(t, x, order, system).value;
            && |bs| == t.width
            && (order == Big || order == Network || (order == Host && (system == Big || system == Network)) ==>
                  bs[k] as int == x / Pow256(t.width - 1 - k) % 256)
            && (order == Little || (order == Host && system == Little) ==> bs[k] as int == x / Pow256(k) % 256)
  {
    DigitAt(x, t.width, k);
    DigitAt(x, t.width, t.width - 1 - k);
  }

  // ---------------------------------------------------------------- round trips

  /** Storing the low-order digits of a value of the type gives the value back. */
  lemma WrapOfDigits(t: IntType, x: int)
    requires InRange(t, x)
    ensures Wrap(t, x % Pow256(t.width)) == x
  {
    var m := Pow256(t.width);
    DivUnique(x % m, m, 0, x % m);
    WrapOfValue(t, x);
  }

  lemma ArrangeTwice(bs: seq<byte>, little: bool)
    ensures Arrange(Arrange(bs, little), little) == bs
  {
    assert little ==> Reverse(Reverse(bs)) == bs;
  }

  /** Unpacking what was packed returns the value and the rest of the input. */
  lemma UnpackPacked(t: IntType, x: int, order: ByteOrder, system: ByteOrder, rest: seq<byte>)
    requires InRange(t, x) && Pack(t, x, order, system).Ok?
    ensures Unpack(t, Pack(t, x, order, system).value + rest, order, system) == Ok((x, rest))
  {
    hide Wrap, Value, BigEndian, Pow256, Arrange, InRange;
    var packed := Pack(t, x, order, system).value;
    ArrangeTwice(BigEndian(x, t.width), Resolve(order, system) == Little);
    ValueOfBigEndian(x, t.width);
    WrapOfDigits(t, x);
    assert (packed + rest)[..t.width] == packed && (packed + rest)[t.width..] == rest;
  }

  /** Packing what was unpacked returns the input. */
  lemma PackUnpacked(t: IntType, data: seq<byte>, order: ByteOrder, system: ByteOrder)
    requires Unpack(t, data, order, system).Ok?
    ensures var (x, rest) := Unpack(t, data, order, system).value;
            && InRange(t, x) && Pack(t, x, order, system).Ok?
            && Pack(t, x, order, system).value + rest == data
  {
    hide Wrap, Value, BigEndian, Pow256, Arrange, InRange;
    var raw := data[..t.width];
    var bs := Arrange(raw, Resolve(order, system) == Little);
    ArrangeTwice(raw, Resolve(order, system) == Little);
    BigEndianOfValue(bs);
    WrapIsModular(t, Value(bs));
    BigEndianModular(Wrap(t, Value(bs)), t.width);
    BigEndianModular(Value(bs), t.width);
    assert raw + data[t.width..] == data;
  }

  // ---------------------------------------------------------------- the loops

  /** Where the `k`-th step of packing or unpacking finds its byte, counted from the most significant. */
  function Index(n: nat, k: nat, little: bool): nat
    requires k < n
  {
    if little then n - 1 - k else k
  }

  lemma LastDigit(x: int, n: nat)
    requires n > 0
    ensures BigEndian(x, n)[n - 1] == (x % 256) as byte
    ensures BigEndian(x, n)[..n - 1] == BigEndian(x / 256, n - 1)
  {
  }

  lemma PrefixOfPrefix(all: seq<byte>, x: int, m: nat)
    requires 0 < m <= |all| && BigEndian(x, m) == all[..m]
    ensures all[m - 1] == (x % 256) as byte && BigEndian(x / 256, m - 1) == all[..m - 1]
  {
    LastDigit(x, m);
    assert all[..m][..m - 1] == all[..m - 1];
  }

  /** Takes the number apart byte by byte, least significant first. */
  method PackRaw(x0: int, n: nat, little: bool) returns (raw: array<byte>)
    ensures fresh(raw) && raw[..] == Arrange(BigEndian(x0, n), little)
  {
    raw := new byte[n];
    var x, k := x0, 0;
    ghost var all := BigEndian(x0, n);
    assert all == all[..n];
    hide BigEndian;
    while k < n
      invariant 0 <= k <= n && fresh(raw)
      invariant BigEndian(x, n - k) == all[..n - k]
      invariant little ==> forall j :: 0 <= j < k ==> raw[j] == all[n - 1 - j]
      invariant !little ==> forall j :: n - k <= j < n ==> raw[j] == all[j]
    {
      PrefixOfPrefix(all, x, n - k);
      raw[n - Index(n, k, little) - 1] := (x % 256) as byte;
      x := x / 256;
      k := k + 1;
    }
  }

  method PackInteger(t: IntType, x: int, order: ByteOrder, system: ByteOrder) returns (r: Result<seq<byte>, Error>)
    requires InRange(t, x) && (system == Big || system == Little)
    ensures r == Pack(t, x, order, system)
    decreases order == Host
  {
    if order == Host {
      r := PackInteger(t, x, system, system);
      return;
    }
    match order
    case Undef => return Err(UndefinedByteOrder);
    case Little =>
      var raw := PackRaw(x, t.width, true);
      return Ok(raw[..]);
    case Big | Network =>
      var raw := PackRaw(x, t.width, false);
      return Ok(raw[..]);
  }

  lemma ModShift(a: int, d: int, m: nat)
    requires m > 0
    ensures (a + d * m) % m == a % m
  {
    Distribute(a / m, -d, m);
    DivUnique(a + d * m, m, a / m + d, a % m);
  }

  /** Numbers that agree up to what does not fit still do after a shift by a byte. */
  lemma ShiftCongruent(x: int, y: int, k: int, b: int, m: nat)
    requires m > 0 && x % m == y % m
    ensures (x * k + b) % m == (y * k + b) % m
  {
    var d := x / m - y / m;
    Distribute(x / m, y / m, m);
    assert x == y + d * m;
    assert x * k == y * k + (d * k) * m;
    ModShift(y * k + b, d * k, m);
  }

  /** Storing after each step is the same as storing at the end. */
  lemma WrapShift(t: IntType, x: int, b: byte)
    ensures Wrap(t, Wrap(t, Wrap(t, x) * 256) + b as int) == Wrap(t, x * 256 + b as int)
  {
    var m := Pow256(t.width);
    var a := Wrap(t, x);
    WrapIsModular(t, x);
    ShiftCongruent(a, x, 256, 0, m);
    WrapIsModular(t, a * 256);
    ShiftCongruent(Wrap(t, a * 256), x * 256, 1, b as int, m);
  }

  lemma ValueSnoc(bs: seq<byte>, k: nat)
    requires k < |bs|
    ensures Value(bs[..k + 1]) == Value(bs[..k]) * 256 + bs[k] as nat
  {
    assert bs[..k + 1][..k] == bs[..k];
  }

  /** Puts the number together byte by byte, most significant first, in a variable of type `t`. */
  method UnpackRaw(t: IntType, raw: array<byte>, little: bool) returns (x: int)
    requires raw.Length == t.width
    ensures x == Wrap(t, Value(Arrange(raw[..], little)))
  {
    var n := t.width;
    ghost var bs := Arrange(raw[..], little);
    x := 0;
    WrapOfValue(t, 0);
    hide Wrap, Value, InRange;
    for k := 0 to n
      invariant x == Wrap(t, Value(bs[..k]))
    {
      WrapShift(t, Value(bs[..k]), bs[k]);
      ValueSnoc(bs, k);
      x := Wrap(t, x * 256);
      x := Wrap(t, x + raw[Index(n, k, little)] as int);
    }
    assert bs[..n] == bs;
  }

  method UnpackInteger(t: IntType, data: seq<byte>, order: ByteOrder, system: ByteOrder)
      returns (r: Result<(int, seq<byte>), Error>)
    requires system == Big || system == Little
    ensures r == Unpack(t, data, order, system)
    decreases order == Host
  {
    if order == Host {
      r := UnpackInteger(t, data, system, system);
      return;
    }
    if |data| < t.width {
      return Err(InsufficientData);
    }
    var raw := new byte[t.width](i requires 0 <= i < t.width => data[i]);
    assert raw[..] == data[..t.width];
    var rest := data[t.width..];
    match order
    case Undef => return Err(UndefinedByteOrder);
    case Little =>
      var x := UnpackRaw(t, raw, true);
      return Ok((x, rest));
    case Big | Network =>
      var x := UnpackRaw(t, raw, false);
      return Ok((x, rest));
  }
}
