/** IP addresses as two 64-bit words, and networks: prefixes in the sense of section 3.1 of RFC 4632 and
    section 2.3 of RFC 4291. */
module Addresses {
  import opened Basics
  import Integers

  datatype Family = Undef | IPv4 | IPv6

  type word = x: nat | x < WORD

  /** IPv4 addresses are embedded in the low-order 32 bits. */
  datatype Address = Address(a1: word, a2: word, family: Family)

  /** Addresses are compared without their families. */
  predicate Same(a: Address, b: Address) {
    a.a1 == b.a1 && a.a2 == b.a2
  }

  function Pow2(k: nat): (p: nat)
    ensures p > 0
  {
    if k == 0 then 1 else 2 * Pow2(k - 1)
  }

  lemma DivBounds(x: nat, m: nat)
    requires m > 0
    ensures 0 <= x / m && x / m * m <= x
  {
  }

  function Quotient(x: nat, m: nat): (q: nat)
    requires m > 0
    ensures q * m <= x
  {
    DivBounds(x, m);
    x / m
  }

  /** `x & (~0 << k)`: clears the `k` low-order bits. */
  function ClearLow(x: word, k: nat): (r: word)
    ensures r <= x
  {
    Quotient(x, Pow2(k)) * Pow2(k)
  }

  /** The address with all but its `width` high-order bits cleared. */
  function Mask(a: Address, width: nat): Address
    requires width <= 128
  {
    if width == 0 then Address(0, 0, a.family)
    else
      var a1 := if width < 64 then ClearLow(a.a1, 64 - width) else a.a1;
      var a2 := if width > 64 then ClearLow(a.a2, 128 - width) else 0;
      Address(a1, a2, a.family)
  }

  // ---------------------------------------------------------------- the reference: one 128-bit number

  const WORD: nat := 0x1_0000_0000_0000_0000

  function Number(a: Address): nat {
    a.a1 * WORD + a.a2
  }

  /** The `width` high-order bits of an address, as a number. */
  function Prefix(a: Address, width: nat): nat
    requires width <= 128
  {
    Quotient(Number(a), Pow2(128 - width))
  }

  lemma {:induction false} Pow2Add(j: nat, k: nat)
    ensures Pow2(j + k) == Pow2(j) * Pow2(k)
  {
    if j > 0 {
      Pow2Add(j - 1, k);
      assert 2 * (Pow2(j - 1) * Pow2(k)) == (2 * Pow2(j - 1)) * Pow2(k);
    }
  }

  lemma Pow2Of64()
    ensures Pow2(64) == WORD
  {
    assert Pow2(8) == 256;
    Pow2Add(8, 8);
    Pow2Add(16, 16);
    Pow2Add(32, 32);
  }

  lemma QuotientUnique(x: nat, m: nat, q: nat, r: nat)
    requires m > 0 && x == q * m + r && r < m
    ensures Quotient(x, m) == q
  {
    Integers.DivUnique(x, m, q, r);
  }

  lemma Remainder(x: nat, m: nat) returns (r: nat)
    requires m > 0
    ensures x == Quotient(x, m) * m + r && r < m
  {
    r := x - Quotient(x, m) * m;
  }

  lemma Reassociate(x: int, y: int, z: int)
    ensures x * (y * z) == (x * y) * z
  {
  }

  lemma Spread(q: nat, n: nat, s: nat, m: nat)
    ensures (q * n + s) * m == q * (m * n) + s * m
  {
    Reassociate(q, n, m);
  }

  /** Dividing twice is dividing by the product. */
  lemma DivDiv(x: nat, m: nat, n: nat)
    requires m > 0 && n > 0
    ensures m * n > 0 && Quotient(Quotient(x, m), n) == Quotient(x, m * n)
  {
    Integers.DivTwice(x, m, n);
  }

  lemma MaskInHighWord(a: Address, width: nat)
    requires 0 < width <= 64
    ensures Number(Mask(a, width)) == Prefix(a, width) * Pow2(128 - width)
  {
    var m := Pow2(64 - width);
    hide Pow2, Quotient;
    Pow2Of64();
    Pow2Add(64 - width, 64);
    DivDiv(Number(a), WORD, m);
    QuotientUnique(Number(a), WORD, a.a1, a.a2);
    Reassociate(Quotient(a.a1, m), m, WORD);
    if width == 64 {
      assert m == 1 by { assert Pow2(0) == 1; }
      QuotientUnique(a.a1, 1, a.a1, 0);
    }
  }

  lemma MaskInLowWord(a: Address, width: nat)
    requires 64 < width <= 128
    ensures Number(Mask(a, width)) == Prefix(a, width) * Pow2(128 - width)
  {
    var m, n := Pow2(128 - width), Pow2(width - 64);
    hide Pow2, Quotient;
    Pow2Of64();
    Pow2Add(128 - width, width - 64);
    var r := Remainder(a.a2, m);
    var q := Quotient(a.a2, m);
    Spread(a.a1, n, q, m);
    QuotientUnique(Number(a), m, a.a1 * n + q, r);
  }

  /** The masked address is the prefix followed by zeros. */
  lemma MaskIsPrefix(a: Address, width: nat)
    requires width <= 128
    ensures Number(Mask(a, width)) == Prefix(a, width) * Pow2(128 - width)
  {
    if width == 0 {
      hide Pow2, Quotient;
      Pow2Of64();
      Pow2Add(64, 64);
      QuotientUnique(Number(a), Pow2(128), 0, Number(a));
    } else if width <= 64 {
      MaskInHighWord(a, width);
    } else {
      MaskInLowWord(a, width);
    }
  }

  lemma NumberUnique(a: Address, b: Address)
    requires Number(a) == Number(b)
    ensures Same(a, b)
  {
    Integers.DivUnique(Number(a), WORD, a.a1, a.a2);
    Integers.DivUnique(Number(b), WORD, b.a1, b.a2);
  }

  /** A shorter prefix is a prefix of a longer one. */
  lemma PrefixOfPrefix(a: Address, short: nat, long: nat)
    requires short <= long <= 128
    ensures Prefix(a, short) == Quotient(Prefix(a, long), Pow2(long - short))
  {
    hide Pow2, Quotient;
    Pow2Add(128 - long, long - short);
    DivDiv(Number(a), Pow2(128 - long), Pow2(long - short));
  }

  /** Masking does not touch the bits that it keeps. */
  lemma PrefixOfMask(a: Address, w: nat)
    requires w <= 128
    ensures Prefix(Mask(a, w), w) == Prefix(a, w)
  {
    MaskIsPrefix(a, w);
    hide Pow2, Quotient, Mask;
    QuotientUnique(Number(Mask(a, w)), Pow2(128 - w), Prefix(a, w), 0);
  }

  /** Two addresses are equal under a mask if and only if their prefixes are. */
  lemma MaskedEqual(a: Address, b: Address, w: nat)
    requires w <= 128
    ensures Same(Mask(a, w), Mask(b, w)) <==> Prefix(a, w) == Prefix(b, w)
  {
    hide Pow2, Quotient, Mask;
    MaskIsPrefix(a, w);
    MaskIsPrefix(b, w);
    PrefixOfMask(a, w);
    PrefixOfMask(b, w);
    if Prefix(a, w) == Prefix(b, w) {
      NumberUnique(Mask(a, w), Mask(b, w));
    }
  }

  /** Masking to more than what is left changes nothing. */
  lemma MaskNarrower(a: Address, w1: nat, w2: nat)
    requires w1 <= w2 <= 128
    ensures Same(Mask(Mask(a, w1), w2), Mask(a, w1))
  {
    hide Pow2, Quotient, Mask;
    var m := Mask(a, w1);
    MaskIsPrefix(a, w1);
    MaskIsPrefix(m, w2);
    Pow2Add(w2 - w1, 128 - w2);
    var p, q := Prefix(a, w1), Pow2(w2 - w1);
    Reassociate(p, q, Pow2(128 - w2));
    QuotientUnique(Number(m), Pow2(128 - w2), p * q, 0);
    NumberUnique(Mask(m, w2), m);
  }

  lemma MaskWider(a: Address, w1: nat, w2: nat)
    requires w2 <= w1 <= 128
    ensures Same(Mask(Mask(a, w1), w2), Mask(a, w2))
  {
    hide Pow2, Quotient, Mask;
    var m := Mask(a, w1);
    PrefixOfMask(a, w1);
    PrefixOfPrefix(m, w2, w1);
    PrefixOfPrefix(a, w2, w1);
    MaskedEqual(m, a, w2);
  }

  /** Masking twice is masking to the smaller width, also across the word boundary. */
  lemma MaskTwice(a: Address, w1: nat, w2: nat)
    requires w1 <= 128 && w2 <= 128
    ensures Mask(Mask(a, w1), w2) == Mask(a, Min(w1, w2))
  {
    if w2 <= w1 {
      MaskWider(a, w1, w2);
    } else {
      MaskNarrower(a, w1, w2);
    }
  }

  // ---------------------------------------------------------------- networks

  datatype NetworkError = InvalidLength | UndefinedFamily

  /** `length` counts from the high end of the 128 bits, for IPv4 too. */
  datatype Network = Network(prefix: Address, length: nat)

  /** A network from any address in it and a prefix length as usual for the family. */
  function MakeNetwork(prefix: Address, length: int): Result<Network, NetworkError> {
    match prefix.family
    case Undef => Err(UndefinedFamily)
    case IPv4 =>
      if length < 0 || length > 32 then Err(InvalidLength)
      else Ok(Network(Mask(prefix, length + 96), length + 96))
    case IPv6 =>
      if length < 0 || length > 128 then Err(InvalidLength)
      else Ok(Network(Mask(prefix, length), length))
  }

  ghost predicate IsNetwork(n: Network) {
    exists prefix, length :: MakeNetwork(prefix, length) == Ok(n)
  }

  /** The prefix length as usual for the family. */
  function Length(n: Network): int {
    if n.prefix.family == IPv4 then n.length - 96 else n.length
  }

  predicate Contains(n: Network, x: Address)
    requires n.length <= 128
  {
    Same(Mask(x, n.length), n.prefix)
  }

  /** A network has the length it was made with, and contains exactly the addresses that share that many
      high-order bits with the address it was made from. */
  lemma ContainsExactly(prefix: Address, length: int, x: Address)
    requires MakeNetwork(prefix, length).Ok?
    ensures var n := MakeNetwork(prefix, length).value;
            && n.length <= 128 && Length(n) == length
            && (Contains(n, x) <==> Prefix(x, n.length) == Prefix(prefix, n.length))
  {
    MaskedEqual(x, prefix, MakeNetwork(prefix, length).value.length);
  }

  /** A network is made exactly from a prefix length that its family has. */
  lemma MadeExactly(prefix: Address, length: int)
    ensures MakeNetwork(prefix, length).Ok? <==>
              match prefix.family
              case Undef => false
              case IPv4 => 0 <= length <= 32
              case IPv6 => 0 <= length <= 128
    ensures MakeNetwork(prefix, length) == Err(UndefinedFamily) <==> prefix.family == Undef
  {
  }

  /** Addresses of 32 bits are in an IPv4 network exactly if they share its number of high-order bits with the address
      it was made from. */
  lemma ContainsIPv4Exactly(prefix: Address, length: int, x: Address)
    requires prefix.family == IPv4 && 0 <= length <= 32
    requires prefix.a1 == x.a1 == 0 && prefix.a2 < 0x1_0000_0000 && x.a2 < 0x1_0000_0000
    ensures var n := MakeNetwork(prefix, length);
            && n.Ok? && n.value.length <= 128
            && (Contains(n.value, x) <==> x.a2 / Pow2(32 - length) == prefix.a2 / Pow2(32 - length))
  {
    ContainsExactly(prefix, length, x);
    hide Mask, Pow2;
    assert Number(x) == x.a2 && Number(prefix) == prefix.a2;
  }

  /** The same for the 128 bits of IPv6. */
  lemma ContainsIPv6Exactly(prefix: Address, length: int, x: Address)
    requires prefix.family == IPv6 && 0 <= length <= 128
    ensures var n := MakeNetwork(prefix, length);
            && n.Ok? && n.value.length <= 128
            && (Contains(n.value, x) <==>
                  (x.a1 * WORD + x.a2) / Pow2(128 - length) == (prefix.a1 * WORD + prefix.a2) / Pow2(128 - length))
  {
    ContainsExactly(prefix, length, x);
    hide Mask, Pow2;
  }

  /** All of `n` lies in `m`. */
  ghost predicate Within(n: Network, m: Network)
    requires n.length <= 128 && m.length <= 128
  {
    forall x :: Contains(n, x) ==> Contains(m, x)
  }

  /** If two networks share an address, the one with the longer prefix lies within the other. */
  lemma SharedMeansNested(n: Network, m: Network, shared: Address)
    requires IsNetwork(n) && IsNetwork(m) && m.length <= n.length <= 128
    requires Contains(n, shared) && Contains(m, shared)
    ensures Within(n, m)
  {
    var p, k :| MakeNetwork(p, k) == Ok(n);
    var q, l :| MakeNetwork(q, l) == Ok(m);
    ContainsExactly(p, k, shared);
    ContainsExactly(q, l, shared);
    PrefixOfPrefix(shared, m.length, n.length);
    forall x | Contains(n, x)
      ensures Contains(m, x)
    {
      ContainsExactly(p, k, x);
      ContainsExactly(q, l, x);
      PrefixOfPrefix(x, m.length, n.length);
    }
  }

  /** Networks form a laminar family: any two are nested or disjoint. */
  lemma NestedOrDisjoint(n: Network, m: Network)
    requires IsNetwork(n) && IsNetwork(m)
    ensures n.length <= 128 && m.length <= 128
    ensures Within(n, m) || Within(m, n) || forall x :: !(Contains(n, x) && Contains(m, x))
  {
    if shared :| Contains(n, shared) && Contains(m, shared) {
      if m.length <= n.length {
        SharedMeansNested(n, m, shared);
      } else {
        SharedMeansNested(m, n, shared);
      }
    }
  }

  // ---------------------------------------------------------------- addresses as bytes

  datatype Error = UndefinedFamilyError | Range | Integer(error: Integers.Error)

  const U32: Integers.IntType := Integers.IntType(4, false)
  const U64: Integers.IntType := Integers.IntType(8, false)

  function IsLittle(order: Integers.ByteOrder, system: Integers.ByteOrder): bool {
    order == Integers.Little || (order == Integers.Host && system == Integers.Little)
  }

  function Pack(a: Address, order: Integers.ByteOrder, system: Integers.ByteOrder): Result<seq<byte>, Error> {
    match a.family
    case Undef => Err(UndefinedFamilyError)
    case IPv4 =>
      if a.a2 >= 0x1_0000_0000 then Err(Range)
      else (match Integers.Pack(U32, a.a2, order, system)
            case Ok(bs) => Ok(bs)
            case Err(e) => Err(Integer(e)))
    case IPv6 =>
      match (Integers.Pack(U64, a.a1, order, system), Integers.Pack(U64, a.a2, order, system))
      case (Ok(x), Ok(y)) => Ok(if IsLittle(order, system) then y + x else x + y)
      case (Err(e), _) => Err(Integer(e))
      case (_, Err(e)) => Err(Integer(e))
  }

  lemma WordRange(t: Integers.IntType, x: int)
    ensures Integers.Pow256(4) == 0x1_0000_0000 && Integers.Pow256(8) == WORD
    ensures !t.signed && Integers.InRange(t, x) ==> 0 <= x < WORD
  {
    assert Integers.Pow256(4) == 256 * 256 * 256 * 256;
    assert Integers.Pow256(8) == 256 * 256 * 256 * 256 * Integers.Pow256(4);
  }

  function UnpackWord(t: Integers.IntType, data: seq<byte>, order: Integers.ByteOrder, system: Integers.ByteOrder)
      : Result<(word, seq<byte>), Error>
    requires !t.signed
  {
    match Integers.Unpack(t, data, order, system)
    case Err(e) => Err(Integer(e))
    case Ok((x, rest)) =>
      Integers.PackUnpacked(t, data, order, system);
      WordRange(t, x);
      Ok((x, rest))
  }

  function Unpack(data: seq<byte>, family: Family, order: Integers.ByteOrder, system: Integers.ByteOrder)
      : Result<(Address, seq<byte>), Error>
  {
    match family
    case Undef => Err(UndefinedFamilyError)
    case IPv4 =>
      if |data| < 4 then Err(Integer(Integers.InsufficientData))
      else (match UnpackWord(U32, data, order, system)
            case Err(e) => Err(e)
            case Ok((x, rest)) => Ok((Address(0, x, IPv4), rest)))
    case IPv6 =>
      if |data| < 16 then Err(Integer(Integers.InsufficientData))
      else
        match UnpackWord(U64, data, order, system)
        case Err(e) => Err(e)
        case Ok((x, more)) =>
          match UnpackWord(U64, more, order, system)
          case Err(e) => Err(e)
          case Ok((y, rest)) =>
            Ok((if IsLittle(order, system) then Address(y, x, IPv6) else Address(x, y, IPv6), rest))
  }

  lemma UnpackPackedWord(t: Integers.IntType, x: word, order: Integers.ByteOrder, system: Integers.ByteOrder,
                         rest: seq<byte>)
    requires (t == U32 && x < 0x1_0000_0000) || t == U64
    requires Integers.Pack(t, x, order, system).Ok?
    ensures |Integers.Pack(t, x, order, system).value| == t.width
    ensures UnpackWord(t, Integers.Pack(t, x, order, system).value + rest, order, system) == Ok((x, rest))
  {
    WordRange(t, x);
    hide Integers.Pow256, Integers.Unpack, Integers.Wrap, Integers.Value, Integers.BigEndian;
    Integers.UnpackPacked(t, x, order, system, rest);
  }

  /** Unpacking a packed address returns it and the rest of the input, provided that an IPv4 address keeps
      to its 32 bits. */
  lemma UnpackPacked(a: Address, order: Integers.ByteOrder, system: Integers.ByteOrder, rest: seq<byte>)
    requires Pack(a, order, system).Ok?
    ensures Unpack(Pack(a, order, system).value + rest, a.family, order, system)
            == Ok((if a.family == IPv4 then a.(a1 := 0) else a, rest))
  {
    hide Integers.Pack, UnpackWord;
    if a.family == IPv4 {
      UnpackPackedWord(U32, a.a2, order, system, rest);
    } else {
      var x, y := Integers.Pack(U64, a.a1, order, system).value, Integers.Pack(U64, a.a2, order, system).value;
      var (fst, snd) := if IsLittle(order, system) then (a.a2, a.a1) else (a.a1, a.a2);
      var (p, q) := if IsLittle(order, system) then (y, x) else (x, y);
      UnpackPackedWord(U64, fst, order, system, q + rest);
      UnpackPackedWord(U64, snd, order, system, rest);
      assert p + (q + rest) == p + q + rest;
    }
  }

  lemma PackUnpackedWord(t: Integers.IntType, data: seq<byte>, order: Integers.ByteOrder, system: Integers.ByteOrder)
    requires !t.signed && UnpackWord(t, data, order, system).Ok?
    ensures var (x, rest) := UnpackWord(t, data, order, system).value;
            && Integers.Pack(t, x, order, system).Ok?
            && Integers.Pack(t, x, order, system).value + rest == data
            && (t == U32 ==> x < 0x1_0000_0000)
  {
    WordRange(t, 0);
    hide Integers.Pow256, Integers.Pack, Integers.Wrap, Integers.Value, Integers.BigEndian;
    Integers.PackUnpacked(t, data, order, system);
  }

  /** Packing an unpacked address returns the input. */
  lemma PackUnpacked(data: seq<byte>, family: Family, order: Integers.ByteOrder, system: Integers.ByteOrder)
    requires Unpack(data, family, order, system).Ok?
    ensures var (a, rest) := Unpack(data, family, order, system).value;
            && a.family == family && Pack(a, order, system).Ok?
            && Pack(a, order, system).value + rest == data
  {
    hide Integers.Pack, UnpackWord;
    if family == IPv4 {
      PackUnpackedWord(U32, data, order, system);
    } else {
      PackUnpackedWord(U64, data, order, system);
      var (x, more) := UnpackWord(U64, data, order, system).value;
      PackUnpackedWord(U64, more, order, system);
      var (y, rest) := UnpackWord(U64, more, order, system).value;
      var p, q := Integers.Pack(U64, x, order, system).value, Integers.Pack(U64, y, order, system).value;
      assert p + (q + rest) == p + q + rest;
    }
  }

  lemma {:induction false} ValueJoin(x: seq<byte>, y: seq<byte>)
    ensures Integers.Value(x + y) == Integers.Value(x) * Integers.Pow256(|y|) + Integers.Value(y)
    decreases |y|
  {
    if |y| == 0 {
      assert x + y == x;
    } else {
      var front, b := y[..|y| - 1], y[|y| - 1];
      ValueJoin(x, front);
      assert (x + y)[..|x + y| - 1] == x + front;
      assert Integers.Value(x + y) == Integers.Value(x + front) * 256 + b as nat;
      assert Integers.Value(y) == Integers.Value(front) * 256 + b as nat;
      var v, p := Integers.Value(x), Integers.Pow256(|front|);
      assert Integers.Pow256(|y|) == 256 * p;
      hide *;
      JoinStep(v, p, Integers.Value(front), b as nat);
    }
  }

  lemma JoinStep(v: nat, p: nat, f: nat, b: nat)
    ensures (v * p + f) * 256 + b == v * (256 * p) + (f * 256 + b)
  {
    Reassociate(v, p, 256);
  }

  /** The bytes of a packed address in network order: those of IPv6 are all 16 of the 128-bit number, those of IPv4 the
      lower four. The other order is the reverse. */
  lemma PackDenotes(a: Address, order: Integers.ByteOrder, system: Integers.ByteOrder)
    requires Pack(a, order, system).Ok?
    ensures var bs := Pack(a, order, system).value;
            && |bs| == (if a.family == IPv4 then 4 else 16)
            && Integers.Value(if IsLittle(order, system) then Integers.Reverse(bs) else bs)
               == if a.family == IPv4 then a.a2 else Number(a)
  {
    WordRange(U64, 0);
    hide Integers.Pow256, Integers.BigEndian, Integers.Value;
    if a.family == IPv4 {
      Integers.ValueOfBigEndian(a.a2, 4);
      Integers.DivUnique(a.a2, Integers.Pow256(4), 0, a.a2);
      assert IsLittle(order, system) ==>
          Integers.Reverse(Integers.Reverse(Integers.BigEndian(a.a2, 4))) == Integers.BigEndian(a.a2, 4);
    } else {
      var x, y := Integers.BigEndian(a.a1, 8), Integers.BigEndian(a.a2, 8);
      Integers.ValueOfBigEndian(a.a1, 8);
      Integers.ValueOfBigEndian(a.a2, 8);
      Integers.DivUnique(a.a1, Integers.Pow256(8), 0, a.a1);
      Integers.DivUnique(a.a2, Integers.Pow256(8), 0, a.a2);
      ValueJoin(x, y);
      assert IsLittle(order, system) ==>
          Integers.Reverse(Integers.Reverse(y) + Integers.Reverse(x)) == x + y;
    }
  }
}
