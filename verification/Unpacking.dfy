/** Unpacking integers and addresses from views: the same as unpacking them from the bytes of the view,
    however these are cut into chunks. */
module Unpacking {
  import opened Basics
  import opened Layout
  import opened Views
  import Addresses
  import Extraction
  import Integers

  /** The first `n` bytes of the view, as far as it has them, are data. */
  ghost predicate DataAhead(v: View, n: nat)
    requires v.Bound()
    reads v.chain, v.chain.nodes
  {
    NoGaps(v.chain.history, v.begin.offset, v.begin.offset + n)
  }

  /** `rest` is the view `v` without its first `n` bytes. */
  ghost predicate After(rest: View, v: View, n: nat)
    requires v.Bound() && n <= |v.Text()|
    reads v.chain, v.chain.nodes
  {
    && rest.chain == v.chain && rest.Bound() && rest.begin.offset == v.begin.offset + n
    && rest.Text() == v.Text()[n..]
  }

  /** An exception where data is missing, or an error that is returned. */
  datatype Error = MissingData | Refused(error: Integers.Error)

  method ExtractRaw(v: View, n: nat) returns (raw: array<byte>, ok: bool, rest: View)
    requires v.Bound() && 0 < n <= |v.Text()|
    ensures fresh(raw) && (ok <==> DataAhead(v, n))
    ensures ok ==> raw[..] == v.Text()[..n] && After(rest, v, n)
  {
    raw := new byte[n];
    Extraction.OutcomeWithin(v, n);
    hide Laid, View.Text, View.Limit, Views.TextOf, View.Bound, NoGaps, Extraction.OutcomeOf;
    var x := Extraction.Extract(v, raw, n);
    ok, rest := x.Ok?, v;
    if ok {
      rest := x.value;
      Extraction.RestOfText(v, rest, n);
      Extraction.TextPrefix(v, n);
      assert raw[..] == raw[..n];
    }
  }

  /** What unpacking an integer from a view means. */
  ghost function IntegerOf(t: Integers.IntType, v: View, order: Integers.ByteOrder, system: Integers.ByteOrder)
      : Result<(int, seq<byte>), Error>
    requires v.Bound()
    reads v.chain, v.chain.nodes
  {
    if |v.Text()| >= t.width && !DataAhead(v, t.width) then Err(MissingData)
    else
      match Integers.Unpack(t, v.Text(), order, system)
      case Ok(r) => Ok(r)
      case Err(e) => Err(Refused(e))
  }

  /** The cases of unpacking an integer, of which `raw` are the bytes. */
  lemma IntegerCases(t: Integers.IntType, v: View, order: Integers.ByteOrder, system: Integers.ByteOrder,
                     raw: seq<byte>)
    requires v.Bound() && (system == Integers.Big || system == Integers.Little)
    requires |v.Text()| >= t.width ==> raw == v.Text()[..t.width]
    ensures t.width > 0 && |v.Text()| == v.Limit() - v.begin.offset
    ensures var x := IntegerOf(t, v, order, system);
            if order == Integers.Host then x == IntegerOf(t, v, system, system)
            else if |v.Text()| < t.width then x == Err(Refused(Integers.InsufficientData))
            else if !DataAhead(v, t.width) then x == Err(MissingData)
            else if order == Integers.Undef then x == Err(Refused(Integers.UndefinedByteOrder))
            else x == Ok((Integers.Wrap(t, Integers.Value(Integers.Arrange(raw, order == Integers.Little))),
                          v.Text()[t.width..]))
  {
    hide Integers.Wrap, Integers.Value, Integers.Arrange, DataAhead, View.Bound;
  }

  method UnpackInteger(t: Integers.IntType, v: View, order: Integers.ByteOrder, system: Integers.ByteOrder)
      returns (r: Result<(int, View), Error>)
    requires v.Bound() && (system == Integers.Big || system == Integers.Little)
    ensures var s := IntegerOf(t, v, order, system);
            && (r.Ok? <==> s.Ok?)
            && (r.Err? ==> r.error == s.error)
            && (r.Ok? ==> r.value.0 == s.value.0 && |v.Text()| >= t.width && After(r.value.1, v, t.width)
                          && s.value.1 == v.Text()[t.width..])
    decreases order == Integers.Host
  {
    hide *;
    IntegerCases(t, v, order, system, if |v.Text()| >= t.width then v.Text()[..t.width] else []);
    if order == Integers.Host {
      r := UnpackInteger(t, v, system, system);
      return;
    }
    BoundParts(v);
    var size := v.Size();
    if size < t.width {
      return Err(Refused(Integers.InsufficientData));
    }
    var raw, ok, rest := ExtractRaw(v, t.width);
    if !ok {
      return Err(MissingData);
    }
    match order
    case Undef => return Err(Refused(Integers.UndefinedByteOrder));
    case Little =>
      var i := Integers.UnpackRaw(t, raw, true);
      return Ok((i, rest));
    case Big | Network =>
      var i := Integers.UnpackRaw(t, raw, false);
      return Ok((i, rest));
  }

  lemma DataAfter(v: View, rest: View, n: nat, m: nat)
    requires v.Bound() && n <= |v.Text()| && After(rest, v, n)
    ensures DataAhead(v, n + m) <==> DataAhead(v, n) && DataAhead(rest, m)
  {
  }

  lemma AfterTwice(v: View, next: View, rest: View, n: nat, m: nat)
    requires v.Bound() && n <= |v.Text()| && After(next, v, n)
    requires m <= |next.Text()| && After(rest, next, m)
    ensures n + m <= |v.Text()| && After(rest, v, n + m)
  {
    assert v.Text()[n..][m..] == v.Text()[n + m..];
  }

  datatype AddressError = AddressMissing | AddressRefused(error: Addresses.Error)

  /** What unpacking a word from a view means. */
  ghost function WordOf(t: Integers.IntType, v: View, order: Integers.ByteOrder, system: Integers.ByteOrder)
      : Result<Addresses.word, AddressError>
    requires v.Bound() && !t.signed
    reads v.chain, v.chain.nodes
  {
    if |v.Text()| >= t.width && !DataAhead(v, t.width) then Err(AddressMissing)
    else
      match Addresses.UnpackWord(t, v.Text(), order, system)
      case Ok((x, _)) => Ok(x)
      case Err(e) => Err(AddressRefused(e))
  }

  ghost predicate WordUnpacked(t: Integers.IntType, v: View, order: Integers.ByteOrder, system: Integers.ByteOrder,
                               r: Result<(Addresses.word, View), AddressError>)
    requires v.Bound() && !t.signed
    reads v.chain, v.chain.nodes
  {
    match r
    case Err(e) => WordOf(t, v, order, system) == Err(e)
    case Ok((x, rest)) =>
      WordOf(t, v, order, system) == Ok(x) && |v.Text()| >= t.width && After(rest, v, t.width)
  }

  method UnpackWord(t: Integers.IntType, v: View, order: Integers.ByteOrder, system: Integers.ByteOrder)
      returns (r: Result<(Addresses.word, View), AddressError>)
    requires v.Bound() && !t.signed && (system == Integers.Big || system == Integers.Little)
    ensures WordUnpacked(t, v, order, system, r)
    ensures r.Ok? ==> r.value.1.Bound()
  {
    hide View.Text, View.Limit, View.Bound, DataAhead, Integers.Unpack;
    var x := UnpackInteger(t, v, order, system);
    match x
    case Err(MissingData) => r := Err(AddressMissing);
    case Err(Refused(e)) => r := Err(AddressRefused(Addresses.Integer(e)));
    case Ok((i, rest)) =>
      Integers.PackUnpacked(t, v.Text(), order, system);
      Addresses.WordRange(t, i);
      r := Ok((i, rest));
  }

  /** The number of bytes that an address takes. */
  function Width(family: Addresses.Family): nat {
    match family
    case Undef => 0
    case IPv4 => 4
    case IPv6 => 16
  }

  /** Data is missing that unpacking an address comes to: without a byte order, it fails after the first word. */
  ghost predicate Missing(v: View, family: Addresses.Family, order: Integers.ByteOrder, system: Integers.ByteOrder)
    requires v.Bound()
    reads v.chain, v.chain.nodes
  {
    && |v.Text()| >= Width(family)
    && !DataAhead(v, if Integers.Resolve(order, system) == Integers.Undef then Min(8, Width(family)) else Width(family))
  }

  /** What unpacking an address from a view means: the same as from its text, unless data is missing. */
  ghost function AddressOf(v: View, family: Addresses.Family, order: Integers.ByteOrder, system: Integers.ByteOrder)
      : Result<Addresses.Address, AddressError>
    requires v.Bound()
    reads v.chain, v.chain.nodes
  {
    if Missing(v, family, order, system) then Err(AddressMissing)
    else
      match Addresses.Unpack(v.Text(), family, order, system)
      case Ok((x, _)) => Ok(x)
      case Err(e) => Err(AddressRefused(e))
  }

  ghost predicate AddressUnpacked(v: View, family: Addresses.Family, order: Integers.ByteOrder,
                                  system: Integers.ByteOrder, r: Result<(Addresses.Address, View), AddressError>)
    requires v.Bound()
    reads v.chain, v.chain.nodes
  {
    match r
    case Err(e) => AddressOf(v, family, order, system) == Err(e)
    case Ok((x, rest)) =>
      AddressOf(v, family, order, system) == Ok(x) && |v.Text()| >= Width(family) && After(rest, v, Width(family))
  }

  /** Unpacking takes the address's bytes off the text. */
  lemma RestOfAddress(data: seq<byte>, family: Addresses.Family, order: Integers.ByteOrder,
                      system: Integers.ByteOrder)
    requires Addresses.Unpack(data, family, order, system).Ok?
    ensures |data| >= Width(family) && Addresses.Unpack(data, family, order, system).value.1 == data[Width(family)..]
  {
    if family == Addresses.IPv6 {
      assert data[8..][8..] == data[16..];
    }
  }

  method UnpackAddress(v: View, family: Addresses.Family, order: Integers.ByteOrder, system: Integers.ByteOrder)
      returns (r: Result<(Addresses.Address, View), AddressError>)
    requires v.Bound() && (system == Integers.Big || system == Integers.Little)
    ensures AddressUnpacked(v, family, order, system, r)
  {
    match family
    case Undef =>
      NoDataNeeded(v);
      return Err(AddressRefused(Addresses.UndefinedFamilyError));
    case IPv4 =>
      r := UnpackIPv4(v, order, system);
    case IPv6 =>
      r := UnpackIPv6(v, order, system);
  }

  method UnpackIPv4(v: View, order: Integers.ByteOrder, system: Integers.ByteOrder)
      returns (r: Result<(Addresses.Address, View), AddressError>)
    requires v.Bound() && (system == Integers.Big || system == Integers.Little)
    ensures AddressUnpacked(v, Addresses.IPv4, order, system, r)
  {
    hide *;
    TooShort(v, Addresses.IPv4, order, system);
    BoundParts(v);
    var size := v.Size();
    if size < 4 {
      return Err(AddressRefused(Addresses.Integer(Integers.InsufficientData)));
    }
    var x := UnpackWord(Addresses.U32, v, order, system);
    IPv4FromWord(v, order, system, x);
    match x {
      case Err(e) => return Err(e);
      case Ok((i, rest)) => return Ok((Addresses.Address(0, i, Addresses.IPv4), rest));
    }
  }

  method UnpackIPv6(v: View, order: Integers.ByteOrder, system: Integers.ByteOrder)
      returns (r: Result<(Addresses.Address, View), AddressError>)
    requires v.Bound() && (system == Integers.Big || system == Integers.Little)
    ensures AddressUnpacked(v, Addresses.IPv6, order, system, r)
  {
    hide *;
    TooShort(v, Addresses.IPv6, order, system);
    BoundParts(v);
    var size := v.Size();
    if size < 16 {
      return Err(AddressRefused(Addresses.Integer(Integers.InsufficientData)));
    }
    var x := UnpackWord(Addresses.U64, v, order, system);
    match x {
      case Err(e) =>
        IPv6FirstFails(v, order, system, x);
        return Err(e);
      case Ok((i, more)) =>
        var y := UnpackWord(Addresses.U64, more, order, system);
        MoreIsBound(v, order, system, x);
        IPv6FromWords(v, order, system, x, y);
        match y {
          case Err(e) => return Err(e);
          case Ok((j, rest)) =>
            if Addresses.IsLittle(order, system) {
              return Ok((Addresses.Address(j, i, Addresses.IPv6), rest));
            }
            return Ok((Addresses.Address(i, j, Addresses.IPv6), rest));
        }
    }
  }

  lemma TooShort(v: View, family: Addresses.Family, order: Integers.ByteOrder, system: Integers.ByteOrder)
    requires v.Bound() && family != Addresses.Undef
    ensures |v.Text()| == v.Limit() - v.begin.offset && Width(family) == if family.IPv4? then 4 else 16
    ensures |v.Text()| < Width(family) ==>
              AddressUnpacked(v, family, order, system,
                              Err(AddressRefused(Addresses.Integer(Integers.InsufficientData))))
    ensures Addresses.U32.width == 4 && Addresses.U64.width == 8 && !Addresses.U32.signed && !Addresses.U64.signed
  {
  }

  lemma IPv4FromWord(v: View, order: Integers.ByteOrder, system: Integers.ByteOrder,
                     x: Result<(Addresses.word, View), AddressError>)
    requires v.Bound() && |v.Text()| >= 4 && WordUnpacked(Addresses.U32, v, order, system, x)
    ensures AddressUnpacked(v, Addresses.IPv4, order, system,
                            if x.Err? then Err(x.error)
                            else Ok((Addresses.Address(0, x.value.0, Addresses.IPv4), x.value.1)))
  {
    hide View.Text, View.Limit, View.Bound, DataAhead, After, Addresses.UnpackWord;
  }

  /** IPv6 addresses in terms of their words. */
  lemma TwoWords(data: seq<byte>, order: Integers.ByteOrder, system: Integers.ByteOrder)
    requires |data| >= 16 && (system == Integers.Big || system == Integers.Little)
    ensures var (x, y) := (Addresses.UnpackWord(Addresses.U64, data, order, system),
                           Addresses.UnpackWord(Addresses.U64, data[8..], order, system));
            var r := Addresses.Unpack(data, Addresses.IPv6, order, system);
            && (x.Err? ==> r == Err(x.error) && Integers.Resolve(order, system) == Integers.Undef)
            && (x.Ok? ==> y.Ok? && Integers.Resolve(order, system) != Integers.Undef && r.Ok?
                          && r.value.0 == (if Addresses.IsLittle(order, system)
                                           then Addresses.Address(y.value.0, x.value.0, Addresses.IPv6)
                                           else Addresses.Address(x.value.0, y.value.0, Addresses.IPv6)))
  {
    OrderDecides(data, order, system);
    OrderDecides(data[8..], order, system);
  }

  /** What is missing in a view with enough bytes for an IPv6 address. */
  lemma MissingWords(v: View, order: Integers.ByteOrder, system: Integers.ByteOrder)
    requires v.Bound() && |v.Text()| >= 16
    ensures Missing(v, Addresses.IPv6, order, system)
            <==> !DataAhead(v, 8) || (Integers.Resolve(order, system) != Integers.Undef && !DataAhead(v, 16))
  {
    DataPrefix(v, 8, 16);
  }

  lemma IPv6FirstFails(v: View, order: Integers.ByteOrder, system: Integers.ByteOrder,
                       x: Result<(Addresses.word, View), AddressError>)
    requires v.Bound() && |v.Text()| >= 16 && WordUnpacked(Addresses.U64, v, order, system, x) && x.Err?
    requires system == Integers.Big || system == Integers.Little
    ensures AddressUnpacked(v, Addresses.IPv6, order, system, Err(x.error))
  {
    TwoWords(v.Text(), order, system);
    MissingWords(v, order, system);
    hide View.Text, View.Limit, View.Bound, DataAhead, After, Missing, Addresses.UnpackWord, Addresses.Unpack,
         Integers.Resolve;
  }

  lemma MoreIsBound(v: View, order: Integers.ByteOrder, system: Integers.ByteOrder,
                    x: Result<(Addresses.word, View), AddressError>)
    requires v.Bound() && WordUnpacked(Addresses.U64, v, order, system, x) && x.Ok?
    ensures x.value.1.Bound()
  {
  }

  lemma IPv6FromWords(v: View, order: Integers.ByteOrder, system: Integers.ByteOrder,
                      x: Result<(Addresses.word, View), AddressError>, y: Result<(Addresses.word, View), AddressError>)
    requires v.Bound() && |v.Text()| >= 16 && WordUnpacked(Addresses.U64, v, order, system, x) && x.Ok?
    requires x.value.1.Bound() && WordUnpacked(Addresses.U64, x.value.1, order, system, y)
    requires system == Integers.Big || system == Integers.Little
    ensures y.Err? ==> AddressUnpacked(v, Addresses.IPv6, order, system, Err(y.error))
    ensures y.Ok? ==>
              var (i, j) := (x.value.0, y.value.0);
              AddressUnpacked(v, Addresses.IPv6, order, system,
                              Ok((if Addresses.IsLittle(order, system) then Addresses.Address(j, i, Addresses.IPv6)
                                  else Addresses.Address(i, j, Addresses.IPv6), y.value.1)))
  {
    var more := x.value.1;
    TwoWords(v.Text(), order, system);
    MissingWords(v, order, system);
    DataAfter(v, more, 8, 8);
    TextAfter(more, v, 8);
    if y.Ok? {
      AfterTwice(v, more, y.value.1, 8, 8);
    }
    hide View.Text, View.Limit, View.Bound, DataAhead, After, Missing, Addresses.UnpackWord, Addresses.Unpack,
         Integers.Resolve;
  }

  /** With enough data, only an undefined byte order is refused. */
  lemma OrderDecides(data: seq<byte>, order: Integers.ByteOrder, system: Integers.ByteOrder)
    requires system == Integers.Big || system == Integers.Little
    ensures |data| >= 4 ==> (Addresses.UnpackWord(Addresses.U32, data, order, system).Ok?
                             <==> Integers.Resolve(order, system) != Integers.Undef)
    ensures |data| >= 8 ==> (Addresses.UnpackWord(Addresses.U64, data, order, system).Ok?
                             <==> Integers.Resolve(order, system) != Integers.Undef)
  {
  }

  lemma NoDataNeeded(v: View)
    requires v.Bound()
    ensures DataAhead(v, 0) && |v.Text()| == v.Limit() - v.begin.offset
  {
  }

  lemma DataPrefix(v: View, n: nat, m: nat)
    requires v.Bound() && n <= m
    ensures DataAhead(v, m) ==> DataAhead(v, n)
  {
  }

  lemma TextAfter(rest: View, v: View, n: nat)
    requires v.Bound() && n <= |v.Text()| && After(rest, v, n)
    ensures rest.Bound() && rest.Text() == v.Text()[n..]
  {
  }
}
