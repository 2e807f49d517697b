/**
 The storage codecs for bounded and unbounded numbers and for byte strings.
 */
module Codecs {
  import opened Cells
  import opened Rlp

  // ------------------------------------------------------------ numbers with limits

  // A commutative number and its limits, `width` bytes wide.
  datatype Limited = Limited(value: nat, min: nat, max: nat)

  ghost predicate InRange(x: Limited, width: nat) {
    x.value < Pow256(width) && x.min < Pow256(width) && x.max < Pow256(width)
  }

  lemma {:induction false} PowPositive(k: nat)
    ensures Pow256(k) > 0
  {
    if k > 0 {
      PowPositive(k - 1);
    }
  }

  function AllOnes(width: nat): nat {
    PowPositive(width);
    Pow256(width) - 1
  }

  // Limits other than "any value of this width".
  predicate HasLimits(x: Limited, width: nat) {
    !(x.min == 0 && x.max == AllOnes(width))
  }

  function IntItem(n: nat): Item {
    Str(ToBytes(n))
  }

  // The library's conversions keep the low bytes.
  function Truncate(n: nat, width: nat): nat {
    PowPositive(width);
    n % Pow256(width)
  }

  // Only canonical strings denote integers.
  function AsInt(x: Item): Option<nat> {
    if x.Str? && Canonical(x.bytes) then Some(FromBytes(x.bytes)) else None
  }

  lemma SmallMod(n: nat, m: nat)
    requires n < m
    ensures n % m == n
  {
  }

  lemma IntItemBack(n: nat, width: nat)
    requires n < Pow256(width)
    ensures AsInt(IntItem(n)) == Some(n) && FromBytes(ToBytes(n)) == n && Truncate(n, width) == n
    ensures |ToBytes(n)| <= width
  {
    SmallMod(n, Pow256(width));
    FromToBytes(n);
    ToBytesCanonical(n);
    ToBytesLength(n, width);
  }

  function Boxed(x: Limited): Item {
    List([IntItem(x.value), IntItem(x.min), IntItem(x.max)])
  }

  lemma EncodedLength(b: ByteString)
    requires |b| < 56
    ensures |b| < MAX_LENGTH && |EncodeStr(b)| <= |b| + 1
  {
    assert Pow256(8) == 256 * Pow256(7);
    PowPositive(7);
  }

  // Three numbers of at most 32 bytes make a list of at most 99 payload bytes: within a
  // short header for 8-byte numbers, and needing a long one for large 32-byte numbers.
  lemma BoxedFits(x: Limited, width: nat)
    requires width <= 32 && InRange(x, width)
    ensures Fits(IntItem(x.value)) && Fits(Boxed(x))
    ensures |EncodeAll(Boxed(x).items)| <= 3 * (width + 1)
  {
    IntItemBack(x.value, width);
    IntItemBack(x.min, width);
    IntItemBack(x.max, width);
    EncodedLength(ToBytes(x.value));
    EncodedLength(ToBytes(x.min));
    EncodedLength(ToBytes(x.max));
    BoxedPayload(IntItem(x.value), IntItem(x.min), IntItem(x.max));
    assert MAX_LENGTH == 256 * 256 * Pow256(6);
    PowPositive(6);
  }

  lemma BoxedPayload(a: Item, b: Item, c: Item)
    requires Fits(a) && Fits(b) && Fits(c)
    ensures FitAll([a, b, c]) && EncodeAll([a, b, c]) == Encode(a) + (Encode(b) + (Encode(c) + []))
  {
    assert [c][1..] == [];
    assert FitAll([c]) && EncodeAll([c]) == Encode(c) + [];
    assert [b, c][1..] == [c];
    assert FitAll([b, c]) && EncodeAll([b, c]) == Encode(b) + EncodeAll([c]);
    assert [a, b, c][1..] == [b, c];
  }

  // With limits a list of three integers, without a bare integer.
  function EncodeLimited(x: Limited, width: nat): ByteString
    requires width <= 32 && InRange(x, width)
  {
    BoxedFits(x, width);
    if HasLimits(x, width) then Encode(Boxed(x)) else Encode(IntItem(x.value))
  }

  function BareNumber(item: Item, width: nat): Option<Limited> {
    if AsInt(item).None? then None else Some(Limited(Truncate(AsInt(item).value, width), 0, AllOnes(width)))
  }

  // The form is told by the first byte alone: a bare integer never parses as a list.
  lemma ListFormIffLimits(x: Limited, width: nat)
    requires width <= 32 && InRange(x, width)
    ensures EncodeLimited(x, width) != [] && (EncodeLimited(x, width)[0] >= 0xc0 <==> HasLimits(x, width))
  {
    BoxedFits(x, width);
    IntItemBack(x.value, width);
  }

  lemma LimitedDecodes(x: Limited, width: nat)
    requires width <= 32 && InRange(x, width)
    ensures DecodeBytes(EncodeLimited(x, width)) == Some(if HasLimits(x, width) then Boxed(x) else IntItem(x.value))
  {
    BoxedFits(x, width);
    if HasLimits(x, width) {
      RoundTripBytes(Boxed(x));
    } else {
      RoundTripBytes(IntItem(x.value));
    }
  }

  // ------------------------------------------------------------ Uint64

  const UINT64_WIDTH: nat := 8

  // A list of canonical integers first; if the input is none, a bare integer.
  function DecodeIntegers(b: ByteString, width: nat): Option<Limited> {
    var item := DecodeBytes(b);
    if item.None? then None
    else if item.value.Str? then BareNumber(item.value, width)
    else ListedNumbers(item.value.items, width)
  }

  function ListedNumbers(items: seq<Item>, width: nat): Option<Limited> {
    if |items| < 3 || exists i :: 0 <= i < |items| && AsInt(items[i]).None? then None
    else Some(Limited(
                Truncate(AsInt(items[0]).value, width),
                Truncate(AsInt(items[1]).value, width),
                Truncate(AsInt(items[2]).value, width)))
  }

  lemma ListedBack(x: Limited, width: nat)
    requires width <= 32 && InRange(x, width)
    ensures ListedNumbers(Boxed(x).items, width) == Some(x)
  {
    IntItemBack(x.value, width);
    IntItemBack(x.min, width);
    IntItemBack(x.max, width);
    var items := Boxed(x).items;
    assert items[0] == IntItem(x.value) && items[1] == IntItem(x.min) && items[2] == IntItem(x.max);
  }

  lemma IntegersRoundTrip(x: Limited, width: nat)
    requires width <= 32 && InRange(x, width)
    ensures DecodeIntegers(EncodeLimited(x, width), width) == Some(x)
  {
    LimitedDecodes(x, width);
    if HasLimits(x, width) {
      ListedBack(x, width);
    } else {
      IntItemBack(x.value, width);
    }
  }

  function EncodeUint64(x: Limited): ByteString
    requires InRange(x, UINT64_WIDTH)
  {
    EncodeLimited(x, UINT64_WIDTH)
  }

  function DecodeUint64(b: ByteString): Option<Limited> {
    DecodeIntegers(b, UINT64_WIDTH)
  }

  // Value and limits come back, for every value and every limits.
  lemma Uint64RoundTrip(x: Limited)
    requires InRange(x, UINT64_WIDTH)
    ensures DecodeUint64(EncodeUint64(x)) == Some(x)
  {
    IntegersRoundTrip(x, UINT64_WIDTH);
  }

  // The stored form: a bare integer exactly for the limits 0 and 2^64 - 1, else the list of
  // value, lower and upper limit.
  lemma Uint64Format(x: Limited)
    requires InRange(x, UINT64_WIDTH)
    ensures Fits(IntItem(x.value)) && Fits(Boxed(x))
    ensures EncodeUint64(x) ==
              if x.min == 0 && x.max == 0xffff_ffff_ffff_ffff then Encode(Str(ToBytes(x.value)))
              else Encode(List([Str(ToBytes(x.value)), Str(ToBytes(x.min)), Str(ToBytes(x.max))]))
  {
    BoxedFits(x, UINT64_WIDTH);
    MaxLengthValue();
  }

  // Of a bare integer the low 64 bits are kept, and its limits are "any".
  lemma LowBitsKept(n: nat)
    requires Fits(IntItem(n))
    ensures DecodeUint64(Encode(IntItem(n)))
         == Some(Limited(n % 0x1_0000_0000_0000_0000, 0, 0xffff_ffff_ffff_ffff))
    ensures DecodeU256(Encode(IntItem(n))) == Some(Limited(n % (MAX_U256 + 1), 0, MAX_U256))
  {
    RoundTripBytes(IntItem(n));
    FromToBytes(n);
    ToBytesCanonical(n);
    MaxLengthValue();
    AllOnesU256();
  }

  // Which lists are taken: three or more canonical integers, the first three of which count.
  lemma Uint64Lists(items: seq<Item>)
    requires Fits(List(items))
    ensures DecodeUint64(Encode(List(items))).Some?
       <==> |items| >= 3 && forall i :: 0 <= i < |items| ==> items[i].Str? && Canonical(items[i].bytes)
    ensures var r := DecodeUint64(Encode(List(items)));
            r.Some? ==>
              && r.value.value == FromBytes(items[0].bytes) % 0x1_0000_0000_0000_0000
              && r.value.min == FromBytes(items[1].bytes) % 0x1_0000_0000_0000_0000
              && r.value.max == FromBytes(items[2].bytes) % 0x1_0000_0000_0000_0000
  {
    RoundTripBytes(List(items));
    MaxLengthValue();
  }

  // A list whose numbers have leading zeros is refused here and taken by U256.
  lemma LeadingZerosInLists(b: ByteString, c: ByteString, d: ByteString)
    requires !Canonical(b) && Fits(List([Str(b), Str(c), Str(d)]))
    ensures DecodeUint64(Encode(List([Str(b), Str(c), Str(d)]))) == None
    ensures DecodeU256(Encode(List([Str(b), Str(c), Str(d)]))).Some?
  {
    RoundTripBytes(List([Str(b), Str(c), Str(d)]));
  }

  // ------------------------------------------------------------ U256

  const U256_WIDTH: nat := 32

  // A list of byte strings first, of any bytes; if the input is none, a bare integer.
  function DecodeStrings(b: ByteString, width: nat): Option<Limited> {
    var item := DecodeBytes(b);
    if item.None? then None
    else if item.value.Str? then BareNumber(item.value, width)
    else
      var items := item.value.items;
      if |items| < 3 || !items[0].Str? || !items[1].Str? || !items[2].Str? then None
      else Some(Limited(
                  Truncate(FromBytes(items[0].bytes), width),
                  Truncate(FromBytes(items[1].bytes), width),
                  Truncate(FromBytes(items[2].bytes), width)))
  }

  lemma StringsRoundTrip(x: Limited, width: nat)
    requires width <= 32 && InRange(x, width)
    ensures DecodeStrings(EncodeLimited(x, width), width) == Some(x)
  {
    LimitedDecodes(x, width);
    IntItemBack(x.value, width);
    IntItemBack(x.min, width);
    IntItemBack(x.max, width);
    if HasLimits(x, width) {
      var items := Boxed(x).items;
      assert items[0].bytes == ToBytes(x.value) && items[1].bytes == ToBytes(x.min) && items[2].bytes == ToBytes(x.max);
    }
  }

  function EncodeU256(x: Limited): ByteString
    requires InRange(x, U256_WIDTH)
  {
    EncodeLimited(x, U256_WIDTH)
  }

  function DecodeU256(b: ByteString): Option<Limited> {
    DecodeStrings(b, U256_WIDTH)
  }

  lemma U256RoundTrip(x: Limited)
    requires InRange(x, U256_WIDTH)
    ensures DecodeU256(EncodeU256(x)) == Some(x)
  {
    StringsRoundTrip(x, U256_WIDTH);
  }

  const MAX_U256: nat := 0xffff_ffff_ffff_ffff_ffff_ffff_ffff_ffff_ffff_ffff_ffff_ffff_ffff_ffff_ffff_ffff

  lemma AllOnesU256()
    ensures AllOnes(U256_WIDTH) == MAX_U256
  {
    assert Pow256(8) == 0x1_0000_0000_0000_0000 by {
      MaxLengthValue();
    }
    PowAdd(8, 8);
    PowAdd(16, 16);
  }

  lemma {:induction false} PowAdd(a: nat, b: nat)
    ensures Pow256(a + b) == Pow256(a) * Pow256(b)
  {
    if a > 0 {
      PowAdd(a - 1, b);
      assert Pow256(a + b) == 256 * (Pow256(a - 1) * Pow256(b));
    }
  }

  // The stored form, as for Uint64 with 2^256 - 1.
  lemma U256Format(x: Limited)
    requires InRange(x, U256_WIDTH)
    ensures Fits(IntItem(x.value)) && Fits(Boxed(x))
    ensures EncodeU256(x) ==
              if x.min == 0 && x.max == MAX_U256
              then Encode(Str(ToBytes(x.value)))
              else Encode(List([Str(ToBytes(x.value)), Str(ToBytes(x.min)), Str(ToBytes(x.max))]))
  {
    BoxedFits(x, U256_WIDTH);
    AllOnesU256();
  }

  // ------------------------------------------------------------ Int64

  // A signed number; None for its limits is "any".
  datatype Signed = Signed(value: int, limits: Option<(int, int)>)

  // The library's fixed-width codec: eight bytes, and back.
  datatype FixedCodec = FixedCodec(encode: int -> ByteString, decode: ByteString -> int)

  ghost predicate Faithful(c: FixedCodec, n: int) {
    |c.encode(n)| == 8 && c.decode(c.encode(n)) == n
  }

  lemma EightByteItem(b: ByteString)
    requires |b| == 8
    ensures Fits(Str(b)) && |Encode(Str(b))| == 9
  {
    EncodedLength(b);
  }

  function SignedItem(c: FixedCodec, x: Signed): Item {
    if x.limits.Some? then
      List([Str(c.encode(x.value)), Str(c.encode(x.limits.value.0)), Str(c.encode(x.limits.value.1))])
    else Str(c.encode(x.value))
  }

  ghost predicate Encodable(c: FixedCodec, x: Signed) {
    && Faithful(c, x.value)
    && (x.limits.Some? ==> Faithful(c, x.limits.value.0) && Faithful(c, x.limits.value.1))
  }

  lemma SignedFits(c: FixedCodec, x: Signed)
    requires Encodable(c, x)
    ensures Fits(SignedItem(c, x))
    ensures |Encode(SignedItem(c, x))| == if x.limits.Some? then 28 else 9
  {
    EightByteItem(c.encode(x.value));
    if x.limits.Some? {
      EightByteItem(c.encode(x.limits.value.0));
      EightByteItem(c.encode(x.limits.value.1));
      BoxedPayload(Str(c.encode(x.value)), Str(c.encode(x.limits.value.0)), Str(c.encode(x.limits.value.1)));
      assert MAX_LENGTH == 256 * Pow256(7);
      PowPositive(7);
    }
  }

  function EncodeInt64(c: FixedCodec, x: Signed): (r: ByteString)
    requires Fits(SignedItem(c, x))
  {
    Encode(SignedItem(c, x))
  }

  // Nine bytes mean a bare number.
  function DecodeInt64(c: FixedCodec, b: ByteString): Option<Signed> {
    var item := DecodeBytes(b);
    if item.None? then None
    else if |b| == 9 then
      if !item.value.Str? then None else Some(Signed(c.decode(item.value.bytes), None))
    else if item.value.List? && |item.value.items| >= 3
         && item.value.items[0].Str? && item.value.items[1].Str? && item.value.items[2].Str? then
      var items := item.value.items;
      Some(Signed(c.decode(items[0].bytes), Some((c.decode(items[1].bytes), c.decode(items[2].bytes)))))
    else None
  }

  // Unbounded numbers always take 9 bytes and bounded ones 28, so the length test picks
  // the right form and the number comes back with its limits.
  lemma Int64RoundTrip(c: FixedCodec, x: Signed)
    requires Encodable(c, x)
    ensures Fits(SignedItem(c, x))
    ensures |EncodeInt64(c, x)| == if x.limits.Some? then 28 else 9
    ensures DecodeInt64(c, EncodeInt64(c, x)) == Some(x)
  {
    SignedFits(c, x);
    RoundTripBytes(SignedItem(c, x));
  }

  // Nine bytes are a bare number behind 0x88, or an error; never a list.
  lemma NineBytes(c: FixedCodec, b: ByteString)
    requires |b| == 9
    ensures DecodeInt64(c, b) == if b[0] == 0x88 then Some(Signed(c.decode(b[1..]), None)) else None
  {
    if b[0] == 0x88 {
      assert b[1..1 + 8] == b[1..] && b[1 + 8..] == [];
    } else if 0x80 <= b[0] < 0x88 {
      assert |b[1 + (b[0] - 0x80)..]| > 0;
    }
  }

  // The stored form: eight bytes behind 0x88, three times behind 0xdb if there are limits.
  lemma Int64Format(c: FixedCodec, x: Signed)
    requires Encodable(c, x)
    ensures Fits(SignedItem(c, x))
    ensures EncodeInt64(c, x) ==
              if x.limits.None? then [0x88] + c.encode(x.value)
              else [0xdb] + ([0x88] + c.encode(x.value))
                   + ([0x88] + c.encode(x.limits.value.0)) + ([0x88] + c.encode(x.limits.value.1))
  {
    SignedFits(c, x);
    MaxLengthValue();
    if x.limits.Some? {
      BoxedPayload(Str(c.encode(x.value)), Str(c.encode(x.limits.value.0)), Str(c.encode(x.limits.value.1)));
    }
  }

  // ------------------------------------------------------------ Bytes

  lemma BytesFit(raw: ByteString)
    requires |raw| < MAX_LENGTH
    ensures ToBytes(FromBytes(raw)) == StripZeros(raw) && Fits(Str(ToBytes(FromBytes(raw))))
  {
    StripDenotesSame(raw);
    ToFromBytes(StripZeros(raw));
  }

  // Through a big integer.
  function EncodeByteString(raw: ByteString): ByteString
    requires |raw| < MAX_LENGTH
  {
    BytesFit(raw);
    Encode(Str(ToBytes(FromBytes(raw))))
  }

  function DecodeByteString(b: ByteString): Option<ByteString> {
    var item := DecodeBytes(b);
    if item.Some? && item.value.Str? then Some(item.value.bytes) else None
  }

  // The leading zeros are lost: the round trip is the identity exactly on strings
  // without any.
  lemma BytesRoundTrip(raw: ByteString)
    requires |raw| < MAX_LENGTH
    ensures DecodeByteString(EncodeByteString(raw)) == Some(StripZeros(raw))
    ensures DecodeByteString(EncodeByteString(raw)) == Some(raw) <==> raw == [] || raw[0] != 0
  {
    BytesFit(raw);
    StripDenotesSame(raw);
    RoundTripBytes(Str(ToBytes(FromBytes(raw))));
  }

  lemma LeadingZeroIsLost()
    ensures var raw: ByteString := [0, 1]; DecodeByteString(EncodeByteString(raw)) == Some(raw[1..])
  {
    var raw: ByteString := [0, 1];
    assert raw[1..] == [1] && StripZeros(raw[1..]) == [1];
    BytesRoundTrip(raw);
  }
}
