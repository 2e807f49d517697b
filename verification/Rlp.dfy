/**
 Recursive Length Prefix encoding (Appendix B of the Ethereum Yellow Paper), with
 the strict decoder the Ethereum library uses: non-canonical headers are refused.
 */
module Rlp {
  import opened Cells

  type byte = x: int | 0 <= x < 256
  type ByteString = seq<byte>

  // ------------------------------------------------------------ integers as bytes

  // Big-endian, no leading zeros; zero is the empty string.
  function ToBytes(n: nat): ByteString {
    if n == 0 then [] else ToBytes(n / 256) + [n % 256]
  }

  function FromBytes(b: ByteString): nat {
    if b == [] then 0 else FromBytes(b[..|b| - 1]) * 256 + b[|b| - 1]
  }

  predicate Canonical(b: ByteString) {
    b == [] || b[0] != 0
  }

  function StripZeros(b: ByteString): ByteString {
    if Canonical(b) then b else StripZeros(b[1..])
  }

  function Pow256(k: nat): nat {
    if k == 0 then 1 else 256 * Pow256(k - 1)
  }

  lemma {:induction false} FromToBytes(n: nat)
    ensures FromBytes(ToBytes(n)) == n
  {
    if n > 0 {
      FromToBytes(n / 256);
      assert ToBytes(n)[..|ToBytes(n)| - 1] == ToBytes(n / 256);
    }
  }

  lemma {:induction false} ToBytesCanonical(n: nat)
    ensures Canonical(ToBytes(n)) && (n > 0 ==> ToBytes(n) != [])
  {
    if n > 0 {
      ToBytesCanonical(n / 256);
    }
  }

  lemma {:induction false} ToBytesLength(n: nat, k: nat)
    requires n < Pow256(k)
    ensures |ToBytes(n)| <= k
    decreases k
  {
    if n > 0 && k > 0 {
      ToBytesLength(n / 256, k - 1);
    }
  }

  lemma {:induction false} CanonicalPositive(b: ByteString)
    requires b != [] && b[0] != 0
    ensures FromBytes(b) > 0
  {
    if |b| > 1 {
      CanonicalPositive(b[..|b| - 1]);
    }
  }

  // A canonical string is the bytes of the number it denotes.
  lemma {:induction false} ToFromBytes(b: ByteString)
    requires Canonical(b)
    ensures ToBytes(FromBytes(b)) == b
  {
    if b != [] {
      var init, last := b[..|b| - 1], b[|b| - 1];
      CanonicalPositive(b);
      ToFromBytes(init);
      assert FromBytes(b) / 256 == FromBytes(init) && FromBytes(b) % 256 == last;
      assert b == init + [last];
    }
  }

  lemma {:induction false} FromBytesLeadingZero(b: ByteString)
    requires b != [] && b[0] == 0
    ensures FromBytes(b) == FromBytes(b[1..])
  {
    if |b| > 1 {
      var init := b[..|b| - 1];
      FromBytesLeadingZero(init);
      assert b[1..][..|b| - 2] == init[1..];
    }
  }

  lemma {:induction false} StripDenotesSame(b: ByteString)
    ensures FromBytes(StripZeros(b)) == FromBytes(b) && Canonical(StripZeros(b)) && |StripZeros(b)| <= |b|
    ensures StripZeros(b) == b <==> Canonical(b)
  {
    if !Canonical(b) {
      FromBytesLeadingZero(b);
      StripDenotesSame(b[1..]);
    }
  }

  // What is stripped is the leading zeros, all of them and nothing else.
  lemma {:induction false} StripsLeadingZeros(b: ByteString) returns (n: nat)
    ensures n <= |b| && StripZeros(b) == b[n..]
    ensures (forall i :: 0 <= i < n ==> b[i] == 0) && (n < |b| ==> b[n] != 0)
  {
    n := 0;
    if !Canonical(b) {
      var m := StripsLeadingZeros(b[1..]);
      n := m + 1;
    }
  }

  // ------------------------------------------------------------ encoding

  datatype Item = Str(bytes: ByteString) | List(items: seq<Item>)

  const MAX_LENGTH: nat := Pow256(8)

  lemma LengthOfLength(n: nat)
    requires n < MAX_LENGTH
    ensures |ToBytes(n)| <= 8
  {
    ToBytesLength(n, 8);
  }

  // Short and long header; `base` is 0x80 for strings and 0xc0 for lists.
  function Header(base: nat, n: nat): ByteString
    requires base == 0x80 || base == 0xc0
    requires n < MAX_LENGTH
  {
    if n < 56 then [base + n]
    else
      LengthOfLength(n);
      [base + 55 + |ToBytes(n)|] + ToBytes(n)
  }

  predicate Single(b: ByteString) {
    |b| == 1 && b[0] < 0x80
  }

  function EncodeStr(b: ByteString): ByteString
    requires |b| < MAX_LENGTH
  {
    if Single(b) then b else Header(0x80, |b|) + b
  }

  // The lengths a header has to hold are representable.
  predicate Fits(x: Item)
    decreases x, 1
  {
    match x
    case Str(b) => |b| < MAX_LENGTH
    case List(items) => FitAll(items) && |EncodeAll(items)| < MAX_LENGTH
  }

  predicate FitAll(items: seq<Item>)
    decreases items, 0
  {
    items != [] ==> Fits(items[0]) && FitAll(items[1..])
  }

  function Encode(x: Item): ByteString
    requires Fits(x)
    decreases x, 3
  {
    match x
    case Str(b) => EncodeStr(b)
    case List(items) => Header(0xc0, |EncodeAll(items)|) + EncodeAll(items)
  }

  function EncodeAll(items: seq<Item>): ByteString
    requires FitAll(items)
    decreases items, 2
  {
    if items == [] then [] else Encode(items[0]) + EncodeAll(items[1..])
  }

  // The bytes of a number, most significant first.
  lemma BigEndian(b: ByteString, x: byte)
    ensures FromBytes(b + [x]) == 256 * FromBytes(b) + x
    ensures FromBytes([]) == 0
  {
    assert (b + [x])[..|b|] == b;
  }

  // What encoding comes to, with the numbers of the standard: a byte below 128 is itself;
  // strings of up to 55 bytes follow one byte 128 + length, longer ones their length, which
  // follows 183 + its own number of bytes; lists the same with 192 and 247.
  lemma StringFormat(b: ByteString)
    requires |b| < MAX_LENGTH
    ensures Encode(Str(b)) ==
              if |b| == 1 && b[0] < 128 then b
              else if |b| <= 55 then [128 + |b|] + b
              else LongLength(|b|, 183) + b
  {
    LengthOfLength(|b|);
  }

  lemma ListFormat(items: seq<Item>)
    requires FitAll(items) && |EncodeAll(items)| < MAX_LENGTH
    ensures Encode(List(items)) ==
              if |EncodeAll(items)| <= 55 then [192 + |EncodeAll(items)|] + EncodeAll(items)
              else LongLength(|EncodeAll(items)|, 247) + EncodeAll(items)
  {
    LengthOfLength(|EncodeAll(items)|);
  }

  function LongLength(n: nat, base: nat): ByteString
    requires base <= 247 && n < MAX_LENGTH
  {
    LengthOfLength(n);
    [base + |ToBytes(n)|] + ToBytes(n)
  }

  // The standard's own examples: the empty string, "dog", 1024, the empty list, and the
  // list of "cat" and "dog".
  lemma StringExamples()
    ensures Encode(Str([])) == [0x80] && Encode(List([])) == [0xc0]
    ensures 3 < MAX_LENGTH && Encode(Str([100, 111, 103])) == [0x83, 100, 111, 103]
    ensures ToBytes(1024) == [4, 0] && Encode(Str(ToBytes(1024))) == [0x82, 0x04, 0x00]
  {
    MaxLengthValue();
    assert ToBytes(4) == [4];
  }

  lemma ListExample()
    ensures Fits(List([Str([99, 97, 116]), Str([100, 111, 103])]))
    ensures Encode(List([Str([99, 97, 116]), Str([100, 111, 103])]))
         == [0xc8, 0x83, 99, 97, 116, 0x83, 100, 111, 103]
  {
    MaxLengthValue();
    var cat, dog := Str([99, 97, 116]), Str([100, 111, 103]);
    assert [cat, dog][1..] == [dog] && [dog][1..] == [];
    assert EncodeAll([dog]) == [0x83, 100, 111, 103];
    assert EncodeAll([cat, dog]) == [0x83, 99, 97, 116] + EncodeAll([dog]);
  }

  lemma MaxLengthValue()
    ensures MAX_LENGTH == 0x1_0000_0000_0000_0000
  {
    assert Pow256(4) == 0x1_0000_0000;
    assert Pow256(5) == 0x100_0000_0000;
    assert Pow256(6) == 0x1_0000_0000_0000;
    assert Pow256(7) == 0x100_0000_0000_0000;
  }

  // ------------------------------------------------------------ decoding

  datatype Split = Split(isList: bool, payload: ByteString, rest: ByteString)

  // Take `n` payload bytes behind a header of `skip` bytes.
  function Take(b: ByteString, skip: nat, n: nat, isList: bool): Option<Split> {
    if |b| < skip + n then None
    else Some(Split(isList, b[skip..skip + n], b[skip + n..]))
  }

  // The long form: the length's own bytes follow, canonical, and at least 56.
  function TakeLong(b: ByteString, lengthBytes: nat, isList: bool): Option<Split> {
    if |b| < 1 + lengthBytes then None
    else
      var n := FromBytes(b[1..1 + lengthBytes]);
      if !Canonical(b[1..1 + lengthBytes]) || n < 56 then None
      else Take(b, 1 + lengthBytes, n, isList)
  }

  function TakeItem(b: ByteString): (r: Option<Split>)
    ensures r.Some? ==> |r.value.rest| < |b| && |r.value.payload| <= |b|
    ensures r.Some? && r.value.isList ==> |r.value.payload| < |b|
  {
    if b == [] then None
    else if b[0] < 0x80 then Some(Split(false, b[..1], b[1..]))
    else if b[0] <= 0xb7 then
      var s := Take(b, 1, b[0] - 0x80, false);
      if s.Some? && Single(s.value.payload) then None else s
    else if b[0] <= 0xbf then TakeLong(b, b[0] - 0xb7, false)
    else if b[0] <= 0xf7 then Take(b, 1, b[0] - 0xc0, true)
    else TakeLong(b, b[0] - 0xf7, true)
  }

  datatype Parsed = Parsed(item: Item, rest: ByteString)

  function DecodeItem(b: ByteString): (r: Option<Parsed>)
    ensures r.Some? ==> |r.value.rest| < |b|
    decreases |b|, 0
  {
    var s := TakeItem(b);
    if s.None? then None
    else if !s.value.isList then Some(Parsed(Str(s.value.payload), s.value.rest))
    else
      var items := DecodeAll(s.value.payload);
      if items.None? then None else Some(Parsed(List(items.value), s.value.rest))
  }

  function DecodeAll(b: ByteString): Option<seq<Item>>
    decreases |b|, 1
  {
    if b == [] then Some([])
    else
      var first := DecodeItem(b);
      if first.None? then None
      else
        var others := DecodeAll(first.value.rest);
        if others.None? then None else Some([first.value.item] + others.value)
  }

  // The whole input is one item.
  function DecodeBytes(b: ByteString): Option<Item> {
    var r := DecodeItem(b);
    if r.Some? && r.value.rest == [] then Some(r.value.item) else None
  }

  // ------------------------------------------------------------ the round trip

  lemma TakeHeader(base: nat, payload: ByteString, tail: ByteString)
    requires base == 0x80 || base == 0xc0
    requires |payload| < MAX_LENGTH && (base == 0x80 ==> !Single(payload))
    ensures TakeItem(Header(base, |payload|) + payload + tail) == Some(Split(base == 0xc0, payload, tail))
  {
    var n := |payload|;
    var b := Header(base, n) + payload + tail;
    if n < 56 {
      assert b[1..1 + n] == payload && b[1 + n..] == tail;
    } else {
      LengthOfLength(n);
      ToBytesCanonical(n);
      FromToBytes(n);
      var k := |ToBytes(n)|;
      assert b[1..1 + k] == ToBytes(n);
      assert b[1 + k..1 + k + n] == payload && b[1 + k + n..] == tail;
    }
  }

  lemma TakeString(s: ByteString, tail: ByteString)
    requires |s| < MAX_LENGTH
    ensures TakeItem(EncodeStr(s) + tail) == Some(Split(false, s, tail))
  {
    if Single(s) {
      var b := s + tail;
      assert b[..1] == s && b[1..] == tail;
    } else {
      TakeHeader(0x80, s, tail);
      assert EncodeStr(s) + tail == Header(0x80, |s|) + s + tail;
    }
  }

  // Every item, nested to any depth, is read back, whatever follows it.
  lemma {:induction false} RoundTrip(x: Item, tail: ByteString)
    requires Fits(x)
    ensures DecodeItem(Encode(x) + tail) == Some(Parsed(x, tail))
    decreases x, 1
  {
    match x
    case Str(s) => TakeString(s, tail);
    case List(items) =>
      var payload := EncodeAll(items);
      TakeHeader(0xc0, payload, tail);
      RoundTripAll(items);
      assert Encode(x) + tail == Header(0xc0, |payload|) + payload + tail;
  }

  lemma {:induction false} RoundTripAll(items: seq<Item>)
    requires FitAll(items)
    ensures DecodeAll(EncodeAll(items)) == Some(items)
    decreases items, 0
  {
    if items != [] {
      RoundTrip(items[0], EncodeAll(items[1..]));
      RoundTripAll(items[1..]);
      assert items == [items[0]] + items[1..];
    }
  }

  lemma RoundTripBytes(x: Item)
    requires Fits(x)
    ensures DecodeBytes(Encode(x)) == Some(x)
  {
    RoundTrip(x, []);
    assert Encode(x) + [] == Encode(x);
  }

  // Encodings are told apart, and none is a proper prefix of another.
  lemma EncodingIsPrefixFree(x: Item, y: Item, tail: ByteString)
    requires Fits(x) && Fits(y) && Encode(x) + tail == Encode(y)
    ensures x == y && tail == []
  {
    RoundTrip(x, tail);
    RoundTrip(y, []);
    assert Encode(y) + [] == Encode(y);
  }

  // ------------------------------------------------------------ only encodings decode

  // A header that was accepted is the header encoding writes for that payload.
  lemma TakenFromHeader(b: ByteString)
    requires TakeItem(b).Some? && |b| < MAX_LENGTH
    ensures var s := TakeItem(b).value;
            b == (if s.isList then Header(0xc0, |s.payload|) + s.payload else EncodeStr(s.payload)) + s.rest
  {
    var s := TakeItem(b).value;
    if b[0] < 0x80 {
      assert b == b[..1] + b[1..];
    } else if b[0] <= 0xb7 {
      TakenShort(b, b[0] - 0x80, false, 0x80);
    } else if b[0] <= 0xbf {
      TakenLong(b, b[0] - 0xb7, false, 0x80);
    } else if b[0] <= 0xf7 {
      TakenShort(b, b[0] - 0xc0, true, 0xc0);
    } else {
      TakenLong(b, b[0] - 0xf7, true, 0xc0);
    }
  }

  lemma TakenShort(b: ByteString, n: nat, isList: bool, base: nat)
    requires base == 0x80 || base == 0xc0
    requires n < 56 && b != [] && b[0] == base + n && Take(b, 1, n, isList).Some?
    ensures var s := Take(b, 1, n, isList).value;
            |s.payload| == n && b == Header(base, n) + s.payload + s.rest
  {
    assert b == [b[0]] + b[1..1 + n] + b[1 + n..];
  }

  lemma TakenLong(b: ByteString, k: nat, isList: bool, base: nat)
    requires base == 0x80 || base == 0xc0
    requires b != [] && b[0] == base + 55 + k
    requires TakeLong(b, k, isList).Some? && |b| < MAX_LENGTH
    ensures var s := TakeLong(b, k, isList).value;
            |s.payload| >= 56 && b == Header(base, |s.payload|) + s.payload + s.rest
  {
    var n := FromBytes(b[1..1 + k]);
    LongHeader(b[1..1 + k], base);
    FourParts(b, k, n);
  }

  // The long header of a length given by its canonical bytes.
  lemma LongHeader(length: ByteString, base: nat)
    requires base == 0x80 || base == 0xc0
    requires Canonical(length) && 56 <= FromBytes(length) < MAX_LENGTH
    ensures base + 55 + |length| < 256 && Header(base, FromBytes(length)) == [base + 55 + |length|] + length
  {
    ToFromBytes(length);
    LengthOfLength(FromBytes(length));
  }

  lemma FourParts(b: ByteString, k: nat, n: nat)
    requires 1 + k + n <= |b|
    ensures b == [b[0]] + b[1..1 + k] + b[1 + k..1 + k + n] + b[1 + k + n..]
  {
    assert b == b[..1 + k] + b[1 + k..];
    assert b[..1 + k] == [b[0]] + b[1..1 + k];
    assert b[1 + k..] == b[1 + k..1 + k + n] + b[1 + k + n..];
  }

  // The decoder accepts nothing but encodings: what it reads, encoded again, is the
  // input.  With the round trip this makes the two inverse to each other.
  lemma {:induction false} OnlyEncodingsDecode(b: ByteString)
    requires |b| < MAX_LENGTH && DecodeItem(b).Some?
    ensures var r := DecodeItem(b).value; Fits(r.item) && Encode(r.item) + r.rest == b
    decreases |b|, 0
  {
    var s := TakeItem(b).value;
    TakenFromHeader(b);
    if s.isList {
      OnlyEncodingsDecodeAll(s.payload);
    }
  }

  // A whole input decodes only if it is its item's encoding, with nothing behind it.
  lemma OnlyWholeEncodingsDecode(b: ByteString)
    requires |b| < MAX_LENGTH && DecodeBytes(b).Some?
    ensures Fits(DecodeBytes(b).value) && Encode(DecodeBytes(b).value) == b
  {
    OnlyEncodingsDecode(b);
  }

  lemma {:induction false} OnlyEncodingsDecodeAll(b: ByteString)
    requires |b| < MAX_LENGTH && DecodeAll(b).Some?
    ensures FitAll(DecodeAll(b).value) && EncodeAll(DecodeAll(b).value) == b
    decreases |b|, 1
  {
    if b != [] {
      var first := DecodeItem(b).value;
      OnlyEncodingsDecode(b);
      OnlyEncodingsDecodeAll(first.rest);
      var items := DecodeAll(b).value;
      assert items[0] == first.item && items[1..] == DecodeAll(first.rest).value;
    }
  }
}
