/**
Encodings of the fields that database records are made of: each lemma says what parsing an encoding
gives, whatever follows it, and when it is refused.
 */
module Codecs {
  import opened ByteStrings
  import opened Wire
  import opened KeyLayout

  type ByteVec = v: seq<Byte> | |v| < U64_LIMIT witness []

  /** A slot is refused exactly when its thread is out of range. */
  lemma SlotParses(slot: KeySlot, threadCount: nat, tail: seq<Byte>)
    requires threadCount <= 256
    ensures ParseSlot(SlotBytes(slot) + tail, threadCount)
         == if slot.thread < threadCount then Some((slot, tail)) else None
  {
    U64VarintRoundTrip(slot.period, [slot.thread] + tail);
    assert SlotBytes(slot) + tail == Varint(slot.period) + ([slot.thread] + tail);
    assert ([slot.thread] + tail)[1..] == tail;
  }

  /** A length-prefixed vector is refused exactly when it is longer than the bound. */
  lemma VecParses(v: ByteVec, max: nat, tail: seq<Byte>)
    ensures ParseVec(VecBytes(v) + tail, max) == if |v| <= max then Some((v, tail)) else None
  {
    U64VarintRoundTrip(|v|, v + tail);
    assert VecBytes(v) + tail == Varint(|v|) + (v + tail);
    assert (v + tail)[..|v|] == v && (v + tail)[|v|..] == tail;
  }

  const U16_LIMIT := 0x1_0000
  const U16_VARINT_LEN := 3

  /** The bytes of a function name; a longer one cannot be serialized. */
  type FunctionName = v: seq<Byte> | |v| < U16_LIMIT witness []

  /** A string whose length is a 16-bit varint. */
  function ParseName(input: seq<Byte>, max: nat): (r: Parsed<FunctionName>) {
    match ParseVarint(input, 0, U16_VARINT_LEN)
    case None => None
    case Some((n, rest)) =>
      var len := n % U16_LIMIT;
      if len > max || len > |rest| then None else Some((rest[..len], rest[len..]))
  }

  lemma NameParses(v: FunctionName, max: nat, tail: seq<Byte>)
    ensures ParseName(VecBytes(v) + tail, max) == if |v| <= max then Some((v, tail)) else None
  {
    assert Pow128(3) == 0x20_0000;
    VarintRoundTrip(|v|, 0, 3, U16_VARINT_LEN, v + tail);
    assert VecBytes(v) + tail == Varint(|v|) + (v + tail);
    assert (v + tail)[..|v|] == v && (v + tail)[|v|..] == tail;
  }

  /** The input starts with a name whose length a 16-bit reader takes from its varint. */
  ghost predicate NameAt(input: seq<Byte>, v: FunctionName, rest: seq<Byte>) {
    exists m: nat :: m < Pow128(U16_VARINT_LEN) && m % U16_LIMIT == |v| && input == Varint(m) + (v + rest)
  }

  lemma NameExactly(input: seq<Byte>, max: nat, v: FunctionName, rest: seq<Byte>)
    ensures ParseName(input, max) == Some((v, rest)) <==> |v| <= max && NameAt(input, v, rest)
  {
    hide Pow128, Varint, ParseVarint;
    if ParseName(input, max) == Some((v, rest)) {
      VarintExactly(input, 0, U16_VARINT_LEN);
      var (m, after) := ParseVarint(input, 0, U16_VARINT_LEN).value;
      assert after == v + rest;
      assert m < Pow128(U16_VARINT_LEN) && m % U16_LIMIT == |v|;
    }
    if NameAt(input, v, rest) {
      var m: nat :| m < Pow128(U16_VARINT_LEN) && m % U16_LIMIT == |v| && input == Varint(m) + (v + rest);
      VarintRoundTrip(m, 0, U16_VARINT_LEN, U16_VARINT_LEN, v + rest);
      assert (v + rest)[..|v|] == v && (v + rest)[|v|..] == rest;
    }
  }

  /** Length-prefixed strings are prefix-free. */
  lemma VecInjective(a: ByteVec, b: ByteVec, x: seq<Byte>, y: seq<Byte>)
    requires VecBytes(a) + x == VecBytes(b) + y
    ensures a == b && x == y
  {
    VecParses(a, U64_LIMIT, x);
    VecParses(b, U64_LIMIT, y);
  }

  function ParseAddress(input: seq<Byte>): (r: Parsed<Address>) {
    match ParseU64(input)
    case None => None
    case Some((kind, rest)) =>
      match ParseU64(rest)
      case None => None
      case Some((version, hash)) =>
        if kind > 1 || version != 0 || |hash| < ADDRESS_LEN - 2 then None
        else Some(([kind, 0] + hash[..ADDRESS_LEN - 2], hash[ADDRESS_LEN - 2..]))
  }

  /** The input starts with the kind, the version and the hash of an address. */
  ghost predicate AddressAt(input: seq<Byte>, a: Address, rest: seq<Byte>) {
    exists version: seq<Byte> :: U64At(input, a[0], version) && U64At(version, 0, a[2..] + rest)
  }

  lemma AddressExactly(input: seq<Byte>, a: Address, rest: seq<Byte>)
    ensures ParseAddress(input) == Some((a, rest)) <==> AddressAt(input, a, rest)
  {
    hide ParseU64, U64At;
    if ParseAddress(input) == Some((a, rest)) {
      var (kind, version) := ParseU64(input).value;
      var (_, hash) := ParseU64(version).value;
      assert hash == a[2..] + rest by {
        assert a == [kind, 0] + hash[..ADDRESS_LEN - 2];
      }
      U64Exactly(input, a[0], version);
      U64Exactly(version, 0, hash);
    }
    if AddressAt(input, a, rest) {
      var version: seq<Byte> :| U64At(input, a[0], version) && U64At(version, 0, a[2..] + rest);
      U64Exactly(input, a[0], version);
      U64Exactly(version, 0, a[2..] + rest);
      var hash := a[2..] + rest;
      assert hash[..ADDRESS_LEN - 2] == a[2..] && hash[ADDRESS_LEN - 2..] == rest;
      assert [a[0], 0] + a[2..] == a;
    }
  }

  lemma AddressRoundTrip(a: Address, tail: seq<Byte>)
    ensures ParseAddress(a + tail) == Some((a, tail))
  {
    var hash := a[2..] + tail;
    assert a + tail == Varint(a[0]) + (Varint(0) + hash);
    U64VarintRoundTrip(a[0], Varint(0) + hash);
    U64VarintRoundTrip(0, hash);
    assert hash[..ADDRESS_LEN - 2] == a[2..] && hash[ADDRESS_LEN - 2..] == tail;
    assert [a[0], 0] + a[2..] == a;
  }

  // ---------------------------------------------------------------- what a parser leaves

  /** What follows a parsed value. */
  function Left<T>(parsed: Parsed<T>): Option<seq<Byte>> {
    if parsed.None? then None else Some(parsed.value.1)
  }

  ghost predicate IsU64(input: seq<Byte>, rest: seq<Byte>) {
    exists n :: U64At(input, n, rest)
  }

  ghost predicate IsSlot(input: seq<Byte>, threadCount: nat, rest: seq<Byte>) {
    exists slot: KeySlot :: slot.thread < threadCount && SlotAt(input, slot, rest)
  }

  ghost predicate IsVec(input: seq<Byte>, max: nat, rest: seq<Byte>) {
    exists v :: |v| <= max && VecAt(input, v, rest)
  }

  ghost predicate IsName(input: seq<Byte>, max: nat, rest: seq<Byte>) {
    exists v: FunctionName :: |v| <= max && NameAt(input, v, rest)
  }

  ghost predicate IsAddress(input: seq<Byte>, rest: seq<Byte>) {
    exists a: Address :: AddressAt(input, a, rest)
  }

  ghost predicate IsBool(input: seq<Byte>, rest: seq<Byte>) {
    exists b :: input == BoolBytes(b) + rest
  }

  lemma U64Leaves(input: seq<Byte>, rest: seq<Byte>)
    ensures Left(ParseU64(input)) == Some(rest) <==> IsU64(input, rest)
  {
    hide ParseU64, U64At;
    if Left(ParseU64(input)) == Some(rest) {
      U64Exactly(input, ParseU64(input).value.0, rest);
    }
    if n :| U64At(input, n, rest) {
      U64Exactly(input, n, rest);
    }
  }

  lemma SlotLeaves(input: seq<Byte>, threadCount: nat, rest: seq<Byte>)
    ensures Left(ParseSlot(input, threadCount)) == Some(rest) <==> IsSlot(input, threadCount, rest)
  {
    hide ParseSlot, SlotAt;
    if Left(ParseSlot(input, threadCount)) == Some(rest) {
      SlotExactly(input, threadCount, ParseSlot(input, threadCount).value.0, rest);
    }
    if slot: KeySlot :| slot.thread < threadCount && SlotAt(input, slot, rest) {
      SlotExactly(input, threadCount, slot, rest);
    }
  }

  lemma VecLeaves(input: seq<Byte>, max: nat, rest: seq<Byte>)
    ensures Left(ParseVec(input, max)) == Some(rest) <==> IsVec(input, max, rest)
  {
    hide ParseVec, VecAt;
    if Left(ParseVec(input, max)) == Some(rest) {
      VecExactly(input, max, ParseVec(input, max).value.0, rest);
    }
    if v :| |v| <= max && VecAt(input, v, rest) {
      VecExactly(input, max, v, rest);
    }
  }

  lemma NameLeaves(input: seq<Byte>, max: nat, rest: seq<Byte>)
    ensures Left(ParseName(input, max)) == Some(rest) <==> IsName(input, max, rest)
  {
    hide ParseName, NameAt;
    if Left(ParseName(input, max)) == Some(rest) {
      NameExactly(input, max, ParseName(input, max).value.0, rest);
    }
    if v: FunctionName :| |v| <= max && NameAt(input, v, rest) {
      NameExactly(input, max, v, rest);
    }
  }

  lemma AddressLeaves(input: seq<Byte>, rest: seq<Byte>)
    ensures Left(ParseAddress(input)) == Some(rest) <==> IsAddress(input, rest)
  {
    hide ParseAddress, AddressAt;
    if Left(ParseAddress(input)) == Some(rest) {
      AddressExactly(input, ParseAddress(input).value.0, rest);
    }
    if a: Address :| AddressAt(input, a, rest) {
      AddressExactly(input, a, rest);
    }
  }

  lemma BoolLeaves(input: seq<Byte>, rest: seq<Byte>)
    ensures Left(ParseBool(input)) == Some(rest) <==> IsBool(input, rest)
  {
    hide ParseBool, BoolBytes;
    if Left(ParseBool(input)) == Some(rest) {
      BoolExactly(input, ParseBool(input).value.0, rest);
    }
    if b :| input == BoolBytes(b) + rest {
      BoolExactly(input, b, rest);
    }
  }
}
