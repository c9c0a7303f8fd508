/**
Varints, length-prefixed byte vectors and the new-elements section of a bootstrap part: how the
server writes it, how much of it the server may fill, and how the client parses it within a budget.
 */
module Wire {
  import opened ByteStrings
  import opened Columns
  import opened Slots

  const U64_LIMIT: nat := 0x1_0000_0000_0000_0000
  const U128_LIMIT: nat := 0x1_0000_0000_0000_0000_0000_0000_0000_0000

  type U64 = n: nat | n < U64_LIMIT

  type U128 = n: nat | n < U128_LIMIT

  /** A value read from the front of the input, and what follows it. */
  type Parsed<T> = Option<(T, seq<Byte>)>

  /** Longest varint encodings of 64-bit and of 128-bit numbers. */
  const U64_VARINT_LEN := 10
  const U128_VARINT_LEN := 19

  /** Unsigned LEB128, least significant group of seven bits first. */
  function Varint(n: nat): (r: seq<Byte>)
    ensures |r| > 0
  {
    if n < 128 then [n] else [128 + n % 128] + Varint(n / 128)
  }

  /** Decodes a varint of at most `max` bytes, `i` of them already read; a zero last byte is refused. */
  function ParseVarint(input: seq<Byte>, i: nat, max: nat): (r: Parsed<nat>)
    decreases |input|
    ensures r.Some? ==> |r.value.1| < |input|
  {
    if input == [] || i >= max then None
    else if input[0] < 128 then
      if input[0] == 0 && i > 0 then None else Some((input[0], input[1..]))
    else
      match ParseVarint(input[1..], i + 1, max)
      case None => None
      case Some((high, rest)) => Some((input[0] - 128 + 128 * high, rest))
  }

  /** A 64-bit varint; bits beyond the width are dropped. */
  function ParseU64(input: seq<Byte>): (r: Parsed<U64>)
    ensures r.Some? ==> |r.value.1| < |input|
  {
    match ParseVarint(input, 0, U64_VARINT_LEN)
    case None => None
    case Some((n, rest)) => Some((n % U64_LIMIT, rest))
  }

  /** A 128-bit varint; bits beyond the width are dropped. */
  function ParseU128(input: seq<Byte>): (r: Parsed<U128>)
    ensures r.Some? ==> |r.value.1| < |input|
  {
    match ParseVarint(input, 0, U128_VARINT_LEN)
    case None => None
    case Some((n, rest)) => Some((n % U128_LIMIT, rest))
  }

  function Pow128(e: nat): (r: nat)
    ensures r > 0
  {
    if e == 0 then 1 else 128 * Pow128(e - 1)
  }

  /** Decoding the first byte of a long varint leaves the varint of its high groups. */
  lemma VarintStep(n: nat, i: nat, max: nat, tail: seq<Byte>)
    requires n >= 128 && i < max
    requires ParseVarint(Varint(n / 128) + tail, i + 1, max) == Some((n / 128, tail))
    ensures ParseVarint(Varint(n) + tail, i, max) == Some((n, tail))
  {
    var bytes := Varint(n) + tail;
    assert bytes[0] == 128 + n % 128;
    assert bytes[1..] == Varint(n / 128) + tail;
  }

  lemma {:induction false} VarintRoundTrip(n: nat, i: nat, e: nat, max: nat, tail: seq<Byte>)
    requires n < Pow128(e) && i + e <= max && max > 0
    requires i > 0 ==> n > 0
    ensures ParseVarint(Varint(n) + tail, i, max) == Some((n, tail))
    decreases e
  {
    if n < 128 {
      assert (Varint(n) + tail)[1..] == tail;
    } else {
      assert n / 128 < Pow128(e - 1);
      VarintRoundTrip(n / 128, i + 1, e - 1, max, tail);
      VarintStep(n, i, max, tail);
    }
  }

  lemma {:induction false} Pow128Adds(a: nat, b: nat)
    ensures Pow128(a + b) == Pow128(a) * Pow128(b)
  {
    if a > 0 {
      Pow128Adds(a - 1, b);
    }
  }

  /** Ten groups of seven bits hold 64 bits, and nineteen hold 128. */
  lemma GroupsHold()
    ensures Pow128(10) >= U64_LIMIT && Pow128(19) >= U128_LIMIT
  {
    assert Pow128(4) == 0x1000_0000;
    assert Pow128(5) == 0x8_0000_0000;
    Pow128Adds(5, 5);
    Pow128Adds(10, 5);
    Pow128Adds(15, 4);
  }

  lemma U64VarintRoundTrip(n: nat, tail: seq<Byte>)
    requires n < U64_LIMIT
    ensures ParseU64(Varint(n) + tail) == Some((n, tail))
  {
    hide Pow128, Varint, ParseVarint;
    GroupsHold();
    VarintRoundTrip(n, 0, 10, U64_VARINT_LEN, tail);
  }

  lemma U128VarintRoundTrip(n: nat, tail: seq<Byte>)
    requires n < U128_LIMIT
    ensures ParseU128(Varint(n) + tail) == Some((n, tail))
  {
    hide Pow128, Varint, ParseVarint;
    GroupsHold();
    VarintRoundTrip(n, 0, 19, U128_VARINT_LEN, tail);
  }

  /** Each byte of a varint holds its group of seven bits, and all but the last have the top bit set. */
  lemma {:induction false} VarintGroups(n: nat, i: nat)
    requires i < |Varint(n)|
    ensures Varint(n)[i] % 128 == n / Pow128(i) % 128
    ensures Varint(n)[i] >= 128 <==> i + 1 < |Varint(n)|
    decreases i
  {
    if i > 0 {
      VarintGroups(n / 128, i - 1);
      DividesTwice(n, Pow128(i - 1));
    }
  }

  lemma DividesTwice(n: nat, d: nat)
    requires d > 0
    ensures n / 128 / d == n / (128 * d)
  {
    var q, r := n / (128 * d), n % (128 * d);
    assert n == q * (128 * d) + r == 128 * (q * d) + r;
    assert n / 128 == q * d + r / 128;
    assert r / 128 < d;
    QuotientIs(n / 128, d, q, r / 128);
  }

  lemma QuotientIs(n: nat, d: nat, q: nat, r: nat)
    requires d > 0 && n == q * d + r && r < d
    ensures n / d == q
  {
    var diff: int := n / d - q;
    assert diff >= 1 ==> diff * d >= d;
    assert diff <= -1 ==> diff * d <= 0 - d;
    assert diff * d == r - n % d;
  }

  // ---------------------------------------------------------------- what is accepted

  /** A 64-bit reader takes the varint of `m` for `n`: only bits beyond the width differ. */
  predicate Denotes(m: nat, n: U64) {
    m < Pow128(U64_VARINT_LEN) && m % U64_LIMIT == n
  }

  /** The input starts with a varint that a 64-bit reader takes for `n`. */
  ghost predicate U64At(input: seq<Byte>, n: U64, rest: seq<Byte>) {
    exists m: nat :: Denotes(m, n) && input == Varint(m) + rest
  }

  /** Only varints are accepted. */
  lemma {:induction false} VarintExactly(input: seq<Byte>, i: nat, max: nat)
    requires ParseVarint(input, i, max).Some?
    ensures var (n, rest) := ParseVarint(input, i, max).value;
            i < max && input == Varint(n) + rest && n < Pow128(max - i) && (i > 0 ==> n > 0)
    decreases |input|
  {
    var (n, rest) := ParseVarint(input, i, max).value;
    if input[0] < 128 {
      assert input == [input[0]] + rest;
      assert Pow128(max - i) >= 128 by {
        assert Pow128(max - i) == 128 * Pow128(max - i - 1);
      }
    } else {
      VarintExactly(input[1..], i + 1, max);
      var high := ParseVarint(input[1..], i + 1, max).value.0;
      assert n % 128 == input[0] - 128 && n / 128 == high;
      assert Varint(n) == [input[0]] + Varint(high);
      assert input == [input[0]] + input[1..];
      assert Pow128(max - i) == 128 * Pow128(max - i - 1);
    }
  }

  lemma U64Exactly(input: seq<Byte>, n: U64, rest: seq<Byte>)
    ensures ParseU64(input) == Some((n, rest)) <==> U64At(input, n, rest)
  {
    hide Pow128, Varint, ParseVarint;
    if ParseU64(input) == Some((n, rest)) {
      VarintExactly(input, 0, U64_VARINT_LEN);
      var m := ParseVarint(input, 0, U64_VARINT_LEN).value.0;
      assert Denotes(m, n);
    }
    if U64At(input, n, rest) {
      var m: nat :| Denotes(m, n) && input == Varint(m) + rest;
      VarintRoundTrip(m, 0, U64_VARINT_LEN, U64_VARINT_LEN, rest);
    }
  }

  function VecBytes(v: seq<Byte>): (r: seq<Byte>)
    ensures |r| > |v|
  {
    Varint(|v|) + v
  }

  function ParseVec(input: seq<Byte>, maxLen: nat): (r: Parsed<seq<Byte>>)
    ensures r.Some? ==> |r.value.1| < |input|
    ensures r.Some? ==> |r.value.0| < U64_LIMIT && |r.value.0| <= maxLen
  {
    match ParseU64(input)
    case None => None
    case Some((n, rest)) =>
      if n > maxLen || n > |rest| then None else Some((rest[..n], rest[n..]))
  }

  lemma VecRoundTrip(v: seq<Byte>, maxLen: nat, tail: seq<Byte>)
    requires |v| <= maxLen < U64_LIMIT
    ensures ParseVec(VecBytes(v) + tail, maxLen) == Some((v, tail))
  {
    assert VecBytes(v) + tail == Varint(|v|) + (v + tail);
    U64VarintRoundTrip(|v|, v + tail);
    assert (v + tail)[..|v|] == v && (v + tail)[|v|..] == tail;
  }

  /** The input starts with a length-prefixed vector. */
  ghost predicate VecAt(input: seq<Byte>, v: seq<Byte>, rest: seq<Byte>) {
    |v| < U64_LIMIT && U64At(input, |v|, v + rest)
  }

  /** A vector is read exactly where there is one that is not too long. */
  lemma VecExactly(input: seq<Byte>, maxLen: nat, v: seq<Byte>, rest: seq<Byte>)
    ensures ParseVec(input, maxLen) == Some((v, rest)) <==> |v| <= maxLen && VecAt(input, v, rest)
  {
    hide ParseU64, U64At;
    if ParseVec(input, maxLen) == Some((v, rest)) {
      var (n, after) := ParseU64(input).value;
      assert after == v + rest;
      U64Exactly(input, n, after);
    }
    if VecAt(input, v, rest) {
      U64Exactly(input, |v|, v + rest);
      assert (v + rest)[..|v|] == v && (v + rest)[|v|..] == rest;
    }
  }

  // ---------------------------------------------------------------- slots and flags

  function SlotBytes(slot: Slot): seq<Byte>
    requires slot.thread < 256
  {
    Varint(slot.period) + [slot.thread]
  }

  function ParseSlot(input: seq<Byte>, threadCount: nat): (r: Parsed<Slot>)
    ensures r.Some? ==> r.value.0.period < U64_LIMIT && r.value.0.thread < 256
  {
    match ParseU64(input)
    case None => None
    case Some((period, rest)) =>
      if rest == [] || rest[0] >= threadCount then None else Some((Slot(period, rest[0]), rest[1..]))
  }

  lemma SlotRoundTrip(slot: Slot, threadCount: nat, tail: seq<Byte>)
    requires slot.period < U64_LIMIT && slot.thread < threadCount <= 256
    ensures ParseSlot(SlotBytes(slot) + tail, threadCount) == Some((slot, tail))
  {
    U64VarintRoundTrip(slot.period, [slot.thread] + tail);
    assert SlotBytes(slot) + tail == Varint(slot.period) + ([slot.thread] + tail);
    assert ([slot.thread] + tail)[1..] == tail;
  }

  ghost predicate SlotAt(input: seq<Byte>, slot: Slot, rest: seq<Byte>) {
    slot.period < U64_LIMIT && slot.thread < 256 && U64At(input, slot.period, [slot.thread] + rest)
  }

  lemma SlotExactly(input: seq<Byte>, threadCount: nat, slot: Slot, rest: seq<Byte>)
    ensures ParseSlot(input, threadCount) == Some((slot, rest)) <==>
            slot.thread < threadCount && SlotAt(input, slot, rest)
  {
    hide ParseU64, U64At;
    if ParseSlot(input, threadCount) == Some((slot, rest)) {
      var (period, after) := ParseU64(input).value;
      assert after == [slot.thread] + rest;
      U64Exactly(input, period, after);
    }
    if SlotAt(input, slot, rest) {
      U64Exactly(input, slot.period, [slot.thread] + rest);
      assert ([slot.thread] + rest)[1..] == rest;
    }
  }

  lemma SlotNotEmpty(slot: Slot)
    requires slot.thread < 256
    ensures SlotBytes(slot) != []
  {
  }

  function BoolBytes(b: bool): seq<Byte> {
    [if b then 1 else 0]
  }

  function ParseBool(input: seq<Byte>): (r: Parsed<bool>) {
    if input == [] || input[0] > 1 then None else Some((input[0] == 1, input[1..]))
  }

  lemma BoolRoundTrip(b: bool, tail: seq<Byte>)
    ensures ParseBool(BoolBytes(b) + tail) == Some((b, tail))
  {
    assert (BoolBytes(b) + tail)[1..] == tail;
  }

  lemma BoolExactly(input: seq<Byte>, b: bool, rest: seq<Byte>)
    ensures ParseBool(input) == Some((b, rest)) <==> input == BoolBytes(b) + rest
  {
    if ParseBool(input) == Some((b, rest)) {
      assert input == [input[0]] + input[1..];
    }
  }

  const OPTION_NONE: Byte := 0x30
  const OPTION_SOME: Byte := 0x31

  function OptionBytes<T>(o: Option<T>, encode: T -> seq<Byte>): seq<Byte> {
    if o.None? then [OPTION_NONE] else [OPTION_SOME] + encode(o.value)
  }

  function ParseOption<T>(input: seq<Byte>, parse: seq<Byte> -> Parsed<T>): (r: Parsed<Option<T>>) {
    if input == [] then None
    else if input[0] == OPTION_NONE then Some((None, input[1..]))
    else if input[0] != OPTION_SOME then None
    else
      match parse(input[1..])
      case None => None
      case Some((data, rest)) => Some((Some(data), rest))
  }

  /** An optional value is read back, or refused, as the value it holds is. */
  lemma OptionParses<T>(o: Option<T>, encode: T -> seq<Byte>, parse: seq<Byte> -> Parsed<T>, tail: seq<Byte>)
    ensures ParseOption(OptionBytes(o, encode) + tail, parse)
         == if o.None? then Some((None, tail))
            else
              match parse(encode(o.value) + tail)
              case None => None
              case Some((data, rest)) => Some((Some(data), rest))
  {
    var bytes := OptionBytes(o, encode) + tail;
    if o.None? {
      assert bytes[1..] == tail;
    } else {
      assert bytes[1..] == encode(o.value) + tail;
    }
  }

  /** An optional value is read exactly where there is none, or one that can be read. */
  lemma OptionExactly<T>(input: seq<Byte>, parse: seq<Byte> -> Parsed<T>, o: Option<T>, rest: seq<Byte>)
    ensures ParseOption(input, parse) == Some((o, rest)) <==>
            if o.None? then input == [OPTION_NONE] + rest
            else input != [] && input[0] == OPTION_SOME && parse(input[1..]) == Some((o.value, rest))
  {
    if input != [] {
      assert input == [input[0]] + input[1..];
    }
  }

  // ---------------------------------------------------------------- new-elements section

  const BATCH_ENTRY_OVERHEAD := 96
  const MIN_ELEMENT_WIRE_SIZE := 16

  /** Footprint allowed to a section of at most `sectionSize` bytes. */
  function AllocationBudget(sectionSize: nat): nat {
    sectionSize + sectionSize / MIN_ELEMENT_WIRE_SIZE * BATCH_ENTRY_OVERHEAD
  }

  function EntryBytes(k: Key, v: Value): seq<Byte> {
    VecBytes(k) + VecBytes(v)
  }

  function EntrySize(k: Key, v: Value): nat {
    |EntryBytes(k, v)|
  }

  /** The entries of a part, in key order. */
  function SectionBytes(elements: Column): seq<Byte>
    decreases |elements|
  {
    if elements == map[] then []
    else
      var k := Greatest(elements.Keys);
      SectionBytes(elements - {k}) + EntryBytes(k, elements[k])
  }

  function WireSize(elements: Column): nat {
    |SectionBytes(elements)|
  }

  function Footprint(elements: Column): nat {
    WireSize(elements) + |elements| * BATCH_ENTRY_OVERHEAD
  }

  lemma SectionAppend(elements: Column, k: Key, v: Value)
    requires forall x :: x in elements ==> Less(x, k)
    ensures SectionBytes(elements[k := v]) == SectionBytes(elements) + EntryBytes(k, v)
    ensures WireSize(elements[k := v]) == WireSize(elements) + EntrySize(k, v)
    ensures Footprint(elements[k := v]) == Footprint(elements) + EntrySize(k, v) + BATCH_ENTRY_OVERHEAD
  {
    KeyOrder();
    var more := elements[k := v];
    assert k !in elements;
    assert more.Keys == elements.Keys + {k};
    assert Greatest(more.Keys) == k;
    assert more - {k} == elements;
    assert |more| == |elements| + 1;
  }

  datatype ParseError = Malformed | OverBudget

  function ParseEntry(input: seq<Byte>, maxKey: nat, maxValue: nat): (r: Option<(Key, Value, seq<Byte>)>)
    ensures r.Some? ==> |r.value.2| < |input|
  {
    match ParseVec(input, maxKey)
    case None => None
    case Some((k, rest)) =>
      match ParseVec(rest, maxValue)
      case None => None
      case Some((v, rest')) => Some((k, v, rest'))
  }

  lemma EntryRoundTrip(k: Key, v: Value, maxKey: nat, maxValue: nat, tail: seq<Byte>)
    requires |k| <= maxKey < U64_LIMIT && |v| <= maxValue < U64_LIMIT
    ensures ParseEntry(EntryBytes(k, v) + tail, maxKey, maxValue) == Some((k, v, tail))
  {
    hide VecBytes, ParseVec;
    assert EntryBytes(k, v) + tail == VecBytes(k) + (VecBytes(v) + tail);
    VecRoundTrip(k, maxKey, VecBytes(v) + tail);
    VecRoundTrip(v, maxValue, tail);
  }

  /** The parser of one entry, an argument of the section parser: its values may be of any kind. */
  type EntryParser<V> = seq<Byte> -> Option<(Key, V, seq<Byte>)>

  ghost predicate Consumes<V>(parse: EntryParser<V>) {
    forall input :: parse(input).Some? ==> |parse(input).value.2| < |input|
  }

  /** `parse` reads back every entry of `elements` that `SectionBytes` writes. */
  ghost predicate ReadsBack(parse: EntryParser<Value>, elements: Column) {
    forall k, tail :: k in elements ==> parse(EntryBytes(k, elements[k]) + tail) == Some((k, elements[k], tail))
  }

  /** The map that a section spells out, within a budget for its footprint. */
  ghost function ParsedSection<V>(
    parse: EntryParser<V>, input: seq<Byte>, acc: map<Key, V>, footprint: nat, budget: nat)
    : Result<map<Key, V>, ParseError>
    requires Consumes(parse)
    decreases |input|
  {
    if input == [] then Ok(acc)
    else if parse(input).None? then Err(Malformed)
    else
      var (k, v, rest) := parse(input).value;
      var charged := footprint + (|input| - |rest|) + BATCH_ENTRY_OVERHEAD;
      if charged > budget then Err(OverBudget)
      else ParsedSection(parse, rest, acc[k := v], charged, budget)
  }

  /** `deserialize_kv_map`: folds the entries into a map while charging them to the budget. */
  method DeserializeKvMap<V>(parse: EntryParser<V>, section: seq<Byte>, budget: nat)
    returns (r: Result<map<Key, V>, ParseError>)
    requires Consumes(parse)
    ensures r == ParsedSection(parse, section, map[], 0, budget)
  {
    var input := section;
    var acc: map<Key, V> := map[];
    var footprint: nat := 0;
    while input != []
      invariant ParsedSection(parse, section, map[], 0, budget)
             == ParsedSection(parse, input, acc, footprint, budget)
      decreases |input|
    {
      var entry := parse(input);
      if entry.None? {
        return Err(Malformed);
      }
      var (k, v, rest) := entry.value;
      footprint := footprint + (|input| - |rest|) + BATCH_ENTRY_OVERHEAD;
      if footprint > budget {
        return Err(OverBudget);
      }
      acc := acc[k := v];
      input := rest;
    }
    return Ok(acc);
  }

  /** The last entry of a section, split off. */
  lemma SectionSplit(elements: Column) returns (k: Key, less: Column)
    requires elements != map[]
    ensures k in elements && k !in less && less == elements - {k} && elements == less[k := elements[k]]
    ensures |less| + 1 == |elements|
    ensures SectionBytes(elements) == SectionBytes(less) + EntryBytes(k, elements[k])
    ensures Footprint(elements) == Footprint(less) + EntrySize(k, elements[k]) + BATCH_ENTRY_OVERHEAD
  {
    k := Greatest(elements.Keys);
    less := elements - {k};
    assert elements.Keys == less.Keys + {k};
    assert |elements| == |elements.Keys| == |less.Keys| + 1 == |less| + 1;
  }

  lemma ParsedSectionStep<V>(
    parse: EntryParser<V>, entry: seq<Byte>, k: Key, v: V, tail: seq<Byte>, acc: map<Key, V>, footprint: nat,
    budget: nat)
    requires Consumes(parse) && parse(entry + tail) == Some((k, v, tail))
    ensures var charged := footprint + |entry| + BATCH_ENTRY_OVERHEAD;
            ParsedSection(parse, entry + tail, acc, footprint, budget) ==
            if charged > budget then Err(OverBudget) else ParsedSection(parse, tail, acc[k := v], charged, budget)
  {
  }

  /**
   Parsing resumes after the entries of `elements` with exactly those entries accumulated, as long
   as their footprint is within the budget; otherwise it fails.
   */
  lemma {:induction false} SectionParses(parse: EntryParser<Value>, elements: Column, tail: seq<Byte>, budget: nat)
    requires Consumes(parse) && ReadsBack(parse, elements)
    ensures ParsedSection(parse, SectionBytes(elements) + tail, map[], 0, budget) ==
            if Footprint(elements) > budget then Err(OverBudget)
            else ParsedSection(parse, tail, elements, Footprint(elements), budget)
    decreases |elements|
  {
    hide SectionBytes, EntryBytes, Footprint;
    if elements == map[] {
      SectionOfNothing();
      assert SectionBytes(elements) + tail == tail;
    } else {
      var k, less := SectionSplit(elements);
      var v := elements[k];
      var entry := EntryBytes(k, v);
      assert SectionBytes(elements) + tail == SectionBytes(less) + (entry + tail);
      SectionParses(parse, less, entry + tail, budget);
      if Footprint(less) <= budget {
        ParsedSectionStep(parse, entry, k, v, tail, less, Footprint(less), budget);
      }
    }
  }

  // ---------------------------------------------------------------- sections that nobody built

  /** Entries one after the other, in any order and with keys that may come again. */
  function EntriesBytes(entries: seq<(Key, Value)>): seq<Byte> {
    if entries == [] then []
    else
      var last := entries[|entries| - 1];
      EntriesBytes(entries[..|entries| - 1]) + EntryBytes(last.0, last.1)
  }

  /** The entry that comes last wins. */
  function EntriesMap(entries: seq<(Key, Value)>): Column {
    if entries == [] then map[]
    else
      var last := entries[|entries| - 1];
      EntriesMap(entries[..|entries| - 1])[last.0 := last.1]
  }

  function EntriesFootprint(entries: seq<(Key, Value)>): nat {
    |EntriesBytes(entries)| + |entries| * BATCH_ENTRY_OVERHEAD
  }

  /** Any entries parse to the map of their last values, as long as their footprint is within the budget. */
  lemma {:induction false} EntriesParse(
    parse: EntryParser<Value>, entries: seq<(Key, Value)>, tail: seq<Byte>, budget: nat)
    requires Consumes(parse)
    requires forall e, rest :: e in entries ==> parse(EntryBytes(e.0, e.1) + rest) == Some((e.0, e.1, rest))
    ensures ParsedSection(parse, EntriesBytes(entries) + tail, map[], 0, budget) ==
            if EntriesFootprint(entries) > budget then Err(OverBudget)
            else ParsedSection(parse, tail, EntriesMap(entries), EntriesFootprint(entries), budget)
    decreases |entries|
  {
    hide EntryBytes;
    if entries == [] {
      assert EntriesBytes(entries) + tail == tail;
    } else {
      var init, last := entries[..|entries| - 1], entries[|entries| - 1];
      var entry := EntryBytes(last.0, last.1);
      assert EntriesBytes(entries) + tail == EntriesBytes(init) + (entry + tail);
      EntriesParse(parse, init, entry + tail, budget);
      assert EntriesFootprint(entries) == EntriesFootprint(init) + |entry| + BATCH_ENTRY_OVERHEAD;
      if EntriesFootprint(init) <= budget {
        ParsedSectionStep(parse, entry, last.0, last.1, tail, EntriesMap(init), EntriesFootprint(init), budget);
      }
    }
  }

  /** What follows a vector does not change how it is read. */
  lemma VecExtends(input: seq<Byte>, maxLen: nat, v: seq<Byte>, rest: seq<Byte>, more: seq<Byte>)
    requires ParseVec(input, maxLen) == Some((v, rest))
    ensures ParseVec(input + more, maxLen) == Some((v, rest + more))
  {
    hide ParseVec, Varint, Denotes;
    VecExactly(input, maxLen, v, rest);
    var m: nat :| Denotes(m, |v|) && input == Varint(m) + (v + rest);
    assert input + more == Varint(m) + (v + (rest + more));
    VecExactly(input + more, maxLen, v, rest + more);
  }

  /** An entry that is cut off anywhere is not an entry. */
  lemma TruncatedEntry(k: Key, v: Value, n: nat, maxKey: nat, maxValue: nat)
    requires |k| <= maxKey < U64_LIMIT && |v| <= maxValue < U64_LIMIT && n < |EntryBytes(k, v)|
    ensures ParseEntry(EntryBytes(k, v)[..n], maxKey, maxValue) == None
  {
    hide ParseVec, VecBytes;
    var whole := EntryBytes(k, v);
    var cut, more := whole[..n], whole[n..];
    assert cut + more == whole;
    if ParseEntry(cut, maxKey, maxValue).Some? {
      var (k', afterKey) := ParseVec(cut, maxKey).value;
      var (v', rest) := ParseVec(afterKey, maxValue).value;
      VecExtends(cut, maxKey, k', afterKey, more);
      VecRoundTrip(k, maxKey, VecBytes(v));
      VecRoundTrip(v, maxValue, []);
      assert VecBytes(v) + [] == VecBytes(v) == afterKey + more && |rest + more| > 0;
      VecExtends(afterKey, maxValue, v', rest, more);
    }
  }

  /** A section that breaks off inside an entry is refused, whatever it starts with. */
  lemma TruncatedSectionRefused(
    entries: seq<(Key, Value)>, k: Key, v: Value, n: nat, maxKey: nat, maxValue: nat, budget: nat)
    requires maxKey < U64_LIMIT && maxValue < U64_LIMIT && |k| <= maxKey && |v| <= maxValue
    requires forall e :: e in entries ==> |e.0| <= maxKey && |e.1| <= maxValue
    requires 0 < n < |EntryBytes(k, v)|
    ensures var parse := input => ParseEntry(input, maxKey, maxValue);
            Consumes(parse) &&
            ParsedSection(parse, EntriesBytes(entries) + EntryBytes(k, v)[..n], map[], 0, budget) ==
            Err(if EntriesFootprint(entries) > budget then OverBudget else Malformed)
  {
    hide EntryBytes;
    var parse := input => ParseEntry(input, maxKey, maxValue);
    forall e, rest | e in entries
      ensures parse(EntryBytes(e.0, e.1) + rest) == Some((e.0, e.1, rest))
    {
      EntryRoundTrip(e.0, e.1, maxKey, maxValue, rest);
    }
    EntriesParse(parse, entries, EntryBytes(k, v)[..n], budget);
    TruncatedEntry(k, v, n, maxKey, maxValue);
  }

  lemma SectionOfNothing()
    ensures SectionBytes(map[]) == [] && WireSize(map[]) == 0 && Footprint(map[]) == 0
  {
  }

  /** A section is accepted exactly when its footprint is within the receiver's budget. */
  lemma SectionRoundTrip(elements: Column, maxKey: nat, maxValue: nat, budget: nat)
    requires maxKey < U64_LIMIT && maxValue < U64_LIMIT
    requires forall k :: k in elements ==> |k| <= maxKey && |elements[k]| <= maxValue
    ensures var parse := input => ParseEntry(input, maxKey, maxValue);
            Consumes(parse) && ParsedSection(parse, SectionBytes(elements), map[], 0, budget) ==
            if Footprint(elements) <= budget then Ok(elements) else Err(OverBudget)
  {
    var parse := input => ParseEntry(input, maxKey, maxValue);
    forall k, tail | k in elements
      ensures parse(EntryBytes(k, elements[k]) + tail) == Some((k, elements[k], tail))
    {
      EntryRoundTrip(k, elements[k], maxKey, maxValue, tail);
    }
    SectionParses(parse, elements, [], budget);
    assert SectionBytes(elements) + [] == SectionBytes(elements);
  }
}
