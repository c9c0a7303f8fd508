/**
Asynchronous messages: their fields and encodings, what the deserializer of the database accepts, and
updates of some of their fields.
 */
module AsyncMessages {
  import opened ByteStrings
  import opened Slots
  import opened Wire
  import opened KeyLayout
  import opened Codecs
  import opened FieldStore

  datatype Trigger = Trigger(address: Address, datastoreKey: Option<ByteVec>)

  datatype AsyncMessage = AsyncMessage(
    emissionSlot: KeySlot,
    emissionIndex: U64,
    sender: Address,
    destination: Address,
    functionName: FunctionName,
    maxGas: U64,
    fee: U64,
    coins: U64,
    validityStart: KeySlot,
    validityEnd: KeySlot,
    functionParams: ByteVec,
    trigger: Option<Trigger>,
    canBeExecuted: bool)

  const FIELD_COUNT := 13

  type Tag = t: Byte | t < FIELD_COUNT

  const FUNCTION: Tag := 4
  const CAN_BE_EXECUTED: Tag := 12

  // ---------------------------------------------------------------- limits

  datatype MessageLimits = MessageLimits(threadCount: Byte, maxFunctionName: nat, maxParams: nat, maxKey: nat)

  predicate TriggerWithin(trigger: Option<Trigger>, maxKey: nat) {
    trigger.Some? && trigger.value.datastoreKey.Some? ==> |trigger.value.datastoreKey.value| <= maxKey
  }

  predicate Within(m: AsyncMessage, limits: MessageLimits) {
    && m.emissionSlot.thread < limits.threadCount
    && m.validityStart.thread < limits.threadCount
    && m.validityEnd.thread < limits.threadCount
    && |m.functionName| <= limits.maxFunctionName
    && |m.functionParams| <= limits.maxParams
    && TriggerWithin(m.trigger, limits.maxKey)
  }

  // ---------------------------------------------------------------- encodings

  function TriggerBytes(t: Trigger): seq<Byte> {
    t.address + OptionBytes(t.datastoreKey, (v: ByteVec) => VecBytes(v))
  }

  function TriggerFieldBytes(trigger: Option<Trigger>): seq<Byte> {
    OptionBytes(trigger, (t: Trigger) => TriggerBytes(t))
  }

  function FieldBytes(m: AsyncMessage, tag: Byte): seq<Byte> {
    match tag
    case 0 => SlotBytes(m.emissionSlot)
    case 1 => Varint(m.emissionIndex)
    case 2 => m.sender
    case 3 => m.destination
    case 4 => VecBytes(m.functionName)
    case 5 => Varint(m.maxGas)
    case 6 => Varint(m.fee)
    case 7 => Varint(m.coins)
    case 8 => SlotBytes(m.validityStart)
    case 9 => SlotBytes(m.validityEnd)
    case 10 => VecBytes(m.functionParams)
    case 11 => TriggerFieldBytes(m.trigger)
    case 12 => BoolBytes(m.canBeExecuted)
    case _ => []
  }

  function FieldsOf(m: AsyncMessage): Byte -> Value {
    (tag: Byte) => FieldBytes(m, tag)
  }

  /** The serialized message: its fields in the order of their tags. */
  function MessageBytes(m: AsyncMessage): seq<Byte> {
    Fields(FieldsOf(m), 0, FIELD_COUNT)
  }

  // ---------------------------------------------------------------- parsing

  /** Where a message comes from and goes to. */
  function ParseOrigin(input: seq<Byte>, limits: MessageLimits): (r: Parsed<(KeySlot, U64, Address, Address)>) {
    match ParseSlot(input, limits.threadCount)
    case None => None
    case Some((slot, afterSlot)) =>
      match ParseU64(afterSlot)
      case None => None
      case Some((index, afterIndex)) =>
        match ParseAddress(afterIndex)
        case None => None
        case Some((sender, afterSender)) =>
          match ParseAddress(afterSender)
          case None => None
          case Some((destination, rest)) => Some(((slot, index, sender, destination), rest))
  }

  /** The function name, the gas, the fee and the coins. */
  function ParseCost(input: seq<Byte>, limits: MessageLimits): (r: Parsed<(FunctionName, U64, U64, U64)>) {
    match ParseName(input, limits.maxFunctionName)
    case None => None
    case Some((name, afterName)) =>
      match ParseU64(afterName)
      case None => None
      case Some((maxGas, afterGas)) =>
        match ParseU64(afterGas)
        case None => None
        case Some((fee, afterFee)) =>
          match ParseU64(afterFee)
          case None => None
          case Some((coins, rest)) => Some(((name, maxGas, fee, coins), rest))
  }

  /** The validity range and the parameters. */
  function ParseValidity(input: seq<Byte>, limits: MessageLimits): (r: Parsed<(KeySlot, KeySlot, ByteVec)>) {
    match ParseSlot(input, limits.threadCount)
    case None => None
    case Some((start, afterStart)) =>
      match ParseSlot(afterStart, limits.threadCount)
      case None => None
      case Some((end, afterEnd)) =>
        match ParseVec(afterEnd, limits.maxParams)
        case None => None
        case Some((params, rest)) => Some(((start, end, params), rest))
  }

  function ParseTrigger(input: seq<Byte>, maxKey: nat): (r: Parsed<Trigger>) {
    match ParseAddress(input)
    case None => None
    case Some((address, afterAddress)) =>
      match ParseOption(afterAddress, KeyParser(maxKey))
      case None => None
      case Some((key, rest)) => Some((Trigger(address, key), rest))
  }

  function KeyParser(maxKey: nat): seq<Byte> -> Parsed<ByteVec> {
    input => ParseVec(input, maxKey)
  }

  function ParseTriggerField(input: seq<Byte>, maxKey: nat): (r: Parsed<Option<Trigger>>) {
    ParseOption(input, rest => ParseTrigger(rest, maxKey))
  }

  function ParseEnd(input: seq<Byte>, limits: MessageLimits): (r: Parsed<(Option<Trigger>, bool)>) {
    match ParseTriggerField(input, limits.maxKey)
    case None => None
    case Some((trigger, afterTrigger)) =>
      match ParseBool(afterTrigger)
      case None => None
      case Some((canBeExecuted, rest)) => Some(((trigger, canBeExecuted), rest))
  }

  /** Parsing a message ignores what follows it. */
  function ParseMessage(input: seq<Byte>, limits: MessageLimits): (r: Option<AsyncMessage>) {
    match ParseOrigin(input, limits)
    case None => None
    case Some(((slot, index, sender, destination), afterOrigin)) =>
      match ParseCost(afterOrigin, limits)
      case None => None
      case Some(((name, maxGas, fee, coins), afterCost)) =>
        match ParseValidity(afterCost, limits)
        case None => None
        case Some(((start, end, params), afterValidity)) =>
          match ParseEnd(afterValidity, limits)
          case None => None
          case Some(((trigger, canBeExecuted), _)) =>
            Some(AsyncMessage(slot, index, sender, destination, name, maxGas, fee, coins, start, end, params, trigger,
                              canBeExecuted))
  }

  // ---------------------------------------------------------------- round trips

  function OriginBytes(m: AsyncMessage): seq<Byte> {
    SlotBytes(m.emissionSlot) + (Varint(m.emissionIndex) + (m.sender + m.destination))
  }

  lemma OriginParses(m: AsyncMessage, limits: MessageLimits, tail: seq<Byte>)
    ensures ParseOrigin(OriginBytes(m) + tail, limits)
         == if m.emissionSlot.thread < limits.threadCount
            then Some(((m.emissionSlot, m.emissionIndex, m.sender, m.destination), tail)) else None
  {
    hide ParseSlot, SlotBytes, ParseU64, Varint, ParseAddress;
    var afterSender := m.destination + tail;
    var afterIndex := m.sender + afterSender;
    var afterSlot := Varint(m.emissionIndex) + afterIndex;
    assert OriginBytes(m) + tail == SlotBytes(m.emissionSlot) + afterSlot;
    SlotParses(m.emissionSlot, limits.threadCount, afterSlot);
    U64VarintRoundTrip(m.emissionIndex, afterIndex);
    AddressRoundTrip(m.sender, afterSender);
    AddressRoundTrip(m.destination, tail);
  }

  function CostBytes(m: AsyncMessage): seq<Byte> {
    VecBytes(m.functionName) + (Varint(m.maxGas) + (Varint(m.fee) + Varint(m.coins)))
  }

  lemma CostParses(m: AsyncMessage, limits: MessageLimits, tail: seq<Byte>)
    ensures ParseCost(CostBytes(m) + tail, limits)
         == if |m.functionName| <= limits.maxFunctionName
            then Some(((m.functionName, m.maxGas, m.fee, m.coins), tail)) else None
  {
    hide VecBytes, ParseName, ParseU64, Varint;
    var afterFee := Varint(m.coins) + tail;
    var afterGas := Varint(m.fee) + afterFee;
    var afterName := Varint(m.maxGas) + afterGas;
    assert CostBytes(m) + tail == VecBytes(m.functionName) + afterName;
    NameParses(m.functionName, limits.maxFunctionName, afterName);
    U64VarintRoundTrip(m.maxGas, afterGas);
    U64VarintRoundTrip(m.fee, afterFee);
    U64VarintRoundTrip(m.coins, tail);
  }

  function ValidityBytes(m: AsyncMessage): seq<Byte> {
    SlotBytes(m.validityStart) + (SlotBytes(m.validityEnd) + VecBytes(m.functionParams))
  }

  lemma ValidityParses(m: AsyncMessage, limits: MessageLimits, tail: seq<Byte>)
    ensures ParseValidity(ValidityBytes(m) + tail, limits)
         == if && m.validityStart.thread < limits.threadCount && m.validityEnd.thread < limits.threadCount
               && |m.functionParams| <= limits.maxParams
            then Some(((m.validityStart, m.validityEnd, m.functionParams), tail)) else None
  {
    hide ParseSlot, SlotBytes, VecBytes, ParseVec;
    var afterEnd := VecBytes(m.functionParams) + tail;
    var afterStart := SlotBytes(m.validityEnd) + afterEnd;
    assert ValidityBytes(m) + tail == SlotBytes(m.validityStart) + afterStart;
    SlotParses(m.validityStart, limits.threadCount, afterStart);
    SlotParses(m.validityEnd, limits.threadCount, afterEnd);
    VecParses(m.functionParams, limits.maxParams, tail);
  }

  lemma TriggerParses(t: Trigger, maxKey: nat, tail: seq<Byte>)
    ensures ParseTrigger(TriggerBytes(t) + tail, maxKey)
         == if TriggerWithin(Some(t), maxKey) then Some((t, tail)) else None
  {
    hide ParseAddress, VecBytes, ParseVec, OptionBytes, ParseOption;
    var encode := (v: ByteVec) => VecBytes(v);
    var key := OptionBytes(t.datastoreKey, encode);
    assert TriggerBytes(t) + tail == t.address + (key + tail);
    AddressRoundTrip(t.address, key + tail);
    OptionParses(t.datastoreKey, encode, KeyParser(maxKey), tail);
    if t.datastoreKey.Some? {
      VecParses(t.datastoreKey.value, maxKey, tail);
    }
  }

  lemma TriggerFieldParses(trigger: Option<Trigger>, maxKey: nat, tail: seq<Byte>)
    ensures ParseTriggerField(TriggerFieldBytes(trigger) + tail, maxKey)
         == if TriggerWithin(trigger, maxKey) then Some((trigger, tail)) else None
  {
    hide ParseTrigger, TriggerBytes, OptionBytes, ParseOption;
    OptionParses(trigger, (t: Trigger) => TriggerBytes(t), rest => ParseTrigger(rest, maxKey), tail);
    if trigger.Some? {
      TriggerParses(trigger.value, maxKey, tail);
    }
  }

  /** The input starts with a trigger: an address, and a key if there is one. */
  ghost predicate TriggerAt(input: seq<Byte>, t: Trigger, rest: seq<Byte>) {
    exists key: seq<Byte> :: AddressAt(input, t.address, key) && TriggerKeyAt(key, t.datastoreKey, rest)
  }

  ghost predicate TriggerKeyAt(input: seq<Byte>, key: Option<ByteVec>, rest: seq<Byte>) {
    if key.None? then input == [OPTION_NONE] + rest
    else input != [] && input[0] == OPTION_SOME && VecAt(input[1..], key.value, rest)
  }

  lemma TriggerKeyExactly(input: seq<Byte>, maxKey: nat, key: Option<ByteVec>, rest: seq<Byte>)
    ensures ParseOption(input, KeyParser(maxKey)) == Some((key, rest)) <==>
            (key.Some? ==> |key.value| <= maxKey) && TriggerKeyAt(input, key, rest)
  {
    hide ParseOption, ParseVec, VecAt;
    OptionExactly(input, KeyParser(maxKey), key, rest);
    if key.Some? && input != [] {
      VecExactly(input[1..], maxKey, key.value, rest);
    }
  }

  lemma TriggerExactly(input: seq<Byte>, maxKey: nat, t: Trigger, rest: seq<Byte>)
    ensures ParseTrigger(input, maxKey) == Some((t, rest)) <==>
            TriggerWithin(Some(t), maxKey) && TriggerAt(input, t, rest)
  {
    hide ParseAddress, AddressAt, ParseOption, TriggerKeyAt;
    if ParseTrigger(input, maxKey) == Some((t, rest)) {
      var key := ParseAddress(input).value.1;
      AddressExactly(input, t.address, key);
      TriggerKeyExactly(key, maxKey, t.datastoreKey, rest);
    }
    if key: seq<Byte> :| AddressAt(input, t.address, key) && TriggerKeyAt(key, t.datastoreKey, rest) {
      AddressExactly(input, t.address, key);
      TriggerKeyExactly(key, maxKey, t.datastoreKey, rest);
    }
  }

  function EndBytes(m: AsyncMessage): seq<Byte> {
    TriggerFieldBytes(m.trigger) + BoolBytes(m.canBeExecuted)
  }

  lemma EndParses(m: AsyncMessage, limits: MessageLimits)
    ensures ParseEnd(EndBytes(m), limits)
         == if TriggerWithin(m.trigger, limits.maxKey) then Some(((m.trigger, m.canBeExecuted), [])) else None
  {
    hide ParseTriggerField, TriggerFieldBytes, ParseBool, BoolBytes, TriggerWithin;
    TriggerFieldParses(m.trigger, limits.maxKey, BoolBytes(m.canBeExecuted));
    BoolRoundTrip(m.canBeExecuted, []);
    assert BoolBytes(m.canBeExecuted) + [] == BoolBytes(m.canBeExecuted);
  }

  lemma OriginSplit(m: AsyncMessage)
    ensures Fields(FieldsOf(m), 0, 4) == OriginBytes(m)
  {
    hide Fields, SlotBytes, Varint;
    FieldsUnroll(FieldsOf(m), 0, 4);
    FieldsLast(FieldsOf(m), 4);
  }

  lemma CostSplit(m: AsyncMessage)
    ensures Fields(FieldsOf(m), 4, 8) == CostBytes(m)
  {
    hide Fields, VecBytes, Varint;
    FieldsUnroll(FieldsOf(m), 4, 8);
    FieldsLast(FieldsOf(m), 8);
  }

  lemma ValiditySplit(m: AsyncMessage)
    ensures Fields(FieldsOf(m), 8, 11) == ValidityBytes(m)
  {
    hide Fields, SlotBytes, VecBytes;
    FieldsUnroll(FieldsOf(m), 8, 11);
    FieldsEnd(FieldsOf(m), 11);
    assert VecBytes(m.functionParams) + [] == VecBytes(m.functionParams);
  }

  lemma EndSplit(m: AsyncMessage)
    ensures Fields(FieldsOf(m), 11, 13) == EndBytes(m)
  {
    hide TriggerFieldBytes, BoolBytes;
    FieldsLast(FieldsOf(m), 13);
  }

  lemma MessageBytesSplit(m: AsyncMessage)
    ensures MessageBytes(m) == OriginBytes(m) + (CostBytes(m) + (ValidityBytes(m) + EndBytes(m)))
  {
    hide Fields, FieldBytes, OriginBytes, CostBytes, ValidityBytes, EndBytes;
    FieldsSplit(FieldsOf(m), 0, 4, FIELD_COUNT);
    FieldsSplit(FieldsOf(m), 4, 8, FIELD_COUNT);
    FieldsSplit(FieldsOf(m), 8, 11, FIELD_COUNT);
    OriginSplit(m);
    CostSplit(m);
    ValiditySplit(m);
    EndSplit(m);
  }

  /** A serialized message parses back exactly when it is within the limits. */
  lemma MessageRoundTrip(m: AsyncMessage, limits: MessageLimits)
    ensures ParseMessage(MessageBytes(m), limits) == if Within(m, limits) then Some(m) else None
  {
    hide ParseOrigin, OriginBytes, ParseCost, CostBytes, ParseValidity, ValidityBytes, ParseEnd, EndBytes;
    hide MessageBytes, TriggerWithin;
    MessageBytesSplit(m);
    OriginParses(m, limits, CostBytes(m) + (ValidityBytes(m) + EndBytes(m)));
    CostParses(m, limits, ValidityBytes(m) + EndBytes(m));
    ValidityParses(m, limits, EndBytes(m));
    EndParses(m, limits);
  }

  // ---------------------------------------------------------------- what parses to a message

  ghost predicate OriginAt(input: seq<Byte>, m: AsyncMessage, rest: seq<Byte>) {
    exists r1: seq<Byte>, r2: seq<Byte>, r3: seq<Byte> ::
      && SlotAt(input, m.emissionSlot, r1) && U64At(r1, m.emissionIndex, r2)
      && AddressAt(r2, m.sender, r3) && AddressAt(r3, m.destination, rest)
  }

  ghost predicate CostAt(input: seq<Byte>, m: AsyncMessage, rest: seq<Byte>) {
    exists r1: seq<Byte>, r2: seq<Byte>, r3: seq<Byte> ::
      && NameAt(input, m.functionName, r1) && U64At(r1, m.maxGas, r2)
      && U64At(r2, m.fee, r3) && U64At(r3, m.coins, rest)
  }

  ghost predicate ValidityAt(input: seq<Byte>, m: AsyncMessage, rest: seq<Byte>) {
    exists r1: seq<Byte>, r2: seq<Byte> ::
      && SlotAt(input, m.validityStart, r1) && SlotAt(r1, m.validityEnd, r2)
      && VecAt(r2, m.functionParams, rest)
  }

  ghost predicate TriggerFieldAt(input: seq<Byte>, trigger: Option<Trigger>, rest: seq<Byte>) {
    if trigger.None? then input == [OPTION_NONE] + rest
    else input != [] && input[0] == OPTION_SOME && TriggerAt(input[1..], trigger.value, rest)
  }

  ghost predicate EndAt(input: seq<Byte>, m: AsyncMessage) {
    exists r1: seq<Byte>, rest: seq<Byte> ::
      TriggerFieldAt(input, m.trigger, r1) && r1 == BoolBytes(m.canBeExecuted) + rest
  }

  /** The input starts with the thirteen fields of the message, in the order of their tags. */
  ghost predicate MessageAt(input: seq<Byte>, m: AsyncMessage) {
    exists r1: seq<Byte>, r2: seq<Byte>, r3: seq<Byte> ::
      && OriginAt(input, m, r1) && CostAt(r1, m, r2)
      && ValidityAt(r2, m, r3) && EndAt(r3, m)
  }

  lemma OriginExactly(input: seq<Byte>, limits: MessageLimits, m: AsyncMessage, rest: seq<Byte>)
    ensures ParseOrigin(input, limits) == Some(((m.emissionSlot, m.emissionIndex, m.sender, m.destination), rest)) <==>
            m.emissionSlot.thread < limits.threadCount && OriginAt(input, m, rest)
  {
    hide ParseSlot, SlotAt, ParseU64, U64At, ParseAddress, AddressAt;
    if ParseOrigin(input, limits) == Some(((m.emissionSlot, m.emissionIndex, m.sender, m.destination), rest)) {
      var r1 := ParseSlot(input, limits.threadCount).value.1;
      var r2 := ParseU64(r1).value.1;
      var r3 := ParseAddress(r2).value.1;
      SlotExactly(input, limits.threadCount, m.emissionSlot, r1);
      U64Exactly(r1, m.emissionIndex, r2);
      AddressExactly(r2, m.sender, r3);
      AddressExactly(r3, m.destination, rest);
    }
    if r1: seq<Byte>, r2: seq<Byte>, r3: seq<Byte> :| && SlotAt(input, m.emissionSlot, r1)
                                                      && U64At(r1, m.emissionIndex, r2)
                                                      && AddressAt(r2, m.sender, r3)
                                                      && AddressAt(r3, m.destination, rest) {
      SlotExactly(input, limits.threadCount, m.emissionSlot, r1);
      U64Exactly(r1, m.emissionIndex, r2);
      AddressExactly(r2, m.sender, r3);
      AddressExactly(r3, m.destination, rest);
    }
  }

  lemma CostExactly(input: seq<Byte>, limits: MessageLimits, m: AsyncMessage, rest: seq<Byte>)
    ensures ParseCost(input, limits) == Some(((m.functionName, m.maxGas, m.fee, m.coins), rest)) <==>
            |m.functionName| <= limits.maxFunctionName && CostAt(input, m, rest)
  {
    hide ParseName, NameAt, ParseU64, U64At;
    if ParseCost(input, limits) == Some(((m.functionName, m.maxGas, m.fee, m.coins), rest)) {
      var r1 := ParseName(input, limits.maxFunctionName).value.1;
      var r2 := ParseU64(r1).value.1;
      var r3 := ParseU64(r2).value.1;
      NameExactly(input, limits.maxFunctionName, m.functionName, r1);
      U64Exactly(r1, m.maxGas, r2);
      U64Exactly(r2, m.fee, r3);
      U64Exactly(r3, m.coins, rest);
    }
    if r1: seq<Byte>, r2: seq<Byte>, r3: seq<Byte> :| && NameAt(input, m.functionName, r1) && U64At(r1, m.maxGas, r2)
                                                      && U64At(r2, m.fee, r3) && U64At(r3, m.coins, rest) {
      NameExactly(input, limits.maxFunctionName, m.functionName, r1);
      U64Exactly(r1, m.maxGas, r2);
      U64Exactly(r2, m.fee, r3);
      U64Exactly(r3, m.coins, rest);
    }
  }

  lemma ValidityExactly(input: seq<Byte>, limits: MessageLimits, m: AsyncMessage, rest: seq<Byte>)
    ensures ParseValidity(input, limits) == Some(((m.validityStart, m.validityEnd, m.functionParams), rest)) <==>
            && m.validityStart.thread < limits.threadCount && m.validityEnd.thread < limits.threadCount
            && |m.functionParams| <= limits.maxParams && ValidityAt(input, m, rest)
  {
    hide ParseSlot, SlotAt, ParseVec, VecAt;
    if ParseValidity(input, limits) == Some(((m.validityStart, m.validityEnd, m.functionParams), rest)) {
      var r1 := ParseSlot(input, limits.threadCount).value.1;
      var r2 := ParseSlot(r1, limits.threadCount).value.1;
      SlotExactly(input, limits.threadCount, m.validityStart, r1);
      SlotExactly(r1, limits.threadCount, m.validityEnd, r2);
      VecExactly(r2, limits.maxParams, m.functionParams, rest);
    }
    if r1: seq<Byte>, r2: seq<Byte> :| && SlotAt(input, m.validityStart, r1) && SlotAt(r1, m.validityEnd, r2)
                                       && VecAt(r2, m.functionParams, rest) {
      SlotExactly(input, limits.threadCount, m.validityStart, r1);
      SlotExactly(r1, limits.threadCount, m.validityEnd, r2);
      VecExactly(r2, limits.maxParams, m.functionParams, rest);
    }
  }

  lemma TriggerFieldExactly(input: seq<Byte>, maxKey: nat, trigger: Option<Trigger>, rest: seq<Byte>)
    ensures ParseTriggerField(input, maxKey) == Some((trigger, rest)) <==>
            TriggerWithin(trigger, maxKey) && TriggerFieldAt(input, trigger, rest)
  {
    hide ParseTrigger, TriggerAt, ParseOption;
    OptionExactly(input, rest => ParseTrigger(rest, maxKey), trigger, rest);
    if trigger.Some? && input != [] {
      TriggerExactly(input[1..], maxKey, trigger.value, rest);
    }
  }

  /** The input starts with no trigger, or with one whose key is not too long. */
  ghost predicate IsTriggerField(input: seq<Byte>, maxKey: nat, rest: seq<Byte>) {
    exists trigger: Option<Trigger> :: TriggerWithin(trigger, maxKey) && TriggerFieldAt(input, trigger, rest)
  }

  lemma TriggerFieldLeaves(input: seq<Byte>, maxKey: nat, rest: seq<Byte>)
    ensures Left(ParseTriggerField(input, maxKey)) == Some(rest) <==> IsTriggerField(input, maxKey, rest)
  {
    hide ParseTriggerField, TriggerFieldAt, TriggerWithin;
    if Left(ParseTriggerField(input, maxKey)) == Some(rest) {
      TriggerFieldExactly(input, maxKey, ParseTriggerField(input, maxKey).value.0, rest);
    }
    if trigger: Option<Trigger> :| TriggerWithin(trigger, maxKey) && TriggerFieldAt(input, trigger, rest) {
      TriggerFieldExactly(input, maxKey, trigger, rest);
    }
  }

  lemma EndExactly(input: seq<Byte>, limits: MessageLimits, m: AsyncMessage)
    ensures (exists rest :: ParseEnd(input, limits) == Some(((m.trigger, m.canBeExecuted), rest))) <==>
            TriggerWithin(m.trigger, limits.maxKey) && EndAt(input, m)
  {
    hide ParseTriggerField, TriggerFieldAt, TriggerWithin, ParseBool, BoolBytes;
    if rest :| ParseEnd(input, limits) == Some(((m.trigger, m.canBeExecuted), rest)) {
      var r1 := ParseTriggerField(input, limits.maxKey).value.1;
      TriggerFieldExactly(input, limits.maxKey, m.trigger, r1);
      BoolExactly(r1, m.canBeExecuted, rest);
    }
    if r1: seq<Byte>, rest: seq<Byte> :|
      TriggerFieldAt(input, m.trigger, r1) && r1 == BoolBytes(m.canBeExecuted) + rest
    {
      TriggerFieldExactly(input, limits.maxKey, m.trigger, r1);
      BoolExactly(r1, m.canBeExecuted, rest);
    }
  }

  /** Bytes parse to a message exactly when they start with its fields and it is within the limits. */
  lemma MessageExactly(input: seq<Byte>, limits: MessageLimits, m: AsyncMessage)
    ensures ParseMessage(input, limits) == Some(m) <==> Within(m, limits) && MessageAt(input, m)
  {
    hide ParseOrigin, OriginAt, ParseCost, CostAt, ParseValidity, ValidityAt, ParseEnd, EndAt, TriggerWithin;
    if ParseMessage(input, limits) == Some(m) {
      var r1 := ParseOrigin(input, limits).value.1;
      var r2 := ParseCost(r1, limits).value.1;
      var r3 := ParseValidity(r2, limits).value.1;
      OriginExactly(input, limits, m, r1);
      CostExactly(r1, limits, m, r2);
      ValidityExactly(r2, limits, m, r3);
      EndExactly(r3, limits, m);
      assert ParseEnd(r3, limits) == Some(((m.trigger, m.canBeExecuted), ParseEnd(r3, limits).value.1));
    }
    if r1: seq<Byte>, r2: seq<Byte>, r3: seq<Byte> :| && OriginAt(input, m, r1) && CostAt(r1, m, r2)
                                                      && ValidityAt(r2, m, r3) && EndAt(r3, m) {
      OriginExactly(input, limits, m, r1);
      CostExactly(r1, limits, m, r2);
      ValidityExactly(r2, limits, m, r3);
      EndExactly(r3, limits, m);
    }
  }

  lemma NothingIsNoMessage(limits: MessageLimits)
    ensures ParseMessage([], limits) == None
  {
  }

  // ---------------------------------------------------------------- updates

  /** A new value for each field that an update sets. */
  datatype MessageUpdate = MessageUpdate(
    emissionSlot: Option<KeySlot>,
    emissionIndex: Option<U64>,
    sender: Option<Address>,
    destination: Option<Address>,
    functionName: Option<FunctionName>,
    maxGas: Option<U64>,
    fee: Option<U64>,
    coins: Option<U64>,
    validityStart: Option<KeySlot>,
    validityEnd: Option<KeySlot>,
    functionParams: Option<ByteVec>,
    trigger: Option<Option<Trigger>>,
    canBeExecuted: Option<bool>)

  const NO_UPDATE := MessageUpdate(None, None, None, None, None, None, None, None, None, None, None, None, None)

  function OrElse<T>(o: Option<T>, other: T): T {
    if o.Some? then o.value else other
  }

  function Updated(m: AsyncMessage, u: MessageUpdate): AsyncMessage {
    AsyncMessage(
      OrElse(u.emissionSlot, m.emissionSlot),
      OrElse(u.emissionIndex, m.emissionIndex),
      OrElse(u.sender, m.sender),
      OrElse(u.destination, m.destination),
      OrElse(u.functionName, m.functionName),
      OrElse(u.maxGas, m.maxGas),
      OrElse(u.fee, m.fee),
      OrElse(u.coins, m.coins),
      OrElse(u.validityStart, m.validityStart),
      OrElse(u.validityEnd, m.validityEnd),
      OrElse(u.functionParams, m.functionParams),
      OrElse(u.trigger, m.trigger),
      OrElse(u.canBeExecuted, m.canBeExecuted))
  }

  /** The new encoding of a field, if the update sets it. */
  function UpdateBytes(u: MessageUpdate, tag: Byte): Option<Value> {
    match tag
    case 0 => if u.emissionSlot.Some? then Some(SlotBytes(u.emissionSlot.value)) else None
    case 1 => if u.emissionIndex.Some? then Some(Varint(u.emissionIndex.value)) else None
    case 2 => if u.sender.Some? then Some(u.sender.value) else None
    case 3 => if u.destination.Some? then Some(u.destination.value) else None
    case 4 => if u.functionName.Some? then Some(VecBytes(u.functionName.value)) else None
    case 5 => if u.maxGas.Some? then Some(Varint(u.maxGas.value)) else None
    case 6 => if u.fee.Some? then Some(Varint(u.fee.value)) else None
    case 7 => if u.coins.Some? then Some(Varint(u.coins.value)) else None
    case 8 => if u.validityStart.Some? then Some(SlotBytes(u.validityStart.value)) else None
    case 9 => if u.validityEnd.Some? then Some(SlotBytes(u.validityEnd.value)) else None
    case 10 => if u.functionParams.Some? then Some(VecBytes(u.functionParams.value)) else None
    case 11 => if u.trigger.Some? then Some(TriggerFieldBytes(u.trigger.value)) else None
    case 12 => if u.canBeExecuted.Some? then Some(BoolBytes(u.canBeExecuted.value)) else None
    case _ => None
  }

  /** Encoding an updated message is updating the encoded fields. */
  lemma UpdateCommutes(m: AsyncMessage, u: MessageUpdate, tag: Tag)
    ensures FieldBytes(Updated(m, u), tag) == OrElse(UpdateBytes(u, tag), FieldBytes(m, tag))
  {
    hide SlotBytes, Varint, VecBytes, BoolBytes, TriggerFieldBytes;
  }

  /** Only the empty update sets no field. */
  lemma SomeFieldSet(u: MessageUpdate) returns (tag: Tag)
    requires u != NO_UPDATE
    ensures UpdateBytes(u, tag).Some?
  {
    hide SlotBytes, Varint, VecBytes, BoolBytes, TriggerFieldBytes;
    tag :=
      if u.emissionSlot.Some? then 0 else if u.emissionIndex.Some? then 1 else if u.sender.Some? then 2
      else if u.destination.Some? then 3 else if u.functionName.Some? then 4 else if u.maxGas.Some? then 5
      else if u.fee.Some? then 6 else if u.coins.Some? then 7 else if u.validityStart.Some? then 8
      else if u.validityEnd.Some? then 9 else if u.functionParams.Some? then 10 else if u.trigger.Some? then 11
      else 12;
  }

  lemma NoFieldSet(tag: Byte)
    ensures UpdateBytes(NO_UPDATE, tag) == None
  {
  }

  // ---------------------------------------------------------------- validation of one field

  /** What follows the value of a field other than the function name, if it can be parsed. */
  function FieldLeft(tag: Byte, value: Value, limits: MessageLimits): Option<seq<Byte>> {
    match tag
    case 0 => Left(ParseSlot(value, limits.threadCount))
    case 1 => Left(ParseU64(value))
    case 2 => Left(ParseAddress(value))
    case 3 => Left(ParseAddress(value))
    case 5 => Left(ParseU64(value))
    case 6 => Left(ParseU64(value))
    case 7 => Left(ParseU64(value))
    case 8 => Left(ParseSlot(value, limits.threadCount))
    case 9 => Left(ParseSlot(value, limits.threadCount))
    case 10 => Left(ParseVec(value, limits.maxParams))
    case 11 => Left(ParseTriggerField(value, limits.maxKey))
    case 12 => Left(ParseBool(value))
    case _ => None
  }

  /**
   What the pool checks of a received field value: nothing may follow it, and the length of a function
   name is read as a single byte.
   */
  predicate FieldValid(tag: Byte, value: Value, limits: MessageLimits) {
    if tag == FUNCTION then value != [] && |value| - 1 == value[0] else FieldLeft(tag, value, limits) == Some([])
  }

  /** The value is the encoding of a field within the limits, or a byte and as many more. */
  ghost predicate IsField(tag: Byte, value: Value, limits: MessageLimits) {
    match tag
    case 0 => IsSlot(value, limits.threadCount, [])
    case 1 => IsU64(value, [])
    case 2 => IsAddress(value, [])
    case 3 => IsAddress(value, [])
    case 4 => exists name: seq<Byte> :: |name| < 256 && value == [|name|] + name
    case 5 => IsU64(value, [])
    case 6 => IsU64(value, [])
    case 7 => IsU64(value, [])
    case 8 => IsSlot(value, limits.threadCount, [])
    case 9 => IsSlot(value, limits.threadCount, [])
    case 10 => IsVec(value, limits.maxParams, [])
    case 11 => IsTriggerField(value, limits.maxKey, [])
    case 12 => IsBool(value, [])
    case _ => false
  }

  /** The validator accepts exactly such values. */
  lemma FieldValidExactly(tag: Byte, value: Value, limits: MessageLimits)
    ensures FieldValid(tag, value, limits) <==> IsField(tag, value, limits)
  {
    hide ParseAddress, ParseSlot, ParseVec, ParseU64, ParseBool, ParseTriggerField, Left;
    hide IsAddress, IsSlot, IsVec, IsU64, IsBool, IsTriggerField;
    match tag
    case 0 => SlotLeaves(value, limits.threadCount, []);
    case 1 => U64Leaves(value, []);
    case 2 => AddressLeaves(value, []);
    case 3 => AddressLeaves(value, []);
    case 4 => OneByteLength(value);
    case 5 => U64Leaves(value, []);
    case 6 => U64Leaves(value, []);
    case 7 => U64Leaves(value, []);
    case 8 => SlotLeaves(value, limits.threadCount, []);
    case 9 => SlotLeaves(value, limits.threadCount, []);
    case 10 => VecLeaves(value, limits.maxParams, []);
    case 11 => TriggerFieldLeaves(value, limits.maxKey, []);
    case 12 => BoolLeaves(value, []);
    case _ =>
  }

  lemma OneByteLength(value: Value)
    ensures value != [] && |value| - 1 == value[0] <==>
            exists name: seq<Byte> :: |name| < 256 && value == [|name|] + name
  {
    if value != [] && |value| - 1 == value[0] {
      assert value == [|value[1..]|] + value[1..];
    }
  }

  /** What the validator demands of the fields of a message: the limits, but 127 bytes for any function name. */
  predicate FieldAcceptable(m: AsyncMessage, tag: Tag, limits: MessageLimits) {
    match tag
    case 0 => m.emissionSlot.thread < limits.threadCount
    case 4 => |m.functionName| < 128
    case 8 => m.validityStart.thread < limits.threadCount
    case 9 => m.validityEnd.thread < limits.threadCount
    case 10 => |m.functionParams| <= limits.maxParams
    case 11 => TriggerWithin(m.trigger, limits.maxKey)
    case _ => true
  }

  /** A length of 128 or more takes two or three bytes, and then no length matches its first byte. */
  lemma NameLengthByte(name: FunctionName)
    ensures |VecBytes(name)| - 1 == VecBytes(name)[0] <==> |name| < 128
  {
    var n := |name|;
    if n >= 128 {
      assert Varint(n) == [128 + n % 128] + Varint(n / 128);
      if n >= 16384 {
        assert Varint(n / 128) == [128 + n / 128 % 128] + Varint(n / 128 / 128);
      }
    }
  }

  lemma FieldAccepted(m: AsyncMessage, tag: Tag, limits: MessageLimits)
    ensures FieldValid(tag, FieldBytes(m, tag), limits) <==> FieldAcceptable(m, tag, limits)
  {
    hide ParseAddress, ParseSlot, ParseVec, ParseU64, ParseBool, ParseTriggerField;
    hide SlotBytes, VecBytes, Varint, BoolBytes, TriggerFieldBytes, TriggerWithin;
    assert FieldBytes(m, tag) + [] == FieldBytes(m, tag);
    match tag
    case 0 => SlotParses(m.emissionSlot, limits.threadCount, []);
    case 1 => U64VarintRoundTrip(m.emissionIndex, []);
    case 2 => AddressRoundTrip(m.sender, []);
    case 3 => AddressRoundTrip(m.destination, []);
    case 4 => NameLengthByte(m.functionName);
    case 5 => U64VarintRoundTrip(m.maxGas, []);
    case 6 => U64VarintRoundTrip(m.fee, []);
    case 7 => U64VarintRoundTrip(m.coins, []);
    case 8 => SlotParses(m.validityStart, limits.threadCount, []);
    case 9 => SlotParses(m.validityEnd, limits.threadCount, []);
    case 10 => VecParses(m.functionParams, limits.maxParams, []);
    case 11 => TriggerFieldParses(m.trigger, limits.maxKey, []);
    case 12 => BoolRoundTrip(m.canBeExecuted, []);
  }

  /** A message that loads within the limits of the network, and one of its fields that the validator refuses. */
  lemma LongNameRefused() returns (m: AsyncMessage, limits: MessageLimits)
    ensures limits.maxFunctionName == 255
    ensures ParseMessage(MessageBytes(m), limits) == Some(m)
    ensures !FieldValid(FUNCTION, FieldBytes(m, FUNCTION), limits)
  {
    hide ParseMessage, MessageBytes;
    var address: Address := seq(ADDRESS_LEN, _ => 0);
    var name: FunctionName := seq(128, _ => 97);
    m := AsyncMessage(Slot(1, 0), 0, address, address, name, 0, 0, 0, Slot(2, 0), Slot(3, 0), [], None, true);
    limits := MessageLimits(32, 255, 0, 0);
    MessageRoundTrip(m, limits);
    FieldAccepted(m, FUNCTION, limits);
  }
}
