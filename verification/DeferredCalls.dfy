/**
Deferred calls in the database: the keys and field encodings of a call, what the database holds for
the calls of a slot, and how a change set moves it.
 */
module DeferredCalls {
  import opened ByteStrings
  import opened Columns
  import opened Wire
  import opened DbModel
  import opened KeyLayout
  import opened Codecs
  import opened FieldStore

  // ---------------------------------------------------------------- keys

  const MAX_CALL_ID_LEN := 128

  type CallId = id: Key | |id| <= MAX_CALL_ID_LEN witness []

  type FieldTag = t: Byte | 1 <= t <= 9 witness 1

  datatype CallKey = FieldAt(slot: KeySlot, id: CallId, tag: FieldTag) | GasAt(slot: KeySlot) | FeeAt(slot: KeySlot)

  const CALLS_TAG: Byte := 0
  const SLOT_TOTAL_GAS: Byte := 1
  const SLOT_BASE_FEE: Byte := 2

  /** The bytes of "deferred_calls/". */
  function RegistryPrefix(): Key {
    [100, 101, 102, 101, 114, 114, 101, 100, 95, 99, 97, 108, 108, 115, 47]
  }

  /** The bytes of "deferred_call_total_gas", the one key of the registry outside its prefix. */
  function TotalGasKey(): Key {
    [100, 101, 102, 101, 114, 114, 101, 100, 95, 99, 97, 108, 108, 95, 116, 111, 116, 97, 108, 95, 103, 97, 115]
  }

  function SlotBase(slot: KeySlot): (r: Key)
    ensures |r| == 24
  {
    RegistryPrefix() + SlotKey(slot)
  }

  /** The prefix that all calls of a slot share. */
  function CallsBase(slot: KeySlot): Key {
    SlotBase(slot) + [CALLS_TAG]
  }

  /** The prefix that all fields of a call share. */
  function CallBase(slot: KeySlot, id: CallId): Key {
    CallsBase(slot) + VecBytes(id)
  }

  function Bytes(k: CallKey): Key {
    match k
    case FieldAt(slot, id, tag) => CallBase(slot, id) + [tag]
    case GasAt(slot) => SlotBase(slot) + [SLOT_TOTAL_GAS]
    case FeeAt(slot) => SlotBase(slot) + [SLOT_BASE_FEE]
  }

  lemma SlotBaseInjective(a: KeySlot, b: KeySlot, x: Key, y: Key)
    requires SlotBase(a) + x == SlotBase(b) + y
    ensures a == b && x == y
  {
    ConcatInjective(SlotBase(a), SlotBase(b), x, y);
    ConcatInjective(RegistryPrefix(), RegistryPrefix(), SlotKey(a), SlotKey(b));
    SlotKeyOrder(a, b);
  }

  /** What follows the slot in a key. */
  function Tail(k: CallKey): Key {
    match k
    case FieldAt(_, id, tag) => [CALLS_TAG] + (VecBytes(id) + [tag])
    case GasAt(_) => [SLOT_TOTAL_GAS]
    case FeeAt(_) => [SLOT_BASE_FEE]
  }

  lemma BytesSplit(k: CallKey)
    ensures Bytes(k) == SlotBase(k.slot) + Tail(k)
  {
  }

  lemma KeyParts(k: CallKey)
    ensures |Bytes(k)| >= 25 && Bytes(k)[..24] == SlotBase(k.slot) && Bytes(k)[24..] == Tail(k)
    ensures StartsWith(Bytes(k), RegistryPrefix())
  {
    BytesSplit(k);
    assert SlotBase(k.slot)[..15] == RegistryPrefix();
  }

  lemma TailInjective(a: CallKey, b: CallKey)
    requires Tail(a) == Tail(b) && a.slot == b.slot
    ensures a == b
  {
    assert Tail(a)[0] == Tail(b)[0];
    if a.FieldAt? {
      ConcatInjective([CALLS_TAG], [CALLS_TAG], VecBytes(a.id) + [a.tag], VecBytes(b.id) + [b.tag]);
      VecInjective(a.id, b.id, [a.tag], [b.tag]);
    }
  }

  /** No two entries share a key. */
  lemma BytesInjective(a: CallKey, b: CallKey)
    requires Bytes(a) == Bytes(b)
    ensures a == b
  {
    BytesSplit(a);
    BytesSplit(b);
    SlotBaseInjective(a.slot, b.slot, Tail(a), Tail(b));
    TailInjective(a, b);
  }

  lemma Regroup(a: Key, b: Key, c: Key)
    ensures a + b + c == a + (b + c)
  {
  }

  lemma StartsWithSplit(bytes: Key, base: Key)
    ensures StartsWith(bytes, base) ==> bytes == base + bytes[|base|..]
  {
  }

  lemma StartsWithConcat(base: Key, x: Key)
    ensures StartsWith(base + x, base)
  {
  }

  /** A scan over the calls of a slot meets exactly their fields. */
  lemma SlotScan(slot: KeySlot, k: CallKey)
    ensures StartsWith(Bytes(k), CallsBase(slot)) <==> k.FieldAt? && k.slot == slot
  {
    hide SlotBase, VecBytes, StartsWith;
    var bytes, base := Bytes(k), CallsBase(slot);
    BytesSplit(k);
    StartsWithSplit(bytes, base);
    if StartsWith(bytes, base) {
      Regroup(SlotBase(slot), [CALLS_TAG], bytes[|base|..]);
      SlotBaseInjective(slot, k.slot, [CALLS_TAG] + bytes[|base|..], Tail(k));
      assert Tail(k)[0] == CALLS_TAG;
    }
    if k.FieldAt? && k.slot == slot {
      Regroup(base, VecBytes(k.id), [k.tag]);
      StartsWithConcat(base, VecBytes(k.id) + [k.tag]);
    }
  }

  /** A scan over one call meets exactly its fields. */
  lemma CallScan(slot: KeySlot, id: CallId, k: CallKey)
    ensures StartsWith(Bytes(k), CallBase(slot, id)) <==> k.FieldAt? && k.slot == slot && k.id == id
  {
    hide SlotBase, VecBytes, StartsWith;
    var bytes, base := Bytes(k), CallBase(slot, id);
    BytesSplit(k);
    StartsWithSplit(bytes, base);
    if StartsWith(bytes, base) {
      var rest := bytes[|base|..];
      Regroup(CallsBase(slot), VecBytes(id), rest);
      Regroup(SlotBase(slot), [CALLS_TAG], VecBytes(id) + rest);
      SlotBaseInjective(slot, k.slot, [CALLS_TAG] + (VecBytes(id) + rest), Tail(k));
      assert Tail(k)[0] == CALLS_TAG;
      ConcatInjective([CALLS_TAG], [CALLS_TAG], VecBytes(id) + rest, VecBytes(k.id) + [k.tag]);
      VecInjective(id, k.id, rest, [k.tag]);
    }
    if k.FieldAt? && k.slot == slot && k.id == id {
      StartsWithConcat(base, [k.tag]);
    }
  }

  // ---------------------------------------------------------------- a call and its fields

  datatype DeferredCall = DeferredCall(
    sender: Address,
    targetSlot: KeySlot,
    targetAddress: Address,
    targetFunction: FunctionName,
    parameters: ByteVec,
    coins: U64,
    maxGas: U64,
    fee: U64,
    cancelled: bool)

  datatype CallLimits = CallLimits(threadCount: Byte, maxFunctionName: nat, maxParameters: nat)

  predicate Within(call: DeferredCall, limits: CallLimits) {
    && call.targetSlot.thread < limits.threadCount
    && |call.targetFunction| <= limits.maxFunctionName
    && |call.parameters| <= limits.maxParameters
  }

  function FieldBytes(call: DeferredCall, tag: Byte): seq<Byte> {
    match tag
    case 1 => call.sender
    case 2 => SlotBytes(call.targetSlot)
    case 3 => call.targetAddress
    case 4 => VecBytes(call.targetFunction)
    case 5 => VecBytes(call.parameters)
    case 6 => Varint(call.coins)
    case 7 => Varint(call.maxGas)
    case 8 => Varint(call.fee)
    case 9 => BoolBytes(call.cancelled)
    case _ => []
  }

  /** The serialized call: its fields in the order of their tags. */
  function CallBytes(call: DeferredCall): seq<Byte> {
    Fields(FieldsOf(call), 1, 10)
  }

  function FieldsOf(call: DeferredCall): Byte -> Value {
    (tag: Byte) => FieldBytes(call, tag)
  }

  /** Coins, gas, fee and the cancelled flag. */
  function ParseCosts(input: seq<Byte>): (r: Option<(U64, U64, U64, bool)>) {
    match ParseU64(input)
    case None => None
    case Some((coins, afterCoins)) =>
      match ParseU64(afterCoins)
      case None => None
      case Some((maxGas, afterGas)) =>
        match ParseU64(afterGas)
        case None => None
        case Some((fee, afterFee)) =>
          match ParseBool(afterFee)
          case None => None
          case Some((cancelled, _)) => Some((coins, maxGas, fee, cancelled))
  }

  function CostBytes(call: DeferredCall): seq<Byte> {
    Varint(call.coins) + (Varint(call.maxGas) + (Varint(call.fee) + BoolBytes(call.cancelled)))
  }

  lemma CostsRoundTrip(call: DeferredCall)
    ensures ParseCosts(CostBytes(call)) == Some((call.coins, call.maxGas, call.fee, call.cancelled))
  {
    hide Varint, ParseU64, BoolBytes, ParseBool;
    var flag := BoolBytes(call.cancelled);
    U64VarintRoundTrip(call.coins, Varint(call.maxGas) + (Varint(call.fee) + flag));
    U64VarintRoundTrip(call.maxGas, Varint(call.fee) + flag);
    U64VarintRoundTrip(call.fee, flag);
    BoolRoundTrip(call.cancelled, []);
    assert flag + [] == flag;
  }

  /** The name of the function and its parameters. */
  function ParsePayload(input: seq<Byte>, limits: CallLimits): (r: Parsed<(FunctionName, ByteVec)>) {
    match ParseName(input, limits.maxFunctionName)
    case None => None
    case Some((name, rest)) =>
      match ParseVec(rest, limits.maxParameters)
      case None => None
      case Some((parameters, rest')) => Some(((name, parameters), rest'))
  }

  /** The three addresses and slots a call starts with. */
  function ParseRoute(input: seq<Byte>, limits: CallLimits): (r: Parsed<(Address, KeySlot, Address)>) {
    match ParseAddress(input)
    case None => None
    case Some((sender, rest)) =>
      match ParseSlot(rest, limits.threadCount)
      case None => None
      case Some((slot, rest')) =>
        match ParseAddress(rest')
        case None => None
        case Some((target, rest'')) => Some(((sender, slot, target), rest''))
  }

  /** Parsing a call ignores what follows it. */
  function ParseCall(input: seq<Byte>, limits: CallLimits): (r: Option<DeferredCall>) {
    match ParseRoute(input, limits)
    case None => None
    case Some(((sender, slot, target), afterRoute)) =>
      match ParsePayload(afterRoute, limits)
      case None => None
      case Some(((name, parameters), afterPayload)) =>
        match ParseCosts(afterPayload)
        case None => None
        case Some((coins, maxGas, fee, cancelled)) =>
          Some(DeferredCall(sender, slot, target, name, parameters, coins, maxGas, fee, cancelled))
  }

  function RouteBytes(call: DeferredCall): seq<Byte> {
    call.sender + (SlotBytes(call.targetSlot) + call.targetAddress)
  }

  function PayloadBytes(call: DeferredCall): seq<Byte> {
    VecBytes(call.targetFunction) + VecBytes(call.parameters)
  }

  lemma RouteRoundTrip(call: DeferredCall, limits: CallLimits, tail: seq<Byte>)
    ensures ParseRoute(RouteBytes(call) + tail, limits)
         == if call.targetSlot.thread < limits.threadCount
            then Some(((call.sender, call.targetSlot, call.targetAddress), tail)) else None
  {
    hide ParseAddress, ParseSlot, SlotBytes;
    var slotBytes := SlotBytes(call.targetSlot);
    assert RouteBytes(call) + tail == call.sender + (slotBytes + (call.targetAddress + tail));
    AddressRoundTrip(call.sender, slotBytes + (call.targetAddress + tail));
    SlotParses(call.targetSlot, limits.threadCount, call.targetAddress + tail);
    AddressRoundTrip(call.targetAddress, tail);
  }

  lemma PayloadRoundTrip(call: DeferredCall, limits: CallLimits, tail: seq<Byte>)
    ensures ParsePayload(PayloadBytes(call) + tail, limits)
         == if |call.targetFunction| <= limits.maxFunctionName && |call.parameters| <= limits.maxParameters
            then Some(((call.targetFunction, call.parameters), tail)) else None
  {
    hide VecBytes, ParseVec, ParseName;
    var rest := VecBytes(call.parameters) + tail;
    assert PayloadBytes(call) + tail == VecBytes(call.targetFunction) + rest;
    NameParses(call.targetFunction, limits.maxFunctionName, rest);
    VecParses(call.parameters, limits.maxParameters, tail);
  }

  lemma RouteSplit(call: DeferredCall)
    ensures Fields(FieldsOf(call), 1, 4) == RouteBytes(call)
  {
    hide Fields, SlotBytes;
    FieldsUnroll(FieldsOf(call), 1, 4);
    FieldsEnd(FieldsOf(call), 4);
    assert call.targetAddress + [] == call.targetAddress;
  }

  lemma PayloadSplit(call: DeferredCall)
    ensures Fields(FieldsOf(call), 4, 6) == PayloadBytes(call)
  {
    hide VecBytes;
    FieldsLast(FieldsOf(call), 6);
  }

  lemma CostSplit(call: DeferredCall)
    ensures Fields(FieldsOf(call), 6, 10) == CostBytes(call)
  {
    hide Fields, Varint, BoolBytes;
    FieldsUnroll(FieldsOf(call), 6, 10);
    FieldsLast(FieldsOf(call), 10);
  }

  lemma CallBytesSplit(call: DeferredCall)
    ensures CallBytes(call) == RouteBytes(call) + (PayloadBytes(call) + CostBytes(call))
  {
    hide Fields, FieldBytes, RouteBytes, PayloadBytes, CostBytes;
    FieldsSplit(FieldsOf(call), 1, 4, 10);
    FieldsSplit(FieldsOf(call), 4, 6, 10);
    RouteSplit(call);
    PayloadSplit(call);
    CostSplit(call);
  }

  /** A serialized call parses back exactly when it is within the limits. */
  lemma CallRoundTrip(call: DeferredCall, limits: CallLimits)
    ensures ParseCall(CallBytes(call), limits) == if Within(call, limits) then Some(call) else None
  {
    hide CallBytes, RouteBytes, PayloadBytes, CostBytes, ParseRoute, ParsePayload, ParseCosts;
    CallBytesSplit(call);
    RouteRoundTrip(call, limits, PayloadBytes(call) + CostBytes(call));
    PayloadRoundTrip(call, limits, CostBytes(call));
    CostsRoundTrip(call);
  }

  lemma NothingIsNoCall(limits: CallLimits)
    ensures ParseCall([], limits) == None
  {
  }

  // ---------------------------------------------------------------- what parses to a call

  ghost predicate RouteAt(input: seq<Byte>, call: DeferredCall, rest: seq<Byte>) {
    exists r1: seq<Byte>, r2: seq<Byte> ::
      && AddressAt(input, call.sender, r1)
      && SlotAt(r1, call.targetSlot, r2)
      && AddressAt(r2, call.targetAddress, rest)
  }

  ghost predicate PayloadAt(input: seq<Byte>, call: DeferredCall, rest: seq<Byte>) {
    exists r1: seq<Byte> :: NameAt(input, call.targetFunction, r1) && VecAt(r1, call.parameters, rest)
  }

  ghost predicate CostsAt(input: seq<Byte>, call: DeferredCall) {
    exists r1: seq<Byte>, r2: seq<Byte>, r3: seq<Byte>, rest: seq<Byte> ::
      && U64At(input, call.coins, r1) && U64At(r1, call.maxGas, r2) && U64At(r2, call.fee, r3)
      && r3 == BoolBytes(call.cancelled) + rest
  }

  /** The input starts with the nine fields of the call, in the order of their tags. */
  ghost predicate CallAt(input: seq<Byte>, call: DeferredCall) {
    exists r1: seq<Byte>, r2: seq<Byte> :: RouteAt(input, call, r1) && PayloadAt(r1, call, r2) && CostsAt(r2, call)
  }

  lemma RouteExactly(input: seq<Byte>, limits: CallLimits, call: DeferredCall, rest: seq<Byte>)
    ensures ParseRoute(input, limits) == Some(((call.sender, call.targetSlot, call.targetAddress), rest)) <==>
            call.targetSlot.thread < limits.threadCount && RouteAt(input, call, rest)
  {
    hide ParseAddress, AddressAt, ParseSlot, SlotAt;
    if ParseRoute(input, limits) == Some(((call.sender, call.targetSlot, call.targetAddress), rest)) {
      var r1 := ParseAddress(input).value.1;
      var r2 := ParseSlot(r1, limits.threadCount).value.1;
      AddressExactly(input, call.sender, r1);
      SlotExactly(r1, limits.threadCount, call.targetSlot, r2);
      AddressExactly(r2, call.targetAddress, rest);
    }
    if r1: seq<Byte>, r2: seq<Byte> :| && AddressAt(input, call.sender, r1)
                                       && SlotAt(r1, call.targetSlot, r2)
                                       && AddressAt(r2, call.targetAddress, rest) {
      AddressExactly(input, call.sender, r1);
      SlotExactly(r1, limits.threadCount, call.targetSlot, r2);
      AddressExactly(r2, call.targetAddress, rest);
    }
  }

  lemma PayloadExactly(input: seq<Byte>, limits: CallLimits, call: DeferredCall, rest: seq<Byte>)
    ensures ParsePayload(input, limits) == Some(((call.targetFunction, call.parameters), rest)) <==>
            && |call.targetFunction| <= limits.maxFunctionName && |call.parameters| <= limits.maxParameters
            && PayloadAt(input, call, rest)
  {
    hide ParseName, NameAt, ParseVec, VecAt;
    if ParsePayload(input, limits) == Some(((call.targetFunction, call.parameters), rest)) {
      var r1 := ParseName(input, limits.maxFunctionName).value.1;
      NameExactly(input, limits.maxFunctionName, call.targetFunction, r1);
      VecExactly(r1, limits.maxParameters, call.parameters, rest);
    }
    if r1: seq<Byte> :| NameAt(input, call.targetFunction, r1) && VecAt(r1, call.parameters, rest) {
      NameExactly(input, limits.maxFunctionName, call.targetFunction, r1);
      VecExactly(r1, limits.maxParameters, call.parameters, rest);
    }
  }

  lemma CostsExactly(input: seq<Byte>, call: DeferredCall)
    ensures ParseCosts(input) == Some((call.coins, call.maxGas, call.fee, call.cancelled)) <==> CostsAt(input, call)
  {
    hide ParseU64, U64At, ParseBool, BoolBytes;
    if ParseCosts(input) == Some((call.coins, call.maxGas, call.fee, call.cancelled)) {
      var r1 := ParseU64(input).value.1;
      var r2 := ParseU64(r1).value.1;
      var r3 := ParseU64(r2).value.1;
      U64Exactly(input, call.coins, r1);
      U64Exactly(r1, call.maxGas, r2);
      U64Exactly(r2, call.fee, r3);
      BoolExactly(r3, call.cancelled, ParseBool(r3).value.1);
    }
    if r1: seq<Byte>, r2: seq<Byte>, r3: seq<Byte>, rest: seq<Byte> :|
      && U64At(input, call.coins, r1) && U64At(r1, call.maxGas, r2) && U64At(r2, call.fee, r3)
      && r3 == BoolBytes(call.cancelled) + rest
    {
      U64Exactly(input, call.coins, r1);
      U64Exactly(r1, call.maxGas, r2);
      U64Exactly(r2, call.fee, r3);
      BoolExactly(r3, call.cancelled, rest);
    }
  }

  /** Bytes parse to a call exactly when they start with its fields and it is within the limits. */
  lemma CallExactly(input: seq<Byte>, limits: CallLimits, call: DeferredCall)
    ensures ParseCall(input, limits) == Some(call) <==> Within(call, limits) && CallAt(input, call)
  {
    hide ParseRoute, RouteAt, ParsePayload, PayloadAt, ParseCosts, CostsAt;
    if ParseCall(input, limits) == Some(call) {
      var r1 := ParseRoute(input, limits).value.1;
      var r2 := ParsePayload(r1, limits).value.1;
      RouteExactly(input, limits, call, r1);
      PayloadExactly(r1, limits, call, r2);
      CostsExactly(r2, call);
    }
    if r1: seq<Byte>, r2: seq<Byte> :| RouteAt(input, call, r1) && PayloadAt(r1, call, r2) && CostsAt(r2, call) {
      RouteExactly(input, limits, call, r1);
      PayloadExactly(r1, limits, call, r2);
      CostsExactly(r2, call);
    }
  }

  // ---------------------------------------------------------------- the calls of a slot in the database

  /** What is booked for a slot. */
  datatype SlotView = SlotView(calls: map<CallId, DeferredCall>, gas: U64, fee: U64)

  /** The value stored under a key of the slot; a zero gas or fee is stored as no entry. */
  function Stored(view: SlotView, k: CallKey): Option<Value> {
    match k
    case FieldAt(_, id, tag) => if id in view.calls then Some(FieldBytes(view.calls[id], tag)) else None
    case GasAt(_) => if view.gas == 0 then None else Some(Varint(view.gas))
    case FeeAt(_) => if view.fee == 0 then None else Some(Varint(view.fee))
  }

  /** The database holds exactly the fields of the calls of a slot, its gas and its base fee. */
  ghost predicate Holds(col: Column, slot: KeySlot, view: SlotView) {
    && (forall k: CallKey :: k.slot == slot ==> Get(col, Bytes(k)) == Stored(view, k))
    && (forall key :: key in col && StartsWith(key, CallsBase(slot)) ==> IsCallKey(key))
  }

  ghost predicate IsCallKey(key: Key) {
    exists k: CallKey :: Bytes(k) == key
  }

  lemma EmptyHolds(slot: KeySlot)
    ensures Holds(map[], slot, SlotView(map[], 0, 0))
  {
  }

  lemma CallKeys(col: Column, slot: KeySlot, view: SlotView, id: CallId)
    requires Holds(col, slot, view)
    ensures PrefixKeys(col, CallBase(slot, id)) == if id in view.calls then FieldKeys(CallBase(slot, id), 1, 10) else {}
  {
    var base := CallBase(slot, id);
    forall key | key in PrefixKeys(col, base)
      ensures id in view.calls && key in FieldKeys(base, 1, 10)
    {
      LongerPrefix(key, CallsBase(slot), VecBytes(id));
      assert IsCallKey(key);
      var k: CallKey :| Bytes(k) == key;
      CallScan(slot, id, k);
      assert Get(col, Bytes(k)) == Stored(view, k);
    }
    if id in view.calls {
      forall key | key in FieldKeys(base, 1, 10)
        ensures key in PrefixKeys(col, base)
      {
        var t: Byte :| 1 <= t < 10 && key == base + [t];
        assert Get(col, Bytes(FieldAt(slot, id, t))) == Stored(view, FieldAt(slot, id, t));
      }
    }
  }

  lemma LongerPrefix(key: Key, base: Key, more: Key)
    requires StartsWith(key, base + more)
    ensures StartsWith(key, base)
  {
    assert key[..|base|] == (base + more)[..|base|];
  }

  /** What a scan over the fields of a call, concatenated and parsed, gives. */
  function ReadCall(col: Column, slot: KeySlot, id: CallId, limits: CallLimits): Option<DeferredCall> {
    ParseCall(ConcatValues(col, PrefixKeys(col, CallBase(slot, id))), limits)
  }

  /** A gas or a base fee is zero without an entry; None is a value that does not parse, on which the source panics. */
  function ReadAmount(col: Column, k: CallKey): Option<U64>
    requires !k.FieldAt?
  {
    if Bytes(k) !in col then Some(0)
    else if ParseU64(col[Bytes(k)]).None? then None
    else Some(ParseU64(col[Bytes(k)]).value.0)
  }

  /** What a scan over a call reads is the call, unless it is not there or over the limits. */
  lemma CallReadsBack(col: Column, slot: KeySlot, view: SlotView, id: CallId, limits: CallLimits)
    requires Holds(col, slot, view)
    ensures ReadCall(col, slot, id, limits)
         == if id in view.calls && Within(view.calls[id], limits) then Some(view.calls[id]) else None
  {
    hide ParseCall, CallBase, Within, ConcatValues, Stored;
    CallKeys(col, slot, view, id);
    if id in view.calls {
      FieldsStored(col, slot, view, id);
      ReadsFields(col, CallBase(slot, id), FieldsOf(view.calls[id]), 1, 10);
      CallRoundTrip(view.calls[id], limits);
    } else {
      ConcatNothing(col);
      NothingIsNoCall(limits);
    }
  }

  lemma FieldsStored(col: Column, slot: KeySlot, view: SlotView, id: CallId)
    requires Holds(col, slot, view) && id in view.calls
    ensures forall t: Byte :: 1 <= t < 10 ==>
              Get(col, CallBase(slot, id) + [t]) == Some(FieldsOf(view.calls[id])(t))
  {
    forall t: Byte | 1 <= t < 10
      ensures Get(col, CallBase(slot, id) + [t]) == Some(FieldsOf(view.calls[id])(t))
    {
      assert Get(col, Bytes(FieldAt(slot, id, t))) == Stored(view, FieldAt(slot, id, t));
    }
  }

  lemma AmountReadsBack(col: Column, view: SlotView, k: CallKey)
    requires !k.FieldAt? && Holds(col, k.slot, view)
    ensures ReadAmount(col, k) == Some(if k.GasAt? then view.gas else view.fee)
  {
    hide Bytes, Varint, ParseU64;
    assert Get(col, Bytes(k)) == Stored(view, k);
    var amount := if k.GasAt? then view.gas else view.fee;
    U64VarintRoundTrip(amount, []);
    assert Varint(amount) + [] == Varint(amount);
  }

  // ---------------------------------------------------------------- change sets

  datatype CallChange = SetCall(call: DeferredCall) | DeleteCall

  datatype SlotChanges = SlotChanges(calls: map<CallId, CallChange>, gas: Option<U64>, fee: Option<U64>)

  datatype RegistryChanges = RegistryChanges(slots: map<KeySlot, SlotChanges>, totalGas: Option<U128>)

  const NO_CHANGES := SlotChanges(map[], None, None)

  function ChangesOf(changes: RegistryChanges, slot: KeySlot): SlotChanges {
    if slot in changes.slots then changes.slots[slot] else NO_CHANGES
  }

  /** What a change set puts in a batch under a key: nothing, a deletion or a value. */
  function WrittenAt(changes: RegistryChanges, k: CallKey): Option<Option<Value>> {
    var sc := ChangesOf(changes, k.slot);
    match k
    case FieldAt(_, id, tag) => if id in sc.calls then Some(FieldChange(sc.calls[id], tag)) else None
    case GasAt(_) => AmountChange(sc.gas)
    case FeeAt(_) => AmountChange(sc.fee)
  }

  function FieldChange(change: CallChange, tag: Byte): Option<Value> {
    if change.SetCall? then Some(FieldBytes(change.call, tag)) else None
  }

  function AmountChange(amount: Option<U64>): Option<Option<Value>> {
    if amount.None? then None else Some(if amount.value == 0 then None else Some(Varint(amount.value)))
  }

  /** The total gas is stored in the encoding of a change, as one that sets it. */
  function TotalGasChange(totalGas: Option<U128>): Option<Option<Value>> {
    if totalGas.None? then None else Some(Some([SET] + Varint(totalGas.value)))
  }

  const SET: Byte := 0
  const KEEP: Byte := 1

  /** The batch holds exactly what the change set calls for. */
  ghost predicate BatchOf(batch: Changes, changes: RegistryChanges) {
    && (forall k: CallKey :: InBatch(batch, Bytes(k)) == WrittenAt(changes, k))
    && InBatch(batch, TotalGasKey()) == TotalGasChange(changes.totalGas)
    && (forall key :: key in batch ==> IsCallKey(key) || key == TotalGasKey())
  }

  lemma TotalGasApart()
    ensures !StartsWith(TotalGasKey(), RegistryPrefix())
    ensures !IsCallKey(TotalGasKey())
    ensures forall slot: KeySlot :: !StartsWith(TotalGasKey(), CallsBase(slot))
  {
    assert TotalGasKey()[..|RegistryPrefix()|][13] == 95 && RegistryPrefix()[13] == 115;
    if IsCallKey(TotalGasKey()) {
      var k: CallKey :| Bytes(k) == TotalGasKey();
      KeyParts(k);
    }
    forall slot: KeySlot
      ensures !StartsWith(TotalGasKey(), CallsBase(slot))
    {
      if StartsWith(TotalGasKey(), CallsBase(slot)) {
        Regroup(RegistryPrefix(), SlotKey(slot), [CALLS_TAG]);
        LongerPrefix(TotalGasKey(), RegistryPrefix(), SlotKey(slot) + [CALLS_TAG]);
      }
    }
  }

  function OverlayCalls(calls: map<CallId, DeferredCall>, changes: map<CallId, CallChange>)
    : (r: map<CallId, DeferredCall>)
    ensures forall id :: id in r <==> if id in changes then changes[id].SetCall? else id in calls
    ensures forall id :: id in r ==> r[id] == if id in changes then changes[id].call else calls[id]
  {
    map id | id in calls.Keys + changes.Keys && (id in changes ==> changes[id].SetCall?) ::
      if id in changes then changes[id].call else calls[id]
  }

  /** The view of a slot with the changes applied in memory. */
  function Overlay(view: SlotView, sc: SlotChanges): SlotView {
    SlotView(OverlayCalls(view.calls, sc.calls),
             if sc.gas.Some? then sc.gas.value else view.gas,
             if sc.fee.Some? then sc.fee.value else view.fee)
  }

  lemma OverlayKey(view: SlotView, changes: RegistryChanges, k: CallKey)
    ensures Stored(Overlay(view, ChangesOf(changes, k.slot)), k)
         == if WrittenAt(changes, k).Some? then WrittenAt(changes, k).value else Stored(view, k)
  {
    hide FieldBytes, Varint;
  }

  /**
   Writing the batch of a change set takes the database from the view of any slot to the view with
   the changes applied in memory: zero values end up as no entry, and tombstones as no call.
   */
  lemma WriteCommutes(col: Column, batch: Changes, changes: RegistryChanges, slot: KeySlot, view: SlotView)
    requires Holds(col, slot, view) && BatchOf(batch, changes)
    ensures Holds(Apply(col, batch), slot, Overlay(view, ChangesOf(changes, slot)))
  {
    hide Stored, WrittenAt, Overlay, Bytes, CallsBase, TotalGasKey;
    var after := Apply(col, batch);
    forall k: CallKey | k.slot == slot
      ensures Get(after, Bytes(k)) == Stored(Overlay(view, ChangesOf(changes, slot)), k)
    {
      OverlayKey(view, changes, k);
      assert InBatch(batch, Bytes(k)) == WrittenAt(changes, k);
      assert Get(after, Bytes(k)) == if Bytes(k) in batch then batch[Bytes(k)] else Get(col, Bytes(k));
    }
    TotalGasApart();
    forall key | key in after && StartsWith(key, CallsBase(slot))
      ensures IsCallKey(key)
    {
      assert Get(after, key) == if key in batch then batch[key] else Get(col, key);
    }
  }

  // ---------------------------------------------------------------- reading after writing

  /** Some calls, gas and base fee are what the database holds for the slot. */
  ghost predicate Held(col: Column, slot: KeySlot) {
    exists view :: Holds(col, slot, view)
  }

  predicate AllWithin(sc: SlotChanges, limits: CallLimits) {
    forall id :: id in sc.calls && sc.calls[id].SetCall? ==> Within(sc.calls[id].call, limits)
  }

  /** Reading a call after the write: what was set, if it can be read, or what was read before. */
  lemma ReadCallAfterWrite(col: Column, batch: Changes, changes: RegistryChanges, slot: KeySlot, id: CallId,
                           limits: CallLimits)
    requires Held(col, slot) && BatchOf(batch, changes)
    ensures var sc := ChangesOf(changes, slot);
            ReadCall(Apply(col, batch), slot, id, limits)
            == if id !in sc.calls then ReadCall(col, slot, id, limits)
               else if sc.calls[id].SetCall? && Within(sc.calls[id].call, limits) then Some(sc.calls[id].call)
               else None
  {
    hide Holds, BatchOf, ReadCall, Within;
    var view :| Holds(col, slot, view);
    WriteCommutes(col, batch, changes, slot, view);
    CallReadsBack(col, slot, view, id, limits);
    CallReadsBack(Apply(col, batch), slot, Overlay(view, ChangesOf(changes, slot)), id, limits);
  }

  lemma ReadAmountAfterWrite(col: Column, batch: Changes, changes: RegistryChanges, k: CallKey)
    requires !k.FieldAt? && Held(col, k.slot) && BatchOf(batch, changes)
    ensures var sc := ChangesOf(changes, k.slot);
            var amount := if k.GasAt? then sc.gas else sc.fee;
            ReadAmount(Apply(col, batch), k) == if amount.Some? then amount else ReadAmount(col, k)
  {
    hide Holds, BatchOf, ReadAmount, OverlayCalls;
    var view :| Holds(col, k.slot, view);
    WriteCommutes(col, batch, changes, k.slot, view);
    AmountReadsBack(col, view, k);
    AmountReadsBack(Apply(col, batch), Overlay(view, ChangesOf(changes, k.slot)), k);
  }

  /** `view` is what reading the slot call by call, and its gas and base fee, gives. */
  ghost predicate SlotRead(col: Column, slot: KeySlot, limits: CallLimits, view: SlotView) {
    && (forall id: CallId :: CallIn(view, id) == ReadCall(col, slot, id, limits))
    && ReadAmount(col, GasAt(slot)) == Some(view.gas)
    && ReadAmount(col, FeeAt(slot)) == Some(view.fee)
  }

  function CallIn(view: SlotView, id: CallId): Option<DeferredCall> {
    if id in view.calls then Some(view.calls[id]) else None
  }

  lemma SameCalls(a: SlotView, b: SlotView)
    requires forall id :: CallIn(a, id) == CallIn(b, id)
    ensures a.calls == b.calls
  {
    assert forall id :: id in a.calls <==> CallIn(a, id).Some?;
    assert forall id :: id in b.calls <==> CallIn(b, id).Some?;
    assert forall id :: id in a.calls ==> CallIn(a, id).value == a.calls[id];
    assert forall id :: id in b.calls ==> CallIn(b, id).value == b.calls[id];
  }

  /**
   Reading a slot before a change set is written, and applying the set in memory, gives what reading
   the slot afterwards gives, exactly when every call that the set books is within the limits.
   */
  lemma StorageCommutes(col: Column, batch: Changes, changes: RegistryChanges, slot: KeySlot, limits: CallLimits,
                        before: SlotView, after: SlotView)
    requires Held(col, slot) && BatchOf(batch, changes)
    requires SlotRead(col, slot, limits, before) && SlotRead(Apply(col, batch), slot, limits, after)
    ensures after == Overlay(before, ChangesOf(changes, slot)) <==> AllWithin(ChangesOf(changes, slot), limits)
  {
    hide Held, BatchOf, ReadCall, ReadAmount, Within;
    var sc := ChangesOf(changes, slot);
    var applied := Overlay(before, sc);
    ReadAmountAfterWrite(col, batch, changes, GasAt(slot));
    ReadAmountAfterWrite(col, batch, changes, FeeAt(slot));
    forall id: CallId
      ensures CallIn(after, id) == CallIn(applied, id) <==>
              (id in sc.calls && sc.calls[id].SetCall? ==> Within(sc.calls[id].call, limits))
    {
      ReadCallAfterWrite(col, batch, changes, slot, id, limits);
      assert CallIn(before, id) == ReadCall(col, slot, id, limits);
      assert CallIn(after, id) == ReadCall(Apply(col, batch), slot, id, limits);
    }
    if AllWithin(sc, limits) {
      SameCalls(after, applied);
    }
  }

  // ---------------------------------------------------------------- the total gas

  /** The stored total, zero without an entry; None is a value on which the source panics. */
  function ReadTotalGas(col: Column): Option<U128> {
    if TotalGasKey() !in col then Some(0)
    else
      match ParseTotalGas(col[TotalGasKey()])
      case None => None
      case Some(None) => Some(0)
      case Some(Some(total)) => Some(total)
  }

  /** A change of the total: one that sets it, or one that keeps it. */
  function ParseTotalGas(value: Value): Option<Option<U128>> {
    if value == [] || value[0] > KEEP then None
    else if value[0] == KEEP then Some(None)
    else
      match ParseU128(value[1..])
      case None => None
      case Some((total, _)) => Some(Some(total))
  }

  lemma TotalGasRoundTrip(total: U128)
    ensures ParseTotalGas([SET] + Varint(total)) == Some(Some(total))
  {
    U128VarintRoundTrip(total, []);
    assert ([SET] + Varint(total))[1..] == Varint(total) + [];
  }

  /** The total gas read after the write is the one that was set, or the one read before. */
  lemma ReadTotalGasAfterWrite(col: Column, batch: Changes, changes: RegistryChanges)
    requires BatchOf(batch, changes)
    ensures ReadTotalGas(Apply(col, batch)) == if changes.totalGas.Some? then changes.totalGas else ReadTotalGas(col)
  {
    hide TotalGasKey, ParseTotalGas, Varint;
    var after := Apply(col, batch);
    assert Get(after, TotalGasKey())
        == if TotalGasKey() in batch then batch[TotalGasKey()] else Get(col, TotalGasKey());
    if changes.totalGas.Some? {
      TotalGasRoundTrip(changes.totalGas.value);
    }
  }
}
