/**
The validator that entries of the registry of deferred calls have to pass after a bootstrap: what it
accepts, what it refuses and where it panics.
 */
module DeferredValidation {
  import opened ByteStrings
  import opened Columns
  import opened Wire
  import opened KeyLayout
  import opened Codecs
  import opened DeferredCalls

  /** What follows the value of a field, if it can be parsed. */
  function FieldLeft(tag: Byte, value: Value, limits: CallLimits): Option<seq<Byte>> {
    match tag
    case 1 => Left(ParseAddress(value))
    case 2 => Left(ParseSlot(value, limits.threadCount))
    case 3 => Left(ParseAddress(value))
    case 4 => Left(ParseName(value, limits.maxFunctionName))
    case 5 => Left(ParseVec(value, limits.maxParameters))
    case 6 => Left(ParseU64(value))
    case 7 => Left(ParseU64(value))
    case 8 => Left(ParseU64(value))
    case 9 => Left(ParseBool(value))
    case _ => None
  }

  /** Whether a field value can be parsed; what follows it is ignored. */
  predicate FieldValid(tag: Byte, value: Value, limits: CallLimits) {
    FieldLeft(tag, value, limits).Some?
  }

  /** The value is an encoding of the field within the limits, followed by `rest`. */
  ghost predicate IsField(tag: Byte, value: Value, limits: CallLimits, rest: seq<Byte>) {
    match tag
    case 1 => IsAddress(value, rest)
    case 2 => IsSlot(value, limits.threadCount, rest)
    case 3 => IsAddress(value, rest)
    case 4 => IsName(value, limits.maxFunctionName, rest)
    case 5 => IsVec(value, limits.maxParameters, rest)
    case 6 => IsU64(value, rest)
    case 7 => IsU64(value, rest)
    case 8 => IsU64(value, rest)
    case 9 => IsBool(value, rest)
    case _ => false
  }

  lemma FieldLeaves(tag: Byte, value: Value, limits: CallLimits, rest: seq<Byte>)
    ensures FieldLeft(tag, value, limits) == Some(rest) <==> IsField(tag, value, limits, rest)
  {
    hide ParseAddress, ParseSlot, ParseVec, ParseName, ParseU64, ParseBool, Left;
    hide IsAddress, IsSlot, IsVec, IsName, IsU64, IsBool;
    match tag
    case 1 => AddressLeaves(value, rest);
    case 2 => SlotLeaves(value, limits.threadCount, rest);
    case 3 => AddressLeaves(value, rest);
    case 4 => NameLeaves(value, limits.maxFunctionName, rest);
    case 5 => VecLeaves(value, limits.maxParameters, rest);
    case 6 => U64Leaves(value, rest);
    case 7 => U64Leaves(value, rest);
    case 8 => U64Leaves(value, rest);
    case 9 => BoolLeaves(value, rest);
    case _ =>
  }

  /** The validator answers, or panics: it slices the slot off a key before it checks that there is one. */
  datatype Verdict = Accepted | Refused | Panicked

  function Answer(valid: bool): Verdict {
    if valid then Accepted else Refused
  }

  /** Whether an entry received during bootstrap is one of the registry. */
  function ValidateEntry(key: Key, value: Value, limits: CallLimits): Verdict {
    if !StartsWith(key, RegistryPrefix()) then Answer(key == TotalGasKey() && ParseTotalGas(value).Some?)
    else if |key| < 24 then Panicked
    else ValidateAt(SlotOfKey(key[15..24]), key, value, limits)
  }

  function ValidateAt(slot: KeySlot, key: Key, value: Value, limits: CallLimits): Verdict {
    if StartsWith(key, Bytes(GasAt(slot))) || StartsWith(key, Bytes(FeeAt(slot))) then Answer(ParseU64(value).Some?)
    else if !StartsWith(key, CallsBase(slot)) then Refused
    else
      match ParseVec(key[|CallsBase(slot)|..], MAX_CALL_ID_LEN)
      case None => Refused
      case Some((_, rest)) => Answer(|rest| == 1 && FieldValid(rest[0], value, limits))
  }

  /** It panics on exactly the keys under its prefix that are too short to hold a slot. */
  lemma PanicsOnShortKeys(key: Key, value: Value, limits: CallLimits)
    ensures ValidateEntry(key, value, limits) == Panicked <==> StartsWith(key, RegistryPrefix()) && |key| < 24
  {
    hide FieldValid, ParseVec, ParseU64, ParseTotalGas;
  }

  /** The slot that a key is found to be about is the one it starts with. */
  lemma SlotOfStart(key: Key)
    requires StartsWith(key, RegistryPrefix()) && |key| >= 24
    ensures SlotBase(SlotOfKey(key[15..24])) == key[..24]
  {
    SlotKeyOf(key[15..24]);
    assert key[..24] == key[..15] + key[15..24];
  }

  lemma SlotOfBase(slot: KeySlot, rest: Key)
    ensures var key := SlotBase(slot) + rest; StartsWith(key, RegistryPrefix()) && SlotOfKey(key[15..24]) == slot
  {
    var key := SlotBase(slot) + rest;
    assert key[15..24] == SlotKey(slot) && key[..15] == RegistryPrefix();
    SlotKeyOf(SlotKey(slot));
    SlotKeyOrder(slot, SlotOfKey(SlotKey(slot)));
  }

  // ---------------------------------------------------------------- what the validator accepts

  /** The bytes of a change of the total gas: one that keeps it, or one that sets it to a varint. */
  ghost predicate IsTotalGas(value: Value) {
    |value| > 0 && (value[0] == KEEP || (value[0] == SET && IsU128(value[1..])))
  }

  ghost predicate IsU128(input: seq<Byte>) {
    exists m: nat, rest :: m < Pow128(U128_VARINT_LEN) && input == Varint(m) + rest
  }

  lemma TotalGasAccepted(value: Value)
    ensures ParseTotalGas(value).Some? <==> IsTotalGas(value)
  {
    hide Pow128, Varint, ParseVarint;
    if value != [] {
      var input := value[1..];
      if ParseU128(input).Some? {
        VarintExactly(input, 0, U128_VARINT_LEN);
        var (m, rest) := ParseVarint(input, 0, U128_VARINT_LEN).value;
        assert m < Pow128(U128_VARINT_LEN) && input == Varint(m) + rest;
      }
      if m: nat, rest :| m < Pow128(U128_VARINT_LEN) && input == Varint(m) + rest {
        VarintRoundTrip(m, 0, U128_VARINT_LEN, U128_VARINT_LEN, rest);
      }
    }
  }

  /** The key starts with that of the gas or of the base fee of a slot, and the value with a number. */
  ghost predicate IsAmountEntry(key: Key, value: Value, slot: KeySlot) {
    && (StartsWith(key, Bytes(GasAt(slot))) || StartsWith(key, Bytes(FeeAt(slot))))
    && exists rest :: IsU64(value, rest)
  }

  /** The key is made of the slot, a length-prefixed id and a tag, and the value starts with that field. */
  ghost predicate IsFieldEntry(key: Key, value: Value, slot: KeySlot, id: CallId, tag: FieldTag, limits: CallLimits) {
    && StartsWith(key, CallsBase(slot)) && VecAt(key[|CallsBase(slot)|..], id, [tag])
    && exists rest :: IsField(tag, value, limits, rest)
  }

  ghost predicate IsSlotEntry(key: Key, value: Value, slot: KeySlot, limits: CallLimits) {
    || IsAmountEntry(key, value, slot)
    || exists id: CallId, tag: FieldTag :: IsFieldEntry(key, value, slot, id, tag, limits)
  }

  ghost predicate IsEntry(key: Key, value: Value, limits: CallLimits) {
    || (key == TotalGasKey() && IsTotalGas(value))
    || exists slot: KeySlot :: IsSlotEntry(key, value, slot, limits)
  }

  lemma AmountAccepted(value: Value)
    ensures ParseU64(value).Some? <==> exists rest :: IsU64(value, rest)
  {
    hide ParseU64, IsU64;
    if ParseU64(value).Some? {
      U64Leaves(value, ParseU64(value).value.1);
    }
    if rest :| IsU64(value, rest) {
      U64Leaves(value, rest);
    }
  }

  lemma FieldValueAccepted(tag: Byte, value: Value, limits: CallLimits)
    ensures FieldValid(tag, value, limits) <==> exists rest :: IsField(tag, value, limits, rest)
  {
    hide FieldLeft, IsField;
    if FieldValid(tag, value, limits) {
      FieldLeaves(tag, value, limits, FieldLeft(tag, value, limits).value);
    }
    if rest :| IsField(tag, value, limits, rest) {
      FieldLeaves(tag, value, limits, rest);
    }
  }

  lemma TagInRange(tag: Byte, value: Value, limits: CallLimits)
    requires FieldValid(tag, value, limits)
    ensures 1 <= tag <= 9
  {
    hide ParseAddress, ParseSlot, ParseVec, ParseName, ParseU64, ParseBool;
  }

  /** All keys under the prefix of a slot are told apart by the byte after the slot. */
  lemma OneSlot(key: Key, slot: KeySlot, tag: Byte)
    requires StartsWith(key, SlotBase(slot) + [tag])
    ensures StartsWith(key, RegistryPrefix()) && |key| > 24
    ensures SlotOfKey(key[15..24]) == slot && key[24] == tag
  {
    var base := SlotBase(slot) + [tag];
    assert key[..25] == base;
    assert key == SlotBase(slot) + ([tag] + key[25..]);
    SlotOfBase(slot, [tag] + key[25..]);
    assert key[24] == base[24];
  }

  lemma AtOneSlot(key: Key, value: Value, slot: KeySlot, limits: CallLimits)
    requires IsSlotEntry(key, value, slot, limits)
    ensures StartsWith(key, RegistryPrefix()) && |key| > 24 && SlotOfKey(key[15..24]) == slot
  {
    hide StartsWith, SlotBase, IsField, IsU64, VecAt;
    if StartsWith(key, Bytes(GasAt(slot))) {
      OneSlot(key, slot, SLOT_TOTAL_GAS);
    } else if StartsWith(key, Bytes(FeeAt(slot))) {
      OneSlot(key, slot, SLOT_BASE_FEE);
    } else {
      OneSlot(key, slot, CALLS_TAG);
    }
  }

  /** At its own slot, an entry is accepted exactly when it is an amount or a field of the slot. */
  lemma AcceptedAt(slot: KeySlot, key: Key, value: Value, limits: CallLimits)
    ensures ValidateAt(slot, key, value, limits) == Accepted <==> IsSlotEntry(key, value, slot, limits)
  {
    hide ParseU64, ParseVec, IsU64, FieldValid, IsField, VecAt, SlotBase, StartsWith;
    AmountAccepted(value);
    var base := CallsBase(slot);
    if StartsWith(key, base) {
      StartIsShorter(key, base);
      OneSlot(key, slot, CALLS_TAG);
      NotAnAmount(key, slot);
      CallKeyAccepted(slot, key, value, limits);
    }
  }

  lemma StartIsShorter(key: Key, base: Key)
    requires StartsWith(key, base)
    ensures |base| <= |key|
  {
  }

  lemma NotAnAmount(key: Key, slot: KeySlot)
    requires StartsWith(key, CallsBase(slot))
    ensures !StartsWith(key, Bytes(GasAt(slot))) && !StartsWith(key, Bytes(FeeAt(slot)))
  {
    hide SlotBase, StartsWith;
    OneSlot(key, slot, CALLS_TAG);
    if StartsWith(key, Bytes(GasAt(slot))) {
      OneSlot(key, slot, SLOT_TOTAL_GAS);
    }
    if StartsWith(key, Bytes(FeeAt(slot))) {
      OneSlot(key, slot, SLOT_BASE_FEE);
    }
  }

  lemma CallKeyAccepted(slot: KeySlot, key: Key, value: Value, limits: CallLimits)
    requires StartsWith(key, CallsBase(slot)) && |CallsBase(slot)| <= |key|
    ensures var parsed := ParseVec(key[|CallsBase(slot)|..], MAX_CALL_ID_LEN);
            (parsed.Some? && |parsed.value.1| == 1 && FieldValid(parsed.value.1[0], value, limits)) <==>
            exists id: CallId, tag: FieldTag :: IsFieldEntry(key, value, slot, id, tag, limits)
  {
    hide ParseVec, FieldValid, IsField, VecAt, SlotBase, StartsWith;
    var rest := key[|CallsBase(slot)|..];
    var parsed := ParseVec(rest, MAX_CALL_ID_LEN);
    if parsed.Some? && |parsed.value.1| == 1 && FieldValid(parsed.value.1[0], value, limits) {
      var id, tag := parsed.value.0, parsed.value.1[0];
      assert parsed.value.1 == [tag];
      VecExactly(rest, MAX_CALL_ID_LEN, id, [tag]);
      TagInRange(tag, value, limits);
      FieldValueAccepted(tag, value, limits);
      assert IsFieldEntry(key, value, slot, id, tag, limits);
    }
    if id: CallId, tag: FieldTag :| IsFieldEntry(key, value, slot, id, tag, limits) {
      VecExactly(rest, MAX_CALL_ID_LEN, id, [tag]);
      FieldValueAccepted(tag, value, limits);
    }
  }

  /**
   The validator accepts exactly the entries of the registry: the total gas, gas and base fees of
   slots, and fields of calls, each with a value that starts with an encoding within the limits.
   */
  lemma AcceptsExactly(key: Key, value: Value, limits: CallLimits)
    ensures ValidateEntry(key, value, limits) == Accepted <==> IsEntry(key, value, limits)
  {
    hide ValidateAt, IsSlotEntry, ParseTotalGas, IsTotalGas, TotalGasKey, StartsWith, SlotOfKey;
    TotalGasAccepted(value);
    TotalGasApart();
    if StartsWith(key, RegistryPrefix()) && |key| >= 24 {
      AcceptedAt(SlotOfKey(key[15..24]), key, value, limits);
    }
    if slot: KeySlot :| IsSlotEntry(key, value, slot, limits) {
      AtOneSlot(key, value, slot, limits);
    }
  }

  /** The part of the limits that bears on one field. */
  predicate FieldWithin(call: DeferredCall, tag: FieldTag, limits: CallLimits) {
    && (tag == 2 ==> call.targetSlot.thread < limits.threadCount)
    && (tag == 4 ==> |call.targetFunction| <= limits.maxFunctionName)
    && (tag == 5 ==> |call.parameters| <= limits.maxParameters)
  }

  lemma FieldAccepted(call: DeferredCall, tag: FieldTag, limits: CallLimits)
    ensures FieldValid(tag, FieldBytes(call, tag), limits) <==> FieldWithin(call, tag, limits)
  {
    hide ParseAddress, ParseSlot, ParseVec, ParseName, ParseU64, ParseBool, SlotBytes, VecBytes, Varint, BoolBytes;
    assert FieldBytes(call, tag) + [] == FieldBytes(call, tag);
    match tag
    case 1 => AddressRoundTrip(call.sender, []);
    case 2 => SlotParses(call.targetSlot, limits.threadCount, []);
    case 3 => AddressRoundTrip(call.targetAddress, []);
    case 4 => NameParses(call.targetFunction, limits.maxFunctionName, []);
    case 5 => VecParses(call.parameters, limits.maxParameters, []);
    case 6 => U64VarintRoundTrip(call.coins, []);
    case 7 => U64VarintRoundTrip(call.maxGas, []);
    case 8 => U64VarintRoundTrip(call.fee, []);
    case 9 => BoolRoundTrip(call.cancelled, []);
  }

  lemma TagOf(k: CallKey, tag: Byte)
    ensures StartsWith(Bytes(k), SlotBase(k.slot) + [tag]) <==> Tail(k)[0] == tag
  {
    KeyParts(k);
    var bytes := Bytes(k);
    assert bytes[..25] == bytes[..24] + [bytes[24]];
    assert bytes[24] == bytes[24..][0];
    assert (SlotBase(k.slot) + [tag])[24] == tag;
  }

  lemma SlotOf(k: CallKey)
    ensures |Bytes(k)| >= 24 && StartsWith(Bytes(k), RegistryPrefix()) && SlotOfKey(Bytes(k)[15..24]) == k.slot
  {
    KeyParts(k);
    BytesSplit(k);
    SlotOfBase(k.slot, Tail(k));
  }

  /** A call's key and value are accepted exactly when the field can be parsed. */
  lemma FieldKeyValid(slot: KeySlot, id: CallId, tag: FieldTag, value: Value, limits: CallLimits)
    ensures ValidateEntry(Bytes(FieldAt(slot, id, tag)), value, limits) == Answer(FieldValid(tag, value, limits))
  {
    hide FieldValid, VecBytes, ParseVec, SlotBase;
    var k := FieldAt(slot, id, tag);
    SlotOf(k);
    KeyParts(k);
    TagOf(k, CALLS_TAG);
    TagOf(k, SLOT_TOTAL_GAS);
    TagOf(k, SLOT_BASE_FEE);
    assert Bytes(k)[25..] == Bytes(k)[24..][1..] == VecBytes(id) + [tag];
    VecRoundTrip(id, MAX_CALL_ID_LEN, [tag]);
  }

  lemma AmountKeyValid(k: CallKey, value: Value, limits: CallLimits)
    requires !k.FieldAt?
    ensures ValidateEntry(Bytes(k), value, limits) == Answer(ParseU64(value).Some?)
  {
    hide ParseU64, SlotBase;
    SlotOf(k);
    TagOf(k, SLOT_TOTAL_GAS);
    TagOf(k, SLOT_BASE_FEE);
  }

  lemma AmountWritten(changes: RegistryChanges, k: CallKey)
    requires !k.FieldAt? && WrittenAt(changes, k).Some? && WrittenAt(changes, k).value.Some?
    ensures ParseU64(WrittenAt(changes, k).value.value).Some?
  {
    hide Varint, ParseU64;
    var sc := ChangesOf(changes, k.slot);
    var amount := if k.GasAt? then sc.gas.value else sc.fee.value;
    U64VarintRoundTrip(amount, []);
    assert Varint(amount) + [] == Varint(amount);
  }

  /** An entry that a change set writes passes the validator, unless it is a field over the limits. */
  lemma WrittenIsValid(batch: Changes, changes: RegistryChanges, k: CallKey, limits: CallLimits)
    requires BatchOf(batch, changes)
    requires Bytes(k) in batch && batch[Bytes(k)].Some?
    ensures k.FieldAt? ==> var calls := ChangesOf(changes, k.slot).calls; k.id in calls && calls[k.id].SetCall?
    ensures ValidateEntry(Bytes(k), batch[Bytes(k)].value, limits)
         == Answer(k.FieldAt? ==> FieldWithin(ChangesOf(changes, k.slot).calls[k.id].call, k.tag, limits))
  {
    hide ValidateEntry, FieldValid, Bytes, FieldBytes, FieldWithin;
    assert InBatch(batch, Bytes(k)) == WrittenAt(changes, k);
    if k.FieldAt? {
      FieldAccepted(ChangesOf(changes, k.slot).calls[k.id].call, k.tag, limits);
      FieldKeyValid(k.slot, k.id, k.tag, batch[Bytes(k)].value, limits);
    } else {
      AmountWritten(changes, k);
      AmountKeyValid(k, batch[Bytes(k)].value, limits);
    }
  }

  lemma TotalGasIsValid(batch: Changes, changes: RegistryChanges, limits: CallLimits)
    requires BatchOf(batch, changes) && TotalGasKey() in batch
    ensures batch[TotalGasKey()].Some? && ValidateEntry(TotalGasKey(), batch[TotalGasKey()].value, limits) == Accepted
  {
    hide Varint, ParseTotalGas, TotalGasKey;
    TotalGasApart();
    TotalGasRoundTrip(changes.totalGas.value);
  }

  /** With all calls within the limits, every entry of the batch passes the validator. */
  lemma BatchIsValid(batch: Changes, changes: RegistryChanges, key: Key, limits: CallLimits)
    requires BatchOf(batch, changes)
    requires forall slot :: AllWithin(ChangesOf(changes, slot), limits)
    requires key in batch && batch[key].Some?
    ensures ValidateEntry(key, batch[key].value, limits) == Accepted
  {
    hide ValidateEntry, Bytes, TotalGasKey;
    if key == TotalGasKey() {
      TotalGasIsValid(batch, changes, limits);
    } else {
      assert IsCallKey(key);
      var k: CallKey :| Bytes(k) == key;
      WrittenIsValid(batch, changes, k, limits);
      if k.FieldAt? {
        assert AllWithin(ChangesOf(changes, k.slot), limits);
      }
    }
  }

  /** A key with an unknown byte after its slot is refused. */
  lemma UnknownTagRefused(slot: KeySlot, tag: Byte, rest: Key, value: Value, limits: CallLimits)
    requires tag > SLOT_BASE_FEE
    ensures ValidateEntry(SlotBase(slot) + ([tag] + rest), value, limits) == Refused
  {
    hide SlotBase, StartsWith, ParseVec, ParseU64, FieldValid;
    var key := SlotBase(slot) + ([tag] + rest);
    SlotOfBase(slot, [tag] + rest);
    assert |key| > 24 && key[24] == tag;
    forall t: Byte | t != tag
      ensures !StartsWith(key, SlotBase(slot) + [t])
    {
      if StartsWith(key, SlotBase(slot) + [t]) {
        OneSlot(key, slot, t);
      }
    }
  }
}
