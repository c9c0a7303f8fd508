/**
The registry of deferred calls: change sets that are built up in memory, written into a batch field
by field, and read back by prefix scans; and the in-memory view of a slot they are applied to.
 */
module DeferredRegistry {
  import opened ByteStrings
  import opened Columns
  import opened Wire
  import opened KeyLayout
  import opened FieldStore
  import MassaDb
  import opened DeferredCalls

  // ---------------------------------------------------------------- building a change set

  /** What a change set is built from: one call of a setter. */
  datatype Setter =
    | BookCall(id: CallId, call: DeferredCall)
    | DropCall(slot: KeySlot, id: CallId)
    | BookGas(slot: KeySlot, gas: U64)
    | BookFee(slot: KeySlot, fee: U64)
    | BookTotalGas(total: U128)

  function WithSlot(changes: RegistryChanges, slot: KeySlot, sc: SlotChanges): RegistryChanges {
    changes.(slots := changes.slots[slot := sc])
  }

  function WithCall(changes: RegistryChanges, slot: KeySlot, id: CallId, change: CallChange): RegistryChanges {
    var sc := ChangesOf(changes, slot);
    WithSlot(changes, slot, sc.(calls := sc.calls[id := change]))
  }

  /** The change set with one more setter called. */
  function Recorded(changes: RegistryChanges, setter: Setter): RegistryChanges {
    match setter
    case BookCall(id, call) => WithCall(changes, call.targetSlot, id, CallChange.SetCall(call))
    case DropCall(slot, id) => WithCall(changes, slot, id, CallChange.DeleteCall)
    case BookGas(slot, gas) => WithSlot(changes, slot, ChangesOf(changes, slot).(gas := Some(gas)))
    case BookFee(slot, fee) => WithSlot(changes, slot, ChangesOf(changes, slot).(fee := Some(fee)))
    case BookTotalGas(total) => changes.(totalGas := Some(total))
  }

  /** The change set that a sequence of setter calls builds. */
  function Built(setters: seq<Setter>): RegistryChanges {
    if setters == [] then RegistryChanges(map[], None)
    else Recorded(Built(setters[..|setters| - 1]), setters[|setters| - 1])
  }

  /** A setter carried out at once on what is booked for a slot. */
  function Performed(view: SlotView, slot: KeySlot, setter: Setter): SlotView {
    match setter
    case BookCall(id, call) => if call.targetSlot == slot then view.(calls := view.calls[id := call]) else view
    case DropCall(s, id) => if s == slot then view.(calls := view.calls - {id}) else view
    case BookGas(s, gas) => if s == slot then view.(gas := gas) else view
    case BookFee(s, fee) => if s == slot then view.(fee := fee) else view
    case BookTotalGas(_) => view
  }

  function PerformedAll(view: SlotView, slot: KeySlot, setters: seq<Setter>): SlotView {
    if setters == [] then view
    else Performed(PerformedAll(view, slot, setters[..|setters| - 1]), slot, setters[|setters| - 1])
  }

  /** The last total set, or the one before all the setters. */
  function TotalAfter(total: U128, setters: seq<Setter>): U128 {
    if setters == [] then total
    else
      var last := setters[|setters| - 1];
      if last.BookTotalGas? then last.total else TotalAfter(total, setters[..|setters| - 1])
  }

  lemma RecordedPerforms(view: SlotView, changes: RegistryChanges, slot: KeySlot, setter: Setter)
    ensures Overlay(view, ChangesOf(Recorded(changes, setter), slot))
         == Performed(Overlay(view, ChangesOf(changes, slot)), slot, setter)
  {
    hide OverlayCalls;
    var sc := ChangesOf(changes, slot);
    match setter
    case BookCall(id, call) => OverlayOneMore(view.calls, sc.calls, id, CallChange.SetCall(call));
    case DropCall(_, id) => OverlayOneMore(view.calls, sc.calls, id, CallChange.DeleteCall);
    case _ =>
  }

  /**
   Applying a change set to a slot does what carrying out its setter calls one by one does: a
   tombstone drops a call booked earlier or in the database, and a later booking brings it back.
   */
  lemma {:induction false} BuiltPerforms(view: SlotView, slot: KeySlot, setters: seq<Setter>)
    ensures Overlay(view, ChangesOf(Built(setters), slot)) == PerformedAll(view, slot, setters)
  {
    hide Overlay, Recorded;
    if setters == [] {
      OverlayNoChanges(view);
    } else {
      var before := setters[..|setters| - 1];
      BuiltPerforms(view, slot, before);
      RecordedPerforms(view, Built(before), slot, setters[|setters| - 1]);
    }
  }

  lemma OverlayNoChanges(view: SlotView)
    ensures Overlay(view, NO_CHANGES) == view
  {
    OverlayNothing(view.calls);
  }

  lemma {:induction false} BuiltTotal(total: U128, setters: seq<Setter>)
    ensures var changed := Built(setters).totalGas;
            TotalAfter(total, setters) == if changed.Some? then changed.value else total
  {
    if setters != [] {
      BuiltTotal(total, setters[..|setters| - 1]);
    }
  }

  class DeferredCallRegistryChanges {
    var slots: map<KeySlot, SlotChanges>
    var totalGas: Option<U128>

    /** The setter calls so far. */
    ghost var setters: seq<Setter>

    ghost predicate Valid()
      reads this
    {
      Changes() == Built(setters)
    }

    function Changes(): RegistryChanges
      reads this
    {
      RegistryChanges(slots, totalGas)
    }

    /** The raw entry of a call: booked, a tombstone, or none. */
    function GetCallChange(slot: KeySlot, id: CallId): Option<CallChange>
      reads this
    {
      if slot in slots && id in slots[slot].calls then Some(slots[slot].calls[id]) else None
    }

    function GetEffectiveSlotGas(slot: KeySlot): Option<U64>
      reads this
    {
      if slot in slots then slots[slot].gas else None
    }

    function GetSlotBaseFee(slot: KeySlot): Option<U64>
      reads this
    {
      if slot in slots then slots[slot].fee else None
    }

    function GetEffectiveTotalGas(): Option<U128>
      reads this
    {
      totalGas
    }

    constructor ()
      ensures Valid() && setters == []
    {
      slots, totalGas, setters := map[], None, [];
    }

    /** Books a call at its target slot, over whatever was recorded for its id there. */
    method SetCall(id: CallId, call: DeferredCall)
      requires Valid()
      modifies this
      ensures Valid() && setters == old(setters) + [BookCall(id, call)]
      ensures forall slot, x :: GetCallChange(slot, x) ==
                if slot == call.targetSlot && x == id then Some(CallChange.SetCall(call))
                else old(GetCallChange(slot, x))
      ensures forall slot :: GetEffectiveSlotGas(slot) == old(GetEffectiveSlotGas(slot))
      ensures forall slot :: GetSlotBaseFee(slot) == old(GetSlotBaseFee(slot))
      ensures GetEffectiveTotalGas() == old(GetEffectiveTotalGas())
    {
      hide Built;
      var sc := if call.targetSlot in slots then slots[call.targetSlot] else NO_CHANGES;
      slots := slots[call.targetSlot := sc.(calls := sc.calls[id := CallChange.SetCall(call)])];
      BuiltMore(setters, BookCall(id, call));
      setters := setters + [BookCall(id, call)];
    }

    /** Leaves a tombstone, whether or not the call was booked in this change set. */
    method DeleteCall(slot: KeySlot, id: CallId)
      requires Valid()
      modifies this
      ensures Valid() && setters == old(setters) + [DropCall(slot, id)]
      ensures forall s, x :: GetCallChange(s, x) ==
                if s == slot && x == id then Some(CallChange.DeleteCall) else old(GetCallChange(s, x))
      ensures forall s :: GetEffectiveSlotGas(s) == old(GetEffectiveSlotGas(s))
      ensures forall s :: GetSlotBaseFee(s) == old(GetSlotBaseFee(s))
      ensures GetEffectiveTotalGas() == old(GetEffectiveTotalGas())
    {
      hide Built;
      var sc := if slot in slots then slots[slot] else NO_CHANGES;
      slots := slots[slot := sc.(calls := sc.calls[id := CallChange.DeleteCall])];
      BuiltMore(setters, DropCall(slot, id));
      setters := setters + [DropCall(slot, id)];
    }

    method SetEffectiveSlotGas(slot: KeySlot, gas: U64)
      requires Valid()
      modifies this
      ensures Valid() && setters == old(setters) + [BookGas(slot, gas)]
      ensures forall s :: GetEffectiveSlotGas(s) == if s == slot then Some(gas) else old(GetEffectiveSlotGas(s))
      ensures forall s, x :: GetCallChange(s, x) == old(GetCallChange(s, x))
      ensures forall s :: GetSlotBaseFee(s) == old(GetSlotBaseFee(s))
      ensures GetEffectiveTotalGas() == old(GetEffectiveTotalGas())
    {
      hide Built;
      var sc := if slot in slots then slots[slot] else NO_CHANGES;
      slots := slots[slot := sc.(gas := Some(gas))];
      BuiltMore(setters, BookGas(slot, gas));
      setters := setters + [BookGas(slot, gas)];
    }

    method SetSlotBaseFee(slot: KeySlot, fee: U64)
      requires Valid()
      modifies this
      ensures Valid() && setters == old(setters) + [BookFee(slot, fee)]
      ensures forall s :: GetSlotBaseFee(s) == if s == slot then Some(fee) else old(GetSlotBaseFee(s))
      ensures forall s, x :: GetCallChange(s, x) == old(GetCallChange(s, x))
      ensures forall s :: GetEffectiveSlotGas(s) == old(GetEffectiveSlotGas(s))
      ensures GetEffectiveTotalGas() == old(GetEffectiveTotalGas())
    {
      hide Built;
      var sc := if slot in slots then slots[slot] else NO_CHANGES;
      slots := slots[slot := sc.(fee := Some(fee))];
      BuiltMore(setters, BookFee(slot, fee));
      setters := setters + [BookFee(slot, fee)];
    }

    method SetEffectiveTotalGas(total: U128)
      requires Valid()
      modifies this`totalGas, this`setters
      ensures Valid() && setters == old(setters) + [BookTotalGas(total)]
      ensures GetEffectiveTotalGas() == Some(total)
    {
      hide Built;
      totalGas := Some(total);
      BuiltMore(setters, BookTotalGas(total));
      setters := setters + [BookTotalGas(total)];
    }
  }

  lemma BuiltMore(setters: seq<Setter>, setter: Setter)
    ensures Built(setters + [setter]) == Recorded(Built(setters), setter)
  {
    assert (setters + [setter])[..|setters|] == setters;
  }

  // ---------------------------------------------------------------- the in-memory view of a slot

  class DeferredSlotCalls {
    const slot: KeySlot
    var calls: map<CallId, DeferredCall>
    var gas: U64
    var fee: U64

    function View(): SlotView
      reads this
    {
      SlotView(calls, gas, fee)
    }

    constructor (slot: KeySlot, view: SlotView)
      ensures this.slot == slot && View() == view
    {
      this.slot, calls, gas, fee := slot, view.calls, view.gas, view.fee;
    }

    method ApplyChanges(changes: RegistryChanges)
      modifies this
      ensures View() == Overlay(old(View()), ChangesOf(changes, slot))
    {
      hide OverlayCalls, Parted;
      OverlayNothing(calls);
      if slot !in changes.slots {
        return;
      }
      var sc := changes.slots[slot];
      var rest := sc.calls;
      ghost var taken: map<CallId, CallChange> := map[];
      PartStarts(sc.calls);
      while rest != map[]
        invariant Parted(sc.calls, taken, rest) && calls == OverlayCalls(old(calls), taken)
        invariant gas == old(gas) && fee == old(fee)
        decreases |rest|
      {
        var id :| id in rest;
        PartMoves(sc.calls, taken, rest, id);
        OverlayOneMore(old(calls), taken, id, rest[id]);
        match rest[id] {
          case SetCall(call) => calls := calls[id := call];
          case DeleteCall => calls := calls - {id};
        }
        taken := taken[id := rest[id]];
        rest := rest - {id};
      }
      PartEnds(sc.calls, taken, rest);
      if sc.gas.Some? {
        gas := sc.gas.value;
      }
      if sc.fee.Some? {
        fee := sc.fee.value;
      }
    }
  }

  lemma OverlayNothing(calls: map<CallId, DeferredCall>)
    ensures OverlayCalls(calls, map[]) == calls
  {
  }

  lemma OverlayOneMore(
    calls: map<CallId, DeferredCall>, changes: map<CallId, CallChange>, id: CallId, change: CallChange)
    ensures OverlayCalls(calls, changes[id := change])
         == if change.SetCall? then OverlayCalls(calls, changes)[id := change.call]
            else OverlayCalls(calls, changes) - {id}
  {
    hide OverlayCalls;
    var more := OverlayCalls(calls, changes[id := change]);
    var before := OverlayCalls(calls, changes);
    var target := if change.SetCall? then before[id := change.call] else before - {id};
    assert forall x :: x in more <==> x in target;
    assert forall x :: x in more ==> more[x] == target[x];
  }

  // ---------------------------------------------------------------- writing a change set

  /** What a change of a call does to each of its fields. */
  function CallFields(change: CallChange): FieldChanges {
    (tag: Byte) => Some(FieldChange(change, tag))
  }

  method PutEntry(slot: KeySlot, id: CallId, call: DeferredCall, batch: Changes) returns (batch': Changes)
    ensures FieldsWritten(batch, batch', CallBase(slot, id), 1, 10, CallFields(CallChange.SetCall(call)))
  {
    batch' := WriteFields(batch, CallBase(slot, id), 1, 10, CallFields(CallChange.SetCall(call)));
  }

  method DeleteEntry(slot: KeySlot, id: CallId, batch: Changes) returns (batch': Changes)
    ensures FieldsWritten(batch, batch', CallBase(slot, id), 1, 10, CallFields(CallChange.DeleteCall))
  {
    batch' := WriteFields(batch, CallBase(slot, id), 1, 10, CallFields(CallChange.DeleteCall));
  }

  lemma FieldOfCall(slot: KeySlot, id: CallId, k: CallKey)
    ensures IsFieldOf(Bytes(k), CallBase(slot, id)) <==> k.FieldAt? && k.slot == slot && k.id == id
  {
    hide CallBase;
    CallScan(slot, id, k);
  }

  /** The entries under the keys of a call after its fields have been written. */
  lemma CallWritten(batch: Changes, batch': Changes, slot: KeySlot, id: CallId, change: CallChange, k: CallKey)
    requires FieldsWritten(batch, batch', CallBase(slot, id), 1, 10, CallFields(change))
    ensures InBatch(batch', Bytes(k)) == if k.FieldAt? && k.slot == slot && k.id == id
                                         then Some(FieldChange(change, k.tag)) else InBatch(batch, Bytes(k))
  {
    hide CallBase, FieldChange, IsFieldOf;
    FieldOfCall(slot, id, k);
    if k.FieldAt? && k.slot == slot && k.id == id {
      assert InBatch(batch', CallBase(slot, id) + [k.tag])
          == FieldAfter(batch, CallBase(slot, id), 1, 10, CallFields(change), k.tag);
    }
  }

  lemma OtherKeysWritten(batch: Changes, batch': Changes, slot: KeySlot, id: CallId, change: CallChange, key: Key)
    requires FieldsWritten(batch, batch', CallBase(slot, id), 1, 10, CallFields(change)) && !IsCallKey(key)
    ensures InBatch(batch', key) == InBatch(batch, key)
  {
    hide CallBase, FieldChange;
    if IsFieldOf(key, CallBase(slot, id)) {
      var tag := key[|CallBase(slot, id)|];
      assert key == CallBase(slot, id) + [tag];
      assert 1 <= tag < 10 ==> Bytes(FieldAt(slot, id, tag)) == key;
      assert InBatch(batch', CallBase(slot, id) + [tag])
          == FieldAfter(batch, CallBase(slot, id), 1, 10, CallFields(change), tag);
    }
  }

  lemma BatchWithCall(
    batch: Changes, done: RegistryChanges, batch': Changes, slot: KeySlot, id: CallId, change: CallChange)
    requires BatchOf(batch, done)
    requires FieldsWritten(batch, batch', CallBase(slot, id), 1, 10, CallFields(change))
    ensures BatchOf(batch', WithCall(done, slot, id, change))
  {
    hide Bytes, FieldBytes, FieldsWritten, CallBase, TotalGasKey, IsCallKey;
    forall k: CallKey
      ensures InBatch(batch', Bytes(k)) == WrittenAt(WithCall(done, slot, id, change), k)
    {
      assert InBatch(batch, Bytes(k)) == WrittenAt(done, k);
      CallWritten(batch, batch', slot, id, change, k);
    }
    TotalGasApart();
    OtherKeysWritten(batch, batch', slot, id, change, TotalGasKey());
    forall key | key in batch' && !IsCallKey(key)
      ensures key == TotalGasKey()
    {
      OtherKeysWritten(batch, batch', slot, id, change, key);
      assert InBatch(batch', key).Some?;
    }
  }

  lemma BatchWithSlot(batch: Changes, done: RegistryChanges, slot: KeySlot)
    requires BatchOf(batch, done) && slot !in done.slots
    ensures BatchOf(batch, WithSlot(done, slot, NO_CHANGES))
  {
    hide Bytes, FieldBytes;
    forall k: CallKey
      ensures InBatch(batch, Bytes(k)) == WrittenAt(WithSlot(done, slot, NO_CHANGES), k)
    {
      assert InBatch(batch, Bytes(k)) == WrittenAt(done, k);
    }
  }

  lemma BatchWithAmount(batch: Changes, done: RegistryChanges, k: CallKey, sc: SlotChanges)
    requires BatchOf(batch, done) && k.slot in done.slots
    requires (k.GasAt? && sc == done.slots[k.slot].(gas := sc.gas) && sc.gas.Some?) ||
             (k.FeeAt? && sc == done.slots[k.slot].(fee := sc.fee) && sc.fee.Some?)
    ensures var amount := if k.GasAt? then sc.gas.value else sc.fee.value;
            BatchOf(batch[Bytes(k) := if amount == 0 then None else Some(Varint(amount))], WithSlot(done, k.slot, sc))
  {
    hide Bytes, FieldBytes, Varint, TotalGasKey;
    var amount := if k.GasAt? then sc.gas.value else sc.fee.value;
    var more := batch[Bytes(k) := if amount == 0 then None else Some(Varint(amount))];
    forall x: CallKey
      ensures InBatch(more, Bytes(x)) == WrittenAt(WithSlot(done, k.slot, sc), x)
    {
      assert InBatch(batch, Bytes(x)) == WrittenAt(done, x);
      if Bytes(x) == Bytes(k) {
        BytesInjective(x, k);
      }
    }
    assert IsCallKey(Bytes(k));
    TotalGasApart();
  }

  lemma BatchWithTotalGas(batch: Changes, done: RegistryChanges, total: U128)
    requires BatchOf(batch, done)
    ensures BatchOf(batch[TotalGasKey() := Some([SET] + Varint(total))], done.(totalGas := Some(total)))
  {
    hide Bytes, FieldBytes, Varint, TotalGasKey;
    TotalGasApart();
    var more := batch[TotalGasKey() := Some([SET] + Varint(total))];
    forall k: CallKey
      ensures InBatch(more, Bytes(k)) == WrittenAt(done.(totalGas := Some(total)), k)
    {
      assert IsCallKey(Bytes(k));
      assert InBatch(batch, Bytes(k)) == WrittenAt(done, k);
    }
  }

  method ApplyCallChanges(slot: KeySlot, calls: map<CallId, CallChange>, batch: Changes, ghost done: RegistryChanges)
    returns (batch': Changes)
    requires BatchOf(batch, done) && slot !in done.slots
    ensures BatchOf(batch', WithSlot(done, slot, SlotChanges(calls, None, None)))
  {
    hide BatchOf, FieldsWritten, Parted, CallBase;
    batch' := batch;
    var rest := calls;
    ghost var taken: map<CallId, CallChange> := map[];
    BatchWithSlot(batch, done, slot);
    PartStarts(calls);
    while rest != map[]
      invariant Parted(calls, taken, rest)
      invariant BatchOf(batch', WithSlot(done, slot, SlotChanges(taken, None, None)))
      decreases |rest|
    {
      var id :| id in rest;
      ghost var now := WithSlot(done, slot, SlotChanges(taken, None, None));
      var next;
      match rest[id] {
        case SetCall(call) => next := PutEntry(slot, id, call, batch');
        case DeleteCall => next := DeleteEntry(slot, id, batch');
      }
      BatchWithCall(batch', now, next, slot, id, rest[id]);
      SlotAgain(done, slot, SlotChanges(taken, None, None), SlotChanges(taken[id := rest[id]], None, None));
      PartMoves(calls, taken, rest, id);
      batch' := next;
      taken := taken[id := rest[id]];
      rest := rest - {id};
    }
    PartEnds(calls, taken, rest);
  }

  lemma SlotAgain(done: RegistryChanges, slot: KeySlot, before: SlotChanges, after: SlotChanges)
    ensures ChangesOf(WithSlot(done, slot, before), slot) == before
    ensures WithSlot(WithSlot(done, slot, before), slot, after) == WithSlot(done, slot, after)
  {
  }

  /** The calls of one slot, then its gas and base fee. */
  method ApplySlotChanges(slot: KeySlot, sc: SlotChanges, batch: Changes, ghost done: RegistryChanges)
    returns (batch': Changes)
    requires BatchOf(batch, done) && slot !in done.slots
    ensures BatchOf(batch', WithSlot(done, slot, sc))
  {
    hide BatchOf, Bytes, Varint;
    batch' := ApplyCallChanges(slot, sc.calls, batch, done);
    ghost var calls, gas := SlotChanges(sc.calls, None, None), SlotChanges(sc.calls, sc.gas, None);
    SlotAgain(done, slot, calls, gas);
    SlotAgain(done, slot, gas, sc);
    if sc.gas.Some? {
      BatchWithAmount(batch', WithSlot(done, slot, calls), GasAt(slot), gas);
      batch' := batch'[Bytes(GasAt(slot)) := if sc.gas.value == 0 then None else Some(Varint(sc.gas.value))];
    }
    if sc.fee.Some? {
      BatchWithAmount(batch', WithSlot(done, slot, gas), FeeAt(slot), sc);
      batch' := batch'[Bytes(FeeAt(slot)) := if sc.fee.value == 0 then None else Some(Varint(sc.fee.value))];
    }
  }

  lemma EmptyBatch()
    ensures BatchOf(map[], RegistryChanges(map[], None))
  {
  }

  /** The batch of a whole change set. */
  method ApplyChangesToBatch(changes: RegistryChanges) returns (batch: Changes)
    ensures BatchOf(batch, changes)
  {
    hide BatchOf, Parted, Varint, TotalGasKey;
    batch := map[];
    EmptyBatch();
    var rest := changes.slots;
    ghost var done: map<KeySlot, SlotChanges> := map[];
    PartStarts(changes.slots);
    while rest != map[]
      invariant Parted(changes.slots, done, rest) && BatchOf(batch, RegistryChanges(done, None))
      decreases |rest|
    {
      var slot :| slot in rest;
      PartMoves(changes.slots, done, rest, slot);
      batch := ApplySlotChanges(slot, rest[slot], batch, RegistryChanges(done, None));
      done := done[slot := rest[slot]];
      rest := rest - {slot};
    }
    PartEnds(changes.slots, done, rest);
    if changes.totalGas.Some? {
      BatchWithTotalGas(batch, RegistryChanges(changes.slots, None), changes.totalGas.value);
      batch := batch[TotalGasKey() := Some([SET] + Varint(changes.totalGas.value))];
    }
  }

  // ---------------------------------------------------------------- reading

  class DeferredCallRegistry {
    const limits: CallLimits
    var db: Column

    constructor (limits: CallLimits)
      ensures this.limits == limits && db == map[]
      ensures forall slot: KeySlot :: Held(db, slot)
    {
      this.limits, db := limits, map[];
      new;
      forall slot: KeySlot ensures Held(db, slot) {
        EmptyHolds(slot);
      }
    }

    /** The call whose fields a prefix scan finds, if they parse. */
    method GetCall(slot: KeySlot, id: CallId) returns (r: Option<DeferredCall>)
      ensures r == ReadCall(db, slot, id, limits)
    {
      var serialized := ReadPrefix(db, CallBase(slot, id));
      r := ParseCall(serialized, limits);
    }

    /** An amount is zero when it has no entry; None stands for a panic on a value that does not parse. */
    method GetAmount(k: CallKey) returns (r: Option<U64>)
      requires !k.FieldAt?
      ensures r == ReadAmount(db, k)
    {
      if Bytes(k) !in db {
        return Some(0);
      }
      match ParseU64(db[Bytes(k)]) {
        case None => return None;
        case Some((amount, _)) => return Some(amount);
      }
    }

    method GetTotalGas() returns (r: Option<U128>)
      ensures r == ReadTotalGas(db)
    {
      if TotalGasKey() !in db {
        return Some(0);
      }
      match ParseTotalGas(db[TotalGasKey()]) {
        case None => return None;
        case Some(None) => return Some(0);
        case Some(Some(total)) => return Some(total);
      }
    }

    /**
     Every call of a slot, found by scanning the keys of the slot and reading each id once, with its
     gas and base fee: what reading call by call gives.
     */
    method GetSlotCalls(slot: KeySlot) returns (r: SlotView)
      requires Held(db, slot)
      ensures SlotRead(db, slot, limits, r)
    {
      hide Holds, Least, StartsWith, CallsBase, Bytes, ParseVec, ReadCall, ReadAmount;
      ghost var view :| Holds(db, slot, view);
      var calls: map<CallId, DeferredCall> := map[];
      var seen: set<CallId> := {};
      var rest := set key | key in db && AtMost(CallsBase(slot), key);
      ScanLeft(db, slot, view, rest);
      while rest != {}
        invariant rest <= db.Keys && forall key :: key in rest ==> AtMost(CallsBase(slot), key)
        invariant ReadSome(db, slot, limits, calls, seen)
        invariant forall id :: id in view.calls && id !in seen ==> Bytes(FieldAt(slot, id, 1)) in rest
        decreases |rest|
      {
        var key := Least(rest);
        if !StartsWith(key, CallsBase(slot)) {
          NoCallsLeft(slot, rest, key);
          break;
        }
        IdOfKey(db, slot, view, key);
        rest := rest - {key};
        var id := ParseVec(key[|CallsBase(slot)|..], MAX_CALL_ID_LEN).value.0;
        if id in seen {
          continue;
        }
        seen := seen + {id};
        var call := GetCall(slot, id);
        if call.Some? {
          calls := calls[id := call.value];
        }
      }
      UnseenAreNone(db, slot, view, limits, seen);
      AmountReadsBack(db, view, FeeAt(slot));
      AmountReadsBack(db, view, GasAt(slot));
      var fee := GetAmount(FeeAt(slot));
      var gas := GetAmount(GasAt(slot));
      r := SlotView(calls, gas.value, fee.value);
    }

    method WriteBatch(batch: Changes)
      modifies this
      ensures db == Apply(old(db), batch)
    {
      db := MassaDb.Commit(db, batch);
    }
  }

  /** Of the calls seen, exactly those that can be read have been collected. */
  ghost predicate ReadSome(
    db: Column, slot: KeySlot, limits: CallLimits, calls: map<CallId, DeferredCall>, seen: set<CallId>)
  {
    && (forall id :: id in calls ==> id in seen)
    && (forall id :: id in seen ==> CallIn(SlotView(calls, 0, 0), id) == ReadCall(db, slot, id, limits))
  }

  lemma UnseenAreNone(db: Column, slot: KeySlot, view: SlotView, limits: CallLimits, seen: set<CallId>)
    requires Holds(db, slot, view) && forall id :: id in view.calls ==> id in seen
    ensures forall id: CallId :: id !in seen ==> ReadCall(db, slot, id, limits) == None
  {
    hide Holds, ReadCall, Within;
    forall id: CallId | id !in seen
      ensures ReadCall(db, slot, id, limits) == None
    {
      CallReadsBack(db, slot, view, id, limits);
    }
  }

  lemma ScanLeft(db: Column, slot: KeySlot, view: SlotView, rest: set<Key>)
    requires Holds(db, slot, view) && rest == set key | key in db && AtMost(CallsBase(slot), key)
    ensures forall id :: id in view.calls ==> Bytes(FieldAt(slot, id, 1)) in rest
  {
    forall id | id in view.calls
      ensures Bytes(FieldAt(slot, id, 1)) in rest
    {
      var k := FieldAt(slot, id, 1);
      assert Get(db, Bytes(k)) == Stored(view, k);
      SlotScan(slot, k);
      PrefixIsFirst(Bytes(k), CallsBase(slot));
    }
  }

  lemma NoCallsLeft(slot: KeySlot, rest: set<Key>, key: Key)
    requires IsLeast(rest, key) && AtMost(CallsBase(slot), key) && !StartsWith(key, CallsBase(slot))
    ensures forall id: CallId :: Bytes(FieldAt(slot, id, 1)) !in rest
  {
    forall id: CallId
      ensures Bytes(FieldAt(slot, id, 1)) !in rest
    {
      var k := FieldAt(slot, id, 1);
      SlotScan(slot, k);
      if Bytes(k) in rest {
        BeyondPrefix(CallsBase(slot), key, Bytes(k));
      }
    }
  }

  /** The id that a scanned key starts with is that of a call of the slot. */
  lemma IdOfKey(db: Column, slot: KeySlot, view: SlotView, key: Key)
    requires Holds(db, slot, view) && key in db && StartsWith(key, CallsBase(slot))
    ensures |key| >= |CallsBase(slot)|
    ensures var parsed := ParseVec(key[|CallsBase(slot)|..], MAX_CALL_ID_LEN);
            parsed.Some? && |parsed.value.0| <= MAX_CALL_ID_LEN && parsed.value.0 in view.calls
            && forall id: CallId :: key == Bytes(FieldAt(slot, id, 1)) ==> id == parsed.value.0
  {
    assert IsCallKey(key);
    var k: CallKey :| Bytes(k) == key;
    SlotScan(slot, k);
    assert Get(db, Bytes(k)) == Stored(view, k);
    assert key[|CallsBase(slot)|..] == VecBytes(k.id) + [k.tag];
    VecRoundTrip(k.id, MAX_CALL_ID_LEN, [k.tag]);
    forall id: CallId | key == Bytes(FieldAt(slot, id, 1))
      ensures id == k.id
    {
      BytesInjective(k, FieldAt(slot, id, 1));
    }
  }

  /**
   Building a change set with any setter calls, writing it and reading a slot back gives what
   carrying out the calls one by one on the slot as read before gives, exactly when every call that
   ends up booked is within the reader's limits.
   */
  lemma RegistryCommutes(col: Column, batch: Changes, setters: seq<Setter>, slot: KeySlot, limits: CallLimits,
                         before: SlotView, after: SlotView)
    requires Held(col, slot) && BatchOf(batch, Built(setters))
    requires SlotRead(col, slot, limits, before) && SlotRead(Apply(col, batch), slot, limits, after)
    ensures after == PerformedAll(before, slot, setters) <==> AllWithin(ChangesOf(Built(setters), slot), limits)
  {
    hide Held, BatchOf, SlotRead, Overlay, AllWithin;
    StorageCommutes(col, batch, Built(setters), slot, limits, before, after);
    BuiltPerforms(before, slot, setters);
  }

  /** The total gas read after the write is the one the setter calls leave. */
  lemma TotalGasCommutes(col: Column, batch: Changes, setters: seq<Setter>, total: U128)
    requires BatchOf(batch, Built(setters)) && ReadTotalGas(col) == Some(total)
    ensures ReadTotalGas(Apply(col, batch)) == Some(TotalAfter(total, setters))
  {
    hide BatchOf, ReadTotalGas;
    ReadTotalGasAfterWrite(col, batch, Built(setters));
    BuiltTotal(total, setters);
  }

  // ---------------------------------------------------------------- whole runs

  /** The database after writing the change sets that these setter calls build, one after the other. */
  ghost predicate Reached(col: Column, sets: seq<seq<Setter>>)
    decreases |sets|
  {
    if sets == [] then col == map[]
    else
      exists before, batch ::
        && Reached(before, sets[..|sets| - 1])
        && BatchOf(batch, Built(sets[|sets| - 1])) && col == Apply(before, batch)
  }

  /** All the setter calls carried out one by one on an empty registry. */
  function PerformedSets(slot: KeySlot, sets: seq<seq<Setter>>): SlotView {
    if sets == [] then SlotView(map[], 0, 0)
    else PerformedAll(PerformedSets(slot, sets[..|sets| - 1]), slot, sets[|sets| - 1])
  }

  lemma {:induction false} RegistryHolds(col: Column, sets: seq<seq<Setter>>, slot: KeySlot)
    requires Reached(col, sets)
    ensures Holds(col, slot, PerformedSets(slot, sets))
    decreases |sets|
  {
    hide Holds, BatchOf, Built, PerformedAll;
    if sets == [] {
      EmptyHolds(slot);
    } else {
      var last := |sets| - 1;
      var before, batch :|
        Reached(before, sets[..last]) && BatchOf(batch, Built(sets[last])) && col == Apply(before, batch);
      RegistryHolds(before, sets[..last], slot);
      var view := PerformedSets(slot, sets[..last]);
      WriteCommutes(before, batch, Built(sets[last]), slot, view);
      BuiltPerforms(view, slot, sets[last]);
    }
  }

  /** The total gas that all the setter calls leave, from zero on. */
  function TotalOfSets(sets: seq<seq<Setter>>): U128 {
    if sets == [] then 0 else TotalAfter(TotalOfSets(sets[..|sets| - 1]), sets[|sets| - 1])
  }

  /** In every reachable database the total gas reads as the last one set, or zero. */
  lemma {:induction false} TotalAlwaysReads(col: Column, sets: seq<seq<Setter>>)
    requires Reached(col, sets)
    ensures ReadTotalGas(col) == Some(TotalOfSets(sets))
    decreases |sets|
  {
    hide BatchOf, Built, TotalAfter;
    if sets != [] {
      var last := |sets| - 1;
      var before, batch :|
        Reached(before, sets[..last]) && BatchOf(batch, Built(sets[last])) && col == Apply(before, batch);
      TotalAlwaysReads(before, sets[..last]);
      TotalGasCommutes(before, batch, sets[last], TotalOfSets(sets[..last]));
    }
  }

  /**
   In every reachable database a slot reads as what all the setter calls so far have booked for it,
   exactly when each call that is booked is within the reader's limits.
   */
  lemma RegistryAlwaysReads(col: Column, sets: seq<seq<Setter>>, slot: KeySlot, limits: CallLimits, read: SlotView)
    requires Reached(col, sets) && SlotRead(col, slot, limits, read)
    ensures var booked := PerformedSets(slot, sets);
            read == booked <==> forall id :: id in booked.calls ==> Within(booked.calls[id], limits)
  {
    hide Reached, Holds, PerformedSets, ReadCall, ReadAmount, Within;
    var booked := PerformedSets(slot, sets);
    RegistryHolds(col, sets, slot);
    AmountReadsBack(col, booked, GasAt(slot));
    AmountReadsBack(col, booked, FeeAt(slot));
    forall id: CallId
      ensures CallIn(read, id) == CallIn(booked, id) <==> (id in booked.calls ==> Within(booked.calls[id], limits))
    {
      CallReadsBack(col, slot, booked, id, limits);
      assert CallIn(read, id) == ReadCall(col, slot, id, limits);
    }
    if forall id :: id in booked.calls ==> Within(booked.calls[id], limits) {
      SameCalls(read, booked);
    }
  }
}
