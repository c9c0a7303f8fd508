/**
The keys of the event cache. One database holds events, four families of index entries and their
counters; the first byte of a key tells them apart and its fixed-width fields decide where an
ordered iterator meets it. Keys are handled in their decoded form, next to the bytes they stand for.
 */
module EventKeys {
  import opened ByteStrings
  import opened Slots
  import opened Wire
  import opened KeyLayout

  // ---------------------------------------------------------------- events

  datatype RawEventId = EventId(slot: KeySlot, index: nat)

  /** Where an event was emitted; no two events share it. */
  type EventId = id: RawEventId | id.index < U64_LIMIT witness EventId(Slot(0, 0), 0)

  predicate IdBefore(a: EventId, b: EventId) {
    Before(a.slot, b.slot) || (a.slot == b.slot && a.index < b.index)
  }

  // ---------------------------------------------------------------- keys

  const OPERATION_ID_LEN := 33

  /** A version byte and a hash. */
  type OperationId = o: Key | |o| == OPERATION_ID_LEN witness seq(OPERATION_ID_LEN, _ => 0)

  /** What the cache keeps an index on. */
  datatype Attr = Emitter(addr: Address) | Caller(addr: Address) | Operation(op: OperationId) | Failed(isError: bool)

  datatype DbKey = EventAt(id: EventId) | IndexAt(attr: Attr, id: EventId) | CounterAt(attr: Attr)

  const COUNTER_INDENT: Byte := 0
  const EVENT_INDENT: Byte := 1

  function Indent(attr: Attr): Byte {
    match attr
    case Emitter(_) => 2
    case Caller(_) => 3
    case Operation(_) => 4
    case Failed(_) => 5
  }

  function AttrBytes(attr: Attr): Key {
    match attr
    case Emitter(addr) => addr + [ADDRESS_LEN]
    case Caller(addr) => addr + [ADDRESS_LEN]
    case Operation(op) => op + [0, 0, 0, OPERATION_ID_LEN]
    case Failed(isError) => [if isError then 1 else 0]
  }

  /** The prefix that all index entries of an attribute share. */
  function AttrPrefix(attr: Attr): Key {
    [Indent(attr)] + AttrBytes(attr)
  }

  function EventBytes(id: EventId): Key {
    U64Width();
    [EVENT_INDENT] + (SlotKey(id.slot) + BigEndian(id.index, 8))
  }

  function Bytes(k: DbKey): (r: Key)
    ensures r != []
  {
    match k
    case EventAt(id) => EventBytes(id)
    case IndexAt(attr, id) => AttrPrefix(attr) + EventBytes(id)
    case CounterAt(attr) => [COUNTER_INDENT] + AttrPrefix(attr)
  }

  /** Events sort by slot, then by index. */
  lemma EventOrder(a: EventId, b: EventId)
    ensures Less(EventBytes(a), EventBytes(b)) <==> IdBefore(a, b)
    ensures EventBytes(a) == EventBytes(b) <==> a == b
  {
    U64Width();
    SlotKeyOrder(a.slot, b.slot);
    BigEndianOrder(a.index, b.index, 8);
    var ia, ib := BigEndian(a.index, 8), BigEndian(b.index, 8);
    LessConcat(SlotKey(a.slot), SlotKey(b.slot), ia, ib);
    LessConcat([EVENT_INDENT], [EVENT_INDENT], SlotKey(a.slot) + ia, SlotKey(b.slot) + ib);
    LessFromIrreflexive([EVENT_INDENT], 0);
    if EventBytes(a) == EventBytes(b) {
      ConcatInjective([EVENT_INDENT], [EVENT_INDENT], SlotKey(a.slot) + ia, SlotKey(b.slot) + ib);
      ConcatInjective(SlotKey(a.slot), SlotKey(b.slot), ia, ib);
    }
  }

  /** The bound that a slot sets on an iteration separates exactly the events of earlier slots. */
  lemma SlotBound(s: KeySlot, id: EventId)
    ensures Less(EventBytes(id), [EVENT_INDENT] + SlotKey(s)) <==> Before(id.slot, s)
  {
    U64Width();
    var index := BigEndian(id.index, 8);
    LessConcat([EVENT_INDENT], [EVENT_INDENT], SlotKey(id.slot) + index, SlotKey(s));
    LessFromIrreflexive([EVENT_INDENT], 0);
    assert SlotKey(s) + [] == SlotKey(s);
    LessConcat(SlotKey(id.slot), SlotKey(s), index, []);
    SlotKeyOrder(id.slot, s);
  }

  lemma AttrPrefixInjective(a: Attr, b: Attr, x: Key, y: Key)
    requires AttrPrefix(a) + x == AttrPrefix(b) + y
    ensures a == b && x == y
  {
    assert Indent(a) == (AttrPrefix(a) + x)[0] == (AttrPrefix(b) + y)[0] == Indent(b);
    assert |AttrPrefix(a)| == |AttrPrefix(b)|;
    ConcatInjective(AttrPrefix(a), AttrPrefix(b), x, y);
    ConcatInjective([Indent(a)], [Indent(b)], AttrBytes(a), AttrBytes(b));
    match a
    case Emitter(addr) => ConcatInjective(addr, b.addr, [ADDRESS_LEN], [ADDRESS_LEN]);
    case Caller(addr) => ConcatInjective(addr, b.addr, [ADDRESS_LEN], [ADDRESS_LEN]);
    case Operation(op) =>
      ConcatInjective(op, b.op, [0, 0, 0, OPERATION_ID_LEN], [0, 0, 0, OPERATION_ID_LEN]);
    case Failed(_) =>
  }

  lemma FirstByte(k: DbKey)
    ensures Bytes(k)[0] == match k
                           case EventAt(_) => EVENT_INDENT
                           case IndexAt(attr, _) => Indent(attr)
                           case CounterAt(_) => COUNTER_INDENT
  {
  }

  /** No two keys share their bytes, so the decoded form loses nothing. */
  lemma BytesInjective(a: DbKey, b: DbKey)
    requires Bytes(a) == Bytes(b)
    ensures a == b
  {
    FirstByte(a);
    FirstByte(b);
    match a
    case EventAt(id) => EventOrder(id, b.id);
    case IndexAt(attr, id) =>
      AttrPrefixInjective(attr, b.attr, EventBytes(id), EventBytes(b.id));
      EventOrder(id, b.id);
    case CounterAt(attr) =>
      ConcatInjective([COUNTER_INDENT], [COUNTER_INDENT], AttrPrefix(attr), AttrPrefix(b.attr));
      assert AttrPrefix(attr) + [] == AttrPrefix(attr) && AttrPrefix(b.attr) + [] == AttrPrefix(b.attr);
      AttrPrefixInjective(attr, b.attr, [], []);
  }

  /** A scan over an attribute's prefix meets exactly its own index entries. */
  lemma PrefixScan(attr: Attr, k: DbKey)
    ensures StartsWith(Bytes(k), AttrPrefix(attr)) <==> k.IndexAt? && k.attr == attr
  {
    FirstByte(k);
    var bytes, n := Bytes(k), |AttrPrefix(attr)|;
    if StartsWith(bytes, AttrPrefix(attr)) {
      assert bytes[0] == bytes[..n][0] == Indent(attr);
      assert bytes == AttrPrefix(attr) + bytes[n..];
      AttrPrefixInjective(k.attr, attr, EventBytes(k.id), bytes[n..]);
    }
  }

  lemma SortsByFirstByte(a: Key, b: Key)
    requires a != [] && b != [] && AtMost(a, b)
    ensures a[0] <= b[0]
  {
  }

  // ---------------------------------------------------------------- iteration

  ghost predicate IsFirst(keys: set<DbKey>, k: DbKey) {
    k in keys && forall x :: x in keys ==> AtMost(Bytes(k), Bytes(x))
  }

  lemma FirstExists(keys: set<DbKey>)
    requires keys != {}
    ensures exists k :: IsFirst(keys, k)
  {
    var images := set k | k in keys :: Bytes(k);
    var some :| some in keys;
    assert Bytes(some) in images;
    var least := Least(images);
    var k :| k in keys && Bytes(k) == least;
    assert IsFirst(keys, k);
  }

  /** The key an iterator over `keys` yields next. */
  function First(keys: set<DbKey>): (k: DbKey)
    requires keys != {}
    ensures IsFirst(keys, k)
  {
    FirstExists(keys);
    KeyOrder();
    assert forall a, b :: a in keys && b in keys && Bytes(a) == Bytes(b) ==> a == b by {
      forall a, b | a in keys && b in keys && Bytes(a) == Bytes(b)
        ensures a == b
      {
        BytesInjective(a, b);
      }
    }
    var k :| k in keys && forall x :: x in keys ==> AtMost(Bytes(k), Bytes(x));
    k
  }
}
