/**
Queries on the event cache: the plain filter, the index scans a query is split into, and the proof
that what the scans find together is what the filter accepts.
 */
module EventQuery {
  import opened ByteStrings
  import opened Slots
  import opened KeyLayout
  import opened EventKeys
  import opened EventIndex

  datatype EventFilter = EventFilter(
    start: Option<KeySlot>,
    end: Option<KeySlot>,
    emitter: Option<Address>,
    caller: Option<Address>,
    operation: Option<OperationId>,
    isFinal: Option<bool>,
    isError: Option<bool>)

  /** The plain filter that is applied to events still in memory. */
  predicate Accepts(f: EventFilter, e: Event) {
    && (f.start.Some? ==> !Before(e.id.slot, f.start.value))
    && (f.end.Some? ==> Before(e.id.slot, f.end.value))
    && (f.isFinal.Some? ==> e.isFinal == f.isFinal.value)
    && (f.isError.Some? ==> e.isError == f.isError.value)
    && (f.caller.Some? ==> e.callStack != [] && e.callStack[0] == f.caller.value)
    && (f.emitter.Some? ==> e.callStack != [] && e.callStack[|e.callStack| - 1] == f.emitter.value)
    && (f.operation.Some? ==> e.operation == f.operation)
  }

  // ---------------------------------------------------------------- listing results

  ghost predicate IsFirstId(ids: set<EventId>, id: EventId) {
    id in ids && forall x :: x in ids ==> x == id || IdBefore(id, x)
  }

  lemma {:induction false} FirstIdExists(ids: set<EventId>)
    requires ids != {}
    ensures exists id :: IsFirstId(ids, id)
  {
    var id :| id in ids;
    if ids - {id} != {} {
      FirstIdExists(ids - {id});
      var least :| IsFirstId(ids - {id}, least);
      assert forall x :: x in ids ==> x == id || x in ids - {id};
      assert IsFirstId(ids, if IdBefore(id, least) then id else least);
    } else {
      assert ids == {id};
      assert IsFirstId(ids, id);
    }
  }

  function FirstId(ids: set<EventId>): (id: EventId)
    requires ids != {}
    ensures IsFirstId(ids, id)
  {
    FirstIdExists(ids);
    var id :| id in ids && forall x :: x in ids ==> x == id || IdBefore(id, x);
    id
  }

  /** The first `max` of the events, in the order of slot and index. */
  function Listing(events: Events, ids: set<EventId>, max: nat): (r: seq<Event>)
    requires ids <= events.Keys
    decreases |ids|
  {
    if ids == {} || max == 0 then []
    else
      var id := FirstId(ids);
      [events[id]] + Listing(events, ids - {id}, max - 1)
  }

  lemma {:induction false} ListingHolds(events: Events, ids: set<EventId>, max: nat)
    requires ids <= events.Keys && Keyed(events)
    ensures var r := Listing(events, ids, max);
            && |r| == (if |ids| <= max then |ids| else max)
            && (forall e :: e in r ==> e.id in ids && e == events[e.id])
    decreases |ids|
  {
    if ids != {} && max > 0 {
      ListingHolds(events, ids - {FirstId(ids)}, max - 1);
    }
  }

  lemma {:induction false} ListingSorted(events: Events, ids: set<EventId>, max: nat, i: nat, j: nat)
    requires ids <= events.Keys && Keyed(events) && i < j < |Listing(events, ids, max)|
    ensures IdBefore(Listing(events, ids, max)[i].id, Listing(events, ids, max)[j].id)
    decreases |ids|
  {
    var id := FirstId(ids);
    var rest := Listing(events, ids - {id}, max - 1);
    if i == 0 {
      ListingHolds(events, ids - {id}, max - 1);
      assert rest[j - 1] in rest;
    } else {
      ListingSorted(events, ids - {id}, max - 1, i - 1, j - 1);
    }
  }

  lemma {:induction false} ListingCutsLater(events: Events, ids: set<EventId>, max: nat, e: Event, id: EventId)
    requires ids <= events.Keys && Keyed(events)
    requires e in Listing(events, ids, max) && id in ids && events[id] !in Listing(events, ids, max)
    ensures IdBefore(e.id, id)
    decreases |ids|
  {
    var first := FirstId(ids);
    assert events[first] in Listing(events, ids, max);
    if e != events[first] {
      ListingCutsLater(events, ids - {first}, max - 1, e, id);
    }
  }

  /** A listing is sorted, holds only the asked events, and leaves out only later ones. */
  lemma {:induction false} ListingIsFirst(events: Events, ids: set<EventId>, max: nat)
    requires ids <= events.Keys && Keyed(events)
    ensures var r := Listing(events, ids, max);
            && |r| == (if |ids| <= max then |ids| else max)
            && (forall e :: e in r ==> e.id in ids && e == events[e.id])
            && (forall i, j :: 0 <= i < j < |r| ==> IdBefore(r[i].id, r[j].id))
            && (forall e, id :: e in r && id in ids && events[id] !in r ==> IdBefore(e.id, id))
  {
    hide Listing;
    ListingHolds(events, ids, max);
    var r := Listing(events, ids, max);
    forall i, j | 0 <= i < j < |r|
      ensures IdBefore(r[i].id, r[j].id)
    {
      ListingSorted(events, ids, max, i, j);
    }
    forall e, id | e in r && id in ids && events[id] !in r
      ensures IdBefore(e.id, id)
    {
      ListingCutsLater(events, ids, max, e, id);
    }
  }

  ghost function AcceptedIds(events: Events, f: EventFilter): set<EventId> {
    set id | id in events && Accepts(f, events[id])
  }

  // ---------------------------------------------------------------- scans

  datatype FilterItem =
    | SlotStart(start: KeySlot)
    | SlotStartEnd(start: KeySlot, end: KeySlot)
    | SlotEnd(end: KeySlot)
    | ByAttr(attr: Attr)

  function ItemIndent(item: FilterItem): Byte {
    if item.ByAttr? then Indent(item.attr) else EVENT_INDENT
  }

  function SlotBoundKey(s: KeySlot): Key {
    [EVENT_INDENT] + SlotKey(s)
  }

  /** The keys that the iterator opened for an item may yield. */
  predicate InRange(item: FilterItem, k: DbKey) {
    match item
    case SlotStart(start) => AtMost(SlotBoundKey(start), Bytes(k))
    case SlotStartEnd(start, end) => AtMost(SlotBoundKey(start), Bytes(k)) && Less(Bytes(k), SlotBoundKey(end))
    case SlotEnd(end) => Less(Bytes(k), SlotBoundKey(end))
    case ByAttr(attr) => AtMost(AttrPrefix(attr), Bytes(k))
  }

  function Scanned(db: EventDb, item: FilterItem): set<DbKey> {
    set k | k in db && InRange(item, k)
  }

  /** The scan goes on as long as keys have the right first byte, and prefix for an index. */
  predicate GoesOn(item: FilterItem, k: DbKey) {
    && StartsWith(Bytes(k), [ItemIndent(item)])
    && (item.ByAttr? ==> StartsWith(Bytes(k), AttrPrefix(item.attr)))
  }

  /** What a scan finds; one that has only an end stops at the counters that precede the events. */
  predicate Finds(item: FilterItem, e: Event) {
    match item
    case SlotStart(start) => NotAfter(start, e.id.slot)
    case SlotStartEnd(start, end) => NotAfter(start, e.id.slot) && Before(e.id.slot, end)
    case SlotEnd(_) => false
    case ByAttr(attr) => attr in AttrsOf(e)
  }

  /** The scans a filter is split into. */
  function FilterItems(f: EventFilter): seq<FilterItem> {
    (if f.start.Some? && f.end.Some? then [SlotStartEnd(f.start.value, f.end.value)]
     else if f.start.Some? then [SlotStart(f.start.value)]
     else if f.end.Some? then [SlotEnd(f.end.value)]
     else [])
    + (if f.emitter.Some? then [ByAttr(Emitter(f.emitter.value))] else [])
    + (if f.caller.Some? then [ByAttr(Caller(f.caller.value))] else [])
    + (if f.operation.Some? then [ByAttr(Operation(f.operation.value))] else [])
    + (if f.isError.Some? then [ByAttr(Failed(f.isError.value))] else [])
  }

  function Plan(f: EventFilter): (r: seq<FilterItem>)
    ensures r != []
  {
    if FilterItems(f) == [] then [SlotStart(Slot(0, 0))] else FilterItems(f)
  }

  lemma AttrsMean(e: Event)
    ensures forall addr :: Emitter(addr) in AttrsOf(e) <==> e.callStack != [] && e.callStack[|e.callStack| - 1] == addr
    ensures forall addr :: Caller(addr) in AttrsOf(e) <==> e.callStack != [] && e.callStack[0] == addr
    ensures forall op :: Operation(op) in AttrsOf(e) <==> e.operation == Some(op)
    ensures forall b :: Failed(b) in AttrsOf(e) <==> e.isError == b
  {
  }

  /** With a start whenever there is an end, a final event passes the filter iff every scan finds it. */
  lemma PlanMeans(f: EventFilter, e: Event)
    requires e.isFinal && f.isFinal != Some(false) && (f.end.Some? ==> f.start.Some?)
    ensures Accepts(f, e) <==> forall item :: item in Plan(f) ==> Finds(item, e)
  {
    hide AttrsOf, Plan;
    AttrsMean(e);
    PlanHolds(f);
    if forall item :: item in Plan(f) ==> Finds(item, e) {
      assert f.start.Some? && f.end.Some? ==> SlotStartEnd(f.start.value, f.end.value) in Plan(f);
      assert f.start.Some? && f.end.None? ==> SlotStart(f.start.value) in Plan(f);
      assert f.emitter.Some? ==> ByAttr(Emitter(f.emitter.value)) in Plan(f);
      assert f.caller.Some? ==> ByAttr(Caller(f.caller.value)) in Plan(f);
      assert f.operation.Some? ==> ByAttr(Operation(f.operation.value)) in Plan(f);
      assert f.isError.Some? ==> ByAttr(Failed(f.isError.value)) in Plan(f);
    }
  }

  /** The members of a plan. */
  lemma PlanHolds(f: EventFilter)
    requires f.end.Some? ==> f.start.Some?
    ensures forall item :: item in Plan(f) <==>
              || (f.start.Some? && f.end.Some? && item == SlotStartEnd(f.start.value, f.end.value))
              || (f.start.Some? && f.end.None? && item == SlotStart(f.start.value))
              || (f.emitter.Some? && item == ByAttr(Emitter(f.emitter.value)))
              || (f.caller.Some? && item == ByAttr(Caller(f.caller.value)))
              || (f.operation.Some? && item == ByAttr(Operation(f.operation.value)))
              || (f.isError.Some? && item == ByAttr(Failed(f.isError.value)))
              || (f == EventFilter(None, None, None, None, None, f.isFinal, None) && item == SlotStart(Slot(0, 0)))
  {
  }

  // ---------------------------------------------------------------- what a scan visits

  /** The keys before the first one at which the scan stops. */
  ghost predicate Visited(keys: set<DbKey>, item: FilterItem, k: DbKey) {
    k in keys && forall x :: x in keys && AtMost(Bytes(x), Bytes(k)) ==> GoesOn(item, x)
  }

  /** The event a scanned key stands for. */
  predicate Names(k: DbKey, id: EventId) {
    !k.CounterAt? && k.id == id
  }

  lemma GoesOnMeans(item: FilterItem, k: DbKey)
    ensures GoesOn(item, k) <==> if item.ByAttr? then k.IndexAt? && k.attr == item.attr else k.EventAt?
  {
    FirstByte(k);
    assert Bytes(k)[..1] == [Bytes(k)[0]];
    if item.ByAttr? {
      PrefixScan(item.attr, k);
    }
  }

  lemma EventInRange(item: FilterItem, id: EventId)
    requires !item.ByAttr?
    ensures InRange(item, EventAt(id)) <==>
            && (item.SlotStart? || item.SlotStartEnd? ==> NotAfter(item.start, id.slot))
            && (item.SlotStartEnd? || item.SlotEnd? ==> Before(id.slot, item.end))
  {
    KeyOrder();
    if !item.SlotEnd? {
      SlotBound(item.start, id);
      assert Less(Bytes(EventAt(id)), SlotBoundKey(item.start)) || Bytes(EventAt(id)) == SlotBoundKey(item.start)
             || Less(SlotBoundKey(item.start), Bytes(EventAt(id)));
      assert |SlotBoundKey(item.start)| == 10 && |Bytes(EventAt(id))| == 18;
    }
    if !item.SlotStart? {
      SlotBound(item.end, id);
    }
  }

  /** Within the range of an item with a start, keys that stop the scan come after all others. */
  lemma StopsForGood(item: FilterItem, a: DbKey, b: DbKey)
    requires !item.SlotEnd? && InRange(item, a) && InRange(item, b)
    requires !GoesOn(item, a) && AtMost(Bytes(a), Bytes(b))
    ensures !GoesOn(item, b)
  {
    GoesOnMeans(item, a);
    GoesOnMeans(item, b);
    if item.ByAttr? {
      PrefixScan(item.attr, a);
      PrefixScan(item.attr, b);
      BeyondPrefix(AttrPrefix(item.attr), Bytes(a), Bytes(b));
    } else {
      FirstByte(a);
      FirstByte(b);
      SortsByFirstByte(SlotBoundKey(item.start), Bytes(a));
      SortsByFirstByte(Bytes(a), Bytes(b));
    }
  }

  /** The keys in range and the events among them or behind them. */
  lemma ScanReaches(db: EventDb, events: Events, item: FilterItem, id: EventId)
    requires Consistent(db, events, {}) && !item.SlotEnd?
    ensures VisitedFor(Scanned(db, item), item, id) <==> id in events && Finds(item, events[id])
  {
    var keys := Scanned(db, item);
    var k := if item.ByAttr? then IndexAt(item.attr, id) else EventAt(id);
    assert Lookup(db, k) == Expected(events, {}, k);
    assert k in keys <==> id in events && Finds(item, events[id]) by {
      if item.ByAttr? {
        PrefixScan(item.attr, k);
        PrefixIsFirst(Bytes(k), AttrPrefix(item.attr));
      } else {
        EventInRange(item, id);
      }
    }
    GoesOnMeans(item, k);
    if k in keys {
      forall x | x in keys && AtMost(Bytes(x), Bytes(k))
        ensures GoesOn(item, x)
      {
        if !GoesOn(item, x) {
          StopsForGood(item, x, k);
        }
      }
      assert Visited(keys, item, k) && Names(k, id);
    }
    forall x | Visited(keys, item, x) && Names(x, id)
      ensures x == k
    {
      GoesOnMeans(item, x);
    }
  }

  /** A scan with only an end starts at the first key of the database, which is a counter. */
  lemma EndOnlyFindsNothing(db: EventDb, events: Events, item: FilterItem, k: DbKey)
    requires Consistent(db, events, {}) && item.SlotEnd?
    ensures !Visited(Scanned(db, item), item, k)
  {
    var keys := Scanned(db, item);
    if Visited(keys, item, k) {
      KeyOrder();
      GoesOnMeans(item, k);
      assert Lookup(db, k) == Expected(events, {}, k);
      var counter := CounterAt(Failed(events[k.id].isError));
      assert k.id in Having(events, counter.attr);
      assert Lookup(db, counter) == Expected(events, {}, counter);
      assert counter in db;
      CounterIsFirst(counter, item.end, k);
      GoesOnMeans(item, counter);
      assert false;
    }
  }

  lemma CounterIsFirst(counter: DbKey, end: KeySlot, k: DbKey)
    requires counter.CounterAt? && k.EventAt?
    ensures Less(Bytes(counter), SlotBoundKey(end)) && Less(Bytes(counter), Bytes(k))
  {
    FirstByte(counter);
    FirstByte(k);
  }

  // ---------------------------------------------------------------- intersecting scans

  /** The events that a scan adds to its result, given what earlier scans have left. */
  ghost function Selected(events: Events, item: FilterItem, seen: Option<set<EventId>>): set<EventId> {
    set id | id in events && Finds(item, events[id]) && (seen.Some? ==> id in seen.value)
  }

  /** The keys already visited go on, come first, and are all that `result` was built from. */
  ghost predicate Progress(
    keys: set<DbKey>, rest: set<DbKey>, item: FilterItem, seen: Option<set<EventId>>, result: set<EventId>)
  {
    && rest <= keys
    && (forall x :: x in keys - rest ==> GoesOn(item, x))
    && (forall x, y :: x in keys - rest && y in rest ==> AtMost(Bytes(x), Bytes(y)))
    && (forall id :: id in result <==>
          (seen.Some? ==> id in seen.value) && exists x :: x in keys - rest && Names(x, id))
  }

  lemma ProgressStep(keys: set<DbKey>, rest: set<DbKey>, item: FilterItem, seen: Option<set<EventId>>,
                     result: set<EventId>, k: DbKey)
    requires Progress(keys, rest, item, seen, result) && IsFirst(rest, k) && GoesOn(item, k)
    ensures !k.CounterAt?
    ensures Progress(keys, rest - {k}, item, seen,
                     if seen.Some? && k.id !in seen.value then result else result + {k.id})
  {
    GoesOnMeans(item, k);
    var result' := if seen.Some? && k.id !in seen.value then result else result + {k.id};
    assert keys - (rest - {k}) == (keys - rest) + {k};
    forall id
      ensures id in result' <==>
              (seen.Some? ==> id in seen.value) && exists x :: x in keys - (rest - {k}) && Names(x, id)
    {
      if id == k.id {
        assert k in keys - (rest - {k}) && Names(k, id);
      } else if x :| x in keys - (rest - {k}) && Names(x, id) {
        assert x in keys - rest;
      }
    }
  }

  lemma SameBytes(x: DbKey, y: DbKey)
    requires AtMost(Bytes(x), Bytes(y)) && AtMost(Bytes(y), Bytes(x))
    ensures x == y
  {
    KeyOrder();
    BytesInjective(x, y);
  }

  lemma ProgressVisited(keys: set<DbKey>, rest: set<DbKey>, item: FilterItem, seen: Option<set<EventId>>,
                        result: set<EventId>, x: DbKey)
    requires Progress(keys, rest, item, seen, result) && x in keys - rest
    ensures Visited(keys, item, x)
  {
    forall y | y in keys && AtMost(Bytes(y), Bytes(x))
      ensures GoesOn(item, y)
    {
      if y in rest {
        assert AtMost(Bytes(x), Bytes(y));
        SameBytes(x, y);
      }
    }
  }

  lemma VisitedProgress(keys: set<DbKey>, rest: set<DbKey>, item: FilterItem, x: DbKey)
    requires rest <= keys && (rest == {} || exists k :: IsFirst(rest, k) && !GoesOn(item, k))
    requires Visited(keys, item, x)
    ensures x in keys - rest
  {
    if rest != {} {
      var k :| IsFirst(rest, k) && !GoesOn(item, k);
      assert x in rest ==> AtMost(Bytes(k), Bytes(x));
    }
  }

  ghost predicate VisitedFor(keys: set<DbKey>, item: FilterItem, id: EventId) {
    exists k :: Visited(keys, item, k) && Names(k, id)
  }

  /** When the scan stops at a key, or runs out of keys, it has visited all there is to visit. */
  lemma ProgressEnds(keys: set<DbKey>, rest: set<DbKey>, item: FilterItem, seen: Option<set<EventId>>,
                     result: set<EventId>, id: EventId)
    requires Progress(keys, rest, item, seen, result)
    requires rest == {} || exists k :: IsFirst(rest, k) && !GoesOn(item, k)
    ensures id in result <==> (seen.Some? ==> id in seen.value) && VisitedFor(keys, item, id)
  {
    hide Visited;
    if x :| x in keys - rest && Names(x, id) {
      ProgressVisited(keys, rest, item, seen, result, x);
    } else if x :| Visited(keys, item, x) && Names(x, id) {
      VisitedProgress(keys, rest, item, x);
    }
  }

  /** A scan visits an event exactly when it is one that it is meant to find. */
  lemma ScanFinds(db: EventDb, events: Events, item: FilterItem, id: EventId)
    requires Consistent(db, events, {})
    ensures VisitedFor(Scanned(db, item), item, id) <==> id in events && Finds(item, events[id])
  {
    hide Visited, Scanned, Consistent;
    if item.SlotEnd? {
      forall k ensures !Visited(Scanned(db, item), item, k) {
        EndOnlyFindsNothing(db, events, item, k);
      }
    } else {
      ScanReaches(db, events, item, id);
    }
  }

  lemma ScanSelects(db: EventDb, events: Events, item: FilterItem, seen: Option<set<EventId>>, result: set<EventId>,
                    rest: set<DbKey>)
    requires Consistent(db, events, {})
    requires Progress(Scanned(db, item), rest, item, seen, result)
    requires rest == {} || exists k :: IsFirst(rest, k) && !GoesOn(item, k)
    ensures result == Selected(events, item, seen)
  {
    hide Progress, Scanned, VisitedFor, Consistent, GoesOn, IsFirst, Finds;
    forall id
      ensures id in result <==> id in Selected(events, item, seen)
    {
      ProgressEnds(Scanned(db, item), rest, item, seen, result, id);
      ScanFinds(db, events, item, id);
    }
  }

  /** Having found as many events as the earlier scans left, no key still to come adds another. */
  lemma NothingToAdd(db: EventDb, events: Events, item: FilterItem, seen: set<EventId>, result: set<EventId>,
                     rest: set<DbKey>)
    requires Consistent(db, events, {})
    requires Progress(Scanned(db, item), rest, item, Some(seen), result) && |result| == |seen|
    ensures result == Selected(events, item, Some(seen))
  {
    hide Scanned, Consistent, Finds, Visited;
    assert result <= seen;
    assert seen == result + (seen - result);
    assert result == seen;
    forall id | id in result
      ensures id in Selected(events, item, Some(seen))
    {
      var x :| x in Scanned(db, item) - rest && Names(x, id);
      ProgressVisited(Scanned(db, item), rest, item, Some(seen), result, x);
      ScanFinds(db, events, item, id);
    }
  }
}
