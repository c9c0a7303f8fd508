/**
The event cache: insertions, evictions of the oldest events, and queries that intersect index
scans. The plain filter over the stored events is what a query has to agree with.
 */
module EventCache {
  import opened ByteStrings
  import opened Slots
  import opened Wire
  import opened KeyLayout
  import opened EventKeys
  import opened EventIndex
  import opened EventQuery

  // ---------------------------------------------------------------- eviction

  /** `removed` is the `n` oldest of the events, or all of them if there are fewer. */
  ghost predicate Oldest(events: Events, removed: set<EventId>, n: nat) {
    && removed <= events.Keys
    && |removed| == (if |events| <= n then |events| else n)
    && forall a, b :: a in removed && b in events && b !in removed ==> IdBefore(a, b)
  }

  lemma OldestNone(events: Events)
    ensures Oldest(events, {}, 0)
  {
  }

  lemma OldestCount(events: Events, removed: set<EventId>, n: nat)
    requires Oldest(events, removed, n)
    ensures |removed| == if |events| <= n then |events| else n
  {
  }

  /** All events are final, and none is after `last`. */
  ghost predicate FinalUpTo(events: Events, last: Slot) {
    forall id :: id in events ==> events[id].isFinal && NotAfter(id.slot, last)
  }

  lemma FinalWithout(events: Events, removed: set<EventId>, last: Slot)
    requires FinalUpTo(events, last)
    ensures FinalUpTo(events - removed, last)
    ensures events - removed == map[] ==> FinalUpTo(events - removed, Slot(0, 0))
  {
  }

  lemma FinalWith(events: Events, e: Event, last: Slot, next: Slot)
    requires FinalUpTo(events, last) && NotAfter(last, next) && e.isFinal && NotAfter(e.id.slot, next)
    ensures FinalUpTo(events[e.id := e], next)
  {
  }

  lemma LaterOf(a: Slot, b: Slot)
    ensures var later := if Before(a, b) then b else a; NotAfter(a, later) && NotAfter(b, later)
  {
  }

  /** The events after adding a batch in order. */
  function Added(events: Events, batch: seq<Event>): Events {
    if batch == [] then events
    else Added(events, batch[..|batch| - 1])[batch[|batch| - 1].id := batch[|batch| - 1]]
  }

  ghost predicate FreshBatch(events: Events, batch: seq<Event>) {
    && (forall e :: e in batch ==> e.id !in events && e.isFinal)
    && forall i, j :: 0 <= i < j < |batch| ==> batch[i].id != batch[j].id
  }

  lemma {:induction false} AddedElsewhere(events: Events, batch: seq<Event>, id: EventId)
    requires forall e :: e in batch ==> e.id != id
    ensures id in Added(events, batch) <==> id in events
  {
    if batch != [] {
      AddedElsewhere(events, batch[..|batch| - 1], id);
      assert batch[|batch| - 1] in batch;
    }
  }

  lemma FreshLast(events: Events, batch: seq<Event>)
    requires FreshBatch(events, batch) && batch != []
    ensures FreshBatch(events, batch[..|batch| - 1])
    ensures batch[|batch| - 1].id !in Added(events, batch[..|batch| - 1])
  {
    var init, last := batch[..|batch| - 1], batch[|batch| - 1];
    assert last in batch;
    assert forall e :: e in init ==> e in batch;
    AddedElsewhere(events, init, last.id);
  }

  lemma FreshWithout(events: Events, removed: set<EventId>, batch: seq<Event>)
    requires FreshBatch(events, batch)
    ensures FreshBatch(events - removed, batch)
  {
  }

  lemma {:induction false} AddedSize(events: Events, batch: seq<Event>)
    requires FreshBatch(events, batch)
    ensures |Added(events, batch)| == |events| + |batch|
  {
    if batch != [] {
      FreshLast(events, batch);
      AddedSize(events, batch[..|batch| - 1]);
    }
  }

  lemma {:induction false} AddedFinal(events: Events, batch: seq<Event>, last: Slot, next: Slot)
    requires FreshBatch(events, batch) && FinalUpTo(events, last) && NotAfter(last, next)
    requires forall e :: e in batch ==> NotAfter(e.id.slot, next)
    ensures FinalUpTo(Added(events, batch), next)
  {
    hide FinalUpTo;
    if batch == [] {
      LaterBound(events, last, next);
    } else {
      var init, e := batch[..|batch| - 1], batch[|batch| - 1];
      FreshLast(events, batch);
      assert e in batch && forall x :: x in init ==> x in batch;
      AddedFinal(events, init, last, next);
      FinalWith(Added(events, init), e, next, next);
    }
  }

  lemma LaterBound(events: Events, last: Slot, next: Slot)
    requires FinalUpTo(events, last) && NotAfter(last, next)
    ensures FinalUpTo(events, next)
  {
  }

  function InsertBatchOps(batch: seq<Event>): seq<Op> {
    if batch == [] then [] else InsertBatchOps(batch[..|batch| - 1]) + InsertOps(batch[|batch| - 1])
  }

  lemma {:induction false} InsertBatchConsistent(db: EventDb, events: Events, batch: seq<Event>)
    requires Consistent(db, events, {}) && FreshBatch(events, batch) && |events| + |batch| < U64_LIMIT
    ensures Consistent(CommitOps(db, InsertBatchOps(batch)), Added(events, batch), {})
  {
    hide Consistent;
    if batch != [] {
      var init, last := batch[..|batch| - 1], batch[|batch| - 1];
      FreshLast(events, batch);
      InsertBatchConsistent(db, events, init);
      AddedSize(events, init);
      CommitConcat(db, InsertBatchOps(init), InsertOps(last));
      InsertConsistent(CommitOps(db, InsertBatchOps(init)), Added(events, init), last);
    }
  }

  lemma EventFamily(db: EventDb, events: Events, k: DbKey)
    requires Consistent(db, events, {}) && k in db
    ensures StartsWith(Bytes(k), [EVENT_INDENT]) <==> k.EventAt?
    ensures k.EventAt? ==> k.id in events && db[k] == AnEvent(events[k.id]) && events[k.id].id == k.id
  {
    FirstByte(k);
    assert Bytes(k)[..1] == [Bytes(k)[0]];
    assert Lookup(db, k) == Expected(events, {}, k);
  }

  class EventCache {
    const maxEntryCount: nat
    const snipAmount: nat
    const maxEventsPerQuery: nat
    const threadCount: nat
    const maxEventsPerSlot: nat
    var db: EventDb
    var entryCount: nat
    var firstSlot: Slot
    var lastSlot: Slot
    ghost var events: Events

    ghost predicate Valid()
      reads this
    {
      && Consistent(db, events, {})
      && entryCount == |events| < U64_LIMIT
      && FinalUpTo(events, lastSlot)
    }

    constructor (maxEntryCount: nat, snipAmount: nat, maxEventsPerQuery: nat, threadCount: nat, maxEventsPerSlot: nat)
      ensures Valid() && events == map[]
      ensures this.maxEntryCount == maxEntryCount && this.snipAmount == snipAmount
      ensures this.maxEventsPerQuery == maxEventsPerQuery
    {
      this.maxEntryCount, this.snipAmount, this.maxEventsPerQuery := maxEntryCount, snipAmount, maxEventsPerQuery;
      this.threadCount, this.maxEventsPerSlot := threadCount, maxEventsPerSlot;
      db, events, entryCount := map[], map[], 0;
      firstSlot, lastSlot := Slot(0, 0), Slot(0, 0);
      new;
      EmptyConsistent();
    }

    /** The batch that removes the oldest events, and the attributes whose counters it lowers. */
    method CollectOldest(amount: nat)
      returns (batch: seq<Op>, touched: set<Attr>, snipped: nat, ghost removed: set<EventId>)
      requires Valid()
      ensures Oldest(events, removed, amount) && snipped == |removed|
      ensures Consistent(CommitOps(db, batch), events - removed, touched)
    {
      hide Consistent, CommitOps, RemoveOps, AttrsOf, First, Split;
      batch, touched, snipped, removed := [], {}, 0, {};
      CommitNothing(db);
      assert events - {} == events;
      var rest := db.Keys;
      SplitStarts(db, events);
      while snipped < amount && rest != {}
        invariant rest <= db.Keys && snipped <= amount
        invariant snipped == |removed| && Split(events, removed, rest)
        invariant Consistent(CommitOps(db, batch), events - removed, touched)
        decreases |rest|
      {
        var k := First(rest);
        EventFamily(db, events, k);
        SplitStep(events, removed, rest, k);
        rest := rest - {k};
        if !StartsWith(Bytes(k), [EVENT_INDENT]) {
          continue;
        }
        var event := db[k].event;
        RemoveNext(db, events, removed, batch, touched, k.id);
        batch := batch + RemoveOps(event);
        touched := touched + (set a | a in AttrsOf(event));
        snipped := snipped + 1;
        removed := removed + {k.id};
      }
      SplitEnds(events, removed, amount, rest);
    }

    /** Deletes the counters that an eviction left at zero. */
    method SweepCounters(touched: set<Attr>)
      requires Consistent(db, events, touched)
      modifies this`db
      ensures Consistent(db, events, {})
    {
      var rest := touched;
      ghost var before := db;
      while rest != {}
        invariant rest <= touched
        invariant forall k ::
                    Lookup(db, k) ==
                    if k.CounterAt? && k.attr in touched - rest && Lookup(before, k) == Some(Counter(0)) then None
                    else Lookup(before, k)
      {
        var attr :| attr in rest;
        rest := rest - {attr};
        if Lookup(db, CounterAt(attr)) == Some(Counter(0)) {
          db := db - {CounterAt(attr)};
        }
      }
      SweepConsistent(before, db, events, touched);
    }

    /** Evicts the oldest events. */
    method Snip(amount: Option<nat>) returns (ghost removed: set<EventId>)
      requires Valid()
      modifies this
      ensures Valid()
      ensures Oldest(old(events), removed, if amount.Some? then amount.value else snipAmount)
      ensures events == old(events) - removed
      ensures entryCount == old(entryCount) - |removed|
      ensures events == map[] ==> firstSlot == lastSlot == Slot(0, 0)
      ensures events != map[] ==>
                lastSlot == old(lastSlot) && exists id :: id in events && id.slot == firstSlot && IsEarliest(events, id)
    {
      hide Consistent, CommitOps, First, FinalUpTo;
      var n := if amount.Some? then amount.value else snipAmount;
      var batch, touched, snipped;
      batch, touched, snipped, removed := CollectOldest(n);
      RemainingCount(events, removed);
      FinalWithout(events, removed, lastSlot);
      db := CommitOps(db, batch);
      events := events - removed;
      entryCount := entryCount - snipped;
      SweepCounters(touched);
      if entryCount == 0 {
        firstSlot, lastSlot := Slot(0, 0), Slot(0, 0);
      } else {
        var found := set k | k in db && AtMost([EVENT_INDENT], Bytes(k));
        FirstEvent(db, events, found);
        firstSlot := db[First(found)].event.id.slot;
      }
    }

    /** The write batch of one event, which also moves the last slot forward. */
    method InsertIntoBatch(event: Event, batch: seq<Op>) returns (extended: seq<Op>)
      modifies this`lastSlot
      ensures extended == batch + InsertOps(event)
      ensures lastSlot == if Before(old(lastSlot), event.id.slot) then event.id.slot else old(lastSlot)
    {
      extended := batch + [Put(EventAt(event.id), AnEvent(event))];
      var attrs := AttrsOf(event);
      for i := 0 to |attrs|
        invariant extended == batch + [Put(EventAt(event.id), AnEvent(event))] + AttrOps(attrs[..i], event.id, true)
      {
        assert attrs[..i + 1][..i] == attrs[..i];
        extended := extended + [Put(IndexAt(attrs[i], event.id), Mark), Merge(CounterAt(attrs[i]), 1)];
      }
      assert attrs[..|attrs|] == attrs;
      if Before(lastSlot, event.id.slot) {
        lastSlot := event.id.slot;
      }
    }

    /** Adds one event, after an eviction if the cache is full. */
    method Insert(event: Event) returns (ghost removed: set<EventId>)
      requires Valid() && event.id !in events && event.isFinal && |events| + 1 < U64_LIMIT
      modifies this
      ensures Valid()
      ensures Oldest(old(events), removed, if old(entryCount) >= maxEntryCount then snipAmount else 0)
      ensures events == (old(events) - removed)[event.id := event]
      ensures old(entryCount) <= maxEntryCount ==>
                (entryCount <= maxEntryCount <==>
                 old(entryCount) < maxEntryCount || (snipAmount > 0 && old(entryCount) > 0))
      ensures var before := if old(entryCount) >= maxEntryCount && old(events) - removed == map[] then Slot(0, 0)
                            else old(lastSlot);
              lastSlot == if Before(before, event.id.slot) then event.id.slot else before
    {
      hide Consistent, CommitOps, InsertOps, Oldest, IsEarliest, FinalUpTo, Before;
      removed := {};
      OldestNone(events);
      if entryCount >= maxEntryCount {
        removed := Snip(None);
        OldestCount(old(events), removed, snipAmount);
      } else {
        assert events - {} == events;
      }
      ghost var last := lastSlot;
      var batch := InsertIntoBatch(event, []);
      assert [] + InsertOps(event) == InsertOps(event);
      InsertConsistent(db, events, event);
      LaterOf(last, event.id.slot);
      FinalWith(events, event, last, lastSlot);
      db := CommitOps(db, batch);
      events := events[event.id := event];
      entryCount := entryCount + 1;
    }

    method CollectInserts(batch: seq<Event>) returns (ops: seq<Op>)
      modifies this`lastSlot
      ensures ops == InsertBatchOps(batch)
      ensures NotAfter(old(lastSlot), lastSlot) && forall e :: e in batch ==> NotAfter(e.id.slot, lastSlot)
      ensures lastSlot == old(lastSlot) || exists e :: e in batch && e.id.slot == lastSlot
    {
      hide InsertOps;
      ops := [];
      for i := 0 to |batch|
        invariant ops == InsertBatchOps(batch[..i])
        invariant NotAfter(old(lastSlot), lastSlot)
        invariant forall j :: 0 <= j < i ==> NotAfter(batch[j].id.slot, lastSlot)
        invariant lastSlot == old(lastSlot) || exists e :: e in batch && e.id.slot == lastSlot
      {
        assert batch[..i + 1][..i] == batch[..i];
        ops := InsertIntoBatch(batch[i], ops);
      }
      assert batch[..|batch|] == batch;
    }

    /** Adds a batch of events, after an eviction if the cache would be full. */
    method InsertMulti(batch: seq<Event>) returns (ghost removed: set<EventId>)
      requires Valid() && FreshBatch(events, batch) && |events| + |batch| < U64_LIMIT
      modifies this
      ensures Valid()
      ensures Oldest(old(events), removed, if old(entryCount) + |batch| < maxEntryCount then 0
                                           else if snipAmount > |batch| then snipAmount else |batch|)
      ensures events == Added(old(events) - removed, batch)
      ensures old(entryCount) <= maxEntryCount ==> (entryCount <= maxEntryCount <==> |batch| <= maxEntryCount)
    {
      hide Consistent, CommitOps, InsertBatchOps, FreshBatch, Added, Oldest, IsEarliest, FinalUpTo;
      removed := {};
      OldestNone(events);
      assert events - {} == events;
      if entryCount + |batch| >= maxEntryCount {
        var n := if snipAmount > |batch| then snipAmount else |batch|;
        removed := Snip(Some(n));
        OldestCount(old(events), removed, n);
      }
      FreshWithout(old(events), removed, batch);
      ghost var last := lastSlot;
      var ops := CollectInserts(batch);
      InsertBatchConsistent(db, events, batch);
      AddedSize(events, batch);
      AddedFinal(events, batch, last, lastSlot);
      db := CommitOps(db, ops);
      events := Added(events, batch);
      entryCount := entryCount + |batch|;
    }

    /** One index scan, intersected with what earlier scans have left. */
    method FilterFor(item: FilterItem, seen: Option<set<EventId>>) returns (result: set<EventId>)
      requires Valid()
      ensures result == Selected(events, item, seen)
    {
      hide Consistent, Progress, Selected, GoesOn, First, Scanned;
      result := {};
      var rest := Scanned(db, item);
      ProgressStarts(rest, item, seen);
      while rest != {}
        invariant Progress(Scanned(db, item), rest, item, seen, result)
        decreases |rest|
      {
        var k := First(rest);
        if !GoesOn(item, k) {
          break;
        }
        ProgressStep(Scanned(db, item), rest, item, seen, result, k);
        rest := rest - {k};
        var found := k.id;
        if seen.Some? {
          if found in seen.value {
            result := result + {found};
          }
          if |seen.value| == |result| {
            NothingToAdd(db, events, item, seen.value, result, rest);
            return;
          }
        } else {
          result := result + {found};
        }
      }
      ScanSelects(db, events, item, seen, result, rest);
    }

    /** How many keys a scan is expected to visit. */
    function Estimate(item: FilterItem): nat
      reads this
    {
      match item
      case SlotStart(start) => SlotsEstimate(lastSlot, start)
      case SlotStartEnd(start, end) => SlotsEstimate(end, start)
      case SlotEnd(end) => SlotsEstimate(end, firstSlot)
      case ByAttr(attr) =>
        var counter := Lookup(db, CounterAt(attr));
        if counter.Some? && counter.value.Counter? then counter.value.n else 0
    }

    function SlotsEstimate(end: Slot, start: Slot): nat {
      if Before(end, start) then 0
      else
        var slots := (end.period - start.period) * threadCount + end.thread;
        var since := if slots >= U64_LIMIT || slots < start.thread then 0 else slots - start.thread;
        if since * maxEventsPerSlot < U64_LIMIT then since * maxEventsPerSlot else U64_LIMIT - 1
    }

    /** The estimate for an attribute is the number of stored events that have it. */
    lemma EstimateCounts(attr: Attr)
      requires Valid()
      ensures Estimate(ByAttr(attr)) == |set id | id in events && attr in AttrsOf(events[id])|
    {
      hide AttrsOf;
      assert Lookup(db, CounterAt(attr)) == Expected(events, {}, CounterAt(attr));
      assert Having(events, attr) == set id | id in events && attr in AttrsOf(events[id]);
    }

    /** A range with more slots than 64 bits count is estimated as empty. */
    lemma EstimateOverflows(start: KeySlot, end: KeySlot)
      requires NotAfter(start, end) && (end.period - start.period) * threadCount + end.thread >= U64_LIMIT
      ensures Estimate(SlotStartEnd(start, end)) == 0
    {
    }

    /** Estimates for ranges, open ends being the last and the first slot of the cache. */
    lemma EstimateOfRange(start: KeySlot, end: KeySlot)
      requires start.thread < threadCount && end.thread < threadCount && SlotNumber(end, threadCount) < U64_LIMIT
      ensures Estimate(SlotStartEnd(start, end)) == SlotsTimes(start, end, threadCount, maxEventsPerSlot)
      ensures end == lastSlot ==> Estimate(SlotStart(start)) == SlotsTimes(start, end, threadCount, maxEventsPerSlot)
      ensures start == firstSlot ==> Estimate(SlotEnd(end)) == SlotsTimes(start, end, threadCount, maxEventsPerSlot)
    {
      hide SlotNumber;
      if Before(end, start) {
        SlotsOrdered(start, end, threadCount);
      } else {
        SlotsBetween(start, end, threadCount);
      }
    }

    predicate Cheaper(a: FilterItem, b: FilterItem)
      reads this
    {
      Estimate(a) < Estimate(b) || (Estimate(a) == Estimate(b) && ItemIndent(a) < ItemIndent(b))
    }

    /** The scan to do next: the one with the lowest estimate. */
    method Cheapest(items: set<FilterItem>) returns (item: FilterItem)
      requires items != {}
      ensures item in items
      ensures forall x :: x in items ==>
                Estimate(item) < Estimate(x) || (Estimate(item) == Estimate(x) && ItemIndent(item) <= ItemIndent(x))
    {
      hide Estimate;
      item :| item in items;
      var rest := items - {item};
      while rest != {}
        invariant item in items && rest <= items
        invariant forall x :: x in items - rest ==> !Cheaper(x, item)
      {
        var x :| x in rest;
        ghost var before := item;
        rest := rest - {x};
        if Cheaper(x, item) {
          item := x;
        }
        assert forall y :: y in items - rest ==> y == x || (y in items - (rest + {x}) && !Cheaper(y, before));
      }
      assert forall x :: x in items ==> x in items - rest && !Cheaper(x, item);
    }

    /** Runs the scans of a plan from the cheapest on, each narrowing what the others found. */
    method Intersect(items: set<FilterItem>) returns (found: set<EventId>)
      requires Valid() && items != {}
      ensures found == FoundByAll(events, items)
    {
      hide Consistent, Selected, Estimate, Finds;
      var item := Cheapest(items);
      found := FilterFor(item, None);
      var rest := items - {item};
      FoundByOne(events, item);
      assert items - rest == {item};
      while rest != {}
        invariant rest <= items && found == FoundByAll(events, items - rest)
        decreases |rest|
      {
        item := Cheapest(rest);
        FoundByMore(events, items - rest, item);
        assert items - (rest - {item}) == items - rest + {item};
        rest := rest - {item};
        found := FilterFor(item, Some(found));
      }
      assert items - rest == items;
    }

    /**
     A query returns the first events, in the order of slot and index, that the plain filter accepts;
     a query with an end but no start returns nothing, so it agrees only where there is nothing.
     */
    method GetFilteredEvents(f: EventFilter) returns (r: seq<Event>)
      requires Valid()
      ensures (f.end.Some? ==> f.start.Some?) ==> r == Listing(events, AcceptedIds(events, f), maxEventsPerQuery)
      ensures r == Listing(events, AcceptedIds(events, f), maxEventsPerQuery) <==>
              (f.end.Some? ==> f.start.Some?) || AcceptedIds(events, f) == {} || maxEventsPerQuery == 0
    {
      hide Consistent, FoundByAll, Listing, PlanSet;
      r := [];
      ListingEmpty(events, AcceptedIds(events, f), maxEventsPerQuery);
      if f.isFinal == Some(false) {
        assert AcceptedIds(events, f) == {};
        return;
      }
      var found := Intersect(PlanSet(f));
      PlanFinds(events, f);
      ListingEmpty(events, found, maxEventsPerQuery);
      r := ListEvents(found);
    }

    /** The values of the first keys found, in order. */
    method ListEvents(found: set<EventId>) returns (r: seq<Event>)
      requires Valid() && found <= events.Keys
      ensures r == Listing(events, found, maxEventsPerQuery)
    {
      hide Consistent, FinalUpTo;
      r := [];
      var rest := found;
      while rest != {} && |r| < maxEventsPerQuery
        invariant rest <= found && |r| <= maxEventsPerQuery
        invariant r + Listing(events, rest, maxEventsPerQuery - |r|) == Listing(events, found, maxEventsPerQuery)
        decreases |rest|
      {
        var id := FirstId(rest);
        StoredEvent(db, events, id);
        rest := rest - {id};
        r := r + [db[EventAt(id)].event];
      }
    }
  }

  lemma StoredEvent(db: EventDb, events: Events, id: EventId)
    requires Consistent(db, events, {}) && id in events
    ensures EventAt(id) in db && db[EventAt(id)] == AnEvent(events[id])
  {
    assert Lookup(db, EventAt(id)) == Expected(events, {}, EventAt(id));
  }

  /** The number of a slot when slots are counted from the first one on. */
  function SlotNumber(s: Slot, threadCount: nat): nat {
    s.period * threadCount + s.thread
  }

  /** The number of slots of a range times a number for each, saturated at 64 bits. */
  function SlotsTimes(start: Slot, end: Slot, threadCount: nat, each: nat): nat {
    if SlotNumber(end, threadCount) < SlotNumber(start, threadCount) then 0
    else
      var product := (SlotNumber(end, threadCount) - SlotNumber(start, threadCount)) * each;
      if product < U64_LIMIT then product else U64_LIMIT - 1
  }

  lemma SlotsOrdered(start: Slot, end: Slot, threadCount: nat)
    requires start.thread < threadCount && end.thread < threadCount && Before(end, start)
    ensures SlotNumber(end, threadCount) < SlotNumber(start, threadCount)
  {
    var periods: nat := start.period - end.period;
    assert start.period * threadCount == end.period * threadCount + periods * threadCount;
    assert periods >= 1 ==> periods * threadCount >= threadCount;
  }

  lemma SlotsBetween(start: Slot, end: Slot, threadCount: nat)
    requires start.thread < threadCount && end.thread < threadCount && NotAfter(start, end)
    ensures var slots := (end.period - start.period) * threadCount + end.thread;
            && slots <= SlotNumber(end, threadCount)
            && slots - start.thread == SlotNumber(end, threadCount) - SlotNumber(start, threadCount) >= 0
  {
    var periods: nat := end.period - start.period;
    assert end.period * threadCount == start.period * threadCount + periods * threadCount;
    assert periods >= 1 ==> periods * threadCount >= threadCount;
  }

  /** The events not removed are still to come, and the removed ones came before them. */
  ghost predicate Split(events: Events, removed: set<EventId>, rest: set<DbKey>) {
    && removed <= events.Keys
    && (forall id :: id in events && id !in removed <==> EventAt(id) in rest)
    && forall a, b :: a in removed && EventAt(b) in rest ==> IdBefore(a, b)
  }

  lemma SplitStarts(db: EventDb, events: Events)
    requires Consistent(db, events, {})
    ensures Split(events, {}, db.Keys)
  {
    forall id
      ensures id in events <==> EventAt(id) in db
    {
      assert Lookup(db, EventAt(id)) == Expected(events, {}, EventAt(id));
    }
  }

  /** An event that an iterator yields comes before every event it has still to yield. */
  lemma SplitStep(events: Events, removed: set<EventId>, rest: set<DbKey>, k: DbKey)
    requires Split(events, removed, rest) && IsFirst(rest, k)
    ensures if k.EventAt? then k.id !in removed && Split(events, removed + {k.id}, rest - {k})
            else Split(events, removed, rest - {k})
  {
    if k.EventAt? {
      forall b | EventAt(b) in rest - {k}
        ensures IdBefore(k.id, b)
      {
        EventOrder(k.id, b);
        assert AtMost(Bytes(k), Bytes(EventAt(b)));
      }
    }
  }

  lemma RemoveNext(db: EventDb, events: Events, removed: set<EventId>, batch: seq<Op>, touched: set<Attr>, id: EventId)
    requires Consistent(CommitOps(db, batch), events - removed, touched)
    requires id in events && id !in removed && |events| < U64_LIMIT
    ensures Consistent(CommitOps(db, batch + RemoveOps(events[id])), events - (removed + {id}),
                       touched + (set a | a in AttrsOf(events[id])))
  {
    hide Consistent, CommitOps, RemoveOps, AttrsOf;
    CommitConcat(db, batch, RemoveOps(events[id]));
    assert (events - removed)[id] == events[id];
    assert events.Keys == (events - removed).Keys + (events.Keys * removed);
    assert events - removed - {id} == events - (removed + {id});
    RemoveConsistent(CommitOps(db, batch), events - removed, id, touched);
  }

  lemma SplitEnds(events: Events, removed: set<EventId>, amount: nat, rest: set<DbKey>)
    requires Split(events, removed, rest) && |removed| <= amount
    requires |removed| >= amount || rest == {}
    ensures Oldest(events, removed, amount)
  {
    assert events.Keys == removed + (events.Keys - removed);
    if rest == {} {
      assert events.Keys == removed;
    }
  }

  ghost predicate IsEarliest(events: Events, id: EventId) {
    forall x :: x in events && x != id ==> IdBefore(id, x)
  }

  lemma RemainingCount(events: Events, removed: set<EventId>)
    requires removed <= events.Keys
    ensures |events - removed| == |events| - |removed|
  {
    assert events.Keys == removed + (events - removed).Keys;
  }

  /** The first key at or after the event prefix is the earliest event. */
  lemma FirstEvent(db: EventDb, events: Events, found: set<DbKey>)
    requires Consistent(db, events, {}) && events != map[]
    requires found == set k | k in db && AtMost([EVENT_INDENT], Bytes(k))
    ensures found != {} && First(found).EventAt? && First(found).id in events
    ensures db[First(found)] == AnEvent(events[First(found).id]) && events[First(found).id].id == First(found).id
    ensures IsEarliest(events, First(found).id)
  {
    forall id | id in events
      ensures EventAt(id) in found
    {
      assert Lookup(db, EventAt(id)) == Expected(events, {}, EventAt(id));
      FirstByte(EventAt(id));
      assert Bytes(EventAt(id))[..1] == [EVENT_INDENT];
      PrefixIsFirst(Bytes(EventAt(id)), [EVENT_INDENT]);
    }
    var some :| some in events;
    assert EventAt(some) in found;
    var k := First(found);
    FirstByte(k);
    FirstByte(EventAt(some));
    SortsByFirstByte([EVENT_INDENT], Bytes(k));
    SortsByFirstByte(Bytes(k), Bytes(EventAt(some)));
    EventFamily(db, events, k);
    forall x | x in events && x != k.id
      ensures IdBefore(k.id, x)
    {
      EventOrder(k.id, x);
      assert AtMost(Bytes(k), Bytes(EventAt(x)));
    }
  }

  // ---------------------------------------------------------------- queries

  lemma ProgressStarts(keys: set<DbKey>, item: FilterItem, seen: Option<set<EventId>>)
    ensures Progress(keys, keys, item, seen, {})
  {
    assert keys - keys == {};
  }

  ghost function FoundByAll(events: Events, items: set<FilterItem>): set<EventId> {
    set id | id in events && forall item :: item in items ==> Finds(item, events[id])
  }

  lemma FoundByOne(events: Events, item: FilterItem)
    ensures Selected(events, item, None) == FoundByAll(events, {item})
  {
  }

  lemma FoundByMore(events: Events, items: set<FilterItem>, item: FilterItem)
    ensures Selected(events, item, Some(FoundByAll(events, items))) == FoundByAll(events, items + {item})
  {
    forall id
      ensures id in Selected(events, item, Some(FoundByAll(events, items))) <==>
              id in FoundByAll(events, items + {item})
    {
      if id in FoundByAll(events, items + {item}) {
        assert item in items + {item};
        assert forall x :: x in items ==> x in items + {item};
      }
    }
  }

  function PlanSet(f: EventFilter): (items: set<FilterItem>)
    ensures items != {}
  {
    var items := set item | item in Plan(f);
    assert Plan(f)[0] in items;
    items
  }

  lemma ListingEmpty(events: Events, ids: set<EventId>, max: nat)
    requires ids <= events.Keys
    ensures Listing(events, ids, max) == [] <==> ids == {} || max == 0
  {
  }

  lemma PlanFinds(events: Events, f: EventFilter)
    requires (forall id :: id in events ==> events[id].isFinal) && f.isFinal != Some(false)
    ensures FoundByAll(events, PlanSet(f)) == if f.end.Some? && f.start.None? then {} else AcceptedIds(events, f)
  {
    if f.end.Some? && f.start.None? {
      EndOnlyPlan(f);
      assert SlotEnd(f.end.value) in PlanSet(f);
    } else {
      forall id | id in events
        ensures Accepts(f, events[id]) <==> forall item :: item in PlanSet(f) ==> Finds(item, events[id])
      {
        PlanMeans(f, events[id]);
      }
    }
  }

  lemma EndOnlyPlan(f: EventFilter)
    requires f.end.Some? && f.start.None?
    ensures SlotEnd(f.end.value) in Plan(f)
  {
    assert Plan(f)[0] == SlotEnd(f.end.value);
  }
}
