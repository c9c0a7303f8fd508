/**
What the database of the event cache holds for a given set of events, and how the write batches of
an insertion and of an eviction move it from one set of events to the next.
 */
module EventIndex {
  import opened ByteStrings
  import opened Wire
  import opened KeyLayout
  import opened EventKeys

  datatype Event = Event(
    id: EventId,
    callStack: seq<Address>,
    operation: Option<OperationId>,
    isError: bool,
    isFinal: bool,
    data: seq<Byte>)

  type Events = map<EventId, Event>

  function AttrsOf(e: Event): (r: seq<Attr>)
    ensures |r| <= 4
    ensures forall i, j :: 0 <= i < j < |r| ==> r[i] != r[j]
  {
    (if e.callStack != [] then [Emitter(e.callStack[|e.callStack| - 1])] else [])
    + (if e.callStack != [] then [Caller(e.callStack[0])] else [])
    + (if e.operation.Some? then [Operation(e.operation.value)] else [])
    + [Failed(e.isError)]
  }

  // ---------------------------------------------------------------- database and batches

  datatype Cell = AnEvent(event: Event) | Mark | Counter(n: nat)

  type EventDb = map<DbKey, Cell>

  function Lookup(db: EventDb, k: DbKey): Option<Cell> {
    if k in db then Some(db[k]) else None
  }

  datatype Op = Put(key: DbKey, cell: Cell) | Delete(key: DbKey) | Merge(key: DbKey, delta: int)

  /** The merge operator of the counters: a missing counter is zero, and a result never wraps. */
  function MergeCounter(existing: Option<Cell>, delta: int): Cell {
    var current := if existing.Some? && existing.value.Counter? then existing.value.n else 0;
    Counter(if current + delta < 0 then 0 else if current + delta >= U64_LIMIT then U64_LIMIT - 1 else current + delta)
  }

  /** A merge adds, and stops at zero and at the largest 64-bit number. */
  lemma MergeSaturates(existing: Option<Cell>, n: nat, delta: int)
    requires existing == Some(Counter(n)) || (n == 0 && existing.None?)
    ensures 0 <= n + delta < U64_LIMIT ==> MergeCounter(existing, delta) == Counter(n + delta)
    ensures n + delta < 0 ==> MergeCounter(existing, delta) == Counter(0)
    ensures n + delta >= U64_LIMIT ==> MergeCounter(existing, delta) == Counter(0xFFFF_FFFF_FFFF_FFFF)
  {
  }

  function ApplyOp(db: EventDb, op: Op): EventDb {
    match op
    case Put(k, cell) => db[k := cell]
    case Delete(k) => db - {k}
    case Merge(k, delta) => db[k := MergeCounter(Lookup(db, k), delta)]
  }

  /** A batch is applied atomically, its operations in order. */
  function CommitOps(db: EventDb, ops: seq<Op>): EventDb {
    if ops == [] then db else ApplyOp(CommitOps(db, ops[..|ops| - 1]), ops[|ops| - 1])
  }

  lemma {:induction false} CommitConcat(db: EventDb, a: seq<Op>, b: seq<Op>)
    ensures CommitOps(db, a + b) == CommitOps(CommitOps(db, a), b)
  {
    if b == [] {
      assert a + b == a;
    } else {
      CommitConcat(db, a, b[..|b| - 1]);
      assert (a + b)[..|a + b| - 1] == a + b[..|b| - 1];
    }
  }

  /** The index entry and the counter of each attribute of an event, written or removed. */
  function AttrOps(attrs: seq<Attr>, id: EventId, insert: bool): seq<Op> {
    if attrs == [] then []
    else
      var last := attrs[|attrs| - 1];
      AttrOps(attrs[..|attrs| - 1], id, insert)
      + [if insert then Put(IndexAt(last, id), Mark) else Delete(IndexAt(last, id)),
         Merge(CounterAt(last), if insert then 1 else -1)]
  }

  function InsertOps(e: Event): seq<Op> {
    [Put(EventAt(e.id), AnEvent(e))] + AttrOps(AttrsOf(e), e.id, true)
  }

  function RemoveOps(e: Event): seq<Op> {
    AttrOps(AttrsOf(e), e.id, false) + [Delete(EventAt(e.id))]
  }

  /** What the attribute operations make of one key. */
  function AfterAttrOps(db: EventDb, attrs: seq<Attr>, id: EventId, insert: bool, k: DbKey): Option<Cell> {
    match k
    case EventAt(_) => Lookup(db, k)
    case IndexAt(attr, x) => if attr in attrs && x == id then (if insert then Some(Mark) else None) else Lookup(db, k)
    case CounterAt(attr) =>
      if attr in attrs then Some(MergeCounter(Lookup(db, k), if insert then 1 else -1)) else Lookup(db, k)
  }

  lemma CommitTwo(db: EventDb, ops: seq<Op>, a: Op, b: Op)
    ensures CommitOps(db, ops + [a, b]) == ApplyOp(ApplyOp(CommitOps(db, ops), a), b)
  {
    var all := ops + [a, b];
    assert all[..|all| - 1] == ops + [a];
    assert (ops + [a])[..|ops + [a]| - 1] == ops;
  }

  lemma AttrStep(db: EventDb, attr: Attr, id: EventId, insert: bool, k: DbKey)
    ensures var index := if insert then Put(IndexAt(attr, id), Mark) else Delete(IndexAt(attr, id));
            var counter := Merge(CounterAt(attr), if insert then 1 else -1);
            Lookup(ApplyOp(ApplyOp(db, index), counter), k)
            == if k == IndexAt(attr, id) then (if insert then Some(Mark) else None)
               else if k == CounterAt(attr) then Some(MergeCounter(Lookup(db, k), if insert then 1 else -1))
               else Lookup(db, k)
  {
    hide MergeCounter;
  }

  lemma {:induction false} AttrOpsEffect(db: EventDb, attrs: seq<Attr>, id: EventId, insert: bool, k: DbKey)
    requires forall i, j :: 0 <= i < j < |attrs| ==> attrs[i] != attrs[j]
    ensures Lookup(CommitOps(db, AttrOps(attrs, id, insert)), k) == AfterAttrOps(db, attrs, id, insert, k)
  {
    hide CommitOps, ApplyOp, MergeCounter, Lookup;
    if attrs == [] {
      CommitNothing(db);
    } else {
      var init, last := attrs[..|attrs| - 1], attrs[|attrs| - 1];
      var ops := AttrOps(init, id, insert);
      AttrOpsEffect(db, init, id, insert, k);
      CommitTwo(db, ops, if insert then Put(IndexAt(last, id), Mark) else Delete(IndexAt(last, id)),
                Merge(CounterAt(last), if insert then 1 else -1));
      AttrStep(CommitOps(db, ops), last, id, insert, k);
      assert attrs == init + [last] && last !in init;
    }
  }

  lemma CommitNothing(db: EventDb)
    ensures CommitOps(db, []) == db
  {
  }

  // ---------------------------------------------------------------- consistency

  function Having(events: Events, attr: Attr): set<EventId> {
    set id | id in events && attr in AttrsOf(events[id])
  }

  /** What the database holds at `k`; the counters of `touched` attributes may be there at zero. */
  function Expected(events: Events, touched: set<Attr>, k: DbKey): Option<Cell> {
    match k
    case EventAt(id) => if id in events then Some(AnEvent(events[id])) else None
    case IndexAt(attr, id) => if id in Having(events, attr) then Some(Mark) else None
    case CounterAt(attr) =>
      var n := |Having(events, attr)|;
      if n > 0 || attr in touched then Some(Counter(n)) else None
  }

  ghost predicate Keyed(events: Events) {
    forall id :: id in events ==> events[id].id == id
  }

  /**
   Every index family is exactly the projection of the stored events, every counter is the number of
   stored events with its attribute, and there is nothing else in the database.
   */
  ghost predicate Consistent(db: EventDb, events: Events, touched: set<Attr>) {
    Keyed(events) && forall k :: Lookup(db, k) == Expected(events, touched, k)
  }

  lemma HavingInsert(events: Events, e: Event, attr: Attr)
    requires e.id !in events
    ensures Having(events[e.id := e], attr) == Having(events, attr) + (if attr in AttrsOf(e) then {e.id} else {})
    ensures e.id !in Having(events, attr)
  {
  }

  lemma HavingRemove(events: Events, id: EventId, attr: Attr)
    requires id in events
    ensures Having(events - {id}, attr) == Having(events, attr) - {id}
    ensures id in Having(events, attr) <==> attr in AttrsOf(events[id])
  {
  }

  lemma {:induction false} HavingBound(events: Events, attr: Attr)
    ensures |Having(events, attr)| <= |events|
  {
    assert Having(events, attr) <= events.Keys;
    assert events.Keys == Having(events, attr) + (events.Keys - Having(events, attr));
  }

  /** What the operations of an insertion make of one key. */
  lemma InsertOpsEffect(db: EventDb, e: Event, k: DbKey)
    ensures Lookup(CommitOps(db, InsertOps(e)), k)
         == if k == EventAt(e.id) then Some(AnEvent(e)) else AfterAttrOps(db, AttrsOf(e), e.id, true, k)
  {
    hide AttrsOf, MergeCounter, AttrOps;
    var put := [Put(EventAt(e.id), AnEvent(e))];
    CommitConcat(db, put, AttrOps(AttrsOf(e), e.id, true));
    assert put[..0] == [];
    var db' := CommitOps(db, put);
    assert db' == db[EventAt(e.id) := AnEvent(e)];
    AttrOpsEffect(db', AttrsOf(e), e.id, true, k);
  }

  lemma InsertedKey(db: EventDb, events: Events, e: Event, k: DbKey)
    requires Consistent(db, events, {}) && e.id !in events && |events| + 1 < U64_LIMIT
    ensures Lookup(CommitOps(db, InsertOps(e)), k) == Expected(events[e.id := e], {}, k)
  {
    hide AttrsOf, Having, MergeCounter, CommitOps, InsertOps, Lookup;
    InsertOpsEffect(db, e, k);
    assert Lookup(db, k) == Expected(events, {}, k);
    if !k.EventAt? {
      HavingInsert(events, e, k.attr);
      HavingBound(events, k.attr);
      if k.CounterAt? {
        MergeSaturates(Lookup(db, k), |Having(events, k.attr)|, 1);
      }
    }
  }

  /** Inserting an event under a fresh key keeps the database consistent. */
  lemma InsertConsistent(db: EventDb, events: Events, e: Event)
    requires Consistent(db, events, {}) && e.id !in events && |events| + 1 < U64_LIMIT
    ensures Consistent(CommitOps(db, InsertOps(e)), events[e.id := e], {})
  {
    forall k
      ensures Lookup(CommitOps(db, InsertOps(e)), k) == Expected(events[e.id := e], {}, k)
    {
      InsertedKey(db, events, e, k);
    }
  }

  lemma RemovedKey(db: EventDb, events: Events, id: EventId, touched: set<Attr>, k: DbKey)
    requires Consistent(db, events, touched) && id in events && |events| < U64_LIMIT
    ensures Lookup(CommitOps(db, RemoveOps(events[id])), k)
         == Expected(events - {id}, touched + (set a | a in AttrsOf(events[id])), k)
  {
    hide AttrsOf, Having, MergeCounter;
    var e := events[id];
    var ops := AttrOps(AttrsOf(e), id, false);
    CommitConcat(db, ops, [Delete(EventAt(id))]);
    AttrOpsEffect(db, AttrsOf(e), id, false, k);
    var db' := CommitOps(db, ops);
    assert [Delete(EventAt(id))][..0] == [];
    assert CommitOps(db', [Delete(EventAt(id))]) == db' - {EventAt(id)};
    if !k.EventAt? {
      HavingRemove(events, id, k.attr);
      HavingBound(events, k.attr);
      if k.CounterAt? {
        assert Lookup(db, k) == Expected(events, touched, k);
        MergeSaturates(Lookup(db, k), |Having(events, k.attr)|, -1);
      }
    }
  }

  /** Removing an event leaves at most some counters at zero, those of its own attributes. */
  lemma RemoveConsistent(db: EventDb, events: Events, id: EventId, touched: set<Attr>)
    requires Consistent(db, events, touched) && id in events && |events| < U64_LIMIT
    ensures Consistent(CommitOps(db, RemoveOps(events[id])), events - {id},
                       touched + (set a | a in AttrsOf(events[id])))
  {
    forall k
      ensures Lookup(CommitOps(db, RemoveOps(events[id])), k)
           == Expected(events - {id}, touched + (set a | a in AttrsOf(events[id])), k)
    {
      RemovedKey(db, events, id, touched, k);
    }
  }

  /** Deleting the counters that are at zero restores consistency. */
  lemma SweepConsistent(db: EventDb, swept: EventDb, events: Events, touched: set<Attr>)
    requires Consistent(db, events, touched)
    requires forall k :: Lookup(swept, k) ==
                         if k.CounterAt? && k.attr in touched && Lookup(db, k) == Some(Counter(0)) then None
                         else Lookup(db, k)
    ensures Consistent(swept, events, {})
  {
    hide Having;
  }

  lemma EmptyConsistent()
    ensures Consistent(map[], map[], {})
  {
    forall attr ensures Having(map[], attr) == {} {
    }
  }
}
