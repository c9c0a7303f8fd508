/**
The pool of asynchronous messages: one database entry per field of a message, and a cache in memory
that has to agree with what is in the database, whether it is updated change by change or rebuilt
by a scan that jumps from one message to the next.
 */
module AsyncPool {
  import opened ByteStrings
  import opened Columns
  import opened Wire
  import opened DbModel
  import opened KeyLayout
  import opened Codecs
  import opened FieldStore
  import opened AsyncMessages
  import MassaDb

  // ---------------------------------------------------------------- keys

  type Denominator = n: U64 | n > 0 witness 1

  datatype MessageId = MessageId(numer: U64, denom: Denominator, slot: KeySlot, index: U64)

  datatype FieldKey = FieldKey(id: MessageId, tag: Tag)

  /** The bytes of "async_pool/". */
  function PoolPrefix(): Key {
    [97, 115, 121, 110, 99, 95, 112, 111, 111, 108, 47]
  }

  function IdBytes(id: MessageId): Key {
    Varint(id.numer) + (Varint(id.denom) + (SlotBytes(id.slot) + Varint(id.index)))
  }

  function MessagePrefix(id: MessageId): Key {
    PoolPrefix() + IdBytes(id)
  }

  function Bytes(k: FieldKey): Key {
    MessagePrefix(k.id) + [k.tag]
  }

  function ParseId(input: seq<Byte>, threadCount: nat): (r: Parsed<MessageId>) {
    match ParseU64(input)
    case None => None
    case Some((numer, afterNumer)) =>
      match ParseU64(afterNumer)
      case None => None
      case Some((denom, afterDenom)) =>
        if denom == 0 then None
        else
          match ParseSlot(afterDenom, threadCount)
          case None => None
          case Some((slot, afterSlot)) =>
            match ParseU64(afterSlot)
            case None => None
            case Some((index, rest)) => Some((MessageId(numer, denom, slot, index), rest))
  }

  /** An id is refused exactly when its thread is out of range. */
  lemma IdParses(id: MessageId, threadCount: nat, tail: seq<Byte>)
    requires threadCount <= 256
    ensures ParseId(IdBytes(id) + tail, threadCount)
         == if id.slot.thread < threadCount then Some((id, tail)) else None
  {
    hide Varint, ParseU64, SlotBytes, ParseSlot;
    var index := Varint(id.index) + tail;
    var slot := SlotBytes(id.slot) + index;
    var denom := Varint(id.denom) + slot;
    assert IdBytes(id) + tail == Varint(id.numer) + denom;
    U64VarintRoundTrip(id.numer, denom);
    U64VarintRoundTrip(id.denom, slot);
    SlotParses(id.slot, threadCount, index);
    U64VarintRoundTrip(id.index, tail);
  }

  /** Message ids are prefix-free. */
  lemma IdInjective(a: MessageId, b: MessageId, x: Key, y: Key)
    requires MessagePrefix(a) + x == MessagePrefix(b) + y
    ensures a == b && x == y
  {
    hide IdBytes;
    assert MessagePrefix(a) + x == PoolPrefix() + (IdBytes(a) + x);
    assert MessagePrefix(b) + y == PoolPrefix() + (IdBytes(b) + y);
    ConcatInjective(PoolPrefix(), PoolPrefix(), IdBytes(a) + x, IdBytes(b) + y);
    IdParses(a, 256, x);
    IdParses(b, 256, y);
  }

  lemma BytesInjective(a: FieldKey, b: FieldKey)
    requires Bytes(a) == Bytes(b)
    ensures a == b
  {
    IdInjective(a.id, b.id, [a.tag], [b.tag]);
  }

  lemma MessageScan(id: MessageId, k: FieldKey)
    ensures StartsWith(Bytes(k), MessagePrefix(id)) <==> k.id == id
  {
    hide MessagePrefix;
    var bytes, base := Bytes(k), MessagePrefix(id);
    if StartsWith(bytes, base) {
      assert bytes == base + bytes[|base|..];
      IdInjective(id, k.id, bytes[|base|..], [k.tag]);
    }
  }

  lemma PoolScan(k: FieldKey)
    ensures StartsWith(Bytes(k), PoolPrefix()) && AtMost(PoolPrefix(), Bytes(k))
    ensures Bytes(k)[..|Bytes(k)| - 1] == MessagePrefix(k.id)
  {
    hide IdBytes;
    assert Bytes(k) == PoolPrefix() + (IdBytes(k.id) + [k.tag]);
    PrefixIsFirst(Bytes(k), PoolPrefix());
  }

  lemma IdOfKey(k: FieldKey, threadCount: nat)
    requires threadCount <= 256
    ensures |Bytes(k)| > |PoolPrefix()|
    ensures ParseId(Bytes(k)[|PoolPrefix()|..], threadCount)
         == if k.id.slot.thread < threadCount then Some((k.id, [k.tag])) else None
  {
    hide IdBytes, ParseId;
    assert Bytes(k)[|PoolPrefix()|..] == IdBytes(k.id) + [k.tag];
    IdParses(k.id, threadCount, [k.tag]);
  }

  // ---------------------------------------------------------------- order of the keys

  lemma {:induction false} DivergeFrom(a: Key, b: Key, x: Key, y: Key, i: nat)
    requires i <= |a| && i <= |b| && a[..i] == b[..i]
    requires !StartsWith(a, b) && !StartsWith(b, a)
    ensures LessFrom(a + x, b + y, i) <==> LessFrom(a, b, i)
    decreases |a| - i
  {
    assert i < |a| && i < |b|;
    if a[i] == b[i] {
      assert a[..i + 1] == a[..i] + [a[i]] && b[..i + 1] == b[..i] + [b[i]];
      DivergeFrom(a, b, x, y, i + 1);
    }
  }

  /** Whether a key of one message comes before a key of another does not depend on the fields. */
  lemma BlocksInOrder(a: MessageId, b: MessageId, s: Tag, t: Tag)
    requires a != b
    ensures Less(Bytes(FieldKey(a, s)), Bytes(FieldKey(b, t))) <==> Less(MessagePrefix(a), MessagePrefix(b))
  {
    hide MessagePrefix;
    var p, q := MessagePrefix(a), MessagePrefix(b);
    if StartsWith(p, q) {
      assert p + [] == p == q + p[|q|..];
      IdInjective(a, b, [], p[|q|..]);
    }
    if StartsWith(q, p) {
      assert q + [] == q == p + q[|p|..];
      IdInjective(b, a, [], q[|p|..]);
    }
    DivergeFrom(p, q, [s], [t], 0);
  }

  // ---------------------------------------------------------------- messages in the database

  type Messages = map<MessageId, AsyncMessage>

  /** The database holds exactly the fields of the messages. */
  ghost predicate Holds(col: Column, messages: Messages) {
    && (forall k: FieldKey :: Get(col, Bytes(k)) == Stored(messages, k))
    && (forall key :: key in col && StartsWith(key, PoolPrefix()) ==> IsFieldKey(key))
  }

  function Stored(messages: Messages, k: FieldKey): Option<Value> {
    if k.id in messages then Some(FieldBytes(messages[k.id], k.tag)) else None
  }

  ghost predicate IsFieldKey(key: Key) {
    exists k: FieldKey :: Bytes(k) == key
  }

  lemma MessageKeys(col: Column, messages: Messages, id: MessageId)
    requires Holds(col, messages)
    ensures PrefixKeys(col, MessagePrefix(id))
         == if id in messages then FieldKeys(MessagePrefix(id), 0, FIELD_COUNT) else {}
  {
    hide MessagePrefix;
    var base := MessagePrefix(id);
    forall key | key in PrefixKeys(col, base)
      ensures id in messages && key in FieldKeys(base, 0, FIELD_COUNT)
    {
      UnderPool(key, id);
      assert IsFieldKey(key);
      var k: FieldKey :| Bytes(k) == key;
      MessageScan(id, k);
      assert Get(col, Bytes(k)) == Stored(messages, k);
    }
    if id in messages {
      forall key | key in FieldKeys(base, 0, FIELD_COUNT)
        ensures key in PrefixKeys(col, base)
      {
        var t: Byte :| 0 <= t < FIELD_COUNT && key == base + [t];
        assert Get(col, Bytes(FieldKey(id, t))) == Stored(messages, FieldKey(id, t));
      }
    }
  }

  lemma UnderPool(key: Key, id: MessageId)
    requires StartsWith(key, MessagePrefix(id))
    ensures StartsWith(key, PoolPrefix())
  {
    assert key[..|PoolPrefix()|] == MessagePrefix(id)[..|PoolPrefix()|];
  }

  /** What a scan over the fields of a message, concatenated and parsed, gives. */
  function LoadedAt(col: Column, id: MessageId, limits: MessageLimits): Option<AsyncMessage> {
    ParseMessage(ConcatValues(col, PrefixKeys(col, MessagePrefix(id))), limits)
  }

  /** A message loads as what it is, unless it is not there or over the limits. */
  lemma MessageReadsBack(col: Column, messages: Messages, id: MessageId, limits: MessageLimits)
    requires Holds(col, messages)
    ensures LoadedAt(col, id, limits)
         == if id in messages && Within(messages[id], limits) then Some(messages[id]) else None
  {
    hide MessagePrefix, ConcatValues, FieldBytes, ParseMessage, Within;
    MessageKeys(col, messages, id);
    if id in messages {
      forall t: Byte | 0 <= t < FIELD_COUNT
        ensures Get(col, MessagePrefix(id) + [t]) == Some(FieldsOf(messages[id])(t))
      {
        assert Get(col, Bytes(FieldKey(id, t))) == Stored(messages, FieldKey(id, t));
      }
      ReadsFields(col, MessagePrefix(id), FieldsOf(messages[id]), 0, FIELD_COUNT);
      MessageRoundTrip(messages[id], limits);
    } else {
      ConcatNothing(col);
      NothingIsNoMessage(limits);
    }
  }

  // ---------------------------------------------------------------- change sets

  datatype MessageChange = SetMessage(message: AsyncMessage) | UpdateMessage(update: MessageUpdate) | DeleteMessage

  type PoolChanges = map<MessageId, MessageChange>

  /** The messages after one change; an update of a message that is not there changes nothing. */
  function AfterChange(messages: Messages, id: MessageId, change: MessageChange): Messages {
    match change
    case SetMessage(m) => messages[id := m]
    case UpdateMessage(update) => if id in messages then messages[id := Updated(messages[id], update)] else messages
    case DeleteMessage => messages - {id}
  }

  /** The messages after a change set, in which every id occurs once. */
  function AfterChanges(messages: Messages, changes: PoolChanges): (r: Messages)
    ensures forall id :: id in r <==>
              if id in changes && !changes[id].UpdateMessage? then changes[id].SetMessage? else id in messages
    ensures forall id :: id in r ==>
              r[id] == if id !in changes then messages[id]
                       else if changes[id].SetMessage? then changes[id].message
                       else Updated(messages[id], changes[id].update)
  {
    map id | id in messages.Keys + changes.Keys &&
             (if id in changes && !changes[id].UpdateMessage? then changes[id].SetMessage? else id in messages) ::
      if id !in changes then messages[id]
      else if changes[id].SetMessage? then changes[id].message
      else Updated(messages[id], changes[id].update)
  }

  /** What a change does to one field: nothing, a deletion or a new value. */
  function FieldChange(change: MessageChange, tag: Byte): Option<Option<Value>> {
    match change
    case SetMessage(m) => Some(Some(FieldBytes(m, tag)))
    case UpdateMessage(update) => if UpdateBytes(update, tag).Some? then Some(UpdateBytes(update, tag)) else None
    case DeleteMessage => Some(None)
  }

  function ChangedFields(change: MessageChange): FieldChanges {
    (tag: Byte) => FieldChange(change, tag)
  }

  function WrittenAt(changes: PoolChanges, k: FieldKey): Option<Option<Value>> {
    if k.id in changes then FieldChange(changes[k.id], k.tag) else None
  }

  ghost predicate BatchOf(batch: Changes, changes: PoolChanges) {
    && (forall k: FieldKey :: InBatch(batch, Bytes(k)) == WrittenAt(changes, k))
    && (forall key :: key in batch ==> IsFieldKey(key))
  }

  /** Every update that sets a field is about a message in the pool. */
  ghost predicate UpdatesExisting(messages: Messages, changes: PoolChanges) {
    forall id :: id in changes && changes[id].UpdateMessage? && changes[id].update != NO_UPDATE ==> id in messages
  }

  /** What a write leaves under a key is what the messages in memory have after the same change set. */
  lemma KeyAfter(messages: Messages, changes: PoolChanges, k: FieldKey)
    requires k.id in changes && changes[k.id].UpdateMessage? && changes[k.id].update != NO_UPDATE ==> k.id in messages
    ensures Stored(AfterChanges(messages, changes), k) == OrElse(WrittenAt(changes, k), Stored(messages, k))
  {
    hide FieldBytes, UpdateBytes, Updated, AfterChanges;
    if k.id in changes && changes[k.id].UpdateMessage? {
      if k.id in messages {
        UpdateCommutes(messages[k.id], changes[k.id].update, k.tag);
      } else {
        NoFieldSet(k.tag);
      }
    }
  }

  /**
   Writing the batch of a change set leaves in the database exactly the messages that the cache has
   after the same change set, if and only if updates are about messages in the pool.
   */
  lemma WriteKeepsPool(col: Column, batch: Changes, changes: PoolChanges, messages: Messages)
    requires Holds(col, messages) && BatchOf(batch, changes)
    ensures Holds(Apply(col, batch), AfterChanges(messages, changes)) <==> UpdatesExisting(messages, changes)
  {
    hide Bytes, AfterChanges, FieldBytes, UpdateBytes;
    var after := Apply(col, batch);
    if UpdatesExisting(messages, changes) {
      HoldsAfter(col, batch, changes, messages);
    } else {
      var id :| id in changes && changes[id].UpdateMessage? && changes[id].update != NO_UPDATE && id !in messages;
      var tag := SomeFieldSet(changes[id].update);
      assert InBatch(batch, Bytes(FieldKey(id, tag))) == WrittenAt(changes, FieldKey(id, tag));
      assert Get(after, Bytes(FieldKey(id, tag))) == UpdateBytes(changes[id].update, tag);
      assert Stored(AfterChanges(messages, changes), FieldKey(id, tag)) == None;
    }
  }

  lemma HoldsAfter(col: Column, batch: Changes, changes: PoolChanges, messages: Messages)
    requires Holds(col, messages) && BatchOf(batch, changes) && UpdatesExisting(messages, changes)
    ensures Holds(Apply(col, batch), AfterChanges(messages, changes))
  {
    hide Bytes, AfterChanges, Stored, WrittenAt;
    var after := Apply(col, batch);
    forall k: FieldKey
      ensures Get(after, Bytes(k)) == Stored(AfterChanges(messages, changes), k)
    {
      KeyAfter(messages, changes, k);
      assert InBatch(batch, Bytes(k)) == WrittenAt(changes, k);
      assert Get(col, Bytes(k)) == Stored(messages, k);
    }
    forall key | key in after && StartsWith(key, PoolPrefix())
      ensures IsFieldKey(key)
    {
      assert Get(after, key) == if key in batch then batch[key] else Get(col, key);
    }
  }

  // ---------------------------------------------------------------- writing

  /** Puts, updates or deletes the fields of a message in a batch, one by one. */
  method EntryToBatch(id: MessageId, change: MessageChange, batch: Changes) returns (batch': Changes)
    ensures FieldsWritten(batch, batch', MessagePrefix(id), 0, FIELD_COUNT, ChangedFields(change))
  {
    batch' := WriteFields(batch, MessagePrefix(id), 0, FIELD_COUNT, ChangedFields(change));
  }

  lemma EntryWritten(batch: Changes, batch': Changes, id: MessageId, change: MessageChange, k: FieldKey)
    requires FieldsWritten(batch, batch', MessagePrefix(id), 0, FIELD_COUNT, ChangedFields(change))
    ensures InBatch(batch', Bytes(k)) == if k.id == id && FieldChange(change, k.tag).Some?
                                         then FieldChange(change, k.tag) else InBatch(batch, Bytes(k))
  {
    hide MessagePrefix, FieldChange;
    MessageScan(id, k);
    if k.id == id {
      assert InBatch(batch', MessagePrefix(id) + [k.tag])
          == FieldAfter(batch, MessagePrefix(id), 0, FIELD_COUNT, ChangedFields(change), k.tag);
    }
  }

  lemma BatchWithChange(batch: Changes, done: PoolChanges, batch': Changes, id: MessageId, change: MessageChange)
    requires BatchOf(batch, done) && id !in done
    requires FieldsWritten(batch, batch', MessagePrefix(id), 0, FIELD_COUNT, ChangedFields(change))
    ensures BatchOf(batch', done[id := change])
  {
    hide Bytes, FieldChange, FieldsWritten, MessagePrefix, IsFieldKey;
    forall k: FieldKey
      ensures InBatch(batch', Bytes(k)) == WrittenAt(done[id := change], k)
    {
      assert InBatch(batch, Bytes(k)) == WrittenAt(done, k);
      EntryWritten(batch, batch', id, change, k);
    }
    forall key | key in batch' && !IsFieldKey(key)
      ensures key in batch
    {
      OtherKeyWritten(batch, batch', id, change, key);
    }
  }

  lemma OtherKeyWritten(batch: Changes, batch': Changes, id: MessageId, change: MessageChange, key: Key)
    requires FieldsWritten(batch, batch', MessagePrefix(id), 0, FIELD_COUNT, ChangedFields(change))
    requires key in batch' && !IsFieldKey(key)
    ensures key in batch
  {
    hide MessagePrefix, FieldChange;
    assert InBatch(batch', key).Some?;
    if IsFieldOf(key, MessagePrefix(id)) {
      var tag := key[|MessagePrefix(id)|];
      assert key == MessagePrefix(id) + [tag];
      assert tag < FIELD_COUNT ==> Bytes(FieldKey(id, tag)) == key;
      assert InBatch(batch', MessagePrefix(id) + [tag])
          == FieldAfter(batch, MessagePrefix(id), 0, FIELD_COUNT, ChangedFields(change), tag);
    }
  }

  lemma AfterOneMore(messages: Messages, done: PoolChanges, id: MessageId, change: MessageChange)
    requires id !in done
    ensures AfterChanges(messages, done[id := change]) == AfterChange(AfterChanges(messages, done), id, change)
  {
    hide AfterChanges, AfterChange, Updated;
    var more := AfterChanges(messages, done[id := change]);
    var target := AfterChange(AfterChanges(messages, done), id, change);
    forall x
      ensures CachedAt(more, x) == CachedAt(target, x)
    {
      AfterOneMoreAt(messages, done, id, change, x);
    }
    SameMessages(more, target);
  }

  function CachedAt(cache: Messages, id: MessageId): Option<AsyncMessage> {
    if id in cache then Some(cache[id]) else None
  }

  lemma AfterOneMoreAt(messages: Messages, done: PoolChanges, id: MessageId, change: MessageChange, x: MessageId)
    requires id !in done
    ensures CachedAt(AfterChanges(messages, done[id := change]), x)
         == CachedAt(AfterChange(AfterChanges(messages, done), id, change), x)
  {
    hide AfterChanges, Updated;
    var before := AfterChanges(messages, done);
    assert x != id && x in done ==> x in done[id := change] && done[id := change][x] == done[x];
    assert id in before <==> id in messages;
    assert id in before ==> before[id] == messages[id];
  }

  lemma SameMessages(a: Messages, b: Messages)
    requires forall id :: CachedAt(a, id) == CachedAt(b, id)
    ensures a == b
  {
    assert forall id :: id in a <==> CachedAt(a, id).Some?;
    assert forall id :: id in b <==> CachedAt(b, id).Some?;
    assert forall id :: id in a ==> CachedAt(a, id).value == a[id];
    assert forall id :: id in b ==> CachedAt(b, id).value == b[id];
  }

  lemma AfterNothing(messages: Messages)
    ensures AfterChanges(messages, map[]) == messages
  {
  }

  lemma EmptyBatch()
    ensures BatchOf(map[], map[])
  {
  }

  // ---------------------------------------------------------------- the jumping scan

  /** The messages already visited lie at or before the last key, the others entirely after it. */
  ghost predicate Jumped(messages: Messages, visited: seq<MessageId>) {
    && (forall i, j :: 0 <= i < j < |visited| ==> visited[i] != visited[j])
    && (forall id :: id in visited ==> id in messages)
    && (visited != [] ==>
          var last := visited[|visited| - 1];
          forall id :: id in messages && id != last ==>
            (id in visited <==> Less(MessagePrefix(id), MessagePrefix(last))))
  }

  /** What an iterator that starts at `from` yields. */
  function KeysFrom(col: Column, from: Key): set<Key> {
    set key | key in col && AtMost(from, key)
  }

  /** The keys after the last field of a message. */
  function KeysAfter(col: Column, id: MessageId): set<Key> {
    set key | key in col && Less(Bytes(FieldKey(id, CAN_BE_EXECUTED)), key)
  }

  /** Skipping one key from the last field of a message on lands on the first key after it. */
  lemma SkipOne(col: Column, messages: Messages, id: MessageId)
    requires Holds(col, messages) && id in messages
    ensures var from := KeysFrom(col, Bytes(FieldKey(id, CAN_BE_EXECUTED)));
            from != {} && from - {Least(from)} == KeysAfter(col, id)
  {
    KeyOrder();
    var last := Bytes(FieldKey(id, CAN_BE_EXECUTED));
    var from := KeysFrom(col, last);
    assert Get(col, last) == Stored(messages, FieldKey(id, CAN_BE_EXECUTED));
    assert last in from && Least(from) == last;
  }

  /** The next key of the scan belongs to the next message, and no message is jumped over. */
  lemma JumpToNext(col: Column, messages: Messages, visited: seq<MessageId>, key: Key, k: FieldKey)
    requires Holds(col, messages) && Jumped(messages, visited) && visited != []
    requires Bytes(k) == key && IsLeast(KeysAfter(col, visited[|visited| - 1]), key)
    ensures k.id in messages && Jumped(messages, visited + [k.id])
  {
    hide MessagePrefix;
    KeyOrder();
    var last := visited[|visited| - 1];
    assert Get(col, key) == Stored(messages, k);
    if k.id == last {
      TagOrder(MessagePrefix(last), CAN_BE_EXECUTED, k.tag);
    }
    BlocksInOrder(last, k.id, CAN_BE_EXECUTED, k.tag);
    assert Less(MessagePrefix(last), MessagePrefix(k.id));
    assert k.id !in visited;
    forall id | id in messages && id != k.id
      ensures id in visited + [k.id] <==> Less(MessagePrefix(id), MessagePrefix(k.id))
    {
      if id in visited {
        assert id == last || Less(MessagePrefix(id), MessagePrefix(last));
      } else {
        DistinctPrefixes(id, last);
        assert Less(MessagePrefix(last), MessagePrefix(id));
        BlocksInOrder(last, id, CAN_BE_EXECUTED, 0);
        var first := FieldKey(id, 0);
        assert Get(col, Bytes(first)) == Stored(messages, first);
        assert Bytes(first) in KeysAfter(col, last);
        NotBefore(k, first);
      }
    }
  }

  lemma NotBefore(k: FieldKey, first: FieldKey)
    requires k.id != first.id && AtMost(Bytes(k), Bytes(first))
    ensures !Less(MessagePrefix(first.id), MessagePrefix(k.id))
  {
    KeyOrder();
    BlocksInOrder(first.id, k.id, first.tag, k.tag);
  }

  lemma DistinctPrefixes(a: MessageId, b: MessageId)
    requires a != b
    ensures MessagePrefix(a) != MessagePrefix(b)
  {
    if MessagePrefix(a) == MessagePrefix(b) {
      IdInjective(a, b, [], []);
    }
  }

  lemma JumpToFirst(col: Column, messages: Messages, key: Key, k: FieldKey)
    requires Holds(col, messages) && Bytes(k) == key
    requires IsLeast(KeysFrom(col, PoolPrefix()), key)
    ensures k.id in messages && Jumped(messages, [k.id])
  {
    hide MessagePrefix;
    KeyOrder();
    assert Get(col, key) == Stored(messages, k);
    forall id | id in messages && id != k.id
      ensures !Less(MessagePrefix(id), MessagePrefix(k.id))
    {
      var first := FieldKey(id, 0);
      assert Get(col, Bytes(first)) == Stored(messages, first);
      PoolScan(first);
      assert Bytes(first) in KeysFrom(col, PoolPrefix());
      NotBefore(k, first);
    }
  }

  /** Where the scan continues. */
  ghost function Ahead(col: Column, visited: seq<MessageId>): set<Key> {
    if visited == [] then KeysFrom(col, PoolPrefix()) else KeysAfter(col, visited[|visited| - 1])
  }

  /** The next key under the prefix is a field of a message not visited yet, and there are fewer keys ahead of it. */
  lemma Jump(col: Column, messages: Messages, visited: seq<MessageId>, key: Key) returns (k: FieldKey)
    requires Holds(col, messages) && Jumped(messages, visited)
    requires IsLeast(Ahead(col, visited), key) && StartsWith(key, PoolPrefix())
    ensures Bytes(k) == key && key[..|key| - 1] == MessagePrefix(k.id)
    ensures k.id in messages && k.id !in visited && Jumped(messages, visited + [k.id])
    ensures |Ahead(col, visited + [k.id])| < |Ahead(col, visited)|
  {
    hide MessagePrefix, Jumped;
    assert IsFieldKey(key);
    k :| Bytes(k) == key;
    PoolScan(k);
    if visited == [] {
      JumpToFirst(col, messages, key, k);
      assert visited + [k.id] == [k.id];
    } else {
      JumpToNext(col, messages, visited, key, k);
    }
    JumpedIsNew(messages, visited, k.id);
    FewerAhead(col, visited, k);
  }

  lemma JumpedIsNew(messages: Messages, visited: seq<MessageId>, id: MessageId)
    requires Jumped(messages, visited + [id])
    ensures id !in visited
  {
    var more := visited + [id];
    assert forall i :: 0 <= i < |visited| ==> more[i] == visited[i] && more[i] != more[|visited|];
  }

  lemma FewerAhead(col: Column, visited: seq<MessageId>, k: FieldKey)
    requires Bytes(k) in Ahead(col, visited)
    ensures |Ahead(col, visited + [k.id])| < |Ahead(col, visited)|
  {
    hide MessagePrefix;
    KeyOrder();
    var last := Bytes(FieldKey(k.id, CAN_BE_EXECUTED));
    TagOrder(MessagePrefix(k.id), k.tag, CAN_BE_EXECUTED);
    assert AtMost(Bytes(k), last);
    forall key | key in Ahead(col, visited + [k.id])
      ensures key in Ahead(col, visited) && key != Bytes(k)
    {
      assert Less(last, key) && Less(Bytes(k), key);
    }
    SmallerSet(Ahead(col, visited + [k.id]), Ahead(col, visited), Bytes(k));
  }

  /** Where the scan ends, every message has been visited. */
  lemma JumpsEnd(col: Column, messages: Messages, visited: seq<MessageId>)
    requires Holds(col, messages) && Jumped(messages, visited)
    requires Ahead(col, visited) == {} || !StartsWith(Least(Ahead(col, visited)), PoolPrefix())
    ensures forall id :: id in messages ==> id in visited
  {
    hide MessagePrefix;
    KeyOrder();
    forall id | id in messages
      ensures id in visited
    {
      if id !in visited {
        var first := Bytes(FieldKey(id, 0));
        assert Get(col, first) == Stored(messages, FieldKey(id, 0));
        PoolScan(FieldKey(id, 0));
        if visited != [] {
          var last := visited[|visited| - 1];
          DistinctPrefixes(id, last);
          BlocksInOrder(last, id, CAN_BE_EXECUTED, 0);
          PoolScan(FieldKey(last, CAN_BE_EXECUTED));
        }
        assert first in Ahead(col, visited);
        var key := Least(Ahead(col, visited));
        BeyondPrefix(PoolPrefix(), key, first);
        assert false;
      }
    }
  }

  // ---------------------------------------------------------------- the pool

  /** The cache is what loading message by message gives. */
  ghost predicate Rebuilds(col: Column, limits: MessageLimits, cache: Messages) {
    forall id :: CachedAt(cache, id) == LoadedAt(col, id, limits)
  }

  ghost predicate RebuildsSome(col: Column, limits: MessageLimits, cache: Messages, visited: seq<MessageId>) {
    && (forall id :: id in cache ==> id in visited)
    && (forall id :: id in visited ==> CachedAt(cache, id) == LoadedAt(col, id, limits))
  }

  lemma RebuildsMore(col: Column, limits: MessageLimits, cache: Messages, visited: seq<MessageId>, id: MessageId)
    requires RebuildsSome(col, limits, cache, visited) && id !in visited
    ensures var m := LoadedAt(col, id, limits);
            RebuildsSome(col, limits, if m.Some? then cache[id := m.value] else cache, visited + [id])
  {
    hide LoadedAt;
  }

  /** Messages that were not visited are not there to be loaded. */
  lemma RebuildsAll(col: Column, limits: MessageLimits, cache: Messages, messages: Messages, visited: seq<MessageId>)
    requires RebuildsSome(col, limits, cache, visited)
    requires Holds(col, messages) && forall id :: id in messages ==> id in visited
    ensures Rebuilds(col, limits, cache)
  {
    hide LoadedAt, Holds, Within;
    forall id
      ensures CachedAt(cache, id) == LoadedAt(col, id, limits)
    {
      MessageReadsBack(col, messages, id, limits);
    }
  }

  /** The messages of the pool are what the cache is rebuilt to exactly when all of them are within the limits. */
  lemma RebuildsExactly(col: Column, limits: MessageLimits, messages: Messages)
    requires Holds(col, messages)
    ensures Rebuilds(col, limits, messages) <==> forall id :: id in messages ==> Within(messages[id], limits)
  {
    hide LoadedAt, Holds, Within;
    forall id
      ensures CachedAt(messages, id) == LoadedAt(col, id, limits) <==>
              (id in messages ==> Within(messages[id], limits))
    {
      MessageReadsBack(col, messages, id, limits);
    }
  }

  class AsyncPool {
    const limits: MessageLimits
    var db: Column
    var cache: Messages

    constructor (limits: MessageLimits)
      ensures this.limits == limits && db == map[] && cache == map[] && Holds(db, cache)
    {
      this.limits, db, cache := limits, map[], map[];
    }

    /** Writes a change set into a batch and into the cache, change by change. */
    method ApplyChangesToBatch(changes: PoolChanges) returns (batch: Changes)
      modifies this`cache
      ensures BatchOf(batch, changes) && cache == AfterChanges(old(cache), changes)
    {
      hide BatchOf, Parted, AfterChanges, Updated, FieldsWritten;
      batch := map[];
      EmptyBatch();
      AfterNothing(cache);
      PartStarts(changes);
      var rest := changes;
      ghost var done: PoolChanges := map[];
      while rest != map[]
        invariant Parted(changes, done, rest) && BatchOf(batch, done) && cache == AfterChanges(old(cache), done)
        decreases |rest|
      {
        var id :| id in rest;
        PartMoves(changes, done, rest, id);
        AfterOneMore(old(cache), done, id, rest[id]);
        var next := EntryToBatch(id, rest[id], batch);
        BatchWithChange(batch, done, next, id, rest[id]);
        batch := next;
        match rest[id] {
          case SetMessage(m) => cache := cache[id := m];
          case UpdateMessage(update) =>
            if id in cache {
              cache := cache[id := Updated(cache[id], update)];
            }
          case DeleteMessage => cache := cache - {id};
        }
        done := done[id := rest[id]];
        rest := rest - {id};
      }
      PartEnds(changes, done, rest);
    }

    method WriteBatch(batch: Changes)
      modifies this`db
      ensures db == Apply(old(db), batch)
    {
      db := MassaDb.Commit(db, batch);
    }

    method LoadMessage(id: MessageId) returns (r: Option<AsyncMessage>)
      ensures r == LoadedAt(db, id, limits)
    {
      var serialized := ReadPrefix(db, MessagePrefix(id));
      r := ParseMessage(serialized, limits);
    }

    /**
     Rebuilds the cache; every message is visited, and none twice. It panics (not ok) exactly when
     the id of a message has a thread out of range.
     */
    method RecomputeMessageCache(ghost messages: Messages) returns (ok: bool, ghost visited: seq<MessageId>)
      requires Holds(db, messages)
      modifies this`cache
      ensures ok <==> forall id :: id in messages ==> id.slot.thread < limits.threadCount
      ensures ok ==> Rebuilds(db, limits, cache)
      ensures ok ==> forall i, j :: 0 <= i < j < |visited| ==> visited[i] != visited[j]
      ensures ok ==> forall id :: id in visited <==> id in messages
    {
      hide Holds, Rebuilds, RebuildsSome, Jumped, Ahead, Least, StartsWith, MessagePrefix, ParseId, Bytes, LoadedAt;
      cache, visited := map[], [];
      JumpsStart(db, messages, limits);
      var rest := KeysFrom(db, PoolPrefix());
      while rest != {}
        invariant Jumped(messages, visited) && rest == Ahead(db, visited)
        invariant RebuildsSome(db, limits, cache, visited)
        invariant forall id :: id in visited ==> id.slot.thread < limits.threadCount
        decreases |rest|
      {
        var key := Least(rest);
        if !StartsWith(key, PoolPrefix()) {
          break;
        }
        ghost var k := Jump(db, messages, visited, key);
        IdOfKey(k, limits.threadCount);
        var parsed := ParseId(key[|PoolPrefix()|..], limits.threadCount);
        if parsed.None? {
          return false, visited;
        }
        var id := parsed.value.0;
        var message := LoadMessage(id);
        RebuildsMore(db, limits, cache, visited, id);
        if message.Some? {
          cache := cache[id := message.value];
        }
        SkipFrom(db, messages, visited, id);
        visited := visited + [id];
        var from := KeysFrom(db, key[..|key| - 1] + [CAN_BE_EXECUTED]);
        rest := from - {Least(from)};
      }
      JumpsEnd(db, messages, visited);
      JumpedMeans(messages, visited);
      RebuildsAll(db, limits, cache, messages, visited);
      ok := true;
    }
  }

  lemma JumpsStart(col: Column, messages: Messages, limits: MessageLimits)
    ensures Jumped(messages, []) && Ahead(col, []) == KeysFrom(col, PoolPrefix())
    ensures RebuildsSome(col, limits, map[], [])
  {
  }

  lemma SkipFrom(col: Column, messages: Messages, visited: seq<MessageId>, id: MessageId)
    requires Holds(col, messages) && id in messages
    ensures var from := KeysFrom(col, MessagePrefix(id) + [CAN_BE_EXECUTED]);
            from != {} && from - {Least(from)} == Ahead(col, visited + [id])
  {
    SkipOne(col, messages, id);
  }

  lemma JumpedMeans(messages: Messages, visited: seq<MessageId>)
    requires Jumped(messages, visited)
    ensures forall i, j :: 0 <= i < j < |visited| ==> visited[i] != visited[j]
    ensures forall id :: id in visited ==> id in messages
  {
  }

  /**
   The cache agrees with the database: after a change set whose updates are about messages in the
   pool, the cache is what rebuilding it from the written database gives exactly when every message
   in it is within the limits of the deserializer.
   */
  lemma CacheAgrees(limits: MessageLimits, col: Column, batch: Changes, changes: PoolChanges, cache: Messages)
    requires Holds(col, cache) && BatchOf(batch, changes) && UpdatesExisting(cache, changes)
    ensures var after := AfterChanges(cache, changes);
            && Holds(Apply(col, batch), after)
            && (Rebuilds(Apply(col, batch), limits, after) <==> forall id :: id in after ==> Within(after[id], limits))
  {
    hide Holds, BatchOf, AfterChanges, Rebuilds, Within;
    WriteKeepsPool(col, batch, changes, cache);
    RebuildsExactly(Apply(col, batch), limits, AfterChanges(cache, changes));
  }

  // ---------------------------------------------------------------- validation of received entries

  /** Whether an entry received during bootstrap is one of the pool. */
  predicate IsKeyValueValid(key: Key, value: Value, limits: MessageLimits) {
    && StartsWith(key, PoolPrefix())
    && var parsed := ParseId(key[|PoolPrefix()|..], limits.threadCount);
       && parsed.Some? && |parsed.value.1| == 1
       && FieldValid(parsed.value.1[0], value, limits)
  }

  /** The input is made of the four numbers of an id and the thread of its slot. */
  ghost predicate IdAt(input: seq<Byte>, id: MessageId, rest: seq<Byte>) {
    exists denom: seq<Byte>, slot: seq<Byte>, index: seq<Byte> ::
      && U64At(input, id.numer, denom) && U64At(denom, id.denom, slot)
      && SlotAt(slot, id.slot, index) && U64At(index, id.index, rest)
  }

  lemma IdExactly(input: seq<Byte>, threadCount: nat, id: MessageId, rest: seq<Byte>)
    ensures ParseId(input, threadCount) == Some((id, rest)) <==> id.slot.thread < threadCount && IdAt(input, id, rest)
  {
    hide ParseU64, U64At, ParseSlot, SlotAt;
    if ParseId(input, threadCount) == Some((id, rest)) {
      var denom := ParseU64(input).value.1;
      var slot := ParseU64(denom).value.1;
      var index := ParseSlot(slot, threadCount).value.1;
      IdPartsExactly(input, denom, slot, index, threadCount, id, rest);
    }
    if id.slot.thread < threadCount && IdAt(input, id, rest) {
      var denom: seq<Byte>, slot: seq<Byte>, index: seq<Byte> :|
        && U64At(input, id.numer, denom) && U64At(denom, id.denom, slot)
        && SlotAt(slot, id.slot, index) && U64At(index, id.index, rest);
      IdPartsExactly(input, denom, slot, index, threadCount, id, rest);
    }
  }

  lemma IdPartsExactly(input: seq<Byte>, denom: seq<Byte>, slot: seq<Byte>, index: seq<Byte>, threadCount: nat,
                       id: MessageId, rest: seq<Byte>)
    ensures ParseU64(input) == Some((id.numer, denom)) <==> U64At(input, id.numer, denom)
    ensures ParseU64(denom) == Some((id.denom, slot)) <==> U64At(denom, id.denom, slot)
    ensures ParseSlot(slot, threadCount) == Some((id.slot, index)) <==>
            id.slot.thread < threadCount && SlotAt(slot, id.slot, index)
    ensures ParseU64(index) == Some((id.index, rest)) <==> U64At(index, id.index, rest)
  {
    hide ParseU64, U64At, ParseSlot, SlotAt;
    U64Exactly(input, id.numer, denom);
    U64Exactly(denom, id.denom, slot);
    SlotExactly(slot, threadCount, id.slot, index);
    U64Exactly(index, id.index, rest);
  }

  /** The key is made of the prefix, an id with a thread in range and a tag, and the value is such a field. */
  ghost predicate IsEntry(key: Key, value: Value, id: MessageId, tag: Tag, limits: MessageLimits) {
    && StartsWith(key, PoolPrefix()) && id.slot.thread < limits.threadCount
    && IdAt(key[|PoolPrefix()|..], id, [tag]) && IsField(tag, value, limits)
  }

  /** The validator accepts exactly the entries of the pool. */
  lemma AcceptsExactly(key: Key, value: Value, limits: MessageLimits)
    ensures IsKeyValueValid(key, value, limits) <==>
            exists id: MessageId, tag: Tag :: IsEntry(key, value, id, tag, limits)
  {
    hide ParseId, IdAt, FieldValid, IsField;
    if IsKeyValueValid(key, value, limits) {
      var rest := key[|PoolPrefix()|..];
      var (id, tail) := ParseId(rest, limits.threadCount).value;
      assert tail == [tail[0]];
      IdExactly(rest, limits.threadCount, id, tail);
      FieldValidExactly(tail[0], value, limits);
      KnownTag(tail[0], value, limits);
      assert IsEntry(key, value, id, tail[0], limits);
    }
    if id: MessageId, tag: Tag :| IsEntry(key, value, id, tag, limits) {
      IdExactly(key[|PoolPrefix()|..], limits.threadCount, id, [tag]);
      FieldValidExactly(tag, value, limits);
    }
  }

  lemma KnownTag(tag: Byte, value: Value, limits: MessageLimits)
    requires IsField(tag, value, limits)
    ensures tag < FIELD_COUNT
  {
    hide IsAddress, IsSlot, IsVec, IsU64, IsBool, IsTriggerField;
  }

  /** What the validator demands of a message and its id. */
  predicate Acceptable(id: MessageId, m: AsyncMessage, limits: MessageLimits) {
    && id.slot.thread < limits.threadCount
    && forall tag: Tag :: FieldAcceptable(m, tag, limits)
  }

  lemma FieldKeyValid(k: FieldKey, value: Value, limits: MessageLimits)
    ensures IsKeyValueValid(Bytes(k), value, limits) <==>
            k.id.slot.thread < limits.threadCount && FieldValid(k.tag, value, limits)
  {
    hide FieldValid, Bytes, ParseId;
    PoolScan(k);
    IdOfKey(k, limits.threadCount);
  }

  /** Every entry of the pool in the database is valid. */
  ghost predicate AllValid(col: Column, limits: MessageLimits) {
    forall key :: key in col && StartsWith(key, PoolPrefix()) ==> IsKeyValueValid(key, col[key], limits)
  }

  lemma StoredIsValid(col: Column, messages: Messages, k: FieldKey, limits: MessageLimits)
    requires Holds(col, messages) && k.id in messages
    ensures Bytes(k) in col && StartsWith(Bytes(k), PoolPrefix())
    ensures IsKeyValueValid(Bytes(k), col[Bytes(k)], limits) <==>
            k.id.slot.thread < limits.threadCount && FieldAcceptable(messages[k.id], k.tag, limits)
  {
    hide Bytes, IsKeyValueValid, FieldValid, FieldBytes, FieldAcceptable;
    assert Get(col, Bytes(k)) == Stored(messages, k);
    PoolScan(k);
    FieldKeyValid(k, col[Bytes(k)], limits);
    FieldAccepted(messages[k.id], k.tag, limits);
  }

  /** The entries of the pool all pass the validator exactly when every message in it is acceptable. */
  lemma PoolIsValid(col: Column, messages: Messages, limits: MessageLimits)
    requires Holds(col, messages)
    ensures AllValid(col, limits) <==> forall id :: id in messages ==> Acceptable(id, messages[id], limits)
  {
    hide Bytes, IsKeyValueValid, FieldBytes, FieldAcceptable;
    if AllValid(col, limits) {
      forall id, tag: Tag | id in messages
        ensures id.slot.thread < limits.threadCount && FieldAcceptable(messages[id], tag, limits)
      {
        StoredIsValid(col, messages, FieldKey(id, tag), limits);
      }
      assert forall id :: id in messages ==> FieldAcceptable(messages[id], 0, limits);
    }
    if forall id :: id in messages ==> Acceptable(id, messages[id], limits) {
      forall key | key in col && StartsWith(key, PoolPrefix())
        ensures IsKeyValueValid(key, col[key], limits)
      {
        assert IsFieldKey(key);
        var k: FieldKey :| Bytes(k) == key;
        assert Get(col, Bytes(k)) == Stored(messages, k);
        StoredIsValid(col, messages, k, limits);
      }
    }
  }

  // ---------------------------------------------------------------- whole runs

  datatype PoolState = PoolState(col: Column, cache: Messages)

  /** One change set written to the database and applied to the cache. */
  ghost predicate PoolStep(s: PoolState, s': PoolState) {
    exists batch, changes :: PoolStepBy(s, s', batch, changes)
  }

  ghost predicate PoolStepBy(s: PoolState, s': PoolState, batch: Changes, changes: PoolChanges) {
    && BatchOf(batch, changes) && UpdatesExisting(s.cache, changes)
    && s' == PoolState(Apply(s.col, batch), AfterChanges(s.cache, changes))
  }

  ghost predicate IsPoolRun(run: seq<PoolState>) {
    && run != [] && run[0] == PoolState(map[], map[])
    && forall i :: 0 <= i < |run| - 1 ==> PoolStep(run[i], run[i + 1])
  }

  /** In every run the database holds the messages of the cache and nothing else. */
  lemma {:induction false} PoolAlwaysHolds(run: seq<PoolState>, i: nat)
    requires IsPoolRun(run) && i < |run|
    ensures Holds(run[i].col, run[i].cache)
  {
    hide Holds, BatchOf;
    if i == 0 {
      NothingHeld();
    } else {
      PoolAlwaysHolds(run, i - 1);
      assert PoolStep(run[i - 1], run[i - 1 + 1]);
      var batch, changes :| PoolStepBy(run[i - 1], run[i], batch, changes);
      WriteKeepsPool(run[i - 1].col, batch, changes, run[i - 1].cache);
    }
  }

  lemma NothingHeld()
    ensures Holds(map[], map[])
  {
  }

  /**
   After any sequence of change sets, rebuilding the cache from the database gives the cache exactly
   when every message in it is within the limits, and the database passes validation exactly when
   every message in it is acceptable.
   */
  lemma CacheAlwaysAgrees(limits: MessageLimits, run: seq<PoolState>, i: nat)
    requires IsPoolRun(run) && i < |run|
    ensures Rebuilds(run[i].col, limits, run[i].cache) <==>
            forall id :: id in run[i].cache ==> Within(run[i].cache[id], limits)
    ensures AllValid(run[i].col, limits) <==>
            forall id :: id in run[i].cache ==> Acceptable(id, run[i].cache[id], limits)
  {
    hide IsPoolRun, Holds, Rebuilds, AllValid, Within, Acceptable;
    PoolAlwaysHolds(run, i);
    RebuildsExactly(run[i].col, limits, run[i].cache);
    PoolIsValid(run[i].col, run[i].cache, limits);
  }
}
