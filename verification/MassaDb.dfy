/**
The database object. Its fields are updated in place as the source does: a batch of changes with a
running digest, histories that are trimmed in a loop, and batches that are filled from an ordered
iterator with running size counters. Every method is proved to compute the functions of DbModel.
 */
module MassaDb {
  import opened ByteStrings
  import opened Columns
  import opened Slots
  import opened Wire
  import opened DbModel
  import opened Streaming

  /** The column that results from an atomic batch write. */
  method Commit(col: Column, batch: Changes) returns (after: Column)
    ensures after == Apply(col, batch)
  {
    after := map k | k in col.Keys + batch.Keys && (k !in batch || batch[k].Some?) ::
      if k in batch then batch[k].value else col[k];
    SameColumn(after, Apply(col, batch));
  }

  method TrimHistory(history: History, max: nat) returns (trimmed: History)
    ensures trimmed == Trim(history, max)
    ensures KeepsLatest(history, max, trimmed)
  {
    hide Earliest;
    TrimKeepsLatest(history, max);
    trimmed := history;
    while |trimmed| > max
      invariant Trim(trimmed, max) == Trim(history, max)
      decreases |trimmed|
    {
      trimmed := trimmed - {Earliest(trimmed.Keys)};
    }
  }

  lemma TrimNothing(max: nat)
    ensures Trim(map[], max) == map[]
  {
  }

  lemma EndsOf(history: History)
    requires |history| > 1
    ensures var oldest, newest := Earliest(history.Keys), Latest(history.Keys);
            && oldest in history - {newest} && Earliest((history - {newest}).Keys) == oldest
            && newest in history - {oldest} && Latest((history - {oldest}).Keys) == newest
            && history - {newest} - {oldest} == history - {oldest} - {newest}
  {
    var oldest, newest := Earliest(history.Keys), Latest(history.Keys);
    assert |history.Keys - {oldest}| == |history.Keys| - 1;
    var other :| other in history.Keys - {oldest};
    assert NotAfter(oldest, other) && NotAfter(other, newest);
    assert oldest in history - {newest} && newest in history - {oldest};
    var first, last := Earliest((history - {newest}).Keys), Latest((history - {oldest}).Keys);
    assert first in history && NotAfter(first, oldest) && NotAfter(oldest, first);
    assert last in history && NotAfter(last, newest) && NotAfter(newest, last);
  }

  lemma ConcatAssociative(a: Changes, b: Changes, c: Changes)
    ensures a + b + c == a + (b + c)
    ensures map[] + a == a + map[] == a
  {
  }

  function RecordedAt(history: History, id: Slot, since: Slot): Changes
    requires id in history
  {
    if Before(id, since) then map[] else history[id]
  }

  /** Folding the changes from the oldest id on gives the same as letting later ids override. */
  lemma {:induction false} ChangesSinceFromOldest(history: History, since: Slot)
    requires history != map[]
    ensures var id := Earliest(history.Keys);
            ChangesSince(history, since) == RecordedAt(history, id, since) + ChangesSince(history - {id}, since)
    decreases |history|
  {
    var oldest, newest := Earliest(history.Keys), Latest(history.Keys);
    ConcatAssociative(RecordedAt(history, oldest, since), map[], map[]);
    if |history| > 1 {
      EndsOf(history);
      ChangesSinceFromOldest(history - {newest}, since);
      ConcatAssociative(RecordedAt(history, oldest, since), ChangesSince(history - {oldest} - {newest}, since),
                        RecordedAt(history, newest, since));
    } else {
      assert history.Keys == {oldest} by {
        assert {oldest} <= history.Keys && |history.Keys - {oldest}| == 0;
      }
      assert history - {oldest} == map[];
    }
  }

  lemma CollectStep(updates: Changes, rest: History, since: Slot, step: ColumnStep)
    requires rest != map[]
    ensures var id := Earliest(rest.Keys);
            updates + Bounded(ChangesSince(rest, since), step)
            == updates + Bounded(RecordedAt(rest, id, since), step) + Bounded(ChangesSince(rest - {id}, since), step)
  {
    hide ChangesSince, RecordedAt;
    var id := Earliest(rest.Keys);
    ChangesSinceFromOldest(rest, since);
    var now, later := RecordedAt(rest, id, since), ChangesSince(rest - {id}, since);
    assert Bounded(now + later, step) == Bounded(now, step) + Bounded(later, step);
    ConcatAssociative(updates, Bounded(now, step), Bounded(later, step));
  }

  /** Collects the changes recorded from `since` on for the keys that `step` covers. */
  method CollectUpdates(history: History, since: Slot, step: ColumnStep) returns (updates: Changes)
    ensures updates == Bounded(ChangesSince(history, since), step)
  {
    hide ChangesSince, Earliest;
    updates := map[];
    var rest := history;
    ConcatAssociative(Bounded(ChangesSince(history, since), step), map[], map[]);
    while rest != map[]
      invariant updates + Bounded(ChangesSince(rest, since), step) == Bounded(ChangesSince(history, since), step)
      decreases |rest|
    {
      var id := Earliest(rest.Keys);
      CollectStep(updates, rest, since, step);
      ConcatAssociative(updates, map[], map[]);
      if !Before(id, since) {
        updates := updates + Bounded(rest[id], step);
      }
      rest := rest - {id};
    }
    NothingSince(rest, since);
    ConcatAssociative(updates, map[], map[]);
  }

  /** One step of the iterator: the cursor key is skipped, another key is taken or ends the batch. */
  lemma FillStep(
    col: Column, keys: set<Key>, step: ColumnStep, taken: Column, admits: (Column, Key, Value) -> bool)
    requires keys != {} && keys <= col.Keys
    ensures var k := Least(keys);
            Fill(col, Above(keys, step), taken, admits)
            == if step.Ongoing? && step.cursor == k then Fill(col, Above(keys - {k}, step), taken, admits)
               else if admits(taken, k, col[k]) then Fill(col, Above(keys - {k}, step), taken[k := col[k]], admits)
               else taken
  {
    LeastAbove(keys, step);
  }

  lemma FillStops(
    col: Column, keys: set<Key>, step: ColumnStep, taken: Column, admits: (Column, Key, Value) -> bool)
    requires keys == {}
    ensures Fill(col, Above(keys, step), taken, admits) == taken
  {
  }

  lemma FinishedHasNoNewElements(col: Column, step: ColumnStep, limit: nat)
    requires step.Finished?
    ensures NewElements(col, step, limit) == map[]
  {
    assert Remaining(col, step) == {};
  }

  lemma IteratorCoversRemaining(col: Column, step: ColumnStep)
    requires !step.Finished?
    ensures Above((set k | k in col && (step.Ongoing? ==> AtMost(step.cursor, k))), step) == Remaining(col, step)
  {
    KeyOrder();
    if step.Ongoing? {
      forall k
        ensures AtMost(step.cursor, k) && k != step.cursor <==> !AtMost(k, step.cursor)
      {
        assert Less(k, step.cursor) || k == step.cursor || Less(step.cursor, k);
        assert Less(k, step.cursor) && Less(step.cursor, k) ==> Less(k, k);
      }
    }
  }

  lemma EntrySizeParts(k: Key, v: Value)
    ensures EntrySize(k, v) == |k| + |v| + |Varint(|k|)| + |Varint(|v|)|
  {
  }

  /** Fills a batch from the iterator that starts at the cursor, with running size and footprint. */
  method CollectNewElements(col: Column, step: ColumnStep, limit: nat) returns (newElements: Column)
    ensures newElements == NewElements(col, step, limit)
  {
    hide EntrySize, WireSize, Footprint, AllocationBudget, Varint, Least, Less, Fill, Above;
    newElements := map[];
    if step.Finished? {
      FinishedHasNoNewElements(col, step, limit);
      return;
    }
    ghost var admits := (taken, k, v) => Admits(taken, k, v, limit);
    var size, footprint := 0, 0;
    var rest := set k | k in col && (step.Ongoing? ==> AtMost(step.cursor, k));
    IteratorCoversRemaining(col, step);
    SectionOfNothing();
    while rest != {}
      invariant rest <= col.Keys
      invariant forall x, k :: x in newElements && k in rest ==> Less(x, k)
      invariant size == WireSize(newElements) && footprint == Footprint(newElements)
      invariant Fill(col, Above(rest, step), newElements, admits) == NewElements(col, step, limit)
      decreases |rest|
    {
      var k := Least(rest);
      FillStep(col, rest, step, newElements, admits);
      rest := rest - {k};
      if step.Ongoing? && step.cursor == k {
        continue;
      }
      SectionAppend(newElements, k, col[k]);
      EntrySizeParts(k, col[k]);
      var entrySize := |k| + |col[k]| + |Varint(|k|)| + |Varint(|col[k]|)|;
      size := size + entrySize;
      footprint := footprint + entrySize + BATCH_ENTRY_OVERHEAD;
      if size <= limit && (footprint <= AllocationBudget(limit) || newElements == map[]) {
        newElements := newElements[k := col[k]];
      } else {
        return;
      }
    }
    FillStops(col, rest, step, newElements, admits);
  }

  function Above(keys: set<Key>, step: ColumnStep): (above: set<Key>)
    ensures above <= keys
  {
    if step.Ongoing? then keys - {step.cursor} else keys
  }

  lemma LeastAbove(keys: set<Key>, step: ColumnStep)
    requires keys != {}
    ensures var k := Least(keys);
            if step.Ongoing? && step.cursor == k then Above(keys - {k}, step) == Above(keys, step)
            else Above(keys, step) != {} && Least(Above(keys, step)) == k &&
                 Above(keys - {k}, step) == Above(keys, step) - {k}
  {
    var k := Least(keys);
    KeyOrder();
    if !(step.Ongoing? && step.cursor == k) {
      assert k in Above(keys, step);
    }
  }

  /** The batch that deletes a prefix: the iterator starts at it and stops at the first other key. */
  method CollectPrefix(col: Column, prefix: Key) returns (batch: Changes)
    ensures batch == Deletions(PrefixKeys(col, prefix))
  {
    batch := map[];
    KeyOrder();
    var rest := set k | k in col && AtMost(prefix, k);
    assert forall k :: k in PrefixKeys(col, prefix) ==> k in rest by {
      forall k | k in PrefixKeys(col, prefix) ensures k in rest {
        PrefixIsFirst(k, prefix);
      }
    }
    while rest != {}
      invariant rest <= col.Keys && forall k :: k in rest ==> AtMost(prefix, k)
      invariant batch.Keys !! rest
      invariant batch.Keys + (set k | k in rest && StartsWith(k, prefix)) == PrefixKeys(col, prefix)
      invariant forall k :: k in batch ==> batch[k] == None
      decreases |rest|
    {
      var k := Least(rest);
      if !StartsWith(k, prefix) {
        forall x | x in rest
          ensures !StartsWith(x, prefix)
        {
          BeyondPrefix(prefix, k, x);
        }
        break;
      }
      rest := rest - {k};
      batch := batch[k := None];
    }
  }

  class RawMassaDb {
    const cfg: DbConfig
    var state: Column
    var versioning: Column
    var changeId: Slot
    var hash: Digest
    var changeHistory: History
    var changeHistoryVersioning: History

    ghost function Model(): Db
      reads this
    {
      Db(state, versioning, changeId, hash, changeHistory, changeHistoryVersioning)
    }

    /** The stored digest is the XOR of the entries of the state column. */
    ghost predicate Valid()
      reads this
    {
      hash == HashOf(cfg.entryHash, state)
    }

    constructor (cfg: DbConfig)
      ensures this.cfg == cfg && Valid()
      ensures Model() == Db(map[], map[], Slot(0, 0), InitialHash(), map[], map[])
    {
      this.cfg := cfg;
      state, versioning, changeId := map[], map[], Slot(0, 0);
      hash, changeHistory, changeHistoryVersioning := InitialHash(), map[], map[];
    }

    method WriteChanges(changes: Changes, versioningChanges: Changes, id: Option<Slot>, resetHistory: bool)
      returns (r: Result<(), DbError>)
      requires Valid()
      modifies this
      ensures Valid()
      ensures r.Err? <==> id.Some? && Before(id.value, old(changeId))
      ensures r.Ok? ==> Write(cfg, old(Model()), changes, versioningChanges, id, resetHistory) == Ok(Model())
      ensures r.Err? ==> r.error == InvalidChangeId && unchanged(this)
    {
      hide Trim, KeepsLatest, XorBatch, HashOf, Apply, Record;
      if id.Some? && Before(id.value, changeId) {
        return Err(InvalidChangeId);
      }
      TrimNothing(cfg.maxHistory);
      WriteKeepsDigest(cfg, Model(), changes, versioningChanges, id, resetHistory);
      var digest := UpdateDigest(changes);
      state := Commit(state, changes);
      versioning := Commit(versioning, versioningChanges);
      if id.Some? {
        changeId := id.value;
      }
      hash := digest;
      changeHistory := Record(changeHistory, changeId, changes);
      changeHistoryVersioning := Record(changeHistoryVersioning, changeId, versioningChanges);
      if resetHistory {
        changeHistory, changeHistoryVersioning := map[], map[];
      }
      changeHistory := TrimHistory(changeHistory, cfg.maxHistory);
      changeHistoryVersioning := TrimHistory(changeHistoryVersioning, cfg.maxHistory);
      return Ok(());
    }

    /** The running digest: out goes the stored value of each key, in comes its new value. */
    method UpdateDigest(changes: Changes) returns (digest: Digest)
      ensures digest == XorBatch(cfg.entryHash, hash, state, changes)
    {
      digest := hash;
      var rest := changes;
      while rest != map[]
        invariant XorBatch(cfg.entryHash, digest, state, rest) == XorBatch(cfg.entryHash, hash, state, changes)
        decreases |rest|
      {
        var k := Least(rest.Keys);
        if k in state {
          digest := Xor(digest, cfg.entryHash(k, state[k]));
        }
        if rest[k].Some? {
          digest := Xor(digest, cfg.entryHash(k, rest[k].value));
        }
        rest := rest - {k};
      }
    }

    method GetBatchToStream(cf: Cf, step: ColumnStep, last: Option<Slot>) returns (r: Result<StreamBatch, DbError>)
      ensures r == GetBatch(cfg, Model(), cf, step, last)
    {
      var history := if cf == StateCf then changeHistory else changeHistoryVersioning;
      var updates: Changes := map[];
      if !step.Started? {
        if last.None? {
          return Err(NoChangeId);
        }
        if Before(changeId, last.value) {
          return Err(FutureChangeId);
        }
        if last.value != changeId {
          if history == map[] || Before(last.value, Earliest(history.Keys)) {
            return Err(ChangeIdTooOld);
          }
          updates := CollectUpdates(history, last.value, step);
        }
      }
      var newElements := CollectNewElements(if cf == StateCf then state else versioning, step, cfg.Limit(cf));
      return Ok(StreamBatch(newElements, updates, changeId));
    }

    method WriteBatchBootstrapClient(part: StreamBatch, versioningPart: StreamBatch)
      returns (r: Result<(ColumnStep, ColumnStep), DbError>)
      requires Valid()
      modifies this
      ensures Valid()
      ensures r.Ok? ==>
                && Write(cfg, old(Model()), PartChanges(part), PartChanges(versioningPart), Some(part.changeId), true)
                   == Ok(Model())
                && r.value == (ClientStep(part), ClientStep(versioningPart))
                && changeHistory == map[] && changeHistoryVersioning == map[]
      ensures r.Err? <==> Before(part.changeId, old(changeId))
      ensures r.Err? ==> r.error == InvalidChangeId && unchanged(this)
    {
      var cursor: ColumnStep :=
        if part.newElements == map[] then Finished(None) else Ongoing(Greatest(part.newElements.Keys));
      var changes := part.updates;
      changes := changes + Puts(part.newElements);
      var cursorVersioning: ColumnStep :=
        if versioningPart.newElements == map[] then Finished(None)
        else Ongoing(Greatest(versioningPart.newElements.Keys));
      var versioningChanges := versioningPart.updates;
      versioningChanges := versioningChanges + Puts(versioningPart.newElements);
      var written := WriteChanges(changes, versioningChanges, Some(part.changeId), true);
      if written.Err? {
        return Err(written.error);
      }
      return Ok((cursor, cursorVersioning));
    }

    /** A change id that would move backwards makes the source panic. */
    method DeleteByPrefix(prefix: Key, cf: Cf, id: Option<Slot>)
      requires Valid() && (id.Some? ==> NotAfter(changeId, id.value))
      modifies this
      ensures Valid()
      ensures DeletePrefix(cfg, old(Model()), prefix, cf, id) == Ok(Model())
    {
      var batch := CollectPrefix(if cf == StateCf then state else versioning, prefix);
      var written;
      if cf == StateCf {
        written := WriteChanges(batch, map[], id, false);
      } else {
        written := WriteChanges(map[], batch, id, false);
      }
    }

    method ResetSlotAndHistory(slot: Slot)
      modifies this
      ensures Model() == old(Model()).(changeId := slot, history := map[], versioningHistory := map[])
    {
      changeId := slot;
      changeHistory := map[];
      changeHistoryVersioning := map[];
    }

    /** What a client that must start over does to its database. */
    method ResetContents(slot: Slot)
      requires Valid()
      modifies this
      ensures Valid()
      ensures Model() == Reset(cfg, old(Model()), slot)
      ensures state == map[] && versioning == map[] && changeId == slot && hash == InitialHash()
    {
      ResetEmpties(cfg, Model(), slot);
      ResetSlotAndHistory(slot);
      DeleteByPrefix([], StateCf, None);
      DeleteByPrefix([], VersioningCf, None);
    }
  }
}
