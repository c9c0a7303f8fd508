/**
Where streaming stops being faithful: a write that repeats the current change id, and an entry that
is larger than a whole part. Each is an exact condition on what the server does next.
 */
module Limits {
  import opened ByteStrings
  import opened Columns
  import opened Slots
  import opened Wire
  import opened DbModel
  import opened Streaming

  // ---------------------------------------------------------------- repeated change ids

  function Extended(log: Log, w: LoggedWrite): Log {
    log.(writes := log.writes + [w])
  }

  lemma {:induction false} ExtendedAgrees(log: Log, w: LoggedWrite, cf: Cf, i: nat, s: nat)
    requires i <= |log.writes|
    ensures IdAt(Extended(log, w), i) == IdAt(log, i)
    ensures Snap(Extended(log, w), cf, i) == Snap(log, cf, i)
    ensures Suffix(Extended(log, w), cf, s, i) == Suffix(log, cf, s, i)
  {
    if i > 0 {
      ExtendedAgrees(log, w, cf, i - 1, s);
      assert ChangesAt(Extended(log, w), cf, i) == ChangesAt(log, cf, i);
    }
  }

  lemma ExtendedIncreasing(log: Log, w: LoggedWrite)
    requires Increasing(log) && Before(IdAt(log, |log.writes|), w.id)
    ensures Increasing(Extended(log, w))
  {
    var more := Extended(log, w);
    forall i: nat, j: nat | i < j <= |more.writes|
      ensures Before(IdAt(more, i), IdAt(more, j))
    {
      ExtendedAgrees(log, w, StateCf, i, 0);
      if j <= |log.writes| {
        ExtendedAgrees(log, w, StateCf, j, 0);
      } else {
        assert i < |log.writes| ==> Before(IdAt(log, i), IdAt(log, |log.writes|));
      }
    }
  }

  lemma ColumnFollowsExtended(db: Db, log: Log, w: LoggedWrite, cf: Cf)
    requires ColumnFollows(db, log, cf, |log.writes|)
    ensures ColumnFollows(db, Extended(log, w), cf, |log.writes|)
  {
    hide Snap, Suffix;
    ExtendedAgrees(log, w, cf, |log.writes|, |log.writes| - |db.Hist(cf)|);
  }

  lemma FollowsExtended(cfg: DbConfig, db: Db, log: Log, w: LoggedWrite)
    requires Increasing(log) && Follows(cfg, db, log, |log.writes|) && Before(db.changeId, w.id)
    ensures Increasing(Extended(log, w)) && Follows(cfg, db, Extended(log, w), |log.writes|)
    ensures var next := WriteLogged(cfg, db, w);
            next.Ok? && Follows(cfg, next.value, Extended(log, w), |log.writes| + 1)
  {
    hide ColumnFollows, Increasing, HashOf, Write;
    ExtendedIncreasing(log, w);
    ColumnFollowsExtended(db, log, w, StateCf);
    ColumnFollowsExtended(db, log, w, VersioningCf);
    FollowsWrite(cfg, db, Extended(log, w), |log.writes|);
  }

  /** The write leaves every key that the stream has covered as it is. */
  ghost predicate SparesCovered(col: Column, changes: Changes, step: ColumnStep) {
    forall k :: k in changes && Covered(step, k) ==> changes[k] == Get(col, k)
  }

  lemma SparedViews(col: Column, changes: Changes, step: ColumnStep)
    ensures View(Apply(col, changes), step) == View(col, step) <==> SparesCovered(col, changes, step)
  {
    var before, after := View(col, step), View(Apply(col, changes), step);
    if SparesCovered(col, changes, step) {
      SameColumn(before, after);
    } else {
      var k :| k in changes && Covered(step, k) && changes[k] != Get(col, k);
      assert Get(before, k) == Get(col, k) && Get(after, k) == Get(Apply(col, changes), k) == changes[k];
    }
  }

  /** The updates a client at change id `since` is sent bring it up to `next`. */
  ghost predicate Delivered(col: Column, next: Db, cf: Cf, step: ColumnStep, since: Slot) {
    var updates := Updates(next.Hist(cf), next.changeId, step, Some(since));
    updates.Ok? && Apply(View(col, step), updates.value) == View(next.Col(cf), step)
  }

  lemma LaterWriteReachesClient(cfg: DbConfig, db: Db, next: Db, log: Log, w: LoggedWrite, cf: Cf, step: ColumnStep)
    requires Increasing(log) && Follows(cfg, db, log, |log.writes|) && WriteLogged(cfg, db, w) == Ok(next)
    requires Before(db.changeId, w.id) && !step.Started?
    requires Updates(next.Hist(cf), next.changeId, step, Some(db.changeId)).Ok?
    ensures Delivered(db.Col(cf), next, cf, step, db.changeId)
  {
    hide Snap, Suffix, Updates, Increasing, HashOf, Write;
    FollowsExtended(cfg, db, log, w);
    assert ColumnFollows(next, Extended(log, w), cf, |log.writes| + 1);
    assert ColumnFollows(db, Extended(log, w), cf, |log.writes|);
    UpdatesCatchUp(next.Hist(cf), Extended(log, w), cf, |log.writes|, |log.writes| + 1, step, Some(db.changeId),
                   View(db.Col(cf), step));
  }

  lemma RepeatedWriteReachesClient(cfg: DbConfig, db: Db, next: Db, w: LoggedWrite, cf: Cf, step: ColumnStep)
    requires WriteLogged(cfg, db, w) == Ok(next) && w.id == db.changeId && !step.Started?
    ensures Delivered(db.Col(cf), next, cf, step, db.changeId) <==> SparesCovered(db.Col(cf), w.Of(cf), step)
  {
    assert next.Col(cf) == Apply(db.Col(cf), w.Of(cf));
    ApplyNothing(View(db.Col(cf), step));
    SparedViews(db.Col(cf), w.Of(cf), step);
  }

  /**
   A client that has everything up to the server's change id, asking again after one more write that
   the history still reaches, is brought up to date exactly when the write carries a later change
   id, or leaves alone what the client holds.
   */
  lemma WriteReachesClient(cfg: DbConfig, db: Db, log: Log, w: LoggedWrite, cf: Cf, step: ColumnStep)
    requires Increasing(log) && Follows(cfg, db, log, |log.writes|)
    requires NotAfter(db.changeId, w.id) && !step.Started?
    ensures var next := WriteLogged(cfg, db, w);
            && next.Ok?
            && (Updates(next.value.Hist(cf), next.value.changeId, step, Some(db.changeId)).Ok? ==>
                  (Delivered(db.Col(cf), next.value, cf, step, db.changeId)
                   <==> Before(db.changeId, w.id) || SparesCovered(db.Col(cf), w.Of(cf), step)))
  {
    var next := WriteLogged(cfg, db, w).value;
    if w.id == db.changeId {
      RepeatedWriteReachesClient(cfg, db, next, w, cf, step);
    } else if Updates(next.Hist(cf), next.changeId, step, Some(db.changeId)).Ok? {
      LaterWriteReachesClient(cfg, db, next, log, w, cf, step);
    }
  }

  /** Such a write exists: the client keeps an empty column while the server's has an entry. */
  lemma RepeatedIdIsMissed(cfg: DbConfig, db: Db, k: Key, v: Value)
    requires k !in db.state
    ensures var next := WriteLogged(cfg, db, LoggedWrite(db.changeId, map[k := Some(v)], map[])).value;
            var step: ColumnStep := Finished(None);
            && Updates(next.history, next.changeId, step, Some(db.changeId)) == Ok(map[])
            && k in next.state
            && Apply(View(db.state, step), map[]) != View(next.state, step)
  {
    var next := WriteLogged(cfg, db, LoggedWrite(db.changeId, map[k := Some(v)], map[])).value;
    ApplyNothing(View(db.state, Finished(None)));
    assert Get(next.state, k) == Some(v);
    assert Get(View(next.state, Finished(None)), k) == Some(v) && Get(View(db.state, Finished(None)), k) == None;
  }

  lemma LatestRecorded(history: History, id: Slot, changes: Changes)
    requires forall x :: x in history ==> NotAfter(x, id)
    ensures id in Record(history, id, changes).Keys && Latest(Record(history, id, changes).Keys) == id
    ensures Record(history, id, changes) - {id} == history - {id}
    ensures id in history ==> Latest(history.Keys) == id
  {
    var latest := Latest(Record(history, id, changes).Keys);
    assert NotAfter(latest, id) && NotAfter(id, latest);
    if id in history {
      assert NotAfter(Latest(history.Keys), id) && NotAfter(id, Latest(history.Keys));
    }
  }

  /** Recording a write at the latest id, repeated or not, extends what the history reports since any earlier id. */
  lemma RecordExtends(history: History, id: Slot, changes: Changes, since: Slot)
    requires (forall x :: x in history ==> NotAfter(x, id)) && NotAfter(since, id)
    ensures ChangesSince(Record(history, id, changes), since) == ChangesSince(history, since) + changes
  {
    LatestRecorded(history, id, changes);
    var recorded := Record(history, id, changes);
    var earlier := ChangesSince(history - {id}, since);
    assert ChangesSince(recorded, since) == earlier + recorded[id];
    if id in history {
      assert earlier + (history[id] + changes) == earlier + history[id] + changes;
    } else {
      assert history - {id} == history;
    }
  }

  /** The history accounts for the difference between two states of a column. */
  ghost predicate Accounts(history: History, since: Slot, before: Column, now: Column) {
    var changes := ChangesSince(history, since);
    forall k :: Get(now, k) == if k in changes then changes[k] else Get(before, k)
  }

  /**
   A write keeps the history accounting for all that changed since any earlier id, even if it repeats
   the current change id: it is only the client that has that very id that is not sent the write.
   */
  lemma WriteKeepsAccounts(history: History, id: Slot, changes: Changes, since: Slot, before: Column, now: Column)
    requires (forall x :: x in history ==> NotAfter(x, id)) && NotAfter(since, id)
    requires Accounts(history, since, before, now)
    ensures Accounts(Record(history, id, changes), since, before, Apply(now, changes))
  {
    hide Record, ChangesSince;
    RecordExtends(history, id, changes, since);
  }

  // ---------------------------------------------------------------- oversize entries

  /** The lowest entry above the cursor, if there is one, fits in a part. */
  predicate NextFits(col: Column, step: ColumnStep, limit: nat) {
    var rest := Remaining(col, step);
    rest == {} || var k := Least(rest); EntrySize(k, col[k]) <= limit
  }

  /** Whether a view up to the cursor is all of the column, when nothing more is sent. */
  lemma NothingSent(col: Column, step: ColumnStep, limit: nat)
    requires NewElements(col, step, limit) == map[]
    ensures View(col, step) == View(col, Finished(None)) <==> NextFits(col, step, limit)
  {
    var rest := Remaining(col, step);
    NewElementsAreLowest(col, step, limit);
    ViewAll(col, Finished(None));
    if rest == {} {
      forall k | k in col
        ensures Covered(step, k)
      {
        assert k in rest || Covered(step, k);
      }
      ViewAll(col, step);
    } else {
      var k := Least(rest);
      assert Get(View(col, step), k) == None && Get(col, k).Some?;
    }
  }

  /**
   The step invariant without a bound on entries. On receiving any part, a client holds the column
   up to the cursor it records itself exactly when the lowest entry above the cursor fits; it holds
   it up to the cursor the server keeps also when the part has updates only, as the server then
   keeps its cursor while the client records the column as finished.
   */
  lemma PartReachesCursor(
    cfg: DbConfig, db: Db, log: Log, cf: Cf, c: nat, p: nat, step: ColumnStep, last: Option<Slot>, held: Column)
    requires Increasing(log) && ColumnFollows(db, log, cf, p) && db.changeId == IdAt(log, p)
    requires c <= |log.writes| && held == View(Snap(log, cf, c), step)
    requires !step.Started? ==> last == Some(IdAt(log, c))
    requires GetBatch(cfg, db, cf, step, last).Ok?
    ensures var part := GetBatch(cfg, db, cf, step, last).value;
            var got := Apply(held, PartChanges(part));
            var fits := NextFits(db.Col(cf), step, cfg.Limit(cf));
            && (got == View(db.Col(cf), ClientStep(part)) <==> fits)
            && (ServerStep(step, part).Some? ==>
                  (got == View(db.Col(cf), ServerStep(step, part).value) <==> fits || !part.IsEmpty()))
  {
    hide NewElements, Updates, Increasing, Snap, Suffix, ColumnFollows, View;
    var part := GetBatch(cfg, db, cf, step, last).value;
    FollowsColumn(db, log, cf, p);
    UpdatesCatchUp(db.Hist(cf), log, cf, c, p, step, last, held);
    ApplyTwice(held, part.updates, Puts(part.newElements));
    ElementsReachCursor(db.Col(cf), step, cfg.Limit(cf), part);
  }

  lemma FollowsColumn(db: Db, log: Log, cf: Cf, p: nat)
    requires ColumnFollows(db, log, cf, p)
    ensures p <= |log.writes| && db.Col(cf) == Snap(log, cf, p) && SuffixOf(db.Hist(cf), log, cf, p)
  {
  }

  lemma ElementsReachCursor(col: Column, step: ColumnStep, limit: nat, part: StreamBatch)
    requires part.newElements == NewElements(col, step, limit)
    ensures var got := Apply(View(col, step), Puts(part.newElements));
            && (got == View(col, ClientStep(part)) <==> NextFits(col, step, limit))
            && (ServerStep(step, part).Some? ==>
                  (got == View(col, ServerStep(step, part).value) <==> NextFits(col, step, limit) || !part.IsEmpty()))
  {
    hide NewElements;
    NewElementsAreLowest(col, step, limit);
    if part.newElements == map[] {
      NothingSent(col, step, limit);
      ApplyNothing(View(col, step));
      assert step.Finished? ==> Remaining(col, step) == {};
    } else {
      SomeNewElements(col, step, limit);
    }
  }

  /**
   An empty part, on which the server records its column stream as finished, leaves the client
   complete exactly when the lowest entry above the cursor, if there is one, fits in a part.
   */
  lemma EmptyPartIsComplete(cfg: DbConfig, db: Db, cf: Cf, step: ColumnStep, last: Option<Slot>)
    requires var r := GetBatch(cfg, db, cf, step, last); r.Ok? && r.value.IsEmpty()
    ensures ServerStep(step, GetBatch(cfg, db, cf, step, last).value) == Some(Finished(None))
    ensures View(db.Col(cf), step) == db.Col(cf) <==> NextFits(db.Col(cf), step, cfg.Limit(cf))
  {
    hide NewElements, Updates;
    NothingSent(db.Col(cf), step, cfg.Limit(cf));
    ViewAll(db.Col(cf), Finished(None));
  }

  /** Such a column exists for every limit: its one entry is never sent, and the stream is over. */
  lemma OversizeEntryIsLost(cfg: DbConfig, db: Db, k: Key, v: Value)
    requires db.state == map[k := v] && EntrySize(k, v) > cfg.maxStateSize
    ensures var r := GetBatch(cfg, db, StateCf, Started, None);
            && r == Ok(StreamBatch(map[], map[], db.changeId))
            && ServerStep(Started, r.value) == Some(Finished(None)) && ClientStep(r.value) == Finished(None)
            && View(db.state, Started) != db.state
  {
    var rest := Remaining(db.state, Started);
    assert k in rest && forall x :: x in rest ==> x == k;
    assert Least(rest) == k;
    NewElementsAreLowest(db.state, Started, cfg.maxStateSize);
    ViewNothing(db.state);
    assert k in db.state;
  }

  /**
   A part with updates only does it as well: the server keeps its cursor below the oversize entry `b`,
   but the client, that held `a`, records the column as finished without `b`.
   */
  lemma OversizeEntryIsForgotten(cfg: DbConfig, db: Db, a: Key, b: Key, va: Value, vb: Value)
    requires Less(a, b) && db.state == map[a := va, b := vb] && EntrySize(b, vb) > cfg.maxStateSize
    requires db.changeId == Slot(2, 0)
    requires db.history == map[Slot(1, 0) := map[], Slot(2, 0) := map[a := Some(va)]]
    ensures var r := GetBatch(cfg, db, StateCf, Ongoing(a), Some(Slot(1, 0)));
            && r == Ok(StreamBatch(map[], map[a := Some(va)], Slot(2, 0)))
            && ServerStep(Ongoing(a), r.value) == Some(Ongoing(a)) && ClientStep(r.value) == Finished(None)
            && Apply(map[a := va], PartChanges(r.value)) == map[a := va] != db.state
  {
    hide NewElements, Updates, EntrySize;
    NoRoomFor(db.state, a, b, cfg.maxStateSize);
    UpdateOnly(db.history, a, va);
    assert a != b by {
      KeyOrder();
    }
    var held: Column := map[a := va];
    assert PartChanges(StreamBatch(map[], map[a := Some(va)], Slot(2, 0))) == map[a := Some(va)];
    SameColumn(Apply(held, map[a := Some(va)]), held);
    assert b in db.state && b !in held;
  }

  lemma NoRoomFor(col: Column, a: Key, b: Key, limit: nat)
    requires Less(a, b) && col.Keys == {a, b} && EntrySize(b, col[b]) > limit
    ensures NewElements(col, Ongoing(a), limit) == map[]
  {
    hide NewElements, EntrySize;
    KeyOrder();
    assert Remaining(col, Ongoing(a)) == {b};
    assert b in {b} && Least({b}) == b;
    NewElementsAreLowest(col, Ongoing(a), limit);
  }

  lemma UpdateOnly(history: History, a: Key, va: Value)
    requires history == map[Slot(1, 0) := map[], Slot(2, 0) := map[a := Some(va)]]
    ensures Updates(history, Slot(2, 0), Ongoing(a), Some(Slot(1, 0))) == Ok(map[a := Some(va)])
  {
    hide ChangesSince;
    TwoChanges(history, map[a := Some(va)]);
    assert Bounded(map[a := Some(va)], Ongoing(a)) == map[a := Some(va)];
  }

  lemma TwoChanges(history: History, changes: Changes)
    requires history == map[Slot(1, 0) := map[], Slot(2, 0) := changes]
    ensures history.Keys != {} && Earliest(history.Keys) == Slot(1, 0)
    ensures ChangesSince(history, Slot(1, 0)) == changes
  {
    var first, second := Slot(1, 0), Slot(2, 0);
    assert first in history && second in history;
    assert Latest(history.Keys) == second && Earliest(history.Keys) == first;
    assert history - {second} == map[first := map[]];
    var rest: History := map[first := map[]];
    assert first in rest && Latest(rest.Keys) == first;
    assert rest - {first} == map[];
    assert ChangesSince(rest, first) == map[];
    assert ChangesSince(history, first) == map[] + changes == changes;
  }
}
