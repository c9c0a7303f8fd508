/**
The database as a value: what one write, one reset and one request for a stream batch do to it.
The class in MassaDb.dfy is proved to compute exactly these functions.
 */
module DbModel {
  import opened ByteStrings
  import opened Columns
  import opened Slots
  import opened Wire

  type History = map<Slot, Changes>

  datatype Cf = StateCf | VersioningCf

  datatype DbError =
    | FutureChangeId   // the asked change id is ahead of this node
    | ChangeIdTooOld   // the history no longer reaches back to the asked change id
    | NoChangeId       // a stream is under way but no change id was given
    | InvalidChangeId  // a write would move the change id backwards

  /** A part of one column: new entries above the cursor and changes at or below it. */
  datatype StreamBatch = StreamBatch(newElements: Column, updates: Changes, changeId: Slot) {
    predicate IsEmpty() {
      updates == map[] && newElements == map[]
    }
  }

  datatype Db = Db(
    state: Column,
    versioning: Column,
    changeId: Slot,
    hash: Digest,
    history: History,
    versioningHistory: History
  ) {
    function Col(cf: Cf): Column {
      if cf == StateCf then state else versioning
    }

    function Hist(cf: Cf): History {
      if cf == StateCf then history else versioningHistory
    }
  }

  /** What a node is configured with. */
  datatype DbConfig = DbConfig(entryHash: EntryHash, maxHistory: nat, maxStateSize: nat, maxVersioningSize: nat) {
    function Limit(cf: Cf): nat {
      if cf == StateCf then maxStateSize else maxVersioningSize
    }
  }

  // ---------------------------------------------------------------- writing

  /** The digest after a batch, each key compared with the column before the write. */
  function XorBatch(h: EntryHash, digest: Digest, col: Column, changes: Changes): Digest
    decreases |changes|
  {
    if changes == map[] then digest
    else
      var k := Least(changes.Keys);
      XorBatch(h, XorEntry(h, digest, k, Get(col, k), changes[k]), col, changes - {k})
  }

  function Record(history: History, id: Slot, changes: Changes): History {
    history[id := if id in history then history[id] + changes else changes]
  }

  /** Drops the oldest change ids until at most `max` are left. */
  function Trim(history: History, max: nat): History
    decreases |history|
  {
    if |history| <= max then history else Trim(history - {Earliest(history.Keys)}, max)
  }

  function NextHistory(history: History, id: Slot, changes: Changes, resetHistory: bool, max: nat): History {
    if resetHistory then map[] else Trim(Record(history, id, changes), max)
  }

  ghost function Write(
    cfg: DbConfig, db: Db, changes: Changes, versioningChanges: Changes, changeId: Option<Slot>, resetHistory: bool
  ): (r: Result<Db, DbError>) {
    if changeId.Some? && Before(changeId.value, db.changeId) then Err(InvalidChangeId)
    else
      var id := if changeId.Some? then changeId.value else db.changeId;
      Ok(Db(
           Apply(db.state, changes),
           Apply(db.versioning, versioningChanges),
           id,
           XorBatch(cfg.entryHash, db.hash, db.state, changes),
           NextHistory(db.history, id, changes, resetHistory, cfg.maxHistory),
           NextHistory(db.versioningHistory, id, versioningChanges, resetHistory, cfg.maxHistory)))
  }

  function Deletions(keys: set<Key>): Changes {
    map k | k in keys :: None
  }

  function PrefixKeys(col: Column, prefix: Key): set<Key> {
    set k | k in col && StartsWith(k, prefix)
  }

  /** Every key of one column that starts with `prefix` is deleted, in one write. */
  ghost function DeletePrefix(cfg: DbConfig, db: Db, prefix: Key, cf: Cf, changeId: Option<Slot>): Result<Db, DbError> {
    if cf == StateCf then Write(cfg, db, Deletions(PrefixKeys(db.state, prefix)), map[], changeId, false)
    else Write(cfg, db, map[], Deletions(PrefixKeys(db.versioning, prefix)), changeId, false)
  }

  /** The change id and the histories are reset, then both columns are emptied. */
  ghost function Reset(cfg: DbConfig, db: Db, slot: Slot): Db {
    var detached := db.(changeId := slot, history := map[], versioningHistory := map[]);
    DeletePrefix(cfg, DeletePrefix(cfg, detached, [], StateCf, None).value, [], VersioningCf, None).value
  }

  /** The changes a client writes for one received part. */
  function PartChanges(part: StreamBatch): Changes {
    part.updates + Puts(part.newElements)
  }

  /** The cursor a client derives from one received part. */
  function ClientStep(part: StreamBatch): ColumnStep {
    if part.newElements == map[] then Finished(None) else Ongoing(Greatest(part.newElements.Keys))
  }

  // ---------------------------------------------------------------- reading a batch

  /** Everything recorded from change id `since` on, later ids overriding earlier ones. */
  function ChangesSince(history: History, since: Slot): Changes
    decreases |history|
  {
    if history == map[] then map[]
    else
      var id := Latest(history.Keys);
      var earlier := ChangesSince(history - {id}, since);
      if Before(id, since) then earlier else earlier + history[id]
  }

  function Bounded(changes: Changes, step: ColumnStep): Changes {
    map k | k in changes && Covered(step, k) :: changes[k]
  }

  function Updates(history: History, current: Slot, step: ColumnStep, last: Option<Slot>): Result<Changes, DbError> {
    if step.Started? then Ok(map[])
    else if last.None? then Err(NoChangeId)
    else if Before(current, last.value) then Err(FutureChangeId)
    else if current == last.value then Ok(map[])
    else if history != map[] && NotAfter(Earliest(history.Keys), last.value)
    then Ok(Bounded(ChangesSince(history, last.value), step))
    else Err(ChangeIdTooOld)
  }

  /** Whether a batch that already holds `taken` admits one more entry. */
  predicate Admits(taken: Column, k: Key, v: Value, limit: nat) {
    && WireSize(taken) + EntrySize(k, v) <= limit
    && (Footprint(taken) + EntrySize(k, v) + BATCH_ENTRY_OVERHEAD <= AllocationBudget(limit) || taken == map[])
  }

  /** Takes entries of `rest` in key order until one is not admitted next to those already taken. */
  function Fill(col: Column, rest: set<Key>, taken: Column, admits: (Column, Key, Value) -> bool): Column
    requires rest <= col.Keys
    decreases |rest|
  {
    if rest == {} then taken
    else
      var k := Least(rest);
      if admits(taken, k, col[k]) then Fill(col, rest - {k}, taken[k := col[k]], admits) else taken
  }

  function Remaining(col: Column, step: ColumnStep): set<Key> {
    set k | k in col && !Covered(step, k)
  }

  function NewElements(col: Column, step: ColumnStep, limit: nat): Column {
    Fill(col, Remaining(col, step), map[], (taken, k, v) => Admits(taken, k, v, limit))
  }

  function GetBatch(cfg: DbConfig, db: Db, cf: Cf, step: ColumnStep, last: Option<Slot>): Result<StreamBatch, DbError> {
    match Updates(db.Hist(cf), db.changeId, step, last)
    case Err(e) => Err(e)
    case Ok(updates) => Ok(StreamBatch(NewElements(db.Col(cf), step, cfg.Limit(cf)), updates, db.changeId))
  }
}
