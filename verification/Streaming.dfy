/**
Streaming one column while it keeps changing. A log of writes with increasing change ids gives the
contents of the column at every change id; a node that follows the log keeps a gap-free suffix of
it as its history. The step invariant ties what a client holds to the log and to a cursor.
 */
module Streaming {
  import opened ByteStrings
  import opened Columns
  import opened Slots
  import opened Wire
  import opened DbModel

  // ---------------------------------------------------------------- the log

  datatype LoggedWrite = LoggedWrite(id: Slot, state: Changes, versioning: Changes) {
    function Of(cf: Cf): Changes {
      if cf == StateCf then state else versioning
    }
  }

  /** The finalized writes every node applies, from a common starting point. */
  datatype Log = Log(firstId: Slot, state: Column, versioning: Column, writes: seq<LoggedWrite>) {
    function Initial(cf: Cf): Column {
      if cf == StateCf then state else versioning
    }
  }

  function IdAt(log: Log, i: nat): Slot
    requires i <= |log.writes|
  {
    if i == 0 then log.firstId else log.writes[i - 1].id
  }

  ghost predicate Increasing(log: Log) {
    forall i, j :: 0 <= i < j <= |log.writes| ==> Before(IdAt(log, i), IdAt(log, j))
  }

  /** A column after the first `i` writes. */
  ghost function Snap(log: Log, cf: Cf, i: nat): Column
    requires i <= |log.writes|
  {
    if i == 0 then log.Initial(cf) else Apply(Snap(log, cf, i - 1), ChangesAt(log, cf, i))
  }

  function ChangesAt(log: Log, cf: Cf, i: nat): Changes
    requires 0 < i <= |log.writes|
  {
    log.writes[i - 1].Of(cf)
  }

  /** The writes after the first `s`, up to the first `p`, as a history records them. */
  function Suffix(log: Log, cf: Cf, s: nat, p: nat): History
    requires p <= |log.writes|
  {
    if p <= s then map[] else Suffix(log, cf, s, p - 1)[IdAt(log, p) := ChangesAt(log, cf, p)]
  }

  /** The history is exactly the last `|hist|` writes of the first `p`. */
  ghost predicate SuffixOf(hist: History, log: Log, cf: Cf, p: nat) {
    |hist| <= p <= |log.writes| && hist == Suffix(log, cf, p - |hist|, p)
  }

  ghost predicate ColumnFollows(db: Db, log: Log, cf: Cf, p: nat) {
    p <= |log.writes| && db.Col(cf) == Snap(log, cf, p) && SuffixOf(db.Hist(cf), log, cf, p)
  }

  /** A node that has applied the first `p` writes of the log. */
  ghost predicate Follows(cfg: DbConfig, db: Db, log: Log, p: nat) {
    && ColumnFollows(db, log, StateCf, p)
    && ColumnFollows(db, log, VersioningCf, p)
    && db.changeId == IdAt(log, p)
    && db.hash == HashOf(cfg.entryHash, db.state)
  }

  // ---------------------------------------------------------------- digest

  lemma MoveEntry(done: Changes, changes: Changes, k: Key)
    requires k in changes && k !in done
    ensures done[k := changes[k]] + (changes - {k}) == done + changes
  {
  }

  /** The digest follows the column through any batch, whatever the batch overwrites or deletes. */
  lemma {:induction false} XorBatchTracksColumn(h: EntryHash, col: Column, done: Changes, changes: Changes)
    requires done.Keys !! changes.Keys
    ensures XorBatch(h, HashOf(h, Apply(col, done)), col, changes) == HashOf(h, Apply(col, done + changes))
    decreases |changes|
  {
    if changes == map[] {
      assert done + changes == done;
    } else {
      var k := Least(changes.Keys);
      var done' := done[k := changes[k]];
      assert Get(col, k) == Get(Apply(col, done), k);
      XorEntryTracksColumn(h, Apply(col, done), k, changes[k]);
      SameColumn(Apply(Apply(col, done), map[k := changes[k]]), Apply(col, done'));
      XorBatchTracksColumn(h, col, done', changes - {k});
      MoveEntry(done, changes, k);
    }
  }

  /** No write can make the stored digest differ from the XOR of the entries of the state column. */
  lemma WriteKeepsDigest(
    cfg: DbConfig, db: Db, changes: Changes, versioningChanges: Changes, changeId: Option<Slot>, resetHistory: bool)
    requires db.hash == HashOf(cfg.entryHash, db.state)
    ensures var r := Write(cfg, db, changes, versioningChanges, changeId, resetHistory);
            r.Ok? ==> r.value.hash == HashOf(cfg.entryHash, r.value.state)
  {
    ApplyNothing(db.state);
    XorBatchTracksColumn(cfg.entryHash, db.state, map[], changes);
    assert map[] + changes == changes;
  }

  /** The column and the digest after a sequence of batches, starting from nothing. */
  ghost function ColumnAfter(batches: seq<Changes>): Column {
    if batches == [] then map[] else Apply(ColumnAfter(batches[..|batches| - 1]), batches[|batches| - 1])
  }

  ghost function DigestAfter(h: EntryHash, batches: seq<Changes>): Digest {
    if batches == [] then InitialHash()
    else
      var earlier := batches[..|batches| - 1];
      XorBatch(h, DigestAfter(h, earlier), ColumnAfter(earlier), batches[|batches| - 1])
  }

  lemma {:induction false} DigestIsOfColumn(h: EntryHash, batches: seq<Changes>)
    ensures DigestAfter(h, batches) == HashOf(h, ColumnAfter(batches))
  {
    if batches != [] {
      var earlier, last := batches[..|batches| - 1], batches[|batches| - 1];
      DigestIsOfColumn(h, earlier);
      ApplyNothing(ColumnAfter(earlier));
      XorBatchTracksColumn(h, ColumnAfter(earlier), map[], last);
      assert map[] + last == last;
    }
  }

  /** The digest depends on the contents only, not on the writes that led to them. */
  lemma DigestIsPathIndependent(h: EntryHash, a: seq<Changes>, b: seq<Changes>)
    requires ColumnAfter(a) == ColumnAfter(b)
    ensures DigestAfter(h, a) == DigestAfter(h, b)
  {
    DigestIsOfColumn(h, a);
    DigestIsOfColumn(h, b);
  }

  /** Deleting a prefix removes exactly the keys that start with it and keeps the digest right. */
  lemma DeletePrefixRemoves(cfg: DbConfig, db: Db, prefix: Key, cf: Cf)
    requires db.hash == HashOf(cfg.entryHash, db.state)
    ensures var r := DeletePrefix(cfg, db, prefix, cf, None).value;
            && r.Col(cf) == (map k | k in db.Col(cf) && !StartsWith(k, prefix) :: db.Col(cf)[k])
            && r.Col(if cf == StateCf then VersioningCf else StateCf)
            == db.Col(if cf == StateCf then VersioningCf else StateCf)
            && r.changeId == db.changeId
            && r.hash == HashOf(cfg.entryHash, r.state)
  {
    var deleted := Deletions(PrefixKeys(db.Col(cf), prefix));
    if cf == StateCf {
      WriteKeepsDigest(cfg, db, deleted, map[], None, false);
    } else {
      WriteKeepsDigest(cfg, db, map[], deleted, None, false);
    }
    SameColumn(Apply(db.Col(cf), deleted), map k | k in db.Col(cf) && !StartsWith(k, prefix) :: db.Col(cf)[k]);
    ApplyNothing(db.state);
    ApplyNothing(db.versioning);
  }

  lemma ResetEmpties(cfg: DbConfig, db: Db, slot: Slot)
    requires db.hash == HashOf(cfg.entryHash, db.state)
    ensures var r := Reset(cfg, db, slot);
            r.state == map[] && r.versioning == map[] && r.changeId == slot && r.hash == InitialHash()
  {
    var detached := db.(changeId := slot, history := map[], versioningHistory := map[]);
    var cleared := DeletePrefix(cfg, detached, [], StateCf, None).value;
    DeletePrefixRemoves(cfg, detached, [], StateCf);
    DeletePrefixRemoves(cfg, cleared, [], VersioningCf);
    assert forall k: Key :: StartsWith(k, []);
  }

  // ---------------------------------------------------------------- history

  /** The ids of a suffix lie between its first and its last write. */
  lemma {:induction false} SuffixKeys(log: Log, cf: Cf, s: nat, p: nat)
    requires Increasing(log) && s < p <= |log.writes|
    ensures IdAt(log, s + 1) in Suffix(log, cf, s, p) && IdAt(log, p) in Suffix(log, cf, s, p)
    ensures forall id :: id in Suffix(log, cf, s, p) ==>
              NotAfter(IdAt(log, s + 1), id) && NotAfter(id, IdAt(log, p))
  {
    if s + 1 < p {
      SuffixKeys(log, cf, s, p - 1);
      assert Before(IdAt(log, p - 1), IdAt(log, p));
      assert Before(IdAt(log, s + 1), IdAt(log, p));
    } else {
      assert Suffix(log, cf, s, p - 1) == map[];
    }
  }

  lemma SuffixIsNew(log: Log, cf: Cf, s: nat, p: nat)
    requires Increasing(log) && s <= p < |log.writes|
    ensures forall id :: id in Suffix(log, cf, s, p) ==> Before(id, IdAt(log, p + 1))
  {
    if s < p {
      SuffixKeys(log, cf, s, p);
      assert Before(IdAt(log, p), IdAt(log, p + 1));
    }
  }

  lemma {:induction false} SuffixSize(log: Log, cf: Cf, s: nat, p: nat)
    requires Increasing(log) && s <= p <= |log.writes|
    ensures |Suffix(log, cf, s, p)| == p - s
  {
    if s < p {
      SuffixSize(log, cf, s, p - 1);
      SuffixIsNew(log, cf, s, p - 1);
      var earlier := Suffix(log, cf, s, p - 1);
      assert IdAt(log, p) !in earlier;
      assert |earlier[IdAt(log, p) := ChangesAt(log, cf, p)]| == |earlier| + 1;
    }
  }

  lemma SuffixEnds(log: Log, cf: Cf, s: nat, p: nat)
    requires Increasing(log) && s < p <= |log.writes|
    ensures Suffix(log, cf, s, p) != map[]
    ensures Latest(Suffix(log, cf, s, p).Keys) == IdAt(log, p)
    ensures Earliest(Suffix(log, cf, s, p).Keys) == IdAt(log, s + 1)
    ensures Suffix(log, cf, s, p) - {IdAt(log, p)} == Suffix(log, cf, s, p - 1)
  {
    SuffixKeys(log, cf, s, p);
    SuffixIsNew(log, cf, s, p - 1);
  }

  lemma {:induction false} SuffixWithoutFirst(log: Log, cf: Cf, s: nat, p: nat)
    requires Increasing(log) && s < p <= |log.writes|
    ensures Suffix(log, cf, s, p) - {IdAt(log, s + 1)} == Suffix(log, cf, s + 1, p)
  {
    if s + 1 < p {
      SuffixWithoutFirst(log, cf, s, p - 1);
      assert IdAt(log, p) != IdAt(log, s + 1);
    } else {
      assert Suffix(log, cf, s, p - 1) == map[];
    }
  }

  /** Trimming keeps the latest ids, as many as it may, each with its changes. */
  ghost predicate KeepsLatest(history: History, max: nat, kept: History) {
    && |kept| == (if |history| <= max then |history| else max)
    && (forall id :: id in kept ==> id in history && kept[id] == history[id])
    && (forall id, x :: id in history && id !in kept && x in kept ==> Before(id, x))
  }

  lemma {:induction false} TrimKeepsLatest(history: History, max: nat)
    ensures KeepsLatest(history, max, Trim(history, max))
    decreases |history|
  {
    if |history| > max {
      var oldest := Earliest(history.Keys);
      var rest := history - {oldest};
      assert |rest| == |rest.Keys| == |history.Keys - {oldest}| == |history| - 1;
      TrimKeepsLatest(rest, max);
      var kept := Trim(history, max);
      forall id, x | id in history && id !in kept && x in kept
        ensures Before(id, x)
      {
        assert x in rest && NotAfter(oldest, x);
      }
    }
  }

  lemma {:induction false} TrimKeepsSuffix(log: Log, cf: Cf, s: nat, p: nat, max: nat)
    requires Increasing(log) && s <= p <= |log.writes|
    ensures SuffixOf(Trim(Suffix(log, cf, s, p), max), log, cf, p)
    decreases p - s
  {
    SuffixSize(log, cf, s, p);
    if p - s > max {
      SuffixEnds(log, cf, s, p);
      SuffixWithoutFirst(log, cf, s, p);
      TrimKeepsSuffix(log, cf, s + 1, p, max);
    }
  }

  /** Recording the next write and trimming leaves the history a gap-free suffix of the log. */
  lemma NextHistoryIsSuffix(hist: History, log: Log, cf: Cf, p: nat, max: nat)
    requires Increasing(log) && SuffixOf(hist, log, cf, p) && p < |log.writes|
    ensures SuffixOf(NextHistory(hist, IdAt(log, p + 1), ChangesAt(log, cf, p + 1), false, max), log, cf, p + 1)
  {
    var s := p - |hist|;
    var id := IdAt(log, p + 1);
    SuffixIsNew(log, cf, s, p);
    assert id !in hist;
    assert Record(hist, id, ChangesAt(log, cf, p + 1)) == Suffix(log, cf, s, p + 1);
    TrimKeepsSuffix(log, cf, s, p + 1, max);
  }

  function Min(a: nat, b: nat): nat {
    if a <= b then a else b
  }

  /** A write adds one change id to the history, up to the maximum. */
  lemma NextHistoryGrows(hist: History, log: Log, cf: Cf, p: nat, max: nat)
    requires Increasing(log) && SuffixOf(hist, log, cf, p) && p < |log.writes|
    ensures |NextHistory(hist, IdAt(log, p + 1), ChangesAt(log, cf, p + 1), false, max)| == Min(|hist| + 1, max)
  {
    var id := IdAt(log, p + 1);
    SuffixIsNew(log, cf, p - |hist|, p);
    assert id !in hist;
    var recorded := Record(hist, id, ChangesAt(log, cf, p + 1));
    assert recorded.Keys == hist.Keys + {id};
    assert |recorded| == |recorded.Keys| == |hist.Keys| + 1 == |hist| + 1;
    TrimKeepsLatest(recorded, max);
  }

  lemma ColumnFollowsWrite(cfg: DbConfig, db: Db, next: Db, log: Log, cf: Cf, p: nat)
    requires Increasing(log) && ColumnFollows(db, log, cf, p) && p < |log.writes|
    requires next.Col(cf) == Apply(db.Col(cf), ChangesAt(log, cf, p + 1))
    requires next.Hist(cf)
          == NextHistory(db.Hist(cf), IdAt(log, p + 1), ChangesAt(log, cf, p + 1), false, cfg.maxHistory)
    ensures ColumnFollows(next, log, cf, p + 1)
  {
    NextHistoryIsSuffix(db.Hist(cf), log, cf, p, cfg.maxHistory);
  }

  /** A node applies one write of the log. */
  ghost function WriteLogged(cfg: DbConfig, db: Db, w: LoggedWrite): Result<Db, DbError> {
    Write(cfg, db, w.state, w.versioning, Some(w.id), false)
  }

  lemma WriteStepsColumn(cfg: DbConfig, db: Db, w: LoggedWrite, cf: Cf)
    requires Before(db.changeId, w.id)
    ensures var next := WriteLogged(cfg, db, w).value;
            && next.Col(cf) == Apply(db.Col(cf), w.Of(cf))
            && next.Hist(cf) == NextHistory(db.Hist(cf), w.id, w.Of(cf), false, cfg.maxHistory)
  {
  }

  /** A node that writes the next entry of the log goes on following it. */
  lemma FollowsWrite(cfg: DbConfig, db: Db, log: Log, p: nat)
    requires Increasing(log) && Follows(cfg, db, log, p) && p < |log.writes|
    ensures var r := WriteLogged(cfg, db, log.writes[p]);
            r.Ok? && Follows(cfg, r.value, log, p + 1)
  {
    var w := log.writes[p];
    assert Before(IdAt(log, p), IdAt(log, p + 1));
    var next := WriteLogged(cfg, db, w).value;
    assert next.hash == HashOf(cfg.entryHash, next.state) by {
      WriteKeepsDigest(cfg, db, w.state, w.versioning, Some(w.id), false);
    }
    assert ColumnFollows(next, log, StateCf, p + 1) by {
      WriteStepsColumn(cfg, db, w, StateCf);
      ColumnFollowsWrite(cfg, db, next, log, StateCf, p);
    }
    assert ColumnFollows(next, log, VersioningCf, p + 1) by {
      WriteStepsColumn(cfg, db, w, VersioningCf);
      ColumnFollowsWrite(cfg, db, next, log, VersioningCf, p);
    }
  }

  /** A prefix deletion is recorded at its change id like any other write, so that clients are sent it. */
  lemma DeletePrefixIsRecorded(cfg: DbConfig, db: Db, prefix: Key, cf: Cf, id: Slot)
    requires cfg.maxHistory >= 1 && NotAfter(db.changeId, id) && forall x :: x in db.Hist(cf) ==> NotAfter(x, id)
    ensures var r := DeletePrefix(cfg, db, prefix, cf, Some(id));
            && r.Ok? && id in r.value.Hist(cf)
            && forall k :: k in PrefixKeys(db.Col(cf), prefix) ==>
                 k in r.value.Hist(cf)[id] && r.value.Hist(cf)[id][k] == None
  {
    hide PrefixKeys, Trim, XorBatch;
    var deletions := Deletions(PrefixKeys(db.Col(cf), prefix));
    var recorded := Record(db.Hist(cf), id, deletions);
    var next := DeletePrefix(cfg, db, prefix, cf, Some(id)).value;
    assert next.Hist(cf) == Trim(recorded, cfg.maxHistory);
    LatestIsKept(recorded, cfg.maxHistory, id);
  }

  lemma LatestIsKept(history: History, max: nat, id: Slot)
    requires max >= 1 && id in history && forall x :: x in history ==> NotAfter(x, id)
    ensures id in Trim(history, max) && Trim(history, max)[id] == history[id]
  {
    hide Trim;
    TrimKeepsLatest(history, max);
    var kept := Trim(history, max);
    assert |history| >= 1 by {
      assert {id} <= history.Keys;
    }
    var x :| x in kept;
    assert id !in kept ==> Before(id, x);
  }

  /** A node after its next `n` writes of the log. */
  ghost function AfterWrites(cfg: DbConfig, db: Db, log: Log, p: nat, n: nat): Db
    requires p + n <= |log.writes|
  {
    if n == 0 then db
    else
      var before := AfterWrites(cfg, db, log, p, n - 1);
      var r := WriteLogged(cfg, before, log.writes[p + n - 1]);
      if r.Ok? then r.value else before
  }

  /** However many writes a node makes, its histories hold exactly the last of them, as many as they may. */
  lemma {:induction false} WritesAreKept(cfg: DbConfig, db: Db, log: Log, p: nat, n: nat, cf: Cf)
    requires Increasing(log) && Follows(cfg, db, log, p) && p + n <= |log.writes|
    requires |db.Hist(cf)| <= cfg.maxHistory
    ensures Follows(cfg, AfterWrites(cfg, db, log, p, n), log, p + n)
    ensures |AfterWrites(cfg, db, log, p, n).Hist(cf)| == Min(|db.Hist(cf)| + n, cfg.maxHistory)
  {
    hide Snap, Suffix, HashOf, XorBatch, NextHistory, Increasing;
    if n > 0 {
      WritesAreKept(cfg, db, log, p, n - 1, cf);
      var before := AfterWrites(cfg, db, log, p, n - 1);
      FollowsWrite(cfg, before, log, p + n - 1);
      HistoryGrows(cfg, before, log, p + n - 1, cf);
    }
  }

  lemma HistoryGrows(cfg: DbConfig, db: Db, log: Log, p: nat, cf: Cf)
    requires Increasing(log) && Follows(cfg, db, log, p) && p < |log.writes|
    requires WriteLogged(cfg, db, log.writes[p]).Ok?
    ensures |WriteLogged(cfg, db, log.writes[p]).value.Hist(cf)| == Min(|db.Hist(cf)| + 1, cfg.maxHistory)
  {
    hide Snap, HashOf, XorBatch, NextHistory;
    assert Before(IdAt(log, p), IdAt(log, p + 1));
    WriteStepsColumn(cfg, db, log.writes[p], cf);
    NextHistoryGrows(db.Hist(cf), log, cf, p, cfg.maxHistory);
  }

  /** Which clients are served: those fewer writes behind than the history holds. */
  lemma UpdatesReach(hist: History, log: Log, cf: Cf, p: nat, c: nat, step: ColumnStep)
    requires Increasing(log) && SuffixOf(hist, log, cf, p) && c <= |log.writes| && !step.Started?
    ensures var r := Updates(hist, IdAt(log, p), step, Some(IdAt(log, c)));
            && (r.Ok? <==> c == p || p - |hist| < c <= p)
            && (r == Err(ChangeIdTooOld) <==> c < p && c <= p - |hist|)
            && (r == Err(FutureChangeId) <==> c > p)
  {
    hide ChangesSince, Bounded, Suffix;
    if c != p {
      assert Before(IdAt(log, if c < p then c else p), IdAt(log, if c < p then p else c));
    }
    if hist != map[] {
      HistoryStarts(hist, log, cf, p);
      var first := p - |hist| + 1;
      if c != first {
        assert Before(IdAt(log, if c < first then c else first), IdAt(log, if c < first then first else c));
      }
    }
  }

  lemma HistoryStarts(hist: History, log: Log, cf: Cf, p: nat)
    requires Increasing(log) && SuffixOf(hist, log, cf, p) && hist != map[]
    ensures |hist| > 0 && Earliest(hist.Keys) == IdAt(log, p - |hist| + 1)
  {
    var k :| k in hist;
    assert {k} <= hist.Keys && |hist| > 0;
    SuffixEnds(log, cf, p - |hist|, p);
  }

  /**
   After `n` writes a node serves exactly the clients that are up to date or fewer writes behind than
   it has kept, which is `n` more than before, up to the maximum; older ones are told so.
   */
  lemma RecentClientsAreServed(
    cfg: DbConfig, db: Db, log: Log, p: nat, n: nat, cf: Cf, c: nat, step: ColumnStep)
    requires Increasing(log) && Follows(cfg, db, log, p) && p + n <= |log.writes|
    requires |db.Hist(cf)| <= cfg.maxHistory && c <= p + n && !step.Started?
    ensures var node := AfterWrites(cfg, db, log, p, n);
            var kept := Min(|db.Hist(cf)| + n, cfg.maxHistory);
            var r := Updates(node.Hist(cf), node.changeId, step, Some(IdAt(log, c)));
            && (r.Ok? <==> c == p + n || p + n - c < kept)
            && (r == Err(ChangeIdTooOld) <==> !(c == p + n || p + n - c < kept))
  {
    hide Updates, AfterWrites, Snap, Suffix, HashOf, Increasing;
    WritesAreKept(cfg, db, log, p, n, cf);
    UpdatesReach(AfterWrites(cfg, db, log, p, n).Hist(cf), log, cf, p + n, c, step);
  }

  lemma {:induction false} NothingSince(hist: History, since: Slot)
    requires forall id :: id in hist ==> Before(id, since)
    ensures ChangesSince(hist, since) == map[]
    decreases |hist|
  {
    if hist != map[] {
      NothingSince(hist - {Latest(hist.Keys)}, since);
    }
  }

  /** The writes `c` to `p` taken together. */
  function Merged(log: Log, cf: Cf, c: nat, p: nat): Changes
    requires 0 < c && p <= |log.writes|
  {
    if p < c then map[] else Merged(log, cf, c, p - 1) + ChangesAt(log, cf, p)
  }

  lemma {:induction false} ChangesSinceIsMerged(log: Log, cf: Cf, s: nat, c: nat, p: nat)
    requires Increasing(log) && s < c <= p <= |log.writes|
    ensures ChangesSince(Suffix(log, cf, s, p), IdAt(log, c)) == Merged(log, cf, c, p)
    decreases p
  {
    SuffixEnds(log, cf, s, p);
    if c == p {
      SuffixIsNew(log, cf, s, p - 1);
      NothingSince(Suffix(log, cf, s, p - 1), IdAt(log, p));
    } else {
      ChangesSinceIsMerged(log, cf, s, c, p - 1);
      assert Before(IdAt(log, c), IdAt(log, p));
    }
  }

  ghost predicate WrittenBetween(log: Log, cf: Cf, c: nat, p: nat, k: Key)
    requires 0 < c && p <= |log.writes|
  {
    exists i :: c <= i <= p && k in ChangesAt(log, cf, i)
  }

  lemma {:induction false} MergedHoldsWritten(log: Log, cf: Cf, c: nat, p: nat, k: Key)
    requires 0 < c && p <= |log.writes|
    ensures k in Merged(log, cf, c, p) <==> WrittenBetween(log, cf, c, p, k)
  {
    if c <= p {
      MergedHoldsWritten(log, cf, c, p - 1, k);
      if WrittenBetween(log, cf, c, p - 1, k) {
        var i :| c <= i <= p - 1 && k in ChangesAt(log, cf, i);
        assert WrittenBetween(log, cf, c, p, k);
      }
    }
  }

  lemma {:induction false} MergedHoldsCurrent(log: Log, cf: Cf, c: nat, p: nat, k: Key)
    requires 0 < c <= p <= |log.writes|
    ensures var merged := Merged(log, cf, c, p);
            Get(Snap(log, cf, p), k) == if k in merged then merged[k] else Get(Snap(log, cf, c), k)
  {
    if c < p {
      MergedHoldsCurrent(log, cf, c, p - 1, k);
    } else {
      assert Merged(log, cf, c, p - 1) == map[];
    }
  }

  /**
   The recorded changes since a change id that the history still reaches are sound and complete:
   they hold exactly the keys written since, each with its current value (None if absent), and every
   other key is as it was at that change id.
   */
  lemma ChangesSinceSoundAndComplete(hist: History, log: Log, cf: Cf, c: nat, p: nat)
    requires Increasing(log) && SuffixOf(hist, log, cf, p)
    requires p - |hist| < c <= p
    ensures var since := ChangesSince(hist, IdAt(log, c));
            && (forall k :: k in since <==> WrittenBetween(log, cf, c, p, k))
            && (forall k :: k in since ==> since[k] == Get(Snap(log, cf, p), k))
            && (forall k :: k !in since ==> Get(Snap(log, cf, p), k) == Get(Snap(log, cf, c), k))
  {
    hide ChangesSince, Merged, Snap, WrittenBetween;
    ChangesSinceIsMerged(log, cf, p - |hist|, c, p);
    var since := ChangesSince(hist, IdAt(log, c));
    forall k
      ensures k in since <==> WrittenBetween(log, cf, c, p, k)
      ensures k in since ==> since[k] == Get(Snap(log, cf, p), k)
      ensures k !in since ==> Get(Snap(log, cf, p), k) == Get(Snap(log, cf, c), k)
    {
      MergedHoldsWritten(log, cf, c, p, k);
      MergedHoldsCurrent(log, cf, c, p, k);
    }
  }

  // ---------------------------------------------------------------- new elements

  lemma {:induction false} FillTakesEntries(
    col: Column, rest: set<Key>, taken: Column, admits: (Column, Key, Value) -> bool)
    requires rest <= col.Keys && taken.Keys !! rest
    ensures var r := Fill(col, rest, taken, admits);
            && taken.Keys <= r.Keys <= taken.Keys + rest
            && (forall k :: k in r ==> r[k] == if k in taken then taken[k] else col[k])
    decreases |rest|
  {
    if rest != {} {
      var k := Least(rest);
      if admits(taken, k, col[k]) {
        FillTakesEntries(col, rest - {k}, taken[k := col[k]], admits);
      }
    }
  }

  /** No remaining key is passed over. */
  lemma {:induction false} FillTakesLowest(
    col: Column, rest: set<Key>, taken: Column, admits: (Column, Key, Value) -> bool, k: Key, x: Key)
    requires rest <= col.Keys && taken.Keys !! rest
    requires k in Fill(col, rest, taken, admits) && k in rest && x in rest && AtMost(x, k)
    ensures x in Fill(col, rest, taken, admits)
    decreases |rest|
  {
    var least := Least(rest);
    assert admits(taken, least, col[least]);
    if x == least {
      FillTakesEntries(col, rest - {least}, taken[least := col[least]], admits);
    } else {
      KeyOrder();
      assert k != least;
      FillTakesLowest(col, rest - {least}, taken[least := col[least]], admits, k, x);
    }
  }

  /** It stops only where the next key is not admitted. */
  lemma {:induction false} FillStopsWhenRefused(
    col: Column, rest: set<Key>, taken: Column, admits: (Column, Key, Value) -> bool)
    requires rest <= col.Keys && taken.Keys !! rest
    ensures var r := Fill(col, rest, taken, admits);
            rest - r.Keys != {} ==> var k := Least(rest - r.Keys); !admits(r, k, col[k])
    decreases |rest|
  {
    if rest != {} {
      var k := Least(rest);
      if admits(taken, k, col[k]) {
        FillStopsWhenRefused(col, rest - {k}, taken[k := col[k]], admits);
        FillTakesEntries(col, rest - {k}, taken[k := col[k]], admits);
        var r := Fill(col, rest, taken, admits);
        assert rest - r.Keys == rest - {k} - r.Keys;
      } else {
        assert rest - taken.Keys == rest;
      }
    }
  }

  lemma {:induction false} FillStaysInBounds(
    col: Column, rest: set<Key>, taken: Column, admits: (Column, Key, Value) -> bool, limit: nat)
    requires rest <= col.Keys
    requires forall x, k :: x in taken && k in rest ==> Less(x, k)
    requires forall t, k, v :: admits(t, k, v) ==> Admits(t, k, v, limit)
    requires WireSize(taken) <= limit
    requires Footprint(taken) <= AllocationBudget(limit) || |taken| == 1
    ensures var r := Fill(col, rest, taken, admits);
            && WireSize(r) <= limit
            && (Footprint(r) <= AllocationBudget(limit) || |r| == 1)
    decreases |rest|
  {
    KeyOrder();
    if rest != {} {
      var k := Least(rest);
      if admits(taken, k, col[k]) {
        SectionAppend(taken, k, col[k]);
        assert taken == map[] ==> |taken[k := col[k]]| == 1;
        FillStaysInBounds(col, rest - {k}, taken[k := col[k]], admits, limit);
      }
    }
  }

  /** The new elements of a part are the longest run of entries right above the cursor that fits. */
  lemma NewElementsAreLowest(col: Column, step: ColumnStep, limit: nat)
    ensures var r := NewElements(col, step, limit);
            && (forall k :: k in r ==> k in col && r[k] == col[k] && !Covered(step, k))
            && (forall k, x :: k in r && x in col && !Covered(step, x) && AtMost(x, k) ==> x in r)
            && WireSize(r) <= limit
            && (Footprint(r) <= AllocationBudget(limit) || |r| == 1)
            && (Remaining(col, step) - r.Keys != {} ==>
                  var k := Least(Remaining(col, step) - r.Keys);
                  || WireSize(r) + EntrySize(k, col[k]) > limit
                  || (r != map[] &&
                      Footprint(r) + EntrySize(k, col[k]) + BATCH_ENTRY_OVERHEAD > AllocationBudget(limit)))
            && (r == map[] <==>
                Remaining(col, step) == {} ||
                var k := Least(Remaining(col, step)); EntrySize(k, col[k]) > limit)
  {
    var admits := (taken, k, v) => Admits(taken, k, v, limit);
    var r := NewElements(col, step, limit);
    FillTakesEntries(col, Remaining(col, step), map[], admits);
    FillStopsWhenRefused(col, Remaining(col, step), map[], admits);
    forall k, x | k in r && x in Remaining(col, step) && AtMost(x, k)
      ensures x in r
    {
      FillTakesLowest(col, Remaining(col, step), map[], admits, k, x);
    }
    FillStaysInBounds(col, Remaining(col, step), map[], admits, limit);
  }

  /**
   Every new-elements section that is built is within the announced size, and the receiver, whose
   budget derives from the same size, parses it back unless the size limit is below 16: under that,
   it refuses every section that holds an entry.
   */
  lemma BuiltSectionsParse(col: Column, step: ColumnStep, limit: nat, maxKey: nat, maxValue: nat)
    requires maxKey < U64_LIMIT && maxValue < U64_LIMIT
    requires forall k :: k in col ==> |k| <= maxKey && |col[k]| <= maxValue
    ensures var built := NewElements(col, step, limit);
            var parse := input => ParseEntry(input, maxKey, maxValue);
            && |SectionBytes(built)| <= limit
            && Consumes(parse)
            && (ParsedSection(parse, SectionBytes(built), map[], 0, AllocationBudget(limit)) == Ok(built)
                <==> limit >= MIN_ELEMENT_WIRE_SIZE || built == map[])
  {
    var built := NewElements(col, step, limit);
    NewElementsAreLowest(col, step, limit);
    SectionRoundTrip(built, maxKey, maxValue, AllocationBudget(limit));
    if built != map[] {
      assert |built| >= 1 by {
        var k :| k in built;
        assert {k} <= built.Keys;
        assert built == map[] || |built| > 0;
      }
      BudgetSteps(limit);
      assert Footprint(built) >= BATCH_ENTRY_OVERHEAD;
    }
  }

  lemma BudgetSteps(limit: nat)
    ensures limit < MIN_ELEMENT_WIRE_SIZE ==> AllocationBudget(limit) < BATCH_ENTRY_OVERHEAD
    ensures limit >= MIN_ELEMENT_WIRE_SIZE ==> AllocationBudget(limit) >= limit + BATCH_ENTRY_OVERHEAD
  {
  }

  // ---------------------------------------------------------------- the step invariant

  /** The cursor the server keeps for its next turn; None is the error it reports. */
  function ServerStep(step: ColumnStep, part: StreamBatch): Option<ColumnStep> {
    if step.Finished? || part.IsEmpty() then Some(Finished(None))
    else if part.newElements != map[] then Some(Ongoing(Greatest(part.newElements.Keys)))
    else if step.Ongoing? then Some(step)
    else None
  }

  /** Every entry is small enough for a part of its own. */
  ghost predicate Fits(col: Column, limit: nat) {
    forall k :: k in col ==> EntrySize(k, col[k]) <= limit
  }

  ghost predicate LogFits(log: Log, cf: Cf, limit: nat) {
    && Fits(log.Initial(cf), limit)
    && forall i, k :: 0 < i <= |log.writes| && k in ChangesAt(log, cf, i) && ChangesAt(log, cf, i)[k].Some? ==>
         EntrySize(k, ChangesAt(log, cf, i)[k].value) <= limit
  }

  lemma {:induction false} SnapFits(log: Log, cf: Cf, limit: nat, i: nat)
    requires LogFits(log, cf, limit) && i <= |log.writes|
    ensures Fits(Snap(log, cf, i), limit)
  {
    if i > 0 {
      SnapFits(log, cf, limit, i - 1);
      var before, changes, after := Snap(log, cf, i - 1), ChangesAt(log, cf, i), Snap(log, cf, i);
      forall k | k in after
        ensures EntrySize(k, after[k]) <= limit
      {
        assert Get(after, k) == if k in changes then changes[k] else Get(before, k);
      }
    }
  }

  /** Successful updates bring what a client holds from change `c` to the server's change `p`. */
  lemma UpdatesCatchUp(
    hist: History, log: Log, cf: Cf, c: nat, p: nat, step: ColumnStep, last: Option<Slot>, held: Column)
    requires Increasing(log) && SuffixOf(hist, log, cf, p) && c <= |log.writes|
    requires held == View(Snap(log, cf, c), step)
    requires !step.Started? ==> last == Some(IdAt(log, c))
    requires Updates(hist, IdAt(log, p), step, last).Ok?
    ensures Apply(held, Updates(hist, IdAt(log, p), step, last).value) == View(Snap(log, cf, p), step)
    ensures !step.Started? ==> c <= p
  {
    if step.Started? {
      ApplyNothing(held);
      ViewNothing(Snap(log, cf, c));
      ViewNothing(Snap(log, cf, p));
    } else if c == p {
      ApplyNothing(held);
    } else {
      assert Before(IdAt(log, c), IdAt(log, p));
      RecordedChangesCatchUp(hist, log, cf, c, p, step);
    }
  }

  lemma RecordedChangesCatchUp(hist: History, log: Log, cf: Cf, c: nat, p: nat, step: ColumnStep)
    requires Increasing(log) && SuffixOf(hist, log, cf, p) && c <= p && hist != map[]
    requires NotAfter(Earliest(hist.Keys), IdAt(log, c))
    ensures Apply(View(Snap(log, cf, c), step), Bounded(ChangesSince(hist, IdAt(log, c)), step))
         == View(Snap(log, cf, p), step)
  {
    HistoryReaches(hist, log, cf, c, p);
    ChangesSinceSoundAndComplete(hist, log, cf, c, p);
    BoundedChangesCatchUp(Snap(log, cf, c), Snap(log, cf, p), ChangesSince(hist, IdAt(log, c)), step);
  }

  lemma BoundedChangesCatchUp(before: Column, after: Column, changes: Changes, step: ColumnStep)
    requires forall k :: Get(after, k) == if k in changes then changes[k] else Get(before, k)
    ensures Apply(View(before, step), Bounded(changes, step)) == View(after, step)
  {
    SameColumn(Apply(View(before, step), Bounded(changes, step)), View(after, step));
  }

  lemma HistoryReaches(hist: History, log: Log, cf: Cf, c: nat, p: nat)
    requires Increasing(log) && SuffixOf(hist, log, cf, p) && c <= p && hist != map[]
    requires NotAfter(Earliest(hist.Keys), IdAt(log, c))
    ensures p - |hist| < c
  {
    SuffixEnds(log, cf, p - |hist|, p);
  }

  /** Without new elements nothing is left above the cursor. */
  lemma NoNewElements(col: Column, step: ColumnStep, limit: nat)
    requires NewElements(col, step, limit) == map[] && Fits(col, limit)
    ensures View(col, step) == col
  {
    NewElementsAreLowest(col, step, limit);
    forall k | k in col
      ensures Covered(step, k)
    {
      assert Covered(step, k) || k in Remaining(col, step);
    }
    ViewAll(col, step);
  }

  /** With new elements, everything up to the last of them is covered. */
  lemma SomeNewElements(col: Column, step: ColumnStep, limit: nat)
    requires NewElements(col, step, limit) != map[]
    ensures var added := NewElements(col, step, limit);
            !step.Finished? && Apply(View(col, step), Puts(added)) == View(col, Ongoing(Greatest(added.Keys)))
  {
    var added := NewElements(col, step, limit);
    NewElementsAreLowest(col, step, limit);
    CoverUpTo(col, step, added);
  }

  lemma CoverUpTo(col: Column, step: ColumnStep, added: Column)
    requires added != map[]
    requires forall k :: k in added ==> k in col && added[k] == col[k] && !Covered(step, k)
    requires forall k, x :: k in added && x in col && !Covered(step, x) && AtMost(x, k) ==> x in added
    ensures Apply(View(col, step), Puts(added)) == View(col, Ongoing(Greatest(added.Keys)))
  {
    var top := Greatest(added.Keys);
    var after := Apply(View(col, step), Puts(added));
    assert top in added && !Covered(step, top);
    forall k
      ensures Get(after, k) == Get(View(col, Ongoing(top)), k)
    {
      if k in added {
        assert AtMost(k, top);
      } else if Covered(step, k) {
        KeyOrder();
        assert Less(k, top);
      }
    }
    SameColumn(after, View(col, Ongoing(top)));
  }

  /** New elements extend a covered column up to the cursor that either side derives from them. */
  lemma NewElementsAdvance(col: Column, step: ColumnStep, limit: nat, part: StreamBatch)
    requires part.newElements == NewElements(col, step, limit) && Fits(col, limit)
    ensures Apply(View(col, step), Puts(part.newElements)) == View(col, ClientStep(part))
    ensures ServerStep(step, part).Some? ==>
              Apply(View(col, step), Puts(part.newElements)) == View(col, ServerStep(step, part).value)
  {
    if part.newElements == map[] {
      NoNewElements(col, step, limit);
      ApplyNothing(View(col, step));
      ViewAll(col, Finished(None));
    } else {
      SomeNewElements(col, step, limit);
    }
  }

  /**
   The step invariant. A client that holds change `c` of a column up to a cursor, on receiving the
   part that a node at change `p` builds for that cursor, holds change `p` of the column up to the
   cursor it records itself, and also up to the cursor the server keeps.
   */
  lemma PartPreservesView(
    cfg: DbConfig, db: Db, log: Log, cf: Cf, c: nat, p: nat, step: ColumnStep, last: Option<Slot>, held: Column)
    requires Increasing(log) && ColumnFollows(db, log, cf, p) && db.changeId == IdAt(log, p)
    requires LogFits(log, cf, cfg.Limit(cf))
    requires c <= |log.writes| && held == View(Snap(log, cf, c), step)
    requires !step.Started? ==> last == Some(IdAt(log, c))
    requires GetBatch(cfg, db, cf, step, last).Ok?
    ensures var part := GetBatch(cfg, db, cf, step, last).value;
            && Apply(held, PartChanges(part)) == View(Snap(log, cf, p), ClientStep(part))
            && (ServerStep(step, part).Some? ==>
                  Apply(held, PartChanges(part)) == View(Snap(log, cf, p), ServerStep(step, part).value))
            && (!step.Started? ==> c <= p)
  {
    var part := GetBatch(cfg, db, cf, step, last).value;
    UpdatesCatchUp(db.Hist(cf), log, cf, c, p, step, last, held);
    SnapFits(log, cf, cfg.Limit(cf), p);
    NewElementsAdvance(db.Col(cf), step, cfg.Limit(cf), part);
    ApplyTwice(held, part.updates, Puts(part.newElements));
  }
}
