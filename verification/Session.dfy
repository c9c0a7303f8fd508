/**
One bootstrap session of a server on which nothing is written meanwhile: the loop that reassigns
the four cursors ends, and a client that reads what it sent holds the server's columns.
 */
module Session {
  import opened ByteStrings
  import opened Columns
  import opened Slots
  import opened DbModel
  import opened Streaming
  import opened MassaDb
  import opened Consensus
  import opened Bootstrap
  import opened Convergence

  // ---------------------------------------------------------------- progress

  function Rank(step: ColumnStep): nat {
    if step.Finished? then 0 else 1
  }

  /** What is left to stream of one column: the keys above the cursor and the final empty part. */
  function ColumnLeft(col: Column, step: ColumnStep): nat {
    |Remaining(col, step)| + Rank(step)
  }

  function ColumnsLeft(db: Db, cur: Cursors): nat {
    ColumnLeft(db.state, cur.stateStep) + ColumnLeft(db.versioning, cur.versioningStep)
  }

  function BlocksLeft(view: ConsensusView, slot: Slot, cur: Cursors): nat {
    match Required(view, Some(slot))
    case None => 0
    case Some(required) => |required - Sent(cur.consensusStep)|
  }

  function Staleness(db: Db, cur: Cursors): nat {
    if cur.lastSlot == Some(db.changeId) then 0 else 1
  }

  /** Once nothing is written any more, each part of an unfinished column leaves less of it. */
  lemma ColumnProgress(cfg: DbConfig, db: Db, cf: Cf, step: ColumnStep, part: StreamBatch, next: ColumnStep)
    requires GetBatch(cfg, db, cf, step, Some(db.changeId)) == Ok(part) && ServerStep(step, part) == Some(next)
    ensures if step.Finished? then next.Finished? && part.IsEmpty()
            else ColumnLeft(db.Col(cf), next) < ColumnLeft(db.Col(cf), step)
    ensures next.Finished? ==> part.IsEmpty()
  {
    var col := db.Col(cf);
    NewElementsAreLowest(col, step, cfg.Limit(cf));
    assert part.updates == map[];
    if part.newElements == map[] {
      assert Remaining(col, Finished(None)) == {};
    } else {
      KeyOrder();
      var top := Greatest(part.newElements.Keys);
      assert top in Remaining(col, step) && top !in Remaining(col, next);
      assert forall k :: Covered(step, k) ==> Covered(next, k);
      SmallerSet(Remaining(col, next), Remaining(col, step), top);
    }
  }

  /** Each turn that streams blocks leaves fewer of the required blocks. */
  lemma ConsensusProgress(view: ConsensusView, end: Option<Slot>, required: set<BlockId>, cursor: ConsensusStep,
                          partSize: nat, part: ConsensusPart)
    requires IsPart(view, end, required, cursor, partSize, part) && !part.cursor.Finished?
    ensures |required - Sent(part.cursor)| < |required - Sent(cursor)|
  {
    var b := part.blocks[0];
    assert b in part.blocks && b.id in Ids(part.blocks);
    SmallerSet(required - Sent(part.cursor), required - Sent(cursor), b.id);
  }

  /**
   A turn after which the server goes on makes progress: it catches up with the database, or leaves
   less of the columns, or the same of the columns and fewer blocks.
   */
  lemma TurnProgress(cfg: ServerConfig, db: Db, cur: Cursors, view: ConsensusView, consensus: Option<ConsensusPart>,
                     next: Cursors)
    requires ConsensusAnswer(cfg, db, cur, view, consensus)
    requires var outcome := Turn(cfg, db, cur, consensus); outcome.Send? && outcome.next == Some(next)
    ensures next.lastSlot == Some(db.changeId)
    ensures cur.lastSlot == Some(db.changeId) ==>
              || ColumnsLeft(db, next) < ColumnsLeft(db, cur)
              || (ColumnsLeft(db, next) == ColumnsLeft(db, cur) &&
                  BlocksLeft(view, db.changeId, next) < BlocksLeft(view, db.changeId, cur))
  {
    if cur.lastSlot == Some(db.changeId) {
      var t := ReadFinalState(cfg.db, db, cur);
      ReadyMeans(cfg.db, db, cur);
      ColumnProgress(cfg.db, db, StateCf, cur.stateStep, t.state, t.stateStep);
      ColumnProgress(cfg.db, db, VersioningCf, cur.versioningStep, t.versioning, t.versioningStep);
      if cur.stateStep.Finished? && cur.versioningStep.Finished? {
        FinishedColumns(db, cur, next);
        ConsensusProgress(view, Some(db.changeId), Required(view, Some(db.changeId)).value, cur.consensusStep,
                          cfg.partSize, consensus.value);
      }
    }
  }

  lemma FinishedColumns(db: Db, cur: Cursors, next: Cursors)
    requires cur.stateStep.Finished? && cur.versioningStep.Finished?
    requires next.stateStep.Finished? && next.versioningStep.Finished?
    ensures ColumnsLeft(db, next) == ColumnsLeft(db, cur) == 0
  {
    assert forall col: Column, step: ColumnStep :: step.Finished? ==> Remaining(col, step) == {};
  }

  // ---------------------------------------------------------------- the loop

  function LastOf(sent: seq<Message>): Message
    requires sent != []
  {
    sent[|sent| - 1]
  }

  /** `sent` is what a session that started with `start` has sent when its cursors are `cur`. */
  ghost predicate Streamed(
    cfg: ServerConfig, db: Db, view: ConsensusView, start: Cursors, sent: seq<Message>, cur: Cursors)
    decreases |sent|
  {
    if sent == [] then cur == start
    else exists prev, consensus :: Streamed(cfg, db, view, start, sent[..|sent| - 1], prev) &&
                                   TurnsTo(cfg, db, view, prev, consensus, Send(LastOf(sent), Some(cur)))
  }

  ghost predicate TurnsTo(cfg: ServerConfig, db: Db, view: ConsensusView, cur: Cursors,
                          consensus: Option<ConsensusPart>, outcome: Outcome)
  {
    ConsensusAnswer(cfg, db, cur, view, consensus) && Turn(cfg, db, cur, consensus) == outcome
  }

  /** The session went through `sent` and then its turn had this outcome. */
  ghost predicate EndsWith(
    cfg: ServerConfig, db: Db, view: ConsensusView, start: Cursors, sent: seq<Message>, cur: Cursors, outcome: Outcome)
  {
    Streamed(cfg, db, view, start, sent, cur) && exists consensus :: TurnsTo(cfg, db, view, cur, consensus, outcome)
  }

  lemma StreamedMore(cfg: ServerConfig, db: Db, view: ConsensusView, start: Cursors, sent: seq<Message>, cur: Cursors,
                     consensus: Option<ConsensusPart>, message: Message, next: Cursors)
    requires Streamed(cfg, db, view, start, sent, cur)
    requires TurnsTo(cfg, db, view, cur, consensus, Send(message, Some(next)))
    ensures Streamed(cfg, db, view, start, sent + [message], next)
  {
    assert (sent + [message])[..|sent|] == sent && LastOf(sent + [message]) == message;
  }

  /** The part of a turn that runs under the read lock. */
  method ReadParts(db: RawMassaDb, cur: Cursors) returns (t: FinalStateTurn)
    ensures t == ReadFinalState(db.cfg, db.Model(), cur)
  {
    var statePart := db.GetBatchToStream(StateCf, cur.stateStep, cur.lastSlot);
    if statePart.Err? {
      return if statePart.error == ChangeIdTooOld then TurnTooOld else TurnFailed;
    }
    var stateStep := ServerStep(cur.stateStep, statePart.value);
    if stateStep.None? {
      return TurnFailed;
    }
    var versioningPart := db.GetBatchToStream(VersioningCf, cur.versioningStep, cur.lastSlot);
    if versioningPart.Err? {
      return if versioningPart.error == ChangeIdTooOld then TurnTooOld else TurnFailed;
    }
    var versioningStep := ServerStep(cur.versioningStep, versioningPart.value);
    if versioningStep.None? {
      return TurnFailed;
    }
    if cur.lastSlot.Some? && Before(db.changeId, cur.lastSlot.value) {
      return TurnFailed;
    }
    return TurnReady(statePart.value, versioningPart.value, stateStep.value, versioningStep.value);
  }

  /**
   The session loop. Nothing writes to the database meanwhile, so the loop ends: with an error, or
   with a last message that stops the session. It is BootstrapFinished exactly when the server can
   resume from the ask and can list the blocks it requires.
   */
  method StreamBootstrapInformation(db: RawMassaDb, partSize: nat, view: ConsensusView, start: Cursors)
    returns (sent: seq<Message>, stop: Option<Message>, cur: Cursors)
    ensures EndsWith(ServerConfig(db.cfg, partSize), db.Model(), view, start, sent, cur,
                     if stop.Some? then Send(stop.value, None) else Fail)
    ensures stop == Some(BootstrapFinished) <==>
            Healthy(db.Model(), start) && Required(view, Some(db.changeId)).Some?
    ensures stop == Some(SlotTooOld) <==> TooOld(db.Model(), start)
  {
    hide ColumnsLeft, BlocksLeft, ReadFinalState, IsPart, ServerStep, Healthy, TooOld, Required;
    sent, cur := [], start;
    while true
      invariant Streamed(ServerConfig(db.cfg, partSize), db.Model(), view, start, sent, cur)
      decreases Staleness(db.Model(), cur), ColumnsLeft(db.Model(), cur), BlocksLeft(view, db.changeId, cur)
    {
      ghost var cfg := ServerConfig(db.cfg, partSize);
      var t := ReadParts(db, cur);
      if t.TurnFailed? {
        assert TurnsTo(cfg, db.Model(), view, cur, None, Fail);
        SessionOutcome(cfg, db.Model(), view, start, sent, cur, Fail);
        return sent, None, cur;
      }
      if t.TurnTooOld? {
        assert TurnsTo(cfg, db.Model(), view, cur, None, Send(SlotTooOld, None));
        SessionOutcome(cfg, db.Model(), view, start, sent, cur, Send(SlotTooOld, None));
        return sent, Some(SlotTooOld), cur;
      }
      var slot := db.changeId;
      var consensusStep, blocks, outdated := cur.consensusStep, [], {};
      ghost var consensus: Option<ConsensusPart> := None;
      if t.stateStep.Finished? && t.versioningStep.Finished? {
        var answer := GetBootstrapPart(view, consensusStep, Finished(Some(slot)), partSize);
        if answer.None? {
          assert TurnsTo(cfg, db.Model(), view, cur, None, Fail);
          SessionOutcome(cfg, db.Model(), view, start, sent, cur, Fail);
          return sent, None, cur;
        }
        consensus := answer;
        blocks, outdated, consensusStep := answer.value.blocks, answer.value.outdated, answer.value.cursor;
      }
      if t.stateStep.Finished? && t.versioningStep.Finished? && consensusStep.Finished?
         && t.state.IsEmpty() && t.versioning.IsEmpty()
      {
        assert TurnsTo(cfg, db.Model(), view, cur, consensus, Send(BootstrapFinished, None));
        SessionOutcome(cfg, db.Model(), view, start, sent, cur, Send(BootstrapFinished, None));
        return sent, Some(BootstrapFinished), cur;
      }
      var next := Cursors(Some(slot), t.stateStep, t.versioningStep, consensusStep);
      var message := Part(slot, t.state, t.versioning, blocks, outdated);
      assert TurnsTo(cfg, db.Model(), view, cur, consensus, Send(message, Some(next)));
      StreamedMore(cfg, db.Model(), view, start, sent, cur, consensus, message, next);
      TurnProgress(cfg, db.Model(), cur, view, consensus, next);
      sent, cur := sent + [message], next;
    }
  }

  // ---------------------------------------------------------------- what a session achieves

  /** The server can tell what changed in a column since a client's change id. */
  predicate CanResume(history: History, current: Slot, step: ColumnStep, last: Slot) {
    step.Started? || last == current || (history != map[] && NotAfter(Earliest(history.Keys), last))
  }

  /** The cursors are those of a first ask, or resume from a change the server still knows. */
  predicate Healthy(db: Db, cur: Cursors) {
    match cur.lastSlot
    case None => cur.stateStep.Started? && cur.versioningStep.Started?
    case Some(last) =>
      && NotAfter(last, db.changeId)
      && CanResume(db.history, db.changeId, cur.stateStep, last)
      && CanResume(db.versioningHistory, db.changeId, cur.versioningStep, last)
  }

  lemma HealthyColumn(cfg: DbConfig, db: Db, cf: Cf, step: ColumnStep, last: Option<Slot>)
    ensures var r := GetBatch(cfg, db, cf, step, last);
            && (r.Ok? <==> step.Started? || (last.Some? && NotAfter(last.value, db.changeId) &&
                                            CanResume(db.Hist(cf), db.changeId, step, last.value)))
            && (r.Ok? ==> ServerStep(step, r.value).Some?)
            && (r == Err(ChangeIdTooOld) <==> last.Some? && Before(last.value, db.changeId) &&
                                              !CanResume(db.Hist(cf), db.changeId, step, last.value))
  {
  }

  /** The cursors resume from a change that a history has lost. */
  predicate TooOld(db: Db, cur: Cursors) {
    && cur.lastSlot.Some? && Before(cur.lastSlot.value, db.changeId)
    && !(CanResume(db.history, db.changeId, cur.stateStep, cur.lastSlot.value) &&
         CanResume(db.versioningHistory, db.changeId, cur.versioningStep, cur.lastSlot.value))
  }

  /** A turn can read the database exactly when its cursors are healthy; those that are too old are told so. */
  lemma HealthyMeansReady(cfg: DbConfig, db: Db, cur: Cursors)
    ensures ReadFinalState(cfg, db, cur).TurnReady? <==> Healthy(db, cur)
    ensures ReadFinalState(cfg, db, cur).TurnTooOld? <==> TooOld(db, cur)
  {
    hide GetBatch, ServerStep, CanResume;
    HealthyColumn(cfg, db, StateCf, cur.stateStep, cur.lastSlot);
    HealthyColumn(cfg, db, VersioningCf, cur.versioningStep, cur.lastSlot);
    StartedResumes(db, cur);
  }

  lemma StartedResumes(db: Db, cur: Cursors)
    ensures cur.lastSlot.Some? && cur.stateStep.Started? ==>
              CanResume(db.history, db.changeId, cur.stateStep, cur.lastSlot.value)
    ensures cur.lastSlot.Some? && cur.versioningStep.Started? ==>
              CanResume(db.versioningHistory, db.changeId, cur.versioningStep, cur.lastSlot.value)
  {
  }

  lemma SentMeansHealthy(cfg: ServerConfig, db: Db, view: ConsensusView, cur: Cursors,
                         consensus: Option<ConsensusPart>, message: Message, next: Cursors)
    requires TurnsTo(cfg, db, view, cur, consensus, Send(message, Some(next)))
    ensures Healthy(db, cur) && Healthy(db, next)
  {
    HealthyMeansReady(cfg.db, db, cur);
  }

  lemma {:induction false} StreamedMeansHealthy(
    cfg: ServerConfig, db: Db, view: ConsensusView, start: Cursors, sent: seq<Message>, cur: Cursors)
    requires Streamed(cfg, db, view, start, sent, cur) && sent != []
    ensures Healthy(db, start) && Healthy(db, cur)
    decreases |sent|
  {
    var shorter := sent[..|sent| - 1];
    var prev, consensus :| Streamed(cfg, db, view, start, shorter, prev) &&
                           TurnsTo(cfg, db, view, prev, consensus, Send(LastOf(sent), Some(cur)));
    SentMeansHealthy(cfg, db, view, prev, consensus, LastOf(sent), cur);
    if shorter != [] {
      StreamedMeansHealthy(cfg, db, view, start, shorter, prev);
    }
  }

  lemma StopOutcome(cfg: ServerConfig, db: Db, view: ConsensusView, cur: Cursors, consensus: Option<ConsensusPart>,
                    outcome: Outcome)
    requires TurnsTo(cfg, db, view, cur, consensus, outcome) && (outcome.Fail? || outcome.next.None?)
    ensures outcome == Send(BootstrapFinished, None) <==> Healthy(db, cur) && Required(view, Some(db.changeId)).Some?
    ensures outcome == Send(SlotTooOld, None) <==> TooOld(db, cur)
  {
    HealthyMeansReady(cfg.db, db, cur);
  }

  /**
   A session succeeds exactly when the server can resume from the client's ask and can list the
   blocks it requires; it tells the client to start over exactly when a history has lost its change.
   */
  lemma SessionOutcome(cfg: ServerConfig, db: Db, view: ConsensusView, start: Cursors, sent: seq<Message>,
                       last: Cursors, outcome: Outcome)
    requires EndsWith(cfg, db, view, start, sent, last, outcome) && (outcome.Fail? || outcome.next.None?)
    ensures outcome == Send(BootstrapFinished, None) <==> Healthy(db, start) && Required(view, Some(db.changeId)).Some?
    ensures outcome == Send(SlotTooOld, None) <==> TooOld(db, start)
  {
    var consensus :| TurnsTo(cfg, db, view, last, consensus, outcome);
    StopOutcome(cfg, db, view, last, consensus, outcome);
    if sent != [] {
      StreamedMeansHealthy(cfg, db, view, start, sent, last);
    }
  }

  lemma TurnAppends(w: World, cfg: ServerConfig, db: Db, p: nat, view: ConsensusView, client: Client,
                    sent: seq<Message>, cur: Cursors, consensus: Option<ConsensusPart>, message: Message, next: Cursors)
    requires Configured(w) && ServerConfigured(w, cfg) && Follows(cfg.db, db, w.log, p)
    requires QueueOk(w, client, sent, Some(cur))
    requires TurnsTo(cfg, db, view, cur, consensus, Send(message, Some(next)))
    ensures QueueOk(w, client, sent + [message], Some(next))
  {
    hide Configured, ServerConfigured, Follows, QueueOk, SessionOk, Replay, ConsensusAnswer, Turn;
    QueueReplays(w, client, sent, cur);
    var replayed := Replay(w, client, sent);
    if replayed.Some? {
      TurnFits(w, cfg, db, p, replayed.value, cur, view, consensus);
    }
    QueueAppend(w, client, sent, cur, message, Some(next));
  }

  lemma EmptyQueue(w: World, client: Client, start: Cursors)
    requires SessionOk(w, client, start)
    ensures QueueOk(w, client, [], Some(start))
  {
  }

  lemma {:induction false} StreamedFits(w: World, cfg: ServerConfig, db: Db, p: nat, view: ConsensusView,
                                        client: Client, start: Cursors, sent: seq<Message>, cur: Cursors)
    requires Configured(w) && ServerConfigured(w, cfg) && Follows(cfg.db, db, w.log, p)
    requires SessionOk(w, client, start) && Streamed(cfg, db, view, start, sent, cur)
    ensures QueueOk(w, client, sent, Some(cur))
    decreases |sent|
  {
    hide Configured, ServerConfigured, Follows, SessionOk, TurnsTo, QueueOk;
    if sent == [] {
      EmptyQueue(w, client, start);
    } else {
      var shorter, message := sent[..|sent| - 1], LastOf(sent);
      var prev, consensus :| Streamed(cfg, db, view, start, shorter, prev) &&
                             TurnsTo(cfg, db, view, prev, consensus, Send(message, Some(cur)));
      StreamedFits(w, cfg, db, p, view, client, start, shorter, prev);
      TurnAppends(w, cfg, db, p, view, client, shorter, prev, consensus, message, cur);
      assert sent == shorter + [message];
    }
  }

  /** A client that reads all that a successful session sent holds the server's columns and digest. */
  lemma SessionCompletes(w: World, cfg: ServerConfig, db: Db, p: nat, view: ConsensusView, client: Client,
                         start: Cursors, sent: seq<Message>, last: Cursors)
    requires Configured(w) && ServerConfigured(w, cfg) && Follows(cfg.db, db, w.log, p)
    requires SessionOk(w, client, start)
    requires EndsWith(cfg, db, view, start, sent, last, Send(BootstrapFinished, None))
    ensures var reader := Replay(w, client, sent);
            && (ResetsEarly(w) ==> reader.Some?)
            && (reader.Some? ==>
                  && reader.value.db.state == db.state
                  && reader.value.db.versioning == db.versioning
                  && reader.value.db.hash == db.hash)
  {
    hide ServerConfigured, Follows, SessionOk, Streamed, QueueOk, Replay, Turn, ConsensusAnswer, ResetsEarly;
    StreamedFits(w, cfg, db, p, view, client, start, sent, last);
    var consensus :| TurnsTo(cfg, db, view, last, consensus, Send(BootstrapFinished, None));
    FinishedQueue(w, cfg, db, p, client, sent, last, consensus);
  }
}
