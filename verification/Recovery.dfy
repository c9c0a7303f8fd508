/**
The bootstrap protocol can always be completed: whatever has happened, a client that keeps trying one
server that goes on can reach the end of the log.
 */
module Recovery {
  import opened ByteStrings
  import opened Columns
  import opened Slots
  import opened Wire
  import opened DbModel
  import opened Streaming
  import opened Consensus
  import opened Bootstrap
  import opened Convergence
  import opened Session

  // ---------------------------------------------------------------- paths

  ghost predicate IsPath(w: World, path: seq<System>) {
    path != [] && forall i :: 0 <= i < |path| - 1 ==> Next(w, path[i], path[i + 1])
  }

  /** The client has completed its bootstrap, and holds the last change of the log. */
  ghost predicate Completed(w: World, s: System) {
    s.client.done && HoldsAll(w, s.client.db, |w.log.writes|)
  }

  /** A turn in which a server declares the bootstrap finished. */
  ghost predicate FinishingTurn(w: World, s: System, s': System) {
    exists view, consensus :: FinishesWith(w, s, s', view, consensus)
  }

  ghost predicate FinishesWith(w: World, s: System, s': System, view: ConsensusView, consensus: Option<ConsensusPart>) {
    && ServerTurns(w, s, s', view, consensus)
    && var conn := s.connection.value;
       Turn(w.servers[conn.server], s.servers[conn.server], conn.cursors.value, consensus)
       == Send(BootstrapFinished, None)
  }

  /** The path ends with a finishing turn and with the client reading its message. */
  ghost predicate CompletesAlong(w: World, s: System, path: seq<System>) {
    && IsPath(w, path) && path[0] == s && |path| >= 3
    && FinishingTurn(w, path[|path| - 3], path[|path| - 2])
    && Completed(w, path[|path| - 1])
  }

  /** The system can go on from here until the client has completed. */
  ghost predicate Completable(w: World, s: System) {
    exists path :: CompletesAlong(w, s, path)
  }

  lemma CompletedNow(w: World, s: System, s': System, s'': System)
    requires Next(w, s, s') && Next(w, s', s'') && FinishingTurn(w, s, s') && Completed(w, s'')
    ensures Completable(w, s)
  {
    hide Next, FinishingTurn, Completed;
    assert CompletesAlong(w, s, [s, s', s'']);
  }

  lemma OneStepEarlier(w: World, s: System, s': System)
    requires Next(w, s, s') && Completable(w, s')
    ensures Completable(w, s)
  {
    hide Next, FinishingTurn, Completed;
    var path :| CompletesAlong(w, s', path);
    var longer := [s] + path;
    forall i | 0 <= i < |longer| - 1
      ensures Next(w, longer[i], longer[i + 1])
    {
      if i > 0 {
        assert longer[i] == path[i - 1] && longer[i + 1] == path[i - 1 + 1];
      }
    }
    assert longer[1..] == path;
    assert CompletesAlong(w, s, longer);
  }

  // ---------------------------------------------------------------- answers of the consensus controller

  /** Some of the given blocks, as many as a part takes. */
  lemma {:induction false} TakeBlocks(view: ConsensusView, ids: set<BlockId>, n: nat) returns (blocks: seq<Block>)
    requires forall id :: id in ids ==> id in view.statuses && view.statuses[id].Active?
    ensures Distinct(blocks) && |blocks| <= n && Ids(blocks) <= ids
    ensures forall b :: b in blocks ==> b.id in ids && b.slot == view.statuses[b.id].slot
    ensures |blocks| < n ==> Ids(blocks) == ids
    decreases n
  {
    blocks := [];
    if n > 0 && ids != {} {
      var id :| id in ids;
      var rest := TakeBlocks(view, ids - {id}, n - 1);
      var b := Block(id, view.statuses[id].slot);
      blocks := rest + [b];
      assert forall x :: x in blocks <==> x in rest || x == b;
      assert Ids(blocks) == Ids(rest) + {id};
      assert forall x :: x in rest ==> x.id in Ids(rest);
    }
  }

  lemma PartExists(view: ConsensusView, end: Option<Slot>, required: set<BlockId>, cursor: ConsensusStep, partSize: nat)
    returns (part: ConsensusPart)
    ensures IsPart(view, end, required, cursor, partSize, part)
  {
    if cursor.Finished? {
      part := ConsensusPart([], {}, cursor);
    } else {
      var sendable := set id | id in required - Sent(cursor) && Sendable(view, end, id);
      var blocks := TakeBlocks(view, sendable, partSize);
      var outdated := Sent(cursor) - required;
      part := ConsensusPart(blocks, outdated,
                            if blocks == [] then Finished(None) else Ongoing(Ids(blocks) + (Sent(cursor) - outdated)));
    }
  }

  lemma AnswerExists(cfg: ServerConfig, db: Db, cur: Cursors, view: ConsensusView)
    returns (consensus: Option<ConsensusPart>)
    requires Required(view, Some(db.changeId)).Some?
    ensures ConsensusAnswer(cfg, db, cur, view, consensus)
    ensures AsksConsensus(ReadFinalState(cfg.db, db, cur)) ==> consensus.Some?
  {
    hide ReadFinalState, IsPart, Required;
    if AsksConsensus(ReadFinalState(cfg.db, db, cur)) {
      var part := PartExists(view, Some(db.changeId), Required(view, Some(db.changeId)).value, cur.consensusStep,
                             cfg.partSize);
      consensus := Some(part);
    } else {
      consensus := None;
    }
  }

  // ---------------------------------------------------------------- one session

  /** A client in a session with server `i`, with nothing in flight. */
  ghost predicate InSession(w: World, s: System, i: nat, cur: Cursors) {
    && Inv(w, s) && i < |s.servers| == |s.positions| == |w.servers|
    && s.connection == Some(Connection(i, Some(cur), [])) && s.positions[i] == |w.log.writes|
  }

  /** The blocks a server requires can be listed once it is at the end of the log. */
  ghost predicate Listable(w: World, view: ConsensusView) {
    Required(view, Some(IdAt(w.log, |w.log.writes|))).Some?
  }

  lemma AtEnd(w: World, s: System, i: nat)
    requires Configured(w) && Inv(w, s) && i < |s.servers| && s.positions[i] == |w.log.writes|
    ensures s.servers[i].changeId == IdAt(w.log, |w.log.writes|)
  {
    ServersMean(w, s, i);
  }

  function Turned(s: System, outcome: Outcome): System
    requires s.connection.Some?
  {
    s.(connection := Some(AfterTurn(s.connection.value, outcome)))
  }

  lemma TurnIsNext(w: World, s: System, i: nat, cur: Cursors, view: ConsensusView, consensus: Option<ConsensusPart>)
    requires Configured(w) && InSession(w, s, i, cur)
    requires ConsensusAnswer(w.servers[i], s.servers[i], cur, view, consensus)
    ensures var s' := Turned(s, Turn(w.servers[i], s.servers[i], cur, consensus));
            Next(w, s, s') && Inv(w, s')
  {
    hide Inv, Configured, Turn, ConsensusAnswer;
    var s' := Turned(s, Turn(w.servers[i], s.servers[i], cur, consensus));
    assert ServerTurns(w, s, s', view, consensus);
    ServerTurnsOk(w, s, s', view, consensus);
  }

  /** The client reads the part that has just been sent. */
  lemma PartIsRead(w: World, s: System, i: nat, cur: Cursors, part: Message, next: Cursors) returns (s'': System)
    requires Configured(w) && ResetsEarly(w) && InSession(w, s, i, cur) && part.Part?
    requires Inv(w, Turned(s, Send(part, Some(next))))
    ensures InSession(w, s'', i, next) && s''.servers == s.servers
    ensures Next(w, Turned(s, Send(part, Some(next))), s'')
  {
    hide Receive, ClientOk, SessionOk, Configured, ResetsEarly, ServersFollow;
    var s' := Turned(s, Send(part, Some(next)));
    assert [] + [part] == [part] && [part][1..] == [];
    var r := Receive(w.client, s.client, part);
    assert r.Ok?;
    s'' := s'.(client := r.value, connection := Some(Connection(i, Some(next), [])));
    assert Delivers(w, s', s'');
    DeliversOk(w, s', s'');
  }

  /** The client reads that the bootstrap is finished, and is satisfied. */
  lemma FinishIsRead(w: World, s: System, i: nat, cur: Cursors, view: ConsensusView, consensus: Option<ConsensusPart>)
    requires Configured(w) && InSession(w, s, i, cur)
    requires ConsensusAnswer(w.servers[i], s.servers[i], cur, view, consensus)
    requires Turn(w.servers[i], s.servers[i], cur, consensus) == Send(BootstrapFinished, None)
    ensures Completable(w, s)
  {
    hide Configured, Inv, Turn, ConsensusAnswer, Completable, HoldsAll, Follows, ServerConfigured, QueueOk;
    TurnIsNext(w, s, i, cur, view, consensus);
    var s' := Turned(s, Send(BootstrapFinished, None));
    assert FinishesWith(w, s, s', view, consensus);
    assert [] + [BootstrapFinished] == [BootstrapFinished];
    var s'' := s'.(client := s.client.(done := true), connection := None);
    assert Delivers(w, s', s'');
    ServersMean(w, s, i);
    SessionQueue(w, s, i, cur);
    FinishedQueue(w, w.servers[i], s.servers[i], |w.log.writes|, s.client, [], cur, consensus);
    EqualHoldsAll(w, w.servers[i], s.servers[i], s.client);
    CompletedNow(w, s, s', s'');
  }

  lemma SessionQueue(w: World, s: System, i: nat, cur: Cursors)
    requires InSession(w, s, i, cur)
    ensures QueueOk(w, s.client, [], Some(cur)) && Replay(w, s.client, []) == Some(s.client)
  {
    hide SessionOk, ClientOk, ServersFollow;
  }

  lemma EqualHoldsAll(w: World, cfg: ServerConfig, db: Db, client: Client)
    requires Follows(cfg.db, db, w.log, |w.log.writes|)
    requires client.db.state == db.state && client.db.versioning == db.versioning
    ensures HoldsAll(w, client.db, |w.log.writes|)
  {
    hide Snap, SuffixOf, HashOf;
  }

  lemma HealthyTurn(cfg: ServerConfig, db: Db, cur: Cursors, view: ConsensusView, consensus: Option<ConsensusPart>)
    requires Healthy(db, cur) && ConsensusAnswer(cfg, db, cur, view, consensus)
    requires AsksConsensus(ReadFinalState(cfg.db, db, cur)) ==> consensus.Some?
    ensures var outcome := Turn(cfg, db, cur, consensus);
            && outcome.Send?
            && (outcome == Send(BootstrapFinished, None) || (outcome.message.Part? && outcome.next.Some?))
  {
    hide Healthy, ReadFinalState, ConsensusAnswer;
    HealthyMeansReady(cfg.db, db, cur);
  }

  /** A healthy session on a server at the end of the log is completed turn by turn. */
  lemma {:induction false} SessionFinishes(w: World, s: System, i: nat, cur: Cursors, view: ConsensusView)
    requires Configured(w) && ResetsEarly(w) && Listable(w, view)
    requires InSession(w, s, i, cur) && Healthy(s.servers[i], cur)
    ensures Completable(w, s)
    decreases Staleness(s.servers[i], cur), ColumnsLeft(s.servers[i], cur),
              BlocksLeft(view, s.servers[i].changeId, cur)
  {
    hide Inv, Next, Completable, Turn, ReadFinalState, ConsensusAnswer, Configured, ResetsEarly;
    hide Healthy, Required, ColumnsLeft, BlocksLeft;
    var cfg, db := w.servers[i], s.servers[i];
    AtEnd(w, s, i);
    var consensus := AnswerExists(cfg, db, cur, view);
    HealthyTurn(cfg, db, cur, view, consensus);
    var outcome := Turn(cfg, db, cur, consensus);
    if outcome.next.None? {
      FinishIsRead(w, s, i, cur, view, consensus);
    } else {
      TurnIsNext(w, s, i, cur, view, consensus);
      var s', next := Turned(s, outcome), outcome.next.value;
      var s'' := PartIsRead(w, s, i, cur, outcome.message, next);
      SentMeansHealthy(cfg, db, view, cur, consensus, outcome.message, next);
      TurnProgress(cfg, db, cur, view, consensus, next);
      SessionFinishes(w, s'', i, next, view);
      OneStepEarlier(w, s', s'');
      OneStepEarlier(w, s, s');
    }
  }

  // ---------------------------------------------------------------- starting a session

  /** A client that is not connected, and a server `i` at the end of the log. */
  ghost predicate Idle(w: World, s: System, i: nat) {
    && Inv(w, s) && i < |s.servers| == |s.positions| == |w.servers|
    && s.connection.None? && !s.client.done && s.positions[i] == |w.log.writes|
  }

  function Connected(s: System, i: nat): System {
    s.(client := Align(s.client), connection := Some(Connection(i, Some(StartSession(Align(s.client).ask)), [])))
  }

  lemma ConnectIsNext(w: World, s: System, i: nat)
    requires Configured(w) && Idle(w, s, i)
    ensures Next(w, s, Connected(s, i)) && InSession(w, Connected(s, i), i, StartSession(Align(s.client).ask))
  {
    hide Configured, Inv, Align, StartSession;
    assert Connects(s, Connected(s, i), i);
    ConnectsOk(w, s, Connected(s, i), i);
  }

  lemma FreshCompletes(w: World, s: System, i: nat, view: ConsensusView)
    requires Configured(w) && ResetsEarly(w) && Listable(w, view)
    requires Idle(w, s, i) && s.client.ask == FIRST_ASK
    ensures Completable(w, s)
  {
    hide Inv, Next, Completable, Configured, Listable;
    ConnectIsNext(w, s, i);
    SessionFinishes(w, Connected(s, i), i, StartSession(Align(s.client).ask), view);
    OneStepEarlier(w, s, Connected(s, i));
  }

  /** A client that is told its change is too old starts over. */
  lemma TooOldCompletes(w: World, s: System, i: nat, cur: Cursors, view: ConsensusView)
    requires Configured(w) && ResetsEarly(w) && Listable(w, view)
    requires InSession(w, s, i, cur) && TooOld(s.servers[i], cur)
    ensures Completable(w, s)
  {
    hide Inv, Next, Completable, Turn, ReadFinalState, Configured, Listable, TooOld, ResetsEarly;
    TooOldTurn(w.servers[i], s.servers[i], cur, view);
    TurnIsNext(w, s, i, cur, view, None);
    var s' := Turned(s, Send(SlotTooOld, None));
    assert [] + [SlotTooOld] == [SlotTooOld];
    var s'' := s'.(client := Restart(w.client, s.client), connection := None);
    assert Delivers(w, s', s'');
    DeliverIsNext(w, s', s'');
    FreshCompletes(w, s'', i, view);
    OneStepEarlier(w, s', s'');
    OneStepEarlier(w, s, s');
  }

  lemma DeliverIsNext(w: World, s: System, s': System)
    requires Inv(w, s) && Delivers(w, s, s')
    ensures Next(w, s, s') && Inv(w, s')
  {
    hide Inv, Delivers;
    DeliversOk(w, s, s');
  }

  lemma TooOldTurn(cfg: ServerConfig, db: Db, cur: Cursors, view: ConsensusView)
    requires TooOld(db, cur)
    ensures Turn(cfg, db, cur, None) == Send(SlotTooOld, None) && ConsensusAnswer(cfg, db, cur, view, None)
  {
    hide TooOld, ReadFinalState;
    HealthyMeansReady(cfg.db, db, cur);
  }

  /** No ask is ahead of a server at the end of the log: it can be resumed from, or it is too old. */
  lemma AskIsAnswered(w: World, client: Client, db: Db)
    requires Increasing(w.log) && ClientOk(w, client) && db.changeId == IdAt(w.log, |w.log.writes|)
    ensures var cur := StartSession(Align(client).ask); Healthy(db, cur) || TooOld(db, cur)
  {
    hide HoldsViews, ConsensusAskOk, HoldsAll, HashOf, KnownCursor;
    var c: nat :| ClientAt(w, client, c);
    assert c < |w.log.writes| ==> Before(IdAt(w.log, c), IdAt(w.log, |w.log.writes|));
  }

  lemma IdleCompletes(w: World, s: System, i: nat, view: ConsensusView)
    requires Configured(w) && ResetsEarly(w) && Listable(w, view) && Idle(w, s, i)
    ensures Completable(w, s)
  {
    hide Next, Completable, ServerConfigured, Increasing, Listable, ClientOk, ServersFollow, QueueOk;
    hide Healthy, TooOld, StartSession, Align;
    ConnectIsNext(w, s, i);
    AtEnd(w, s, i);
    AskIsAnswered(w, s.client, s.servers[i]);
    var cur := StartSession(Align(s.client).ask);
    if Healthy(s.servers[i], cur) {
      SessionFinishes(w, Connected(s, i), i, cur, view);
    } else {
      TooOldCompletes(w, Connected(s, i), i, cur, view);
    }
    OneStepEarlier(w, s, Connected(s, i));
  }

  // ---------------------------------------------------------------- from any state

  function Advanced(w: World, s: System, i: nat, written: Db): System
    requires i < |s.servers| && i < |s.positions|
  {
    s.(servers := s.servers[i := written], positions := s.positions[i := s.positions[i] + 1])
  }

  lemma WriteIsNext(w: World, s: System, i: nat) returns (written: Db)
    requires Configured(w) && Inv(w, s) && i < |s.servers| == |s.positions| == |w.servers|
    requires s.positions[i] < |w.log.writes|
    ensures Next(w, s, Advanced(w, s, i, written)) && Inv(w, Advanced(w, s, i, written))
  {
    hide Configured, Inv, Follows, Write;
    ServersMean(w, s, i);
    FollowsWrite(w.servers[i].db, s.servers[i], w.log, s.positions[i]);
    written := WriteLogged(w.servers[i].db, s.servers[i], w.log.writes[s.positions[i]]).value;
    assert ServerWrites(w, s, Advanced(w, s, i, written), i, written);
    ServerWritesOk(w, s, Advanced(w, s, i, written), i, written);
  }

  lemma {:induction false} UnconnectedCompletes(w: World, s: System, i: nat, view: ConsensusView)
    requires Configured(w) && ResetsEarly(w) && Listable(w, view) && Inv(w, s)
    requires i < |s.servers| == |s.positions| == |w.servers| && s.positions[i] <= |w.log.writes|
    requires s.connection.None? && !s.client.done
    ensures Completable(w, s)
    decreases |w.log.writes| - s.positions[i]
  {
    hide Configured, Inv, Next, Completable, Listable;
    if s.positions[i] == |w.log.writes| {
      IdleCompletes(w, s, i, view);
    } else {
      var written := WriteIsNext(w, s, i);
      UnconnectedCompletes(w, Advanced(w, s, i, written), i, view);
      OneStepEarlier(w, s, Advanced(w, s, i, written));
    }
  }

  lemma DisconnectIsNext(w: World, s: System)
    requires Inv(w, s)
    ensures Next(w, s, s.(connection := None)) && Inv(w, s.(connection := None))
  {
    hide Follows, ClientOk, QueueOk;
    assert Disconnects(s, s.(connection := None));
  }

  /**
   Nothing that can happen during a bootstrap makes it impossible: from every state of every run in
   which the client has not completed, any one of the servers can bring it to the last change of the
   log, provided that it can list the blocks it requires there and that a reset client is not ahead
   of the log.
   */
  lemma CanAlwaysComplete(w: World, run: seq<System>, k: nat, i: nat, view: ConsensusView)
    requires Configured(w) && ResetsEarly(w) && Listable(w, view)
    requires IsRun(w, run) && k < |run| && !run[k].client.done && i < |w.servers|
    ensures Completable(w, run[k])
  {
    hide Configured, ResetsEarly, IsRun, Next, Completable, Listable, Inv;
    RunKeepsInvariant(w, run, k);
    InBounds(w, run[k], i);
    DisconnectIsNext(w, run[k]);
    UnconnectedCompletes(w, run[k].(connection := None), i, view);
    OneStepEarlier(w, run[k], run[k].(connection := None));
  }

  lemma InBounds(w: World, s: System, i: nat)
    requires Inv(w, s) && i < |w.servers|
    ensures i < |s.servers| == |s.positions| == |w.servers| && s.positions[i] <= |w.log.writes|
  {
  }

  // ---------------------------------------------------------------- a run that finishes

  /**
   A network of one server, which starts empty and writes one entry, and a client that bootstraps from
   it: some run of it finishes, and the client ends up with the entry.
   */
  lemma SomeRunFinishes(h: EntryHash, k: Key, v: Value) returns (w: World, run: seq<System>)
    ensures Configured(w) && ResetsEarly(w) && IsRun(w, run) && |run| >= 3
    ensures |run[0].servers| == 1 && run[0].servers[0].state == map[] && run[0].client.db.state == map[]
    ensures FinishingTurn(w, run[|run| - 3], run[|run| - 2])
    ensures run[|run| - 1].client.done && run[|run| - 1].client.db.state == map[k := v]
  {
    hide Next, FinishingTurn;
    var origin, size := Slot(0, 0), EntrySize(k, v);
    var cfg := DbConfig(h, 0, size, size);
    w := World(Log(origin, map[], map[], [LoggedWrite(Slot(1, 0), map[k := Some(v)], map[])]),
               [ServerConfig(cfg, 1)], ClientConfig(cfg, 1, origin));
    var db := Db(map[], map[], origin, InitialHash(), map[], map[]);
    var start := System([db], [0], Client(db, None, FIRST_ASK, false), None);
    OneEntryWorld(w, cfg, k, v);
    assert Follows(cfg, db, w.log, 0);
    assert Init(w, start);
    CanAlwaysComplete(w, [start], 0, 0, ConsensusView(origin, Some({}), map[]));
    run :| CompletesAlong(w, start, run);
    OneEntrySnap(w.log, k, v);
  }

  lemma OneEntryWorld(w: World, cfg: DbConfig, k: Key, v: Value)
    requires w.log.firstId == Slot(0, 0) && w.log.state == map[] && w.log.versioning == map[]
    requires w.log.writes == [LoggedWrite(Slot(1, 0), map[k := Some(v)], map[])]
    requires w.servers == [ServerConfig(cfg, 1)] && w.client == ClientConfig(cfg, 1, Slot(0, 0))
    requires cfg.maxStateSize == EntrySize(k, v)
    ensures Configured(w)
  {
    hide EntrySize;
  }

  lemma OneEntrySnap(log: Log, k: Key, v: Value)
    requires log.state == map[] && |log.writes| == 1 && log.writes[0].state == map[k := Some(v)]
    ensures Snap(log, StateCf, 1) == map[k := v]
  {
    assert Snap(log, StateCf, 0) == map[];
    SameColumn(Snap(log, StateCf, 1), map[k := v]);
  }
}
