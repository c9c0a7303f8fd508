/** Proof that every run of the bootstrap protocol keeps its invariant, and what follows from it. */
module Convergence {
  import opened ByteStrings
  import opened Columns
  import opened Slots
  import opened DbModel
  import opened Streaming
  import opened Consensus
  import opened Bootstrap

  // ---------------------------------------------------------------- one turn

  /** Reading `part` takes `held` to change `p`, up to the reader's cursor and up to `step`. */
  ghost predicate ColumnTo(w: World, cf: Cf, held: Column, part: StreamBatch, step: ColumnStep, p: nat) {
    && p <= |w.log.writes|
    && Apply(held, PartChanges(part)) == View(Snap(w.log, cf, p), ClientStep(part))
    && Apply(held, PartChanges(part)) == View(Snap(w.log, cf, p), step)
    && !step.Started?
    && KnownCursor(ClientStep(part), Snap(w.log, cf, p))
  }

  ghost predicate PreparedFor(w: World, db: Db, t: FinalStateTurn, p: nat)
    requires t.TurnReady?
  {
    && ColumnTo(w, StateCf, db.state, t.state, t.stateStep, p)
    && ColumnTo(w, VersioningCf, db.versioning, t.versioning, t.versioningStep, p)
    && t.state.changeId == IdAt(w.log, p)
  }

  lemma ReadyMeans(cfg: DbConfig, db: Db, cur: Cursors)
    requires ReadFinalState(cfg, db, cur).TurnReady?
    ensures var t := ReadFinalState(cfg, db, cur);
            && GetBatch(cfg, db, StateCf, cur.stateStep, cur.lastSlot) == Ok(t.state)
            && GetBatch(cfg, db, VersioningCf, cur.versioningStep, cur.lastSlot) == Ok(t.versioning)
            && ServerStep(cur.stateStep, t.state) == Some(t.stateStep)
            && ServerStep(cur.versioningStep, t.versioning) == Some(t.versioningStep)
            && t.state.changeId == db.changeId
  {
  }

  lemma ColumnTurn(w: World, cfg: ServerConfig, db: Db, p: nat, c: nat, cf: Cf, step: ColumnStep, last: Option<Slot>,
                   held: Column, part: StreamBatch, next: ColumnStep)
    requires Increasing(w.log) && LogFits(w.log, cf, cfg.db.Limit(cf))
    requires ColumnFollows(db, w.log, cf, p) && db.changeId == IdAt(w.log, p)
    requires c <= |w.log.writes| && held == View(Snap(w.log, cf, c), step)
    requires !step.Started? ==> last == Some(IdAt(w.log, c))
    requires GetBatch(cfg.db, db, cf, step, last) == Ok(part) && ServerStep(step, part) == Some(next)
    ensures ColumnTo(w, cf, held, part, next, p)
  {
    PartPreservesView(cfg.db, db, w.log, cf, c, p, step, last, held);
    NewElementsAreLowest(db.Col(cf), step, cfg.db.Limit(cf));
  }

  /** A part that a turn prepares takes the client from change `c` to change `p` on both columns. */
  lemma TurnPrepares(w: World, cfg: ServerConfig, db: Db, p: nat, client: Client, cur: Cursors, c: nat)
    requires Increasing(w.log) && ServerConfigured(w, cfg) && Follows(cfg.db, db, w.log, p)
    requires CursorsFit(w, client, cur, c)
    ensures ReadFinalState(cfg.db, db, cur).TurnReady? ==>
              PreparedFor(w, client.db, ReadFinalState(cfg.db, db, cur), p)
  {
    if ReadFinalState(cfg.db, db, cur).TurnReady? {
      var t := ReadFinalState(cfg.db, db, cur);
      ReadyMeans(cfg.db, db, cur);
      ColumnTurn(w, cfg, db, p, c, StateCf, cur.stateStep, cur.lastSlot, client.db.state, t.state, t.stateStep);
      ColumnTurn(w, cfg, db, p, c, VersioningCf, cur.versioningStep, cur.lastSlot, client.db.versioning,
                 t.versioning, t.versioningStep);
    }
  }

  /** A client that reads a prepared part is at change `p`. */
  lemma ReadPartPlacesClient(w: World, client: Client, part: Message, p: nat, stateStep: ColumnStep,
                             versioningStep: ColumnStep, consensusStep: ConsensusStep)
    requires part.Part? && !client.done && w.client.maxConsensusBlockIds >= 1
    requires client.db.hash == HashOf(w.client.db.entryHash, client.db.state)
    requires ColumnTo(w, StateCf, client.db.state, part.state, stateStep, p)
    requires ColumnTo(w, VersioningCf, client.db.versioning, part.versioning, versioningStep, p)
    requires part.slot == part.state.changeId == IdAt(w.log, p)
    requires Agree(consensusStep, Absorb(client.graph, part.blocks, part.outdated))
    ensures var r := Receive(w.client, client, part);
            (NotAfter(client.db.changeId, part.slot) ==> r.Ok?) &&
            (r.Ok? ==> ClientAt(w, r.value, p) &&
                       CursorsFit(w, r.value, Cursors(Some(part.slot), stateStep, versioningStep, consensusStep), p))
  {
    hide Snap, Trim, Record, XorBatch, HashOf, CappedStep, Absorb, AlignedStep, AlignedGraph, IdAt;
    var r := Receive(w.client, client, part);
    if r.Ok? {
      var graph := Absorb(client.graph, part.blocks, part.outdated);
      assert r.value.db.hash == HashOf(w.client.db.entryHash, r.value.db.state) by {
        WriteKeepsDigest(w.client.db, client.db, PartChanges(part.state), PartChanges(part.versioning),
                         Some(part.state.changeId), true);
      }
      assert ConsensusAskOk(w, r.value) by {
        AlignedAskAgrees(graph, w.client.maxConsensusBlockIds);
        CappedStepClaimsNewest(graph, w.client.maxConsensusBlockIds);
      }
    }
  }

  /** The consensus cursor after a turn describes the graph of a client that has read its part. */
  lemma TurnKeepsConsensus(cfg: ServerConfig, db: Db, cur: Cursors, view: ConsensusView,
                           consensus: Option<ConsensusPart>, graph: Graph)
    requires cfg.partSize >= 1 && Agree(cur.consensusStep, graph)
    requires ConsensusAnswer(cfg, db, cur, view, consensus)
    ensures Agree(cur.consensusStep, Absorb(graph, [], {}))
    ensures consensus.Some? ==>
              Agree(consensus.value.cursor, Absorb(graph, consensus.value.blocks, consensus.value.outdated))
  {
    AbsorbMeaning(graph, [], {});
    if consensus.Some? {
      PartKeepsAgreement(view, Some(db.changeId), Required(view, Some(db.changeId)).value, cur.consensusStep,
                         cfg.partSize, consensus.value, graph);
    }
  }

  lemma ResponseFits(w: World, client: Client, slot: Slot, consensusStep: ConsensusStep, t: FinalStateTurn,
                     consensus: Option<ConsensusPart>, p: nat)
    requires w.client.maxConsensusBlockIds >= 1 && !client.done
    requires client.db.hash == HashOf(w.client.db.entryHash, client.db.state)
    requires t.TurnReady? ==> PreparedFor(w, client.db, t, p) && slot == IdAt(w.log, p)
    requires t.TurnReady? && ResetsEarly(w) ==> NotAfter(client.db.changeId, slot)
    requires Agree(consensusStep, Absorb(client.graph, [], {}))
    requires consensus.Some? ==>
               Agree(consensus.value.cursor, Absorb(client.graph, consensus.value.blocks, consensus.value.outdated))
    ensures var outcome := Respond(slot, consensusStep, t, consensus);
            outcome.Send? ==> QueueOk(w, client, [outcome.message], outcome.next)
  {
    var outcome := Respond(slot, consensusStep, t, consensus);
    if outcome.Send? && outcome.message.Part? {
      ReadPartPlacesClient(w, client, outcome.message, p, t.stateStep, t.versioningStep,
                           outcome.next.value.consensusStep);
      PartQueueOk(w, client, outcome.message, outcome.next.value, p);
    } else if outcome.Send? && outcome.message.BootstrapFinished? {
      FinishedTurnHoldsAll(w, client.db, t, p);
    }
  }

  lemma PartQueueOk(w: World, client: Client, part: Message, cur: Cursors, p: nat)
    requires part.Part?
    requires var r := Receive(w.client, client, part);
             && (ResetsEarly(w) ==> r.Ok?)
             && (r.Ok? ==> ClientAt(w, r.value, p) && CursorsFit(w, r.value, cur, p))
    ensures QueueOk(w, client, [part], Some(cur))
  {
    hide Receive, ClientAt, CursorsFit;
  }

  /** A turn never prepares a part that is older than what the client holds. */
  lemma TurnIsNotOlder(w: World, cfg: ServerConfig, db: Db, p: nat, client: Client, cur: Cursors, c: nat)
    requires Increasing(w.log) && ResetsEarly(w) && Follows(cfg.db, db, w.log, p) && CursorsFit(w, client, cur, c)
    requires ReadFinalState(cfg.db, db, cur).TurnReady?
    ensures NotAfter(client.db.changeId, db.changeId)
  {
    hide HoldsViews, ConsensusAskOk, Snap, SuffixOf, GetBatch, ServerStep, HashOf;
    if cur.lastSlot.None? {
      assert p > 0 ==> Before(IdAt(w.log, 0), IdAt(w.log, p));
    }
  }

  /** With both streams finished and nothing to send, the client already holds everything. */
  lemma FinishedTurnHoldsAll(w: World, db: Db, t: FinalStateTurn, p: nat)
    requires t.TurnReady? && t.stateStep.Finished? && t.versioningStep.Finished?
    requires t.state.IsEmpty() && t.versioning.IsEmpty()
    requires PreparedFor(w, db, t, p)
    ensures HoldsAll(w, db, p)
  {
    assert PartChanges(t.state) == map[] && PartChanges(t.versioning) == map[];
    ApplyNothing(db.state);
    ApplyNothing(db.versioning);
    ViewAll(Snap(w.log, StateCf, p), t.stateStep);
    ViewAll(Snap(w.log, VersioningCf, p), t.versioningStep);
  }

  /** What a turn sends fits the client that will read it, and its cursors fit that client. */
  lemma TurnFits(w: World, cfg: ServerConfig, db: Db, p: nat, client: Client, cur: Cursors, view: ConsensusView,
                 consensus: Option<ConsensusPart>)
    requires Configured(w) && ServerConfigured(w, cfg) && Follows(cfg.db, db, w.log, p)
    requires SessionOk(w, client, cur) && ConsensusAnswer(cfg, db, cur, view, consensus)
    ensures var outcome := Turn(cfg, db, cur, consensus);
            outcome.Send? ==> QueueOk(w, client, [outcome.message], outcome.next)
  {
    var c :| CursorsFit(w, client, cur, c);
    TurnPrepares(w, cfg, db, p, client, cur, c);
    if ResetsEarly(w) && ReadFinalState(cfg.db, db, cur).TurnReady? {
      TurnIsNotOlder(w, cfg, db, p, client, cur, c);
    }
    TurnKeepsConsensus(cfg, db, cur, view, consensus, client.graph);
    ResponseFits(w, client, db.changeId, cur.consensusStep, ReadFinalState(cfg.db, db, cur), consensus, p);
  }

  // ---------------------------------------------------------------- messages in flight

  /** The client once it has read everything in flight; None if it gives up on the way. */
  ghost function Replay(w: World, client: Client, inflight: seq<Message>): Option<Client>
    decreases |inflight|
  {
    if inflight == [] then Some(client)
    else if !inflight[0].Part? then None
    else
      match Receive(w.client, client, inflight[0])
      case Err(_) => None
      case Ok(next) => Replay(w, next, inflight[1..])
  }

  lemma {:induction false} QueueReplays(w: World, client: Client, inflight: seq<Message>, cur: Cursors)
    requires QueueOk(w, client, inflight, Some(cur))
    ensures Replay(w, client, inflight).Some? ==> SessionOk(w, Replay(w, client, inflight).value, cur)
    ensures ResetsEarly(w) ==> Replay(w, client, inflight).Some?
    decreases |inflight|
  {
    if inflight != [] && inflight[0].Part? {
      var r := Receive(w.client, client, inflight[0]);
      if r.Ok? {
        QueueReplays(w, r.value, inflight[1..], cur);
      }
    }
  }

  lemma {:induction false} QueueAppend(
    w: World, client: Client, inflight: seq<Message>, cur: Cursors, message: Message, next: Option<Cursors>)
    requires QueueOk(w, client, inflight, Some(cur))
    requires Replay(w, client, inflight).Some? ==> QueueOk(w, Replay(w, client, inflight).value, [message], next)
    ensures QueueOk(w, client, inflight + [message], next)
    decreases |inflight|
  {
    if inflight == [] {
      assert inflight + [message] == [message];
    } else {
      assert (inflight + [message])[1..] == inflight[1..] + [message];
      var r := Receive(w.client, client, inflight[0]);
      if r.Ok? {
        QueueAppend(w, r.value, inflight[1..], cur, message, next);
      }
    }
  }

  lemma {:induction false} QueueClose(w: World, client: Client, inflight: seq<Message>, cur: Cursors)
    requires QueueOk(w, client, inflight, Some(cur))
    ensures QueueOk(w, client, inflight, None)
    decreases |inflight|
  {
    if inflight != [] {
      var r := Receive(w.client, client, inflight[0]);
      if r.Ok? {
        QueueClose(w, r.value, inflight[1..], cur);
      }
    }
  }

  // ---------------------------------------------------------------- every step keeps the invariant

  lemma EmptyClientOk(w: World, client: Client)
    requires client.db.state == map[] && client.db.versioning == map[] && client.db.hash == InitialHash()
    requires client.graph == None && client.ask == FIRST_ASK && !client.done
    requires NotAfter(client.db.changeId, w.client.resetSlot)
    ensures ClientOk(w, client)
  {
    ViewNothing(w.log.state);
    ViewNothing(w.log.versioning);
    assert ClientAt(w, client, 0);
  }

  lemma RestartOk(w: World, client: Client)
    requires client.db.hash == HashOf(w.client.db.entryHash, client.db.state)
    ensures ClientOk(w, Restart(w.client, client))
  {
    ResetEmpties(w.client.db, client.db, w.client.resetSlot);
    EmptyClientOk(w, Restart(w.client, client));
  }

  lemma InitOk(w: World, s: System)
    requires Init(w, s)
    ensures Inv(w, s)
  {
    EmptyClientOk(w, s.client);
  }

  lemma ReplaceServer(w: World, s: System, s': System, i: nat)
    requires ServersFollow(w, s) && |s'.servers| == |s.servers| && |s'.positions| == |s.positions| && i < |s.servers|
    requires forall j :: 0 <= j < |s.servers| && j != i ==>
               s'.servers[j] == s.servers[j] && s'.positions[j] == s.positions[j]
    requires Follows(w.servers[i].db, s'.servers[i], w.log, s'.positions[i])
    ensures ServersFollow(w, s')
  {
  }

  lemma OtherServers(w: World, s: System, s': System)
    requires Inv(w, s) && ServersFollow(w, s') && s'.client == s.client
    requires s'.connection == s.connection || s'.connection == None
    ensures Inv(w, s')
  {
  }

  lemma ServersFollowWrite(w: World, s: System, s': System, i: nat, written: Db)
    requires Increasing(w.log) && ServersFollow(w, s) && ServerWrites(w, s, s', i, written)
    ensures ServersFollow(w, s')
  {
    hide Follows, Increasing, Write;
    FollowsWrite(w.servers[i].db, s.servers[i], w.log, s.positions[i]);
    ReplaceServer(w, s, s', i);
  }

  lemma ServerWritesOk(w: World, s: System, s': System, i: nat, written: Db)
    requires Configured(w) && Inv(w, s) && ServerWrites(w, s, s', i, written)
    ensures Inv(w, s')
  {
    ServersFollowWrite(w, s, s', i, written);
    OtherServers(w, s, s');
  }

  lemma ServerRestartsOk(w: World, s: System, s': System, i: nat)
    requires Inv(w, s) && ServerRestarts(s, s', i)
    ensures Inv(w, s')
  {
    ForgetHistory(w.servers[i].db, s.servers[i], w.log, s.positions[i]);
    ReplaceServer(w, s, s', i);
    OtherServers(w, s, s');
  }

  lemma ForgetHistory(cfg: DbConfig, db: Db, log: Log, p: nat)
    requires Follows(cfg, db, log, p)
    ensures Follows(cfg, db.(history := map[], versioningHistory := map[]), log, p)
  {
  }

  lemma AlignOk(w: World, client: Client, c: nat)
    requires ClientAt(w, client, c) && !client.done && w.client.maxConsensusBlockIds >= 1
    ensures CursorsFit(w, Align(client), StartSession(Align(client).ask), c)
  {
    hide ClaimsNewest, Snap, HashOf;
    AlignIdempotent(client.ask.consensusStep, client.graph);
    AlignKeepsNewest(client.ask.consensusStep, client.graph, w.client.maxConsensusBlockIds);
    AlignedUnfinished(client.ask.consensusStep, client.graph);
  }

  lemma AlignedUnfinished(cursor: ConsensusStep, graph: Graph)
    requires !cursor.Finished?
    ensures !AlignedStep(cursor, graph).Finished?
  {
  }

  lemma ConnectsOk(w: World, s: System, s': System, i: nat)
    requires Configured(w) && Inv(w, s) && Connects(s, s', i)
    ensures Inv(w, s')
  {
    var c :| ClientAt(w, s.client, c);
    AlignOk(w, s.client, c);
  }

  lemma ServerTurnsOk(w: World, s: System, s': System, view: ConsensusView, consensus: Option<ConsensusPart>)
    requires Configured(w) && Inv(w, s) && ServerTurns(w, s, s', view, consensus)
    ensures Inv(w, s')
  {
    var conn := s.connection.value;
    var cfg, db, cur := w.servers[conn.server], s.servers[conn.server], conn.cursors.value;
    var outcome := Turn(cfg, db, cur, consensus);
    if outcome.Fail? {
      QueueClose(w, s.client, conn.inflight, cur);
    } else {
      QueueReplays(w, s.client, conn.inflight, cur);
      var replayed := Replay(w, s.client, conn.inflight);
      if replayed.Some? {
        TurnFits(w, cfg, db, s.positions[conn.server], replayed.value, cur, view, consensus);
      }
      QueueAppend(w, s.client, conn.inflight, cur, outcome.message, outcome.next);
    }
  }

  lemma DeliversOk(w: World, s: System, s': System)
    requires Inv(w, s) && Delivers(w, s, s')
    ensures Inv(w, s')
  {
    var c :| ClientAt(w, s.client, c);
    var conn := s.connection.value;
    if !conn.inflight[0].Part? {
      RestartOk(w, s.client);
      if s'.client.done {
        assert ClientAt(w, s'.client, c);
      }
    }
  }

  lemma NextOk(w: World, s: System, s': System)
    requires Configured(w) && Inv(w, s) && Next(w, s, s')
    ensures Inv(w, s')
  {
    if i, written :| ServerWrites(w, s, s', i, written) {
      ServerWritesOk(w, s, s', i, written);
    } else if i :| ServerRestarts(s, s', i) {
      ServerRestartsOk(w, s, s', i);
    } else if i :| Connects(s, s', i) {
      ConnectsOk(w, s, s', i);
    } else if Disconnects(s, s') {
    } else if view, consensus :| ServerTurns(w, s, s', view, consensus) {
      ServerTurnsOk(w, s, s', view, consensus);
    } else {
      DeliversOk(w, s, s');
    }
  }

  // ---------------------------------------------------------------- whole runs

  ghost predicate IsRun(w: World, run: seq<System>) {
    && |run| > 0
    && Init(w, run[0])
    && forall i :: 0 <= i < |run| - 1 ==> Next(w, run[i], run[i + 1])
  }

  lemma {:induction false} RunKeepsInvariant(w: World, run: seq<System>, i: nat)
    requires Configured(w) && IsRun(w, run) && i < |run|
    ensures Inv(w, run[i])
  {
    if i == 0 {
      InitOk(w, run[0]);
    } else {
      RunKeepsInvariant(w, run, i - 1);
      assert Next(w, run[i - 1], run[i - 1 + 1]);
      NextOk(w, run[i - 1], run[i]);
    }
  }

  lemma ServersMean(w: World, s: System, i: nat)
    requires Configured(w) && Inv(w, s) && i < |s.servers|
    ensures |s.servers| == |s.positions| == |w.servers|
    ensures Increasing(w.log) && ServerConfigured(w, w.servers[i])
    ensures Follows(w.servers[i].db, s.servers[i], w.log, s.positions[i])
  {
    hide Follows, ServerConfigured, ClientOk, QueueOk, Increasing;
  }

  lemma TurnFinishes(cfg: ServerConfig, db: Db, cur: Cursors, consensus: Option<ConsensusPart>)
    requires Turn(cfg, db, cur, consensus) == Send(BootstrapFinished, None)
    ensures var t := ReadFinalState(cfg.db, db, cur);
            && t.TurnReady? && t.stateStep.Finished? && t.versioningStep.Finished?
            && t.state.IsEmpty() && t.versioning.IsEmpty()
  {
    hide ReadFinalState;
  }

  /** A reader that holds a change of the log which the server is at equals the server. */
  lemma HoldsAllMeansEqual(w: World, cfg: ServerConfig, db: Db, p: nat, client: Client, cur: Cursors, c: nat)
    requires ServerConfigured(w, cfg) && Follows(cfg.db, db, w.log, p)
    requires CursorsFit(w, client, cur, c) && HoldsAll(w, client.db, p)
    ensures client.db.state == db.state && client.db.versioning == db.versioning && client.db.hash == db.hash
  {
    hide HashOf, Snap, SuffixOf, LogFits, HoldsViews, AskAt, ConsensusAskOk, Agree;
  }

  /** The client a server declares finished, having read what was sent to it, equals the server. */
  lemma FinishedReader(w: World, cfg: ServerConfig, db: Db, p: nat, client: Client, cur: Cursors,
                       consensus: Option<ConsensusPart>)
    requires Increasing(w.log) && ServerConfigured(w, cfg) && Follows(cfg.db, db, w.log, p)
    requires SessionOk(w, client, cur) && Turn(cfg, db, cur, consensus) == Send(BootstrapFinished, None)
    ensures client.db.state == db.state && client.db.versioning == db.versioning && client.db.hash == db.hash
  {
    hide Increasing, ServerConfigured, Follows, CursorsFit, Turn, ReadFinalState, PreparedFor, HoldsAll;
    var c :| CursorsFit(w, client, cur, c);
    TurnPrepares(w, cfg, db, p, client, cur, c);
    TurnFinishes(cfg, db, cur, consensus);
    FinishedTurnHoldsAll(w, client.db, ReadFinalState(cfg.db, db, cur), p);
    HoldsAllMeansEqual(w, cfg, db, p, client, cur, c);
  }

  lemma FinishedQueue(w: World, cfg: ServerConfig, db: Db, p: nat, client: Client, inflight: seq<Message>, cur: Cursors,
                      consensus: Option<ConsensusPart>)
    requires Increasing(w.log) && ServerConfigured(w, cfg) && Follows(cfg.db, db, w.log, p)
    requires QueueOk(w, client, inflight, Some(cur)) && Turn(cfg, db, cur, consensus) == Send(BootstrapFinished, None)
    ensures var reader := Replay(w, client, inflight);
            && (ResetsEarly(w) ==> reader.Some?)
            && (reader.Some? ==>
                  && reader.value.db.state == db.state
                  && reader.value.db.versioning == db.versioning
                  && reader.value.db.hash == db.hash)
  {
    hide Increasing, ServerConfigured, Follows, QueueOk, Replay, Turn, SessionOk, ResetsEarly;
    QueueReplays(w, client, inflight, cur);
    var reader := Replay(w, client, inflight);
    if reader.Some? {
      FinishedReader(w, cfg, db, p, reader.value, cur, consensus);
    }
  }

  /**
   Convergence. In every run, when a server declares the bootstrap finished, a client that reads
   what is in flight holds exactly the server's current columns and digest; and it does read it,
   without refusing a part, if a reset puts it at or before the start of the log.
   */
  lemma FinishedMeansEqual(
    w: World, run: seq<System>, i: nat, view: ConsensusView, consensus: Option<ConsensusPart>)
    requires Configured(w) && IsRun(w, run) && i + 1 < |run|
    requires ServerTurns(w, run[i], run[i + 1], view, consensus)
    requires var conn := run[i].connection.value;
             Turn(w.servers[conn.server], run[i].servers[conn.server], conn.cursors.value, consensus)
             == Send(BootstrapFinished, None)
    ensures var conn := run[i].connection.value;
            var server := run[i].servers[conn.server];
            var reader := Replay(w, run[i].client, conn.inflight);
            && (ResetsEarly(w) ==> reader.Some?)
            && (reader.Some? ==>
                  && reader.value.db.state == server.state
                  && reader.value.db.versioning == server.versioning
                  && reader.value.db.hash == server.hash)
  {
    hide Configured, IsRun, Follows, QueueOk, Replay, Turn, ConsensusAnswer, ResetsEarly;
    RunKeepsInvariant(w, run, i);
    var conn := run[i].connection.value;
    ServersMean(w, run[i], conn.server);
    FinishedQueue(w, w.servers[conn.server], run[i].servers[conn.server], run[i].positions[conn.server], run[i].client,
                  conn.inflight, conn.cursors.value, consensus);
  }

  lemma EqualReaderFollows(w: World, cfg: ServerConfig, db: Db, p: nat, client: Client, cur: Cursors)
    requires ServerConfigured(w, cfg) && Follows(cfg.db, db, w.log, p)
    requires SessionOk(w, client, cur) && cur.lastSlot == Some(db.changeId)
    requires client.db.state == db.state && client.db.versioning == db.versioning && client.db.hash == db.hash
    ensures Follows(w.client.db, client.db, w.log, p)
  {
    hide HashOf, Snap, LogFits, HoldsViews, ConsensusAskOk, Agree, HoldsAll;
    var c :| CursorsFit(w, client, cur, c);
  }

  /**
   A bootstrapped node can serve others: when a server declares the bootstrap finished and has written
   nothing since its last part, a client that has read everything follows the log at the same change,
   with histories it can grow from.
   */
  lemma FinishedReaderFollows(
    w: World, run: seq<System>, i: nat, view: ConsensusView, consensus: Option<ConsensusPart>)
    requires Configured(w) && IsRun(w, run) && i + 1 < |run|
    requires ServerTurns(w, run[i], run[i + 1], view, consensus)
    requires var conn := run[i].connection.value;
             && Turn(w.servers[conn.server], run[i].servers[conn.server], conn.cursors.value, consensus)
                == Send(BootstrapFinished, None)
             && conn.cursors.value.lastSlot == Some(run[i].servers[conn.server].changeId)
    ensures var conn := run[i].connection.value;
            var reader := Replay(w, run[i].client, conn.inflight);
            && conn.server < |run[i].positions|
            && (reader.Some? ==> Follows(w.client.db, reader.value.db, w.log, run[i].positions[conn.server]))
  {
    hide Configured, IsRun, Follows, QueueOk, Replay, Turn, ConsensusAnswer, SessionOk;
    RunKeepsInvariant(w, run, i);
    var conn := run[i].connection.value;
    var cfg, db, p := w.servers[conn.server], run[i].servers[conn.server], run[i].positions[conn.server];
    ServersMean(w, run[i], conn.server);
    FinishedQueue(w, cfg, db, p, run[i].client, conn.inflight, conn.cursors.value, consensus);
    QueueReplays(w, run[i].client, conn.inflight, conn.cursors.value);
    var reader := Replay(w, run[i].client, conn.inflight);
    if reader.Some? {
      EqualReaderFollows(w, cfg, db, p, reader.value, conn.cursors.value);
    }
  }

  /** A client that completed its bootstrap holds the columns and digest of one change of the log. */
  lemma DoneMeansComplete(w: World, run: seq<System>, i: nat)
    requires Configured(w) && IsRun(w, run) && i < |run| && run[i].client.done
    ensures exists p :: HoldsAll(w, run[i].client.db, p) &&
                        run[i].client.db.hash == HashOf(w.client.db.entryHash, Snap(w.log, StateCf, p))
  {
    RunKeepsInvariant(w, run, i);
    var c :| ClientAt(w, run[i].client, c);
    var p :| HoldsAll(w, run[i].client.db, p);
  }

  /**
   The step invariant over whole runs: at any moment, connected or not, the client holds exactly one
   change of each column restricted to the keys its own cursor covers, and once it has read what
   is in flight, also restricted to the keys the server's cursor covers.
   */
  lemma ClientAlwaysHoldsViews(w: World, run: seq<System>, i: nat)
    requires Configured(w) && IsRun(w, run) && i < |run|
    ensures var client := run[i].client;
            exists c :: HoldsViews(w, client.db, client.ask.stateStep, client.ask.versioningStep, c) &&
                        (client.ask.lastSlot.Some? ==> client.ask.lastSlot == Some(IdAt(w.log, c)))
    ensures run[i].connection.Some? && run[i].connection.value.cursors.Some? ==>
              var reader := Replay(w, run[i].client, run[i].connection.value.inflight);
              var cur := run[i].connection.value.cursors.value;
              reader.Some? ==>
                && (exists c :: HoldsViews(w, reader.value.db, cur.stateStep, cur.versioningStep, c))
                && Agree(cur.consensusStep, reader.value.graph)
  {
    RunKeepsInvariant(w, run, i);
    var c :| ClientAt(w, run[i].client, c);
    if run[i].connection.Some? && run[i].connection.value.cursors.Some? {
      var conn := run[i].connection.value;
      QueueReplays(w, run[i].client, conn.inflight, conn.cursors.value);
    }
  }

  /**
   When a turn finishes the consensus cursor, the client that reads what is in flight holds every
   required block that can be sent, and anything else it holds is outdated by that same turn.
   */
  lemma ConsensusCompletes(w: World, run: seq<System>, i: nat, view: ConsensusView, consensus: Option<ConsensusPart>)
    requires Configured(w) && IsRun(w, run) && i + 1 < |run|
    requires ServerTurns(w, run[i], run[i + 1], view, consensus)
    requires consensus.Some? && consensus.value.cursor.Finished?
    requires !run[i].connection.value.cursors.value.consensusStep.Finished?
    ensures var conn := run[i].connection.value;
            var end := Some(run[i].servers[conn.server].changeId);
            var required := Required(view, end).value;
            var reader := Replay(w, run[i].client, conn.inflight);
            reader.Some? ==>
              && (forall id :: id in required && Sendable(view, end, id) ==> id in GraphIds(reader.value.graph))
              && GraphIds(reader.value.graph) - required == consensus.value.outdated
  {
    RunKeepsInvariant(w, run, i);
    var conn := run[i].connection.value;
    var cfg, cur := w.servers[conn.server], conn.cursors.value;
    var end := Some(run[i].servers[conn.server].changeId);
    QueueReplays(w, run[i].client, conn.inflight, cur);
    var reader := Replay(w, run[i].client, conn.inflight);
    if reader.Some? {
      PartKeepsAgreement(view, end, Required(view, end).value, cur.consensusStep, cfg.partSize, consensus.value,
                         reader.value.graph);
    }
  }

  // ---------------------------------------------------------------- blocks at the end of a session

  /** The state at the start of a turn whose part finishes the consensus cursor. */
  ghost predicate Finishes(w: World, run: seq<System>, j: nat, view: ConsensusView, consensus: Option<ConsensusPart>) {
    && j + 1 < |run| && ServerTurns(w, run[j], run[j + 1], view, consensus)
    && consensus.Some? && consensus.value.cursor.Finished?
    && !run[j].connection.value.cursors.value.consensusStep.Finished?
  }

  /** The change id of the serving node. */
  ghost function EndOf(s: System): Option<Slot> {
    if s.connection.Some? && s.connection.value.server < |s.servers|
    then Some(s.servers[s.connection.value.server].changeId) else None
  }

  /** The ids are required ones, among them all that can be sent. */
  ghost predicate RequiredHeld(view: ConsensusView, end: Option<Slot>, ids: set<BlockId>) {
    && Required(view, end).Some? && ids <= Required(view, end).value
    && forall id :: id in Required(view, end).value && Sendable(view, end, id) ==> id in ids
  }

  ghost predicate SameSession(run: seq<System>, j: nat, k: nat) {
    j <= k < |run| && forall m :: j <= m <= k ==> run[m].connection.Some?
  }

  /** An earlier turn `j` of the session finished the cursor, and the blocks are still those it left. */
  ghost predicate FinishedAt(w: World, run: seq<System>, j: nat, k: nat, view: ConsensusView,
                             consensus: Option<ConsensusPart>, ids: set<BlockId>)
  {
    j < k && SameSession(run, j, k) && Finishes(w, run, j, view, consensus) && RequiredHeld(view, EndOf(run[j]), ids)
  }

  ghost predicate Settled(w: World, run: seq<System>, k: nat, ids: set<BlockId>) {
    exists j, view, consensus :: FinishedAt(w, run, j, k, view, consensus, ids)
  }

  /** What the client holds once it has read what is in flight. */
  ghost function ReaderOf(w: World, s: System): Option<Client> {
    if s.connection.Some? then Replay(w, s.client, s.connection.value.inflight) else None
  }

  predicate CursorFinished(s: System) {
    s.connection.Some? && s.connection.value.cursors.Some? && s.connection.value.cursors.value.consensusStep.Finished?
  }

  lemma {:induction false} ReplayAppend(w: World, client: Client, inflight: seq<Message>, message: Message)
    ensures Replay(w, client, inflight + [message])
         == match Replay(w, client, inflight)
            case None => None
            case Some(reader) => Replay(w, reader, [message])
    decreases |inflight|
  {
    hide Receive;
    if inflight == [] {
      assert inflight + [message] == [message];
    } else {
      assert (inflight + [message])[1..] == inflight[1..] + [message];
      if inflight[0].Part? && Receive(w.client, client, inflight[0]).Ok? {
        ReplayAppend(w, Receive(w.client, client, inflight[0]).value, inflight[1..], message);
      }
    }
  }

  lemma StaysSettled(w: World, run: seq<System>, k: nat, ids: set<BlockId>)
    requires k + 1 < |run| && run[k + 1].connection.Some? && Settled(w, run, k, ids)
    ensures Settled(w, run, k + 1, ids)
  {
    hide Finishes, RequiredHeld;
    var j, view, consensus :| FinishedAt(w, run, j, k, view, consensus, ids);
    assert FinishedAt(w, run, j, k + 1, view, consensus, ids);
  }

  lemma ReaderAgrees(w: World, s: System)
    requires Inv(w, s) && s.connection.Some? && s.connection.value.cursors.Some? && ReaderOf(w, s).Some?
    ensures Agree(s.connection.value.cursors.value.consensusStep, ReaderOf(w, s).value.graph)
  {
    hide Agree, HoldsViews, ClientAt, QueueOk, Replay;
    QueueReplays(w, s.client, s.connection.value.inflight, s.connection.value.cursors.value);
  }

  /** What the reader of a sent part makes of its graph. */
  lemma TurnReader(w: World, s: System, s': System, view: ConsensusView, consensus: Option<ConsensusPart>)
    requires ServerTurns(w, s, s', view, consensus) && CursorFinished(s') && ReaderOf(w, s').Some?
    ensures var cur := s.connection.value.cursors.value;
            && ReaderOf(w, s).Some?
            && var graph, graph' := ReaderOf(w, s).value.graph, ReaderOf(w, s').value.graph;
               if cur.consensusStep.Finished? then graph' == Absorb(graph, [], {})
               else consensus.Some? && consensus.value.cursor.Finished? &&
                    graph' == Absorb(graph, consensus.value.blocks, consensus.value.outdated)
  {
    hide ReadFinalState, Replay, Write, CappedStep, Absorb, Align;
    var conn := s.connection.value;
    var outcome := Turn(w.servers[conn.server], s.servers[conn.server], conn.cursors.value, consensus);
    ReplayAppend(w, s.client, conn.inflight, outcome.message);
    ReplayOne(w, ReaderOf(w, s).value, outcome.message);
  }

  lemma ReplayOne(w: World, client: Client, message: Message)
    ensures Replay(w, client, [message]).Some? ==>
              && message.Part? && Receive(w.client, client, message).Ok?
              && Replay(w, client, [message]).value == Receive(w.client, client, message).value
  {
    hide Receive;
    assert [message][1..] == [];
  }

  /** A turn that finishes the cursor leaves the reader of its part with the required blocks alone. */
  lemma FinishingTurnSettles(w: World, s: System, s': System, view: ConsensusView, consensus: Option<ConsensusPart>)
    requires Configured(w) && Inv(w, s) && ServerTurns(w, s, s', view, consensus)
    requires CursorFinished(s') && !CursorFinished(s) && ReaderOf(w, s').Some?
    ensures RequiredHeld(view, EndOf(s), GraphIds(ReaderOf(w, s').value.graph))
  {
    hide Inv, Configured, Turn, Absorb, Required, Sendable, Agree, ReaderOf, AfterTurn;
    TurnReader(w, s, s', view, consensus);
    ReaderAgrees(w, s);
    FinishingPart(w, s, s', view, consensus, ReaderOf(w, s).value.graph);
  }

  lemma FinishingPart(w: World, s: System, s': System, view: ConsensusView, consensus: Option<ConsensusPart>,
                      graph: Graph)
    requires Configured(w) && ServerTurns(w, s, s', view, consensus)
    requires consensus.Some? && consensus.value.cursor.Finished? && !CursorFinished(s)
    requires Agree(s.connection.value.cursors.value.consensusStep, graph)
    ensures RequiredHeld(view, EndOf(s), GraphIds(Absorb(graph, consensus.value.blocks, consensus.value.outdated)))
    ensures GraphIds(graph) - Required(view, EndOf(s)).value == consensus.value.outdated
    ensures forall id :: id in Required(view, EndOf(s)).value && Sendable(view, EndOf(s), id) ==> id in GraphIds(graph)
  {
    hide Required, Sendable, Turn, Increasing, LogFits;
    var conn := s.connection.value;
    var cfg, cur := w.servers[conn.server], conn.cursors.value;
    var required := Required(view, EndOf(s)).value;
    PartKeepsAgreement(view, EndOf(s), required, cur.consensusStep, cfg.partSize, consensus.value, graph);
    assert consensus.value.blocks == [];
    AbsorbMeaning(graph, [], consensus.value.outdated);
  }

  lemma TurnStaysSettled(w: World, run: seq<System>, k: nat, view: ConsensusView, consensus: Option<ConsensusPart>)
    requires Configured(w) && k + 1 < |run| && Inv(w, run[k]) && ServerTurns(w, run[k], run[k + 1], view, consensus)
    requires CursorFinished(run[k + 1]) && ReaderOf(w, run[k + 1]).Some?
    requires CursorFinished(run[k]) && ReaderOf(w, run[k]).Some? ==>
               Settled(w, run, k, GraphIds(ReaderOf(w, run[k]).value.graph))
    ensures Settled(w, run, k + 1, GraphIds(ReaderOf(w, run[k + 1]).value.graph))
  {
    hide Inv, Configured, Turn, AfterTurn, Absorb, ReaderOf, RequiredHeld, Settled, GraphIds, ConsensusAnswer;
    TurnReader(w, run[k], run[k + 1], view, consensus);
    var ids := GraphIds(ReaderOf(w, run[k + 1]).value.graph);
    if CursorFinished(run[k]) {
      ReaderAgrees(w, run[k]);
      AbsorbNothing(ReaderOf(w, run[k]).value.graph);
      StaysSettled(w, run, k, ids);
    } else {
      FinishingTurnSettles(w, run[k], run[k + 1], view, consensus);
      assert Finishes(w, run, k, view, consensus);
      assert FinishedAt(w, run, k, k + 1, view, consensus, ids);
      SettledNow(w, run, k, k + 1, view, consensus, ids);
    }
  }

  lemma SettledNow(w: World, run: seq<System>, j: nat, k: nat, view: ConsensusView, consensus: Option<ConsensusPart>,
                   ids: set<BlockId>)
    requires FinishedAt(w, run, j, k, view, consensus, ids)
    ensures Settled(w, run, k, ids)
  {
    hide FinishedAt;
  }

  lemma AbsorbNothing(graph: Graph)
    requires GraphDistinct(graph)
    ensures GraphIds(Absorb(graph, [], {})) == GraphIds(graph)
  {
    AbsorbMeaning(graph, [], {});
  }

  /** A step other than a turn leaves the reader as it is, unless the session ends or starts. */
  lemma OtherStepsKeepReader(w: World, s: System, s': System)
    requires Inv(w, s) && Next(w, s, s')
    requires !exists view, consensus :: ServerTurns(w, s, s', view, consensus)
    ensures CursorFinished(s') ==> CursorFinished(s) && ReaderOf(w, s') == ReaderOf(w, s)
  {
    hide ServerTurns, Receive, Inv, Align, StartSession, Restart, WriteLogged;
    forall i | Connects(s, s', i)
      ensures !CursorFinished(s')
    {
      NewSessionUnfinished(w, s, s', i);
    }
  }

  lemma NewSessionUnfinished(w: World, s: System, s': System, i: nat)
    requires Inv(w, s) && Connects(s, s', i)
    ensures !CursorFinished(s')
  {
    hide HoldsViews, AskAt, HoldsAll, HashOf, QueueOk, ServersFollow;
    var c :| ClientAt(w, s.client, c);
  }

  /** Once the cursor of a session is finished, its reader's blocks are those the finishing turn left. */
  lemma {:induction false} FinishedStaysSettled(w: World, run: seq<System>, k: nat)
    requires Configured(w) && IsRun(w, run) && k < |run|
    requires CursorFinished(run[k]) && ReaderOf(w, run[k]).Some?
    ensures Settled(w, run, k, GraphIds(ReaderOf(w, run[k]).value.graph))
  {
    hide Configured, Inv, Next, ReaderOf, Settled, GraphIds, ServerTurns;
    if k > 0 {
      RunKeepsInvariant(w, run, k - 1);
      assert Next(w, run[k - 1], run[k - 1 + 1]);
      if CursorFinished(run[k - 1]) && ReaderOf(w, run[k - 1]).Some? {
        FinishedStaysSettled(w, run, k - 1);
      }
      var s, s' := run[k - 1], run[k];
      if view, consensus :| ServerTurns(w, s, s', view, consensus) {
        TurnStaysSettled(w, run, k - 1, view, consensus);
      } else {
        OtherStepsKeepReader(w, s, s');
        StaysSettled(w, run, k - 1, GraphIds(ReaderOf(w, run[k]).value.graph));
      }
    }
  }

  /**
   The blocks at BootstrapFinished. If an earlier turn of the session finished the consensus cursor,
   the reader holds blocks that turn required and no others, among them all it could send, however
   far the server has moved since. If the last turn itself did, the reader holds all it could send,
   but also every block that turn found outdated, since no part tells the client to drop them.
   */
  lemma BlocksAtFinish(w: World, run: seq<System>, i: nat, view: ConsensusView, consensus: Option<ConsensusPart>)
    requires Configured(w) && IsRun(w, run) && i + 1 < |run|
    requires ServerTurns(w, run[i], run[i + 1], view, consensus) && ReaderOf(w, run[i]).Some?
    requires var conn := run[i].connection.value;
             Turn(w.servers[conn.server], run[i].servers[conn.server], conn.cursors.value, consensus)
             == Send(BootstrapFinished, None)
    ensures var ids := GraphIds(ReaderOf(w, run[i]).value.graph);
            if CursorFinished(run[i]) then Settled(w, run, i, ids)
            else
              && Finishes(w, run, i, view, consensus)
              && ids - Required(view, EndOf(run[i])).value == consensus.value.outdated
              && RequiredHeld(view, EndOf(run[i]), ids - consensus.value.outdated)
  {
    hide Configured, Inv, Follows, ReaderOf, Settled, RequiredHeld, IsRun, Agree, Absorb;
    if CursorFinished(run[i]) {
      FinishedStaysSettled(w, run, i);
    } else {
      RunKeepsInvariant(w, run, i);
      ReaderAgrees(w, run[i]);
      FinishedAnswer(w, run[i], run[i + 1], view, consensus);
      FinishingPart(w, run[i], run[i + 1], view, consensus, ReaderOf(w, run[i]).value.graph);
      WithoutOutdated(view, EndOf(run[i]), GraphIds(ReaderOf(w, run[i]).value.graph), consensus.value.outdated);
    }
  }

  lemma FinishedAnswer(w: World, s: System, s': System, view: ConsensusView, consensus: Option<ConsensusPart>)
    requires ServerTurns(w, s, s', view, consensus)
    requires var conn := s.connection.value;
             Turn(w.servers[conn.server], s.servers[conn.server], conn.cursors.value, consensus)
             == Send(BootstrapFinished, None)
    ensures consensus.Some? && consensus.value.cursor.Finished? && Required(view, EndOf(s)).Some?
  {
    hide ReadFinalState;
  }

  lemma WithoutOutdated(view: ConsensusView, end: Option<Slot>, ids: set<BlockId>, outdated: set<BlockId>)
    requires Required(view, end).Some? && ids - Required(view, end).value == outdated
    requires forall id :: id in Required(view, end).value && Sendable(view, end, id) ==> id in ids
    ensures RequiredHeld(view, end, ids - outdated)
  {
    hide Required, Sendable;
    forall id | id in ids - outdated
      ensures id in Required(view, end).value
    {
      assert id !in ids - Required(view, end).value;
    }
  }

  lemma SameClaims(a: ConsensusStep, b: ConsensusStep, graph: Graph, max: nat)
    requires Sent(a) == Sent(b) && ClaimsNewest(a, graph, max)
    ensures ClaimsNewest(b, graph, max)
  {
  }

  /** The ask names change `c` of the log, and cursors that are keys of its columns. */
  ghost predicate ResumesAt(log: Log, ask: Ask, c: nat) {
    && c <= |log.writes| && ask.lastSlot == Some(IdAt(log, c))
    && KnownCursor(ask.stateStep, Snap(log, StateCf, c))
    && KnownCursor(ask.versioningStep, Snap(log, VersioningCf, c))
  }

  /**
   Every ask of a run is the first one or resumes both columns, and claims the newest blocks that the
   client has, as many as the cap allows: aligning drops only blocks older than all those kept.
   */
  lemma AsksAreWellFormed(w: World, run: seq<System>, i: nat)
    requires Configured(w) && IsRun(w, run) && i < |run|
    ensures var ask := Align(run[i].client).ask;
            && (ask.lastSlot.None? ==> ask == FIRST_ASK)
            && (ask.lastSlot.Some? ==>
                  && !ask.sendLastStartPeriod
                  && exists c: nat :: ResumesAt(w.log, ask, c))
            && !ask.consensusStep.Finished?
            && Sent(ask.consensusStep) == GraphIds(Align(run[i].client).graph)
            && ClaimsNewest(ask.consensusStep, run[i].client.graph, w.client.maxConsensusBlockIds)
  {
    hide IsRun, QueueOk, Follows, ClaimsNewest, Snap, HashOf;
    RunKeepsInvariant(w, run, i);
    var client, ask := run[i].client, Align(run[i].client).ask;
    var c: nat :| ClientAt(w, client, c);
    AlignKeepsNewest(client.ask.consensusStep, client.graph, w.client.maxConsensusBlockIds);
    AlignedUnfinished(client.ask.consensusStep, client.graph);
    SameClaims(client.ask.consensusStep, ask.consensusStep, client.graph, w.client.maxConsensusBlockIds);
    assert ask.lastSlot.Some? ==> ResumesAt(w.log, ask, c);
  }
}
