/**
The bootstrap protocol: servers that follow one log and keep writing, a client that streams from
one of them at a time, messages in flight between the two, and connections that may break at any
point. Every run converges: when a server declares the bootstrap finished, the client it serves
holds exactly the server's columns and digest once it has read what is still in flight.
 */
module Bootstrap {
  import opened ByteStrings
  import opened Columns
  import opened Slots
  import opened DbModel
  import opened Streaming
  import opened Consensus

  // ---------------------------------------------------------------- messages

  datatype Ask = Ask(
    lastSlot: Option<Slot>,
    stateStep: ColumnStep,
    versioningStep: ColumnStep,
    consensusStep: ConsensusStep,
    sendLastStartPeriod: bool)

  const FIRST_ASK := Ask(None, Started, Started, Started, true)

  datatype Message =
    | Part(slot: Slot, state: StreamBatch, versioning: StreamBatch, blocks: seq<Block>, outdated: set<BlockId>)
    | SlotTooOld
    | BootstrapFinished

  // ---------------------------------------------------------------- server

  datatype ServerConfig = ServerConfig(db: DbConfig, partSize: nat)

  /** What a server keeps between two turns of a session. */
  datatype Cursors = Cursors(
    lastSlot: Option<Slot>,
    stateStep: ColumnStep,
    versioningStep: ColumnStep,
    consensusStep: ConsensusStep)

  datatype FinalStateTurn =
    | TurnFailed
    | TurnTooOld
    | TurnReady(state: StreamBatch, versioning: StreamBatch, stateStep: ColumnStep, versioningStep: ColumnStep)

  /** The part of a turn that runs under the read lock of the final state. */
  function ReadFinalState(cfg: DbConfig, db: Db, cur: Cursors): FinalStateTurn {
    match GetBatch(cfg, db, StateCf, cur.stateStep, cur.lastSlot)
    case Err(e) => if e == ChangeIdTooOld then TurnTooOld else TurnFailed
    case Ok(state) =>
      var stateStep := ServerStep(cur.stateStep, state);
      if stateStep.None? then TurnFailed
      else
        match GetBatch(cfg, db, VersioningCf, cur.versioningStep, cur.lastSlot)
        case Err(e) => if e == ChangeIdTooOld then TurnTooOld else TurnFailed
        case Ok(versioning) =>
          var versioningStep := ServerStep(cur.versioningStep, versioning);
          if versioningStep.None? then TurnFailed
          else if cur.lastSlot.Some? && Before(db.changeId, cur.lastSlot.value) then TurnFailed
          else TurnReady(state, versioning, stateStep.value, versioningStep.value)
  }

  /** What a server does in one turn: it fails, or sends a message and goes on or stops. */
  datatype Outcome = Fail | Send(message: Message, next: Option<Cursors>)

  /** The rest of a turn, given the answer of the consensus controller if it is asked. */
  function Respond(slot: Slot, consensusStep: ConsensusStep, t: FinalStateTurn, consensus: Option<ConsensusPart>)
    : Outcome
  {
    match t
    case TurnFailed => Fail
    case TurnTooOld => Send(SlotTooOld, None)
    case TurnReady(state, versioning, stateStep, versioningStep) =>
      if !(stateStep.Finished? && versioningStep.Finished?) then
        Send(Part(slot, state, versioning, [], {}), Some(Cursors(Some(slot), stateStep, versioningStep, consensusStep)))
      else if consensus.None? then Fail
      else
        var part := consensus.value;
        if part.cursor.Finished? && state.IsEmpty() && versioning.IsEmpty() then Send(BootstrapFinished, None)
        else
          Send(Part(slot, state, versioning, part.blocks, part.outdated),
               Some(Cursors(Some(slot), stateStep, versioningStep, part.cursor)))
  }

  /** One iteration of the server loop. */
  function Turn(cfg: ServerConfig, db: Db, cur: Cursors, consensus: Option<ConsensusPart>): Outcome {
    Respond(db.changeId, cur.consensusStep, ReadFinalState(cfg.db, db, cur), consensus)
  }

  /** Blocks are streamed once both columns are. */
  predicate AsksConsensus(t: FinalStateTurn) {
    t.TurnReady? && t.stateStep.Finished? && t.versioningStep.Finished?
  }

  ghost predicate ConsensusReply(slot: Slot, step: ConsensusStep, partSize: nat, view: ConsensusView,
                                 consensus: Option<ConsensusPart>)
  {
    match Required(view, Some(slot))
    case None => consensus.None?
    case Some(required) => consensus.Some? && IsPart(view, Some(slot), required, step, partSize, consensus.value)
  }

  /** The answers that the consensus controller may give at this turn, if it is asked. */
  ghost predicate ConsensusAnswer(
    cfg: ServerConfig, db: Db, cur: Cursors, view: ConsensusView, consensus: Option<ConsensusPart>)
  {
    if AsksConsensus(ReadFinalState(cfg.db, db, cur))
    then ConsensusReply(db.changeId, cur.consensusStep, cfg.partSize, view, consensus)
    else consensus.None?
  }

  // ---------------------------------------------------------------- client

  datatype ClientConfig = ClientConfig(db: DbConfig, maxConsensusBlockIds: nat, resetSlot: Slot)

  datatype Client = Client(db: Db, graph: Graph, ask: Ask, done: bool)

  /** The client's reaction to a part; an error leaves it as it was and closes the connection. */
  ghost function Receive(cfg: ClientConfig, client: Client, part: Message): Result<Client, DbError>
    requires part.Part?
  {
    match Write(cfg.db, client.db, PartChanges(part.state), PartChanges(part.versioning), Some(part.state.changeId),
                true)
    case Err(e) => Err(e)
    case Ok(db) =>
      var graph := Absorb(client.graph, part.blocks, part.outdated);
      var ask := Ask(Some(part.slot), ClientStep(part.state), ClientStep(part.versioning),
                     CappedStep(graph, cfg.maxConsensusBlockIds), false);
      Ok(client.(db := db, graph := graph, ask := ask))
  }

  ghost function Restart(cfg: ClientConfig, client: Client): Client {
    Client(Reset(cfg.db, client.db, cfg.resetSlot), None, FIRST_ASK, false)
  }

  /** The client right before it sends its ask. */
  function Align(client: Client): Client {
    client.(graph := AlignedGraph(client.ask.consensusStep, client.graph),
            ask := client.ask.(consensusStep := AlignedStep(client.ask.consensusStep, client.graph)))
  }

  function StartSession(ask: Ask): Cursors {
    Cursors(ask.lastSlot, ask.stateStep, ask.versioningStep, ask.consensusStep)
  }

  // ---------------------------------------------------------------- the whole system

  /** What never changes: the log that finality dictates and the configurations. */
  datatype World = World(log: Log, servers: seq<ServerConfig>, client: ClientConfig)

  ghost predicate ServerConfigured(w: World, cfg: ServerConfig) {
    && cfg.db.entryHash == w.client.db.entryHash
    && LogFits(w.log, StateCf, cfg.db.maxStateSize)
    && LogFits(w.log, VersioningCf, cfg.db.maxVersioningSize)
    && cfg.partSize >= 1
  }

  ghost predicate Configured(w: World) {
    && Increasing(w.log)
    && w.client.maxConsensusBlockIds >= 1
    && forall i :: 0 <= i < |w.servers| ==> ServerConfigured(w, w.servers[i])
  }

  /** A reset client is not ahead of any write it can be sent. */
  predicate ResetsEarly(w: World) {
    NotAfter(w.client.resetSlot, w.log.firstId)
  }

  /** A connection: the serving node, its cursors unless it has stopped, and the messages in flight. */
  datatype Connection = Connection(server: nat, cursors: Option<Cursors>, inflight: seq<Message>)

  datatype System = System(
    servers: seq<Db>,
    positions: seq<nat>,  // how many writes of the log each server has applied
    client: Client,
    connection: Option<Connection>)

  ghost predicate ServersFollow(w: World, s: System) {
    && |s.servers| == |s.positions| == |w.servers|
    && forall i :: 0 <= i < |s.servers| ==> Follows(w.servers[i].db, s.servers[i], w.log, s.positions[i])
  }

  ghost predicate Init(w: World, s: System) {
    && ServersFollow(w, s)
    && s.client.db.state == map[] && s.client.db.versioning == map[] && s.client.db.hash == InitialHash()
    && NotAfter(s.client.db.changeId, w.client.resetSlot)
    && s.client.graph == None && s.client.ask == FIRST_ASK && !s.client.done
    && s.connection.None?
  }

  /** A server finalizes the next slot. */
  ghost predicate ServerWrites(w: World, s: System, s': System, i: nat, written: Db) {
    && i < |s.servers| == |s.positions| == |w.servers| && s.positions[i] < |w.log.writes|
    && WriteLogged(w.servers[i].db, s.servers[i], w.log.writes[s.positions[i]]) == Ok(written)
    && s' == s.(servers := s.servers[i := written], positions := s.positions[i := s.positions[i] + 1])
  }

  /** A server process restarts from its disk, where the change histories are not kept. */
  ghost predicate ServerRestarts(s: System, s': System, i: nat) {
    && i < |s.servers|
    && s' == s.(servers := s.servers[i := s.servers[i].(history := map[], versioningHistory := map[])],
                connection := if s.connection.Some? && s.connection.value.server == i then None else s.connection)
  }

  ghost predicate Connects(s: System, s': System, i: nat) {
    && s.connection.None? && !s.client.done && i < |s.servers|
    && s' == s.(client := Align(s.client),
                connection := Some(Connection(i, Some(StartSession(Align(s.client).ask)), [])))
  }

  ghost predicate Disconnects(s: System, s': System) {
    s' == s.(connection := None)
  }

  ghost predicate ServerTurns(w: World, s: System, s': System, view: ConsensusView, consensus: Option<ConsensusPart>) {
    && s.connection.Some? && s.connection.value.cursors.Some?
    && var conn := s.connection.value;
       && conn.server < |s.servers| == |w.servers|
       && var cfg, db, cur := w.servers[conn.server], s.servers[conn.server], conn.cursors.value;
          && ConsensusAnswer(cfg, db, cur, view, consensus)
          && s' == s.(connection := Some(AfterTurn(conn, Turn(cfg, db, cur, consensus))))
  }

  function AfterTurn(conn: Connection, outcome: Outcome): Connection {
    match outcome
    case Fail => conn.(cursors := None)
    case Send(message, next) => conn.(cursors := next, inflight := conn.inflight + [message])
  }

  /** The client reads the next message; its own checks may refuse a finished bootstrap. */
  ghost predicate Delivers(w: World, s: System, s': System) {
    && s.connection.Some? && s.connection.value.inflight != []
    && var conn := s.connection.value;
       match conn.inflight[0]
       case Part(_, _, _, _, _) =>
         (match Receive(w.client, s.client, conn.inflight[0])
          case Err(_) => s' == s.(connection := None)
          case Ok(client) => s' == s.(client := client, connection := Some(conn.(inflight := conn.inflight[1..]))))
       case SlotTooOld => s' == s.(client := Restart(w.client, s.client), connection := None)
       case BootstrapFinished =>
         || s' == s.(client := s.client.(done := true), connection := None)
         || s' == s.(client := Restart(w.client, s.client), connection := None)
         || s' == s.(connection := None)
  }

  ghost predicate Next(w: World, s: System, s': System) {
    || (exists i, written :: ServerWrites(w, s, s', i, written))
    || (exists i :: ServerRestarts(s, s', i))
    || (exists i :: Connects(s, s', i))
    || Disconnects(s, s')
    || (exists view, consensus :: ServerTurns(w, s, s', view, consensus))
    || Delivers(w, s, s')
  }

  // ---------------------------------------------------------------- the invariant

  /** The columns a client holds are those of change `c`, up to the given cursors. */
  ghost predicate HoldsViews(w: World, db: Db, stateStep: ColumnStep, versioningStep: ColumnStep, c: nat) {
    && c <= |w.log.writes|
    && db.state == View(Snap(w.log, StateCf, c), stateStep)
    && db.versioning == View(Snap(w.log, VersioningCf, c), versioningStep)
  }

  ghost predicate HoldsAll(w: World, db: Db, c: nat) {
    && c <= |w.log.writes|
    && db.state == Snap(w.log, StateCf, c)
    && db.versioning == Snap(w.log, VersioningCf, c)
  }

  /** The stream of a column is at one of its keys, or finished. */
  ghost predicate KnownCursor(step: ColumnStep, col: Column) {
    step == Finished(None) || (step.Ongoing? && step.cursor in col)
  }

  /** The ask is the first one, or resumes from change `c` with both column streams under way. */
  ghost predicate AskAt(w: World, client: Client, c: nat) {
    var ask := client.ask;
    match ask.lastSlot
    case None => ask == FIRST_ASK && client.graph == None && NotAfter(client.db.changeId, w.client.resetSlot)
    case Some(slot) =>
      && c <= |w.log.writes| && slot == IdAt(w.log, c) && client.db.changeId == slot
      && KnownCursor(ask.stateStep, Snap(w.log, StateCf, c))
      && KnownCursor(ask.versioningStep, Snap(w.log, VersioningCf, c))
      && !ask.sendLastStartPeriod
      && client.db.history == map[] && client.db.versioningHistory == map[]
  }

  ghost predicate ConsensusAskOk(w: World, client: Client) {
    && GraphDistinct(client.graph)
    && ClaimsNewest(client.ask.consensusStep, client.graph, w.client.maxConsensusBlockIds)
    && !client.ask.consensusStep.Finished?
    && Agree(Align(client).ask.consensusStep, Align(client).graph)
  }

  ghost predicate ClientAt(w: World, client: Client, c: nat) {
    && HoldsViews(w, client.db, client.ask.stateStep, client.ask.versioningStep, c)
    && client.db.hash == HashOf(w.client.db.entryHash, client.db.state)
    && AskAt(w, client, c)
    && ConsensusAskOk(w, client)
    && (client.done ==> exists p :: HoldsAll(w, client.db, p))
  }

  ghost predicate ClientOk(w: World, client: Client) {
    exists c :: ClientAt(w, client, c)
  }

  /** A server's cursors fit the client that has read everything sent so far. */
  ghost predicate CursorsFit(w: World, client: Client, cur: Cursors, c: nat) {
    && ClientAt(w, client, c) && !client.done
    && cur.lastSlot == client.ask.lastSlot
    && HoldsViews(w, client.db, cur.stateStep, cur.versioningStep, c)
    && (cur.lastSlot.None? ==> cur.stateStep.Started? && cur.versioningStep.Started?)
    && Agree(cur.consensusStep, client.graph)
  }

  ghost predicate SessionOk(w: World, client: Client, cur: Cursors) {
    exists c :: CursorsFit(w, client, cur, c)
  }

  /** Whatever prefix of the messages in flight the client gets to read, it stays in a good state. */
  ghost predicate QueueOk(w: World, client: Client, inflight: seq<Message>, cursors: Option<Cursors>)
    decreases |inflight|
  {
    if inflight == [] then cursors.Some? ==> SessionOk(w, client, cursors.value)
    else
      match inflight[0]
      case Part(_, _, _, _, _) =>
        var r := Receive(w.client, client, inflight[0]);
        && (ResetsEarly(w) ==> r.Ok?)
        && (r.Ok? ==> ClientOk(w, r.value) && QueueOk(w, r.value, inflight[1..], cursors))
      case SlotTooOld => |inflight| == 1 && cursors.None?
      case BootstrapFinished => |inflight| == 1 && cursors.None? && exists p :: HoldsAll(w, client.db, p)
  }

  ghost predicate Inv(w: World, s: System) {
    && ServersFollow(w, s)
    && ClientOk(w, s.client)
    && (s.connection.Some? ==>
          && !s.client.done
          && s.connection.value.server < |s.servers|
          && QueueOk(w, s.client, s.connection.value.inflight, s.connection.value.cursors))
  }
}
