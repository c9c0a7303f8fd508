/**
The client's side of a session, with the state it updates in place: its database, its block graph
and the ask it would send if the connection broke now.
 */
module ClientState {
  import opened ByteStrings
  import opened Columns
  import opened DbModel
  import opened MassaDb
  import opened Consensus
  import opened Bootstrap

  /** Keeps the blocks whose id is in `keep`, in order. */
  method Retain(blocks: seq<Block>, keep: set<BlockId>) returns (kept: seq<Block>)
    ensures kept == Keep(blocks, keep)
  {
    kept := [];
    for i := 0 to |blocks|
      invariant kept == Keep(blocks[..i], keep)
    {
      assert blocks[..i + 1][..i] == blocks[..i];
      if blocks[i].id in keep {
        kept := kept + [blocks[i]];
      }
    }
    assert blocks[..|blocks|] == blocks;
  }

  class GlobalBootstrapState {
    const cfg: ClientConfig
    const db: RawMassaDb
    var graph: Graph
    var ask: Ask
    var done: bool

    ghost predicate Valid()
      reads this, db
    {
      db.cfg == cfg.db && db.Valid()
    }

    ghost function Model(): Client
      reads this, db
    {
      Client(db.Model(), graph, ask, done)
    }

    constructor (cfg: ClientConfig, db: RawMassaDb)
      requires db.cfg == cfg.db && db.Valid()
      ensures this.cfg == cfg && this.db == db && Valid()
      ensures Model() == Client(db.Model(), None, FIRST_ASK, false)
    {
      this.cfg, this.db := cfg, db;
      graph, ask, done := None, FIRST_ASK, false;
    }

    /** Takes in one part; a part that cannot be written changes nothing. */
    method ReceivePart(part: Message) returns (r: Result<(), DbError>)
      requires Valid() && part.Part?
      modifies this, db
      ensures Valid()
      ensures r.Ok? ==> Receive(cfg, old(Model()), part) == Ok(Model())
      ensures r.Err? ==> Receive(cfg, old(Model()), part) == Err(r.error) && Model() == old(Model())
    {
      hide Apply, XorBatch, NextHistory, Keep, CappedStep, PartChanges, ClientStep, HashOf;
      var steps := db.WriteBatchBootstrapClient(part.state, part.versioning);
      if steps.Err? {
        return Err(steps.error);
      }
      if graph.Some? {
        var extended := graph.value + part.blocks;
        var kept := Retain(extended, Ids(extended) - part.outdated);
        graph := Some(kept);
      } else {
        graph := Some(part.blocks);
      }
      ask := Ask(Some(part.slot), steps.value.0, steps.value.1, CappedStep(graph, cfg.maxConsensusBlockIds), false);
      return Ok(());
    }

    /** Drops everything received so far. */
    method RestartStateStreaming()
      requires Valid()
      modifies this, db
      ensures Valid()
      ensures Model() == Restart(cfg, old(Model()))
      ensures db.state == map[] && db.versioning == map[] && graph == None
    {
      ask := FIRST_ASK;
      db.ResetContents(cfg.resetSlot);
      graph, done := None, false;
    }

    method AlignConsensusResumeStateBeforeAsk()
      requires Valid()
      modifies this
      ensures Valid()
      ensures Model() == Align(old(Model()))
    {
      if ask.consensusStep.Ongoing? {
        var ids: set<BlockId> := {};
        if graph.Some? {
          var kept := Retain(graph.value, ask.consensusStep.cursor);
          ids := Ids(kept);
          if kept == [] {
            graph := None;
          } else {
            graph := Some(kept);
          }
        }
        ask := ask.(consensusStep := if ids == {} then Started else Ongoing(ids));
      }
    }
  }
}
