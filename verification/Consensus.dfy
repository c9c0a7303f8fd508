/**
Streaming of the consensus blocks: the server's cursor is the set of block ids it has sent, the
client's is the set of ids of the graph it holds, capped when it has to ask again.
 */
module Consensus {
  import opened ByteStrings
  import opened Columns
  import opened Slots

  const BLOCK_ID_LEN := 32

  /** A block id is a hash, compared byte by byte. */
  type BlockId = id: Key | |id| == BLOCK_ID_LEN witness seq(BLOCK_ID_LEN, _ => 0)

  type ConsensusStep = StreamingStep<set<BlockId>>

  datatype Block = Block(id: BlockId, slot: Slot)

  datatype BlockStatus = Active(slot: Slot, isFinal: bool) | Inactive

  /** What the server's block graph answers during one turn. */
  datatype ConsensusView = ConsensusView(
    lastGenesisSlot: Slot,
    required: Option<set<BlockId>>,  // None when listing the required blocks fails
    statuses: map<BlockId, BlockStatus>
  )

  datatype ConsensusPart = ConsensusPart(blocks: seq<Block>, outdated: set<BlockId>, cursor: ConsensusStep)

  function Ids(blocks: seq<Block>): set<BlockId> {
    set b | b in blocks :: b.id
  }

  ghost predicate Distinct(blocks: seq<Block>) {
    forall i, j :: 0 <= i < j < |blocks| ==> blocks[i].id != blocks[j].id
  }

  // ---------------------------------------------------------------- server side

  function EndSlot(execution: StreamingStep<Slot>): Option<Slot> {
    match execution
    case Started => None
    case Ongoing(slot) => Some(slot)
    case Finished(last) => last
  }

  /** A block that may be sent: active, final and not after the end slot. */
  predicate Sendable(view: ConsensusView, end: Option<Slot>, id: BlockId) {
    && id in view.statuses
    && view.statuses[id].Active?
    && view.statuses[id].isFinal
    && (end.Some? ==> NotAfter(view.statuses[id].slot, end.value))
  }

  /** The required ids, or None when the server reports an error. */
  function Required(view: ConsensusView, end: Option<Slot>): Option<set<BlockId>> {
    if end.None? then Some({})
    else if Before(end.value, view.lastGenesisSlot) then None
    else view.required
  }

  function Sent(cursor: ConsensusStep): set<BlockId> {
    if cursor.Ongoing? then cursor.cursor else {}
  }

  /** What `get_bootstrap_part` may answer; it visits the missing ids in no particular order. */
  ghost predicate IsPart(
    view: ConsensusView, end: Option<Slot>, required: set<BlockId>, cursor: ConsensusStep, partSize: nat,
    part: ConsensusPart)
  {
    if cursor.Finished? then part == ConsensusPart([], {}, cursor)
    else
      var missing := required - Sent(cursor);
      && Distinct(part.blocks)
      && |part.blocks| <= partSize
      && (forall b :: b in part.blocks ==>
            b.id in missing && Sendable(view, end, b.id) && b.slot == view.statuses[b.id].slot)
      && (|part.blocks| < partSize ==> forall id :: id in missing && Sendable(view, end, id) ==> id in Ids(part.blocks))
      && part.outdated == Sent(cursor) - required
      && part.cursor == if part.blocks == [] then Finished(None)
                        else Ongoing(Ids(part.blocks) + (Sent(cursor) - part.outdated))
  }

  method GetBootstrapPart(view: ConsensusView, cursor: ConsensusStep, execution: StreamingStep<Slot>, partSize: nat)
    returns (r: Option<ConsensusPart>)
    ensures r.None? <==> Required(view, EndSlot(execution)).None?
    ensures r.Some? ==>
              IsPart(view, EndSlot(execution), Required(view, EndSlot(execution)).value, cursor, partSize, r.value)
    ensures forall slot :: execution == Ongoing(slot) || execution == Finished(Some(slot)) ==>
              && (r.None? <==> Before(slot, view.lastGenesisSlot) || view.required.None?)
              && (r.Some? && !cursor.Finished? ==>
                    && (forall b :: b in r.value.blocks ==>
                          && b.id in view.required.value && b.id !in Sent(cursor)
                          && b.id in view.statuses && view.statuses[b.id] == Active(b.slot, true)
                          && NotAfter(b.slot, slot))
                    && (|r.value.blocks| < partSize ==>
                          forall id, at ::
                            (&& id in view.required.value && id !in Sent(cursor)
                             && id in view.statuses && view.statuses[id] == Active(at, true) && NotAfter(at, slot))
                            ==> id in Ids(r.value.blocks)))
    ensures execution == Started || execution == Finished(None) ==> r.Some? && r.value.blocks == []
  {
    var end := EndSlot(execution);
    if end.Some? && Before(end.value, view.lastGenesisSlot) {
      return None;
    }
    if end.Some? && view.required.None? {
      return None;
    }
    var required: set<BlockId> := if end.Some? then view.required.value else {};
    if cursor.Finished? {
      return Some(ConsensusPart([], {}, cursor));
    }
    var previous := Sent(cursor);
    var outdated := previous - required;
    var blocks: seq<Block> := [];
    var retrieved: set<BlockId> := {};
    var rest := required - previous;
    while rest != {}
      invariant rest <= required - previous
      invariant retrieved == Ids(blocks) && retrieved !! rest && |blocks| <= partSize
      invariant Distinct(blocks)
      invariant forall b :: b in blocks ==>
                  b.id in required - previous && Sendable(view, end, b.id) && b.slot == view.statuses[b.id].slot
      invariant forall id :: id in required - previous - rest && Sendable(view, end, id) ==> id in retrieved
    {
      var id :| id in rest;
      rest := rest - {id};
      if id in view.statuses && view.statuses[id].Active? {
        if |blocks| >= partSize {
          break;
        }
        if end.Some? && Before(end.value, view.statuses[id].slot) {
          continue;
        }
        if view.statuses[id].isFinal {
          IdsAppend(blocks, Block(id, view.statuses[id].slot));
          blocks := blocks + [Block(id, view.statuses[id].slot)];
          retrieved := retrieved + {id};
        }
      }
    }
    if blocks == [] {
      return Some(ConsensusPart(blocks, outdated, Finished(None)));
    }
    assert blocks[0] in blocks;
    return Some(ConsensusPart(blocks, outdated, Ongoing(retrieved + (previous - outdated))));
  }

  lemma IdsAppend(blocks: seq<Block>, b: Block)
    ensures Ids(blocks + [b]) == Ids(blocks) + {b.id}
    ensures Distinct(blocks) && b.id !in Ids(blocks) ==> Distinct(blocks + [b])
  {
    assert b in blocks + [b];
    assert forall x :: x in blocks ==> x in blocks + [b];
    if Distinct(blocks) && b.id !in Ids(blocks) {
      assert forall i :: 0 <= i < |blocks| ==> blocks[i] in blocks;
    }
  }

  // ---------------------------------------------------------------- client side

  /** The blocks whose id is in `keep`, in order. */
  function Keep(blocks: seq<Block>, keep: set<BlockId>): seq<Block> {
    if blocks == [] then []
    else
      var last := blocks[|blocks| - 1];
      var rest := Keep(blocks[..|blocks| - 1], keep);
      if last.id in keep then rest + [last] else rest
  }

  lemma {:induction false} KeepFilters(blocks: seq<Block>, keep: set<BlockId>)
    ensures Ids(Keep(blocks, keep)) == Ids(blocks) * keep
    ensures forall b :: b in Keep(blocks, keep) ==> b in blocks
    ensures Distinct(blocks) ==> Distinct(Keep(blocks, keep))
  {
    if blocks != [] {
      var init, last := blocks[..|blocks| - 1], blocks[|blocks| - 1];
      assert blocks == init + [last];
      KeepFilters(init, keep);
      IdsAppend(init, last);
      IdsAppend(Keep(init, keep), last);
    }
  }

  /** Keeping goes through the blocks in order, and treats each on its own. */
  lemma {:induction false} KeepConcat(a: seq<Block>, b: seq<Block>, keep: set<BlockId>)
    ensures Keep(a + b, keep) == Keep(a, keep) + Keep(b, keep)
    decreases |b|
  {
    if b == [] {
      assert a + b == a && Keep(a, keep) + [] == Keep(a, keep);
    } else {
      var init, last := b[..|b| - 1], b[|b| - 1];
      KeepConcat(a, init, keep);
      KeepLast(a + init, last, keep);
      KeepLast(init, last, keep);
      assert a + b == (a + init) + [last] && b == init + [last];
    }
  }

  lemma KeepLast(blocks: seq<Block>, b: Block, keep: set<BlockId>)
    ensures Keep(blocks + [b], keep) == Keep(blocks, keep) + if b.id in keep then [b] else []
  {
    assert (blocks + [b])[..|blocks|] == blocks;
  }

  type Graph = Option<seq<Block>>

  function GraphIds(graph: Graph): set<BlockId> {
    if graph.Some? then Ids(graph.value) else {}
  }

  ghost predicate GraphDistinct(graph: Graph) {
    graph.Some? ==> Distinct(graph.value)
  }

  /** The client's graph after a part: extended, then stripped of the outdated blocks. */
  function Absorb(graph: Graph, blocks: seq<Block>, outdated: set<BlockId>): Graph {
    if graph.Some?
    then Some(Keep(graph.value + blocks, Ids(graph.value + blocks) - outdated))
    else Some(blocks)
  }

  /** The server's cursor describes the client's graph. */
  ghost predicate Agree(cursor: ConsensusStep, graph: Graph) {
    && GraphDistinct(graph)
    && (!cursor.Finished? ==> Sent(cursor) == GraphIds(graph))
  }

  lemma DistinctConcat(a: seq<Block>, b: seq<Block>)
    requires Distinct(a) && Distinct(b) && Ids(a) !! Ids(b)
    ensures Distinct(a + b) && Ids(a + b) == Ids(a) + Ids(b)
  {
    assert forall x :: x in a + b <==> x in a || x in b;
    forall i, j | 0 <= i < j < |a + b|
      ensures (a + b)[i].id != (a + b)[j].id
    {
      if i < |a| <= j {
        assert a[i].id in Ids(a) && b[j - |a|].id in Ids(b);
      }
    }
  }

  /**
   One consensus part keeps the client's ids equal to the server's cursor without duplicates. If it
   finishes the cursor, the client already holds every required block that can be sent, and any
   other block it holds is in the outdated set of that same part.
   */
  lemma PartKeepsAgreement(
    view: ConsensusView, end: Option<Slot>, required: set<BlockId>, cursor: ConsensusStep, partSize: nat,
    part: ConsensusPart, graph: Graph)
    requires IsPart(view, end, required, cursor, partSize, part) && partSize >= 1
    requires Agree(cursor, graph)
    ensures Agree(part.cursor, Absorb(graph, part.blocks, part.outdated))
    ensures part.cursor.Finished? && !cursor.Finished? ==>
              && (forall id :: id in required && Sendable(view, end, id) ==> id in GraphIds(graph))
              && GraphIds(graph) - required == part.outdated
  {
    if cursor.Finished? {
      AbsorbMeaning(graph, part.blocks, part.outdated);
    } else {
      assert Ids(part.blocks) !! GraphIds(graph);
      AbsorbMeaning(graph, part.blocks, part.outdated);
      if part.blocks != [] {
        assert part.blocks[0].id in Ids(part.blocks);
      }
    }
  }

  lemma AbsorbMeaning(graph: Graph, blocks: seq<Block>, outdated: set<BlockId>)
    requires GraphDistinct(graph) && Distinct(blocks) && Ids(blocks) !! GraphIds(graph)
    ensures GraphDistinct(Absorb(graph, blocks, outdated))
    ensures GraphIds(Absorb(graph, blocks, outdated))
         == if graph.Some? then GraphIds(graph) + Ids(blocks) - outdated else Ids(blocks)
  {
    if graph.Some? {
      DistinctConcat(graph.value, blocks);
      KeepFilters(graph.value + blocks, Ids(graph.value + blocks) - outdated);
    }
  }

  // ---------------------------------------------------------------- asking again

  predicate Older(a: Block, b: Block) {
    Before(a.slot, b.slot) || (a.slot == b.slot && Less(a.id, b.id))
  }

  function InsertByAge(sorted: seq<Block>, b: Block): (r: seq<Block>)
    ensures |r| == |sorted| + 1
  {
    if sorted == [] || !Older(b, sorted[|sorted| - 1]) then sorted + [b]
    else InsertByAge(sorted[..|sorted| - 1], b) + [sorted[|sorted| - 1]]
  }

  function SortByAge(blocks: seq<Block>): (r: seq<Block>)
    ensures |r| == |blocks|
  {
    if blocks == [] then [] else InsertByAge(SortByAge(blocks[..|blocks| - 1]), blocks[|blocks| - 1])
  }

  ghost predicate SortedByAge(blocks: seq<Block>) {
    forall i, j :: 0 <= i < j < |blocks| ==> !Older(blocks[j], blocks[i])
  }

  lemma {:induction false} InsertByAgePermutes(sorted: seq<Block>, b: Block)
    ensures multiset(InsertByAge(sorted, b)) == multiset(sorted) + multiset{b}
  {
    if sorted != [] && Older(b, sorted[|sorted| - 1]) {
      assert sorted == sorted[..|sorted| - 1] + [sorted[|sorted| - 1]];
      InsertByAgePermutes(sorted[..|sorted| - 1], b);
    }
  }

  lemma {:induction false} InsertByAgeSorts(sorted: seq<Block>, b: Block)
    requires SortedByAge(sorted)
    ensures SortedByAge(InsertByAge(sorted, b))
  {
    if sorted == [] || !Older(b, sorted[|sorted| - 1]) {
      forall i | 0 <= i < |sorted|
        ensures !Older(b, sorted[i])
      {
        KeyOrder();
        assert i < |sorted| - 1 ==> !Older(sorted[|sorted| - 1], sorted[i]);
      }
    } else {
      var init, last := sorted[..|sorted| - 1], sorted[|sorted| - 1];
      InsertByAgeSorts(init, b);
      InsertByAgePermutes(init, b);
      var r := InsertByAge(init, b);
      forall i | 0 <= i < |r|
        ensures !Older(last, r[i])
      {
        assert r[i] in multiset(r);
        if r[i] == b {
          KeyOrder();
        } else {
          assert r[i] in init;
        }
      }
    }
  }

  lemma {:induction false} SortByAgeSorts(blocks: seq<Block>)
    ensures SortedByAge(SortByAge(blocks))
    ensures multiset(SortByAge(blocks)) == multiset(blocks)
  {
    if blocks != [] {
      var init, last := blocks[..|blocks| - 1], blocks[|blocks| - 1];
      assert blocks == init + [last];
      SortByAgeSorts(init);
      InsertByAgeSorts(SortByAge(init), last);
      InsertByAgePermutes(SortByAge(init), last);
    }
  }

  /** The ids claimed when asking again: all of them, or the newest `max`. */
  function CappedIds(blocks: seq<Block>, max: nat): set<BlockId> {
    if max == 0 || blocks == [] then {}
    else if |blocks| <= max then Ids(blocks)
    else Ids(SortByAge(blocks)[|blocks| - max..])
  }

  function CappedStep(graph: Graph, max: nat): ConsensusStep {
    if graph.None? || CappedIds(graph.value, max) == {} then Started else Ongoing(CappedIds(graph.value, max))
  }

  lemma IdsOfDistinct(blocks: seq<Block>)
    requires Distinct(blocks)
    ensures |Ids(blocks)| == |blocks|
  {
    if blocks == [] {
      assert Ids(blocks) == {};
    } else {
      var init, last := blocks[..|blocks| - 1], blocks[|blocks| - 1];
      assert blocks == init + [last];
      IdsOfDistinct(init);
      IdsAppend(init, last);
      assert last.id !in Ids(init);
    }
  }

  /** In a sorted list, a block cut off from the end is older than any block kept. */
  lemma TailIsNewest(sorted: seq<Block>, cut: nat, a: Block, b: Block)
    requires SortedByAge(sorted) && Distinct(sorted) && cut <= |sorted|
    requires a in sorted && b in sorted && a.id in Ids(sorted[cut..]) && b.id !in Ids(sorted[cut..])
    ensures Older(b, a)
  {
    KeyOrder();
    var k :| k in sorted[cut..] && k.id == a.id;
    SameBlock(sorted, a, k);
    var i :| 0 <= i < |sorted[cut..]| && sorted[cut..][i] == a;
    var j :| 0 <= j < |sorted| && sorted[j] == b;
    assert !Older(sorted[cut + i], sorted[j]);
  }

  /** The claimed ids are the newest of the graph, as many as the cap allows. */
  lemma CappedIdsAreNewest(blocks: seq<Block>, max: nat)
    requires Distinct(blocks)
    ensures var ids := CappedIds(blocks, max);
            && ids <= Ids(blocks)
            && |ids| == (if |blocks| <= max then |blocks| else max)
            && forall a, b :: a in blocks && b in blocks && a.id in ids && b.id !in ids ==>
                 Before(b.slot, a.slot) || (b.slot == a.slot && Less(b.id, a.id))
  {
    if |blocks| <= max {
      IdsOfDistinct(blocks);
      assert forall b :: b in blocks ==> b.id in Ids(blocks);
    } else {
      SortByAgeSorts(blocks);
      var sorted := SortByAge(blocks);
      SameMembers(blocks, sorted);
      var cut := |sorted| - max;
      assert Ids(sorted[cut..]) == CappedIds(blocks, max);
      IdsOfDistinct(sorted[cut..]);
      forall a, b | a in blocks && b in blocks && a.id in Ids(sorted[cut..]) && b.id !in Ids(sorted[cut..])
        ensures Older(b, a)
      {
        TailIsNewest(sorted, cut, a, b);
      }
    }
  }

  lemma SameBlock(blocks: seq<Block>, a: Block, b: Block)
    requires Distinct(blocks) && a in blocks && b in blocks && a.id == b.id
    ensures a == b
  {
    var i :| 0 <= i < |blocks| && blocks[i] == a;
    var j :| 0 <= j < |blocks| && blocks[j] == b;
  }

  lemma SameMembers(a: seq<Block>, b: seq<Block>)
    requires multiset(a) == multiset(b) && Distinct(a)
    ensures forall x :: x in a <==> x in b
    ensures Distinct(b)
  {
    assert forall x :: x in a <==> x in multiset(a);
    assert forall x :: x in b <==> x in multiset(b);
    forall i, j | 0 <= i < j < |b|
      ensures b[i].id != b[j].id
    {
      if b[i].id == b[j].id {
        SameBlock(a, b[i], b[j]);
        CountTwice(b, i, j);
        CountOnce(a, b[i]);
      }
    }
  }

  lemma CountTwice(b: seq<Block>, i: int, j: int)
    requires 0 <= i < j < |b| && b[i] == b[j]
    ensures multiset(b)[b[i]] >= 2
  {
    assert b == b[..j] + [b[j]] + b[j + 1..];
    assert b[i] in b[..j];
  }

  lemma {:induction false} CountOnce(a: seq<Block>, x: Block)
    requires Distinct(a)
    ensures multiset(a)[x] <= 1
  {
    if a != [] {
      var init, last := a[..|a| - 1], a[|a| - 1];
      assert a == init + [last];
      CountOnce(init, x);
      assert last !in init;
    }
  }

  /** The graph and the claimed cursor right before an ask: each pruned to the other. */
  function AlignedGraph(cursor: ConsensusStep, graph: Graph): Graph {
    if cursor.Ongoing? && graph.Some? then
      var kept := Keep(graph.value, cursor.cursor);
      if kept == [] then None else Some(kept)
    else graph
  }

  function AlignedStep(cursor: ConsensusStep, graph: Graph): ConsensusStep {
    if !cursor.Ongoing? then cursor
    else
      var ids := if graph.Some? then Ids(Keep(graph.value, cursor.cursor)) else {};
      if ids == {} then Started else Ongoing(ids)
  }

  /**
   After aligning, the ask claims exactly the blocks of the pruned graph, within the cap: provided
   the cap is at least one. With a cap of zero a client that holds blocks claims none of them.
   */
  lemma AlignedAskAgrees(graph: Graph, max: nat)
    requires GraphDistinct(graph)
    ensures var cursor := CappedStep(graph, max);
            && GraphDistinct(AlignedGraph(cursor, graph))
            && !cursor.Finished? && |Sent(cursor)| <= max
            && |Sent(AlignedStep(cursor, graph))| <= max
            && (Agree(AlignedStep(cursor, graph), AlignedGraph(cursor, graph)) <==> max >= 1 || GraphIds(graph) == {})
  {
    if graph.Some? {
      CappedIdsAreNewest(graph.value, max);
      KeepFilters(graph.value, CappedIds(graph.value, max));
      KeptWithin(graph.value, CappedIds(graph.value, max));
    }
  }

  function BlocksOf(graph: Graph): seq<Block> {
    if graph.Some? then graph.value else []
  }

  /** Every block of the graph that is not among `ids` is older than every block that is. */
  ghost predicate NewestOf(ids: set<BlockId>, graph: Graph) {
    forall a, b :: a in BlocksOf(graph) && b in BlocksOf(graph) && a.id in ids && b.id !in ids ==>
      Before(b.slot, a.slot) || (b.slot == a.slot && Less(b.id, a.id))
  }

  /** The cursor claims the newest blocks of the graph, as many as the cap allows. */
  ghost predicate ClaimsNewest(cursor: ConsensusStep, graph: Graph, max: nat) {
    var size := |BlocksOf(graph)|;
    && Sent(cursor) <= GraphIds(graph)
    && |Sent(cursor)| == (if size <= max then size else max)
    && NewestOf(Sent(cursor), graph)
  }

  lemma CappedStepClaimsNewest(graph: Graph, max: nat)
    requires GraphDistinct(graph)
    ensures ClaimsNewest(CappedStep(graph, max), graph, max)
  {
    if graph.Some? {
      CappedIdsAreNewest(graph.value, max);
    }
  }

  /**
   Aligning a cursor that claims the newest blocks keeps exactly those: what it drops from the graph
   is older than what it keeps, and the aligned cursor claims all that is kept.
   */
  lemma AlignKeepsNewest(cursor: ConsensusStep, graph: Graph, max: nat)
    requires GraphDistinct(graph) && ClaimsNewest(cursor, graph, max) && !cursor.Finished? && max >= 1
    ensures var cursor', graph' := AlignedStep(cursor, graph), AlignedGraph(cursor, graph);
            && Sent(cursor') == GraphIds(graph') == Sent(cursor)
            && NewestOf(GraphIds(graph'), graph)
            && ClaimsNewest(cursor', graph', max)
  {
    if cursor.Ongoing? && graph.Some? {
      KeepFilters(graph.value, cursor.cursor);
      KeptWithin(graph.value, cursor.cursor);
      var kept := Keep(graph.value, cursor.cursor);
      IdsOfDistinct(kept);
      assert forall b :: b in kept ==> b.id in Ids(kept);
    } else if graph.Some? {
      assert graph.value == [];
    }
  }

  lemma KeptWithin(blocks: seq<Block>, ids: set<BlockId>)
    requires ids <= Ids(blocks)
    ensures Ids(blocks) * ids == ids
    ensures ids == {} <==> Keep(blocks, ids) == []
  {
    KeepFilters(blocks, ids);
    if Keep(blocks, ids) != [] {
      assert Keep(blocks, ids)[0].id in Ids(Keep(blocks, ids));
    }
  }

  lemma {:induction false} KeepAll(blocks: seq<Block>, keep: set<BlockId>)
    requires Ids(blocks) <= keep
    ensures Keep(blocks, keep) == blocks
  {
    if blocks != [] {
      var init, last := blocks[..|blocks| - 1], blocks[|blocks| - 1];
      assert blocks == init + [last];
      IdsAppend(init, last);
      KeepAll(init, keep);
    }
  }

  /** Aligning twice, as two asks in a row without a part in between do, changes nothing more. */
  lemma AlignIdempotent(cursor: ConsensusStep, graph: Graph)
    ensures var cursor', graph' := AlignedStep(cursor, graph), AlignedGraph(cursor, graph);
            && AlignedStep(cursor', graph') == cursor'
            && AlignedGraph(cursor', graph') == graph'
            && Sent(cursor') <= Sent(cursor)
            && (GraphDistinct(graph) ==> GraphDistinct(graph'))
  {
    if cursor.Ongoing? && graph.Some? {
      var kept := Keep(graph.value, cursor.cursor);
      KeepFilters(graph.value, cursor.cursor);
      KeepAll(kept, Ids(kept));
      if kept != [] {
        assert kept[0].id in Ids(kept);
      }
    }
  }
}
