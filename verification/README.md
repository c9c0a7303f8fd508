# Massa: bootstrap streaming, event cache and field-split storage

A Dafny model of three parts of the Massa node that keep redundant data in agreement, and proofs
that they do.

**Live streaming.** A bootstrap server sends its database to a client in key order while it keeps
writing to it. Each part carries new entries above a cursor and the changes at or below it since the
change id of the previous part; a bounded history decides whether those changes are still known. The
client recomputes its own cursors, may lose its connection at any moment, and may resume on another
server. `Convergence.FinishedMeansEqual` says that in every run the client ends up with exactly the
columns and the digest of the server that declares the bootstrap finished, `Convergence.BlocksAtFinish`
which blocks it has then, and `Recovery.CanAlwaysComplete` that no run is ever beyond completion.

**Event cache.** Events are stored beside four families of index entries and counters in one ordered
database. Queries intersect index scans in the order of their counters and stop early;
`EventCache.EventCache.GetFilteredEvents` says when they agree with the plain filter over the events.

**Field-split storage.** Deferred calls and asynchronous messages are stored as one entry per field
and read back by concatenating what a prefix scan meets. `DeferredRegistry.RegistryAlwaysReads` and
`AsyncPool.CacheAlwaysAgrees` say, over whole runs, exactly when the in-memory views and caches agree
with the database.

## How the model is laid out

| file | contents |
|---|---|
| ByteStrings.dfy, Slots.dfy, KeyLayout.dfy, Codecs.dfy | byte order of keys, slots, fixed-width key fields, encodings of record fields |
| Columns.dfy, Wire.dfy | columns, batches, cursors and the XOR digest; varints and the new-elements section |
| DbModel.dfy, MassaDb.dfy | the database as a value, and the object that updates itself in place |
| Streaming.dfy, Limits.dfy | the log, the step invariant, and where streaming stops being faithful |
| Consensus.dfy | the stream of final blocks and the capped ask |
| Bootstrap.dfy, Convergence.dfy, Recovery.dfy | the whole system as a state machine, its invariant, what follows, and why it can always be completed |
| Session.dfy, ClientState.dfy, AskWire.dfy | the loop of a session and its end, the state of the client, asks on the wire |
| EventKeys.dfy, EventIndex.dfy, EventQuery.dfy, EventCache.dfy | the event cache |
| FieldStore.dfy, DeferredCalls.dfy, DeferredValidation.dfy, DeferredRegistry.dfy, AsyncMessages.dfy, AsyncPool.dfy | field-split storage |
| Admission.dfy | admission of bootstrap clients |

Objects that the source updates in place are classes (`RawMassaDb`, `GlobalBootstrapState`,
`EventCache`, `DeferredCallRegistry`, `DeferredCallRegistryChanges`, `DeferredSlotCalls`, `AsyncPool`,
`BootstrapServer`); their methods are proved against functions on values, about which the properties
are stated. The two batch builders of the database, one per column, have the same text and are one
method with the column as a parameter. An ordered iterator is a set of keys from which the least is
taken. A column family is a map and a batch write is atomic. Keys of the event cache are kept decoded
next to the bytes they stand for, which `EventKeys.BytesInjective` shows to lose nothing.

## What the results rest on

- The log of finalized writes has strictly increasing change ids and is the same for every server
  (`Bootstrap.Configured`). `Limits.WriteReachesClient` shows what a repeated id does.
- Every entry fits in a part (`Streaming.LogFits`). The source says that the first entry is always
  taken; its condition exempts it from the footprint bound only, and the model follows the condition.
  `Limits.PartReachesCursor` says for every part what an oversize entry does: the client stops short of
  it and records the column as finished, on an empty part as on one with updates only.
- The cap on claimed block ids and the consensus part size are at least one. `Consensus.AlignedAskAgrees`
  shows what a cap of zero does.
- One turn of a server is atomic, as it runs under the read lock of the final state; messages in flight,
  broken connections and restarted servers are explicit.
- The hash of an entry is an uninterpreted function; the consensus view of a turn (required ids, statuses)
  and the wall clock of an admission are inputs.
- Events in the cache are final and have distinct slots and indexes; addresses and operation ids have
  fixed lengths.
- Message ids hold reduced fractions, as the constructor of the fraction makes them, so that parsing an id does
  not change it.
- The registry and the pool start from an empty database, and updates in a change set of the pool are about
  messages in it; `AsyncPool.WriteKeepsPool` shows what another update does.

Two promises of the source turn out not to hold as written, and are stated with their exact conditions. Malformed
keys are meant to be refused by the validator of deferred calls, but short ones make it panic
(`DeferredValidation.PanicsOnShortKeys`). The validator of asynchronous messages reads the length of a function name as
a single byte and so refuses names of 128 bytes and more, which the limit of 255 allows (`AsyncPool.PoolIsValid`).

## Model

| member | source | states |
|---|---|---|
| MassaDb.RawMassaDb.WriteChanges | massa-db-worker/src/massa_db.rs:406-560 | writes both columns, the change id, the running digest and both trimmed histories as one value-level write; a change id that goes backwards is refused and changes nothing; the digest stays the XOR of the state column |
| MassaDb.RawMassaDb.UpdateDigest | massa-db-worker/src/massa_db.rs:425-451 | the loop over a batch, each key compared with the stored value, computes the digest of the batch written over the column |
| MassaDb.TrimHistory | massa-db-worker/src/massa_db.rs:550-557 | the trimming loop keeps as many change ids as the maximum allows, each with its changes, and every id it drops is before every id it keeps |
| MassaDb.RawMassaDb.GetBatchToStream | massa-db-worker/src/massa_db.rs:95-249 | the history fold, the error cases and the ordered fill of new elements give the value-level batch, for either column |
| MassaDb.CollectUpdates | massa-db-worker/src/massa_db.rs:137-151 | folding the recorded changes from the oldest id on gives the changes since an id, later ids overriding, cut at the cursor |
| MassaDb.CollectNewElements | massa-db-worker/src/massa_db.rs:172-242 | the iterator loop with running size and footprint, which skips a cursor key that is still there, takes the longest admitted run of entries above the cursor |
| MassaDb.RawMassaDb.WriteBatchBootstrapClient | massa-db-worker/src/massa_db.rs:612-656 | updates are written before new elements, histories are emptied, and the cursors are the last new key or finished; refused exactly when the part is older than the client |
| MassaDb.RawMassaDb.DeleteByPrefix | massa-db-worker/src/massa_db.rs:833-855 | one write that deletes the keys with the prefix from one column |
| MassaDb.CollectPrefix | massa-db-worker/src/massa_db.rs:838-844 | a scan that stops at the first other key has met every key with the prefix |
| MassaDb.RawMassaDb.ResetSlotAndHistory | massa-db-worker/src/massa_db.rs:862-868 | change id and histories are reset, contents are kept |
| MassaDb.RawMassaDb.ResetContents | massa-final-state/src/final_state.rs:884-896 | a reset leaves both columns empty, the change id at the reset slot and the digest at its initial value |
| MassaDb.ChangesSinceFromOldest | massa-db-worker/src/massa_db.rs:137-151 | the fold from the oldest id equals letting later ids override |
| Streaming.WriteKeepsDigest | massa-db-worker/src/massa_db.rs:425-451 | every write keeps the digest equal to the XOR of the entry hashes of the state column |
| Streaming.XorBatchTracksColumn | massa-db-worker/src/massa_db.rs:425-451 | the incremental digest follows the column through any batch of puts, overwrites and deletions |
| Columns.HashOfTakesAnyKey | massa-db-worker/src/massa_db.rs:425-451 | the XOR of a column does not depend on the order of its entries |
| Streaming.DigestIsOfColumn | massa-db-worker/src/massa_db.rs:425-451 | over any sequence of batches the running digest is that of the column |
| Streaming.DigestIsPathIndependent | massa-db-worker/src/massa_db.rs:406-560 | two sequences of batches that lead to the same contents lead to the same digest |
| Streaming.DeletePrefixRemoves | massa-db-worker/src/massa_db.rs:833-855 | deleting a prefix removes exactly the keys that start with it, leaves the other column alone and keeps the digest right |
| Streaming.DeletePrefixIsRecorded | massa-db-worker/src/massa_db.rs:833-855 | a prefix deletion is recorded at its change id, key by key, so that clients are sent it |
| Streaming.ResetEmpties | massa-final-state/src/final_state.rs:884-896 | after a reset both columns are empty and the digest is the initial one |
| Streaming.FollowsWrite | massa-db-worker/src/massa_db.rs:406-560 | a node that applies the next write of the log goes on following it: its columns are those of the log, its histories gap-free suffixes, its digest right |
| Streaming.NextHistoryIsSuffix | massa-db-worker/src/massa_db.rs:520-557 | recording a write and trimming leaves a gap-free suffix of the log |
| Streaming.TrimKeepsLatest | massa-db-worker/src/massa_db.rs:550-557 | trimming a history keeps its latest ids, the maximum number of them |
| Streaming.WritesAreKept | massa-db-worker/src/massa_db.rs:520-557 | after any number of writes of the log a history holds exactly the last of them, one more for each write up to the maximum |
| Streaming.UpdatesReach | massa-db-worker/src/massa_db.rs:107-170 | updates are granted exactly to clients that are up to date or fewer writes behind than the history holds; older ones are told so, and so are those ahead |
| Streaming.RecentClientsAreServed | massa-db-worker/src/massa_db.rs:107-170 | after any number of writes a node serves exactly the clients fewer writes behind than it has kept, up to the maximum |
| Streaming.ChangesSinceSoundAndComplete | massa-db-worker/src/massa_db.rs:107-170 | the changes since a change id that the history reaches hold exactly the keys written since, each with its current value (none if absent); every other key is as it was |
| Streaming.NewElementsAreLowest | massa-db-worker/src/massa_db.rs:172-242 | new elements are current entries above the cursor with no gap and within the size limit; the next entry would exceed the limit or, beside others, the footprint budget; there are none exactly when nothing is left or the lowest entry left is oversize |
| Streaming.UpdatesCatchUp | massa-db-worker/src/massa_db.rs:107-170 | updates that are granted bring what a client holds from its change id to the current one |
| Streaming.NewElementsAdvance | massa-db-worker/src/massa_db.rs:172-242 | new elements extend a covered column up to the cursor that the client derives, and up to the one the server derives |
| Streaming.PartPreservesView | massa-db-worker/src/massa_db.rs:100-249 | step invariant: after one part the client holds the column at the change id of the part restricted to the keys its own cursor covers, and also to those the cursor of the server covers |
| Streaming.BuiltSectionsParse | massa-bootstrap/src/messages.rs:459-487 | a new-elements section that is built is within the announced length and parses back within the budget of the receiver exactly when the limit is at least 16 or the section is empty |
| Limits.WriteReachesClient | massa-db-worker/src/massa_db.rs:115-125 | after one more write an up-to-date client is brought up to date exactly when the write carries a later change id or spares what the client holds |
| Limits.RepeatedIdIsMissed | massa-db-worker/src/massa_db.rs:121-123 | a write that repeats the change id and adds a key is never sent to a client that had that change id |
| Limits.WriteKeepsAccounts | massa-db-worker/src/massa_db.rs:520-542 | a write, even one that repeats the change id, keeps the history accounting for all that changed since any earlier id |
| Limits.PartReachesCursor | massa-db-worker/src/massa_db.rs:100-249 | the step invariant with entries of any size: after any part the client holds the column up to its own cursor exactly when the lowest entry above the cursor fits in a part, and up to the cursor of the server also when the part has updates only |
| Limits.EmptyPartIsComplete | massa-db-worker/src/massa_db.rs:230-240 | an empty part, which ends the stream of a column, leaves the client complete exactly when the lowest entry left, if any, fits in a part |
| Limits.OversizeEntryIsLost | massa-db-worker/src/massa_db.rs:230-240 | a column whose one entry is oversize yields an empty part and a finished stream |
| Limits.OversizeEntryIsForgotten | massa-db-worker/src/massa_db.rs:230-240 | a part with updates only leaves the server at its cursor below an oversize entry while the client records the column as finished without it |
| Wire.DeserializeKvMap | massa-bootstrap/src/messages.rs:459-487 | the loop with its running footprint computes the section parse for values of any kind, errors included |
| Wire.SectionRoundTrip | massa-bootstrap/src/messages.rs:228-243 | a serialized section parses back to the same map exactly when its footprint is within the budget |
| Wire.EntriesParse | massa-bootstrap/src/messages.rs:459-487 | any entries, in any order and with keys that come again, parse to the map of their last values within the budget |
| Wire.TruncatedSectionRefused | massa-bootstrap/src/messages.rs:459-487 | a section that breaks off inside an entry is refused, whatever it starts with |
| Wire.U64VarintRoundTrip | massa-bootstrap/src/messages.rs:228-243 | varints of 64-bit numbers are read back whatever follows |
| Wire.VarintGroups | massa-serialization/src/lib.rs:181-250 | each byte of a varint holds its group of seven bits, lowest first, and all but the last have the top bit set |
| Wire.U64Exactly | massa-bootstrap/src/messages.rs:228-243 | a 64-bit number is read exactly where there is a varint that denotes it |
| Wire.U128VarintRoundTrip | massa-deferred-calls/src/lib.rs:75-78 | varints of 128-bit numbers are read back whatever follows |
| Wire.VecRoundTrip | massa-bootstrap/src/messages.rs:228-243 | length-prefixed vectors within the bound are read back whatever follows |
| Wire.VecExactly | massa-models/src/serialization.rs:281-310 | a byte vector is read exactly where there is one that is not too long |
| Wire.SlotExactly | massa-models/src/slot.rs:101-119 | a slot is read exactly where there is one with a thread in range |
| Codecs.SlotParses | massa-models/src/slot.rs:59-119 | an encoded slot is read back whatever follows, or refused exactly when its thread is out of range |
| Codecs.NameParses | massa-models/src/serialization.rs:515-582 | a string with a 16-bit length is read back whatever follows, or refused exactly when it is longer than the bound |
| Codecs.NameExactly | massa-models/src/serialization.rs:560-582 | a function name is read exactly where there is one that is not too long |
| Codecs.VecParses | massa-models/src/serialization.rs:256-310 | a byte vector is read back whatever follows, or refused exactly when it is longer than the bound |
| Codecs.AddressRoundTrip | massa-models/src/address.rs:471-650 | addresses are read back whatever follows |
| Codecs.AddressExactly | massa-models/src/address.rs:543-650 | an address is read exactly where there are its kind, its version and its hash |
| Streaming.BudgetSteps | massa-models/src/config/constants.rs:377-382 | under 16 bytes the budget does not cover one entry; from 16 on it covers a full section of one entry |
| Consensus.GetBootstrapPart | massa-consensus-worker/src/controller.rs:131-222 | the answer is an error exactly when the end slot is before the last genesis slot or the required blocks cannot be listed; otherwise distinct required blocks the client lacks that are active, final and not after the end slot, up to the part size, all of them if there is room, the outdated ids, and the next cursor |
| Consensus.PartKeepsAgreement | massa-consensus-worker/src/controller.rs:188-219 | one part keeps the ids of the client equal to the cursor without duplicates; when it finishes the cursor, the client holds every required sendable block and any other block is in the outdated set of that part |
| Consensus.CappedIdsAreNewest | massa-bootstrap/src/client.rs:934-960 | the ids of a capped ask are in the graph, as many as the cap allows, and every id left out is older than every id kept |
| Consensus.CappedStepClaimsNewest | massa-bootstrap/src/client.rs:918-960 | the capped cursor claims as many blocks of the graph as the cap allows, and every block left out has an earlier slot, or the same slot and a lower id, than every block claimed |
| Consensus.AlignKeepsNewest | massa-bootstrap/src/client.rs:878-916 | aligning such a cursor keeps exactly the claimed blocks: what it drops from the graph is older than what it keeps |
| Consensus.SortByAgeSorts | massa-bootstrap/src/client.rs:942-955 | sorting by slot and id yields a sorted permutation |
| Consensus.AlignedAskAgrees | massa-bootstrap/src/client.rs:878-931 | after capping and aligning, the ask claims exactly the ids of the pruned graph, within the cap, if and only if the cap is at least one or the graph is empty |
| Consensus.AlignIdempotent | massa-bootstrap/src/client.rs:878-916 | aligning twice changes nothing more |
| Consensus.KeepConcat | massa-bootstrap/src/client.rs:150-158 | retaining blocks goes through them in order and decides on each by its id |
| ClientState.GlobalBootstrapState.ReceivePart | massa-bootstrap/src/client.rs:113-176 | one received part: write, graph, next ask; a refused part changes nothing |
| ClientState.GlobalBootstrapState.RestartStateStreaming | massa-bootstrap/src/client.rs:289-314 | everything received so far is dropped and the next ask is the first one |
| ClientState.GlobalBootstrapState.AlignConsensusResumeStateBeforeAsk | massa-bootstrap/src/client.rs:878-916 | graph and claimed ids are pruned to each other in place |
| ClientState.Retain | massa-bootstrap/src/client.rs:150-158 | the retain loop keeps exactly the blocks whose id is to be kept, in order |
| Convergence.FinishedMeansEqual | massa-bootstrap/src/server.rs:488-692 | convergence over every run of writes, parts, reconnects and restarts: when a server sends BootstrapFinished, a client that reads what is in flight holds exactly its columns and digest, and never refuses a part if a reset puts it at or before the start of the log |
| Convergence.FinishedReaderFollows | massa-bootstrap/src/server.rs:664-675 | a bootstrapped node can serve others: when a server that has written nothing since its last part sends BootstrapFinished, the client that reads everything follows the log at the same change with empty histories |
| Convergence.RunKeepsInvariant | massa-bootstrap/src/server.rs:488-692 | every reachable state keeps the invariant that ties histories, cursors, messages in flight and client contents to the log |
| Convergence.NextOk | massa-bootstrap/src/server.rs:488-692 | each step (write, node restart, connect, disconnect, turn, delivery) keeps the invariant |
| Convergence.ClientAlwaysHoldsViews | massa-bootstrap/src/client.rs:113-182 | at any moment the client holds one change of each column restricted to its own cursor, and, once it has read what is in flight, to the cursor of the server, whose block ids it then has without duplicates |
| Convergence.DoneMeansComplete | massa-bootstrap/src/client.rs:183-200 | a client that completed holds both columns of one change of the log, with the digest of that state |
| Convergence.ConsensusCompletes | massa-consensus-worker/src/controller.rs:188-219 | over whole runs, the turn that finishes the block cursor leaves the client with every required sendable block, anything else being outdated by that turn |
| Convergence.BlocksAtFinish | massa-bootstrap/src/server.rs:626-675 | the blocks at BootstrapFinished, over whole runs: if an earlier turn of the session finished the block cursor, the reader holds required blocks of that turn and no others, all sendable ones among them, however far the server has moved since; if the last turn did, the reader also still holds exactly the blocks that turn found outdated |
| Convergence.FinishedStaysSettled | massa-bootstrap/src/server.rs:633-647 | once the block cursor of a session is finished, the blocks of the reader are those that the finishing turn left, through any writes, turns and deliveries |
| Convergence.AsksAreWellFormed | massa-bootstrap/src/client.rs:168-175 | every ask of a run is the first one or resumes from a change of the log at keys of its columns, and claims exactly the ids of the pruned graph, which are the newest blocks the client had, as many as the cap allows |
| Convergence.TurnFits | massa-bootstrap/src/server.rs:488-692 | what a turn sends keeps the client that reads it in step with the cursors the server keeps |
| Convergence.ServerWritesOk | massa-db-worker/src/massa_db.rs:406-560 | writes on any server during a session keep the invariant |
| Convergence.ServerRestartsOk | massa-db-worker/src/massa_db.rs:728-765 | a server that restarts with empty histories keeps the invariant |
| Convergence.DeliversOk | massa-bootstrap/src/client.rs:113-285 | reading a part, SlotTooOld or BootstrapFinished keeps the invariant |
| Convergence.ConnectsOk | massa-bootstrap/src/client.rs:76-112 | reconnecting, to the same or another server, resumes from the cursor of the client and keeps the invariant |
| Session.StreamBootstrapInformation | massa-bootstrap/src/server.rs:476-693 | without concurrent writes the loop ends; its messages are those of consecutive turns; it ends in BootstrapFinished exactly when the ask can be resumed and the required blocks listed, in SlotTooOld exactly when a history has lost the change of the ask |
| Session.ReadParts | massa-bootstrap/src/server.rs:496-624 | the locked part of a turn: both batches, both cursors, and the errors in their order |
| Session.TurnProgress | massa-bootstrap/src/server.rs:488-692 | each turn after which the server goes on catches up with the database, or leaves less of the columns, or the same of them and fewer blocks |
| Session.ColumnProgress | massa-bootstrap/src/server.rs:523-554 | with nothing written, a part of an unfinished column leaves fewer keys or finishes it, and a finished column is empty |
| Session.ConsensusProgress | massa-consensus-worker/src/controller.rs:188-219 | a part that does not finish the block cursor leaves fewer required blocks |
| Session.HealthyMeansReady | massa-db-worker/src/massa_db.rs:107-170 | a turn can read the database exactly when the ask is a first one or resumes from a change the histories still reach, and answers SlotTooOld exactly when a history has lost that change |
| Session.SessionOutcome | massa-bootstrap/src/server.rs:488-692 | a session ends in BootstrapFinished exactly when its ask is one the server can resume and the required blocks can be listed, and in SlotTooOld exactly when a history has lost the change it resumes from |
| Session.SessionCompletes | massa-bootstrap/src/server.rs:488-692 | a client that reads all that a successful session sent holds the columns and digest of the server |
| Recovery.CanAlwaysComplete | massa-bootstrap/src/client.rs:76-314 | from every state of every run in which the client is not done, any server can bring it to the last change of the log: it can be caught up with, resumed from or told to start over, and the session ends; provided the server can list its required blocks there and a reset puts the client at or before the start of the log |
| Recovery.SessionFinishes | massa-bootstrap/src/server.rs:488-692 | a session that can be resumed on a server at the end of the log is completed turn by turn and delivery by delivery |
| Recovery.TooOldCompletes | massa-bootstrap/src/client.rs:289-314 | a client told that its change is too old starts over and completes |
| Recovery.SomeRunFinishes | massa-bootstrap/src/server.rs:488-692 | there is a run in which a server that started empty writes an entry, sends BootstrapFinished, and the client ends up with that entry |
| AskWire.AskParses | massa-bootstrap/src/messages.rs:878-898 | the server reads an ask that resumes as it was written if its thread, keys and number of block ids are within the limits and nothing otherwise, and any other ask as the first one |
| AskWire.EveryAskSurvives | massa-bootstrap/src/messages.rs:1005-1053 | over every run, every ask the client sends is within the limits and is read back unchanged |
| AskWire.StepParses | massa-models/src/streaming_step.rs:57-138 | a streaming step is read back, or refused, as the data it carries is |
| AskWire.IdSetParses | massa-bootstrap/src/messages.rs:1005-1053 | a set of block ids is read back in whatever order it was iterated over, or refused exactly when it is over the bound |
| EventKeys.BytesInjective | massa-event-cache/src/event_cache.rs:78-112 | no two keys of the cache share their bytes |
| EventKeys.EventOrder | massa-event-cache/src/event_cache.rs:89-92 | event keys sort by slot, then by index |
| EventKeys.SlotBound | massa-event-cache/src/event_cache.rs:86-88 | a slot bound separates exactly the events of earlier slots |
| EventKeys.PrefixScan | massa-event-cache/src/event_cache.rs:200-226 | a scan over the prefix of an attribute meets exactly its index entries |
| EventIndex.InsertConsistent | massa-event-cache/src/event_cache.rs:350-422 | inserting a fresh event keeps every index the projection of the events and every counter the number of events with its attribute, with nothing else in the database |
| EventIndex.RemoveConsistent | massa-event-cache/src/event_cache.rs:794-849 | removing an event does too, except for counters of its attributes left at zero |
| EventIndex.SweepConsistent | massa-event-cache/src/event_cache.rs:856-866 | deleting the zero counters restores consistency: none is left |
| EventIndex.MergeSaturates | massa-event-cache/src/rocksdb_operator.rs:3-21 | merging a counter adds, and stops at zero and at the largest 64-bit number |
| EventCache.InsertBatchConsistent | massa-event-cache/src/event_cache.rs:443-464 | one batch of fresh events keeps consistency |
| EventCache.EventCache.InsertIntoBatch | massa-event-cache/src/event_cache.rs:350-422 | the operations of one event are appended in order and the last slot moves forward |
| EventCache.EventCache.Insert | massa-event-cache/src/event_cache.rs:426-440 | the oldest events are evicted if the cache is full, then the event is added; the cache stays within its maximum exactly when it was not full, or evicts at least one event; the last slot is the later of the old one and that of the event |
| EventCache.EventCache.InsertMulti | massa-event-cache/src/event_cache.rs:443-464 | as many of the oldest events as needed are evicted, then the batch is added; the cache stays within its maximum exactly when the batch does |
| EventCache.EventCache.CollectOldest | massa-event-cache/src/event_cache.rs:768-850 | walking the database from its first key, the batch removes exactly the oldest events |
| EventCache.EventCache.SweepCounters | massa-event-cache/src/event_cache.rs:856-866 | counters at zero are deleted |
| EventCache.EventCache.Snip | massa-event-cache/src/event_cache.rs:767-889 | exactly the smallest events by slot and index go, the entry count follows, consistency is kept, and the first slot is that of the earliest event left |
| EventQuery.PlanMeans | massa-event-cache/src/controller.rs:57-104 | with a start whenever there is an end, a final event passes the plain filter exactly when every scan of the plan finds it |
| EventQuery.ScanFinds | massa-event-cache/src/event_cache.rs:562-687 | a scan visits exactly the events it is meant to find; with only an end it visits none |
| EventQuery.EndOnlyFindsNothing | massa-event-cache/src/event_cache.rs:581-588 | a scan with only an end starts at a counter and stops there |
| EventQuery.NothingToAdd | massa-event-cache/src/event_cache.rs:614-628 | the early stop loses nothing |
| EventQuery.ListingIsFirst | massa-event-cache/src/event_cache.rs:525-529 | a listing is sorted, holds only asked events, as many as the maximum allows, and leaves out only later ones |
| EventCache.EventCache.FilterFor | massa-event-cache/src/event_cache.rs:562-687 | a scan, intersected with what earlier scans left, selects exactly the events it finds among them |
| EventCache.EventCache.EstimateCounts | massa-event-cache/src/event_cache.rs:690-764 | the estimate for an attribute is the number of stored events that have it |
| EventCache.EventCache.EstimateOfRange | massa-event-cache/src/event_cache.rs:690-722 | the estimate for a range is its number of slots times the events of one slot, saturated; an open end stands for the last or the first slot of the cache |
| EventCache.EventCache.EstimateOverflows | massa-models/src/slot.rs:314-327 | a range with more slots than 64 bits count is estimated as empty |
| EventCache.EventCache.Cheapest | massa-event-cache/src/event_cache.rs:491-504 | the scan with the lowest estimate, then the lowest index number, comes next |
| EventCache.EventCache.Intersect | massa-event-cache/src/event_cache.rs:507-521 | whatever the estimates, the scans together find exactly the events that each of them finds |
| EventCache.EventCache.GetFilteredEvents | massa-event-cache/src/event_cache.rs:467-560 | a query returns the first events that the plain filter accepts, in order, exactly when it has a start with its end, or there is nothing to return |
| DeferredCalls.BytesInjective | massa-deferred-calls/src/macros.rs:18-66 | no two entries of the registry share a key |
| DeferredCalls.CallScan | massa-deferred-calls/src/macros.rs:54-66 | a scan over one call meets exactly its fields |
| DeferredCalls.SlotScan | massa-deferred-calls/src/macros.rs:42-50 | a scan over the calls of a slot meets exactly their fields |
| KeyLayout.SlotKeyOf | massa-models/src/slot.rs:237-259 | any nine bytes are the key of the slot they are decoded to |
| DeferredCalls.CallRoundTrip | massa-deferred-calls/src/call.rs:135-153 | a serialized call parses back exactly when it is within the limits |
| DeferredCalls.CallExactly | massa-deferred-calls/src/call.rs:197-262 | bytes parse to a call exactly when they start with its nine fields in order and it is within the limits |
| DeferredCalls.CallReadsBack | massa-deferred-calls/src/lib.rs:118-142 | the fields that a scan concatenates parse to the call, or to nothing if it is not there or over the limits |
| DeferredCalls.WriteCommutes | massa-deferred-calls/src/lib.rs:341-405 | writing the batch of a change set takes the database from the view of any slot to the view with the changes applied in memory, zero values and tombstones included |
| DeferredCalls.ReadCallAfterWrite | massa-deferred-calls/src/lib.rs:118-142 | a call read after the batch of a change set is written is what the set books for it if that is within the limits, nothing if it is over them or deleted, and what was read before if it is not changed |
| DeferredCalls.ReadAmountAfterWrite | massa-deferred-calls/src/lib.rs:145-177 | the gas or base fee read after the write is the one set, zero included, or the one read before |
| DeferredCalls.StorageCommutes | massa-deferred-calls/src/lib.rs:83-142 | for a whole slot: reading, then applying the change set in memory, gives what writing it and reading gives, exactly when every call the set books is within the limits of the reader |
| DeferredCalls.TotalGasRoundTrip | massa-models/src/types.rs:300-348 | a total gas stored as a change that sets it is read back |
| DeferredCalls.ReadTotalGasAfterWrite | massa-deferred-calls/src/lib.rs:180-201 | the total gas read after the write is the one set, or the one read before |
| DeferredRegistry.RegistryCommutes | massa-deferred-calls/src/lib.rs:341-420 | building a change set by any setter calls, writing it and reading a slot back gives what doing the calls one by one on the slot as read before gives, exactly when every call that ends up booked is within the limits |
| DeferredRegistry.RegistryAlwaysReads | massa-deferred-calls/src/lib.rs:83-142 | in every database reached by writing change sets, a slot reads as what all setter calls so far have booked for it, exactly when each booked call is within the limits |
| DeferredRegistry.RegistryHolds | massa-deferred-calls/src/lib.rs:341-420 | every such database holds exactly the fields, gas and base fee that the setter calls have booked |
| DeferredRegistry.BuiltPerforms | massa-deferred-calls/src/registry_changes.rs:32-77 | applying a change set to a slot does what its setter calls do one by one, tombstones and later bookings included |
| DeferredRegistry.TotalGasCommutes | massa-deferred-calls/src/registry_changes.rs:85-94 | the total gas read after the write is the last one that the setter calls set, or the one before |
| DeferredRegistry.TotalAlwaysReads | massa-deferred-calls/src/lib.rs:180-201 | in every database reached by writing change sets the total gas reads as the last one set, or zero |
| DeferredRegistry.ApplyChangesToBatch | massa-deferred-calls/src/lib.rs:341-420 | the loops over slots and calls and the total gas put in the batch exactly what the change set calls for |
| DeferredRegistry.ApplySlotChanges | massa-deferred-calls/src/lib.rs:349-404 | the calls of a slot, then its gas and base fee, zero values as deletions |
| DeferredRegistry.PutEntry | massa-deferred-calls/src/lib.rs:203-318 | all nine fields of the call are put, other keys are left alone |
| DeferredRegistry.DeleteEntry | massa-deferred-calls/src/lib.rs:320-339 | all nine fields of the call are deleted, other keys are left alone |
| DeferredRegistry.DeferredCallRegistry.GetCall | massa-deferred-calls/src/lib.rs:118-142 | whatever the database holds, the scan loop reads the values under the prefix of the call in key order and parses them |
| DeferredRegistry.DeferredCallRegistry.GetAmount | massa-deferred-calls/src/lib.rs:145-177 | the stored gas or base fee, zero without an entry, a panic on a value that does not parse |
| DeferredRegistry.DeferredCallRegistry.GetTotalGas | massa-deferred-calls/src/lib.rs:180-201 | the stored total, zero without an entry, a panic on a value that does not parse |
| DeferredRegistry.DeferredCallRegistry.GetSlotCalls | massa-deferred-calls/src/lib.rs:83-115 | the scan over the keys of a slot, with ids met before skipped, returns for every id what reading that call gives, and the gas and base fee |
| DeferredRegistry.DeferredSlotCalls.ApplyChanges | massa-deferred-calls/src/lib.rs:604-626 | the view of the slot with its changes applied, tombstones included; changes of other slots are ignored |
| DeferredRegistry.DeferredCallRegistryChanges.SetCall | massa-deferred-calls/src/registry_changes.rs:40-58 | the call becomes the change of its id at its target slot, over an earlier one; what every getter returns for other ids and slots stays; the object remains what its setter calls build |
| DeferredRegistry.DeferredCallRegistryChanges.DeleteCall | massa-deferred-calls/src/registry_changes.rs:33-58 | a tombstone becomes the change of the id, whether or not the call was set; what every other getter returns stays |
| DeferredRegistry.DeferredCallRegistryChanges.SetEffectiveSlotGas | massa-deferred-calls/src/registry_changes.rs:60-70 | the gas of the slot is set; its calls and base fee, other slots and the total stay |
| DeferredRegistry.DeferredCallRegistryChanges.SetSlotBaseFee | massa-deferred-calls/src/registry_changes.rs:72-83 | the base fee of the slot is set; its calls and gas, other slots and the total stay |
| DeferredRegistry.DeferredCallRegistryChanges.SetEffectiveTotalGas | massa-deferred-calls/src/registry_changes.rs:85-94 | the total gas is set; the changes of the slots stay |
| DeferredValidation.WrittenIsValid | massa-deferred-calls/src/lib.rs:445-565 | an entry that a change set writes is accepted by the validator, except for exactly the fields over the limits, which are refused |
| DeferredValidation.BatchIsValid | massa-deferred-calls/src/lib.rs:445-565 | with every call within the limits each entry of the batch is accepted, the total gas included |
| DeferredValidation.PanicsOnShortKeys | massa-serialization/src/lib.rs:497-502 | the validator panics on exactly the keys under its prefix that are shorter than 24 bytes |
| DeferredValidation.AcceptsExactly | massa-deferred-calls/src/lib.rs:445-565 | the validator accepts exactly the total gas, gas and base fees under a slot, and keys made of a slot, a length-prefixed id and one of the nine tags, each with a value that starts with an encoding within the limits |
| DeferredValidation.UnknownTagRefused | massa-deferred-calls/src/lib.rs:473-478 | a key with an unknown byte after its slot is refused |
| AsyncPool.WriteKeepsPool | massa-async-pool/src/pool.rs:288-310 | writing the batch of a change set leaves exactly the messages the cache has after it, if and only if updates are about messages in the pool |
| AsyncPool.CacheAgrees | massa-async-pool/src/pool.rs:233-310 | one change set whose updates are about messages in the pool: the database holds the messages of the cache, which are what it is rebuilt to exactly when all are within the limits |
| AsyncPool.PoolAlwaysHolds | massa-async-pool/src/pool.rs:288-310 | after any sequence of change sets the database holds exactly the fields of the messages in the cache |
| AsyncPool.KeyAfter | massa-async-pool/src/pool.rs:817-1011 | field by field, what a write leaves is the encoding of the message after put, update or delete in memory |
| AsyncPool.CacheAlwaysAgrees | massa-async-pool/src/pool.rs:233-310 | after any sequence of change sets, rebuilding the cache from the database gives the cache exactly when every message in it is within the limits of the deserializer, and the database passes validation exactly when every message is acceptable |
| AsyncPool.AsyncPool.ApplyChangesToBatch | massa-async-pool/src/pool.rs:288-310 | batch and cache are updated change by change; an update of a message that is not there leaves the cache alone |
| AsyncPool.EntryToBatch | massa-async-pool/src/pool.rs:655-1033 | put, update and delete change exactly the fields they are about, to their encodings, and leave every other key of the batch alone |
| AsyncPool.AsyncPool.RecomputeMessageCache | massa-async-pool/src/pool.rs:233-271 | the jumping scan ends; it panics exactly when an id has a thread out of range, and otherwise visits every message once and rebuilds what loading each id gives |
| AsyncPool.AsyncPool.LoadMessage | massa-async-pool/src/pool.rs:314-340 | whatever the database holds, the scan loop reads the values under the prefix of the id in key order and parses them |
| AsyncPool.MessageReadsBack | massa-async-pool/src/pool.rs:314-340 | a stored message loads as what it is exactly when it is within the limits; any other id loads as nothing |
| AsyncPool.PoolIsValid | massa-async-pool/src/pool.rs:357-542 | the entries of the pool all pass the validator exactly when ids and slots have threads in range, parameters and trigger keys are within the limits and function names are shorter than 128 bytes |
| AsyncPool.AcceptsExactly | massa-async-pool/src/pool.rs:357-542 | the validator accepts exactly keys made of the prefix, an id with a thread in range and one of the thirteen tags, with a value that is an encoding of that field within the limits and nothing more, or for a function name a byte and as many more |
| AsyncPool.IdParses | massa-models/src/async_msg_id.rs:94-191 | an encoded message id is read back whatever follows, or refused exactly when its thread is out of range |
| AsyncPool.IdExactly | massa-models/src/async_msg_id.rs:168-191 | a message id is read exactly where there are its four numbers and a thread in range, and its denominator is not zero |
| AsyncMessages.MessageRoundTrip | massa-models/src/async_msg.rs:314-519 | a serialized message parses back exactly when its threads are in range and its function name, parameters and trigger key are within the limits |
| AsyncMessages.MessageExactly | massa-models/src/async_msg.rs:435-519 | bytes parse to a message exactly when they start with its thirteen fields in order and it is within the limits |
| AsyncMessages.TriggerFieldParses | massa-models/src/async_msg.rs:61-115 | an optional trigger with an optional key is read back whatever follows, or refused exactly when the key is too long |
| AsyncMessages.UpdateCommutes | massa-models/src/async_msg.rs:824-841 | encoding an updated message is replacing the encodings of the fields that the update sets |
| AsyncMessages.FieldAccepted | massa-async-pool/src/pool.rs:372-539 | the validator accepts the encoding of a field exactly when the field is within the limits, or for a function name exactly when it is shorter than 128 bytes |
| AsyncMessages.FieldValidExactly | massa-async-pool/src/pool.rs:372-539 | which values the validator accepts for each field |
| AsyncMessages.LongNameRefused | massa-async-pool/src/pool.rs:427-439 | a message that loads within the limits of the network has a function name that the validator refuses |
| AsyncPool.BlocksInOrder | massa-async-pool/src/pool.rs:237-273 | the keys of a message are contiguous among those of other messages |
| AsyncPool.Jump | massa-async-pool/src/pool.rs:241-271 | a jump lands on the next message, skips none and leaves fewer keys |
| Admission.BootstrapServer.Attempt | massa-bootstrap/src/server.rs:270-371 | an attempt is refused as greedy exactly when a place is free, the address is allowed, its last attempt is within the interval and the history is not cleared, which happens exactly when both it and its entries within the interval are over the limit; over whole runs sessions stay within the maximum, the history within its limit plus one, and attempts of one address admitted with no clearing between them are more than the interval apart |
| Admission.BootstrapServer.PruneHistory | massa-bootstrap/src/server.rs:299-308 | a history over its limit keeps exactly the entries within the interval, or none exactly when those are still over the limit |
| Admission.BootstrapServer.RetainRecent | massa-bootstrap/src/server.rs:301-302 | the retain loop keeps exactly the entries within the interval |
| Admission.BootstrapServer.GreedyClientCheck | massa-bootstrap/src/server.rs:381-401 | an attempt within the interval is refused and does not renew the entry; any other is recorded |
| Admission.BootstrapServer.SessionEnds | massa-bootstrap/src/server.rs:413-473 | an ended session frees its place |
| Admission.AdmitKeepsApart | massa-bootstrap/src/server.rs:381-401 | admitting an address that is unknown or expired keeps attempts apart |

## Left out

- RocksDB, column-family handles, write-batch locking, checkpoints, backups and metrics: foreign storage and bookkeeping.
- Sockets, handshake, timeouts, rate limits, deadlines and threads: a turn either sends its message or the connection is gone.
- Restart metadata and MIP store checks of the client: they rest on crates outside the modelled files; a refused completion is one of the outcomes of `Bootstrap.Delivers`.
- The updates section, blocks and peers of server messages on the wire: only the new-elements section and the ask are encoded.
- Varints that do not fit their width: decoding is a foreign crate; the model bounds the length of an encoding and drops excess bits.
- The execution statistics of a change set of deferred calls: they only feed metrics.
- UTF-8 validity of function names: names are byte strings.
- Composition of change sets of asynchronous messages, and the selection of messages to execute: defined elsewhere.
- The other resets of the final state: `MassaDb.RawMassaDb.ResetContents` models the change id, the histories and the two prefix deletions, which empty both columns on their own.
- Handoff between the event queue and its writer thread, and the merge of its events with those of a query: the writer is not part of this model.
- Consensus graph internals: the required ids and the block statuses are inputs of each turn.
- White and black lists: whether an address is allowed is an input of an attempt.
- MassaDb.RawMassaDb.DeleteByPrefix: requires a change id that does not go backwards, because the source panics on one that does.
