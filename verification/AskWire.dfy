/**
The client's ask on the wire. Only an ask that resumes is written out in full; a first ask is an
empty body that the server reads back as the default one.
 */
module AskWire {
  import opened ByteStrings
  import opened Columns
  import opened Slots
  import opened Wire
  import opened Codecs
  import opened DbModel
  import opened Streaming
  import opened Consensus
  import opened Bootstrap
  import opened Convergence

  const ASK_FINAL_STATE_PART := 1

  /** What the receiver is configured with. */
  datatype AskLimits = AskLimits(threadCount: nat, maxKey: nat, maxBlockIds: nat)

  // ---------------------------------------------------------------- block ids

  function BlockIdBytes(id: BlockId): seq<Byte> {
    Varint(0) + id
  }

  function ParseBlockId(input: seq<Byte>): (r: Parsed<BlockId>) {
    match ParseU64(input)
    case None => None
    case Some((version, rest)) =>
      if version != 0 || |rest| < BLOCK_ID_LEN then None else Some((rest[..BLOCK_ID_LEN], rest[BLOCK_ID_LEN..]))
  }

  lemma BlockIdRoundTrip(id: BlockId, tail: seq<Byte>)
    ensures ParseBlockId(BlockIdBytes(id) + tail) == Some((id, tail))
  {
    U64VarintRoundTrip(0, id + tail);
    assert BlockIdBytes(id) + tail == Varint(0) + (id + tail);
    assert (id + tail)[..BLOCK_ID_LEN] == id && (id + tail)[BLOCK_ID_LEN..] == tail;
  }

  // ---------------------------------------------------------------- sets of block ids

  function IdsBytes(ids: seq<BlockId>): seq<Byte> {
    if ids == [] then [] else BlockIdBytes(ids[0]) + IdsBytes(ids[1..])
  }

  function ParseIds(input: seq<Byte>, count: nat): (r: Parsed<set<BlockId>>)
    decreases count
  {
    if count == 0 then Some(({}, input))
    else
      match ParseBlockId(input)
      case None => None
      case Some((id, rest)) =>
        match ParseIds(rest, count - 1)
        case None => None
        case Some((ids, rest')) => Some(({id} + ids, rest'))
  }

  function SetOf(ids: seq<BlockId>): set<BlockId> {
    set id | id in ids
  }

  lemma {:induction false} IdsRoundTrip(ids: seq<BlockId>, tail: seq<Byte>)
    ensures ParseIds(IdsBytes(ids) + tail, |ids|) == Some((SetOf(ids), tail))
  {
    if ids == [] {
      assert IdsBytes(ids) + tail == tail && SetOf(ids) == {};
    } else {
      assert IdsBytes(ids) + tail == BlockIdBytes(ids[0]) + (IdsBytes(ids[1..]) + tail);
      BlockIdRoundTrip(ids[0], IdsBytes(ids[1..]) + tail);
      IdsRoundTrip(ids[1..], tail);
      assert ids == [ids[0]] + ids[1..];
      assert SetOf(ids) == {ids[0]} + SetOf(ids[1..]);
    }
  }

  /** The order in which the hash set is iterated over. */
  type IdOrder = set<BlockId> -> seq<BlockId>

  ghost predicate Enumerates(order: IdOrder) {
    forall ids :: SetOf(order(ids)) == ids && |order(ids)| == |ids|
  }

  function IdSetBytes(order: IdOrder, ids: set<BlockId>): seq<Byte> {
    Varint(|ids|) + IdsBytes(order(ids))
  }

  function ParseIdSet(input: seq<Byte>, maxIds: nat): (r: Parsed<set<BlockId>>) {
    match ParseU64(input)
    case None => None
    case Some((count, rest)) => if count > maxIds then None else ParseIds(rest, count)
  }

  /** A set of block ids is read back in whatever order it was listed, or refused if it is over the cap. */
  lemma IdSetParses(order: IdOrder, ids: set<BlockId>, maxIds: nat, tail: seq<Byte>)
    requires Enumerates(order) && |ids| < U64_LIMIT
    ensures ParseIdSet(IdSetBytes(order, ids) + tail, maxIds) == if |ids| <= maxIds then Some((ids, tail)) else None
  {
    hide Varint, ParseU64, IdsBytes, ParseIds;
    var listed := order(ids);
    assert SetOf(listed) == ids;
    U64VarintRoundTrip(|ids|, IdsBytes(listed) + tail);
    assert IdSetBytes(order, ids) + tail == Varint(|ids|) + (IdsBytes(listed) + tail);
    IdsRoundTrip(listed, tail);
  }

  // ---------------------------------------------------------------- streaming steps

  function StepBytes<T>(step: StreamingStep<T>, encode: T -> seq<Byte>): seq<Byte> {
    match step
    case Started => Varint(0)
    case Ongoing(data) => Varint(1) + encode(data)
    case Finished(last) => Varint(2) + OptionBytes(last, encode)
  }

  function ParseStep<T>(input: seq<Byte>, parse: seq<Byte> -> Parsed<T>): (r: Parsed<StreamingStep<T>>) {
    match ParseU64(input)
    case None => None
    case Some((ident, rest)) =>
      if ident == 0 then Some((Started, rest))
      else if ident == 1 then
        match parse(rest)
        case None => None
        case Some((data, rest')) => Some((Ongoing(data), rest'))
      else if ident != 2 then None
      else
        match ParseOption(rest, parse)
        case None => None
        case Some((last, rest')) => Some((Finished(last), rest'))
  }

  /** The data a step carries, if any. */
  function Carried<T>(step: StreamingStep<T>): Option<T> {
    match step
    case Started => None
    case Ongoing(data) => Some(data)
    case Finished(last) => last
  }

  /** A step is read back, or refused, as the data it carries is. */
  lemma StepParses<T>(
    step: StreamingStep<T>, encode: T -> seq<Byte>, parse: seq<Byte> -> Parsed<T>, accepted: bool, tail: seq<Byte>)
    requires Carried(step).Some? ==>
               var data := Carried(step).value;
               parse(encode(data) + tail) == if accepted then Some((data, tail)) else None
    ensures ParseStep(StepBytes(step, encode) + tail, parse)
         == if Carried(step).None? || accepted then Some((step, tail)) else None
  {
    hide Varint, ParseU64, OptionBytes, ParseOption;
    match step
    case Started =>
      U64VarintRoundTrip(0, tail);
    case Ongoing(data) =>
      U64VarintRoundTrip(1, encode(data) + tail);
      assert StepBytes(step, encode) + tail == Varint(1) + (encode(data) + tail);
    case Finished(last) =>
      U64VarintRoundTrip(2, OptionBytes(last, encode) + tail);
      assert StepBytes(step, encode) + tail == Varint(2) + (OptionBytes(last, encode) + tail);
      OptionParses(last, encode, parse, tail);
  }

  function KeyStepBytes(step: ColumnStep): seq<Byte> {
    StepBytes(step, (k: Key) => VecBytes(k))
  }

  function ParseKeyStep(input: seq<Byte>, maxKey: nat): (r: Parsed<ColumnStep>) {
    ParseStep(input, (rest: seq<Byte>) => ParseVec(rest, maxKey))
  }

  predicate KeyStepWithin(step: ColumnStep, maxKey: nat) {
    Carried(step).Some? ==> |Carried(step).value| <= maxKey
  }

  lemma KeyStepParses(step: ColumnStep, maxKey: nat, tail: seq<Byte>)
    requires KeyStepWithin(step, U64_LIMIT - 1)
    ensures ParseKeyStep(KeyStepBytes(step) + tail, maxKey)
         == if KeyStepWithin(step, maxKey) then Some((step, tail)) else None
  {
    if Carried(step).Some? {
      VecParses(Carried(step).value, maxKey, tail);
    }
    StepParses(step, (k: Key) => VecBytes(k), (rest: seq<Byte>) => ParseVec(rest, maxKey),
               KeyStepWithin(step, maxKey), tail);
  }

  function IdStepBytes(order: IdOrder, step: ConsensusStep): seq<Byte> {
    StepBytes(step, (ids: set<BlockId>) => IdSetBytes(order, ids))
  }

  function ParseIdStep(input: seq<Byte>, maxIds: nat): (r: Parsed<ConsensusStep>) {
    ParseStep(input, (rest: seq<Byte>) => ParseIdSet(rest, maxIds))
  }

  predicate IdStepWithin(step: ConsensusStep, maxIds: nat) {
    Carried(step).Some? ==> |Carried(step).value| <= maxIds
  }

  lemma IdStepParses(order: IdOrder, step: ConsensusStep, maxIds: nat, tail: seq<Byte>)
    requires Enumerates(order) && IdStepWithin(step, U64_LIMIT - 1)
    ensures ParseIdStep(IdStepBytes(order, step) + tail, maxIds)
         == if IdStepWithin(step, maxIds) then Some((step, tail)) else None
  {
    if Carried(step).Some? {
      IdSetParses(order, Carried(step).value, maxIds, tail);
    }
    StepParses(step, (ids: set<BlockId>) => IdSetBytes(order, ids), (rest: seq<Byte>) => ParseIdSet(rest, maxIds),
               IdStepWithin(step, maxIds), tail);
  }

  // ---------------------------------------------------------------- the ask

  /** What follows the slot of an ask that resumes. */
  function ResumeBytes(order: IdOrder, ask: Ask): seq<Byte> {
    KeyStepBytes(ask.stateStep)
    + (KeyStepBytes(ask.versioningStep) + (IdStepBytes(order, ask.consensusStep) + BoolBytes(ask.sendLastStartPeriod)))
  }

  function AskBytes(order: IdOrder, ask: Ask): seq<Byte>
    requires ask.lastSlot.Some? ==> ask.lastSlot.value.thread < 256
  {
    Varint(ASK_FINAL_STATE_PART)
    + if ask.lastSlot.Some? then SlotBytes(ask.lastSlot.value) + ResumeBytes(order, ask) else []
  }

  function ParseResume(slot: Slot, input: seq<Byte>, limits: AskLimits): (r: Parsed<Ask>) {
    match ParseKeyStep(input, limits.maxKey)
    case None => None
    case Some((stateStep, afterState)) =>
      match ParseKeyStep(afterState, limits.maxKey)
      case None => None
      case Some((versioningStep, afterVersioning)) =>
        match ParseIdStep(afterVersioning, limits.maxBlockIds)
        case None => None
        case Some((consensusStep, rest)) =>
          match ParseBool(rest)
          case None => None
          case Some((flag, rest')) => Some((Ask(Some(slot), stateStep, versioningStep, consensusStep, flag), rest'))
  }

  function ParseAsk(input: seq<Byte>, limits: AskLimits): (r: Parsed<Ask>) {
    match ParseU64(input)
    case None => None
    case Some((ident, rest)) =>
      if ident != ASK_FINAL_STATE_PART then None
      else if rest == [] then Some((FIRST_ASK, rest))
      else
        match ParseSlot(rest, limits.threadCount)
        case None => None
        case Some((slot, rest')) => ParseResume(slot, rest', limits)
  }

  /** The ask is made of numbers and lengths of 64 bits, as any ask that exists in memory is. */
  predicate Encodable(ask: Ask) {
    && (ask.lastSlot.Some? ==> ask.lastSlot.value.period < U64_LIMIT && ask.lastSlot.value.thread < 256)
    && KeyStepWithin(ask.stateStep, U64_LIMIT - 1) && KeyStepWithin(ask.versioningStep, U64_LIMIT - 1)
    && IdStepWithin(ask.consensusStep, U64_LIMIT - 1)
  }

  predicate StepsWithin(ask: Ask, limits: AskLimits) {
    && KeyStepWithin(ask.stateStep, limits.maxKey) && KeyStepWithin(ask.versioningStep, limits.maxKey)
    && IdStepWithin(ask.consensusStep, limits.maxBlockIds)
  }

  predicate WithinLimits(ask: Ask, limits: AskLimits) {
    (ask.lastSlot.Some? ==> ask.lastSlot.value.thread < limits.threadCount) && StepsWithin(ask, limits)
  }

  lemma ResumeParses(order: IdOrder, ask: Ask, limits: AskLimits)
    requires Enumerates(order) && Encodable(ask) && ask.lastSlot.Some?
    ensures ParseResume(ask.lastSlot.value, ResumeBytes(order, ask), limits)
         == if StepsWithin(ask, limits) then Some((ask, [])) else None
  {
    hide KeyStepBytes, ParseKeyStep, IdStepBytes, ParseIdStep, BoolBytes, ParseBool, KeyStepWithin, IdStepWithin;
    var flag := BoolBytes(ask.sendLastStartPeriod);
    var ids := IdStepBytes(order, ask.consensusStep) + flag;
    KeyStepParses(ask.stateStep, limits.maxKey, KeyStepBytes(ask.versioningStep) + ids);
    KeyStepParses(ask.versioningStep, limits.maxKey, ids);
    IdStepParses(order, ask.consensusStep, limits.maxBlockIds, flag);
    assert flag + [] == flag;
    BoolRoundTrip(ask.sendLastStartPeriod, []);
  }

  /**
   What the server reads: an ask that resumes as it was written if it is within the limits and nothing
   otherwise, and any other ask as the first one.
   */
  lemma AskParses(order: IdOrder, ask: Ask, limits: AskLimits)
    requires Enumerates(order) && Encodable(ask) && limits.threadCount <= 256
    ensures ParseAsk(AskBytes(order, ask), limits)
         == if ask.lastSlot.None? then Some((FIRST_ASK, []))
            else if WithinLimits(ask, limits) then Some((ask, [])) else None
  {
    hide Varint, ParseU64, ParseSlot, SlotBytes, ResumeBytes, ParseResume, StepsWithin;
    if ask.lastSlot.Some? {
      var slot, resume := ask.lastSlot.value, ResumeBytes(order, ask);
      U64VarintRoundTrip(ASK_FINAL_STATE_PART, SlotBytes(slot) + resume);
      SlotNotEmpty(slot);
      SlotParses(slot, limits.threadCount, resume);
      ResumeParses(order, ask, limits);
    } else {
      U64VarintRoundTrip(ASK_FINAL_STATE_PART, []);
    }
  }

  // ---------------------------------------------------------------- over whole runs

  ghost predicate ColumnWithinLimits(col: Column, maxKey: nat) {
    forall k :: k in col ==> |k| <= maxKey
  }

  /** Every change id and key of the log is one that the receiver accepts. */
  ghost predicate LogWithinLimits(log: Log, limits: AskLimits) {
    && limits.threadCount <= 256 && limits.maxKey < U64_LIMIT && limits.maxBlockIds < U64_LIMIT
    && forall c: nat :: c <= |log.writes| ==>
         && IdAt(log, c).period < U64_LIMIT && IdAt(log, c).thread < limits.threadCount
         && ColumnWithinLimits(Snap(log, StateCf, c), limits.maxKey)
         && ColumnWithinLimits(Snap(log, VersioningCf, c), limits.maxKey)
  }

  /** In every run, every ask the client sends is read back by the server as it was meant. */
  lemma EveryAskSurvives(w: World, run: seq<System>, i: nat, order: IdOrder, limits: AskLimits)
    requires Configured(w) && IsRun(w, run) && i < |run|
    requires Enumerates(order) && LogWithinLimits(w.log, limits)
    requires w.client.maxConsensusBlockIds <= limits.maxBlockIds
    ensures var ask := Align(run[i].client).ask;
            && WithinLimits(ask, limits)
            && ParseAsk(AskBytes(order, ask), limits) == Some((ask, []))
  {
    hide ParseAsk, AskBytes, IsRun, Configured, Snap, NewestOf;
    AsksAreWellFormed(w, run, i);
    var ask := Align(run[i].client).ask;
    NotFinishedCarries(ask.consensusStep);
    assert WithinLimits(ask, limits) && Encodable(ask);
    AskParses(order, ask, limits);
  }

  lemma NotFinishedCarries(step: ConsensusStep)
    requires !step.Finished?
    ensures Carried(step).Some? ==> Carried(step).value == Sent(step)
  {
  }
}
