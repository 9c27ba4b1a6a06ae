/** The audit module as a state machine: an append-only log with three indexes. */
module AuditState {
  import opened Machine
  import opened Store

  datatype AuditLog = AuditLog(
    id: uint64, eventType: Bytes, actor: Bytes, target: Bytes, action: Bytes, data: Bytes,
    blockHeight: int64, timestamp: int64, txHash: Bytes)

  datatype Params = Params(
    largeTransferThreshold: uint64, retentionBlocks: int64, allowedAuditors: seq<Bytes>,
    maxDataSize: uint32, permissionless: bool, maxAudits: uint32)

  datatype GenesisState = GenesisState(params: Params, logs: seq<AuditLog>, counter: uint64)

  /** The block, and the hash of the transaction when its bytes are known. */
  datatype Block = Block(height: int64, time: int64, txHash: Bytes)

  datatype State = State(
    params: Option<Params>,
    sequence: uint64,
    logs: map<uint64, AuditLog>,
    byActor: set<(Bytes, uint64)>,
    byEventType: set<(Bytes, uint64)>,
    byTime: set<(uint64, uint64)>,
    counts: map<Bytes, uint32>)

  datatype Msg =
    | RecordAudit(creator: Bytes, eventType: Bytes, target: Bytes, action: Bytes, data: Bytes)
    | UpdateParams(authority: Bytes, params: Params)

  datatype Event = NewBlock | Run(block: Block, msg: Msg)

  const EMPTY := State(None, 0, map[], {}, {}, {}, map[])

  const DEFAULT_PARAMS := Params(1_000_000, 0, [], 65_536, true, 100)
  const MAX_DATA_LOWER: nat := 128
  const MAX_DATA_UPPER: nat := 1_048_576
  const RETENTION_UPPER: nat := 100_000_000
  const MAX_AUDITS_UPPER: nat := 10_000
  const MAX_RESULTS: nat := 1000

  predicate ValidParams(p: Params) {
    && 0 <= p.retentionBlocks <= RETENTION_UPPER
    && MAX_DATA_LOWER <= p.maxDataSize <= MAX_DATA_UPPER
    && p.maxAudits <= MAX_AUDITS_UPPER
  }

  function ParamsOf(s: State): Params {
    match s.params
    case None => DEFAULT_PARAMS
    case Some(p) => p
  }

  predicate Allowed(p: Params, who: Bytes) {
    p.permissionless || who in p.allowedAuditors
  }

  function TimeKey(ts: int64): uint64 {
    if ts < 0 then 0 else ts
  }

  function IDOf(l: AuditLog): uint64 {
    l.id
  }

  function ActorKey(l: AuditLog): (Bytes, uint64) {
    (l.actor, l.id)
  }

  function TypeKey(l: AuditLog): (Bytes, uint64) {
    (l.eventType, l.id)
  }

  function WhenKey(l: AuditLog): (uint64, uint64) {
    (TimeKey(l.timestamp), l.id)
  }

  /** `RecordAuditLog`: the log and its three index entries. */
  function Recorded(s: State, l: AuditLog): State {
    s.(logs := s.logs[l.id := l],
       byActor := s.byActor + {ActorKey(l)},
       byEventType := s.byEventType + {TypeKey(l)},
       byTime := s.byTime + {WhenKey(l)})
  }

  function AllRecorded(s: State, ls: seq<AuditLog>): State
    decreases |ls|
  {
    if ls == [] then s else AllRecorded(Recorded(s, ls[0]), ls[1..])
  }

  function Count(s: State, who: Bytes): uint32 {
    if who in s.counts then s.counts[who] else 0
  }

  function Counted(s: State, who: Bytes): Option<State> {
    var limit := ParamsOf(s).maxAudits;
    if limit == 0 then Some(s)
    else if Count(s, who) >= limit then None
    else Some(s.(counts := s.counts[who := Count(s, who) + 1]))
  }

  /** `GetNextID`. */
  function NextID(s: State): uint64 {
    (s.sequence + 1) % TWO_64
  }

  function Handle(authority: Bytes, s: State, b: Block, m: Msg): Option<State> {
    match m
    case RecordAudit(creator, eventType, target, action, data) =>
      if !Allowed(ParamsOf(s), creator) then None
      else if ParamsOf(s).maxDataSize > 0 && |data| % TWO_32 > ParamsOf(s).maxDataSize then None
      else
        (match Counted(s, creator)
         case None => None
         case Some(s') =>
           var l := AuditLog(NextID(s'), eventType, creator, target, action, data, b.height, b.time, b.txHash);
           Some(Recorded(s', l).(sequence := NextID(s'))))
    case UpdateParams(signer, p) =>
      if signer != authority || !ValidParams(p) then None
      else Some(s.(params := Some(p)))
  }

  function Deliver(authority: Bytes, s: State, b: Block, m: Msg): State {
    match Handle(authority, s, b, m)
    case None => s
    case Some(s') => s'
  }

  function After(authority: Bytes, s: State, e: Event): State {
    match e
    case NewBlock => s.(counts := map[])
    case Run(b, m) => Deliver(authority, s, b, m)
  }

  function AfterAll(authority: Bytes, s: State, es: seq<Event>): State
    decreases |es|
  {
    if es == [] then s else AfterAll(authority, After(authority, s, es[0]), es[1..])
  }

  // ------------------------------------------------------------------ queries

  /** The logs found under the given ids; ids without a log are passed over. */
  function Lookups(logs: map<uint64, AuditLog>, ids: seq<uint64>): seq<AuditLog> {
    if ids == [] then []
    else if ids[0] in logs then [logs[ids[0]]] + Lookups(logs, ids[1..])
    else Lookups(logs, ids[1..])
  }

  function SecondOf<A>(k: (A, uint64)): uint64 {
    k.1
  }

  function WithPrefix(text: Bytes): ((Bytes, uint64)) -> bool {
    (k: (Bytes, uint64)) => k.0 == text
  }

  /** `NewPrefixedPairRange(text)`, walked, looked up, cut off after 1000 logs. */
  function ByText(s: State, index: set<(Bytes, uint64)>, text: Bytes): seq<AuditLog> {
    TextNumOrder();
    var keys := Walk(TextNumLe, Range(index, WithPrefix(text)));
    First(MAX_RESULTS, Lookups(s.logs, Mapped(SecondOf, keys)))
  }

  function Between(start: uint64, end: uint64): ((uint64, uint64)) -> bool {
    (k: (uint64, uint64)) => start <= k.0 < end
  }

  /** `GetAuditLogsByTimeRange`. */
  function ByTimeRange(s: State, from: int64, to: int64): seq<AuditLog> {
    if from < 0 || to < from then []
    else
      NumPairOrder();
      var keys := Walk(NumPairLe, Range(s.byTime, Between(from, to + 1)));
      First(MAX_RESULTS, Lookups(s.logs, Mapped(SecondOf, keys)))
  }

  /** All logs, in the order of their ids. */
  function Scan(s: State): seq<AuditLog> {
    Uint64Order();
    Values(s.logs, Walk(Uint64Le, s.logs.Keys))
  }

  // ------------------------------------------------------------------ genesis

  function Highest(ls: seq<AuditLog>, n: uint64): uint64
    decreases |ls|
  {
    if ls == [] then n else Highest(ls[1..], if ls[0].id > n then ls[0].id else n)
  }

  function Imported(s: State, g: GenesisState): State {
    var t := AllRecorded(s.(params := Some(g.params)), g.logs);
    var n := Highest(g.logs, g.counter);
    if n > 0 then t.(sequence := n) else t
  }

  function Exported(s: State): GenesisState {
    GenesisState(ParamsOf(s), Scan(s), s.sequence)
  }

  /** `GenesisState.Validate`. */
  ghost predicate ValidGenesis(g: GenesisState) {
    && ValidParams(g.params)
    && (forall i, j :: 0 <= i < j < |g.logs| ==> g.logs[i].id != g.logs[j].id)
    && (forall i :: 0 <= i < |g.logs| ==> ValidLog(g.params, g.logs[i]))
  }

  predicate ValidLog(p: Params, l: AuditLog) {
    l.actor != [] && l.action != [] && l.eventType != [] && |l.data| % TWO_32 <= p.maxDataSize
  }
}
