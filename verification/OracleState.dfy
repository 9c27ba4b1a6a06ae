/** The oracle module as a state machine. */
module OracleState {
  import opened Machine
  import opened Store

  datatype OracleData = OracleData(
    category: Bytes, value: Bytes, metadata: Bytes, timestamp: int64, submitter: Bytes, blockHeight: int64)

  datatype OracleInfo = OracleInfo(address: Bytes, name: Bytes, active: bool, categories: seq<Bytes>)

  datatype Params = Params(minSubmissions: uint32, dataMaxAge: int64, maxMetadataSize: uint32)

  datatype GenesisState = GenesisState(params: Params, oracles: seq<OracleInfo>, data: seq<OracleData>)

  datatype Block = Block(height: int64, time: int64)

  type DataKey = (Bytes, uint64)

  datatype State = State(
    params: Option<Params>,
    oracles: map<Bytes, OracleInfo>,
    data: map<DataKey, OracleData>,
    latest: map<Bytes, OracleData>)

  datatype Msg =
    | SubmitData(submitter: Bytes, category: Bytes, value: Bytes, metadata: Bytes, timestamp: int64)
    | AddOracle(authority: Bytes, address: Bytes, name: Bytes, categories: seq<Bytes>)
    | RemoveOracle(authority: Bytes, address: Bytes)
    | UpdateParams(authority: Bytes, params: Params)

  const EMPTY := State(None, map[], map[], map[])

  const DEFAULT_PARAMS := Params(1, 3600, 4_096)
  const DEFAULT_DRIFT: int64 := 3600
  const MAX_AGE_UPPER: nat := 31_536_000
  const MAX_METADATA_LOWER: nat := 128
  const MAX_METADATA_UPPER: nat := 65_536
  const MAX_TIMESTAMP: int64 := 253402300800
  const MAX_HISTORY: nat := 1000
  const MAX_ORACLES: nat := 1000

  predicate ValidParams(p: Params) {
    && p.minSubmissions != 0
    && 0 < p.dataMaxAge <= MAX_AGE_UPPER
    && MAX_METADATA_LOWER <= p.maxMetadataSize <= MAX_METADATA_UPPER
  }

  function ParamsOf(s: State): Params {
    match s.params
    case None => DEFAULT_PARAMS
    case Some(p) => p
  }

  /** `timestampToKey`: negative timestamps are clamped to zero. */
  function TimeKey(ts: int64): uint64 {
    if ts < 0 then 0 else ts
  }

  function KeyOf(d: OracleData): DataKey {
    (d.category, TimeKey(d.timestamp))
  }

  function AddressOf(o: OracleInfo): Bytes {
    o.address
  }

  predicate AuthorizedFor(o: OracleInfo, category: Bytes) {
    o.active && (o.categories == [] || category in o.categories)
  }

  predicate Authorized(s: State, who: Bytes, category: Bytes) {
    who in s.oracles && AuthorizedFor(s.oracles[who], category)
  }

  /** `SetOracleData`: the time series and the cache of the latest write. */
  function Written(s: State, d: OracleData): State {
    s.(data := s.data[KeyOf(d) := d], latest := s.latest[d.category := d])
  }

  function AllWritten(s: State, ds: seq<OracleData>): State
    decreases |ds|
  {
    if ds == [] then s else AllWritten(Written(s, ds[0]), ds[1..])
  }

  /** The age a datapoint may have, either way, when it is submitted. */
  function Drift(p: Params): int64 {
    if p.dataMaxAge <= 0 then DEFAULT_DRIFT else p.dataMaxAge
  }

  /** Whether the timestamp lies in the window around the block time, computed in
      wrapping 64-bit arithmetic. */
  predicate InWindow(p: Params, time: int64, timestamp: int64) {
    AddInt(time, -Drift(p)) <= timestamp <= AddInt(time, Drift(p))
  }

  function Handle(authority: Bytes, s: State, b: Block, m: Msg): Option<State> {
    match m
    case SubmitData(submitter, category, value, metadata, timestamp) =>
      var p := ParamsOf(s);
      if !Authorized(s, submitter, category) then None
      else if p.maxMetadataSize > 0 && |metadata| % TWO_32 > p.maxMetadataSize then None
      else if !InWindow(p, b.time, timestamp) then None
      else Some(Written(s, OracleData(category, value, metadata, timestamp, submitter, b.height)))
    case AddOracle(signer, address, name, categories) =>
      if signer != authority then None
      else Some(s.(oracles := s.oracles[address := OracleInfo(address, name, true, categories)]))
    case RemoveOracle(signer, address) =>
      if signer != authority || address !in s.oracles then None
      else Some(s.(oracles := s.oracles - {address}))
    case UpdateParams(signer, p) =>
      if signer != authority || !ValidParams(p) then None
      else Some(s.(params := Some(p)))
  }

  function Deliver(authority: Bytes, s: State, b: Block, m: Msg): State {
    match Handle(authority, s, b, m)
    case None => s
    case Some(s') => s'
  }

  datatype Event = Event(block: Block, msg: Msg)

  function AfterAll(authority: Bytes, s: State, es: seq<Event>): State
    decreases |es|
  {
    if es == [] then s else AfterAll(authority, Deliver(authority, s, es[0].block, es[0].msg), es[1..])
  }

  // ------------------------------------------------------------------ queries

  /** The keys of one category from `from` to `to`, both included. */
  function InRange(category: Bytes, from: int64, to: int64): DataKey -> bool {
    (k: DataKey) => k.0 == category && from <= k.1 <= to
  }

  function RangeOf(s: State, category: Bytes, from: int64, to: int64): set<DataKey> {
    Range(s.data.Keys, InRange(category, from, to))
  }

  /** `GetDataHistory`: a walk over a key range, cut off after 1000 records. */
  function History(s: State, category: Bytes, from: int64, to: int64): seq<OracleData> {
    if category == [] || from < 0 || to < from then []
    else
      TextNumOrder();
      First(MAX_HISTORY, Values(s.data, Walk(TextNumLe, RangeOf(s, category, from, to))))
  }

  /** The whole time series in the order of its keys. */
  function Scan(s: State): seq<OracleData> {
    TextNumOrder();
    Values(s.data, Walk(TextNumLe, s.data.Keys))
  }

  function AllOracles(s: State): seq<OracleInfo> {
    TextOrder();
    First(MAX_ORACLES, Values(s.oracles, Walk(BytesLe, s.oracles.Keys)))
  }

  /** What `GetFreshLatestData` reports: the record if there is one, and whether it is
      stale. */
  datatype Fresh = Missing | Found(data: OracleData, stale: bool)

  function FreshLatest(s: State, time: int64, category: Bytes): Fresh {
    if category !in s.latest then Missing
    else
      var d := s.latest[category];
      var maxAge := ParamsOf(s).dataMaxAge;
      Found(d, maxAge > 0 && AsInt64((time - d.timestamp) % TWO_64) > maxAge)
  }

  // ------------------------------------------------------------------ genesis

  function Imported(s: State, g: GenesisState): State {
    AllWritten(s.(params := Some(g.params), oracles := PutAll(s.oracles, AddressOf, g.oracles)), g.data)
  }

  function Exported(s: State): GenesisState {
    GenesisState(ParamsOf(s), AllOracles(s), Scan(s))
  }

  predicate ValidDatum(p: Params, addresses: set<Bytes>, d: OracleData) {
    && d.category != [] && d.value != [] && 0 < d.timestamp <= MAX_TIMESTAMP
    && (d.submitter == [] || d.submitter in addresses)
    && |d.metadata| % TWO_32 <= p.maxMetadataSize
  }

  function Addresses(os: seq<OracleInfo>): set<Bytes> {
    set i | 0 <= i < |os| :: os[i].address
  }

  /** `GenesisState.Validate`. */
  ghost predicate ValidGenesis(g: GenesisState) {
    && ValidParams(g.params)
    && (forall i :: 0 <= i < |g.oracles| ==> g.oracles[i].address != [] && g.oracles[i].name != [])
    && (forall i, j :: 0 <= i < j < |g.oracles| ==> g.oracles[i].address != g.oracles[j].address)
    && (forall i :: 0 <= i < |g.data| ==> ValidDatum(g.params, Addresses(g.oracles), g.data[i]))
    && (forall i, j :: 0 <= i < j < |g.data| ==> SeriesKey(g.data[i]) != SeriesKey(g.data[j]))
  }

  function SeriesKey(d: OracleData): (Bytes, int64) {
    (d.category, d.timestamp)
  }
}
