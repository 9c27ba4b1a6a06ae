/** The energy module as a state machine: its stored state, and the state each message
    leads to. */
module EnergyState {
  import opened Machine
  import opened Messages
  import Ids
  import Merkle
  import Store

  /** What the chain fixes: the hash, and the address allowed to change parameters. */
  datatype Chain = Chain(h: Merkle.Hash, authority: Bytes)

  /** The block a message runs in. */
  datatype Block = Block(height: int64, time: int64)

  datatype State = State(
    params: Option<Params>,
    sequence: uint64,
    records: map<Bytes, EnergyData>,
    byCategory: set<(Bytes, Bytes)>,
    bySubmitter: set<(Bytes, Bytes)>,
    batches: map<Bytes, BatchSubmission>,
    counts: map<Bytes, uint32>)

  datatype Msg =
    | Submit(submitter: Bytes, category: Bytes, dataHash: Bytes, metadata: Bytes)
    | Batch(submitter: Bytes, category: Bytes, items: seq<BatchItem>, merkleRoot: Bytes)
    | UpdateParams(authority: Bytes, params: Params)

  const EMPTY := State(None, 0, map[], {}, {}, map[], map[])

  // ------------------------------------------------------------------ parameters

  const MAX_BATCH_SIZE_UPPER: nat := 10_000
  const MAX_METADATA_LOWER: nat := 128
  const MAX_METADATA_UPPER: nat := 65_536
  const MAX_SUBMISSIONS_UPPER: nat := 10_000

  const DEFAULT_PARAMS := Params(100, [], true, 4_096, 100)

  /** `Params.Validate`. */
  predicate ValidParams(p: Params) {
    && 0 < p.maxBatchSize <= MAX_BATCH_SIZE_UPPER
    && MAX_METADATA_LOWER <= p.maxMetadataSize <= MAX_METADATA_UPPER
    && p.maxSubmissions <= MAX_SUBMISSIONS_UPPER
  }

  function ParamsOf(s: State): Params {
    match s.params
    case None => DEFAULT_PARAMS
    case Some(p) => p
  }

  predicate Allowed(p: Params, who: Bytes) {
    p.permissionless || who in p.allowedSubmitters
  }

  /** `uint32(len(b)) > cap`, when there is a cap. */
  predicate OverCap(cap: uint32, size: nat) {
    cap > 0 && size % TWO_32 > cap
  }

  // ------------------------------------------------------------------ keeper operations

  function Count(s: State, who: Bytes): uint32 {
    if who in s.counts then s.counts[who] else 0
  }

  /** `CheckAndIncrSubmitCount`. */
  function Counted(s: State, who: Bytes): Option<State> {
    var limit := ParamsOf(s).maxSubmissions;
    if limit == 0 then Some(s)
    else if Count(s, who) >= limit then None
    else Some(s.(counts := s.counts[who := Count(s, who) + 1]))
  }

  /** `GenerateID`: the identifier it returns, and the state after it. */
  function NextID(s: State): Bytes {
    Ids.Print((s.sequence + 1) % TWO_64)
  }

  function Advanced(s: State): State {
    s.(sequence := (s.sequence + 1) % TWO_64)
  }

  /** `SubmitEnergyData` of the keeper. */
  function Stored(s: State, d: EnergyData): State {
    s.(records := s.records[d.id := d],
       byCategory := s.byCategory + {(d.category, d.id)},
       bySubmitter := s.bySubmitter + {(d.submitter, d.id)})
  }

  /** One record under a freshly generated identifier. */
  function Recorded(s: State, b: Block, submitter: Bytes, category: Bytes, item: BatchItem): State {
    Stored(Advanced(s),
           EnergyData(NextID(s), category, submitter, item.dataHash, item.metadata, b.height, b.time))
  }

  function AllRecorded(s: State, b: Block, submitter: Bytes, category: Bytes, items: seq<BatchItem>): State
    decreases |items|
  {
    if items == [] then s
    else AllRecorded(Recorded(s, b, submitter, category, items[0]), b, submitter, category, items[1..])
  }

  function Hashes(items: seq<BatchItem>): (hs: seq<Bytes>)
    ensures |hs| == |items|
  {
    seq(|items|, i requires 0 <= i < |items| => items[i].dataHash)
  }

  // ------------------------------------------------------------------ messages

  /** The state after an accepted message; `None` when the handler refuses it. */
  function Handle(c: Chain, s: State, b: Block, m: Msg): Option<State> {
    match m
    case Submit(submitter, category, dataHash, metadata) =>
      if !Allowed(ParamsOf(s), submitter) then None
      else if OverCap(ParamsOf(s).maxMetadataSize, |metadata|) then None
      else
        (match Counted(s, submitter)
         case None => None
         case Some(s') => Some(Recorded(s', b, submitter, category, BatchItem(dataHash, metadata))))
    case Batch(submitter, category, items, merkleRoot) =>
      if !Allowed(ParamsOf(s), submitter) then None
      else if |items| % TWO_32 > ParamsOf(s).maxBatchSize then None
      else if exists i :: 0 <= i < |items| && OverCap(ParamsOf(s).maxMetadataSize, |items[i].metadata|) then None
      else
        (match Counted(s, submitter)
         case None => None
         case Some(s') =>
           if !Merkle.Accepts(c.h, Hashes(items), merkleRoot) then None
           else Some(Batched(s', b, submitter, category, items, merkleRoot)))
    case UpdateParams(authority, params) =>
      if authority == c.authority && ValidParams(params) then Some(s.(params := Some(params))) else None
  }

  /** The batch's own identifier comes first, then those of its records. */
  function Batched(s: State, b: Block, submitter: Bytes, category: Bytes, items: seq<BatchItem>,
                   merkleRoot: Bytes): State {
    var t := AllRecorded(Advanced(s), b, submitter, category, items);
    t.(batches := t.batches[NextID(s) :=
      BatchSubmission(NextID(s), submitter, category, |items| % TWO_32, merkleRoot, b.time)])
  }

  /** A message as the chain runs it: a refused one leaves the state as it was. */
  function Deliver(c: Chain, s: State, b: Block, m: Msg): State {
    match Handle(c, s, b, m)
    case None => s
    case Some(s') => s'
  }

  // ------------------------------------------------------------------ genesis

  /** `GenesisState.Validate`. */
  ghost predicate ValidGenesis(g: GenesisState) {
    && ValidParams(g.params)
    && (forall i :: 0 <= i < |g.dataRecords| ==> ValidRecord(g.params, g.dataRecords[i]))
    && (forall i, j :: 0 <= i < j < |g.dataRecords| ==> g.dataRecords[i].id != g.dataRecords[j].id)
    && (forall i :: 0 <= i < |g.batches| ==> g.batches[i].id != [])
    && (forall i, j :: 0 <= i < j < |g.batches| ==> g.batches[i].id != g.batches[j].id)
  }

  predicate ValidRecord(p: Params, d: EnergyData) {
    && d.id != [] && d.category != [] && d.dataHash != [] && d.submitter != []
    && |d.metadata| % TWO_32 <= p.maxMetadataSize
  }

  function AllStored(s: State, ds: seq<EnergyData>): State
    decreases |ds|
  {
    if ds == [] then s else AllStored(Stored(s, ds[0]), ds[1..])
  }

  function BatchID(b: BatchSubmission): Bytes {
    b.id
  }

  function RecordID(d: EnergyData): Bytes {
    d.id
  }

  /** The greatest of `n` and the numbers that can be read from the identifiers. */
  function Highest(ids: seq<Bytes>, n: uint64): uint64
    decreases |ids|
  {
    if ids == [] then n
    else Highest(ids[1..], match Ids.Parse(ids[0]) case None => n case Some(k) => if k > n then k else n)
  }

  predicate NumberWithin(id: Bytes, n: uint64) {
    var k := Ids.Parse(id);
    k.Some? ==> k.value <= n
  }

  lemma WithinMore(id: Bytes, m: uint64, n: uint64)
    requires NumberWithin(id, m) && m <= n
    ensures NumberWithin(id, n)
  {
  }

  lemma NotWithin(id: Bytes, m: uint64, n: uint64)
    requires Ids.Parse(id) == Some(m) && m > n
    ensures !NumberWithin(id, n)
  {
  }

  /** `Highest` is the least number that no identifier and not `n` exceeds. */
  lemma {:induction false} HighestBounds(ids: seq<Bytes>, n: uint64)
    ensures n <= Highest(ids, n)
    ensures forall i :: 0 <= i < |ids| ==> NumberWithin(ids[i], Highest(ids, n))
    ensures Highest(ids, n) == n || exists i :: 0 <= i < |ids| && Ids.Parse(ids[i]) == Some(Highest(ids, n))
    decreases |ids|
  {
    hide Ids.Parse;
    if ids != [] {
      var k := Ids.Parse(ids[0]);
      var n' := if k.Some? && k.value > n then k.value else n;
      HighestBounds(ids[1..], n');
      forall i | 0 <= i < |ids|
        ensures NumberWithin(ids[i], Highest(ids, n))
      {
        if i > 0 {
          assert ids[i] == ids[1..][i - 1];
        }
      }
      if Highest(ids, n) != n' {
        var i :| 0 <= i < |ids[1..]| && Ids.Parse(ids[1..][i]) == Some(Highest(ids, n));
        assert ids[i + 1] == ids[1..][i];
      }
    }
  }

  function RecordIDs(ds: seq<EnergyData>): seq<Bytes> {
    seq(|ds|, i requires 0 <= i < |ds| => ds[i].id)
  }

  function BatchIDs(bs: seq<BatchSubmission>): seq<Bytes> {
    seq(|bs|, i requires 0 <= i < |bs| => bs[i].id)
  }

  /** `InitGenesis` on the state `s`. */
  function Imported(s: State, g: GenesisState): State {
    var t := AllStored(s.(params := Some(g.params)), g.dataRecords);
    var u := t.(batches := Store.PutAll(t.batches, BatchID, g.batches));
    var highest := Highest(BatchIDs(g.batches), Highest(RecordIDs(g.dataRecords), g.nextID));
    if highest > 0 then u.(sequence := highest) else u
  }

  /** `ExportGenesis`: records and batches in the order of their keys. */
  function Exported(s: State): GenesisState {
    Store.TextOrder();
    GenesisState(ParamsOf(s),
                 Store.Values(s.records, Store.Walk(BytesLe, s.records.Keys)),
                 Store.Values(s.batches, Store.Walk(BytesLe, s.batches.Keys)),
                 s.sequence)
  }

  // ------------------------------------------------------------------ upgrade v1.0.1

  const BUMPED_CAP: uint32 := 8 * 1024

  /** `bumpEnergyMetadataCap`: the new parameters are validated before they are stored. */
  function Bumped(s: State): Option<State> {
    var p := ParamsOf(s);
    if p.maxMetadataSize >= BUMPED_CAP then Some(s)
    else
      var q := p.(maxMetadataSize := BUMPED_CAP);
      if ValidParams(q) then Some(s.(params := Some(q))) else None
  }

  // ------------------------------------------------------------------ runs

  datatype Event =
    | NewBlock
    | Run(block: Block, msg: Msg)
    | Upgrade

  function After(c: Chain, s: State, e: Event): State {
    match e
    case NewBlock => s.(counts := map[])
    case Run(b, m) => Deliver(c, s, b, m)
    case Upgrade => match Bumped(s) case None => s case Some(s') => s'
  }

  function AfterAll(c: Chain, s: State, es: seq<Event>): State
    decreases |es|
  {
    if es == [] then s else AfterAll(c, After(c, s, es[0]), es[1..])
  }
}
