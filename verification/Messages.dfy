/** The energy module's messages: their values, the fields each is encoded as, and the
    switch that applies a decoded field. */
module Messages {
  import opened Machine
  import opened Varint
  import opened Wire
  import opened Unmarshal

  datatype EnergyData = EnergyData(
    id: Bytes, category: Bytes, submitter: Bytes, dataHash: Bytes, metadata: Bytes,
    blockHeight: int64, timestamp: int64)

  datatype BatchSubmission = BatchSubmission(
    id: Bytes, submitter: Bytes, category: Bytes, dataCount: uint32, merkleRoot: Bytes,
    timestamp: int64)

  datatype Params = Params(
    maxBatchSize: uint32, allowedSubmitters: seq<Bytes>, permissionless: bool,
    maxMetadataSize: uint32, maxSubmissions: uint32)

  datatype BatchItem = BatchItem(dataHash: Bytes, metadata: Bytes)

  datatype GenesisState = GenesisState(
    params: Params, dataRecords: seq<EnergyData>, batches: seq<BatchSubmission>, nextID: uint64)

  const NO_ENERGY_DATA := EnergyData([], [], [], [], [], 0, 0)
  const NO_BATCH := BatchSubmission([], [], [], 0, [], 0)
  const NO_PARAMS := Params(0, [], false, 0, 0)
  const NO_ITEM := BatchItem([], [])
  const NO_GENESIS := GenesisState(NO_PARAMS, [], [], 0)

  const ENERGY_DATA_KINDS: Kinds :=
    map[1 := LENGTH, 2 := LENGTH, 3 := LENGTH, 4 := LENGTH, 5 := LENGTH, 6 := VARINT, 7 := VARINT]
  const BATCH_KINDS: Kinds :=
    map[1 := LENGTH, 2 := LENGTH, 3 := LENGTH, 4 := VARINT, 5 := LENGTH, 6 := VARINT]
  const PARAMS_KINDS: Kinds :=
    map[1 := VARINT, 2 := LENGTH, 3 := VARINT, 4 := VARINT, 5 := VARINT]
  const ITEM_KINDS: Kinds := map[1 := LENGTH, 2 := LENGTH]
  const GENESIS_KINDS: Kinds := map[1 := LENGTH, 2 := LENGTH, 3 := LENGTH, 4 := VARINT]

  /** The fields whose loops read into 32-bit variables. */
  const BATCH_NARROW: set<int> := {4}
  const PARAMS_NARROW: set<int> := {1, 4, 5}

  // ------------------------------------------------------------------ fields of a message

  /** A string field, left out when empty. */
  function Str(num: nat, b: Bytes): seq<Field> {
    if b == [] then [] else [LenField(num, b)]
  }

  /** A numeric field, left out when zero. */
  function Num(num: nat, v: uint64): seq<Field> {
    if v == 0 then [] else [VarintField(num, v)]
  }

  /** A repeated field: every entry is written, the empty ones too. */
  function Repeated(num: nat, bs: seq<Bytes>): seq<Field> {
    if bs == [] then [] else [LenField(num, bs[0])] + Repeated(num, bs[1..])
  }

  function EnergyDataFields(m: EnergyData): seq<Field> {
    Str(1, m.id) + (Str(2, m.category) + (Str(3, m.submitter) + (Str(4, m.dataHash) +
    (Str(5, m.metadata) + (Num(6, AsUint64(m.blockHeight)) + Num(7, AsUint64(m.timestamp)))))))
  }

  function BatchFields(m: BatchSubmission): seq<Field> {
    Str(1, m.id) + (Str(2, m.submitter) + (Str(3, m.category) + (Num(4, m.dataCount) +
    (Str(5, m.merkleRoot) + Num(6, AsUint64(m.timestamp))))))
  }

  function ParamsFields(m: Params): seq<Field> {
    Num(1, m.maxBatchSize) + (Repeated(2, m.allowedSubmitters) +
    (Num(3, if m.permissionless then 1 else 0) + (Num(4, m.maxMetadataSize) +
    Num(5, m.maxSubmissions))))
  }

  function ItemFields(m: BatchItem): seq<Field> {
    Str(1, m.dataHash) + Str(2, m.metadata)
  }

  function GenesisFields(m: GenesisState): seq<Field> {
    [LenField(1, EncodeParams(m.params))] + (Repeated(2, EncodeRecords(m.dataRecords)) +
    (Repeated(3, EncodeBatches(m.batches)) + Num(4, m.nextID)))
  }

  function EncodeEnergyData(m: EnergyData): Bytes {
    EncodeAll(EnergyDataFields(m))
  }

  function EncodeBatch(m: BatchSubmission): Bytes {
    EncodeAll(BatchFields(m))
  }

  function EncodeParams(m: Params): Bytes {
    EncodeAll(ParamsFields(m))
  }

  function EncodeItem(m: BatchItem): Bytes {
    EncodeAll(ItemFields(m))
  }

  function EncodeGenesis(m: GenesisState): Bytes {
    EncodeAll(GenesisFields(m))
  }

  function EncodeRecords(ms: seq<EnergyData>): seq<Bytes> {
    seq(|ms|, i requires 0 <= i < |ms| => EncodeEnergyData(ms[i]))
  }

  function EncodeBatches(ms: seq<BatchSubmission>): seq<Bytes> {
    seq(|ms|, i requires 0 <= i < |ms| => EncodeBatch(ms[i]))
  }

  // ------------------------------------------------------------------ the decoder's switches

  function ApplyEnergyData(m: EnergyData, f: Field): Option<EnergyData> {
    match f
    case LenField(num, b) =>
      Some(if num == 1 then m.(id := b)
           else if num == 2 then m.(category := b)
           else if num == 3 then m.(submitter := b)
           else if num == 4 then m.(dataHash := b)
           else if num == 5 then m.(metadata := b)
           else m)
    case VarintField(num, v) =>
      Some(if num == 6 then m.(blockHeight := AsInt64(v))
           else if num == 7 then m.(timestamp := AsInt64(v))
           else m)
  }

  function ApplyBatch(m: BatchSubmission, f: Field): Option<BatchSubmission> {
    match f
    case LenField(num, b) =>
      Some(if num == 1 then m.(id := b)
           else if num == 2 then m.(submitter := b)
           else if num == 3 then m.(category := b)
           else if num == 5 then m.(merkleRoot := b)
           else m)
    case VarintField(num, v) =>
      Some(if num == 4 then m.(dataCount := v % TWO_32)
           else if num == 6 then m.(timestamp := AsInt64(v))
           else m)
  }

  function ApplyParams(m: Params, f: Field): Option<Params> {
    match f
    case LenField(num, b) =>
      Some(if num == 2 then m.(allowedSubmitters := m.allowedSubmitters + [b]) else m)
    case VarintField(num, v) =>
      Some(if num == 1 then m.(maxBatchSize := v % TWO_32)
           else if num == 3 then m.(permissionless := v != 0)
           else if num == 4 then m.(maxMetadataSize := v % TWO_32)
           else if num == 5 then m.(maxSubmissions := v % TWO_32)
           else m)
  }

  function ApplyItem(m: BatchItem, f: Field): Option<BatchItem> {
    match f
    case LenField(num, b) =>
      Some(if num == 1 then m.(dataHash := b)
           else if num == 2 then m.(metadata := b)
           else m)
    case VarintField(_, _) => Some(m)
  }

  /** The embedded parameters are decoded on top of those already there; each record and
      batch is appended, decoded from a zero message. */
  function ApplyGenesis(m: GenesisState, f: Field): Option<GenesisState> {
    match f
    case LenField(num, b) =>
      if num == 1 then
        match DecodeParams(m.params, b)
        case None => None
        case Some(p) => Some(m.(params := p))
      else if num == 2 then
        match DecodeEnergyData(NO_ENERGY_DATA, b)
        case None => None
        case Some(e) => Some(m.(dataRecords := m.dataRecords + [e]))
      else if num == 3 then
        match DecodeBatch(NO_BATCH, b)
        case None => None
        case Some(e) => Some(m.(batches := m.batches + [e]))
      else Some(m)
    case VarintField(num, v) =>
      Some(if num == 4 then m.(nextID := v) else m)
  }

  function DecodeEnergyData(m: EnergyData, s: Bytes): Option<EnergyData> {
    Decode(ENERGY_DATA_KINDS, ApplyEnergyData, m, s)
  }

  function DecodeBatch(m: BatchSubmission, s: Bytes): Option<BatchSubmission> {
    Decode(BATCH_KINDS, ApplyBatch, m, s)
  }

  function DecodeParams(m: Params, s: Bytes): Option<Params> {
    Decode(PARAMS_KINDS, ApplyParams, m, s)
  }

  function DecodeItem(m: BatchItem, s: Bytes): Option<BatchItem> {
    Decode(ITEM_KINDS, ApplyItem, m, s)
  }

  function DecodeGenesis(m: GenesisState, s: Bytes): Option<GenesisState> {
    Decode(GENESIS_KINDS, ApplyGenesis, m, s)
  }
}
