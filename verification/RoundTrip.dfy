/** Unmarshalling what was marshalled gives the message back. */
module RoundTrip {
  import opened Machine
  import opened Varint
  import opened Wire
  import opened Unmarshal
  import opened Messages
  import Marshal

  ghost predicate Typed(kinds: Kinds, fs: seq<Field>) {
    forall f :: f in fs ==> f.num in kinds && kinds[f.num] == f.WireType()
  }

  lemma {:induction false} FieldFits(fs: seq<Field>, f: Field)
    requires f in fs
    ensures f.LenField? ==> |f.data| <= |EncodeAll(fs)|
  {
    hide Put;
    if f != fs[0] {
      FieldFits(fs[1..], f);
    }
  }

  lemma ParseTyped(kinds: Kinds, fs: seq<Field>)
    requires ValidKinds(kinds) && Typed(kinds, fs) && |EncodeAll(fs)| < TWO_63
    ensures Parse(kinds, EncodeAll(fs)) == Some(fs)
  {
    forall i | 0 <= i < |fs|
      ensures Encodable(kinds, fs[i])
    {
      FieldFits(fs, fs[i]);
    }
    ParseEncoded(kinds, fs);
  }

  /** Fields of the right kinds that rebuild `m` from `zero` decode to `m`. */
  lemma DecodeEncoded<M>(kinds: Kinds, apply: (M, Field) -> Option<M>, zero: M, m: M, fs: seq<Field>)
    requires ValidKinds(kinds) && Typed(kinds, fs)
    requires |EncodeAll(fs)| < TWO_63
    requires Fold(apply, zero, fs) == Some(m)
    ensures Decode(kinds, apply, zero, EncodeAll(fs)) == Some(m)
  {
    ParseTyped(kinds, fs);
  }

  lemma FoldStr<M>(apply: (M, Field) -> Option<M>, m: M, num: nat, b: Bytes, rest: seq<Field>, m': M)
    requires if b == [] then m == m' else apply(m, LenField(num, b)) == Some(m')
    ensures Fold(apply, m, Str(num, b) + rest) == Fold(apply, m', rest)
  {
    FoldAppend(apply, m, Str(num, b), rest);
  }

  lemma FoldNum<M>(apply: (M, Field) -> Option<M>, m: M, num: nat, v: uint64, rest: seq<Field>, m': M)
    requires if v == 0 then m == m' else apply(m, VarintField(num, v)) == Some(m')
    ensures Fold(apply, m, Num(num, v) + rest) == Fold(apply, m', rest)
  {
    FoldAppend(apply, m, Num(num, v), rest);
  }

  // ------------------------------------------------------------------ merging

  /** What a string field holds after `b` is decoded on top of `a`. */
  function LastStr(a: Bytes, b: Bytes): Bytes {
    if b == [] then a else b
  }

  function LastNum(a: int, b: int): int {
    if b == 0 then a else b
  }

  /** Decoding `n` on top of `m`: the last one wins. */
  function MergeEnergyData(m: EnergyData, n: EnergyData): EnergyData {
    EnergyData(LastStr(m.id, n.id), LastStr(m.category, n.category), LastStr(m.submitter, n.submitter),
               LastStr(m.dataHash, n.dataHash), LastStr(m.metadata, n.metadata),
               LastNum(m.blockHeight, n.blockHeight), LastNum(m.timestamp, n.timestamp))
  }

  function MergeBatch(m: BatchSubmission, n: BatchSubmission): BatchSubmission {
    BatchSubmission(LastStr(m.id, n.id), LastStr(m.submitter, n.submitter), LastStr(m.category, n.category),
                    LastNum(m.dataCount, n.dataCount), LastStr(m.merkleRoot, n.merkleRoot),
                    LastNum(m.timestamp, n.timestamp))
  }

  function MergeItem(m: BatchItem, n: BatchItem): BatchItem {
    BatchItem(LastStr(m.dataHash, n.dataHash), LastStr(m.metadata, n.metadata))
  }

  /** Repeated fields append. */
  function MergeParams(m: Params, n: Params): Params {
    Params(LastNum(m.maxBatchSize, n.maxBatchSize), m.allowedSubmitters + n.allowedSubmitters,
           m.permissionless || n.permissionless,
           LastNum(m.maxMetadataSize, n.maxMetadataSize), LastNum(m.maxSubmissions, n.maxSubmissions))
  }

  function MergeGenesis(m: GenesisState, n: GenesisState): GenesisState {
    GenesisState(MergeParams(m.params, n.params), m.dataRecords + n.dataRecords, m.batches + n.batches,
                 LastNum(m.nextID, n.nextID))
  }

  lemma FoldEnergyData(z: EnergyData, m: EnergyData)
    ensures Fold(ApplyEnergyData, z, EnergyDataFields(m)) == Some(MergeEnergyData(z, m))
  {
    hide Fold, Str, Num;
    var f7 := Num(7, AsUint64(m.timestamp));
    var f6 := Num(6, AsUint64(m.blockHeight)) + f7;
    var f5 := Str(5, m.metadata) + f6;
    var f4 := Str(4, m.dataHash) + f5;
    var f3 := Str(3, m.submitter) + f4;
    var f2 := Str(2, m.category) + f3;
    var m1 := z.(id := LastStr(z.id, m.id));
    var m2 := m1.(category := LastStr(z.category, m.category));
    var m3 := m2.(submitter := LastStr(z.submitter, m.submitter));
    var m4 := m3.(dataHash := LastStr(z.dataHash, m.dataHash));
    var m5 := m4.(metadata := LastStr(z.metadata, m.metadata));
    var m6 := m5.(blockHeight := LastNum(z.blockHeight, m.blockHeight));
    var m7 := m6.(timestamp := LastNum(z.timestamp, m.timestamp));
    FoldStr(ApplyEnergyData, z, 1, m.id, f2, m1);
    FoldStr(ApplyEnergyData, m1, 2, m.category, f3, m2);
    FoldStr(ApplyEnergyData, m2, 3, m.submitter, f4, m3);
    FoldStr(ApplyEnergyData, m3, 4, m.dataHash, f5, m4);
    FoldStr(ApplyEnergyData, m4, 5, m.metadata, f6, m5);
    FoldNum(ApplyEnergyData, m5, 6, AsUint64(m.blockHeight), f7, m6);
    FoldNum(ApplyEnergyData, m6, 7, AsUint64(m.timestamp), [], m7);
    assert f7 + [] == f7;
    FoldEmpty(ApplyEnergyData, m7);
  }

  lemma FoldEmpty<M>(apply: (M, Field) -> Option<M>, m: M)
    ensures Fold(apply, m, []) == Some(m)
  {
  }

  lemma TypedRepeated(kinds: Kinds, num: nat, bs: seq<Bytes>, rest: seq<Field>)
    requires num in kinds && kinds[num] == LENGTH && Typed(kinds, rest)
    ensures Typed(kinds, Repeated(num, bs) + rest)
  {
    if bs == [] {
      assert Repeated(num, bs) + rest == rest;
    } else {
      TypedRepeated(kinds, num, bs[1..], rest);
      assert Repeated(num, bs) + rest == [LenField(num, bs[0])] + (Repeated(num, bs[1..]) + rest);
    }
  }

  /** Every EnergyData, negative heights and arbitrary bytes included. */
  lemma EnergyDataRoundTrip(m: EnergyData)
    requires |EncodeEnergyData(m)| < TWO_63
    ensures DecodeEnergyData(NO_ENERGY_DATA, EncodeEnergyData(m)) == Some(m)
  {
    hide Fold, EncodeAll, Decode, Str, Num, Typed;
    FoldEnergyData(NO_ENERGY_DATA, m);
    EnergyDataTyped(m);
    DecodeEncoded(ENERGY_DATA_KINDS, ApplyEnergyData, NO_ENERGY_DATA, m, EnergyDataFields(m));
  }

  lemma FoldBatch(z: BatchSubmission, m: BatchSubmission)
    ensures Fold(ApplyBatch, z, BatchFields(m)) == Some(MergeBatch(z, m))
  {
    hide Fold, Str, Num;
    var f6 := Num(6, AsUint64(m.timestamp));
    var f5 := Str(5, m.merkleRoot) + f6;
    var f4 := Num(4, m.dataCount) + f5;
    var f3 := Str(3, m.category) + f4;
    var f2 := Str(2, m.submitter) + f3;
    var m1 := z.(id := LastStr(z.id, m.id));
    var m2 := m1.(submitter := LastStr(z.submitter, m.submitter));
    var m3 := m2.(category := LastStr(z.category, m.category));
    var m4 := m3.(dataCount := LastNum(z.dataCount, m.dataCount));
    var m5 := m4.(merkleRoot := LastStr(z.merkleRoot, m.merkleRoot));
    var m6 := m5.(timestamp := LastNum(z.timestamp, m.timestamp));
    FoldStr(ApplyBatch, z, 1, m.id, f2, m1);
    FoldStr(ApplyBatch, m1, 2, m.submitter, f3, m2);
    FoldStr(ApplyBatch, m2, 3, m.category, f4, m3);
    FoldNum(ApplyBatch, m3, 4, m.dataCount, f5, m4);
    FoldStr(ApplyBatch, m4, 5, m.merkleRoot, f6, m5);
    FoldNum(ApplyBatch, m5, 6, AsUint64(m.timestamp), [], m6);
    assert f6 + [] == f6;
    FoldEmpty(ApplyBatch, m6);
  }

  lemma BatchRoundTrip(m: BatchSubmission)
    requires |EncodeBatch(m)| < TWO_63
    ensures DecodeBatch(NO_BATCH, EncodeBatch(m)) == Some(m)
  {
    hide Fold, EncodeAll, Decode, Str, Num, Typed;
    FoldBatch(NO_BATCH, m);
    BatchTyped(m);
    DecodeEncoded(BATCH_KINDS, ApplyBatch, NO_BATCH, m, BatchFields(m));
  }

  lemma FoldItem(z: BatchItem, m: BatchItem)
    ensures Fold(ApplyItem, z, ItemFields(m)) == Some(MergeItem(z, m))
  {
    var m1 := z.(dataHash := LastStr(z.dataHash, m.dataHash));
    FoldStr(ApplyItem, z, 1, m.dataHash, Str(2, m.metadata), m1);
    FoldStr(ApplyItem, m1, 2, m.metadata, [], MergeItem(z, m));
    assert Str(2, m.metadata) + [] == Str(2, m.metadata);
  }

  lemma ItemRoundTrip(m: BatchItem)
    requires |EncodeItem(m)| < TWO_63
    ensures DecodeItem(NO_ITEM, EncodeItem(m)) == Some(m)
  {
    hide EncodeAll, Decode;
    FoldItem(NO_ITEM, m);
    DecodeEncoded(ITEM_KINDS, ApplyItem, NO_ITEM, m, ItemFields(m));
  }

  lemma FoldCons<M>(apply: (M, Field) -> Option<M>, m: M, f: Field, rest: seq<Field>, m': M)
    requires apply(m, f) == Some(m')
    ensures Fold(apply, m, [f] + rest) == Fold(apply, m', rest)
  {
    assert ([f] + rest)[1..] == rest;
  }

  lemma RepeatedCons(num: nat, b: Bytes, bs: seq<Bytes>, rest: seq<Field>)
    ensures Repeated(num, [b] + bs) + rest == [LenField(num, b)] + (Repeated(num, bs) + rest)
  {
    assert ([b] + bs)[1..] == bs;
  }

  lemma {:induction false} FoldSubmitters(m: Params, bs: seq<Bytes>, rest: seq<Field>)
    ensures Fold(ApplyParams, m, Repeated(2, bs) + rest)
         == Fold(ApplyParams, m.(allowedSubmitters := m.allowedSubmitters + bs), rest)
    decreases |bs|
  {
    if bs == [] {
      assert Repeated(2, bs) + rest == rest;
      assert m.allowedSubmitters + bs == m.allowedSubmitters;
    } else {
      var m' := m.(allowedSubmitters := m.allowedSubmitters + [bs[0]]);
      assert ApplyParams(m, LenField(2, bs[0])) == Some(m');
      hide Fold, ApplyParams, Repeated;
      assert bs == [bs[0]] + bs[1..];
      RepeatedCons(2, bs[0], bs[1..], rest);
      FoldCons(ApplyParams, m, LenField(2, bs[0]), Repeated(2, bs[1..]) + rest, m');
      FoldSubmitters(m', bs[1..], rest);
      assert m'.allowedSubmitters + bs[1..] == m.allowedSubmitters + bs;
    }
  }

  lemma FoldParams(z: Params, m: Params)
    ensures Fold(ApplyParams, z, ParamsFields(m)) == Some(MergeParams(z, m))
  {
    hide Fold, Str, Num, Repeated;
    var f5 := Num(5, m.maxSubmissions);
    var f4 := Num(4, m.maxMetadataSize) + f5;
    var p: uint64 := if m.permissionless then 1 else 0;
    var f3 := Num(3, p) + f4;
    var f2 := Repeated(2, m.allowedSubmitters) + f3;
    var m1 := z.(maxBatchSize := LastNum(z.maxBatchSize, m.maxBatchSize));
    var m2 := m1.(allowedSubmitters := z.allowedSubmitters + m.allowedSubmitters);
    var m3 := m2.(permissionless := z.permissionless || m.permissionless);
    var m4 := m3.(maxMetadataSize := LastNum(z.maxMetadataSize, m.maxMetadataSize));
    var m5 := m4.(maxSubmissions := LastNum(z.maxSubmissions, m.maxSubmissions));
    FoldNum(ApplyParams, z, 1, m.maxBatchSize, f2, m1);
    FoldSubmitters(m1, m.allowedSubmitters, f3);
    FoldNum(ApplyParams, m2, 3, p, f4, m3);
    FoldNum(ApplyParams, m3, 4, m.maxMetadataSize, f5, m4);
    FoldNum(ApplyParams, m4, 5, m.maxSubmissions, [], m5);
    assert f5 + [] == f5;
    FoldEmpty(ApplyParams, m5);
  }

  lemma ParamsParse(m: Params)
    requires |EncodeParams(m)| < TWO_63
    ensures Parse(PARAMS_KINDS, EncodeParams(m)) == Some(ParamsFields(m))
  {
    hide EncodeAll, Parse, Repeated;
    TypedRepeated(PARAMS_KINDS, 2, m.allowedSubmitters, []);
    assert Repeated(2, m.allowedSubmitters) + [] == Repeated(2, m.allowedSubmitters);
    ParseTyped(PARAMS_KINDS, ParamsFields(m));
  }

  /** Empty entries in the list of allowed submitters are kept. */
  lemma ParamsRoundTrip(m: Params)
    requires |EncodeParams(m)| < TWO_63
    ensures DecodeParams(NO_PARAMS, EncodeParams(m)) == Some(m)
  {
    hide Fold, EncodeAll, Decode, Repeated;
    FoldParams(NO_PARAMS, m);
    assert [] + m.allowedSubmitters == m.allowedSubmitters;
    TypedRepeated(PARAMS_KINDS, 2, m.allowedSubmitters, []);
    assert Repeated(2, m.allowedSubmitters) + [] == Repeated(2, m.allowedSubmitters);
    assert Typed(PARAMS_KINDS, ParamsFields(m));
    DecodeEncoded(PARAMS_KINDS, ApplyParams, NO_PARAMS, m, ParamsFields(m));
  }

  /** Parameters decoded on top of others merge with them. */
  lemma ParamsMerge(z: Params, m: Params)
    requires |EncodeParams(m)| < TWO_63
    ensures DecodeParams(z, EncodeParams(m)) == Some(MergeParams(z, m))
  {
    hide Fold, EncodeAll, Parse;
    ParamsParse(m);
    FoldParams(z, m);
  }

  lemma {:induction false} FoldRecords(m: GenesisState, ds: seq<EnergyData>, rest: seq<Field>)
    requires forall i :: 0 <= i < |ds| ==> |EncodeEnergyData(ds[i])| < TWO_63
    ensures Fold(ApplyGenesis, m, Repeated(2, EncodeRecords(ds)) + rest)
         == Fold(ApplyGenesis, m.(dataRecords := m.dataRecords + ds), rest)
    decreases |ds|
  {
    hide EncodeEnergyData, DecodeEnergyData;
    if ds == [] {
      assert Repeated(2, EncodeRecords(ds)) + rest == rest;
      assert m.dataRecords + ds == m.dataRecords;
    } else {
      var fs := Repeated(2, EncodeRecords(ds)) + rest;
      var m' := m.(dataRecords := m.dataRecords + [ds[0]]);
      assert EncodeRecords(ds)[1..] == EncodeRecords(ds[1..]);
      assert fs[0] == LenField(2, EncodeEnergyData(ds[0])) && fs[1..] == Repeated(2, EncodeRecords(ds[1..])) + rest;
      EnergyDataRoundTrip(ds[0]);
      FoldRecords(m', ds[1..], rest);
      assert m'.dataRecords + ds[1..] == m.dataRecords + ds;
    }
  }

  lemma {:induction false} FoldBatches(m: GenesisState, bs: seq<BatchSubmission>, rest: seq<Field>)
    requires forall i :: 0 <= i < |bs| ==> |EncodeBatch(bs[i])| < TWO_63
    ensures Fold(ApplyGenesis, m, Repeated(3, EncodeBatches(bs)) + rest)
         == Fold(ApplyGenesis, m.(batches := m.batches + bs), rest)
    decreases |bs|
  {
    hide EncodeBatch, DecodeBatch;
    if bs == [] {
      assert Repeated(3, EncodeBatches(bs)) + rest == rest;
      assert m.batches + bs == m.batches;
    } else {
      var fs := Repeated(3, EncodeBatches(bs)) + rest;
      var m' := m.(batches := m.batches + [bs[0]]);
      assert EncodeBatches(bs)[1..] == EncodeBatches(bs[1..]);
      assert fs[0] == LenField(3, EncodeBatch(bs[0])) && fs[1..] == Repeated(3, EncodeBatches(bs[1..])) + rest;
      BatchRoundTrip(bs[0]);
      FoldBatches(m', bs[1..], rest);
      assert m'.batches + bs[1..] == m.batches + bs;
    }
  }

  lemma {:induction false} RepeatedHas(num: nat, bs: seq<Bytes>, i: nat)
    requires i < |bs|
    ensures LenField(num, bs[i]) in Repeated(num, bs)
  {
    if i > 0 {
      RepeatedHas(num, bs[1..], i - 1);
    }
  }

  /** The parts of a genesis whose encoding fits in memory fit too. */
  lemma PartsFit(m: GenesisState)
    requires |EncodeGenesis(m)| < TWO_63
    ensures |EncodeParams(m.params)| < TWO_63
    ensures forall i :: 0 <= i < |m.dataRecords| ==> |EncodeEnergyData(m.dataRecords[i])| < TWO_63
    ensures forall i :: 0 <= i < |m.batches| ==> |EncodeBatch(m.batches[i])| < TWO_63
  {
    hide EncodeAll, EncodeEnergyData, EncodeBatch, EncodeParams, Repeated;
    var fs := GenesisFields(m);
    FieldFits(fs, LenField(1, EncodeParams(m.params)));
    forall i | 0 <= i < |m.dataRecords|
      ensures |EncodeEnergyData(m.dataRecords[i])| < TWO_63
    {
      RepeatedHas(2, EncodeRecords(m.dataRecords), i);
      FieldFits(fs, LenField(2, EncodeEnergyData(m.dataRecords[i])));
    }
    forall i | 0 <= i < |m.batches|
      ensures |EncodeBatch(m.batches[i])| < TWO_63
    {
      RepeatedHas(3, EncodeBatches(m.batches), i);
      FieldFits(fs, LenField(3, EncodeBatch(m.batches[i])));
    }
  }

  lemma FoldGenesis(z: GenesisState, m: GenesisState)
    requires |EncodeGenesis(m)| < TWO_63
    ensures Fold(ApplyGenesis, z, GenesisFields(m)) == Some(MergeGenesis(z, m))
  {
    hide Fold, Num, Repeated, EncodeParams, DecodeParams, EncodeRecords, EncodeBatches, MergeParams;
    PartsFit(m);
    var f4 := Num(4, m.nextID);
    var f3 := Repeated(3, EncodeBatches(m.batches)) + f4;
    var f2 := Repeated(2, EncodeRecords(m.dataRecords)) + f3;
    var m1 := z.(params := MergeParams(z.params, m.params));
    var m2 := m1.(dataRecords := z.dataRecords + m.dataRecords);
    var m3 := m2.(batches := z.batches + m.batches);
    ParamsMerge(z.params, m.params);
    FoldAppend(ApplyGenesis, z, [LenField(1, EncodeParams(m.params))], f2);
    FoldOne(ApplyGenesis, z, LenField(1, EncodeParams(m.params)));
    FoldRecords(m1, m.dataRecords, f3);
    FoldBatches(m2, m.batches, f4);
    FoldNum(ApplyGenesis, m3, 4, m.nextID, [], MergeGenesis(z, m));
    assert f4 + [] == f4;
    FoldEmpty(ApplyGenesis, MergeGenesis(z, m));
  }

  lemma FoldOne<M>(apply: (M, Field) -> Option<M>, m: M, f: Field)
    ensures Fold(apply, m, [f]) == apply(m, f)
  {
    if apply(m, f).Some? {
      assert [f][1..] == [];
    }
  }

  /** The nested message: parameters, then every record and batch in order. */
  lemma GenesisRoundTrip(m: GenesisState)
    requires |EncodeGenesis(m)| < TWO_63
    ensures DecodeGenesis(NO_GENESIS, EncodeGenesis(m)) == Some(m)
  {
    hide Fold, EncodeAll, Decode, Repeated, EncodeParams, EncodeRecords, EncodeBatches;
    FoldGenesis(NO_GENESIS, m);
    MergeWithZero(m);
    GenesisTyped(m);
    DecodeEncoded(GENESIS_KINDS, ApplyGenesis, NO_GENESIS, m, GenesisFields(m));
  }

  lemma MergeWithZero(m: GenesisState)
    ensures MergeGenesis(NO_GENESIS, m) == m
  {
    assert [] + m.params.allowedSubmitters == m.params.allowedSubmitters;
    assert [] + m.dataRecords == m.dataRecords && [] + m.batches == m.batches;
  }

  // ------------------------------------------------------------------ last one wins

  /** Two encodings one after the other decode to their merge: the last scalar that is
      present wins, repeated fields append, embedded messages merge in turn. */
  lemma EnergyDataConcat(m: EnergyData, n: EnergyData)
    requires |EncodeEnergyData(m)| < TWO_63 && |EncodeEnergyData(n)| < TWO_63
    ensures DecodeEnergyData(NO_ENERGY_DATA, EncodeEnergyData(m) + EncodeEnergyData(n)) == Some(MergeEnergyData(m, n))
  {
    hide Fold, EncodeAll, Parse, Str, Num;
    EnergyDataRoundTrip(m);
    DecodeAppend(ENERGY_DATA_KINDS, ApplyEnergyData, NO_ENERGY_DATA, EncodeEnergyData(m), EncodeEnergyData(n));
    EnergyDataTyped(n);
    ParseTyped(ENERGY_DATA_KINDS, EnergyDataFields(n));
    FoldEnergyData(m, n);
  }

  lemma TypedAppend(kinds: Kinds, a: seq<Field>, b: seq<Field>)
    requires Typed(kinds, a) && Typed(kinds, b)
    ensures Typed(kinds, a + b)
  {
  }

  lemma EnergyDataTyped(m: EnergyData)
    ensures Typed(ENERGY_DATA_KINDS, EnergyDataFields(m))
  {
    var f6 := Num(6, AsUint64(m.blockHeight)) + Num(7, AsUint64(m.timestamp));
    var f5 := Str(5, m.metadata) + f6;
    var f4 := Str(4, m.dataHash) + f5;
    var f3 := Str(3, m.submitter) + f4;
    var f2 := Str(2, m.category) + f3;
    TypedAppend(ENERGY_DATA_KINDS, Num(6, AsUint64(m.blockHeight)), Num(7, AsUint64(m.timestamp)));
    TypedAppend(ENERGY_DATA_KINDS, Str(5, m.metadata), f6);
    TypedAppend(ENERGY_DATA_KINDS, Str(4, m.dataHash), f5);
    TypedAppend(ENERGY_DATA_KINDS, Str(3, m.submitter), f4);
    TypedAppend(ENERGY_DATA_KINDS, Str(2, m.category), f3);
    TypedAppend(ENERGY_DATA_KINDS, Str(1, m.id), f2);
  }

  lemma BatchConcat(m: BatchSubmission, n: BatchSubmission)
    requires |EncodeBatch(m)| < TWO_63 && |EncodeBatch(n)| < TWO_63
    ensures DecodeBatch(NO_BATCH, EncodeBatch(m) + EncodeBatch(n)) == Some(MergeBatch(m, n))
  {
    hide Fold, EncodeAll, Parse, Str, Num;
    BatchRoundTrip(m);
    DecodeAppend(BATCH_KINDS, ApplyBatch, NO_BATCH, EncodeBatch(m), EncodeBatch(n));
    BatchTyped(n);
    ParseTyped(BATCH_KINDS, BatchFields(n));
    FoldBatch(m, n);
  }

  lemma BatchTyped(m: BatchSubmission)
    ensures Typed(BATCH_KINDS, BatchFields(m))
  {
    var f5 := Str(5, m.merkleRoot) + Num(6, AsUint64(m.timestamp));
    var f4 := Num(4, m.dataCount) + f5;
    var f3 := Str(3, m.category) + f4;
    var f2 := Str(2, m.submitter) + f3;
    TypedAppend(BATCH_KINDS, Str(5, m.merkleRoot), Num(6, AsUint64(m.timestamp)));
    TypedAppend(BATCH_KINDS, Num(4, m.dataCount), f5);
    TypedAppend(BATCH_KINDS, Str(3, m.category), f4);
    TypedAppend(BATCH_KINDS, Str(2, m.submitter), f3);
    TypedAppend(BATCH_KINDS, Str(1, m.id), f2);
  }

  lemma ParamsConcat(m: Params, n: Params)
    requires |EncodeParams(m)| < TWO_63 && |EncodeParams(n)| < TWO_63
    ensures DecodeParams(NO_PARAMS, EncodeParams(m) + EncodeParams(n)) == Some(MergeParams(m, n))
  {
    hide Fold, EncodeAll, Parse, Repeated, Num;
    ParamsRoundTrip(m);
    DecodeAppend(PARAMS_KINDS, ApplyParams, NO_PARAMS, EncodeParams(m), EncodeParams(n));
    ParamsMerge(m, n);
  }

  lemma GenesisConcat(m: GenesisState, n: GenesisState)
    requires |EncodeGenesis(m)| < TWO_63 && |EncodeGenesis(n)| < TWO_63
    ensures DecodeGenesis(NO_GENESIS, EncodeGenesis(m) + EncodeGenesis(n)) == Some(MergeGenesis(m, n))
  {
    hide Fold, EncodeAll, Parse, Repeated, Num, EncodeRecords, EncodeBatches, EncodeParams;
    GenesisRoundTrip(m);
    DecodeAppend(GENESIS_KINDS, ApplyGenesis, NO_GENESIS, EncodeGenesis(m), EncodeGenesis(n));
    GenesisTyped(n);
    ParseTyped(GENESIS_KINDS, GenesisFields(n));
    FoldGenesis(m, n);
  }

  lemma GenesisTyped(m: GenesisState)
    ensures Typed(GENESIS_KINDS, GenesisFields(m))
  {
    hide Repeated, EncodeParams;
    var f3 := Repeated(3, EncodeBatches(m.batches)) + Num(4, m.nextID);
    TypedRepeated(GENESIS_KINDS, 3, EncodeBatches(m.batches), Num(4, m.nextID));
    TypedRepeated(GENESIS_KINDS, 2, EncodeRecords(m.dataRecords), f3);
  }

  // ------------------------------------------------------------------ methods

  /** `Unmarshal` of each message, on top of what it already holds. */
  method UnmarshalEnergyData(m: EnergyData, d: Bytes) returns (r: Option<EnergyData>)
    requires |d| < TWO_63
    ensures r == DecodeEnergyData(m, d)
  {
    r := UnmarshalMessage(ENERGY_DATA_KINDS, {}, ApplyEnergyData, m, d);
  }

  method UnmarshalBatch(m: BatchSubmission, d: Bytes) returns (r: Option<BatchSubmission>)
    requires |d| < TWO_63
    ensures r == DecodeBatch(m, d)
  {
    r := UnmarshalMessage(BATCH_KINDS, BATCH_NARROW, ApplyBatch, m, d);
  }

  method UnmarshalParams(m: Params, d: Bytes) returns (r: Option<Params>)
    requires |d| < TWO_63
    ensures r == DecodeParams(m, d)
  {
    r := UnmarshalMessage(PARAMS_KINDS, PARAMS_NARROW, ApplyParams, m, d);
  }

  method UnmarshalItem(m: BatchItem, d: Bytes) returns (r: Option<BatchItem>)
    requires |d| < TWO_63
    ensures r == DecodeItem(m, d)
  {
    r := UnmarshalMessage(ITEM_KINDS, {}, ApplyItem, m, d);
  }

  /** The switch of the genesis decoder: an embedded message is unmarshalled in turn. */
  method GenesisField(m: GenesisState, f: Field) returns (r: Option<GenesisState>)
    requires f.LenField? ==> |f.data| < TWO_63
    ensures r == ApplyGenesis(m, f)
  {
    hide Decode;
    match f {
      case LenField(num, data) =>
        if num == 1 {
          var p := UnmarshalParams(m.params, data);
          return if p.None? then None else Some(m.(params := p.value));
        } else if num == 2 {
          var e := UnmarshalEnergyData(NO_ENERGY_DATA, data);
          return if e.None? then None else Some(m.(dataRecords := m.dataRecords + [e.value]));
        } else if num == 3 {
          var e := UnmarshalBatch(NO_BATCH, data);
          return if e.None? then None else Some(m.(batches := m.batches + [e.value]));
        }
        return Some(m);
      case VarintField(num, v) =>
        return Some(if num == 4 then m.(nextID := v) else m);
    }
  }

  /** The genesis decoder: a loop whose switch runs the loops of the embedded messages. */
  method UnmarshalGenesis(m0: GenesisState, d: Bytes) returns (r: Option<GenesisState>)
    requires |d| < TWO_63
    ensures r == DecodeGenesis(m0, d)
  {
    hide Next, Decode, ApplyGenesis;
    var m, i := m0, 0;
    assert d[0..] == d;
    while i < |d|
      invariant i <= |d|
      invariant Decode(GENESIS_KINDS, ApplyGenesis, m0, d) == Decode(GENESIS_KINDS, ApplyGenesis, m, d[i..])
    {
      DecodeStep(GENESIS_KINDS, ApplyGenesis, m, d[i..]);
      var hit := NextField(GENESIS_KINDS, {}, d, i);
      if hit.Err? {
        return None;
      }
      var h := hit.value;
      if h.fields != [] {
        var next := GenesisField(m, h.fields[0]);
        if next.None? {
          return None;
        }
        m := next.value;
      }
      assert d[i..][h.size..] == d[i + h.size..];
      i := i + h.size;
    }
    assert d[i..] == [];
    DecodeEmpty(GENESIS_KINDS, ApplyGenesis, m);
    return Some(m);
  }

  /** What a collection does with a record: marshal it into a buffer of its size, and later
      unmarshal the stored bytes into a zero message. */
  method StoreAndLoad(m: EnergyData) returns (r: Option<EnergyData>)
    requires Marshal.SizeEnergyData(m) < TWO_63
    ensures r == Some(m)
  {
    var stored := Marshal.MarshalEnergyData(m);
    r := UnmarshalEnergyData(NO_ENERGY_DATA, stored);
    EnergyDataRoundTrip(m);
  }
}
