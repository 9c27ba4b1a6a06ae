/** Exactly when the energy module's own export would be accepted as a genesis, and that it
    is along every run that does not lower the metadata cap. */
module EnergyExports {
  import opened Machine
  import opened Messages
  import opened EnergyState
  import opened EnergyRuns
  import EnergyKeeper
  import Ids
  import Merkle
  import Store

  ghost predicate Exportable(s: State) {
    && ValidParams(ParamsOf(s))
    && (forall id :: id in s.records ==> ValidRecord(ParamsOf(s), s.records[id]))
    && (forall id :: id in s.batches ==> id != [])
  }

  function Complies(p: Params): EnergyData -> bool {
    (d: EnergyData) => ValidRecord(p, d)
  }

  function HasID(b: BatchSubmission): bool {
    b.id != []
  }

  lemma RecordsComply(s: State)
    requires Store.TotalOrder(BytesLe) && Store.UnderOwnKey(s.records, RecordID)
    ensures var ds, p := Exported(s).dataRecords, ParamsOf(s);
            && ((forall i :: 0 <= i < |ds| ==> ValidRecord(p, ds[i]))
                <==> (forall id :: id in s.records ==> ValidRecord(p, s.records[id])))
            && forall i, j :: 0 <= i < j < |ds| ==> ds[i].id != ds[j].id
  {
    hide BytesLe, ValidRecord, Store.TotalOrder, Store.Walk;
    var ds, p := Exported(s).dataRecords, ParamsOf(s);
    Store.ValuesAll(BytesLe, s.records, Complies(p));
    Store.ValuesDistinct(BytesLe, s.records, RecordID);
    assert forall d :: Complies(p)(d) == ValidRecord(p, d);
    assert forall i :: 0 <= i < |ds| ==> RecordID(ds[i]) == ds[i].id;
  }

  lemma BatchesNamed(s: State)
    requires Store.TotalOrder(BytesLe) && Store.UnderOwnKey(s.batches, BatchID)
    ensures var bs := Exported(s).batches;
            && ((forall i :: 0 <= i < |bs| ==> bs[i].id != []) <==> (forall id :: id in s.batches ==> id != []))
            && forall i, j :: 0 <= i < j < |bs| ==> bs[i].id != bs[j].id
  {
    hide BytesLe, Store.TotalOrder, Store.Walk;
    var bs := Exported(s).batches;
    Store.ValuesAll(BytesLe, s.batches, HasID);
    Store.ValuesDistinct(BytesLe, s.batches, BatchID);
    assert forall i :: 0 <= i < |bs| ==> BatchID(bs[i]) == bs[i].id && HasID(bs[i]) == (bs[i].id != []);
    assert forall id :: id in s.batches ==> BatchID(s.batches[id]) == id && HasID(s.batches[id]) == (id != []);
  }

  lemma OwnIdentifiers(s: State)
    requires Indexed(s)
    ensures Store.UnderOwnKey(s.records, RecordID) && Store.UnderOwnKey(s.batches, BatchID)
  {
  }

  /** An export validates if and only if the parameters are valid, every record is complete
      and within the cap, and no batch has an empty identifier. */
  lemma ExportValidIff(s: State)
    requires Indexed(s)
    ensures ValidGenesis(Exported(s)) <==> Exportable(s)
  {
    hide Indexed, ValidRecord, ValidParams, BytesLe, Store.TotalOrder, Store.Walk, Store.UnderOwnKey;
    Store.TextOrder();
    OwnIdentifiers(s);
    RecordsComply(s);
    BatchesNamed(s);
  }

  // ------------------------------------------------------------------ over runs

  /** What the basic validation of messages asks for. */
  predicate Basic(e: Event) {
    e.Run? ==>
      match e.msg
      case Submit(submitter, category, dataHash, _) => submitter != [] && category != [] && dataHash != []
      case Batch(submitter, category, items, _) =>
        submitter != [] && category != [] && forall i :: 0 <= i < |items| ==> items[i].dataHash != []
      case UpdateParams(_, _) => true
  }

  /** Records with all their texts, and no identifier empty. */
  ghost predicate Filled(s: State) {
    && (forall id :: id in s.records ==> FilledRecord(s.records[id]))
    && (forall id :: id in s.batches ==> id != [])
  }

  predicate FilledRecord(d: EnergyData) {
    d.id != [] && d.category != [] && d.dataHash != [] && d.submitter != []
  }

  lemma {:induction false} AllRecordedFilled(s: State, b: Block, submitter: Bytes, category: Bytes, items: seq<BatchItem>)
    requires Filled(s) && submitter != [] && category != []
    requires forall i :: 0 <= i < |items| ==> items[i].dataHash != []
    ensures Filled(AllRecorded(s, b, submitter, category, items))
    decreases |items|
  {
    if items != [] {
      assert forall i :: 0 <= i < |items[1..]| ==> items[1..][i] == items[i + 1];
      RecordedFilled(s, b, submitter, category, items[0]);
      AllRecordedFilled(Recorded(s, b, submitter, category, items[0]), b, submitter, category, items[1..]);
    }
  }

  lemma RecordedFilled(s: State, b: Block, submitter: Bytes, category: Bytes, item: BatchItem)
    requires Filled(s) && submitter != [] && category != [] && item.dataHash != []
    ensures Filled(Recorded(s, b, submitter, category, item))
  {
    PrintedNotEmpty(s);
  }

  lemma PrintedNotEmpty(s: State)
    ensures NextID(s) != []
  {
    assert |Ids.Print((s.sequence + 1) % TWO_64)| >= |Ids.PREFIX|;
  }

  lemma EventFilled(c: Chain, s: State, e: Event)
    requires Filled(s) && Basic(e)
    ensures Filled(After(c, s, e))
  {
    hide Ids.Print, AllRecorded, Merkle.Accepts, Recorded, FilledRecord;
    if e.Run? && Handle(c, s, e.block, e.msg).Some? {
      match e.msg {
        case Submit(submitter, category, dataHash, metadata) =>
          CountedIs(s, submitter);
          RecordedFilled(Counted(s, submitter).value, e.block, submitter, category, BatchItem(dataHash, metadata));
        case Batch(submitter, category, items, root) =>
          CountedIs(s, submitter);
          PrintedNotEmpty(Counted(s, submitter).value);
          AllRecordedFilled(Advanced(Counted(s, submitter).value), e.block, submitter, category, items);
        case UpdateParams(_, _) =>
      }
    }
  }

  lemma {:induction false} RunFilled(c: Chain, s: State, es: seq<Event>)
    requires Filled(s) && forall i :: 0 <= i < |es| ==> Basic(es[i])
    ensures Filled(AfterAll(c, s, es))
    decreases |es|
  {
    hide After, Filled, Basic;
    if es != [] {
      EventFilled(c, s, es[0]);
      assert forall i :: 0 <= i < |es[1..]| ==> es[1..][i] == es[i + 1];
      RunFilled(c, After(c, s, es[0]), es[1..]);
    }
  }

  lemma ImportFilled(g: GenesisState)
    requires ValidGenesis(g)
    ensures Filled(Imported(EMPTY, g))
  {
    hide Highest;
    ImportedIs(g);
    var s := Imported(EMPTY, g);
    forall id | id in s.records
      ensures FilledRecord(s.records[id])
    {
      PutAllValue(EMPTY.records, g.dataRecords, id);
    }
    forall id | id in s.batches
      ensures id != []
    {
      Store.PutAllKeys(map[], BatchID, g.batches, id);
    }
  }

  lemma FilledExportable(s: State)
    requires Filled(s) && ValidParams(ParamsOf(s)) && EnergyKeeper.MetadataWithinCap(s)
    ensures Exportable(s)
  {
    forall id | id in s.records
      ensures ValidRecord(ParamsOf(s), s.records[id])
    {
      assert FilledRecord(s.records[id]) && !OverCap(ParamsOf(s).maxMetadataSize, |s.records[id].metadata|);
    }
  }

  /** From a validated genesis, along every run of messages that pass their basic validation
      and never lower the cap, the export is a valid genesis again. */
  lemma ExportsStayValid(c: Chain, g: GenesisState, es: seq<Event>)
    requires ValidGenesis(g) && Imported(EMPTY, g).sequence + Costs(es) < TWO_64
    requires NeverLowers(c, Imported(EMPTY, g), es) && forall i :: 0 <= i < |es| ==> Basic(es[i])
    ensures ValidGenesis(Exported(AfterAll(c, Imported(EMPTY, g), es)))
  {
    hide Imported, Exported, AfterAll, Costs, NeverLowers, ValidGenesis, EnergyKeeper.MetadataWithinCap;
    hide Filled, Indexed, Exportable, Basic, ValidParams;
    var s := AfterAll(c, Imported(EMPTY, g), es);
    ImportSound(g);
    ImportWithinCap(g);
    ImportFilled(g);
    RunSound(c, Imported(EMPTY, g), es);
    RunWithinCap(c, Imported(EMPTY, g), es);
    RunFilled(c, Imported(EMPTY, g), es);
    FilledExportable(s);
    ExportValidIff(s);
  }

  /** An accepted update keeps a valid export valid if and only if the longest metadata in it
      fits the new cap. */
  lemma UpdateKeepsExportIff(c: Chain, s: State, b: Block, p: Params)
    requires Indexed(s) && ValidGenesis(Exported(s))
    requires Handle(c, s, b, UpdateParams(c.authority, p)).Some?
    ensures ValidGenesis(Exported(Deliver(c, s, b, UpdateParams(c.authority, p))))
       <==> Longest(Exported(s).dataRecords) <= p.maxMetadataSize
  {
    hide ValidGenesis, Exported, Longest;
    var t := Deliver(c, s, b, UpdateParams(c.authority, p));
    OtherwiseIndexed(s, t);
    ExportValidIff(s);
    ExportValidIff(t);
    UpdateKeepsCapIff(c, s, b, p);
    forall id | id in s.records
      ensures ValidRecord(p, s.records[id]) <==> !OverCap(p.maxMetadataSize, |s.records[id].metadata|)
    {
      assert ValidRecord(ParamsOf(s), s.records[id]);
    }
  }

  /** It happens: an update of the cap from 4096 to 128 over one stored record of 200 bytes
      is accepted, and the export of a chain with a valid genesis is no longer one. */
  lemma UpdateInstance(c: Chain, b: Block)
    ensures exists g, p ::
              var s := Imported(EMPTY, g);
              && ValidGenesis(g) && ValidGenesis(Exported(s))
              && Handle(c, s, b, UpdateParams(c.authority, p)).Some?
              && !ValidGenesis(Exported(Deliver(c, s, b, UpdateParams(c.authority, p))))
  {
    hide Imported, Exported, Indexed, Exportable, ValidGenesis;
    var g, p := LongGenesis(), DEFAULT_PARAMS.(maxMetadataSize := 128);
    LongIsValid();
    ImportSound(g);
    ExportsStayValid(c, g, []);
    var s := Imported(EMPTY, g);
    ImportedParams(g);
    var t := Deliver(c, s, b, UpdateParams(c.authority, p));
    OtherwiseIndexed(s, t) by { assert Indexed(s); OwnBatches(s); }
    ExportValidIff(t);
    LongNotExportable(t);
  }

  function LongGenesis(): GenesisState {
    GenesisState(DEFAULT_PARAMS, [EnergyData([1], [1], [1], [1], seq(200, i => 0), 0, 0)], [], 0)
  }

  lemma LongIsValid()
    ensures ValidGenesis(LongGenesis())
  {
  }

  lemma OwnBatches(s: State)
    requires Indexed(s)
    ensures forall id :: id in s.batches ==> s.batches[id].id == id
  {
  }

  lemma ImportedParams(g: GenesisState)
    requires g == LongGenesis()
    ensures Imported(EMPTY, g).params == Some(g.params)
    ensures Imported(EMPTY, g).records == map[[1] := g.dataRecords[0]]
    ensures Imported(EMPTY, g).sequence < TWO_64
  {
    hide Highest;
    ImportedIs(g);
    assert g.dataRecords[1..] == [];
  }

  lemma LongNotExportable(t: State)
    requires ParamsOf(t).maxMetadataSize == 128 && t.records == map[[1] := LongGenesis().dataRecords[0]]
    ensures !Exportable(t)
  {
    assert [1] in t.records && !ValidRecord(ParamsOf(t), t.records[[1]]);
  }
}
