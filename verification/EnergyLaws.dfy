/** Who may do what to the energy module, under which limits, and what exactly it changes:
    stated message by message in numbers and lists, and over runs. */
module EnergyLaws {
  import opened Machine
  import opened Messages
  import opened EnergyState
  import opened EnergyRuns
  import EnergyKeeper
  import EnergyRates
  import Ids
  import Merkle
  import Store

  // ------------------------------------------------------------------ parameters

  /** The ranges parameters must lie in. */
  predicate InRange(p: Params) {
    && 1 <= p.maxBatchSize <= 10_000
    && 128 <= p.maxMetadataSize <= 65_536
    && 0 <= p.maxSubmissions <= 10_000
  }

  lemma ParamsAre(s: State)
    ensures s.params.None? ==> ParamsOf(s) == Params(100, [], true, 4_096, 100)
    ensures s.params.Some? ==> ParamsOf(s) == s.params.value
    ensures forall p :: ValidParams(p) <==> InRange(p)
  {
  }

  /** An update is accepted if and only if the authority signed it and its parameters are in
      range; then they are all that changes, and otherwise nothing does. */
  lemma UpdateIff(c: Chain, s: State, b: Block, signer: Bytes, p: Params)
    ensures Handle(c, s, b, UpdateParams(signer, p)).Some? <==> signer == c.authority && InRange(p)
    ensures Deliver(c, s, b, UpdateParams(signer, p))
         == if signer == c.authority && InRange(p) then s.(params := Some(p)) else s
  {
  }

  /** The upgrade raises a cap below 8192 to 8192, if the other parameters are in range, and
      changes nothing else. */
  lemma UpgradeIs(c: Chain, s: State)
    ensures var p, t := ParamsOf(s), After(c, s, Upgrade);
            if p.maxMetadataSize < 8_192 && 1 <= p.maxBatchSize <= 10_000 && p.maxSubmissions <= 10_000
            then t == s.(params := Some(p.(maxMetadataSize := 8_192)))
            else t == s
  {
  }

  /** A block begins with no submissions counted. */
  lemma NewBlockIs(c: Chain, s: State)
    ensures After(c, s, NewBlock) == s.(counts := map[])
  {
  }

  /** Whether an event may change the parameters. */
  predicate SetsParams(c: Chain, e: Event) {
    e.Upgrade? || (e.Run? && e.msg.UpdateParams? && e.msg.authority == c.authority && InRange(e.msg.params))
  }

  lemma EventParams(c: Chain, s: State, e: Event)
    requires !SetsParams(c, e)
    ensures After(c, s, e).params == s.params
  {
    hide Ids.Print, Merkle.Accepts, Recorded, Batched;
    match e {
      case Run(b, m) =>
        if Handle(c, s, b, m).Some? {
          match m {
            case Submit(submitter, category, dataHash, metadata) =>
              EnergyRates.RecordedKeeps(Counted(s, submitter).value, b, submitter, category, BatchItem(dataHash, metadata));
            case Batch(submitter, category, items, root) =>
              EnergyRates.BatchedKeeps(Counted(s, submitter).value, b, submitter, category, items, root);
            case UpdateParams(signer, p) =>
              UpdateIff(c, s, b, signer, p);
          }
        }
      case NewBlock =>
      case Upgrade =>
    }
  }

  /** Over every run: parameters that changed were changed by an upgrade, or by an update
      that the authority signed and that is in range. */
  lemma {:induction false} ParamsChangedBy(c: Chain, s: State, es: seq<Event>)
    requires AfterAll(c, s, es).params != s.params
    ensures exists i :: 0 <= i < |es| && SetsParams(c, es[i])
    decreases |es|
  {
    hide After, SetsParams;
    if es != [] && !SetsParams(c, es[0]) {
      EventParams(c, s, es[0]);
      ParamsChangedBy(c, After(c, s, es[0]), es[1..]);
      var i :| 0 <= i < |es[1..]| && SetsParams(c, es[1..][i]);
      assert es[i + 1] == es[1..][i];
    }
  }

  // ------------------------------------------------------------------ submissions

  /** Whether a submitter may submit, and has not used up its submissions in this block. */
  predicate MaySubmit(s: State, who: Bytes) {
    var p := ParamsOf(s);
    && (p.permissionless || exists i :: 0 <= i < |p.allowedSubmitters| && p.allowedSubmitters[i] == who)
    && (p.maxSubmissions == 0 || who !in s.counts || s.counts[who] < p.maxSubmissions)
  }

  predicate SmallEnough(s: State, metadata: Bytes) {
    ParamsOf(s).maxMetadataSize == 0 || |metadata| % 0x1_0000_0000 <= ParamsOf(s).maxMetadataSize
  }

  /** The counters after one more submission, which is counted only under a limit. */
  function CountsAfter(s: State, who: Bytes): map<Bytes, uint32>
    requires ParamsOf(s).maxSubmissions == 0 || who !in s.counts || s.counts[who] < ParamsOf(s).maxSubmissions
  {
    if ParamsOf(s).maxSubmissions == 0 then s.counts
    else s.counts[who := (if who in s.counts then s.counts[who] else 0) + 1]
  }

  lemma CountedIff(s: State, who: Bytes)
    requires ParamsOf(s).maxSubmissions == 0 || who !in s.counts || s.counts[who] < ParamsOf(s).maxSubmissions
    ensures Counted(s, who).Some? && Counted(s, who).value == s.(counts := Counted(s, who).value.counts)
    ensures Counted(s, who).value.counts == CountsAfter(s, who)
  {
  }

  lemma CountedOrNot(s: State, who: Bytes)
    ensures Counted(s, who).Some? <==>
            ParamsOf(s).maxSubmissions == 0 || who !in s.counts || s.counts[who] < ParamsOf(s).maxSubmissions
  {
    if who in s.counts && ParamsOf(s).maxSubmissions == 0 {
    }
  }

  /** A submission is accepted if and only if its submitter may submit and its metadata is
      small enough; then exactly one record is stored, under the next identifier and in both
      indexes, and counted; otherwise nothing changes. */
  lemma SubmitIff(c: Chain, s: State, b: Block, who: Bytes, category: Bytes, dataHash: Bytes, metadata: Bytes)
    ensures var m := Submit(who, category, dataHash, metadata);
            var id := Ids.Print((s.sequence + 1) % 0x1_0000_0000_0000_0000);
            && (Handle(c, s, b, m).Some? <==> MaySubmit(s, who) && SmallEnough(s, metadata))
            && Deliver(c, s, b, m) ==
               if MaySubmit(s, who) && SmallEnough(s, metadata)
               then State(s.params, (s.sequence + 1) % 0x1_0000_0000_0000_0000,
                          s.records[id := EnergyData(id, category, who, dataHash, metadata, b.height, b.time)],
                          s.byCategory + {(category, id)}, s.bySubmitter + {(who, id)},
                          s.batches, CountsAfter(s, who))
               else s
  {
    hide Ids.Print, Counted, CountsAfter;
    CountedOrNot(s, who);
    if MaySubmit(s, who) {
      CountedIff(s, who);
    }
  }

  /** A batch is accepted if and only if its submitter may submit, it is not too long, every
      item's metadata is small enough, and its items have the root declared; then it is
      counted once; otherwise nothing changes. */
  lemma BatchIff(c: Chain, s: State, b: Block, who: Bytes, category: Bytes, items: seq<BatchItem>, root: Bytes)
    ensures var m := Batch(who, category, items, root);
            var accepted := && MaySubmit(s, who) && |items| % 0x1_0000_0000 <= ParamsOf(s).maxBatchSize
                            && (forall i :: 0 <= i < |items| ==> SmallEnough(s, items[i].metadata))
                            && Merkle.Accepts(c.h, Hashes(items), root);
            && (Handle(c, s, b, m).Some? <==> accepted)
            && (accepted ==> Deliver(c, s, b, m).counts == CountsAfter(s, who) && Deliver(c, s, b, m).params == s.params)
            && (!accepted ==> Deliver(c, s, b, m) == s)
  {
    hide Ids.Print, Counted, CountsAfter, Merkle.Accepts, Batched;
    CountedOrNot(s, who);
    forall i | 0 <= i < |items|
      ensures SmallEnough(s, items[i].metadata) <==> !OverCap(ParamsOf(s).maxMetadataSize, |items[i].metadata|)
    {
    }
    if MaySubmit(s, who) {
      CountedIff(s, who);
      EnergyRates.BatchedKeeps(Counted(s, who).value, b, who, category, items, root);
    }
  }

  /** A run during which `who` is never allowed to submit. */
  ghost predicate NeverAllowed(c: Chain, s: State, es: seq<Event>, who: Bytes)
    decreases |es|
  {
    && !ParamsOf(s).permissionless && who !in ParamsOf(s).allowedSubmitters
    && (es != [] ==> NeverAllowed(c, After(c, s, es[0]), es[1..], who))
  }

  /** Someone not on the list stores nothing, over every run. */
  lemma {:induction false} UnlistedStoresNothing(c: Chain, s: State, es: seq<Event>, who: Bytes)
    requires Numbered(s) && s.sequence + Costs(es) < TWO_64 && NeverAllowed(c, s, es, who)
    ensures EnergyRates.RecordsOf(AfterAll(c, s, es), who) == EnergyRates.RecordsOf(s, who)
    ensures EnergyRates.AcceptedBy(c, s, es, who) == 0
    decreases |es|
  {
    hide After, EnergyRates.RecordsOf, Numbered, Cost, EnergyRates.Accepted, EnergyRates.By;
    if es != [] {
      UnlistedEvent(c, s, es[0], who);
      EventAppends(c, s, es[0]);
      UnlistedStoresNothing(c, After(c, s, es[0]), es[1..], who);
    }
  }

  lemma UnlistedEvent(c: Chain, s: State, e: Event, who: Bytes)
    requires Numbered(s) && s.sequence + Cost(e) < TWO_64
    requires !ParamsOf(s).permissionless && who !in ParamsOf(s).allowedSubmitters
    ensures EnergyRates.RecordsOf(After(c, s, e), who) == EnergyRates.RecordsOf(s, who)
    ensures !(EnergyRates.By(e, who) && EnergyRates.Accepted(c, s, e))
  {
    hide Ids.Print, Merkle.Accepts, Recorded, Batched, EnergyRates.RecordsOf, Numbered, NumberWithin;
    var t := After(c, s, e);
    match e {
      case Run(b, m) =>
        match m {
          case Submit(submitter, category, dataHash, metadata) =>
            SubmitIff(c, s, b, submitter, category, dataHash, metadata);
            if Handle(c, s, b, m).Some? {
              OtherRecord(s, t, NextID(s), submitter, who);
            }
          case Batch(submitter, category, items, root) =>
            BatchIff(c, s, b, submitter, category, items, root);
            if Handle(c, s, b, m).Some? {
              CountedIs(s, submitter);
              OtherBatch(Counted(s, submitter).value, b, submitter, category, items, root, who);
              EnergyRates.SameRecords(s, Counted(s, submitter).value, who);
            }
          case UpdateParams(_, _) =>
            EnergyRates.SameRecords(s, t, who);
        }
      case NewBlock =>
        EnergyRates.SameRecords(s, t, who);
      case Upgrade =>
        EnergyRates.SameRecords(s, t, who);
    }
  }

  lemma OtherRecord(s: State, t: State, id: Bytes, submitter: Bytes, who: Bytes)
    requires Numbered(s) && s.sequence + 1 < TWO_64 && id == NextID(s) && submitter != who
    requires id in t.records && t.records[id].submitter == submitter && t.records == s.records[id := t.records[id]]
    ensures EnergyRates.RecordsOf(t, who) == EnergyRates.RecordsOf(s, who)
  {
    hide Ids.Print, NumberWithin, Numbered;
    NextIsFresh(s);
  }

  lemma OtherBatch(s: State, b: Block, submitter: Bytes, category: Bytes, items: seq<BatchItem>, root: Bytes, who: Bytes)
    requires Numbered(s) && s.sequence + 1 + |items| < TWO_64 && submitter != who
    ensures EnergyRates.RecordsOf(Batched(s, b, submitter, category, items, root), who) == EnergyRates.RecordsOf(s, who)
  {
    hide Ids.Print, NumberWithin, Numbered, AllRecorded, EnergyRates.RecordsOf;
    NextIsFresh(s);
    NumberedMore(s, s.sequence + 1);
    OtherItems(Advanced(s), b, submitter, category, items, who);
    EnergyRates.SameRecords(s, Advanced(s), who);
    EnergyRates.SameRecords(AllRecorded(Advanced(s), b, submitter, category, items),
                            Batched(s, b, submitter, category, items, root), who);
  }

  lemma {:induction false} OtherItems(s: State, b: Block, submitter: Bytes, category: Bytes, items: seq<BatchItem>,
                                      who: Bytes)
    requires Numbered(s) && s.sequence + |items| < TWO_64 && submitter != who
    ensures EnergyRates.RecordsOf(AllRecorded(s, b, submitter, category, items), who) == EnergyRates.RecordsOf(s, who)
    decreases |items|
  {
    hide Ids.Print, NumberWithin, Numbered, Recorded, EnergyRates.RecordsOf;
    if items != [] {
      RecordedIs(s, b, submitter, category, items[0]);
      var t := Recorded(s, b, submitter, category, items[0]);
      OtherRecord(s, t, NextID(s), submitter, who);
      OtherItems(t, b, submitter, category, items[1..], who);
    }
  }

  // ------------------------------------------------------------------ genesis

  /** Which genesis states validate, in ranges, empty texts and numbers of different
      identifiers. */
  lemma ValidGenesisIff(g: GenesisState)
    ensures ValidGenesis(g) <==>
            && InRange(g.params)
            && (forall i :: 0 <= i < |g.dataRecords| ==>
                  var d := g.dataRecords[i];
                  && |d.id| > 0 && |d.category| > 0 && |d.dataHash| > 0 && |d.submitter| > 0
                  && |d.metadata| % 0x1_0000_0000 <= g.params.maxMetadataSize)
            && (forall i :: 0 <= i < |g.batches| ==> |g.batches[i].id| > 0)
            && |set i | 0 <= i < |g.dataRecords| :: g.dataRecords[i].id| == |g.dataRecords|
            && |set i | 0 <= i < |g.batches| :: g.batches[i].id| == |g.batches|
  {
    hide ValidParams, InRange;
    ParamsRange(g.params);
    Store.AllDifferentIff(RecordIDs(g.dataRecords));
    Store.AllDifferentIff(BatchIDs(g.batches));
    RecordIDSet(g.dataRecords);
    BatchIDSet(g.batches);
    assert (forall i, j :: 0 <= i < j < |g.dataRecords| ==> g.dataRecords[i].id != g.dataRecords[j].id)
        == Store.AllDifferent(RecordIDs(g.dataRecords)) by {
      assert forall i :: 0 <= i < |g.dataRecords| ==> RecordIDs(g.dataRecords)[i] == g.dataRecords[i].id;
    }
    assert (forall i, j :: 0 <= i < j < |g.batches| ==> g.batches[i].id != g.batches[j].id)
        == Store.AllDifferent(BatchIDs(g.batches)) by {
      assert forall i :: 0 <= i < |g.batches| ==> BatchIDs(g.batches)[i] == g.batches[i].id;
    }
  }

  lemma RecordIDSet(ds: seq<EnergyData>)
    ensures (set i | 0 <= i < |ds| :: ds[i].id) == set i | 0 <= i < |RecordIDs(ds)| :: RecordIDs(ds)[i]
  {
    forall i | 0 <= i < |ds|
      ensures ds[i].id in set i | 0 <= i < |RecordIDs(ds)| :: RecordIDs(ds)[i]
    {
      assert RecordIDs(ds)[i] == ds[i].id;
    }
    forall i | 0 <= i < |ds|
      ensures RecordIDs(ds)[i] in set i | 0 <= i < |ds| :: ds[i].id
    {
      assert ds[i].id == RecordIDs(ds)[i];
    }
  }

  lemma BatchIDSet(bs: seq<BatchSubmission>)
    ensures (set i | 0 <= i < |bs| :: bs[i].id) == set i | 0 <= i < |BatchIDs(bs)| :: BatchIDs(bs)[i]
  {
    forall i | 0 <= i < |bs|
      ensures bs[i].id in set i | 0 <= i < |BatchIDs(bs)| :: BatchIDs(bs)[i]
    {
      assert BatchIDs(bs)[i] == bs[i].id;
    }
    forall i | 0 <= i < |bs|
      ensures BatchIDs(bs)[i] in set i | 0 <= i < |bs| :: bs[i].id
    {
      assert bs[i].id == BatchIDs(bs)[i];
    }
  }

  lemma ParamsRange(p: Params)
    ensures ValidParams(p) <==> InRange(p)
  {
  }

  /** What importing a genesis into an empty store gives: under each identifier the last
      record listed with it, and nothing else. */
  lemma ImportedRecords(g: GenesisState)
    ensures var s, ds := Imported(EMPTY, g), g.dataRecords;
            && (forall i :: 0 <= i < |ds| && (forall j :: i < j < |ds| ==> ds[j].id != ds[i].id)
                  ==> ds[i].id in s.records && s.records[ds[i].id] == ds[i])
            && (forall id :: id in s.records ==> exists i :: 0 <= i < |ds| && ds[i].id == id)
  {
    hide Imported, GenesisHighest, Store.PutAll, Store.AddAll;
    ImportedIs(g);
    var s, ds := Imported(EMPTY, g), g.dataRecords;
    var none: map<Bytes, EnergyData> := map[];
    forall i | 0 <= i < |ds| && forall j :: i < j < |ds| ==> ds[j].id != ds[i].id
      ensures ds[i].id in s.records && s.records[ds[i].id] == ds[i]
    {
      Store.PutAllLast(none, RecordID, ds, i);
    }
    forall id | id in s.records
      ensures exists i :: 0 <= i < |ds| && ds[i].id == id
    {
      Store.PutAllKeys(none, RecordID, ds, id);
      var i :| 0 <= i < |ds| && RecordID(ds[i]) == id;
    }
  }

  /** The same for batches. */
  lemma ImportedBatches(g: GenesisState)
    ensures var s, bs := Imported(EMPTY, g), g.batches;
            && (forall i :: 0 <= i < |bs| && (forall j :: i < j < |bs| ==> bs[j].id != bs[i].id)
                  ==> bs[i].id in s.batches && s.batches[bs[i].id] == bs[i])
            && (forall id :: id in s.batches ==> exists i :: 0 <= i < |bs| && bs[i].id == id)
  {
    hide Imported, GenesisHighest, Store.PutAll, Store.AddAll;
    ImportedIs(g);
    var s, bs := Imported(EMPTY, g), g.batches;
    var none: map<Bytes, BatchSubmission> := map[];
    forall i | 0 <= i < |bs| && forall j :: i < j < |bs| ==> bs[j].id != bs[i].id
      ensures bs[i].id in s.batches && s.batches[bs[i].id] == bs[i]
    {
      Store.PutAllLast(none, BatchID, bs, i);
    }
    forall id | id in s.batches
      ensures exists i :: 0 <= i < |bs| && bs[i].id == id
    {
      Store.PutAllKeys(none, BatchID, bs, id);
      var i :| 0 <= i < |bs| && BatchID(bs[i]) == id;
    }
  }

  /** Its parameters, and an index entry for each record listed. */
  lemma ImportedIndexes(g: GenesisState)
    ensures var s, ds := Imported(EMPTY, g), g.dataRecords;
            && s.params == Some(g.params) && s.counts == map[]
            && s.byCategory == (set i | 0 <= i < |ds| :: (ds[i].category, ds[i].id))
            && s.bySubmitter == (set i | 0 <= i < |ds| :: (ds[i].submitter, ds[i].id))
  {
    hide Highest, Store.PutAll, Store.AddAll;
    ImportedIs(g);
    Store.AddAllIs({}, DataCategory, g.dataRecords);
    Store.AddAllIs({}, DataSubmitter, g.dataRecords);
  }

  /** The imported sequence: at least the one given and every number found, and no more. */
  lemma ImportedSequence(g: GenesisState)
    ensures var n := Imported(EMPTY, g).sequence;
            && g.nextID <= n
            && (forall i :: 0 <= i < |g.dataRecords| ==> NumberWithin(g.dataRecords[i].id, n))
            && (forall i :: 0 <= i < |g.batches| ==> NumberWithin(g.batches[i].id, n))
            && (n == g.nextID
                || (exists i :: 0 <= i < |g.dataRecords| && Ids.Parse(g.dataRecords[i].id) == Some(n))
                || (exists i :: 0 <= i < |g.batches| && Ids.Parse(g.batches[i].id) == Some(n)))
  {
    hide NumberWithin, Ids.Parse, Imported;
    ImportedIs(g);
    HighestCoversRecords(g);
    var r, b := RecordIDs(g.dataRecords), BatchIDs(g.batches);
    HighestBounds(r, g.nextID);
    HighestBounds(b, Highest(r, g.nextID));
    var n := GenesisHighest(g);
    if n != Highest(r, g.nextID) {
      var i :| 0 <= i < |b| && Ids.Parse(b[i]) == Some(n);
      assert Ids.Parse(g.batches[i].id) == Some(n);
    } else if n != g.nextID {
      var i :| 0 <= i < |r| && Ids.Parse(r[i]) == Some(n);
      assert Ids.Parse(g.dataRecords[i].id) == Some(n);
    }
  }

  /** An export lists records and batches in the dictionary order of their identifiers. */
  lemma ExportInOrder(s: State)
    requires Indexed(s)
    ensures var g := Exported(s);
            && g.params == ParamsOf(s) && g.nextID == s.sequence
            && |g.dataRecords| == |s.records| && |g.batches| == |s.batches|
            && (forall i, j :: 0 <= i < j < |g.dataRecords| ==> Store.Precedes(g.dataRecords[i].id, g.dataRecords[j].id))
            && (forall i, j :: 0 <= i < j < |g.batches| ==> Store.Precedes(g.batches[i].id, g.batches[j].id))
  {
    hide BytesLe, Store.Precedes, Store.IndexOf;
    Store.TextOrder();
    Store.ValuesInOrder(s.records, RecordID);
    Store.ValuesInOrder(s.batches, BatchID);
  }

  // ------------------------------------------------------------------ checkers

  /** What the checkers look for: a record numbered above the sequence, an index entry
      without its record, and metadata above a cap that is set. */
  lemma HealthyIff(s: State)
    ensures EnergyKeeper.Healthy(s) <==>
            && (forall id, n :: id in s.records && Ids.Parse(s.records[id].id) == Some(n) ==> n <= s.sequence)
            && (forall category, id :: (category, id) in s.byCategory ==>
                  id in s.records && s.records[id].category == category)
            && (forall who, id :: (who, id) in s.bySubmitter ==> id in s.records && s.records[id].submitter == who)
            && (forall id :: id in s.records ==> SmallEnough(s, s.records[id].metadata))
  {
    hide Ids.Parse;
    SequenceIff(s);
    CategoryIff(s);
    SubmitterIff(s);
    MetadataIff(s);
  }

  lemma SequenceIff(s: State)
    ensures EnergyKeeper.SequenceCovers(s) <==>
            forall id, n :: id in s.records && Ids.Parse(s.records[id].id) == Some(n) ==> n <= s.sequence
  {
    hide Ids.Parse;
    if forall id, n :: id in s.records && Ids.Parse(s.records[id].id) == Some(n) ==> n <= s.sequence {
      forall id | id in s.records
        ensures NumberWithin(s.records[id].id, s.sequence)
      {
        if Ids.Parse(s.records[id].id).Some? {
          assert Ids.Parse(s.records[id].id) == Some(Ids.Parse(s.records[id].id).value);
        }
      }
    }
  }

  lemma CategoryIff(s: State)
    ensures EnergyKeeper.CategoryEntriesMatch(s) <==>
            forall category, id :: (category, id) in s.byCategory ==> id in s.records && s.records[id].category == category
  {
    if forall category, id :: (category, id) in s.byCategory ==> id in s.records && s.records[id].category == category {
      forall k | k in s.byCategory
        ensures EnergyKeeper.CategoryEntryMatches(s, k)
      {
        assert k == (k.0, k.1);
      }
    }
    if EnergyKeeper.CategoryEntriesMatch(s) {
      forall category, id | (category, id) in s.byCategory
        ensures id in s.records && s.records[id].category == category
      {
        assert EnergyKeeper.CategoryEntryMatches(s, (category, id));
      }
    }
  }

  lemma SubmitterIff(s: State)
    ensures EnergyKeeper.SubmitterEntriesMatch(s) <==>
            forall who, id :: (who, id) in s.bySubmitter ==> id in s.records && s.records[id].submitter == who
  {
    if forall who, id :: (who, id) in s.bySubmitter ==> id in s.records && s.records[id].submitter == who {
      forall k | k in s.bySubmitter
        ensures EnergyKeeper.SubmitterEntryMatches(s, k)
      {
        assert k == (k.0, k.1);
      }
    }
    if EnergyKeeper.SubmitterEntriesMatch(s) {
      forall who, id | (who, id) in s.bySubmitter
        ensures id in s.records && s.records[id].submitter == who
      {
        assert EnergyKeeper.SubmitterEntryMatches(s, (who, id));
      }
    }
  }

  lemma MetadataIff(s: State)
    ensures EnergyKeeper.MetadataWithinCap(s) <==> forall id :: id in s.records ==> SmallEnough(s, s.records[id].metadata)
  {
    forall id | id in s.records
      ensures SmallEnough(s, s.records[id].metadata) <==> !OverCap(ParamsOf(s).maxMetadataSize, |s.records[id].metadata|)
    {
    }
  }
}
