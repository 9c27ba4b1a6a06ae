/** The energy keeper and message server: fields written one after the other, each
    operation proved against the state machine; and the four runtime checkers. */
module EnergyKeeper {
  import opened Machine
  import opened Messages
  import opened EnergyState
  import Ids
  import Merkle
  import Store

  class Keeper {
    const authority: Bytes
    const hash: Merkle.Hash

    var params: Option<Params>
    var idSequence: uint64
    var energyData: map<Bytes, EnergyData>
    var byCategory: set<(Bytes, Bytes)>
    var bySubmitter: set<(Bytes, Bytes)>
    var batches: map<Bytes, BatchSubmission>
    var submitCounts: map<Bytes, uint32>

    /** The stored state, all of it. */
    function View(): State
      reads this
    {
      State(params, idSequence, energyData, byCategory, bySubmitter, batches, submitCounts)
    }

    function ChainOf(): Chain {
      Chain(hash, authority)
    }

    constructor (authority: Bytes, hash: Merkle.Hash)
      ensures this.authority == authority && this.hash == hash && View() == EMPTY
    {
      this.authority, this.hash := authority, hash;
      params, idSequence, energyData := None, 0, map[];
      byCategory, bySubmitter, batches, submitCounts := {}, {}, map[], map[];
    }

    // ---------------------------------------------------------------- keeper

    method GenerateID() returns (id: Bytes)
      modifies `idSequence
      ensures id == old(NextID(View())) && View() == old(Advanced(View()))
    {
      var seqNo := idSequence;
      idSequence := (seqNo + 1) % TWO_64;
      id := Ids.Print((seqNo + 1) % TWO_64);
    }

    method SubmitEnergyData(data: EnergyData)
      modifies `energyData, `byCategory, `bySubmitter
      ensures View() == old(Stored(View(), data))
    {
      energyData := energyData[data.id := data];
      byCategory := byCategory + {(data.category, data.id)};
      bySubmitter := bySubmitter + {(data.submitter, data.id)};
    }

    method SubmitBatch(batch: BatchSubmission)
      modifies `batches
      ensures View() == old(View()).(batches := old(batches)[batch.id := batch])
    {
      batches := batches[batch.id := batch];
    }

    method IsAllowedSubmitter(address: Bytes) returns (ok: bool)
      ensures ok == Allowed(ParamsOf(View()), address)
    {
      var p := ParamsOf(View());
      if p.permissionless {
        return true;
      }
      for i := 0 to |p.allowedSubmitters|
        invariant address !in p.allowedSubmitters[..i]
      {
        if p.allowedSubmitters[i] == address {
          return true;
        }
      }
      return false;
    }

    method CheckAndIncrSubmitCount(addr: Bytes) returns (ok: bool)
      modifies `submitCounts
      ensures ok == old(Counted(View(), addr)).Some?
      ensures View() == if ok then old(Counted(View(), addr)).value else old(View())
    {
      var limit := ParamsOf(View()).maxSubmissions;
      if limit == 0 {
        return true;
      }
      var count := 0;
      if addr in submitCounts {
        count := submitCounts[addr];
      }
      if count >= limit {
        return false;
      }
      count := count + 1;
      submitCounts := submitCounts[addr := count];
      return true;
    }

    // ---------------------------------------------------------------- messages

    method HandleSubmit(b: Block, submitter: Bytes, category: Bytes, dataHash: Bytes, metadata: Bytes)
      returns (ok: bool)
      modifies this
      ensures var r := old(Handle(ChainOf(), View(), b, Submit(submitter, category, dataHash, metadata)));
              ok == r.Some? && (ok ==> View() == r.value)
    {
      var allowed := IsAllowedSubmitter(submitter);
      if !allowed {
        return false;
      }
      var p := ParamsOf(View());
      if p.maxMetadataSize > 0 && |metadata| % TWO_32 > p.maxMetadataSize {
        return false;
      }
      var counted := CheckAndIncrSubmitCount(submitter);
      if !counted {
        return false;
      }
      var id := GenerateID();
      SubmitEnergyData(EnergyData(id, category, submitter, dataHash, metadata, b.height, b.time));
      return true;
    }

    method MetadataFits(items: seq<BatchItem>, cap: uint32) returns (ok: bool)
      ensures ok <==> !exists i :: 0 <= i < |items| && OverCap(cap, |items[i].metadata|)
    {
      if cap > 0 {
        for i := 0 to |items|
          invariant forall j :: 0 <= j < i ==> !OverCap(cap, |items[j].metadata|)
        {
          if |items[i].metadata| % TWO_32 > cap {
            assert OverCap(cap, |items[i].metadata|);
            return false;
          }
        }
      }
      return true;
    }

    method RecordItems(b: Block, submitter: Bytes, category: Bytes, items: seq<BatchItem>)
      modifies `idSequence, `energyData, `byCategory, `bySubmitter
      ensures View() == old(AllRecorded(View(), b, submitter, category, items))
    {
      ghost var goal := AllRecorded(View(), b, submitter, category, items);
      assert items[0..] == items;
      for i := 0 to |items|
        invariant goal == AllRecorded(View(), b, submitter, category, items[i..])
      {
        assert items[i..][1..] == items[i + 1..];
        var id := GenerateID();
        var item := items[i];
        SubmitEnergyData(EnergyData(id, category, submitter, item.dataHash, item.metadata, b.height, b.time));
      }
    }

    method HandleBatch(b: Block, submitter: Bytes, category: Bytes, items: seq<BatchItem>, merkleRoot: Bytes)
      returns (ok: bool)
      modifies this
      ensures var r := old(Handle(ChainOf(), View(), b, Batch(submitter, category, items, merkleRoot)));
              ok == r.Some? && (ok ==> View() == r.value)
    {
      hide Merkle.Accepts, Ids.Print, AllRecorded;
      var allowed := IsAllowedSubmitter(submitter);
      if !allowed {
        return false;
      }
      var p := ParamsOf(View());
      if |items| % TWO_32 > p.maxBatchSize {
        return false;
      }
      var fits := MetadataFits(items, p.maxMetadataSize);
      if !fits {
        return false;
      }
      var counted := CheckAndIncrSubmitCount(submitter);
      if !counted {
        return false;
      }
      var verified := Merkle.VerifyMerkleRoot(hash, Hashes(items), merkleRoot);
      if !verified {
        return false;
      }
      var batchID := GenerateID();
      RecordItems(b, submitter, category, items);
      SubmitBatch(BatchSubmission(batchID, submitter, category, |items| % TWO_32, merkleRoot, b.time));
      return true;
    }

    method HandleUpdateParams(b: Block, signer: Bytes, p: Params) returns (ok: bool)
      modifies `params
      ensures var r := old(Handle(ChainOf(), View(), b, UpdateParams(signer, p)));
              ok == r.Some? && (ok ==> View() == r.value)
    {
      if signer != authority {
        return false;
      }
      if !ValidParams(p) {
        return false;
      }
      params := Some(p);
      return true;
    }

    /** A message run on a branch of the store, which is dropped when it is refused. */
    method DeliverMsg(b: Block, m: Msg) returns (ok: bool)
      modifies this
      ensures View() == old(Deliver(ChainOf(), View(), b, m))
    {
      var saved := View();
      match m {
        case Submit(submitter, category, dataHash, metadata) =>
          ok := HandleSubmit(b, submitter, category, dataHash, metadata);
        case Batch(submitter, category, items, merkleRoot) =>
          ok := HandleBatch(b, submitter, category, items, merkleRoot);
        case UpdateParams(signer, p) =>
          ok := HandleUpdateParams(b, signer, p);
      }
      if !ok {
        params, idSequence, energyData := saved.params, saved.sequence, saved.records;
        byCategory, bySubmitter := saved.byCategory, saved.bySubmitter;
        batches, submitCounts := saved.batches, saved.counts;
      }
    }

    /** The parameter change of upgrade v1.0.1. */
    method BumpMetadataCap() returns (ok: bool)
      modifies `params
      ensures ok == old(Bumped(View())).Some?
      ensures View() == if ok then old(Bumped(View())).value else old(View())
    {
      var p := ParamsOf(View());
      if p.maxMetadataSize >= BUMPED_CAP {
        return true;
      }
      p := p.(maxMetadataSize := BUMPED_CAP);
      if !ValidParams(p) {
        return false;
      }
      params := Some(p);
      return true;
    }

    // ---------------------------------------------------------------- genesis

    method InitGenesis(g: GenesisState)
      modifies this
      ensures View() == old(Imported(View(), g))
    {
      hide Ids.Parse;
      params := Some(g.params);
      ghost var stored := AllStored(View(), g.dataRecords);
      assert g.dataRecords[0..] == g.dataRecords && g.batches[0..] == g.batches;
      for i := 0 to |g.dataRecords|
        invariant stored == AllStored(View(), g.dataRecords[i..])
      {
        assert g.dataRecords[i..][1..] == g.dataRecords[i + 1..];
        SubmitEnergyData(g.dataRecords[i]);
      }
      ghost var all := Store.PutAll(stored.batches, BatchID, g.batches);
      for i := 0 to |g.batches|
        invariant View() == stored.(batches := batches)
        invariant all == Store.PutAll(batches, BatchID, g.batches[i..])
      {
        assert g.batches[i..][1..] == g.batches[i + 1..];
        SubmitBatch(g.batches[i]);
      }
      var highest := RaiseTo(RecordIDs(g.dataRecords), g.nextID);
      highest := RaiseTo(BatchIDs(g.batches), highest);
      if highest > 0 {
        idSequence := highest;
      }
    }

    method RaiseTo(ids: seq<Bytes>, start: uint64) returns (highest: uint64)
      ensures highest == Highest(ids, start)
    {
      hide Ids.Parse;
      highest := start;
      assert ids[0..] == ids;
      for i := 0 to |ids|
        invariant Highest(ids, start) == Highest(ids[i..], highest)
      {
        assert ids[i..][1..] == ids[i + 1..];
        var n := Ids.ParseEnergyID(ids[i]);
        if n.Some? && n.value > highest {
          highest := n.value;
        }
      }
    }

    /** `GenesisState.Validate`, with the identifiers seen so far kept in a set. */
    static method ValidateGenesis(g: GenesisState) returns (ok: bool)
      ensures ok <==> ValidGenesis(g)
    {
      if !ValidParams(g.params) {
        return false;
      }
      var ids: set<Bytes> := {};
      for i := 0 to |g.dataRecords|
        invariant ids == set j | 0 <= j < i :: g.dataRecords[j].id
        invariant forall j :: 0 <= j < i ==> ValidRecord(g.params, g.dataRecords[j])
        invariant forall j, k :: 0 <= j < k < i ==> g.dataRecords[j].id != g.dataRecords[k].id
      {
        var d := g.dataRecords[i];
        if d.id == [] || d.id in ids {
          return false;
        }
        ids := ids + {d.id};
        if d.category == [] || d.dataHash == [] || d.submitter == [] {
          return false;
        }
        if |d.metadata| % TWO_32 > g.params.maxMetadataSize {
          return false;
        }
      }
      var batchIDs: set<Bytes> := {};
      for i := 0 to |g.batches|
        invariant batchIDs == set j | 0 <= j < i :: g.batches[j].id
        invariant forall j :: 0 <= j < i ==> g.batches[j].id != []
        invariant forall j, k :: 0 <= j < k < i ==> g.batches[j].id != g.batches[k].id
      {
        if g.batches[i].id == [] || g.batches[i].id in batchIDs {
          return false;
        }
        batchIDs := batchIDs + {g.batches[i].id};
      }
      return true;
    }

    method ExportGenesis() returns (g: GenesisState)
      ensures g == Exported(View())
    {
      Store.TextOrder();
      var records := Store.WalkValues(BytesLe, energyData);
      var submissions := Store.WalkValues(BytesLe, batches);
      g := GenesisState(ParamsOf(View()), records, submissions, idSequence);
    }

    // ---------------------------------------------------------------- checkers

    /** `IDSequenceMonotonicInvariant`: broken exactly when a stored record has a number
        above the sequence. */
    method IDSequenceBroken() returns (broken: bool)
      ensures broken <==> !SequenceCovers(View())
    {
      Store.TextOrder();
      var keys := Store.Walk(BytesLe, energyData.Keys);
      var ids := RecordIDs(Store.Values(energyData, keys));
      var maxSeen := RaiseTo(ids, 0);
      HighestBounds(ids, 0);
      broken := maxSeen > idSequence;
      CoversAll(View(), keys);
    }

    /** `ByCategoryConsistencyInvariant`: although the walk stops after ten findings, it is
        broken exactly when some index entry does not match its record. */
    method ByCategoryBroken() returns (broken: bool)
      ensures broken <==> !CategoryEntriesMatch(View())
    {
      hide Store.TotalOrder, BytesLe;
      Store.TextPairOrder();
      var keys := Store.Walk(Store.TextPairLe, byCategory);
      var dangling: seq<(Bytes, Bytes)> := [];
      var i := 0;
      while i < |keys|
        invariant 0 <= i <= |keys|
        invariant dangling == [] ==> forall j :: 0 <= j < i ==> CategoryEntryMatches(View(), keys[j])
        invariant forall k :: k in dangling ==> k in byCategory && !CategoryEntryMatches(View(), k)
      {
        var key := keys[i];
        i := i + 1;
        if key.1 !in energyData {
          dangling := dangling + [key];
          continue;
        }
        if energyData[key.1].category != key.0 {
          dangling := dangling + [key];
        }
        if |dangling| >= 10 {
          break;
        }
      }
      if |dangling| > 0 {
        assert dangling[0] in dangling;
        return true;
      }
      return false;
    }

    method BySubmitterBroken() returns (broken: bool)
      ensures broken <==> !SubmitterEntriesMatch(View())
    {
      hide Store.TotalOrder, BytesLe;
      Store.TextPairOrder();
      var keys := Store.Walk(Store.TextPairLe, bySubmitter);
      var dangling: seq<(Bytes, Bytes)> := [];
      var i := 0;
      while i < |keys|
        invariant 0 <= i <= |keys|
        invariant dangling == [] ==> forall j :: 0 <= j < i ==> SubmitterEntryMatches(View(), keys[j])
        invariant forall k :: k in dangling ==> k in bySubmitter && !SubmitterEntryMatches(View(), k)
      {
        var key := keys[i];
        i := i + 1;
        if key.1 !in energyData {
          dangling := dangling + [key];
          continue;
        }
        if energyData[key.1].submitter != key.0 {
          dangling := dangling + [key];
        }
        if |dangling| >= 10 {
          break;
        }
      }
      if |dangling| > 0 {
        assert dangling[0] in dangling;
        return true;
      }
      return false;
    }

    method MetadataCapBroken() returns (broken: bool)
      ensures broken <==> !MetadataWithinCap(View())
    {
      hide Store.TotalOrder, BytesLe;
      var cap := ParamsOf(View()).maxMetadataSize;
      if cap == 0 {
        return false;
      }
      Store.TextOrder();
      var keys := Store.Walk(BytesLe, energyData.Keys);
      var violations: seq<Bytes> := [];
      var i := 0;
      while i < |keys|
        invariant 0 <= i <= |keys|
        invariant violations == [] ==> forall j :: 0 <= j < i ==> !OverCap(cap, |energyData[keys[j]].metadata|)
        invariant forall k :: k in violations ==> k in energyData && OverCap(cap, |energyData[k].metadata|)
      {
        var key := keys[i];
        i := i + 1;
        if |energyData[key].metadata| % TWO_32 > cap {
          violations := violations + [key];
          if |violations| >= 10 {
            break;
          }
        }
      }
      if |violations| > 0 {
        assert violations[0] in violations;
        return true;
      }
      return false;
    }

    /** `AllInvariants`: the first broken checker decides. */
    method AnyBroken() returns (broken: bool)
      ensures broken <==> !Healthy(View())
    {
      broken := IDSequenceBroken();
      if broken {
        return true;
      }
      broken := ByCategoryBroken();
      if broken {
        return true;
      }
      broken := BySubmitterBroken();
      if broken {
        return true;
      }
      broken := MetadataCapBroken();
    }
  }

  // ------------------------------------------------------------------ what the checkers check

  lemma CoversAll(s: State, keys: seq<Bytes>)
    requires Store.IsWalk(BytesLe, s.records.Keys, keys)
    ensures SequenceCovers(s) <==> Highest(RecordIDs(Store.Values(s.records, keys)), 0) <= s.sequence
  {
    hide NumberWithin;
    var ids := RecordIDs(Store.Values(s.records, keys));
    HighestBounds(ids, 0);
    if Highest(ids, 0) <= s.sequence {
      forall id | id in s.records
        ensures NumberWithin(s.records[id].id, s.sequence)
      {
        var i :| 0 <= i < |keys| && keys[i] == id;
        WithinMore(ids[i], Highest(ids, 0), s.sequence);
      }
    } else {
      var i :| 0 <= i < |ids| && Ids.Parse(ids[i]) == Some(Highest(ids, 0));
      NotWithin(ids[i], Highest(ids, 0), s.sequence);
      assert keys[i] in s.records.Keys;
    }
  }

  ghost predicate SequenceCovers(s: State) {
    forall id :: id in s.records ==> NumberWithin(s.records[id].id, s.sequence)
  }

  predicate CategoryEntryMatches(s: State, k: (Bytes, Bytes)) {
    k.1 in s.records && s.records[k.1].category == k.0
  }

  ghost predicate CategoryEntriesMatch(s: State) {
    forall k :: k in s.byCategory ==> CategoryEntryMatches(s, k)
  }

  predicate SubmitterEntryMatches(s: State, k: (Bytes, Bytes)) {
    k.1 in s.records && s.records[k.1].submitter == k.0
  }

  ghost predicate SubmitterEntriesMatch(s: State) {
    forall k :: k in s.bySubmitter ==> SubmitterEntryMatches(s, k)
  }

  ghost predicate MetadataWithinCap(s: State) {
    forall id :: id in s.records ==> !OverCap(ParamsOf(s).maxMetadataSize, |s.records[id].metadata|)
  }

  ghost predicate Healthy(s: State) {
    SequenceCovers(s) && CategoryEntriesMatch(s) && SubmitterEntriesMatch(s) && MetadataWithinCap(s)
  }
}
