/** What every run of the energy module keeps: fresh identifiers, an append-only store,
    exact indexes, a genesis that restores the state, and the metadata cap. */
module EnergyRuns {
  import opened Machine
  import opened Messages
  import opened EnergyState
  import EnergyKeeper
  import Ids
  import Merkle
  import Store

  // ------------------------------------------------------------------ identifiers

  /** No stored identifier carries a number above the sequence. */
  ghost predicate Numbered(s: State) {
    && (forall id :: id in s.records ==> NumberWithin(id, s.sequence))
    && (forall id :: id in s.batches ==> NumberWithin(id, s.sequence))
  }

  /** Everything stored in `s` is stored unchanged in `t`. */
  ghost predicate Extends(s: State, t: State) {
    && (forall id :: id in s.records ==> id in t.records && t.records[id] == s.records[id])
    && (forall id :: id in s.batches ==> id in t.batches && t.batches[id] == s.batches[id])
  }

  /** How many identifiers an event can use up. */
  function Cost(e: Event): nat {
    match e
    case Run(_, Submit(_, _, _, _)) => 1
    case Run(_, Batch(_, _, items, _)) => 1 + |items|
    case _ => 0
  }

  function Costs(es: seq<Event>): nat {
    if es == [] then 0 else Cost(es[0]) + Costs(es[1..])
  }

  /** A list shorter than 2^32, as its length is stored in 32 bits. */
  predicate Small(e: Event) {
    e.Run? && e.msg.Batch? ==> |e.msg.items| < TWO_32
  }

  predicate AllSmall(es: seq<Event>) {
    forall i :: 0 <= i < |es| ==> Small(es[i])
  }

  /** The next identifier is held by no record and no batch. */
  lemma NextIsFresh(s: State)
    requires Numbered(s) && s.sequence + 1 < TWO_64
    ensures NextID(s) !in s.records && NextID(s) !in s.batches
    ensures NextID(s) == Ids.Print(s.sequence + 1) && NumberWithin(NextID(s), s.sequence + 1)
  {
    hide Ids.Parse, Ids.Print;
    Ids.ParsePrint(s.sequence + 1);
    NotWithin(NextID(s), s.sequence + 1, s.sequence);
  }

  /** Exactly when the next identifier is held by nothing: always, unless the sequence is at
      the top of its 64 bits, where it wraps to zero and "energy-0" may be held. */
  lemma NextIsFreshIff(s: State)
    requires Numbered(s)
    ensures NextID(s) !in s.records && NextID(s) !in s.batches
       <==> (s.sequence == TWO_64 - 1 ==> Ids.Print(0) !in s.records && Ids.Print(0) !in s.batches)
  {
    hide NumberWithin, Ids.Print;
    if s.sequence < TWO_64 - 1 {
      NextIsFresh(s);
    }
  }

  lemma NumberedMore(s: State, n: uint64)
    requires Numbered(s) && s.sequence <= n
    ensures Numbered(s.(sequence := n))
  {
    hide NumberWithin;
    forall id | id in s.records ensures NumberWithin(id, n) { WithinMore(id, s.sequence, n); }
    forall id | id in s.batches ensures NumberWithin(id, n) { WithinMore(id, s.sequence, n); }
  }

  function ItemRecord(b: Block, submitter: Bytes, category: Bytes, item: BatchItem, id: Bytes): EnergyData {
    EnergyData(id, category, submitter, item.dataHash, item.metadata, b.height, b.time)
  }

  /** One recorded item: a new record, nothing overwritten. */
  lemma RecordedIs(s: State, b: Block, submitter: Bytes, category: Bytes, item: BatchItem)
    requires Numbered(s) && s.sequence + 1 < TWO_64
    ensures var t := Recorded(s, b, submitter, category, item);
            var id := Ids.Print(s.sequence + 1);
            && id !in s.records && id !in s.batches && Numbered(t) && Extends(s, t)
            && t == Stored(s.(sequence := s.sequence + 1), ItemRecord(b, submitter, category, item, id))
  {
    hide NumberWithin, Ids.Print;
    NextIsFresh(s);
    NumberedMore(s, s.sequence + 1);
  }

  lemma ExtendsTwice(s: State, t: State, u: State)
    requires Extends(s, t) && Extends(t, u)
    ensures Extends(s, u)
  {
  }

  /** What recording `n` items leaves as it was, and how far it moves the sequence. */
  ghost predicate Appended(s: State, t: State, n: nat) {
    && Numbered(t) && Extends(s, t)
    && t.sequence == s.sequence + n && |t.records| == |s.records| + n
    && t.params == s.params && t.batches == s.batches && t.counts == s.counts
  }

  lemma {:induction false} AllRecordedIs(s: State, b: Block, submitter: Bytes, category: Bytes, items: seq<BatchItem>)
    requires Numbered(s) && s.sequence + |items| < TWO_64
    ensures Appended(s, AllRecorded(s, b, submitter, category, items), |items|)
    decreases |items|
  {
    hide NumberWithin, Ids.Print, Recorded, Extends, Numbered;
    if items == [] {
      assert Extends(s, s) by { ExtendsItself(s); }
    } else {
      RecordedIs(s, b, submitter, category, items[0]);
      var s' := Recorded(s, b, submitter, category, items[0]);
      AllRecordedIs(s', b, submitter, category, items[1..]);
      ExtendsTwice(s, s', AllRecorded(s, b, submitter, category, items));
    }
  }

  lemma ExtendsItself(s: State)
    ensures Extends(s, s)
  {
  }

  ghost predicate ItemHeld(t: State, b: Block, submitter: Bytes, category: Bytes, item: BatchItem, n: nat) {
    && Ids.Print(n) in t.records
    && t.records[Ids.Print(n)] == ItemRecord(b, submitter, category, item, Ids.Print(n))
  }

  lemma FirstHeld(s: State, b: Block, submitter: Bytes, category: Bytes, item: BatchItem)
    requires Numbered(s) && s.sequence + 1 < TWO_64
    ensures ItemHeld(Recorded(s, b, submitter, category, item), b, submitter, category, item, s.sequence + 1)
  {
    hide NumberWithin, Ids.Print, Recorded, Numbered;
    RecordedIs(s, b, submitter, category, item);
  }

  lemma HeldStays(s: State, t: State, b: Block, submitter: Bytes, category: Bytes, item: BatchItem, n: nat)
    requires Extends(s, t) && ItemHeld(s, b, submitter, category, item, n)
    ensures ItemHeld(t, b, submitter, category, item, n)
  {
    hide Ids.Print;
  }

  /** Items are recorded under consecutive identifiers. */
  lemma {:induction false} AllItemsHeld(s: State, b: Block, submitter: Bytes, category: Bytes, items: seq<BatchItem>, j: nat)
    requires Numbered(s) && s.sequence + |items| < TWO_64 && j < |items|
    ensures ItemHeld(AllRecorded(s, b, submitter, category, items), b, submitter, category, items[j], s.sequence + 1 + j)
    decreases |items|
  {
    hide NumberWithin, Ids.Print, Recorded, Numbered, Extends, ItemHeld;
    RecordedIs(s, b, submitter, category, items[0]);
    var s' := Recorded(s, b, submitter, category, items[0]);
    AllRecordedIs(s', b, submitter, category, items[1..]);
    if j > 0 {
      AllItemsHeld(s', b, submitter, category, items[1..], j - 1);
    } else {
      FirstHeld(s, b, submitter, category, items[0]);
      HeldStays(s', AllRecorded(s', b, submitter, category, items[1..]), b, submitter, category, items[0], s.sequence + 1);
    }
  }

  lemma AddedBatch(s: State, u: State, id: Bytes, x: BatchSubmission)
    requires Numbered(u) && Extends(s, u) && NumberWithin(id, u.sequence) && id !in s.batches
    ensures var t := u.(batches := u.batches[id := x]); Numbered(t) && Extends(s, t)
  {
    hide NumberWithin;
  }

  lemma AdvancedExtends(s: State)
    ensures Extends(s, Advanced(s))
  {
  }

  /** A whole batch: its own identifier, then those of its items. */
  lemma BatchedIs(s: State, b: Block, submitter: Bytes, category: Bytes, items: seq<BatchItem>, root: Bytes)
    requires Numbered(s) && s.sequence + 1 + |items| < TWO_64
    ensures var t := Batched(s, b, submitter, category, items, root);
            var id := Ids.Print(s.sequence + 1);
            && Numbered(t) && Extends(s, t) && id !in s.batches
            && t.sequence == s.sequence + 1 + |items| && |t.records| == |s.records| + |items|
            && t.params == s.params && t.counts == s.counts
            && t.batches == s.batches[id := BatchSubmission(id, submitter, category, |items| % TWO_32, root, b.time)]
  {
    hide NumberWithin, Ids.Print, AllRecorded, Extends, Numbered;
    NextIsFresh(s);
    NumberedMore(s, s.sequence + 1);
    var u := AllRecorded(Advanced(s), b, submitter, category, items);
    AllRecordedIs(Advanced(s), b, submitter, category, items);
    AdvancedExtends(s);
    ExtendsTwice(s, Advanced(s), u);
    WithinMore(NextID(s), s.sequence + 1, u.sequence);
    AddedBatch(s, u, NextID(s), BatchSubmission(NextID(s), submitter, category, |items| % TWO_32, root, b.time));
  }

  lemma CountedIs(s: State, who: Bytes)
    requires Counted(s, who).Some?
    ensures var t := Counted(s, who).value; t == s.(counts := t.counts)
    ensures Numbered(s) ==> Numbered(Counted(s, who).value)
  {
  }

  /** An event overwrites nothing and keeps identifiers below the sequence. */
  lemma EventAppends(c: Chain, s: State, e: Event)
    requires Numbered(s) && s.sequence + Cost(e) < TWO_64
    ensures var t := After(c, s, e);
            Numbered(t) && Extends(s, t) && s.sequence <= t.sequence <= s.sequence + Cost(e)
  {
    hide NumberWithin, Ids.Print, AllRecorded, Merkle.Accepts, Batched, Recorded;
    match e {
      case Run(b, m) =>
        if Handle(c, s, b, m).Some? {
          match m {
            case Submit(submitter, category, dataHash, metadata) =>
              CountedIs(s, submitter);
              RecordedIs(Counted(s, submitter).value, b, submitter, category, BatchItem(dataHash, metadata));
            case Batch(submitter, category, items, root) =>
              CountedIs(s, submitter);
              BatchedIs(Counted(s, submitter).value, b, submitter, category, items, root);
            case UpdateParams(_, _) =>
          }
        }
      case NewBlock =>
      case Upgrade =>
    }
  }

  /** An accepted submission stores, under the next identifier, a record of exactly what
      was submitted, by whom, in which block; it stores nothing else. */
  lemma SubmissionIsStored(c: Chain, s: State, b: Block, m: Msg)
    requires Numbered(s) && s.sequence + 1 < TWO_64 && m.Submit? && Handle(c, s, b, m).Some?
    ensures var t, id := Deliver(c, s, b, m), Ids.Print(s.sequence + 1);
            && id in t.records && t.records - {id} == s.records && t.batches == s.batches
            && var d := t.records[id];
               && d.submitter == m.submitter && d.category == m.category
               && d.dataHash == m.dataHash && d.metadata == m.metadata
               && d.id == id && d.blockHeight == b.height && d.timestamp == b.time
               && (d.category, id) in t.byCategory && (d.submitter, id) in t.bySubmitter
  {
    hide NumberWithin, Ids.Print, Numbered, Recorded;
    CountedIs(s, m.submitter);
    var s' := Counted(s, m.submitter).value;
    RecordedIs(s', b, m.submitter, m.category, BatchItem(m.dataHash, m.metadata));
    var id := Ids.Print(s.sequence + 1);
    var d := ItemRecord(b, m.submitter, m.category, BatchItem(m.dataHash, m.metadata), id);
    assert s.records[id := d] - {id} == s.records;
  }

  /** Over a whole run nothing stored is ever overwritten or lost, and the next identifier
      is always a fresh one. */
  lemma {:induction false} RunAppends(c: Chain, s: State, es: seq<Event>)
    requires Numbered(s) && s.sequence + Costs(es) < TWO_64
    ensures var t := AfterAll(c, s, es);
            Numbered(t) && Extends(s, t) && s.sequence <= t.sequence <= s.sequence + Costs(es)
    decreases |es|
  {
    hide After;
    if es != [] {
      EventAppends(c, s, es[0]);
      RunAppends(c, After(c, s, es[0]), es[1..]);
    }
  }

  // ------------------------------------------------------------------ import

  function DataCategory(d: EnergyData): (Bytes, Bytes) {
    (d.category, d.id)
  }

  function DataSubmitter(d: EnergyData): (Bytes, Bytes) {
    (d.submitter, d.id)
  }

  /** Importing records fills the primary map and both indexes alike. */
  lemma {:induction false} AllStoredIs(s: State, ds: seq<EnergyData>)
    ensures AllStored(s, ds) == s.(
              records := Store.PutAll(s.records, RecordID, ds),
              byCategory := Store.AddAll(s.byCategory, DataCategory, ds),
              bySubmitter := Store.AddAll(s.bySubmitter, DataSubmitter, ds))
    decreases |ds|
  {
    if ds != [] {
      AllStoredIs(Stored(s, ds[0]), ds[1..]);
    }
  }

  function GenesisHighest(g: GenesisState): uint64 {
    Highest(BatchIDs(g.batches), Highest(RecordIDs(g.dataRecords), g.nextID))
  }

  lemma HighestCoversRecords(g: GenesisState)
    ensures forall i :: 0 <= i < |g.dataRecords| ==> NumberWithin(g.dataRecords[i].id, GenesisHighest(g))
    ensures forall i :: 0 <= i < |g.batches| ==> NumberWithin(g.batches[i].id, GenesisHighest(g))
    ensures g.nextID <= GenesisHighest(g)
  {
    hide NumberWithin;
    var m := Highest(RecordIDs(g.dataRecords), g.nextID);
    HighestBounds(RecordIDs(g.dataRecords), g.nextID);
    HighestBounds(BatchIDs(g.batches), m);
    forall i | 0 <= i < |g.dataRecords|
      ensures NumberWithin(g.dataRecords[i].id, GenesisHighest(g))
    {
      assert NumberWithin(RecordIDs(g.dataRecords)[i], m);
      WithinMore(g.dataRecords[i].id, m, GenesisHighest(g));
    }
    forall i | 0 <= i < |g.batches|
      ensures NumberWithin(g.batches[i].id, GenesisHighest(g))
    {
      assert NumberWithin(BatchIDs(g.batches)[i], GenesisHighest(g));
    }
  }

  /** What importing a genesis into an empty store gives. */
  lemma ImportedIs(g: GenesisState)
    ensures Imported(EMPTY, g) == State(
              Some(g.params), GenesisHighest(g),
              Store.PutAll(map[], RecordID, g.dataRecords),
              Store.AddAll({}, DataCategory, g.dataRecords),
              Store.AddAll({}, DataSubmitter, g.dataRecords),
              Store.PutAll(map[], BatchID, g.batches), map[])
  {
    hide Highest;
    AllStoredIs(EMPTY.(params := Some(g.params)), g.dataRecords);
  }

  /** Any genesis at all, whatever its identifiers look like, leaves no stored number
      above the sequence. */
  lemma ImportNumbered(g: GenesisState)
    ensures Numbered(Imported(EMPTY, g))
  {
    hide NumberWithin, Highest, Imported;
    var s := Imported(EMPTY, g);
    ImportedIs(g);
    HighestCoversRecords(g);
    forall id | id in s.records
      ensures NumberWithin(id, s.sequence)
    {
      Store.PutAllKeys(map[], RecordID, g.dataRecords, id);
    }
    forall id | id in s.batches
      ensures NumberWithin(id, s.sequence)
    {
      Store.PutAllKeys(map[], BatchID, g.batches, id);
    }
  }

  /** Fresh identifiers over whole runs: after importing any genesis and running any
      events, the next identifier is held by nothing, and everything stored on the way is
      still there unchanged. */
  lemma FreshForever(c: Chain, g: GenesisState, before: seq<Event>, after: seq<Event>)
    requires Imported(EMPTY, g).sequence + Costs(before) + Costs(after) + 1 < TWO_64
    ensures var s := AfterAll(c, Imported(EMPTY, g), before);
            && NextID(s) !in s.records && NextID(s) !in s.batches
            && Extends(s, AfterAll(c, s, after))
  {
    hide Imported, AfterAll, Costs, NumberWithin, Ids.Print;
    ImportNumbered(g);
    RunAppends(c, Imported(EMPTY, g), before);
    var s := AfterAll(c, Imported(EMPTY, g), before);
    NextIsFresh(s);
    RunAppends(c, s, after);
  }

  function ExhaustedGenesis(): GenesisState {
    GenesisState(DEFAULT_PARAMS, [EnergyData(Ids.Print(0), [1], [1], [1], [], 0, 0)], [], TWO_64 - 1)
  }

  lemma ExhaustedImported()
    ensures ValidGenesis(ExhaustedGenesis())
    ensures Imported(EMPTY, ExhaustedGenesis()) == EMPTY.(
              params := Some(DEFAULT_PARAMS), sequence := TWO_64 - 1,
              records := map[Ids.Print(0) := ExhaustedGenesis().dataRecords[0]],
              byCategory := {([1], Ids.Print(0))}, bySubmitter := {([1], Ids.Print(0))})
  {
    hide Highest, Ids.Print;
    var g := ExhaustedGenesis();
    assert Ids.Print(0) != [] by { ZeroIsText(); }
    assert g.dataRecords[1..] == [];
    ImportedIs(g);
    HighestCoversRecords(g);
  }

  lemma ZeroIsText()
    ensures Ids.Print(0) != []
  {
    assert |Ids.Print(0)| >= |Ids.PREFIX|;
  }

  /** A genesis may set the sequence to the top of its 64 bits, and validation does not mind:
      the first message accepted then overwrites a stored record. */
  lemma ExhaustedInstance(c: Chain, b: Block) returns (m: Msg)
    ensures ValidGenesis(ExhaustedGenesis())
    ensures var s := Imported(EMPTY, ExhaustedGenesis());
            && Handle(c, s, b, m).Some?
            && exists id :: id in s.records && id in Deliver(c, s, b, m).records
                 && Deliver(c, s, b, m).records[id] != s.records[id]
  {
    hide Ids.Print, Imported;
    ExhaustedImported();
    m := Submit([2], [2], [2], []);
    var s := Imported(EMPTY, ExhaustedGenesis());
    assert NextID(s) == Ids.Print(0);
    assert Ids.Print(0) in s.records;
  }

  // ------------------------------------------------------------------ indexes

  /** Both indexes hold the pairs of the stored records, all of them and no others, and
      every value is stored under its own identifier. */
  ghost predicate Indexed(s: State) {
    && (forall id :: id in s.records ==> s.records[id].id == id)
    && (forall id :: id in s.batches ==> s.batches[id].id == id)
    && s.byCategory == Store.IndexOf(s.records, DataCategory)
    && s.bySubmitter == Store.IndexOf(s.records, DataSubmitter)
  }

  ghost predicate Sound(s: State) {
    s.params.Some? && ValidParams(s.params.value) && Numbered(s) && Indexed(s)
  }

  lemma StoredIndexed(s: State, d: EnergyData)
    requires Indexed(s) && d.id !in s.records
    ensures Indexed(Stored(s, d))
  {
    Store.IndexOfAdded(s.records, d.id, d, DataCategory);
    Store.IndexOfAdded(s.records, d.id, d, DataSubmitter);
  }

  lemma {:induction false} AllRecordedIndexed(s: State, b: Block, submitter: Bytes, category: Bytes, items: seq<BatchItem>)
    requires Numbered(s) && Indexed(s) && s.sequence + |items| < TWO_64
    ensures Indexed(AllRecorded(s, b, submitter, category, items))
    decreases |items|
  {
    hide NumberWithin, Ids.Print, Indexed;
    if items != [] {
      RecordedIs(s, b, submitter, category, items[0]);
      AdvancedIndexed(s, s.sequence + 1);
      StoredIndexed(s.(sequence := s.sequence + 1),
                    ItemRecord(b, submitter, category, items[0], Ids.Print(s.sequence + 1)));
      AllRecordedIndexed(Recorded(s, b, submitter, category, items[0]), b, submitter, category, items[1..]);
    }
  }

  lemma AdvancedIndexed(s: State, n: uint64)
    requires Indexed(s)
    ensures Indexed(s.(sequence := n))
  {
  }

  lemma OtherwiseIndexed(s: State, t: State)
    requires Indexed(s) && t.records == s.records && t.byCategory == s.byCategory && t.bySubmitter == s.bySubmitter
    requires forall id :: id in t.batches ==> t.batches[id].id == id
    ensures Indexed(t)
  {
  }

  /** Every event keeps the indexes exact and the parameters valid. */
  lemma EventSound(c: Chain, s: State, e: Event)
    requires Sound(s) && s.sequence + Cost(e) < TWO_64
    ensures Sound(After(c, s, e))
  {
    hide NumberWithin, Ids.Print, AllRecorded, Merkle.Accepts, Numbered, Recorded;
    EventAppends(c, s, e);
    match e {
      case Run(b, m) =>
        if Handle(c, s, b, m).Some? {
          match m {
            case Submit(submitter, category, dataHash, metadata) =>
              CountedIs(s, submitter);
              var s' := Counted(s, submitter).value;
              OtherwiseIndexed(s, s');
              RecordedSound(s', b, submitter, category, BatchItem(dataHash, metadata));
            case Batch(submitter, category, items, root) =>
              CountedIs(s, submitter);
              var s' := Counted(s, submitter).value;
              OtherwiseIndexed(s, s');
              BatchedSound(s', b, submitter, category, items, root);
            case UpdateParams(_, _) =>
              OtherwiseIndexed(s, After(c, s, e));
          }
        }
      case NewBlock =>
        OtherwiseIndexed(s, After(c, s, e));
      case Upgrade =>
        OtherwiseIndexed(s, After(c, s, e));
    }
  }

  lemma RecordedSound(s: State, b: Block, submitter: Bytes, category: Bytes, item: BatchItem)
    requires Numbered(s) && Indexed(s) && s.sequence + 1 < TWO_64
    ensures Indexed(Recorded(s, b, submitter, category, item))
    ensures Recorded(s, b, submitter, category, item).params == s.params
  {
    AllRecordedIndexed(s, b, submitter, category, [item]);
    OneRecorded(s, b, submitter, category, item);
  }

  lemma OneRecorded(s: State, b: Block, submitter: Bytes, category: Bytes, item: BatchItem)
    ensures AllRecorded(s, b, submitter, category, [item]) == Recorded(s, b, submitter, category, item)
  {
    hide Recorded;
    assert [item][1..] == [];
  }

  lemma AddedBatchIndexed(s: State, x: BatchSubmission)
    requires Indexed(s)
    ensures Indexed(s.(batches := s.batches[x.id := x]))
  {
  }

  lemma BatchedSound(s: State, b: Block, submitter: Bytes, category: Bytes, items: seq<BatchItem>, root: Bytes)
    requires Numbered(s) && Indexed(s) && s.sequence + 1 + |items| < TWO_64
    ensures Indexed(Batched(s, b, submitter, category, items, root))
    ensures Batched(s, b, submitter, category, items, root).params == s.params
  {
    hide NumberWithin, Ids.Print, AllRecorded, Indexed, Numbered, Extends;
    NextIsFresh(s);
    NumberedMore(s, s.sequence + 1);
    BatchedIs(s, b, submitter, category, items, root);
    AdvancedIndexed(s, s.sequence + 1);
    AllRecordedIndexed(Advanced(s), b, submitter, category, items);
    AddedBatchIndexed(AllRecorded(Advanced(s), b, submitter, category, items),
                      BatchSubmission(NextID(s), submitter, category, |items| % TWO_32, root, b.time));
  }

  lemma SoundNumbered(s: State)
    requires Sound(s)
    ensures Numbered(s)
  {
  }

  lemma {:induction false} RunSound(c: Chain, s: State, es: seq<Event>)
    requires Sound(s) && s.sequence + Costs(es) < TWO_64
    ensures Sound(AfterAll(c, s, es))
    decreases |es|
  {
    hide After, Sound;
    if es != [] {
      EventSound(c, s, es[0]);
      SoundNumbered(s);
      EventAppends(c, s, es[0]);
      RunSound(c, After(c, s, es[0]), es[1..]);
    }
  }

  // ------------------------------------------------------------------ validated genesis

  lemma {:induction false} AllStoredIndexed(s: State, ds: seq<EnergyData>)
    requires Indexed(s)
    requires forall i :: 0 <= i < |ds| ==> ds[i].id !in s.records
    requires forall i, j :: 0 <= i < j < |ds| ==> ds[i].id != ds[j].id
    ensures Indexed(AllStored(s, ds))
    decreases |ds|
  {
    hide Indexed;
    if ds != [] {
      StoredIndexed(s, ds[0]);
      AllStoredIndexed(Stored(s, ds[0]), ds[1..]);
    }
  }

  lemma ImportSound(g: GenesisState)
    requires ValidGenesis(g)
    ensures Sound(Imported(EMPTY, g))
  {
    hide NumberWithin, Highest, Store.AddAll;
    ImportNumbered(g);
    ImportedIs(g);
    var s := EMPTY.(params := Some(g.params));
    AllStoredIndexed(s, g.dataRecords);
    AllStoredIs(s, g.dataRecords);
    Store.PutAllOwn(map[], BatchID, g.batches);
    OtherwiseIndexed(AllStored(s, g.dataRecords), Imported(EMPTY, g));
  }

  // ------------------------------------------------------------------ export and import

  lemma HighestStays(ids: seq<Bytes>, n: uint64)
    requires forall i :: 0 <= i < |ids| ==> NumberWithin(ids[i], n)
    ensures Highest(ids, n) == n
  {
    HighestBounds(ids, n);
  }

  /** Importing an export into an empty store restores everything but the per-block
      counters. */
  lemma ExportRestores(s: State)
    requires Sound(s)
    ensures Imported(EMPTY, Exported(s)) == s.(counts := map[])
  {
    hide NumberWithin, Highest, Store.AddAll, Store.PutAll, BytesLe;
    Store.TextOrder();
    var g := Exported(s);
    ImportedIs(g);
    Store.PutAllRestores(BytesLe, s.records, RecordID);
    Store.PutAllRestores(BytesLe, s.batches, BatchID);
    Store.AddAllRestores(BytesLe, s.records, DataCategory);
    Store.AddAllRestores(BytesLe, s.records, DataSubmitter);
    HighestStays(RecordIDs(g.dataRecords), s.sequence);
    HighestStays(BatchIDs(g.batches), s.sequence);
  }

  /** From every state reached from a validated genesis, the export restores the state,
      and the restarted chain then takes the same states, block after block. */
  lemma RestartIsExact(c: Chain, g: GenesisState, before: seq<Event>, after: seq<Event>)
    requires ValidGenesis(g) && Imported(EMPTY, g).sequence + Costs(before) < TWO_64
    ensures var s := AfterAll(c, Imported(EMPTY, g), before);
            && Imported(EMPTY, Exported(s)) == s.(counts := map[])
            && AfterAll(c, Imported(EMPTY, Exported(s)), [NewBlock] + after) == AfterAll(c, s, [NewBlock] + after)
  {
    hide Sound, Imported, Exported, Costs;
    ImportSound(g);
    RunSound(c, Imported(EMPTY, g), before);
    var s := AfterAll(c, Imported(EMPTY, g), before);
    ExportRestores(s);
    assert After(c, s, NewBlock) == After(c, s.(counts := map[]), NewBlock);
  }

  // ------------------------------------------------------------------ checkers

  /** In every reachable state the index entries are exactly those of the records, and
      neither the sequence checker nor the index checkers fire. */
  lemma CheckersQuiet(c: Chain, g: GenesisState, es: seq<Event>)
    requires ValidGenesis(g) && Imported(EMPTY, g).sequence + Costs(es) < TWO_64
    ensures var s := AfterAll(c, Imported(EMPTY, g), es);
            && Indexed(s) && EnergyKeeper.SequenceCovers(s)
            && EnergyKeeper.CategoryEntriesMatch(s) && EnergyKeeper.SubmitterEntriesMatch(s)
  {
    hide Imported, Costs, NumberWithin;
    ImportSound(g);
    RunSound(c, Imported(EMPTY, g), es);
  }

  // ------------------------------------------------------------------ metadata cap

  lemma {:induction false} AllRecordedWithinCap(s: State, b: Block, submitter: Bytes, category: Bytes, items: seq<BatchItem>)
    requires EnergyKeeper.MetadataWithinCap(s)
    requires !exists i :: 0 <= i < |items| && OverCap(ParamsOf(s).maxMetadataSize, |items[i].metadata|)
    ensures EnergyKeeper.MetadataWithinCap(AllRecorded(s, b, submitter, category, items))
    ensures AllRecorded(s, b, submitter, category, items).params == s.params
    decreases |items|
  {
    hide OverCap, Ids.Print;
    if items != [] {
      assert !OverCap(ParamsOf(s).maxMetadataSize, |items[0].metadata|);
      forall i | 0 <= i < |items[1..]|
        ensures !OverCap(ParamsOf(s).maxMetadataSize, |items[1..][i].metadata|)
      {
        assert items[1..][i] == items[i + 1];
      }
      AllRecordedWithinCap(Recorded(s, b, submitter, category, items[0]), b, submitter, category, items[1..]);
    }
  }

  /** Whether an event is a parameter update that lowers the metadata cap. */
  predicate LowersCap(s: State, e: Event) {
    e.Run? && e.msg.UpdateParams? && e.msg.params.maxMetadataSize < ParamsOf(s).maxMetadataSize
  }

  /** Every event but such an update keeps stored metadata within the cap. */
  lemma CapKept(c: Chain, s: State, e: Event)
    requires ValidParams(ParamsOf(s)) && EnergyKeeper.MetadataWithinCap(s) && !LowersCap(s, e)
    ensures EnergyKeeper.MetadataWithinCap(After(c, s, e))
  {
    hide Ids.Print, AllRecorded, Merkle.Accepts;
    match e {
      case Run(b, m) =>
        if Handle(c, s, b, m).Some? {
          match m {
            case Submit(submitter, category, dataHash, metadata) =>
              CountedIs(s, submitter);
            case Batch(submitter, category, items, root) =>
              CountedIs(s, submitter);
              AllRecordedWithinCap(Advanced(Counted(s, submitter).value), b, submitter, category, items);
            case UpdateParams(_, _) =>
          }
        }
      case NewBlock =>
      case Upgrade =>
    }
  }

  lemma ImportWithinCap(g: GenesisState)
    requires ValidGenesis(g)
    ensures EnergyKeeper.MetadataWithinCap(Imported(EMPTY, g))
  {
    hide Highest;
    var s := Imported(EMPTY, g);
    ImportedIs(g);
    forall id | id in s.records
      ensures !OverCap(g.params.maxMetadataSize, |s.records[id].metadata|)
    {
      PutAllValue(EMPTY.records, g.dataRecords, id);
    }
  }

  lemma {:induction false} PutAllValue(m: map<Bytes, EnergyData>, ds: seq<EnergyData>, id: Bytes)
    requires id in Store.PutAll(m, RecordID, ds)
    ensures var r := Store.PutAll(m, RecordID, ds)[id];
            (id in m && r == m[id]) || exists i :: 0 <= i < |ds| && ds[i] == r
    decreases |ds|
  {
    if ds != [] {
      PutAllValue(m[ds[0].id := ds[0]], ds[1..], id);
      assert forall i :: 0 <= i < |ds[1..]| ==> ds[1..][i] == ds[i + 1];
    }
  }

  /** A run none of whose events lowers the cap at its moment. */
  ghost predicate NeverLowers(c: Chain, s: State, es: seq<Event>)
    decreases |es|
  {
    es != [] ==> !LowersCap(s, es[0]) && NeverLowers(c, After(c, s, es[0]), es[1..])
  }

  lemma {:induction false} RunWithinCap(c: Chain, s: State, es: seq<Event>)
    requires Sound(s) && EnergyKeeper.MetadataWithinCap(s)
    requires NeverLowers(c, s, es) && s.sequence + Costs(es) < TWO_64
    ensures EnergyKeeper.MetadataWithinCap(AfterAll(c, s, es))
    decreases |es|
  {
    hide After, LowersCap, EnergyKeeper.MetadataWithinCap, Numbered, Indexed;
    if es != [] {
      CapKept(c, s, es[0]);
      EventSound(c, s, es[0]);
      EventAppends(c, s, es[0]);
      RunWithinCap(c, After(c, s, es[0]), es[1..]);
    }
  }

  /** From a validated genesis, upgrades included, stored metadata stays within the cap
      over every run in which no update lowers it, and no checker fires. */
  lemma HealthyWithoutLowering(c: Chain, g: GenesisState, es: seq<Event>)
    requires ValidGenesis(g) && Imported(EMPTY, g).sequence + Costs(es) < TWO_64
    requires NeverLowers(c, Imported(EMPTY, g), es)
    ensures EnergyKeeper.Healthy(AfterAll(c, Imported(EMPTY, g), es))
  {
    hide Imported, Costs, AfterAll, NeverLowers, ValidGenesis, EnergyKeeper.MetadataWithinCap, Indexed;
    ImportSound(g);
    ImportWithinCap(g);
    RunWithinCap(c, Imported(EMPTY, g), es);
    CheckersQuiet(c, g, es);
  }

  function Longest(ds: seq<EnergyData>): nat {
    if ds == [] then 0
    else
      var n, rest := |ds[0].metadata| % TWO_32, Longest(ds[1..]);
      if n > rest then n else rest
  }

  lemma {:induction false} LongestBounds(ds: seq<EnergyData>, cap: nat)
    ensures Longest(ds) <= cap <==> forall i :: 0 <= i < |ds| ==> |ds[i].metadata| % TWO_32 <= cap
  {
    if ds != [] {
      LongestBounds(ds[1..], cap);
      assert forall i :: 0 < i < |ds| ==> ds[i] == ds[1..][i - 1];
      if Longest(ds[1..]) <= cap && |ds[0].metadata| % TWO_32 <= cap {
        forall i | 0 <= i < |ds|
          ensures |ds[i].metadata| % TWO_32 <= cap
        {
          if i > 0 {
            assert ds[i] == ds[1..][i - 1];
          }
        }
      }
      if forall i :: 0 <= i < |ds| ==> |ds[i].metadata| % TWO_32 <= cap {
        forall i | 0 <= i < |ds[1..]|
          ensures |ds[1..][i].metadata| % TWO_32 <= cap
        {
          assert ds[1..][i] == ds[i + 1];
        }
      }
    }
  }

  /** An accepted parameter update leaves the stored metadata within the cap exactly when
      the longest metadata in an export made before the update fits the new cap. */
  lemma UpdateKeepsCapIff(c: Chain, s: State, b: Block, p: Params)
    requires Handle(c, s, b, UpdateParams(c.authority, p)).Some?
    ensures EnergyKeeper.MetadataWithinCap(Deliver(c, s, b, UpdateParams(c.authority, p)))
       <==> Longest(Exported(s).dataRecords) <= p.maxMetadataSize
  {
    hide BytesLe;
    Store.TextOrder();
    var ds := Exported(s).dataRecords;
    var keys := Store.Walk(BytesLe, s.records.Keys);
    LongestBounds(ds, p.maxMetadataSize);
    if Longest(ds) <= p.maxMetadataSize {
      forall id | id in s.records
        ensures !OverCap(p.maxMetadataSize, |s.records[id].metadata|)
      {
        var i :| 0 <= i < |keys| && keys[i] == id;
        assert ds[i] == s.records[id];
      }
    }
    if forall id :: id in s.records ==> !OverCap(p.maxMetadataSize, |s.records[id].metadata|) {
      forall i | 0 <= i < |ds|
        ensures |ds[i].metadata| % TWO_32 <= p.maxMetadataSize
      {
        assert keys[i] in s.records && ds[i] == s.records[keys[i]];
      }
    }
  }

  /** So the cap does not survive every message: one record of 200 bytes in a validated
      genesis, and an update of the cap from 4096 to 128. */
  lemma UpdateCanBreakCap(c: Chain, b: Block)
    ensures exists g, p ::
              && ValidGenesis(g)
              && EnergyKeeper.MetadataWithinCap(Imported(EMPTY, g))
              && !EnergyKeeper.MetadataWithinCap(Deliver(c, Imported(EMPTY, g), b, UpdateParams(c.authority, p)))
  {
    hide Highest;
    var d := EnergyData([0x78], [0x78], [0x78], [0x78], seq(200, i => 0), 0, 0);
    var g := GenesisState(DEFAULT_PARAMS, [d], [], 0);
    var p := DEFAULT_PARAMS.(maxMetadataSize := 128);
    ImportedIs(g);
    assert [d][1..] == [];
    var s := Imported(EMPTY, g);
    assert s.records == map[d.id := d];
    assert OverCap(128, |d.metadata|) && !OverCap(4096, |d.metadata|);
    var t := Deliver(c, s, b, UpdateParams(c.authority, p));
    assert d.id in t.records && t.records[d.id] == d;
    assert ValidGenesis(g) && EnergyKeeper.MetadataWithinCap(s) && !EnergyKeeper.MetadataWithinCap(t);
  }
}
