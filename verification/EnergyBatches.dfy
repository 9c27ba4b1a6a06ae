/** Permanent verifiability: in every state reached from an empty genesis, each stored
    batch can be checked against the records stored with it. */
module EnergyBatches {
  import opened Machine
  import opened Messages
  import opened EnergyState
  import opened EnergyRuns
  import Ids
  import Merkle

  /** Batch `x`, number `k`: the records numbered k+1 .. k+n are its items. */
  ghost predicate HeldItems(s: State, x: BatchSubmission, k: nat, hashes: seq<Bytes>) {
    forall j :: 0 <= j < |hashes| ==> HeldItem(s, x, hashes[j], k + 1 + j)
  }

  ghost predicate HeldItem(s: State, x: BatchSubmission, dataHash: Bytes, n: nat) {
    && Ids.Print(n) in s.records
    && var d := s.records[Ids.Print(n)];
       d.submitter == x.submitter && d.category == x.category && d.timestamp == x.timestamp && d.dataHash == dataHash
  }

  /** The stored batch under `id` is numbered, its items are held, as many as it says, and
      they hash to the root it declares. */
  ghost predicate Verifiable(c: Chain, s: State, id: Bytes)
    requires id in s.batches
  {
    exists k: nat, hashes :: VerifiableAs(c, s, id, k, hashes)
  }

  ghost predicate VerifiableAs(c: Chain, s: State, id: Bytes, k: nat, hashes: seq<Bytes>)
    requires id in s.batches
  {
    var x := s.batches[id];
    && id == Ids.Print(k) == x.id && |hashes| == x.dataCount > 0 && k + |hashes| <= s.sequence
    && HeldItems(s, x, k, hashes)
    && Merkle.Accepts(c.h, hashes, x.merkleRoot)
  }

  /** Every batch is verifiable, and every number issued names a record or a batch. */
  ghost predicate Complete(c: Chain, s: State) {
    && Numbered(s)
    && (forall id :: id in s.batches ==> Verifiable(c, s, id))
    && s.sequence == |s.records| + |s.batches|
  }

  lemma VerifiableStays(c: Chain, s: State, t: State, id: Bytes)
    requires id in s.batches && Verifiable(c, s, id) && Extends(s, t) && s.sequence <= t.sequence
    ensures id in t.batches && Verifiable(c, t, id)
  {
    hide Ids.Print, Merkle.Accepts;
    var k: nat, hashes :| VerifiableAs(c, s, id, k, hashes);
    forall j | 0 <= j < |hashes|
      ensures HeldItem(t, t.batches[id], hashes[j], k + 1 + j)
    {
      assert HeldItem(s, s.batches[id], hashes[j], k + 1 + j);
    }
    assert VerifiableAs(c, t, id, k, hashes);
  }

  lemma NewBatchHolds(s: State, b: Block, submitter: Bytes, category: Bytes, items: seq<BatchItem>, root: Bytes)
    requires Numbered(s) && s.sequence + 1 + |items| < TWO_64
    ensures HeldItems(Batched(s, b, submitter, category, items, root),
                      BatchSubmission(NextID(s), submitter, category, |items| % TWO_32, root, b.time),
                      s.sequence + 1, Hashes(items))
  {
    hide Ids.Print, AllRecorded, NumberWithin;
    NextIsFresh(s);
    NumberedMore(s, s.sequence + 1);
    forall j | 0 <= j < |items|
      ensures HeldItem(Batched(s, b, submitter, category, items, root),
                       BatchSubmission(NextID(s), submitter, category, |items| % TWO_32, root, b.time),
                       Hashes(items)[j], s.sequence + 2 + j)
    {
      AllItemsHeld(Advanced(s), b, submitter, category, items, j);
    }
  }

  /** A batch just stored is verifiable. */
  lemma NewBatchVerifiable(c: Chain, s: State, b: Block, submitter: Bytes, category: Bytes,
                           items: seq<BatchItem>, root: Bytes)
    requires Numbered(s) && s.sequence + 1 + |items| < TWO_64 && 0 < |items| < TWO_32
    requires Merkle.Accepts(c.h, Hashes(items), root)
    ensures var t := Batched(s, b, submitter, category, items, root);
            var id := Ids.Print(s.sequence + 1);
            id in t.batches && Verifiable(c, t, id)
  {
    hide Ids.Print, Merkle.Accepts, AllRecorded, NumberWithin, Batched, HeldItems, Numbered, Hashes;
    hide Extends, Verifiable;
    BatchedIs(s, b, submitter, category, items, root);
    NextIsFresh(s);
    NewBatchHolds(s, b, submitter, category, items, root);
    var t, id := Batched(s, b, submitter, category, items, root), Ids.Print(s.sequence + 1);
    var x := BatchSubmission(id, submitter, category, |items| % TWO_32, root, b.time);
    assert t.batches[id] == x && |Hashes(items)| == x.dataCount;
    VerifiableWitness(c, t, id, s.sequence + 1, Hashes(items));
  }

  lemma VerifiableWitness(c: Chain, s: State, id: Bytes, k: nat, hashes: seq<Bytes>)
    requires id in s.batches && VerifiableAs(c, s, id, k, hashes)
    ensures Verifiable(c, s, id)
  {
  }

  lemma OthersVerifiable(c: Chain, s: State, t: State)
    requires Complete(c, s) && Extends(s, t) && s.sequence <= t.sequence
    ensures forall id :: id in s.batches ==> id in t.batches && Verifiable(c, t, id)
  {
    hide Verifiable;
    forall id | id in s.batches
      ensures id in t.batches && Verifiable(c, t, id)
    {
      VerifiableStays(c, s, t, id);
    }
  }

  /** Every event keeps all batches verifiable and every issued number in use. */
  lemma EventComplete(c: Chain, s: State, e: Event)
    requires Complete(c, s) && Small(e) && s.sequence + Cost(e) < TWO_64
    ensures Complete(c, After(c, s, e))
  {
    hide NumberWithin, Ids.Print, AllRecorded, Merkle.Accepts, Numbered, Recorded, Batched, Verifiable, Extends;
    var t := After(c, s, e);
    EventAppends(c, s, e);
    OthersVerifiable(c, s, t);
    match e {
      case Run(b, m) =>
        if Handle(c, s, b, m).Some? {
          match m {
            case Submit(submitter, category, dataHash, metadata) =>
              CountedIs(s, submitter);
              RecordedIs(Counted(s, submitter).value, b, submitter, category, BatchItem(dataHash, metadata));
            case Batch(submitter, category, items, root) =>
              CountedIs(s, submitter);
              var s' := Counted(s, submitter).value;
              AcceptedNotEmpty(c, items, root);
              BatchedIs(s', b, submitter, category, items, root);
              NewBatchVerifiable(c, s', b, submitter, category, items, root);
            case UpdateParams(_, _) =>
          }
        }
      case NewBlock =>
      case Upgrade =>
    }
  }

  lemma AcceptedNotEmpty(c: Chain, items: seq<BatchItem>, root: Bytes)
    requires Merkle.Accepts(c.h, Hashes(items), root)
    ensures items != []
  {
  }

  lemma {:induction false} RunComplete(c: Chain, s: State, es: seq<Event>)
    requires Complete(c, s) && AllSmall(es) && s.sequence + Costs(es) < TWO_64
    ensures Complete(c, AfterAll(c, s, es))
    decreases |es|
  {
    hide After, Verifiable, Small;
    if es != [] {
      EventComplete(c, s, es[0]);
      EventAppends(c, s, es[0]);
      assert forall i :: 0 <= i < |es[1..]| ==> es[1..][i] == es[i + 1];
      RunComplete(c, After(c, s, es[0]), es[1..]);
    }
  }

  /** From an empty genesis, whatever runs: each stored batch, number k with n items, has
      the records k+1 .. k+n with its submitter, category and timestamp, their hashes are
      accepted for its root, and the sequence counts records and batches. */
  lemma BatchesStayVerifiable(c: Chain, p: Params, es: seq<Event>)
    requires AllSmall(es) && Costs(es) < TWO_64
    ensures var s := AfterAll(c, Imported(EMPTY, GenesisState(p, [], [], 0)), es);
            && (forall id :: id in s.batches ==> Verifiable(c, s, id))
            && s.sequence == |s.records| + |s.batches|
  {
    hide Verifiable, Costs, AfterAll;
    var g := GenesisState(p, [], [], 0);
    ImportNumbered(g);
    ImportedIs(g);
    assert Imported(EMPTY, g) == EMPTY.(params := Some(p));
    RunComplete(c, Imported(EMPTY, g), es);
  }
}
