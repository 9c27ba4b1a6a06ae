/** The per-block rate limit: what one submitter can get accepted in a block, and that
    submitters do not affect each other. */
module EnergyRates {
  import opened Machine
  import opened Messages
  import opened EnergyState
  import opened EnergyRuns
  import Ids
  import Merkle

  /** A run inside one block during which both limits stay the same. */
  ghost predicate Steady(c: Chain, s: State, es: seq<Event>, limit: uint32, size: uint32)
    decreases |es|
  {
    && ParamsOf(s).maxSubmissions == limit && ParamsOf(s).maxBatchSize == size
    && (es != [] ==> !es[0].NewBlock? && Steady(c, After(c, s, es[0]), es[1..], limit, size))
  }

  predicate By(e: Event, who: Bytes) {
    e.Run? && !e.msg.UpdateParams? && e.msg.submitter == who
  }

  predicate Accepted(c: Chain, s: State, e: Event) {
    e.Run? && Handle(c, s, e.block, e.msg).Some?
  }

  /** The submissions of `who` that were accepted. */
  function AcceptedBy(c: Chain, s: State, es: seq<Event>, who: Bytes): nat
    decreases |es|
  {
    if es == [] then 0
    else (if By(es[0], who) && Accepted(c, s, es[0]) then 1 else 0) +
         AcceptedBy(c, After(c, s, es[0]), es[1..], who)
  }

  /** The identifiers of the records `who` submitted. */
  function RecordsOf(s: State, who: Bytes): set<Bytes> {
    set id | id in s.records && s.records[id].submitter == who
  }

  lemma StoredCounts(s: State, t: State, d: EnergyData, who: Bytes)
    requires d.id !in s.records && t.records == s.records[d.id := d]
    ensures |RecordsOf(t, who)| == |RecordsOf(s, who)| + if d.submitter == who then 1 else 0
  {
    assert RecordsOf(t, who) == if d.submitter == who then RecordsOf(s, who) + {d.id} else RecordsOf(s, who);
  }

  lemma RecordedCounts(s: State, b: Block, submitter: Bytes, category: Bytes, item: BatchItem, who: Bytes)
    requires Numbered(s) && s.sequence + 1 < TWO_64
    ensures |RecordsOf(Recorded(s, b, submitter, category, item), who)|
         == |RecordsOf(s, who)| + if submitter == who then 1 else 0
  {
    hide NumberWithin, Ids.Print, Numbered, Recorded, RecordsOf;
    RecordedIs(s, b, submitter, category, item);
    StoredCounts(s, Recorded(s, b, submitter, category, item),
                 ItemRecord(b, submitter, category, item, Ids.Print(s.sequence + 1)), who);
  }

  lemma {:induction false} AllRecordedCounts(s: State, b: Block, submitter: Bytes, category: Bytes,
                                            items: seq<BatchItem>, who: Bytes)
    requires Numbered(s) && s.sequence + |items| < TWO_64
    ensures |RecordsOf(AllRecorded(s, b, submitter, category, items), who)|
         == |RecordsOf(s, who)| + if submitter == who then |items| else 0
    decreases |items|
  {
    hide NumberWithin, Ids.Print, Numbered, Recorded, RecordsOf;
    if items != [] {
      RecordedIs(s, b, submitter, category, items[0]);
      RecordedCounts(s, b, submitter, category, items[0], who);
      AllRecordedCounts(Recorded(s, b, submitter, category, items[0]), b, submitter, category, items[1..], who);
    }
  }

  lemma SameRecords(s: State, t: State, who: Bytes)
    requires s.records == t.records
    ensures RecordsOf(s, who) == RecordsOf(t, who)
  {
  }

  lemma BatchedCounts(s: State, b: Block, submitter: Bytes, category: Bytes, items: seq<BatchItem>,
                      root: Bytes, who: Bytes)
    requires Numbered(s) && s.sequence + 1 + |items| < TWO_64
    ensures |RecordsOf(Batched(s, b, submitter, category, items, root), who)|
         == |RecordsOf(s, who)| + if submitter == who then |items| else 0
  {
    hide NumberWithin, Ids.Print, AllRecorded, Numbered, RecordsOf;
    NextIsFresh(s);
    NumberedMore(s, s.sequence + 1);
    AllRecordedCounts(Advanced(s), b, submitter, category, items, who);
    SameRecords(s, Advanced(s), who);
    SameRecords(AllRecorded(Advanced(s), b, submitter, category, items),
                Batched(s, b, submitter, category, items, root), who);
  }

  /** A message moves only its submitter's counter, by one when accepted, and adds at most
      one batch of records, all of them its submitter's. */
  ghost predicate Moves(s: State, t: State, who: Bytes, hit: bool) {
    && Count(t, who) == Count(s, who) + (if hit then 1 else 0)
    && (hit ==> Count(s, who) < ParamsOf(s).maxSubmissions)
    && |RecordsOf(t, who)| <= |RecordsOf(s, who)| + if hit then Most(1, ParamsOf(s).maxBatchSize) else 0
  }

  lemma CountedMoves(s: State, submitter: Bytes, who: Bytes)
    requires Counted(s, submitter).Some? && ParamsOf(s).maxSubmissions > 0
    ensures var t := Counted(s, submitter).value;
            && Count(t, who) == Count(s, who) + (if submitter == who then 1 else 0)
            && (submitter == who ==> Count(s, who) < ParamsOf(s).maxSubmissions)
            && RecordsOf(t, who) == RecordsOf(s, who) && t.sequence == s.sequence
            && (Numbered(s) ==> Numbered(t)) && t.params == s.params
  {
    CountedIs(s, submitter);
  }

  lemma SubmitMoves(c: Chain, s: State, b: Block, m: Msg, who: Bytes)
    requires Numbered(s) && s.sequence + 1 < TWO_64 && ParamsOf(s).maxSubmissions > 0
    requires m.Submit? && Handle(c, s, b, m).Some?
    ensures Moves(s, Handle(c, s, b, m).value, who, m.submitter == who)
  {
    hide NumberWithin, Ids.Print, Numbered, Recorded, Counted, RecordsOf;
    CountedMoves(s, m.submitter, who);
    var s' := Counted(s, m.submitter).value;
    RecordedKeeps(s', b, m.submitter, m.category, BatchItem(m.dataHash, m.metadata));
    RecordedCounts(s', b, m.submitter, m.category, BatchItem(m.dataHash, m.metadata), who);
  }

  lemma BatchMoves(c: Chain, s: State, b: Block, m: Msg, who: Bytes)
    requires m.Batch? && Handle(c, s, b, m).Some? && |m.items| < TWO_32
    requires Numbered(s) && s.sequence + 1 + |m.items| < TWO_64 && ParamsOf(s).maxSubmissions > 0
    ensures Moves(s, Handle(c, s, b, m).value, who, m.submitter == who)
  {
    hide NumberWithin, Ids.Print, Numbered, Counted, RecordsOf, Batched, Merkle.Accepts;
    CountedMoves(s, m.submitter, who);
    var s' := Counted(s, m.submitter).value;
    BatchedKeeps(s', b, m.submitter, m.category, m.items, m.merkleRoot);
    BatchedCounts(s', b, m.submitter, m.category, m.items, m.merkleRoot, who);
  }

  lemma EventCounts(c: Chain, s: State, e: Event, who: Bytes)
    requires Numbered(s) && s.sequence + Cost(e) < TWO_64 && !e.NewBlock?
    requires ParamsOf(s).maxSubmissions > 0
    requires Small(e)
    ensures Moves(s, After(c, s, e), who, By(e, who) && Accepted(c, s, e))
  {
    if e.Run? && Accepted(c, s, e) && e.msg.Submit? {
      hide Handle, Moves;
      SubmitMoves(c, s, e.block, e.msg, who);
    } else if e.Run? && Accepted(c, s, e) && e.msg.Batch? {
      hide Handle, Moves;
      BatchMoves(c, s, e.block, e.msg, who);
    } else {
      SameRecords(s, After(c, s, e), who);
    }
  }

  function Most(a: nat, b: nat): nat {
    if a >= b then a else b
  }

  /** Over a run inside one block the counter of a submitter goes up by its accepted
      submissions and never passes the limit. */
  lemma {:induction false} RunCounts(c: Chain, s: State, es: seq<Event>, who: Bytes, limit: uint32, size: uint32)
    requires Numbered(s) && s.sequence + Costs(es) < TWO_64 && AllSmall(es)
    requires limit > 0 && Steady(c, s, es, limit, size) && Count(s, who) <= limit
    ensures var t, n := AfterAll(c, s, es), AcceptedBy(c, s, es, who);
            && Count(t, who) == Count(s, who) + n <= limit
            && |RecordsOf(t, who)| <= |RecordsOf(s, who)| + n * Most(1, size)
    decreases |es|
  {
    hide After, Handle, RecordsOf, Numbered, Cost, Most, Accepted, By;
    if es != [] {
      EventCounts(c, s, es[0], who);
      EventAppends(c, s, es[0]);
      assert forall i :: 0 <= i < |es[1..]| ==> es[1..][i] == es[i + 1];
      var s' := After(c, s, es[0]);
      RunCounts(c, s', es[1..], who, limit, size);
      OneMore(AcceptedBy(c, s', es[1..], who), Most(1, size));
    }
  }

  lemma OneMore(n: nat, m: nat)
    ensures (1 + n) * m == m + n * m
  {
  }

  lemma AtMost(n: nat, limit: nat, m: nat)
    requires n <= limit
    ensures n * m <= limit * m
  {
    assert limit * m == n * m + (limit - n) * m;
  }

  /** In a block, which starts with every counter at zero: the counter is the number of
      accepted submissions, at most L of them, bringing at most L or L times MaxBatchSize
      records, whichever is more. */
  lemma BlockLimit(c: Chain, s: State, es: seq<Event>, who: Bytes, limit: uint32, size: uint32)
    requires Numbered(s) && s.sequence + Costs(es) < TWO_64 && AllSmall(es) && limit > 0
    requires Steady(c, After(c, s, NewBlock), es, limit, size)
    ensures var t := AfterAll(c, s, [NewBlock] + es);
            && Count(t, who) == AcceptedBy(c, After(c, s, NewBlock), es, who) <= limit
            && |RecordsOf(t, who)| <= |RecordsOf(s, who)| + Most(limit, limit * size)
  {
    hide Steady, RecordsOf, Costs, AfterAll;
    var s' := After(c, s, NewBlock);
    assert ([NewBlock] + es)[1..] == es;
    RunStep(c, s, [NewBlock] + es);
    SameRecords(s, s', who);
    RunCounts(c, s', es, who, limit, size);
    AtMost(AcceptedBy(c, s', es, who), limit, Most(1, size));
    assert limit * Most(1, size) <= Most(limit, limit * size) by {
      if size >= 1 {
        AtMost(1, size, limit);
      }
    }
  }

  lemma RunStep(c: Chain, s: State, es: seq<Event>)
    requires es != []
    ensures AfterAll(c, s, es) == AfterAll(c, After(c, s, es[0]), es[1..])
  {
  }

  // ------------------------------------------------------------------ no interference

  /** The events of a run without the submissions of anyone but `who`. */
  function Without(es: seq<Event>, who: Bytes): seq<Event>
    decreases |es|
  {
    if es == [] then []
    else (if Foreign(es[0], who) then [] else [es[0]]) + Without(es[1..], who)
  }

  predicate Foreign(e: Event, who: Bytes) {
    e.Run? && !e.msg.UpdateParams? && e.msg.submitter != who
  }

  /** What decides whether a submission of `who` is accepted. */
  ghost predicate Alike(s: State, t: State, who: Bytes) {
    s.params == t.params && Count(s, who) == Count(t, who)
  }

  lemma ForeignKeeps(c: Chain, s: State, t: State, e: Event, who: Bytes)
    requires Alike(s, t, who) && Foreign(e, who)
    ensures Alike(After(c, s, e), t, who)
  {
    hide Ids.Print, Merkle.Accepts, Batched;
    if Accepted(c, s, e) {
      match e.msg {
        case Submit(_, _, _, _) =>
        case Batch(submitter, category, items, root) =>
          BatchedKeeps(Counted(s, submitter).value, e.block, submitter, category, items, root);
        case UpdateParams(_, _) =>
      }
    }
  }

  lemma BatchedKeeps(s: State, b: Block, submitter: Bytes, category: Bytes, items: seq<BatchItem>, root: Bytes)
    ensures var t := Batched(s, b, submitter, category, items, root); t.params == s.params && t.counts == s.counts
  {
    hide AllRecorded;
    RecordingKeeps(Advanced(s), b, submitter, category, items);
  }

  lemma {:induction false} RecordingKeeps(s: State, b: Block, submitter: Bytes, category: Bytes, items: seq<BatchItem>)
    ensures var t := AllRecorded(s, b, submitter, category, items); t.params == s.params && t.counts == s.counts
    decreases |items|
  {
    hide Ids.Print;
    if items != [] {
      RecordingKeeps(Recorded(s, b, submitter, category, items[0]), b, submitter, category, items[1..]);
    }
  }

  lemma RecordedKeeps(s: State, b: Block, submitter: Bytes, category: Bytes, item: BatchItem)
    ensures var t := Recorded(s, b, submitter, category, item); t.params == s.params && t.counts == s.counts
  {
  }

  lemma CountedAlike(s: State, t: State, who: Bytes)
    requires Alike(s, t, who)
    ensures Counted(s, who).Some? == Counted(t, who).Some?
    ensures Counted(s, who).Some? ==> Alike(Counted(s, who).value, Counted(t, who).value, who)
  {
  }

  lemma OwnMessage(c: Chain, s: State, t: State, b: Block, m: Msg, who: Bytes)
    requires Alike(s, t, who) && (m.UpdateParams? || m.submitter == who)
    ensures Handle(c, s, b, m).Some? == Handle(c, t, b, m).Some?
    ensures Handle(c, s, b, m).Some? ==> Alike(Handle(c, s, b, m).value, Handle(c, t, b, m).value, who)
  {
    hide Ids.Print, Merkle.Accepts, Batched, Recorded, Counted;
    CountedAlike(s, t, who);
    match m {
      case Submit(_, category, dataHash, metadata) =>
        if Handle(c, s, b, m).Some? {
          RecordedKeeps(Counted(s, who).value, b, who, category, BatchItem(dataHash, metadata));
          RecordedKeeps(Counted(t, who).value, b, who, category, BatchItem(dataHash, metadata));
        }
      case Batch(_, category, items, root) =>
        if Handle(c, s, b, m).Some? {
          BatchedKeeps(Counted(s, who).value, b, who, category, items, root);
          BatchedKeeps(Counted(t, who).value, b, who, category, items, root);
        }
      case UpdateParams(_, _) =>
    }
  }

  lemma OwnAlike(c: Chain, s: State, t: State, e: Event, who: Bytes)
    requires Alike(s, t, who) && !Foreign(e, who)
    ensures Accepted(c, s, e) == Accepted(c, t, e)
    ensures Alike(After(c, s, e), After(c, t, e), who)
  {
    hide Handle;
    if e.Run? {
      OwnMessage(c, s, t, e.block, e.msg, who);
    }
  }

  /** Taking everyone else's submissions out of a run changes neither how many of one
      submitter's submissions are accepted nor its counter. */
  lemma {:induction false} NoInterference(c: Chain, s: State, t: State, es: seq<Event>, who: Bytes)
    requires Alike(s, t, who)
    ensures AcceptedBy(c, s, es, who) == AcceptedBy(c, t, Without(es, who), who)
    ensures Alike(AfterAll(c, s, es), AfterAll(c, t, Without(es, who)), who)
    decreases |es|
  {
    hide After, Handle, Alike, Accepted;
    if es != [] {
      var e, rest := es[0], Without(es[1..], who);
      if Foreign(e, who) {
        ForeignKeeps(c, s, t, e, who);
        assert [] + rest == rest;
        NoInterference(c, After(c, s, e), t, es[1..], who);
      } else {
        OwnAlike(c, s, t, e, who);
        NoInterference(c, After(c, s, e), After(c, t, e), es[1..], who);
        assert ([e] + rest)[1..] == rest;
      }
    }
  }
}
