/** What every run of the audit module keeps: an append-only log with consecutive ids,
    exact indexes, and queries that are filters of a full scan. */
module AuditRuns {
  import opened Machine
  import opened Store
  import opened AuditState

  // ------------------------------------------------------------------ append-only

  /** Every log lies under its own id, at most the sequence. */
  ghost predicate Numbered(s: State) {
    forall id :: id in s.logs ==> id <= s.sequence && s.logs[id].id == id
  }

  ghost predicate Extends(s: State, t: State) {
    && s.sequence <= t.sequence
    && (forall id :: id in s.logs ==> id in t.logs && t.logs[id] == s.logs[id])
    && (forall id :: id in t.logs && id !in s.logs ==> s.sequence < id <= t.sequence)
  }

  /** How many ids an event can use up. */
  function Cost(e: Event): nat {
    if e.Run? && e.msg.RecordAudit? then 1 else 0
  }

  function Costs(es: seq<Event>): nat {
    if es == [] then 0 else Cost(es[0]) + Costs(es[1..])
  }

  function NewLog(s: State, b: Block, m: Msg): AuditLog
    requires m.RecordAudit?
  {
    AuditLog(NextID(s), m.eventType, m.creator, m.target, m.action, m.data, b.height, b.time, b.txHash)
  }

  /** An accepted message adds exactly the log numbered one above the sequence. */
  lemma AcceptedAppends(authority: Bytes, s: State, b: Block, m: Msg)
    requires m.RecordAudit? && Handle(authority, s, b, m).Some? && s.sequence + 1 < TWO_64
    ensures var t, l := Deliver(authority, s, b, m), NewLog(s, b, m);
            && l.id == s.sequence + 1
            && t == Recorded(s, l).(sequence := s.sequence + 1, counts := t.counts)
  {
  }

  lemma EventAppends(authority: Bytes, s: State, e: Event)
    requires Numbered(s) && s.sequence + Cost(e) < TWO_64
    ensures var t := After(authority, s, e);
            Numbered(t) && Extends(s, t) && t.sequence <= s.sequence + Cost(e)
  {
    if e.Run? && e.msg.RecordAudit? && Handle(authority, s, e.block, e.msg).Some? {
      AcceptedAppends(authority, s, e.block, e.msg);
    }
  }

  /** Over every run no stored log changes or disappears, and every new id is above the
      sequence the run started from. */
  lemma {:induction false} RunAppends(authority: Bytes, s: State, es: seq<Event>)
    requires Numbered(s) && s.sequence + Costs(es) < TWO_64
    ensures var t := AfterAll(authority, s, es);
            Numbered(t) && Extends(s, t) && t.sequence <= s.sequence + Costs(es)
    decreases |es|
  {
    hide After;
    if es != [] {
      EventAppends(authority, s, es[0]);
      RunAppends(authority, After(authority, s, es[0]), es[1..]);
    }
  }

  lemma {:induction false} HighestCovers(ls: seq<AuditLog>, n: uint64)
    ensures n <= Highest(ls, n) && forall i :: 0 <= i < |ls| ==> ls[i].id <= Highest(ls, n)
    ensures (forall i :: 0 <= i < |ls| ==> ls[i].id <= n) ==> Highest(ls, n) == n
    decreases |ls|
  {
    if ls != [] {
      HighestCovers(ls[1..], if ls[0].id > n then ls[0].id else n);
      assert forall i :: 0 < i < |ls| ==> ls[i] == ls[1..][i - 1];
      assert forall i :: 0 <= i < |ls[1..]| ==> ls[1..][i] == ls[i + 1];
    }
  }

  lemma {:induction false} AllRecordedIs(s: State, ls: seq<AuditLog>)
    ensures AllRecorded(s, ls) == s.(
              logs := PutAll(s.logs, IDOf, ls),
              byActor := AddAll(s.byActor, ActorKey, ls),
              byEventType := AddAll(s.byEventType, TypeKey, ls),
              byTime := AddAll(s.byTime, WhenKey, ls))
    decreases |ls|
  {
    if ls != [] {
      AllRecordedIs(Recorded(s, ls[0]), ls[1..]);
    }
  }

  lemma ImportNumbered(g: GenesisState)
    ensures Numbered(Imported(EMPTY, g)) && Imported(EMPTY, g).sequence == Highest(g.logs, g.counter)
  {
    var s := Imported(EMPTY, g);
    AllRecordedIs(EMPTY.(params := Some(g.params)), g.logs);
    HighestCovers(g.logs, g.counter);
    PutAllOwn(EMPTY.logs, IDOf, g.logs);
    assert s.logs == PutAll(EMPTY.logs, IDOf, g.logs);
    forall id: uint64 | id in s.logs
      ensures id <= s.sequence && s.logs[id].id == id
    {
      PutAllKeys<uint64, AuditLog>(EMPTY.logs, IDOf, g.logs, id);
    }
  }

  /** After importing any genesis, every id issued later is above every imported id, and
      the logs stored at any point of a run are there unchanged at its end. */
  lemma AppendOnly(authority: Bytes, g: GenesisState, before: seq<Event>, after: seq<Event>)
    requires Highest(g.logs, g.counter) + Costs(before) + Costs(after) < TWO_64
    ensures var s := AfterAll(authority, Imported(EMPTY, g), before);
            var t := AfterAll(authority, s, after);
            && (forall id :: id in s.logs ==> id in t.logs && t.logs[id] == s.logs[id])
            && (forall id, i :: id in t.logs && id !in Imported(EMPTY, g).logs && 0 <= i < |g.logs| ==> g.logs[i].id < id)
  {
    hide Imported, AfterAll, Costs, Highest;
    ImportNumbered(g);
    HighestCovers(g.logs, g.counter);
    var s0 := Imported(EMPTY, g);
    RunAppends(authority, s0, before);
    var s := AfterAll(authority, s0, before);
    RunAppends(authority, s, after);
    var t := AfterAll(authority, s, after);
    forall id, i | id in t.logs && id !in s0.logs && 0 <= i < |g.logs|
      ensures g.logs[i].id < id
    {
      if id in s.logs {
        assert s0.sequence < id;
      } else {
        assert s.sequence < id;
      }
    }
  }

  /** Exactly when the next id is held by no log: always, unless the sequence is at the top
      of its 64 bits, where it wraps to zero and there may be a log 0. */
  lemma NextIsFreshIff(s: State)
    requires Numbered(s)
    ensures NextID(s) !in s.logs <==> (s.sequence == TWO_64 - 1 ==> 0 !in s.logs)
  {
    if s.sequence < TWO_64 - 1 {
      assert NextID(s) == s.sequence + 1;
    }
  }

  function ExhaustedGenesis(): GenesisState {
    GenesisState(DEFAULT_PARAMS, [AuditLog(0, [1], [1], [], [1], [], 0, 0, [])], TWO_64 - 1)
  }

  /** A genesis may set the counter to the top of its 64 bits, and validation does not mind:
      the first message accepted then overwrites a stored log. */
  lemma ExhaustedInstance(authority: Bytes, b: Block) returns (m: Msg)
    ensures ValidGenesis(ExhaustedGenesis())
    ensures var s := Imported(EMPTY, ExhaustedGenesis());
            && Handle(authority, s, b, m).Some?
            && exists id :: id in s.logs && id in Deliver(authority, s, b, m).logs
                 && Deliver(authority, s, b, m).logs[id] != s.logs[id]
  {
    var g := ExhaustedGenesis();
    m := RecordAudit([2], [2], [], [2], []);
    ImportNumbered(g);
    HighestCovers(g.logs, g.counter);
    var s := Imported(EMPTY, g);
    AllRecordedIs(EMPTY.(params := Some(g.params)), g.logs);
    assert g.logs[1..] == [];
    assert s.logs == map[0 := g.logs[0]];
    assert 0 in s.logs && NextID(s) == 0;
  }

  /** From an empty genesis the ids stored are exactly 1 up to the sequence. */
  ghost predicate Consecutive(s: State) {
    forall id: uint64 :: id in s.logs <==> 1 <= id <= s.sequence
  }

  lemma {:induction false} RunConsecutive(authority: Bytes, s: State, es: seq<Event>)
    requires Numbered(s) && Consecutive(s) && s.sequence + Costs(es) < TWO_64
    ensures Consecutive(AfterAll(authority, s, es))
    decreases |es|
  {
    if es != [] {
      var e := es[0];
      EventAppends(authority, s, e);
      if e.Run? && e.msg.RecordAudit? && Handle(authority, s, e.block, e.msg).Some? {
        AcceptedAppends(authority, s, e.block, e.msg);
      }
      RunConsecutive(authority, After(authority, s, e), es[1..]);
    }
  }

  lemma ConsecutiveFromEmpty(authority: Bytes, p: Params, es: seq<Event>)
    requires Costs(es) < TWO_64
    ensures var s := AfterAll(authority, Imported(EMPTY, GenesisState(p, [], 0)), es);
            forall id: uint64 :: id in s.logs <==> 1 <= id <= s.sequence
  {
    var g := GenesisState(p, [], 0);
    ImportNumbered(g);
    assert Consecutive(Imported(EMPTY, g));
    RunConsecutive(authority, Imported(EMPTY, g), es);
  }

  // ------------------------------------------------------------------ indexes

  /** Each index holds the entries of the stored logs, all of them and no others. */
  ghost predicate Indexed(s: State) {
    && s.byActor == IndexOf(s.logs, ActorKey)
    && s.byEventType == IndexOf(s.logs, TypeKey)
    && s.byTime == IndexOf(s.logs, WhenKey)
  }

  lemma RecordedIndexed(s: State, l: AuditLog)
    requires Indexed(s) && l.id !in s.logs
    ensures Indexed(Recorded(s, l))
  {
    hide IndexOf;
    IndexOfAdded(s.logs, l.id, l, ActorKey);
    IndexOfAdded(s.logs, l.id, l, TypeKey);
    IndexOfAdded(s.logs, l.id, l, WhenKey);
  }

  lemma {:induction false} AllRecordedIndexed(s: State, ls: seq<AuditLog>)
    requires Indexed(s)
    requires forall i :: 0 <= i < |ls| ==> ls[i].id !in s.logs
    requires forall i, j :: 0 <= i < j < |ls| ==> ls[i].id != ls[j].id
    ensures Indexed(AllRecorded(s, ls))
    decreases |ls|
  {
    hide Indexed;
    if ls != [] {
      RecordedIndexed(s, ls[0]);
      AllRecordedIndexed(Recorded(s, ls[0]), ls[1..]);
    }
  }

  lemma ImportIndexed(g: GenesisState)
    requires ValidGenesis(g)
    ensures Indexed(Imported(EMPTY, g))
  {
    AllRecordedIndexed(EMPTY.(params := Some(g.params)), g.logs);
  }

  lemma {:induction false} RunIndexed(authority: Bytes, s: State, es: seq<Event>)
    requires Numbered(s) && Indexed(s) && s.sequence + Costs(es) < TWO_64
    ensures Indexed(AfterAll(authority, s, es))
    decreases |es|
  {
    if es != [] {
      var e := es[0];
      EventAppends(authority, s, e);
      EventIndexed(authority, s, e);
      RunIndexed(authority, After(authority, s, e), es[1..]);
    }
  }

  lemma SameLogs(s: State, t: State)
    requires Indexed(s) && t.logs == s.logs && t.byActor == s.byActor && t.byEventType == s.byEventType && t.byTime == s.byTime
    ensures Indexed(t)
  {
  }

  lemma EventIndexed(authority: Bytes, s: State, e: Event)
    requires Numbered(s) && Indexed(s) && s.sequence + Cost(e) < TWO_64
    ensures Indexed(After(authority, s, e))
  {
    hide Indexed, Recorded;
    if e.Run? && e.msg.RecordAudit? && Handle(authority, s, e.block, e.msg).Some? {
      AcceptedAppends(authority, s, e.block, e.msg);
      RecordedIndexed(s, NewLog(s, e.block, e.msg));
      SameLogs(Recorded(s, NewLog(s, e.block, e.msg)), After(authority, s, e));
    } else {
      SameLogs(s, After(authority, s, e));
    }
  }

  // ------------------------------------------------------------------ queries

  /** Ids that all have a log are looked up one for one. */
  lemma {:induction false} LookupsAre(logs: map<uint64, AuditLog>, ids: seq<uint64>)
    requires forall i :: 0 <= i < |ids| ==> ids[i] in logs
    ensures Lookups(logs, ids) == Values(logs, ids)
  {
    if ids != [] {
      LookupsAre(logs, ids[1..]);
      assert Values(logs, ids) == [logs[ids[0]]] + Values(logs, ids[1..]);
    }
  }

  function Tagged(text: Bytes): uint64 -> (Bytes, uint64) {
    (id: uint64) => (text, id)
  }

  function TextKey(field: AuditLog -> Bytes): AuditLog -> (Bytes, uint64) {
    (l: AuditLog) => (field(l), l.id)
  }

  function HasText(logs: map<uint64, AuditLog>, field: AuditLog -> Bytes, text: Bytes): uint64 -> bool {
    (id: uint64) => id in logs && field(logs[id]) == text
  }

  function LogHasText(field: AuditLog -> Bytes, text: Bytes): AuditLog -> bool {
    (l: AuditLog) => field(l) == text
  }

  /** The index entries under one text are the ids of the logs with that text. */
  lemma PrefixWalk(s: State, index: set<(Bytes, uint64)>, field: AuditLog -> Bytes, text: Bytes)
    requires TotalOrder(TextNumLe) && TotalOrder(Uint64Le) && Numbered(s)
    requires index == IndexOf(s.logs, TextKey(field))
    ensures Walk(TextNumLe, Range(index, WithPrefix(text)))
         == Mapped(Tagged(text), Walk(Uint64Le, Range(s.logs.Keys, HasText(s.logs, field, text))))
  {
    hide TotalOrder, IsWalk;
    var ids := Range(s.logs.Keys, HasText(s.logs, field, text));
    var keys := Range(index, WithPrefix(text));
    forall id | id in ids
      ensures Tagged(text)(id) in keys
    {
      assert TextKey(field)(s.logs[id]) == (text, id);
    }
    forall k | k in keys
      ensures exists id :: id in ids && Tagged(text)(id) == k
    {
      var id :| id in s.logs && TextKey(field)(s.logs[id]) == k;
      assert id in ids && Tagged(text)(id) == k;
    }
    WalkRenamed(Uint64Le, ids, TextNumLe, keys, Tagged(text));
  }

  lemma Untagged(text: Bytes, ids: seq<uint64>)
    ensures Mapped(SecondOf, Mapped(Tagged(text), ids)) == ids
  {
    var keys := Mapped(Tagged(text), ids);
    assert forall i :: 0 <= i < |ids| ==> keys[i] == Tagged(text)(ids[i]) == (text, ids[i]);
    assert forall i :: 0 <= i < |ids| ==> Mapped(SecondOf, keys)[i] == SecondOf(keys[i]) == ids[i];
  }

  /** An index query returns the first 1000, by id, of the plain filter over all logs. */
  lemma TextQueryIsFilteredScan(s: State, index: set<(Bytes, uint64)>, field: AuditLog -> Bytes, text: Bytes)
    requires Numbered(s) && index == IndexOf(s.logs, TextKey(field))
    ensures ByText(s, index, text) == First(1_000, Kept(LogHasText(field, text), Scan(s)))
  {
    hide TotalOrder, IsWalk, Kept, BytesLe;
    TextNumOrder();
    Uint64Order();
    var p := HasText(s.logs, field, text);
    var all := Walk(Uint64Le, s.logs.Keys);
    var ids := Walk(Uint64Le, Range(s.logs.Keys, p));
    PrefixWalk(s, index, field, text);
    Untagged(text, ids);
    WalkMembers(Uint64Le, Range(s.logs.Keys, p));
    WalkMembers(Uint64Le, s.logs.Keys);
    LookupsAre(s.logs, ids);
    WalkKept(Uint64Le, s.logs.Keys, p);
    ValuesKept(s.logs, all, p, LogHasText(field, text));
  }

  function Actor(l: AuditLog): Bytes {
    l.actor
  }

  function EventType(l: AuditLog): Bytes {
    l.eventType
  }

  /** By actor and by event type, in every state reached from a validated genesis. */
  lemma QueriesAreFilteredScans(authority: Bytes, g: GenesisState, es: seq<Event>, text: Bytes)
    requires ValidGenesis(g) && Highest(g.logs, g.counter) + Costs(es) < TWO_64
    ensures var s := AfterAll(authority, Imported(EMPTY, g), es);
            && ByText(s, s.byActor, text) == First(1_000, Kept(LogHasText(Actor, text), Scan(s)))
            && ByText(s, s.byEventType, text) == First(1_000, Kept(LogHasText(EventType, text), Scan(s)))
  {
    hide Imported, ByText, Kept, Scan, BytesLe;
    ImportNumbered(g);
    ImportIndexed(g);
    RunAppends(authority, Imported(EMPTY, g), es);
    RunIndexed(authority, Imported(EMPTY, g), es);
    var s := AfterAll(authority, Imported(EMPTY, g), es);
    TextKeys();
    IndexOfSame(s.logs, ActorKey, TextKey(Actor));
    IndexOfSame(s.logs, TypeKey, TextKey(EventType));
    TextQueryIsFilteredScan(s, s.byActor, Actor, text);
    TextQueryIsFilteredScan(s, s.byEventType, EventType, text);
  }

  lemma TextKeys()
    ensures forall l :: ActorKey(l) == TextKey(Actor)(l)
    ensures forall l :: TypeKey(l) == TextKey(EventType)(l)
  {
    forall l: AuditLog
      ensures ActorKey(l) == TextKey(Actor)(l) && TypeKey(l) == TextKey(EventType)(l)
    {
      assert Actor(l) == l.actor && EventType(l) == l.eventType;
    }
  }

  // ------------------------------------------------------------------ restart

  lemma ExportRestores(s: State)
    requires Numbered(s) && Indexed(s)
    ensures Imported(EMPTY, Exported(s)) == s.(params := Some(ParamsOf(s)), counts := map[])
  {
    hide AddAll, PutAll, TotalOrder, IndexOf;
    Uint64Order();
    var ls, ks := Scan(s), Walk(Uint64Le, s.logs.Keys);
    AllRecordedIs(EMPTY.(params := Some(ParamsOf(s))), ls);
    PutAllRestores(Uint64Le, s.logs, IDOf);
    AddAllRestores(Uint64Le, s.logs, ActorKey);
    AddAllRestores(Uint64Le, s.logs, TypeKey);
    AddAllRestores(Uint64Le, s.logs, WhenKey);
    WalkMembers(Uint64Le, s.logs.Keys);
    forall i | 0 <= i < |ls|
      ensures ls[i].id <= s.sequence
    {
      assert ks[i] in s.logs && ls[i] == s.logs[ks[i]];
    }
    HighestCovers(ls, s.sequence);
  }

  /** From every state reached from a validated genesis, importing the export into an
      empty store restores logs, indexes and sequence exactly. */
  lemma RestartIsExact(authority: Bytes, g: GenesisState, es: seq<Event>)
    requires ValidGenesis(g) && Highest(g.logs, g.counter) + Costs(es) < TWO_64
    ensures var s := AfterAll(authority, Imported(EMPTY, g), es);
            Imported(EMPTY, Exported(s)) == s.(params := Some(ParamsOf(s)), counts := map[])
  {
    hide Imported, Exported, AfterAll, Indexed;
    ImportNumbered(g);
    ImportIndexed(g);
    RunAppends(authority, Imported(EMPTY, g), es);
    RunIndexed(authority, Imported(EMPTY, g), es);
    ExportRestores(AfterAll(authority, Imported(EMPTY, g), es));
  }
}
