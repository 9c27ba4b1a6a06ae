/** Who may record audit logs and what exactly it changes, the limit per block, and who may
    change the parameters: message by message and over runs. */
module AuditLaws {
  import opened Machine
  import opened Store
  import opened AuditState
  import opened AuditRuns

  // ------------------------------------------------------------------ parameters

  predicate InRange(p: Params) {
    0 <= p.retentionBlocks <= 100_000_000 && 128 <= p.maxDataSize <= 1_048_576 && p.maxAudits <= 10_000
  }

  lemma ParamsAre(s: State)
    ensures s.params.None? ==> ParamsOf(s) == Params(1_000_000, 0, [], 65_536, true, 100)
    ensures s.params.Some? ==> ParamsOf(s) == s.params.value
    ensures forall p :: ValidParams(p) <==> InRange(p)
  {
  }

  /** Only the authority sets parameters, and only in range; nothing else changes. */
  lemma UpdateIff(authority: Bytes, s: State, b: Block, signer: Bytes, p: Params)
    ensures Handle(authority, s, b, UpdateParams(signer, p)).Some? <==> signer == authority && InRange(p)
    ensures Deliver(authority, s, b, UpdateParams(signer, p))
         == if signer == authority && InRange(p) then s.(params := Some(p)) else s
  {
  }

  predicate SetsParams(authority: Bytes, e: Event) {
    e.Run? && e.msg.UpdateParams? && e.msg.authority == authority && InRange(e.msg.params)
  }

  lemma EventParams(authority: Bytes, s: State, e: Event)
    requires !SetsParams(authority, e)
    ensures After(authority, s, e).params == s.params
  {
    if e.Run? && e.msg.UpdateParams? {
      UpdateIff(authority, s, e.block, e.msg.authority, e.msg.params);
    }
  }

  /** Over every run: parameters that changed were set by an update that the authority signed
      and that is in range. */
  lemma {:induction false} ParamsChangedBy(authority: Bytes, s: State, es: seq<Event>)
    requires AfterAll(authority, s, es).params != s.params
    ensures exists i :: 0 <= i < |es| && SetsParams(authority, es[i])
    decreases |es|
  {
    hide After, SetsParams;
    if es != [] && !SetsParams(authority, es[0]) {
      EventParams(authority, s, es[0]);
      ParamsChangedBy(authority, After(authority, s, es[0]), es[1..]);
      var i :| 0 <= i < |es[1..]| && SetsParams(authority, es[1..][i]);
      assert es[i + 1] == es[1..][i];
    }
  }

  // ------------------------------------------------------------------ records

  predicate MayRecord(s: State, who: Bytes) {
    var p := ParamsOf(s);
    && (p.permissionless || exists i :: 0 <= i < |p.allowedAuditors| && p.allowedAuditors[i] == who)
    && (p.maxAudits == 0 || who !in s.counts || s.counts[who] < p.maxAudits)
  }

  /** The counters after one more log, which is counted only under a limit. */
  function CountsAfter(s: State, who: Bytes): map<Bytes, uint32>
    requires ParamsOf(s).maxAudits == 0 || who !in s.counts || s.counts[who] < ParamsOf(s).maxAudits
  {
    if ParamsOf(s).maxAudits == 0 then s.counts
    else s.counts[who := (if who in s.counts then s.counts[who] else 0) + 1]
  }

  /** A log is accepted if and only if its creator may record and its data is small enough;
      then it is stored with block and transaction under the next id, in three indexes, and
      counted; otherwise nothing changes. */
  lemma RecordIff(authority: Bytes, s: State, b: Block, who: Bytes, eventType: Bytes, target: Bytes,
                  action: Bytes, data: Bytes)
    ensures var m := RecordAudit(who, eventType, target, action, data);
            var id := (s.sequence + 1) % 0x1_0000_0000_0000_0000;
            var accepted := MayRecord(s, who)
                            && (ParamsOf(s).maxDataSize == 0 || |data| % 0x1_0000_0000 <= ParamsOf(s).maxDataSize);
            && (Handle(authority, s, b, m).Some? <==> accepted)
            && Deliver(authority, s, b, m) ==
               if accepted
               then State(s.params, id,
                          s.logs[id := AuditLog(id, eventType, who, target, action, data, b.height, b.time, b.txHash)],
                          s.byActor + {(who, id)}, s.byEventType + {(eventType, id)},
                          s.byTime + {(if b.time < 0 then 0 else b.time, id)}, CountsAfter(s, who))
               else s
  {
    if MayRecord(s, who) && ParamsOf(s).maxAudits != 0 {
      assert Count(s, who) < ParamsOf(s).maxAudits;
    }
  }

  /** A block begins with nothing counted. */
  lemma NewBlockIs(authority: Bytes, s: State)
    ensures After(authority, s, NewBlock) == s.(counts := map[])
  {
  }

  // ------------------------------------------------------------------ the limit per block

  predicate By(e: Event, who: Bytes) {
    e.Run? && e.msg.RecordAudit? && e.msg.creator == who
  }

  /** The logs of `who` that a run accepts. */
  function AcceptedBy(authority: Bytes, s: State, es: seq<Event>, who: Bytes): nat
    decreases |es|
  {
    if es == [] then 0
    else (if By(es[0], who) && Handle(authority, s, es[0].block, es[0].msg).Some? then 1 else 0) +
         AcceptedBy(authority, After(authority, s, es[0]), es[1..], who)
  }

  function LogsOf(s: State, who: Bytes): set<uint64> {
    set id | id in s.logs && s.logs[id].actor == who
  }

  /** A run inside one block during which the limit stays the same. */
  ghost predicate Steady(authority: Bytes, s: State, es: seq<Event>, limit: uint32)
    decreases |es|
  {
    && ParamsOf(s).maxAudits == limit
    && (es != [] ==> !es[0].NewBlock? && Steady(authority, After(authority, s, es[0]), es[1..], limit))
  }

  lemma EventCounts(authority: Bytes, s: State, e: Event, who: Bytes)
    requires Numbered(s) && s.sequence + Cost(e) < TWO_64 && !e.NewBlock? && ParamsOf(s).maxAudits > 0
    ensures var t := After(authority, s, e);
            var hit := By(e, who) && Handle(authority, s, e.block, e.msg).Some?;
            && Count(t, who) == Count(s, who) + (if hit then 1 else 0)
            && (hit ==> Count(s, who) < ParamsOf(s).maxAudits)
            && |LogsOf(t, who)| == |LogsOf(s, who)| + (if hit then 1 else 0)
  {
    hide LogsOf;
    var t := After(authority, s, e);
    match e.msg {
      case RecordAudit(creator, eventType, target, action, data) =>
        RecordIff(authority, s, e.block, creator, eventType, target, action, data);
        if Handle(authority, s, e.block, e.msg).Some? {
          OneMoreLog(s, t, s.sequence + 1, who);
        }
      case UpdateParams(_, _) =>
        assert t.logs == s.logs;
        SameLogsOf(s, t, who);
    }
    if t == s {
      SameLogsOf(s, t, who);
    }
  }

  lemma SameLogsOf(s: State, t: State, who: Bytes)
    requires s.logs == t.logs
    ensures LogsOf(s, who) == LogsOf(t, who)
  {
  }

  lemma OneMoreLog(s: State, t: State, id: uint64, who: Bytes)
    requires id !in s.logs && id in t.logs && t.logs == s.logs[id := t.logs[id]]
    ensures |LogsOf(t, who)| == |LogsOf(s, who)| + if t.logs[id].actor == who then 1 else 0
  {
    assert id !in LogsOf(s, who);
    if t.logs[id].actor == who {
      assert LogsOf(t, who) == LogsOf(s, who) + {id};
    } else {
      assert LogsOf(t, who) == LogsOf(s, who);
    }
  }

  lemma {:induction false} RunCounts(authority: Bytes, s: State, es: seq<Event>, who: Bytes, limit: uint32)
    requires Numbered(s) && s.sequence + Costs(es) < TWO_64
    requires limit > 0 && Steady(authority, s, es, limit) && Count(s, who) <= limit
    ensures var t, n := AfterAll(authority, s, es), AcceptedBy(authority, s, es, who);
            && Count(t, who) == Count(s, who) + n <= limit
            && |LogsOf(t, who)| == |LogsOf(s, who)| + n
    decreases |es|
  {
    hide After, Handle, LogsOf, Numbered, Cost, By, Count;
    if es != [] {
      EventCounts(authority, s, es[0], who);
      EventAppends(authority, s, es[0]);
      RunCounts(authority, After(authority, s, es[0]), es[1..], who, limit);
    }
  }

  /** In a block with a limit L > 0: a creator's counter is the number of its logs accepted,
      at most L of them, and so many logs of its are stored. */
  lemma BlockLimit(authority: Bytes, s: State, es: seq<Event>, who: Bytes, limit: uint32)
    requires Numbered(s) && s.sequence + Costs(es) < TWO_64 && limit > 0
    requires Steady(authority, After(authority, s, NewBlock), es, limit)
    ensures var t := AfterAll(authority, s, [NewBlock] + es);
            var n := AcceptedBy(authority, After(authority, s, NewBlock), es, who);
            Count(t, who) == n <= limit && |LogsOf(t, who)| == |LogsOf(s, who)| + n
  {
    hide Steady, LogsOf, Costs;
    var s' := After(authority, s, NewBlock);
    assert ([NewBlock] + es)[1..] == es;
    SameLogsOf(s, s', who);
    RunCounts(authority, s', es, who, limit);
  }

  // ------------------------------------------------------------------ no interference

  /** The events of a run without the logs of anyone but `who`. */
  function Without(es: seq<Event>, who: Bytes): seq<Event>
    decreases |es|
  {
    if es == [] then []
    else (if Foreign(es[0], who) then [] else [es[0]]) + Without(es[1..], who)
  }

  predicate Foreign(e: Event, who: Bytes) {
    e.Run? && e.msg.RecordAudit? && e.msg.creator != who
  }

  /** What decides whether a log of `who` is accepted. */
  ghost predicate Alike(s: State, t: State, who: Bytes) {
    s.params == t.params && Count(s, who) == Count(t, who)
  }

  lemma ForeignKeeps(authority: Bytes, s: State, t: State, e: Event, who: Bytes)
    requires Alike(s, t, who) && Foreign(e, who)
    ensures Alike(After(authority, s, e), t, who)
  {
  }

  lemma OwnAlike(authority: Bytes, s: State, t: State, e: Event, who: Bytes)
    requires Alike(s, t, who) && !Foreign(e, who)
    ensures e.Run? ==> Handle(authority, s, e.block, e.msg).Some? == Handle(authority, t, e.block, e.msg).Some?
    ensures Alike(After(authority, s, e), After(authority, t, e), who)
  {
  }

  /** Taking everyone else's logs out of a run changes neither how many of one creator's are
      accepted nor its counter. */
  lemma {:induction false} NoInterference(authority: Bytes, s: State, t: State, es: seq<Event>, who: Bytes)
    requires Alike(s, t, who)
    ensures AcceptedBy(authority, s, es, who) == AcceptedBy(authority, t, Without(es, who), who)
    ensures Alike(AfterAll(authority, s, es), AfterAll(authority, t, Without(es, who)), who)
    decreases |es|
  {
    hide After, Handle, Alike;
    if es != [] {
      var e, rest := es[0], Without(es[1..], who);
      if Foreign(e, who) {
        ForeignKeeps(authority, s, t, e, who);
        assert [] + rest == rest;
        NoInterference(authority, After(authority, s, e), t, es[1..], who);
      } else {
        OwnAlike(authority, s, t, e, who);
        NoInterference(authority, After(authority, s, e), After(authority, t, e), es[1..], who);
        assert ([e] + rest)[1..] == rest;
      }
    }
  }

  // ------------------------------------------------------------------ the list of auditors

  /** A run during which `who` is never allowed to record. */
  ghost predicate NeverAllowed(authority: Bytes, s: State, es: seq<Event>, who: Bytes)
    decreases |es|
  {
    && !ParamsOf(s).permissionless && who !in ParamsOf(s).allowedAuditors
    && (es != [] ==> NeverAllowed(authority, After(authority, s, es[0]), es[1..], who))
  }

  /** Someone not on the list stores nothing, over every run. */
  lemma {:induction false} UnlistedStoresNothing(authority: Bytes, s: State, es: seq<Event>, who: Bytes)
    requires Numbered(s) && s.sequence + Costs(es) < TWO_64 && NeverAllowed(authority, s, es, who)
    ensures LogsOf(AfterAll(authority, s, es), who) == LogsOf(s, who)
    ensures AcceptedBy(authority, s, es, who) == 0
    decreases |es|
  {
    hide After, Handle, LogsOf, Numbered, Cost, By;
    if es != [] {
      UnlistedEvent(authority, s, es[0], who);
      EventAppends(authority, s, es[0]);
      UnlistedStoresNothing(authority, After(authority, s, es[0]), es[1..], who);
    }
  }

  lemma UnlistedEvent(authority: Bytes, s: State, e: Event, who: Bytes)
    requires Numbered(s) && s.sequence + Cost(e) < TWO_64
    requires !ParamsOf(s).permissionless && who !in ParamsOf(s).allowedAuditors
    ensures LogsOf(After(authority, s, e), who) == LogsOf(s, who)
    ensures !(By(e, who) && Handle(authority, s, e.block, e.msg).Some?)
  {
    if By(e, who) {
      RecordIff(authority, s, e.block, who, e.msg.eventType, e.msg.target, e.msg.action, e.msg.data);
    }
  }

  // ------------------------------------------------------------------ queries

  /** A query looks its ids up one after the other and passes over those without a log. */
  lemma {:induction false} LookupsIs(logs: map<uint64, AuditLog>, ids: seq<uint64>, id: uint64)
    ensures Lookups(logs, []) == []
    ensures Lookups(logs, ids + [id]) == Lookups(logs, ids) + if id in logs then [logs[id]] else []
    decreases |ids|
  {
    if ids == [] {
      assert [id][1..] == [] && [] + [id] == [id];
      assert Lookups(logs, [id]) == (if id in logs then [logs[id]] else []) + Lookups(logs, []);
    } else {
      assert (ids + [id])[1..] == ids[1..] + [id];
      LookupsIs(logs, ids[1..], id);
    }
  }

  // ------------------------------------------------------------------ genesis

  /** Which genesis states validate. */
  lemma ValidGenesisIff(g: GenesisState)
    ensures ValidGenesis(g) <==>
            && InRange(g.params) && AllDifferent(Mapped(IDOf, g.logs))
            && forall i :: 0 <= i < |g.logs| ==>
                 var l := g.logs[i];
                 |l.actor| > 0 && |l.action| > 0 && |l.eventType| > 0 && |l.data| % 0x1_0000_0000 <= g.params.maxDataSize
  {
    forall i | 0 <= i < |g.logs|
      ensures Mapped(IDOf, g.logs)[i] == g.logs[i].id
    {
      assert IDOf(g.logs[i]) == g.logs[i].id;
    }
    forall i | 0 <= i < |g.logs|
      ensures ValidLog(g.params, g.logs[i]) <==>
              var l := g.logs[i];
              |l.actor| > 0 && |l.action| > 0 && |l.eventType| > 0 && |l.data| % 0x1_0000_0000 <= g.params.maxDataSize
    {
    }
  }

  /** What importing a genesis into an empty store gives: under each id the last log listed
      with it, and nothing else. */
  lemma ImportedLogs(g: GenesisState)
    ensures var s, ls := Imported(EMPTY, g), g.logs;
            && (forall i :: 0 <= i < |ls| && (forall j :: i < j < |ls| ==> ls[j].id != ls[i].id)
                  ==> ls[i].id in s.logs && s.logs[ls[i].id] == ls[i])
            && (forall id :: id in s.logs ==> exists i :: 0 <= i < |ls| && ls[i].id == id)
  {
    hide PutAll, Imported;
    var none: map<uint64, AuditLog> := map[];
    var s, ls := Imported(EMPTY, g), g.logs;
    LogsImported(g);
    forall i | 0 <= i < |ls| && forall j :: i < j < |ls| ==> ls[j].id != ls[i].id
      ensures ls[i].id in s.logs && s.logs[ls[i].id] == ls[i]
    {
      PutAllLast(none, IDOf, ls, i);
    }
    forall id | id in s.logs
      ensures exists i :: 0 <= i < |ls| && ls[i].id == id
    {
      PutAllKeys<uint64, AuditLog>(none, IDOf, ls, id);
      var i :| 0 <= i < |ls| && IDOf(ls[i]) == id;
    }
  }

  lemma LogsImported(g: GenesisState)
    ensures Imported(EMPTY, g).logs == PutAll(map[], IDOf, g.logs)
  {
    hide PutAll, AddAll, Highest;
    AllRecordedIs(EMPTY.(params := Some(g.params)), g.logs);
  }

  /** An index entry for each log listed, and the least counter that no id exceeds. */
  lemma ImportedIndexes(g: GenesisState)
    ensures var s, ls := Imported(EMPTY, g), g.logs;
            && s.params == Some(g.params) && s.counts == map[]
            && s.byActor == (set i | 0 <= i < |ls| :: (ls[i].actor, ls[i].id))
            && s.byEventType == (set i | 0 <= i < |ls| :: (ls[i].eventType, ls[i].id))
            && s.byTime == (set i | 0 <= i < |ls| :: (if ls[i].timestamp < 0 then 0 else ls[i].timestamp, ls[i].id))
            && g.counter <= s.sequence && (forall i :: 0 <= i < |ls| ==> ls[i].id <= s.sequence)
            && (s.sequence == g.counter || exists i :: 0 <= i < |ls| && ls[i].id == s.sequence)
  {
    hide PutAll, AddAll;
    AllRecordedIs(EMPTY.(params := Some(g.params)), g.logs);
    AddAllIs({}, ActorKey, g.logs);
    AddAllIs({}, TypeKey, g.logs);
    AddAllIs({}, WhenKey, g.logs);
    HighestCovers(g.logs, g.counter);
    HighestIsMet(g.logs, g.counter);
  }

  lemma {:induction false} HighestIsMet(ls: seq<AuditLog>, n: uint64)
    ensures Highest(ls, n) == n || exists i :: 0 <= i < |ls| && ls[i].id == Highest(ls, n)
    decreases |ls|
  {
    if ls != [] {
      HighestIsMet(ls[1..], if ls[0].id > n then ls[0].id else n);
      assert forall i :: 0 <= i < |ls[1..]| ==> ls[1..][i] == ls[i + 1];
    }
  }

  /** Scans and exports list every log once, by ascending id. */
  lemma ExportInOrder(s: State)
    requires Numbered(s)
    ensures var g := Exported(s);
            && g.params == ParamsOf(s) && g.counter == s.sequence && g.logs == Scan(s) && |g.logs| == |s.logs|
            && (forall i :: 0 <= i < |g.logs| ==> g.logs[i].id in s.logs && s.logs[g.logs[i].id] == g.logs[i])
            && forall i, j :: 0 <= i < j < |g.logs| ==> g.logs[i].id < g.logs[j].id
  {
    hide TotalOrder;
    Uint64Order();
    var ks := Walk(Uint64Le, s.logs.Keys);
    WalkLength(Uint64Le, s.logs.Keys, ks);
    forall i | 0 <= i < |ks|
      ensures ks[i] in s.logs && Scan(s)[i].id == ks[i]
    {
      assert ks[i] in s.logs.Keys;
    }
  }
}
