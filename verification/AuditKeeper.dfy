/** The audit keeper and message server. */
module AuditKeeper {
  import opened Machine
  import opened Store
  import opened AuditState

  class Keeper {
    const authority: Bytes

    var params: Option<Params>
    var idSequence: uint64
    var logs: map<uint64, AuditLog>
    var byActor: set<(Bytes, uint64)>
    var byEventType: set<(Bytes, uint64)>
    var byTime: set<(uint64, uint64)>
    var auditCounts: map<Bytes, uint32>

    function View(): State
      reads this
    {
      State(params, idSequence, logs, byActor, byEventType, byTime, auditCounts)
    }

    constructor (authority: Bytes)
      ensures this.authority == authority && View() == EMPTY
    {
      this.authority := authority;
      params, idSequence, logs := None, 0, map[];
      byActor, byEventType, byTime, auditCounts := {}, {}, {}, map[];
    }

    method IsAllowedAuditor(address: Bytes) returns (ok: bool)
      ensures ok == Allowed(ParamsOf(View()), address)
    {
      var p := ParamsOf(View());
      if p.permissionless {
        return true;
      }
      for i := 0 to |p.allowedAuditors|
        invariant address !in p.allowedAuditors[..i]
      {
        if p.allowedAuditors[i] == address {
          return true;
        }
      }
      return false;
    }

    method CheckAndIncrAuditCount(creator: Bytes) returns (ok: bool)
      modifies `auditCounts
      ensures ok == old(Counted(View(), creator)).Some?
      ensures View() == if ok then old(Counted(View(), creator)).value else old(View())
    {
      var limit := ParamsOf(View()).maxAudits;
      if limit == 0 {
        return true;
      }
      var count := 0;
      if creator in auditCounts {
        count := auditCounts[creator];
      }
      if count >= limit {
        return false;
      }
      count := count + 1;
      auditCounts := auditCounts[creator := count];
      return true;
    }

    method GetNextID() returns (id: uint64)
      ensures id == NextID(View())
    {
      id := (idSequence + 1) % TWO_64;
    }

    method IncrementCounter(id: uint64)
      modifies `idSequence
      ensures View() == old(View()).(sequence := id)
    {
      idSequence := id;
    }

    method RecordAuditLog(l: AuditLog)
      modifies `logs, `byActor, `byEventType, `byTime
      ensures View() == old(Recorded(View(), l))
    {
      logs := logs[l.id := l];
      byActor := byActor + {(l.actor, l.id)};
      byEventType := byEventType + {(l.eventType, l.id)};
      byTime := byTime + {(TimeKey(l.timestamp), l.id)};
    }

    // ---------------------------------------------------------------- messages

    method HandleRecordAudit(b: Block, creator: Bytes, eventType: Bytes, target: Bytes, action: Bytes, data: Bytes)
      returns (ok: bool)
      modifies this
      ensures View() == old(Deliver(authority, View(), b, RecordAudit(creator, eventType, target, action, data)))
      ensures ok == old(Handle(authority, View(), b, RecordAudit(creator, eventType, target, action, data))).Some?
    {
      var allowed := IsAllowedAuditor(creator);
      if !allowed {
        return false;
      }
      var p := ParamsOf(View());
      if p.maxDataSize > 0 && |data| % TWO_32 > p.maxDataSize {
        return false;
      }
      var counted := CheckAndIncrAuditCount(creator);
      if !counted {
        return false;
      }
      var id := GetNextID();
      RecordAuditLog(AuditLog(id, eventType, creator, target, action, data, b.height, b.time, b.txHash));
      IncrementCounter(id);
      return true;
    }

    method HandleUpdateParams(b: Block, signer: Bytes, p: Params) returns (ok: bool)
      modifies `params
      ensures View() == old(Deliver(authority, View(), b, UpdateParams(signer, p)))
      ensures ok == old(Handle(authority, View(), b, UpdateParams(signer, p))).Some?
    {
      if signer != authority {
        return false;
      }
      if !ValidParams(p) {
        return false;
      }
      params := Some(p);
      return true;
    }

    // ---------------------------------------------------------------- queries

    /** The loop of every index query: look each id up, and stop once 1000 logs are found. */
    method Collect(ids: seq<uint64>) returns (found: seq<AuditLog>)
      ensures found == First(MAX_RESULTS, Lookups(logs, ids))
    {
      found := [];
      assert ids[0..] == ids;
      for i := 0 to |ids|
        invariant |found| < MAX_RESULTS
        invariant Lookups(logs, ids) == found + Lookups(logs, ids[i..])
      {
        assert ids[i..][1..] == ids[i + 1..];
        ghost var before := found;
        if ids[i] in logs {
          found := found + [logs[ids[i]]];
          assert before + ([logs[ids[i]]] + Lookups(logs, ids[i + 1..])) == found + Lookups(logs, ids[i + 1..]);
        }
        if |found| >= MAX_RESULTS {
          return;
        }
      }
    }

    method GetAuditLogsByActor(actor: Bytes) returns (found: seq<AuditLog>)
      ensures found == ByText(View(), byActor, actor)
    {
      TextNumOrder();
      found := Collect(Mapped(SecondOf, Walk(TextNumLe, Range(byActor, WithPrefix(actor)))));
    }

    method GetAuditLogsByType(eventType: Bytes) returns (found: seq<AuditLog>)
      ensures found == ByText(View(), byEventType, eventType)
    {
      TextNumOrder();
      found := Collect(Mapped(SecondOf, Walk(TextNumLe, Range(byEventType, WithPrefix(eventType)))));
    }

    method GetAuditLogsByTimeRange(from: int64, to: int64) returns (found: seq<AuditLog>)
      ensures found == ByTimeRange(View(), from, to)
    {
      hide Lookups, TotalOrder, IsWalk, First;
      if from < 0 || to < from {
        return [];
      }
      var startKey := TimeKey(from);
      var endKey: uint64 := (TimeKey(to) + 1) % TWO_64;
      NumPairOrder();
      found := Collect(Mapped(SecondOf, Walk(NumPairLe, Range(byTime, Between(startKey, endKey)))));
    }

    // ---------------------------------------------------------------- genesis

    method InitGenesis(g: GenesisState)
      modifies this
      ensures View() == old(Imported(View(), g))
    {
      params := Some(g.params);
      ghost var all := AllRecorded(View(), g.logs);
      assert g.logs[0..] == g.logs;
      for i := 0 to |g.logs|
        invariant all == AllRecorded(View(), g.logs[i..])
      {
        assert g.logs[i..][1..] == g.logs[i + 1..];
        RecordAuditLog(g.logs[i]);
      }
      var maxID := g.counter;
      for i := 0 to |g.logs|
        invariant Highest(g.logs, g.counter) == Highest(g.logs[i..], maxID)
      {
        assert g.logs[i..][1..] == g.logs[i + 1..];
        if g.logs[i].id > maxID {
          maxID := g.logs[i].id;
        }
      }
      if maxID > 0 {
        IncrementCounter(maxID);
      }
    }

    method ExportGenesis() returns (g: GenesisState)
      ensures g == Exported(View())
    {
      Uint64Order();
      var all := WalkValues(Uint64Le, logs);
      g := GenesisState(ParamsOf(View()), all, idSequence);
    }

    static method ValidateGenesis(g: GenesisState) returns (ok: bool)
      ensures ok <==> ValidGenesis(g)
    {
      if !ValidParams(g.params) {
        return false;
      }
      var seen: set<uint64> := {};
      for i := 0 to |g.logs|
        invariant seen == set j | 0 <= j < i :: g.logs[j].id
        invariant forall j :: 0 <= j < i ==> ValidLog(g.params, g.logs[j])
        invariant forall j, k :: 0 <= j < k < i ==> g.logs[j].id != g.logs[k].id
      {
        var l := g.logs[i];
        if l.id in seen {
          return false;
        }
        seen := seen + {l.id};
        if l.actor == [] || l.action == [] || l.eventType == [] || |l.data| % TWO_32 > g.params.maxDataSize {
          return false;
        }
      }
      return true;
    }
  }
}
