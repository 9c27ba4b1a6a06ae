/** Time-range queries of the audit log: exactly when they are the plain filter over all
    logs, and that they are along every run of a chain whose times are not negative. */
module AuditTimes {
  import opened Machine
  import opened Store
  import opened AuditState
  import opened AuditRuns

  // ------------------------------------------------------------------ the time index

  /** All logs in the order of the time index, by timestamp and then by id. */
  function TimeScan(s: State): seq<AuditLog> {
    NumPairOrder();
    Lookups(s.logs, Mapped(SecondOf, Walk(NumPairLe, s.byTime)))
  }

  function During(from: int64, to: int64): AuditLog -> bool {
    (l: AuditLog) => from <= l.timestamp <= to
  }

  /** The same by the key a timestamp is filed under. */
  function FiledDuring(from: int64, to: int64): AuditLog -> bool {
    (l: AuditLog) => from <= TimeKey(l.timestamp) <= to
  }

  /** The entry of the time index and its log. */
  lemma TimeEntry(s: State, k: (uint64, uint64))
    requires Numbered(s) && Indexed(s) && k in s.byTime
    ensures k.1 in s.logs && WhenKey(s.logs[k.1]) == k
  {
  }

  function LogAt(s: State): map<(uint64, uint64), AuditLog>
    requires forall k :: k in s.byTime ==> k.1 in s.logs
  {
    map k | k in s.byTime :: s.logs[k.1]
  }

  lemma {:induction false} LookupsAlong(s: State, keys: seq<(uint64, uint64)>)
    requires forall k :: k in s.byTime ==> k.1 in s.logs
    requires forall i :: 0 <= i < |keys| ==> keys[i] in s.byTime
    ensures Lookups(s.logs, Mapped(SecondOf, keys)) == Values(LogAt(s), keys)
  {
    var ids := Mapped(SecondOf, keys);
    assert forall i :: 0 <= i < |keys| ==> ids[i] == SecondOf(keys[i]) == keys[i].1;
    LookupsAre(s.logs, ids);
  }

  /** A time-range query is a filter of that scan by the keys logs are filed under. */
  lemma TimeQueryIs(s: State, from: int64, to: int64)
    requires Numbered(s) && Indexed(s) && 0 <= from <= to
    ensures ByTimeRange(s, from, to) == First(1_000, Kept(FiledDuring(from, to), TimeScan(s)))
  {
    hide TotalOrder, IsWalk, Kept, Lookups, Indexed;
    NumPairOrder();
    var p := Between(from, to + 1);
    var all := Walk(NumPairLe, s.byTime);
    var part := Walk(NumPairLe, Range(s.byTime, p));
    forall k | k in s.byTime
      ensures k.1 in s.logs && p(k) == FiledDuring(from, to)(s.logs[k.1])
    {
      TimeEntry(s, k);
    }
    WalkMembers(NumPairLe, s.byTime);
    WalkMembers(NumPairLe, Range(s.byTime, p));
    LookupsAlong(s, all);
    LookupsAlong(s, part);
    WalkKept(NumPairLe, s.byTime, p);
    ValuesKept(LogAt(s), all, p, FiledDuring(from, to));
  }

  lemma TimeScanAt(s: State, i: nat)
    requires Numbered(s) && Indexed(s) && TotalOrder(NumPairLe) && i < |Walk(NumPairLe, s.byTime)|
    ensures var all := Walk(NumPairLe, s.byTime);
            && |TimeScan(s)| == |all| && all[i] in s.byTime && all[i].1 in s.logs
            && TimeScan(s)[i] == s.logs[all[i].1] && WhenKey(TimeScan(s)[i]) == all[i]
  {
    hide TotalOrder, Lookups, Indexed, IsWalk;
    var all := Walk(NumPairLe, s.byTime);
    forall k | k in s.byTime
      ensures k.1 in s.logs && WhenKey(s.logs[k.1]) == k
    {
      TimeEntry(s, k);
    }
    WalkMembers(NumPairLe, s.byTime);
    LookupsAlong(s, all);
  }

  ghost predicate InFiledOrder(ls: seq<AuditLog>) {
    forall i, j :: 0 <= i < j < |ls| ==>
      TimeKey(ls[i].timestamp) < TimeKey(ls[j].timestamp)
      || (TimeKey(ls[i].timestamp) == TimeKey(ls[j].timestamp) && ls[i].id < ls[j].id)
  }

  /** The scan holds every log once, sorted by timestamp and then by id; negative timestamps
      count as zero. */
  lemma TimeScanIsSorted(s: State)
    requires Numbered(s) && Indexed(s)
    ensures var ls := TimeScan(s);
            && |ls| == |s.logs|
            && (forall id :: id in s.logs ==> s.logs[id] in ls)
            && InFiledOrder(ls)
  {
    hide TotalOrder, Lookups, Indexed, TimeScan, Walk;
    NumPairOrder();
    var ls, all := TimeScan(s), Walk(NumPairLe, s.byTime);
    WalkLength(NumPairLe, s.byTime, all);
    IndexSize(s);
    if all != [] {
      TimeScanAt(s, 0);
    } else {
      assert TimeScan(s) == [] by { EmptyScan(s); }
    }
    forall id | id in s.logs
      ensures s.logs[id] in ls
    {
      var k := EntryOf(s, id);
      assert k in all;
      var i :| 0 <= i < |all| && all[i] == k;
      TimeScanAt(s, i);
    }
    forall i, j | 0 <= i < j < |ls|
      ensures TimeKey(ls[i].timestamp) < TimeKey(ls[j].timestamp)
           || (TimeKey(ls[i].timestamp) == TimeKey(ls[j].timestamp) && ls[i].id < ls[j].id)
    {
      TimeScanAt(s, i);
      TimeScanAt(s, j);
      assert NumPairLe(all[i], all[j]) && all[i] != all[j];
    }
  }

  lemma EmptyScan(s: State)
    requires TotalOrder(NumPairLe) && Walk(NumPairLe, s.byTime) == []
    ensures TimeScan(s) == []
  {
  }

  lemma EntryOf(s: State, id: uint64) returns (k: (uint64, uint64))
    requires Numbered(s) && Indexed(s) && id in s.logs
    ensures k in s.byTime && k.1 == id
  {
    k := WhenKey(s.logs[id]);
  }

  lemma IndexSize(s: State)
    requires Numbered(s) && Indexed(s)
    ensures |s.byTime| == |s.logs|
  {
    SameSize(s, s.logs.Keys);
    assert s.byTime == set id | id in s.logs.Keys :: WhenKey(s.logs[id]);
  }

  lemma {:induction false} SameSize(s: State, ids: set<uint64>)
    requires Numbered(s) && ids <= s.logs.Keys
    ensures |set id | id in ids :: WhenKey(s.logs[id])| == |ids|
    decreases |ids|
  {
    var keys := set id | id in ids :: WhenKey(s.logs[id]);
    if ids != {} {
      var x :| x in ids;
      var rest := set id | id in ids - {x} :: WhenKey(s.logs[id]);
      SameSize(s, ids - {x});
      assert keys == rest + {WhenKey(s.logs[x])};
      assert WhenKey(s.logs[x]) !in rest;
    }
  }

  // ------------------------------------------------------------------ filters

  /** The first 1000, by timestamp and then by id, of the plain filter over all logs by
      inclusive time range; of a range that is inverted or starts below zero, nothing. */
  function FilteredScan(s: State, from: int64, to: int64): seq<AuditLog> {
    if from < 0 || to < from then [] else First(1_000, Kept(During(from, to), TimeScan(s)))
  }

  lemma {:induction false} KeptAll<K>(p: K -> bool, ks: seq<K>)
    requires forall i :: 0 <= i < |ks| ==> p(ks[i])
    ensures Kept(p, ks) == ks
  {
    if ks != [] {
      assert forall i :: 0 <= i < |ks[1..]| ==> ks[1..][i] == ks[i + 1];
      KeptAll(p, ks[1..]);
    }
  }

  /** A filter that keeps a whole front starts with it. */
  lemma KeptFront<K>(p: K -> bool, ks: seq<K>, n: nat)
    requires n <= |ks| && forall i :: 0 <= i < n ==> p(ks[i])
    ensures |Kept(p, ks)| >= n && Kept(p, ks)[..n] == ks[..n]
  {
    assert ks == ks[..n] + ks[n..];
    KeptAppend(p, ks[..n], ks[n..]);
    KeptAll(p, ks[..n]);
  }

  lemma {:induction false} KeptSame<K>(p: K -> bool, q: K -> bool, ks: seq<K>)
    requires forall i :: 0 <= i < |ks| ==> p(ks[i]) == q(ks[i])
    ensures Kept(p, ks) == Kept(q, ks)
  {
    if ks != [] {
      assert forall i :: 0 <= i < |ks[1..]| ==> ks[1..][i] == ks[i + 1];
      KeptSame(p, q, ks[1..]);
    }
  }

  /** None of the first `n` logs has a negative timestamp. */
  ghost predicate FrontNonNegative(ls: seq<AuditLog>, n: nat) {
    forall i :: 0 <= i < n && i < |ls| ==> ls[i].timestamp >= 0
  }

  /** Filters by timestamp and by key agree on the first `n` when those are not negative:
      logs filed under zero come first, so any negative one behind them is cut off. */
  lemma FiltersAgree(ls: seq<AuditLog>, n: nat, from: int64, to: int64)
    requires InFiledOrder(ls) && FrontNonNegative(ls, n) && 0 <= from <= to
    ensures First(n, Kept(FiledDuring(from, to), ls)) == First(n, Kept(During(from, to), ls))
  {
    hide Kept;
    if j :| 0 <= j < |ls| && ls[j].timestamp < 0 && from == 0 {
      assert j >= n;
      forall i | 0 <= i < n
        ensures ls[i].timestamp == 0
      {
        assert TimeKey(ls[i].timestamp) <= TimeKey(ls[j].timestamp);
      }
      KeptFront(FiledDuring(from, to), ls, n);
      KeptFront(During(from, to), ls, n);
    } else {
      KeptSame(FiledDuring(from, to), During(from, to), ls);
    }
  }

  /** A negative timestamp among the first `n` is found at time zero, where the plain
      filter has nothing negative. */
  lemma FiltersDiffer(ls: seq<AuditLog>, n: nat)
    requires InFiledOrder(ls) && !FrontNonNegative(ls, n)
    ensures First(n, Kept(FiledDuring(0, 0), ls)) != First(n, Kept(During(0, 0), ls))
  {
    hide Kept;
    var i :| 0 <= i < n && i < |ls| && ls[i].timestamp < 0;
    forall j | 0 <= j < i + 1
      ensures FiledDuring(0, 0)(ls[j])
    {
      assert j < i ==> TimeKey(ls[j].timestamp) <= TimeKey(ls[i].timestamp);
    }
    KeptFront(FiledDuring(0, 0), ls, i + 1);
    var found := First(n, Kept(FiledDuring(0, 0), ls));
    assert found[i] == Kept(FiledDuring(0, 0), ls)[..i + 1][i] == ls[i];
    var plain := Kept(During(0, 0), ls);
    if i < |First(n, plain)| {
      assert First(n, plain)[i] == plain[i] && plain[i] in plain;
      KeptMembers(During(0, 0), ls, plain[i]);
    }
  }

  /** Exactly when time-range queries are the plain filter, for every range: when none of
      the first 1000 logs in time order was stored with a negative timestamp. */
  lemma TimeQueryIsFilterIff(s: State)
    requires Numbered(s) && Indexed(s)
    ensures (forall from: int64, to: int64 :: ByTimeRange(s, from, to) == FilteredScan(s, from, to))
       <==> FrontNonNegative(TimeScan(s), 1_000)
  {
    hide Kept, Indexed, TimeScan, Walk, InFiledOrder, Lookups, First;
    TimeScanIsSorted(s);
    if FrontNonNegative(TimeScan(s), 1_000) {
      forall from: int64, to: int64
        ensures ByTimeRange(s, from, to) == FilteredScan(s, from, to)
      {
        if 0 <= from <= to {
          TimeQueryIs(s, from, to);
          FiltersAgree(TimeScan(s), 1_000, from, to);
        }
      }
    } else {
      TimeQueryIs(s, 0, 0);
      FiltersDiffer(TimeScan(s), 1_000);
      assert ByTimeRange(s, 0, 0) != FilteredScan(s, 0, 0);
    }
  }

  // ------------------------------------------------------------------ runs

  ghost predicate NonNegative(s: State) {
    forall id :: id in s.logs ==> s.logs[id].timestamp >= 0
  }

  predicate NonNegativeTime(e: Event) {
    e.Run? ==> e.block.time >= 0
  }

  lemma {:induction false} RunNonNegative(authority: Bytes, s: State, es: seq<Event>)
    requires NonNegative(s) && forall i :: 0 <= i < |es| ==> NonNegativeTime(es[i])
    ensures NonNegative(AfterAll(authority, s, es))
    decreases |es|
  {
    if es != [] {
      assert NonNegativeTime(es[0]);
      assert forall i :: 0 <= i < |es[1..]| ==> es[1..][i] == es[i + 1];
      RunNonNegative(authority, After(authority, s, es[0]), es[1..]);
    }
  }

  lemma {:induction false} AllRecordedNonNegative(s: State, ls: seq<AuditLog>)
    requires NonNegative(s) && forall i :: 0 <= i < |ls| ==> ls[i].timestamp >= 0
    ensures NonNegative(AllRecorded(s, ls))
    decreases |ls|
  {
    if ls != [] {
      assert forall i :: 0 <= i < |ls[1..]| ==> ls[1..][i] == ls[i + 1];
      AllRecordedNonNegative(Recorded(s, ls[0]), ls[1..]);
    }
  }

  lemma FrontOfNonNegative(s: State)
    requires Numbered(s) && Indexed(s) && NonNegative(s)
    ensures FrontNonNegative(TimeScan(s), 1_000)
  {
    hide TotalOrder, Lookups, Indexed, TimeScan, Walk;
    NumPairOrder();
    var all := Walk(NumPairLe, s.byTime);
    forall i | 0 <= i < |TimeScan(s)|
      ensures TimeScan(s)[i].timestamp >= 0
    {
      if all == [] {
        EmptyScan(s);
      } else {
        TimeScanAt(s, 0);
        TimeScanAt(s, i);
      }
    }
  }

  /** From a validated genesis without negative timestamps, over every run of blocks whose
      times are not negative, every time-range query is the plain filter, in time order. */
  lemma TimeQueriesOverRuns(authority: Bytes, g: GenesisState, es: seq<Event>, from: int64, to: int64)
    requires ValidGenesis(g) && Highest(g.logs, g.counter) + Costs(es) < TWO_64
    requires forall i :: 0 <= i < |g.logs| ==> g.logs[i].timestamp >= 0
    requires forall i :: 0 <= i < |es| ==> NonNegativeTime(es[i])
    ensures var s := AfterAll(authority, Imported(EMPTY, g), es);
            && ByTimeRange(s, from, to) == FilteredScan(s, from, to)
            && |TimeScan(s)| == |s.logs| && InFiledOrder(TimeScan(s))
  {
    hide AfterAll, Indexed, Costs, Highest, ByTimeRange, FilteredScan, TimeScan, InFiledOrder;
    ImportNumbered(g);
    ImportIndexed(g);
    AllRecordedNonNegative(EMPTY.(params := Some(g.params)), g.logs);
    RunAppends(authority, Imported(EMPTY, g), es);
    RunIndexed(authority, Imported(EMPTY, g), es);
    RunNonNegative(authority, Imported(EMPTY, g), es);
    var s := AfterAll(authority, Imported(EMPTY, g), es);
    FrontOfNonNegative(s);
    TimeQueryIsFilterIff(s);
    TimeScanIsSorted(s);
  }

  function NegativeGenesis(): GenesisState {
    GenesisState(DEFAULT_PARAMS, [AuditLog(1, [1], [1], [], [1], [], 0, -1, [])], 0)
  }

  lemma NegativeImported()
    ensures ValidGenesis(NegativeGenesis())
    ensures var s := Imported(EMPTY, NegativeGenesis());
            Numbered(s) && Indexed(s) && s.logs == map[1 := NegativeGenesis().logs[0]]
  {
    hide Indexed, Numbered, Highest;
    var g := NegativeGenesis();
    ImportNumbered(g);
    ImportIndexed(g);
    var s := EMPTY.(params := Some(g.params));
    assert g.logs[1..] == [];
    assert AllRecorded(Recorded(s, g.logs[0]), []) == Recorded(s, g.logs[0]);
    assert AllRecorded(s, g.logs) == Recorded(s, g.logs[0]);
  }

  /** An input that breaks the filter: validation does not look at timestamps, so a genesis
      with one log of time -1 is valid, and that log is found under time 0. */
  lemma NegativeTimeInstance()
    ensures exists g, from: int64, to: int64 ::
              ValidGenesis(g) && ByTimeRange(Imported(EMPTY, g), from, to) != FilteredScan(Imported(EMPTY, g), from, to)
  {
    hide ByTimeRange, FilteredScan, TimeScan, Indexed, Numbered, ValidGenesis, Imported, InFiledOrder;
    var s := Imported(EMPTY, NegativeGenesis());
    NegativeImported();
    TimeScanIsSorted(s);
    assert 1 in s.logs && s.logs[1] in TimeScan(s);
    assert TimeScan(s)[0].timestamp < 0;
    TimeQueryIsFilterIff(s);
    var from: int64, to: int64 :| ByTimeRange(s, from, to) != FilteredScan(s, from, to);
  }
}
