/** What every run of the oracle module keeps: a cache that mirrors the time series,
    history queries that are filters of a full scan, and what a restart restores. */
module OracleRuns {
  import opened Machine
  import opened Store
  import opened OracleState
  import OracleKeeper

  // ------------------------------------------------------------------ the cache

  /** Records lie under their own keys, and the cache has exactly the categories of the
      time series, each with a record of that series. */
  ghost predicate Cached(s: State) {
    && UnderOwnKey(s.data, KeyOf) && UnderOwnKey(s.oracles, AddressOf)
    && (forall k :: k in s.data ==> k.0 in s.latest)
    && (forall c :: c in s.latest ==> CachedEntry(s, c))
  }

  ghost predicate CachedEntry(s: State, c: Bytes)
    requires c in s.latest
  {
    var d := s.latest[c];
    d.category == c && KeyOf(d) in s.data && s.data[KeyOf(d)] == d
  }

  lemma WrittenCached(s: State, d: OracleData)
    requires Cached(s)
    ensures Cached(Written(s, d))
  {
    var t := Written(s, d);
    forall c | c in t.latest
      ensures CachedEntry(t, c)
    {
      if c != d.category {
        assert CachedEntry(s, c);
      }
    }
  }

  lemma {:induction false} AllWrittenCached(s: State, ds: seq<OracleData>)
    requires Cached(s)
    ensures Cached(AllWritten(s, ds))
    decreases |ds|
  {
    hide Cached, Written;
    if ds != [] {
      WrittenCached(s, ds[0]);
      AllWrittenCached(Written(s, ds[0]), ds[1..]);
    }
  }

  lemma SettingsCached(s: State, t: State)
    requires Cached(s) && t.data == s.data && t.latest == s.latest && UnderOwnKey(t.oracles, AddressOf)
    ensures Cached(t)
  {
    forall c | c in t.latest
      ensures CachedEntry(t, c)
    {
      assert CachedEntry(s, c);
    }
  }

  lemma ImportCached(g: GenesisState)
    ensures Cached(Imported(EMPTY, g))
  {
    PutAllOwn(map[], AddressOf, g.oracles);
    AllWrittenCached(EMPTY.(params := Some(g.params), oracles := PutAll(map[], AddressOf, g.oracles)), g.data);
  }

  lemma EventCached(authority: Bytes, s: State, b: Block, m: Msg)
    requires Cached(s)
    ensures Cached(Deliver(authority, s, b, m))
  {
    hide Written, InWindow, Cached;
    var t := Deliver(authority, s, b, m);
    OwnAddresses(s);
    match m {
      case SubmitData(submitter, category, value, metadata, timestamp) =>
        WrittenCached(s, OracleData(category, value, metadata, timestamp, submitter, b.height));
      case AddOracle(_, _, _, _) =>
        SettingsCached(s, t);
      case RemoveOracle(_, _) =>
        SettingsCached(s, t);
      case UpdateParams(_, _) =>
        SettingsCached(s, t);
    }
  }

  lemma OwnAddresses(s: State)
    requires Cached(s)
    ensures UnderOwnKey(s.oracles, AddressOf)
  {
  }

  lemma {:induction false} RunCached(authority: Bytes, s: State, es: seq<Event>)
    requires Cached(s)
    ensures Cached(AfterAll(authority, s, es))
    decreases |es|
  {
    hide Cached, Deliver;
    if es != [] {
      EventCached(authority, s, es[0].block, es[0].msg);
      RunCached(authority, Deliver(authority, s, es[0].block, es[0].msg), es[1..]);
    }
  }

  /** Whatever the genesis and the messages: the cache has exactly the categories present
      in the time series, each entry is the series' record at its own category and
      timestamp, and the checker does not fire. */
  lemma CacheMirrorsSeries(authority: Bytes, g: GenesisState, es: seq<Event>)
    ensures var s := AfterAll(authority, Imported(EMPTY, g), es);
            && s.latest.Keys == (set k | k in s.data :: k.0)
            && (forall c :: c in s.latest ==>
                 var k := (c, TimeKey(s.latest[c].timestamp)); k in s.data && s.data[k] == s.latest[c])
            && OracleKeeper.CacheMatches(s)
  {
    ImportCached(g);
    RunCached(authority, Imported(EMPTY, g), es);
    var s := AfterAll(authority, Imported(EMPTY, g), es);
    forall c | c in s.latest
      ensures (c, TimeKey(s.latest[c].timestamp)) in s.data && s.data[(c, TimeKey(s.latest[c].timestamp))] == s.latest[c]
      ensures c in set k | k in s.data :: k.0
    {
      assert CachedEntry(s, c);
      assert KeyOf(s.latest[c]).0 == c;
    }
  }

  // ------------------------------------------------------------------ history

  ghost predicate NonNegative(s: State) {
    forall k :: k in s.data ==> s.data[k].timestamp >= 0
  }

  ghost predicate NonNegativeIn(s: State, category: Bytes) {
    forall k :: k in s.data && k.0 == category ==> s.data[k].timestamp >= 0
  }

  /** The plain filter behind a history query. */
  function Wanted(category: Bytes, from: int64, to: int64): OracleData -> bool {
    (d: OracleData) => d.category == category && from <= d.timestamp <= to
  }

  ghost predicate InTimeOrder(ds: seq<OracleData>) {
    forall i, j :: 0 <= i < j < |ds| ==> ds[i].timestamp < ds[j].timestamp
  }

  lemma KeyTellsValue(s: State, k: DataKey, category: Bytes, from: int64, to: int64)
    requires Cached(s) && NonNegativeIn(s, category) && k in s.data
    ensures InRange(category, from, to)(k) == Wanted(category, from, to)(s.data[k])
  {
    assert KeyOf(s.data[k]) == k;
  }

  lemma RangeIsFilteredScan(s: State, category: Bytes, from: int64, to: int64)
    requires TotalOrder(TextNumLe) && Cached(s) && NonNegativeIn(s, category)
    ensures Values(s.data, Walk(TextNumLe, RangeOf(s, category, from, to)))
         == Kept(Wanted(category, from, to), Values(s.data, Walk(TextNumLe, s.data.Keys)))
  {
    hide BytesLe, TotalOrder, IsWalk, Kept, Cached, NonNegativeIn, InRange, Wanted;
    var p := InRange(category, from, to);
    var all := Walk(TextNumLe, s.data.Keys);
    WalkMembers(TextNumLe, s.data.Keys);
    forall i | 0 <= i < |all|
      ensures all[i] in s.data && p(all[i]) == Wanted(category, from, to)(s.data[all[i]])
    {
      KeyTellsValue(s, all[i], category, from, to);
    }
    WalkKept(TextNumLe, s.data.Keys, p);
    ValuesKept(s.data, all, p, Wanted(category, from, to));
  }

  lemma LaterInRange(s: State, category: Bytes, from: int64, to: int64, k: DataKey, l: DataKey)
    requires Cached(s) && NonNegativeIn(s, category) && TextNumLe(k, l) && k != l
    requires k in RangeOf(s, category, from, to) && l in RangeOf(s, category, from, to)
    ensures k in s.data && l in s.data && s.data[k].timestamp < s.data[l].timestamp
  {
    hide BytesLe;
    assert KeyOf(s.data[k]) == k && KeyOf(s.data[l]) == l;
  }

  lemma RangeInTimeOrder(s: State, category: Bytes, from: int64, to: int64)
    requires TotalOrder(TextNumLe) && Cached(s) && NonNegativeIn(s, category)
    ensures InTimeOrder(Values(s.data, Walk(TextNumLe, RangeOf(s, category, from, to))))
  {
    hide BytesLe, TotalOrder, Cached, NonNegativeIn, RangeOf, TextNumLe;
    var part := RangeOf(s, category, from, to);
    var ks := Walk(TextNumLe, part);
    forall i, j | 0 <= i < j < |ks|
      ensures ks[i] in s.data && ks[j] in s.data && s.data[ks[i]].timestamp < s.data[ks[j]].timestamp
    {
      assert ks[i] in part && ks[j] in part && TextNumLe(ks[i], ks[j]) && ks[i] != ks[j];
      LaterInRange(s, category, from, to, ks[i], ks[j]);
    }
  }

  /** Every record is met by a scan, under its own key. */
  lemma ScanHas(s: State, k: DataKey) returns (i: nat)
    requires k in s.data
    ensures i < |Scan(s)| && Scan(s)[i] == s.data[k]
  {
    hide BytesLe, TotalOrder;
    TextNumOrder();
    WalkMembers(TextNumLe, s.data.Keys);
    var ks := Walk(TextNumLe, s.data.Keys);
    assert k in s.data.Keys;
    i :| 0 <= i < |ks| && ks[i] == k;
  }

  lemma ScanOnly(s: State, i: nat) returns (k: DataKey)
    requires Cached(s) && i < |Scan(s)|
    ensures k in s.data && Scan(s)[i] == s.data[k] && KeyOf(s.data[k]) == k
    ensures forall j :: i < j < |Scan(s)| ==> KeyOf(Scan(s)[j]) != k
  {
    hide BytesLe, TotalOrder;
    TextNumOrder();
    var ks := Walk(TextNumLe, s.data.Keys);
    k := ks[i];
    assert ks[i] in s.data.Keys;
    forall j | i < j < |ks|
      ensures KeyOf(Scan(s)[j]) != k
    {
      assert ks[j] in s.data.Keys && KeyOf(s.data[ks[j]]) == ks[j];
    }
  }

  /** The first 1000 of the plain filter of a full scan by category and inclusive time
      range; of a category without a name, or a range that is inverted or starts below zero,
      nothing. */
  function FilteredScan(s: State, category: Bytes, from: int64, to: int64): seq<OracleData> {
    if category == [] || from < 0 || to < from then []
    else First(1_000, Kept(Wanted(category, from, to), Scan(s)))
  }

  /** A history query is that filter, in time order. */
  lemma HistoryIsFilteredScan(s: State, category: Bytes, from: int64, to: int64)
    requires Cached(s) && NonNegativeIn(s, category)
    ensures History(s, category, from, to) == FilteredScan(s, category, from, to)
    ensures InTimeOrder(History(s, category, from, to))
  {
    hide BytesLe, TotalOrder, Walk;
    TextNumOrder();
    if category != [] && 0 <= from <= to {
      RangeIsFilteredScan(s, category, from, to);
      RangeInTimeOrder(s, category, from, to);
    }
  }

  /** The record under time zero is what a query of that one moment finds. */
  lemma HistoryOfZero(s: State, category: Bytes)
    requires category != [] && (category, 0) in s.data
    ensures History(s, category, 0, 0) == [s.data[(category, 0)]]
  {
    hide BytesLe, TotalOrder, IsWalk, Walk;
    TextNumOrder();
    var k: DataKey := (category, 0);
    assert RangeOf(s, category, 0, 0) == {k};
    assert IsWalk(TextNumLe, {k}, [k]) by { SingleWalk(TextNumLe, k); }
    WalkUnique(TextNumLe, {k}, [k], Walk(TextNumLe, {k}));
  }

  lemma SingleWalk(le: (DataKey, DataKey) -> bool, k: DataKey)
    ensures IsWalk(le, {k}, [k])
  {
    assert k == [k][0];
  }

  /** The plain filter finds no record that time zero holds by clamping. */
  lemma FilterOfZero(s: State, category: Bytes)
    requires Cached(s) && (category, 0) in s.data && s.data[(category, 0)].timestamp < 0
    ensures Kept(Wanted(category, 0, 0), Scan(s)) == []
  {
    hide Cached, Scan;
    var kept := Kept(Wanted(category, 0, 0), Scan(s));
    if kept != [] {
      var d := kept[0];
      KeptMembers(Wanted(category, 0, 0), Scan(s), d);
      var i :| 0 <= i < |Scan(s)| && Scan(s)[i] == d;
      var k := ScanOnly(s, i);
      assert false;
    }
  }

  /** Exactly when queries of a category are the plain filter, for every range: when none of
      its records was stored with a negative timestamp. */
  lemma HistoryIsFilterIff(s: State, category: Bytes)
    requires Cached(s) && category != []
    ensures (forall from: int64, to: int64 :: History(s, category, from, to) == FilteredScan(s, category, from, to))
       <==> NonNegativeIn(s, category)
  {
    hide History, Cached;
    if NonNegativeIn(s, category) {
      forall from: int64, to: int64
        ensures History(s, category, from, to) == FilteredScan(s, category, from, to)
      {
        HistoryIsFilteredScan(s, category, from, to);
      }
    } else {
      var k :| k in s.data && k.0 == category && s.data[k].timestamp < 0;
      ClampedKey(s, k);
      HistoryOfZero(s, category);
      FilterOfZero(s, category);
      assert History(s, category, 0, 0) != FilteredScan(s, category, 0, 0);
    }
  }

  lemma ClampedKey(s: State, k: DataKey)
    requires Cached(s) && k in s.data && s.data[k].timestamp < 0
    ensures k == (k.0, 0)
  {
    assert KeyOf(s.data[k]) == k;
  }

  /** Messages that pass their basic validation carry positive timestamps. */
  predicate PositiveTime(e: Event) {
    e.msg.SubmitData? ==> e.msg.timestamp > 0
  }

  lemma {:induction false} RunNonNegative(authority: Bytes, s: State, es: seq<Event>)
    requires NonNegative(s) && forall i :: 0 <= i < |es| ==> PositiveTime(es[i])
    ensures NonNegative(AfterAll(authority, s, es))
    decreases |es|
  {
    hide InWindow;
    if es != [] {
      assert PositiveTime(es[0]);
      assert forall i :: 0 <= i < |es[1..]| ==> es[1..][i] == es[i + 1];
      RunNonNegative(authority, Deliver(authority, s, es[0].block, es[0].msg), es[1..]);
    }
  }

  lemma {:induction false} PutAllNonNegative(m: map<DataKey, OracleData>, ds: seq<OracleData>)
    requires forall k :: k in m ==> m[k].timestamp >= 0
    requires forall i :: 0 <= i < |ds| ==> ds[i].timestamp >= 0
    ensures forall k :: k in PutAll(m, KeyOf, ds) ==> PutAll(m, KeyOf, ds)[k].timestamp >= 0
    decreases |ds|
  {
    if ds != [] {
      assert forall i :: 0 <= i < |ds[1..]| ==> ds[1..][i] == ds[i + 1];
      PutAllNonNegative(m[KeyOf(ds[0]) := ds[0]], ds[1..]);
    }
  }

  lemma ImportNonNegative(g: GenesisState)
    requires forall i :: 0 <= i < |g.data| ==> g.data[i].timestamp >= 0
    ensures NonNegative(Imported(EMPTY, g))
  {
    hide PutAll;
    AllWrittenData(EMPTY.(params := Some(g.params), oracles := PutAll(map[], AddressOf, g.oracles)), g.data);
    PutAllNonNegative(map[], g.data);
  }

  /** From a validated genesis, over every run of messages that pass their basic
      validation, every history query is the plain filter, in time order. */
  lemma HistoryOverRuns(authority: Bytes, g: GenesisState, es: seq<Event>, category: Bytes, from: int64, to: int64)
    requires ValidGenesis(g) && forall i :: 0 <= i < |es| ==> PositiveTime(es[i])
    ensures var s := AfterAll(authority, Imported(EMPTY, g), es);
            && History(s, category, from, to) == FilteredScan(s, category, from, to)
            && InTimeOrder(History(s, category, from, to))
  {
    hide Imported, AfterAll, Cached, History, Scan;
    forall i | 0 <= i < |g.data|
      ensures g.data[i].timestamp >= 0
    {
      assert ValidDatum(g.params, Addresses(g.oracles), g.data[i]);
    }
    ImportNonNegative(g);
    ImportCached(g);
    RunNonNegative(authority, Imported(EMPTY, g), es);
    RunCached(authority, Imported(EMPTY, g), es);
    HistoryIsFilteredScan(AfterAll(authority, Imported(EMPTY, g), es), category, from, to);
  }

  /** An input that breaks the filter: a genesis, which validation refuses, with a record of
      time -1, found under time 0. */
  lemma ClampedTimeIsMisfiled()
    ensures exists g :: !ValidGenesis(g) &&
              History(Imported(EMPTY, g), [1], 0, 0) != FilteredScan(Imported(EMPTY, g), [1], 0, 0)
  {
    hide BytesLe, TotalOrder, History, Scan;
    var d := OracleData([1], [1], [], -1, [], 0);
    var g := GenesisState(DEFAULT_PARAMS, [], [d]);
    var s := Imported(EMPTY, g);
    ImportCached(g);
    AllWrittenData(EMPTY.(params := Some(g.params), oracles := PutAll(map[], AddressOf, g.oracles)), g.data);
    assert [d][1..] == [];
    assert s.data == map[([1], 0) := d];
    HistoryOfZero(s, [1]);
    FilterOfZero(s, [1]);
    assert !ValidDatum(g.params, Addresses(g.oracles), g.data[0]);
  }

  // ------------------------------------------------------------------ restart

  /** The greatest timestamp key of a category. */
  ghost predicate Greatest(s: State, k: DataKey) {
    k in s.data && forall j :: j in s.data && j.0 == k.0 ==> j.1 <= k.1
  }

  lemma {:induction false} AllWrittenData(s: State, ds: seq<OracleData>)
    ensures AllWritten(s, ds).data == PutAll(s.data, KeyOf, ds)
    ensures AllWritten(s, ds).oracles == s.oracles && AllWritten(s, ds).params == s.params
    decreases |ds|
  {
    if ds != [] {
      AllWrittenData(Written(s, ds[0]), ds[1..]);
    }
  }

  /** Writing records along their keys leaves, for each category met, the last of them in
      the cache. */
  lemma {:induction false} RefillLatest(s: State, m: map<DataKey, OracleData>, ks: seq<DataKey>, i: nat)
    requires UnderOwnKey(m, KeyOf) && forall j :: 0 <= j < |ks| ==> ks[j] in m
    requires i < |ks| && LastOf(ks, i, ks[i].0)
    ensures var t := AllWritten(s, Values(m, ks)); ks[i].0 in t.latest && t.latest[ks[i].0] == m[ks[i]]
    decreases |ks|
  {
    var vs := Values(m, ks);
    assert vs[1..] == Values(m, ks[1..]);
    assert forall j :: 0 < j < |ks| ==> ks[j] == ks[1..][j - 1];
    assert KeyOf(vs[0]) == ks[0];
    if i > 0 {
      RefillLatest(Written(s, vs[0]), m, ks[1..], i - 1);
    } else {
      forall j | 0 <= j < |vs[1..]|
        ensures vs[1..][j].category != ks[0].0
      {
        assert KeyOf(vs[1..][j]) == ks[j + 1];
      }
      OtherCategories(Written(s, vs[0]), vs[1..], ks[0].0);
    }
  }

  lemma {:induction false} OtherCategories(s: State, ds: seq<OracleData>, c: Bytes)
    requires c in s.latest && forall j :: 0 <= j < |ds| ==> ds[j].category != c
    ensures c in AllWritten(s, ds).latest && AllWritten(s, ds).latest[c] == s.latest[c]
    decreases |ds|
  {
    if ds != [] {
      assert forall j :: 0 < j < |ds| ==> ds[j] == ds[1..][j - 1];
      OtherCategories(Written(s, ds[0]), ds[1..], c);
    }
  }

  ghost predicate LastOf(ks: seq<DataKey>, i: nat, c: Bytes)
    requires i < |ks|
  {
    ks[i].0 == c && forall j :: i < j < |ks| ==> ks[j].0 != c
  }

  /** In ascending order the last key of a category is its greatest. */
  lemma GreatestIsLast(s: State, k: DataKey) returns (i: nat)
    requires TotalOrder(TextNumLe) && Greatest(s, k)
    ensures var ks := Walk(TextNumLe, s.data.Keys); i < |ks| && ks[i] == k && LastOf(ks, i, k.0)
  {
    hide BytesLe;
    var ks := Walk(TextNumLe, s.data.Keys);
    assert k in ks;
    i :| 0 <= i < |ks| && ks[i] == k;
    forall j | i < j < |ks|
      ensures ks[j].0 != k.0
    {
      assert TextNumLe(ks[i], ks[j]) && ks[i] != ks[j] && ks[j] in s.data.Keys;
    }
  }

  /** Importing an export: the time series comes back exactly; the cache has the same
      categories, each with its record of greatest timestamp. */
  lemma RestartSeries(s: State)
    requires Cached(s)
    ensures var t := Imported(EMPTY, Exported(s));
            && t.data == s.data && t.params == Some(ParamsOf(s))
            && t.latest.Keys == s.latest.Keys
            && forall k :: Greatest(s, k) ==> k.0 in t.latest && t.latest[k.0] == s.data[k]
  {
    hide BytesLe, AllOracles, TotalOrder, PutAll;
    TextNumOrder();
    var g, t := Exported(s), Imported(EMPTY, Exported(s));
    var ks := Walk(TextNumLe, s.data.Keys);
    var start := EMPTY.(params := Some(g.params), oracles := PutAll(map[], AddressOf, g.oracles));
    PutAllRestores(TextNumLe, s.data, KeyOf);
    AllWrittenData(start, g.data);
    forall k | Greatest(s, k)
      ensures k.0 in t.latest && t.latest[k.0] == s.data[k]
    {
      var i := GreatestIsLast(s, k);
      RefillLatest(start, s.data, ks, i);
    }
    ImportCached(g);
    assert t.latest.Keys == s.latest.Keys by {
      CategoriesOfSeries(s);
      CategoriesOfSeries(t);
    }
  }

  lemma CategoriesOfSeries(s: State)
    requires Cached(s)
    ensures s.latest.Keys == set k | k in s.data :: k.0
  {
    forall c | c in s.latest
      ensures c in set k | k in s.data :: k.0
    {
      assert CachedEntry(s, c);
      assert KeyOf(s.latest[c]).0 == c;
    }
  }

  lemma GreatestExists(s: State, c: Bytes) returns (k: DataKey)
    requires Cached(s) && c in s.latest
    ensures Greatest(s, k) && k.0 == c
  {
    hide BytesLe;
    assert CachedEntry(s, c);
    k := KeyOf(s.latest[c]);
    ghost var rest := s.data.Keys;
    while rest != {}
      invariant k in s.data && k.0 == c && rest <= s.data.Keys
      invariant forall j :: j in s.data && j.0 == c && j !in rest ==> j.1 <= k.1
      decreases |rest|
    {
      var j :| j in rest;
      rest := rest - {j};
      if j.0 == c && j.1 > k.1 {
        k := j;
      }
    }
  }

  /** A category's cache entry survives a restart exactly when the last write to it
      carried the greatest timestamp of that category. */
  lemma RestartCacheIff(s: State, c: Bytes)
    requires Cached(s) && c in s.latest
    ensures var t := Imported(EMPTY, Exported(s));
            c in t.latest && (t.latest[c] == s.latest[c] <==> Greatest(s, KeyOf(s.latest[c])))
  {
    hide Imported, Exported;
    RestartSeries(s);
    assert CachedEntry(s, c);
    var k := GreatestExists(s, c);
    if Greatest(s, KeyOf(s.latest[c])) {
      assert KeyOf(s.latest[c]) == k;
    }
    assert KeyOf(s.data[k]) == k;
  }

  /** So a datapoint older than one already stored for its category, when accepted, takes
      the cache, and a restart takes the cache from it. */
  lemma OlderWriteIsForgotten(authority: Bytes, s: State, b: Block, m: Msg, k: DataKey)
    requires Cached(s) && m.SubmitData? && Handle(authority, s, b, m).Some?
    requires k in s.data && k.0 == m.category && k.1 > TimeKey(m.timestamp)
    ensures var t := Deliver(authority, s, b, m);
            var u := Imported(EMPTY, Exported(t));
            && m.category in t.latest && m.category in u.latest
            && t.latest[m.category].timestamp == m.timestamp
            && u.latest[m.category] != t.latest[m.category]
  {
    hide InWindow, Imported, Exported, Cached;
    var t := Deliver(authority, s, b, m);
    EventCached(authority, s, b, m);
    RestartCacheIff(t, m.category);
    assert k in t.data && !Greatest(t, KeyOf(t.latest[m.category]));
  }

  /** It happens: from the default genesis an oracle is registered, submits for time 100
      and then for time 50, both inside the drift window, and the chain is restarted. */
  lemma CacheLostInstance(authority: Bytes)
    ensures exists es: seq<Event>, c ::
              var s := AfterAll(authority, Imported(EMPTY, GenesisState(DEFAULT_PARAMS, [], [])), es);
              var t := Imported(EMPTY, Exported(s));
              (forall i :: 0 <= i < |es| ==> PositiveTime(es[i]))
              && c in s.latest && c in t.latest && s.latest[c] != t.latest[c]
  {
    hide Imported, Exported, Cached;
    var g := GenesisState(DEFAULT_PARAMS, [], []);
    var b := Block(1, 100);
    var add := AddOracle(authority, [1], [1], []);
    var newer, older := SubmitData([1], [2], [3], [], 100), SubmitData([1], [2], [3], [], 50);
    var s0 := Imported(EMPTY, g);
    DefaultImport(g);
    var s1 := Deliver(authority, s0, b, add);
    var s2 := Deliver(authority, s1, b, newer);
    ImportCached(g);
    EventCached(authority, s0, b, add);
    EventCached(authority, s1, b, newer);
    assert ([2], 100) in s2.data;
    OlderWriteIsForgotten(authority, s2, b, older, ([2], 100));
    ThreeEvents(authority, s0, Event(b, add), Event(b, newer), Event(b, older));
    var es := [Event(b, add), Event(b, newer), Event(b, older)];
    var s := AfterAll(authority, s0, es);
    assert forall i :: 0 <= i < |es| ==> PositiveTime(es[i]);
    assert [2] in s.latest && s.latest[[2]] != Imported(EMPTY, Exported(s)).latest[[2]];
  }

  lemma DefaultImport(g: GenesisState)
    requires g == GenesisState(DEFAULT_PARAMS, [], [])
    ensures Imported(EMPTY, g) == EMPTY.(params := Some(DEFAULT_PARAMS))
  {
  }

  lemma ThreeEvents(authority: Bytes, s: State, a: Event, b: Event, c: Event)
    ensures var t := Deliver(authority, s, a.block, a.msg);
            var u := Deliver(authority, t, b.block, b.msg);
            AfterAll(authority, s, [a, b, c]) == Deliver(authority, u, c.block, c.msg)
  {
    hide Deliver;
    assert [a, b, c][1..] == [b, c] && [b, c][1..] == [c] && [c][1..] == [];
    assert forall w :: AfterAll(authority, w, []) == w;
    assert forall w :: AfterAll(authority, w, [c]) == Deliver(authority, w, c.block, c.msg);
  }

  /** The oracle registry survives a restart exactly when it holds at most 1000 entries:
      the export lists no more. */
  lemma RestartRegistryIff(s: State)
    requires Cached(s)
    ensures Imported(EMPTY, Exported(s)).oracles == s.oracles <==> |s.oracles| <= 1_000
  {
    hide BytesLe, TotalOrder, PutAll, Scan;
    TextOrder();
    var ks := Walk(BytesLe, s.oracles.Keys);
    WalkLength(BytesLe, s.oracles.Keys, ks);
    var g := Exported(s);
    var start := EMPTY.(params := Some(g.params), oracles := PutAll(map[], AddressOf, g.oracles));
    AllWrittenData(start, g.data);
    if |s.oracles| <= 1_000 {
      PutAllRestores(BytesLe, s.oracles, AddressOf);
    } else {
      var cut := ks[..1_000];
      assert g.oracles == Values(s.oracles, cut);
      PutAllValues(map[], s.oracles, AddressOf, cut);
      assert ks[1_000] in s.oracles && ks[1_000] !in cut;
      assert ks[1_000] !in Part(s.oracles, cut);
    }
  }

  // ------------------------------------------------------------------ freshness

  /** The sum of two 64-bit values, in range or wrapped around once. */
  lemma AddIntIs(a: int64, b: int64)
    ensures AddInt(a, b) == a + b || AddInt(a, b) == a + b - TWO_64 || AddInt(a, b) == a + b + TWO_64
    ensures 0 - TWO_63 <= a + b < TWO_63 ==> AddInt(a, b) == a + b
  {
    var x := a + b;
    if x < 0 {
      Modulo(x + TWO_64, x, -1);
    } else {
      Modulo(x, x, 0);
    }
  }

  lemma Modulo(r: nat, x: int, q: int)
    requires r < TWO_64 && x == q * TWO_64 + r
    ensures x % TWO_64 == r
  {
  }

  /** A window around the block time that wraps contains nothing. */
  lemma WindowIs(time: int64, drift: int64, timestamp: int64)
    requires drift > 0 && AddInt(time, -drift) <= timestamp <= AddInt(time, drift)
    ensures -drift <= time - timestamp <= drift
  {
    hide AddInt;
    AddIntIs(time, -drift);
    AddIntIs(time, drift);
  }

  lemma AgeIs(age: int)
    requires 0 - TWO_63 < age < TWO_63
    ensures AsInt64(age % TWO_64) == age
  {
    if age < 0 {
      Modulo(age + TWO_64, age, -1);
    } else {
      Modulo(age, age, 0);
    }
  }

  lemma DriftPositive(p: Params)
    ensures Drift(p) > 0 && (p.dataMaxAge > 0 ==> Drift(p) == p.dataMaxAge)
  {
  }

  /** A datapoint just accepted is found, and is not stale at the same block time. Whatever
      the block time, the drift window that accepted it did not wrap. */
  lemma AcceptedIsFresh(authority: Bytes, s: State, b: Block, m: Msg)
    requires m.SubmitData? && Handle(authority, s, b, m).Some?
    ensures FreshLatest(Deliver(authority, s, b, m), b.time, m.category)
         == Found(OracleData(m.category, m.value, m.metadata, m.timestamp, m.submitter, b.height), false)
  {
    hide AddInt, AsInt64, Drift, Authorized;
    DriftPositive(ParamsOf(s));
    WindowIs(b.time, Drift(ParamsOf(s)), m.timestamp);
    AgeIs(b.time - m.timestamp);
  }

  // ------------------------------------------------------------------ registration

  /** Whether a run contains no accepted registration of `who`. */
  predicate NeverAdded(authority: Bytes, es: seq<Event>, who: Bytes) {
    forall i :: 0 <= i < |es| && es[i].msg.AddOracle? && es[i].msg.address == who ==> es[i].msg.authority != authority
  }

  /** An address that is not registered, a removed oracle for instance, writes nothing
      until it is registered: whatever is stored in its name was stored before. */
  lemma {:induction false} UnregisteredIsSilent(authority: Bytes, s: State, es: seq<Event>, who: Bytes)
    requires who !in s.oracles && NeverAdded(authority, es, who)
    ensures var t := AfterAll(authority, s, es);
            && who !in t.oracles
            && forall k :: k in t.data && t.data[k].submitter == who ==> k in s.data && s.data[k] == t.data[k]
    decreases |es|
  {
    hide InWindow;
    if es != [] {
      var s' := Deliver(authority, s, es[0].block, es[0].msg);
      assert who !in s'.oracles;
      assert forall i :: 0 <= i < |es[1..]| ==> es[1..][i] == es[i + 1];
      UnregisteredIsSilent(authority, s', es[1..], who);
    }
  }
}
