/** Who may do what to the oracle module and what exactly it changes, and how long a
    datapoint stays fresh: on integers, message by message and over runs. */
module OracleLaws {
  import opened Machine
  import opened Store
  import opened OracleState
  import opened OracleRuns
  import OracleKeeper
  import OracleExports

  // ------------------------------------------------------------------ parameters

  predicate InRange(p: Params) {
    1 <= p.minSubmissions && 1 <= p.dataMaxAge <= 31_536_000 && 128 <= p.maxMetadataSize <= 65_536
  }

  lemma ParamsAre(s: State)
    ensures s.params.None? ==> ParamsOf(s) == Params(1, 3_600, 4_096)
    ensures s.params.Some? ==> ParamsOf(s) == s.params.value
    ensures forall p :: ValidParams(p) <==> InRange(p)
  {
  }

  // ------------------------------------------------------------------ messages

  /** Registered, active, and listed for the category or for all. */
  predicate MayReport(s: State, who: Bytes, category: Bytes) {
    && who in s.oracles
    && var o := s.oracles[who];
       o.active && (|o.categories| == 0 || exists i :: 0 <= i < |o.categories| && o.categories[i] == category)
  }

  /** How far a timestamp may lie from the block time. */
  function Tolerance(s: State): int {
    if ParamsOf(s).dataMaxAge <= 0 then 3_600 else ParamsOf(s).dataMaxAge
  }

  /** Within the tolerance, provided neither end of the window leaves the 64-bit range: a
      window that does is empty. */
  predicate Near(s: State, time: int64, timestamp: int64) {
    && -0x8000_0000_0000_0000 <= time - Tolerance(s) && time + Tolerance(s) < 0x8000_0000_0000_0000
    && time - Tolerance(s) <= timestamp <= time + Tolerance(s)
  }

  lemma NearIff(s: State, time: int64, timestamp: int64)
    ensures InWindow(ParamsOf(s), time, timestamp) <==> Near(s, time, timestamp)
  {
    hide AddInt;
    var d := Drift(ParamsOf(s));
    AddIntIs(time, -d);
    AddIntIs(time, d);
  }

  /** A datapoint is accepted if and only if its submitter may report on the category, its
      metadata is small enough, and its timestamp is near the block time; then it is stored
      under its category and time and as the latest of its category; otherwise nothing
      changes. */
  lemma SubmitIff(authority: Bytes, s: State, b: Block, who: Bytes, category: Bytes, value: Bytes,
                  metadata: Bytes, ts: int64)
    ensures var m := SubmitData(who, category, value, metadata, ts);
            var d := OracleData(category, value, metadata, ts, who, b.height);
            var accepted := && MayReport(s, who, category)
                            && (ParamsOf(s).maxMetadataSize == 0
                                || |metadata| % 0x1_0000_0000 <= ParamsOf(s).maxMetadataSize)
                            && Near(s, b.time, ts);
            && (Handle(authority, s, b, m).Some? <==> accepted)
            && Deliver(authority, s, b, m) ==
               if accepted
               then State(s.params, s.oracles, s.data[(category, if ts < 0 then 0 else ts) := d], s.latest[category := d])
               else s
  {
    hide InWindow, Near;
    NearIff(s, b.time, ts);
  }

  /** Only the authority registers an oracle; it is then active, under its address, with the
      name and categories given. */
  lemma AddIff(authority: Bytes, s: State, b: Block, signer: Bytes, address: Bytes, name: Bytes, categories: seq<Bytes>)
    ensures var m := AddOracle(signer, address, name, categories);
            && (Handle(authority, s, b, m).Some? <==> signer == authority)
            && Deliver(authority, s, b, m) ==
               if signer == authority
               then State(s.params, s.oracles[address := OracleInfo(address, name, true, categories)], s.data, s.latest)
               else s
  {
  }

  /** Only the authority removes an oracle, and only one that is registered; data stays. */
  lemma RemoveIff(authority: Bytes, s: State, b: Block, signer: Bytes, address: Bytes)
    ensures var m := RemoveOracle(signer, address);
            && (Handle(authority, s, b, m).Some? <==> signer == authority && address in s.oracles)
            && Deliver(authority, s, b, m) ==
               if signer == authority && address in s.oracles
               then State(s.params, map a | a in s.oracles && a != address :: s.oracles[a], s.data, s.latest)
               else s
  {
    var t := Deliver(authority, s, b, RemoveOracle(signer, address));
    if signer == authority && address in s.oracles {
      assert t.oracles == map a | a in s.oracles && a != address :: s.oracles[a];
    }
  }

  /** Only the authority sets parameters, and only in range. */
  lemma UpdateIff(authority: Bytes, s: State, b: Block, signer: Bytes, p: Params)
    ensures Handle(authority, s, b, UpdateParams(signer, p)).Some? <==> signer == authority && InRange(p)
    ensures Deliver(authority, s, b, UpdateParams(signer, p)) ==
            if signer == authority && InRange(p) then State(Some(p), s.oracles, s.data, s.latest) else s
  {
  }

  // ------------------------------------------------------------------ over runs

  function Signer(m: Msg): Bytes {
    match m
    case SubmitData(who, _, _, _, _) => who
    case AddOracle(signer, _, _, _) => signer
    case RemoveOracle(signer, _) => signer
    case UpdateParams(signer, _) => signer
  }

  lemma EventSettings(authority: Bytes, s: State, e: Event)
    requires e.msg.SubmitData? || Signer(e.msg) != authority
    ensures var t := Deliver(authority, s, e.block, e.msg); t.params == s.params && t.oracles == s.oracles
  {
    hide InWindow;
  }

  /** Over every run: parameters and registry change only through messages that the
      authority signed. */
  lemma {:induction false} SettingsChangedBy(authority: Bytes, s: State, es: seq<Event>)
    requires AfterAll(authority, s, es).params != s.params || AfterAll(authority, s, es).oracles != s.oracles
    ensures exists i :: 0 <= i < |es| && !es[i].msg.SubmitData? && Signer(es[i].msg) == authority
    decreases |es|
  {
    hide Deliver, Signer;
    if es != [] && (es[0].msg.SubmitData? || Signer(es[0].msg) != authority) {
      EventSettings(authority, s, es[0]);
      var s' := Deliver(authority, s, es[0].block, es[0].msg);
      SettingsChangedBy(authority, s', es[1..]);
      var i :| 0 <= i < |es[1..]| && !es[1..][i].msg.SubmitData? && Signer(es[1..][i].msg) == authority;
      assert es[i + 1] == es[1..][i];
    }
  }

  // ------------------------------------------------------------------ freshness

  /** What a query for the latest datapoint answers: it is stale exactly when there is a
      maximal age and the datapoint is older, on integers; where the age leaves the 64-bit
      range it is off by 2^64. */
  lemma FreshnessIs(s: State, time: int64, category: Bytes)
    ensures category !in s.latest ==> FreshLatest(s, time, category) == Missing
    ensures category in s.latest ==>
              var d, maxAge := s.latest[category], ParamsOf(s).dataMaxAge;
              var age := time - d.timestamp;
              FreshLatest(s, time, category) == Found(d,
                maxAge > 0 && (if age >= 0x8000_0000_0000_0000 then age - 0x1_0000_0000_0000_0000
                               else if age < -0x8000_0000_0000_0000 then age + 0x1_0000_0000_0000_0000
                               else age) > maxAge)
  {
    if category in s.latest {
      WrappedAge(time - s.latest[category].timestamp);
    }
  }

  lemma WrappedAge(age: int)
    requires -0x1_0000_0000_0000_0000 < age < 0x1_0000_0000_0000_0000
    ensures AsInt64(age % TWO_64) ==
            if age >= 0x8000_0000_0000_0000 then age - 0x1_0000_0000_0000_0000
            else if age < -0x8000_0000_0000_0000 then age + 0x1_0000_0000_0000_0000
            else age
  {
    if age < 0 {
      Modulo(age + TWO_64, age, -1);
    } else {
      Modulo(age, age, 0);
    }
  }

  predicate OnOther(e: Event, category: Bytes) {
    e.msg.SubmitData? ==> e.msg.category != category
  }

  lemma {:induction false} LatestStays(authority: Bytes, s: State, es: seq<Event>, category: Bytes)
    requires category in s.latest && forall i :: 0 <= i < |es| ==> OnOther(es[i], category)
    ensures var t := AfterAll(authority, s, es); category in t.latest && t.latest[category] == s.latest[category]
    decreases |es|
  {
    hide InWindow;
    if es != [] {
      assert OnOther(es[0], category);
      assert forall i :: 0 <= i < |es[1..]| ==> es[1..][i] == es[i + 1];
      LatestStays(authority, Deliver(authority, s, es[0].block, es[0].msg), es[1..], category);
    }
  }

  /** A datapoint accepted and then left alone is found, over every run, fresh up to its
      timestamp plus the maximal age then in force, and stale at every later block time. */
  lemma FreshUntil(authority: Bytes, s: State, b: Block, m: Msg, es: seq<Event>, time: int64)
    requires m.SubmitData? && Handle(authority, s, b, m).Some?
    requires forall i :: 0 <= i < |es| ==> OnOther(es[i], m.category)
    requires -0x8000_0000_0000_0000 <= time - m.timestamp < 0x8000_0000_0000_0000
    ensures var t := AfterAll(authority, Deliver(authority, s, b, m), es);
            var d := OracleData(m.category, m.value, m.metadata, m.timestamp, m.submitter, b.height);
            && (time <= m.timestamp + ParamsOf(t).dataMaxAge ==> FreshLatest(t, time, m.category) == Found(d, false))
            && (ParamsOf(t).dataMaxAge > 0 && time > m.timestamp + ParamsOf(t).dataMaxAge
                ==> FreshLatest(t, time, m.category) == Found(d, true))
  {
    hide FreshLatest, Near;
    SubmitIff(authority, s, b, m.submitter, m.category, m.value, m.metadata, m.timestamp);
    var s' := Deliver(authority, s, b, m);
    LatestStays(authority, s', es, m.category);
    FreshnessIs(AfterAll(authority, s', es), time, m.category);
  }

  // ------------------------------------------------------------------ genesis

  /** Which genesis states validate. */
  lemma ValidGenesisIff(g: GenesisState)
    ensures ValidGenesis(g) <==>
            && InRange(g.params)
            && (forall i :: 0 <= i < |g.oracles| ==> |g.oracles[i].address| > 0 && |g.oracles[i].name| > 0)
            && AllDifferent(Mapped(AddressOf, g.oracles))
            && (forall i :: 0 <= i < |g.data| ==>
                  var d := g.data[i];
                  && |d.category| > 0 && |d.value| > 0 && 1 <= d.timestamp <= 253_402_300_800
                  && (|d.submitter| == 0 || exists j :: 0 <= j < |g.oracles| && g.oracles[j].address == d.submitter)
                  && |d.metadata| % 0x1_0000_0000 <= g.params.maxMetadataSize)
            && (forall i, j :: 0 <= i < j < |g.data| ==>
                  g.data[i].category != g.data[j].category || g.data[i].timestamp != g.data[j].timestamp)
  {
    forall i | 0 <= i < |g.oracles|
      ensures Mapped(AddressOf, g.oracles)[i] == g.oracles[i].address
    {
      assert AddressOf(g.oracles[i]) == g.oracles[i].address;
    }
    forall i | 0 <= i < |g.data|
      ensures ValidDatum(g.params, Addresses(g.oracles), g.data[i]) <==>
              var d := g.data[i];
              && |d.category| > 0 && |d.value| > 0 && 1 <= d.timestamp <= 253_402_300_800
              && (|d.submitter| == 0 || exists j :: 0 <= j < |g.oracles| && g.oracles[j].address == d.submitter)
              && |d.metadata| % 0x1_0000_0000 <= g.params.maxMetadataSize
    {
      KnownSubmitter(g.oracles, g.data[i].submitter);
    }
    assert forall i, j :: 0 <= i < j < |g.data| ==>
      ((SeriesKey(g.data[i]) != SeriesKey(g.data[j])) <==>
       (g.data[i].category != g.data[j].category || g.data[i].timestamp != g.data[j].timestamp));
  }

  lemma KnownSubmitter(os: seq<OracleInfo>, who: Bytes)
    ensures who in Addresses(os) <==> exists j :: 0 <= j < |os| && os[j].address == who
  {
  }

  /** What importing a genesis into an empty store gives: its parameters, and under each
      address the last oracle listed with it. */
  lemma ImportedOracles(g: GenesisState)
    ensures var s, os := Imported(EMPTY, g), g.oracles;
            && s.params == Some(g.params)
            && (forall i :: 0 <= i < |os| && (forall j :: i < j < |os| ==> os[j].address != os[i].address)
                  ==> os[i].address in s.oracles && s.oracles[os[i].address] == os[i])
            && (forall a :: a in s.oracles ==> exists i :: 0 <= i < |os| && os[i].address == a)
  {
    hide PutAll;
    var none: map<Bytes, OracleInfo> := map[];
    var s, os := Imported(EMPTY, g), g.oracles;
    AllWrittenData(EMPTY.(params := Some(g.params), oracles := PutAll(none, AddressOf, os)), g.data);
    forall i | 0 <= i < |os| && forall j :: i < j < |os| ==> os[j].address != os[i].address
      ensures os[i].address in s.oracles && s.oracles[os[i].address] == os[i]
    {
      PutAllLast(none, AddressOf, os, i);
    }
    forall a | a in s.oracles
      ensures exists i :: 0 <= i < |os| && os[i].address == a
    {
      PutAllKeys(none, AddressOf, os, a);
      var i :| 0 <= i < |os| && AddressOf(os[i]) == a;
    }
  }

  /** Under each key the last datapoint filed there. */
  lemma ImportedData(g: GenesisState)
    ensures var s, ds := Imported(EMPTY, g), g.data;
            && (forall i :: 0 <= i < |ds| && (forall j :: i < j < |ds| ==> Filed(ds[j]) != Filed(ds[i]))
                  ==> Filed(ds[i]) in s.data && s.data[Filed(ds[i])] == ds[i])
            && (forall k :: k in s.data ==> exists i :: 0 <= i < |ds| && Filed(ds[i]) == k)
  {
    hide PutAll, Imported;
    var none: map<DataKey, OracleData> := map[];
    var s, ds := Imported(EMPTY, g), g.data;
    SeriesImported(g);
    FiledIsKey();
    hide KeyOf, Filed;
    forall i | 0 <= i < |ds| && forall j :: i < j < |ds| ==> Filed(ds[j]) != Filed(ds[i])
      ensures Filed(ds[i]) in s.data && s.data[Filed(ds[i])] == ds[i]
    {
      PutAllLast(none, KeyOf, ds, i);
    }
    forall k | k in s.data
      ensures exists i :: 0 <= i < |ds| && Filed(ds[i]) == k
    {
      PutAllKeys(none, KeyOf, ds, k);
      var i :| 0 <= i < |ds| && KeyOf(ds[i]) == k;
      assert Filed(ds[i]) == k;
    }
  }

  lemma FiledIsKey()
    ensures forall d :: Filed(d) == KeyOf(d)
  {
  }

  lemma SeriesImported(g: GenesisState)
    ensures Imported(EMPTY, g).data == PutAll(map[], KeyOf, g.data)
  {
    hide PutAll;
    AllWrittenData(EMPTY.(params := Some(g.params), oracles := PutAll(map[], AddressOf, g.oracles)), g.data);
  }

  /** As the latest of a category the last one listed for it. */
  lemma ImportedLatest(g: GenesisState, i: nat)
    requires i < |g.data| && forall j :: i < j < |g.data| ==> g.data[j].category != g.data[i].category
    ensures var s, c := Imported(EMPTY, g), g.data[i].category; c in s.latest && s.latest[c] == g.data[i]
  {
    hide PutAll, AllWritten;
    LastIsLatest(EMPTY.(params := Some(g.params), oracles := PutAll(map[], AddressOf, g.oracles)), g.data, i);
  }

  /** Where a datapoint is filed: by category, and by time with negative times as zero. */
  function Filed(d: OracleData): DataKey {
    (d.category, if d.timestamp < 0 then 0 else d.timestamp)
  }

  lemma {:induction false} LastIsLatest(s: State, ds: seq<OracleData>, i: nat)
    requires i < |ds| && forall j :: i < j < |ds| ==> ds[j].category != ds[i].category
    ensures var t := AllWritten(s, ds); ds[i].category in t.latest && t.latest[ds[i].category] == ds[i]
    decreases |ds|
  {
    assert forall j :: 0 < j < |ds| ==> ds[j] == ds[1..][j - 1];
    assert forall j :: 0 <= j < |ds[1..]| ==> ds[1..][j] == ds[j + 1];
    if i > 0 {
      LastIsLatest(Written(s, ds[0]), ds[1..], i - 1);
    } else {
      OtherCategories(Written(s, ds[0]), ds[1..], ds[0].category);
    }
  }

  /** An export lists oracles by address and datapoints by category and then by time. */
  lemma ExportInOrder(s: State)
    requires Cached(s)
    ensures var g := Exported(s);
            && g.params == ParamsOf(s) && |g.data| == |s.data|
            && (forall i, j :: 0 <= i < j < |g.oracles| ==> Precedes(g.oracles[i].address, g.oracles[j].address))
            && (forall i, j :: 0 <= i < j < |g.data| ==>
                  Precedes(g.data[i].category, g.data[j].category)
                  || (g.data[i].category == g.data[j].category && Filed(g.data[i]).1 < Filed(g.data[j]).1))
  {
    hide BytesLe, Precedes, TotalOrder, Cached, Walk, Values, Scan;
    OwnAddresses(s);
    OraclesInOrder(s);
    ScanInOrder(s);
  }

  lemma OraclesInOrder(s: State)
    requires UnderOwnKey(s.oracles, AddressOf)
    ensures forall i, j :: 0 <= i < j < |AllOracles(s)| ==> Precedes(AllOracles(s)[i].address, AllOracles(s)[j].address)
  {
    hide BytesLe, Precedes, TotalOrder;
    TextOrder();
    ValuesInOrder(s.oracles, AddressOf);
    assert forall o :: AddressOf(o) == o.address;
  }

  lemma ScanInOrder(s: State)
    requires Cached(s)
    ensures |Scan(s)| == |s.data|
    ensures forall i, j :: 0 <= i < j < |Scan(s)| ==>
              Precedes(Scan(s)[i].category, Scan(s)[j].category)
              || (Scan(s)[i].category == Scan(s)[j].category && Filed(Scan(s)[i]).1 < Filed(Scan(s)[j]).1)
  {
    hide BytesLe, Precedes, TotalOrder, Cached, Scan, Walk;
    TextNumOrder();
    ScanLength(s);
    forall i, j | 0 <= i < j < |Scan(s)|
      ensures Precedes(Scan(s)[i].category, Scan(s)[j].category)
              || (Scan(s)[i].category == Scan(s)[j].category && Filed(Scan(s)[i]).1 < Filed(Scan(s)[j]).1)
    {
      ScanPair(s, i, j);
    }
  }

  lemma ScanLength(s: State)
    requires TotalOrder(TextNumLe)
    ensures |Scan(s)| == |s.data|
  {
    hide BytesLe, TotalOrder;
    WalkLength(TextNumLe, s.data.Keys, Walk(TextNumLe, s.data.Keys));
  }

  lemma ScanKey(s: State, i: nat) returns (k: DataKey)
    requires Cached(s) && TotalOrder(TextNumLe) && i < |Walk(TextNumLe, s.data.Keys)|
    ensures k == Walk(TextNumLe, s.data.Keys)[i] && i < |Scan(s)|
    ensures (Scan(s)[i].category, Filed(Scan(s)[i]).1) == k
  {
    hide BytesLe, TotalOrder;
    k := Walk(TextNumLe, s.data.Keys)[i];
    assert k in s.data.Keys && KeyOf(s.data[k]) == k;
  }

  lemma KeyOrder(k: DataKey, l: DataKey)
    requires TextNumLe(k, l) && k != l
    ensures Precedes(k.0, l.0) || (k.0 == l.0 && k.1 < l.1)
  {
    hide BytesLe, Precedes;
    BytesLeIff(k.0, l.0);
  }

  lemma ScanPair(s: State, i: nat, j: nat)
    requires Cached(s) && TotalOrder(TextNumLe) && i < j < |Scan(s)|
    ensures var a, b := Scan(s)[i], Scan(s)[j];
            Precedes(a.category, b.category) || (a.category == b.category && Filed(a).1 < Filed(b).1)
  {
    hide BytesLe, Precedes, TotalOrder, Cached, TextNumLe, KeyOf;
    ScanLength(s);
    WalkLength(TextNumLe, s.data.Keys, Walk(TextNumLe, s.data.Keys));
    var k := ScanKey(s, i);
    var l := ScanKey(s, j);
    KeyOrder(k, l);
  }

  // ------------------------------------------------------------------ checker

  /** What the cache checker looks for: a cached record whose place in the series is empty,
      or holds another value or submitter. */
  lemma CacheMatchesIff(s: State)
    ensures OracleKeeper.CacheMatches(s) <==>
            forall c :: c in s.latest ==>
              var d, k := s.latest[c], (c, if s.latest[c].timestamp < 0 then 0 else s.latest[c].timestamp);
              k in s.data && s.data[k].value == d.value && s.data[k].submitter == d.submitter
  {
    forall c | c in s.latest
      ensures OracleKeeper.EntryMatches(s, c) <==>
              var d, k := s.latest[c], (c, if s.latest[c].timestamp < 0 then 0 else s.latest[c].timestamp);
              k in s.data && s.data[k].value == d.value && s.data[k].submitter == d.submitter
    {
    }
  }
}
