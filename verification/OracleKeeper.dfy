/** The oracle keeper and message server, and the checker of the cache. */
module OracleKeeper {
  import opened Machine
  import opened Store
  import opened OracleState

  class Keeper {
    const authority: Bytes

    var params: Option<Params>
    var oracles: map<Bytes, OracleInfo>
    var data: map<DataKey, OracleData>
    var latestData: map<Bytes, OracleData>

    function View(): State
      reads this
    {
      State(params, oracles, data, latestData)
    }

    constructor (authority: Bytes)
      ensures this.authority == authority && View() == EMPTY
    {
      this.authority := authority;
      params, oracles, data, latestData := None, map[], map[], map[];
    }

    method SetOracleData(d: OracleData)
      modifies `data, `latestData
      ensures View() == old(Written(View(), d))
    {
      data := data[(d.category, TimeKey(d.timestamp)) := d];
      latestData := latestData[d.category := d];
    }

    method IsAuthorizedOracle(address: Bytes, category: Bytes) returns (ok: bool)
      ensures ok == Authorized(View(), address, category)
    {
      if address !in oracles {
        return false;
      }
      var o := oracles[address];
      if !o.active {
        return false;
      }
      if |o.categories| == 0 {
        return true;
      }
      for i := 0 to |o.categories|
        invariant category !in o.categories[..i]
      {
        if o.categories[i] == category {
          return true;
        }
      }
      return false;
    }

    // ---------------------------------------------------------------- messages

    method SubmitData(b: Block, submitter: Bytes, category: Bytes, value: Bytes, metadata: Bytes, timestamp: int64)
      returns (ok: bool)
      modifies `data, `latestData
      ensures View() == old(Deliver(authority, View(), b, Msg.SubmitData(submitter, category, value, metadata, timestamp)))
      ensures ok == old(Handle(authority, View(), b, Msg.SubmitData(submitter, category, value, metadata, timestamp))).Some?
    {
      var authorized := IsAuthorizedOracle(submitter, category);
      if !authorized {
        return false;
      }
      var p := ParamsOf(View());
      if p.maxMetadataSize > 0 && |metadata| % TWO_32 > p.maxMetadataSize {
        return false;
      }
      var maxDrift := p.dataMaxAge;
      if maxDrift <= 0 {
        maxDrift := 3600;
      }
      if timestamp > AddInt(b.time, maxDrift) {
        return false;
      }
      if timestamp < AddInt(b.time, -maxDrift) {
        return false;
      }
      SetOracleData(OracleData(category, value, metadata, timestamp, submitter, b.height));
      return true;
    }

    method AddOracle(b: Block, signer: Bytes, address: Bytes, name: Bytes, categories: seq<Bytes>) returns (ok: bool)
      modifies `oracles
      ensures View() == old(Deliver(authority, View(), b, Msg.AddOracle(signer, address, name, categories)))
      ensures ok == old(Handle(authority, View(), b, Msg.AddOracle(signer, address, name, categories))).Some?
    {
      if signer != authority {
        return false;
      }
      oracles := oracles[address := OracleInfo(address, name, true, categories)];
      return true;
    }

    method RemoveOracle(b: Block, signer: Bytes, address: Bytes) returns (ok: bool)
      modifies `oracles
      ensures View() == old(Deliver(authority, View(), b, Msg.RemoveOracle(signer, address)))
      ensures ok == old(Handle(authority, View(), b, Msg.RemoveOracle(signer, address))).Some?
    {
      if signer != authority {
        return false;
      }
      if address !in oracles {
        return false;
      }
      oracles := oracles - {address};
      return true;
    }

    method UpdateParams(b: Block, signer: Bytes, p: Params) returns (ok: bool)
      modifies `params
      ensures View() == old(Deliver(authority, View(), b, Msg.UpdateParams(signer, p)))
      ensures ok == old(Handle(authority, View(), b, Msg.UpdateParams(signer, p))).Some?
    {
      if signer != authority {
        return false;
      }
      if !ValidParams(p) {
        return false;
      }
      params := Some(p);
      return true;
    }

    // ---------------------------------------------------------------- queries

    method GetFreshLatestData(time: int64, category: Bytes) returns (r: Fresh)
      ensures r == FreshLatest(View(), time, category)
    {
      if category !in latestData {
        return Missing;
      }
      var d := latestData[category];
      var maxAge := ParamsOf(View()).dataMaxAge;
      if maxAge <= 0 {
        return Found(d, false);
      }
      if AsInt64((time - d.timestamp) % TWO_64) > maxAge {
        return Found(d, true);
      }
      return Found(d, false);
    }

    method GetDataHistory(category: Bytes, fromTime: int64, toTime: int64) returns (results: seq<OracleData>)
      ensures results == History(View(), category, fromTime, toTime)
    {
      if category == [] || fromTime < 0 || toTime < fromTime {
        return [];
      }
      var endTS: uint64 := toTime;
      if endTS < TWO_64 - 1 {
        endTS := endTS + 1;
      }
      TextNumOrder();
      var range := set k | k in data && k.0 == category && fromTime <= k.1 < endTS;
      assert range == RangeOf(View(), category, fromTime, toTime);
      results := WalkFirst(MAX_HISTORY, data, Walk(TextNumLe, range));
    }

    method GetAllOracles() returns (found: seq<OracleInfo>)
      ensures found == AllOracles(View())
    {
      TextOrder();
      found := WalkFirst(MAX_ORACLES, oracles, Walk(BytesLe, oracles.Keys));
    }

    // ---------------------------------------------------------------- genesis

    method InitGenesis(g: GenesisState)
      modifies this
      ensures View() == old(Imported(View(), g))
    {
      params := Some(g.params);
      ghost var all := PutAll(oracles, AddressOf, g.oracles);
      ghost var start := View();
      assert g.oracles[0..] == g.oracles && g.data[0..] == g.data;
      for i := 0 to |g.oracles|
        invariant View() == start.(oracles := oracles)
        invariant all == PutAll(oracles, AddressOf, g.oracles[i..])
      {
        assert g.oracles[i..][1..] == g.oracles[i + 1..];
        oracles := oracles[g.oracles[i].address := g.oracles[i]];
      }
      ghost var goal := AllWritten(View(), g.data);
      for i := 0 to |g.data|
        invariant goal == AllWritten(View(), g.data[i..])
      {
        assert g.data[i..][1..] == g.data[i + 1..];
        SetOracleData(g.data[i]);
      }
    }

    method ExportGenesis() returns (g: GenesisState)
      ensures g == Exported(View())
    {
      TextNumOrder();
      var series := WalkValues(TextNumLe, data);
      var found := GetAllOracles();
      g := GenesisState(ParamsOf(View()), found, series);
    }

    /** `GenesisState.Validate`, with the timestamps seen so far kept per category. */
    static method ValidateGenesis(g: GenesisState) returns (ok: bool)
      ensures ok <==> ValidGenesis(g)
    {
      if !ValidParams(g.params) {
        return false;
      }
      var oracleAddrs: set<Bytes> := {};
      for i := 0 to |g.oracles|
        invariant oracleAddrs == set j | 0 <= j < i :: g.oracles[j].address
        invariant forall j :: 0 <= j < i ==> g.oracles[j].address != [] && g.oracles[j].name != []
        invariant forall j, k :: 0 <= j < k < i ==> g.oracles[j].address != g.oracles[k].address
      {
        var o := g.oracles[i];
        if o.address == [] || o.address in oracleAddrs || o.name == [] {
          return false;
        }
        oracleAddrs := oracleAddrs + {o.address};
      }
      assert oracleAddrs == Addresses(g.oracles);
      ok := ValidateData(g.params, oracleAddrs, g.data);
    }

    static method ValidateData(p: Params, oracleAddrs: set<Bytes>, data: seq<OracleData>) returns (ok: bool)
      ensures ok <==> && (forall i :: 0 <= i < |data| ==> ValidDatum(p, oracleAddrs, data[i]))
                      && (forall i, j :: 0 <= i < j < |data| ==> SeriesKey(data[i]) != SeriesKey(data[j]))
    {
      hide SeenAt;
      var seen: map<Bytes, set<int64>> := map[];
      NothingSeen();
      for i := 0 to |data|
        invariant forall j :: 0 <= j < i ==> ValidDatum(p, oracleAddrs, data[j])
        invariant forall j, k :: 0 <= j < k < i ==> SeriesKey(data[j]) != SeriesKey(data[k])
        invariant SeenIs(seen, data[..i])
      {
        var d := data[i];
        if d.category == [] || d.value == [] || d.timestamp <= 0 || d.timestamp > MAX_TIMESTAMP {
          return false;
        }
        if d.submitter != [] && d.submitter !in oracleAddrs {
          return false;
        }
        if |d.metadata| % TWO_32 > p.maxMetadataSize {
          return false;
        }
        ghost var before := seen;
        if d.category !in seen {
          seen := seen[d.category := {}];
        }
        if d.timestamp in seen[d.category] {
          ghost var j := SeenHas(data, i, d.category, d.timestamp);
          assert SeriesKey(data[j]) == SeriesKey(data[i]);
          return false;
        }
        seen := seen[d.category := seen[d.category] + {d.timestamp}];
        SeenMore(before, data[..i], d);
        assert data[..i + 1] == data[..i] + [d];
        assert forall j :: 0 <= j < i ==> data[..i][j] == data[j];
      }
      return true;
    }

    // ---------------------------------------------------------------- checker

    /** `LatestDataConsistencyInvariant`: although the walk stops after ten findings, it is
        broken exactly when some cached record has no matching one in the time series. */
    method LatestDataBroken() returns (broken: bool)
      ensures broken <==> !CacheMatches(View())
    {
      hide TotalOrder, BytesLe;
      TextOrder();
      var keys := Walk(BytesLe, latestData.Keys);
      var problems: seq<Bytes> := [];
      var i := 0;
      while i < |keys|
        invariant 0 <= i <= |keys|
        invariant problems == [] ==> forall j :: 0 <= j < i ==> EntryMatches(View(), keys[j])
        invariant forall c :: c in problems ==> c in latestData && !EntryMatches(View(), c)
      {
        var category := keys[i];
        var latest := latestData[category];
        var key := (category, TimeKey(latest.timestamp));
        i := i + 1;
        if key !in data || data[key].value != latest.value || data[key].submitter != latest.submitter {
          problems := problems + [category];
          if |problems| >= 10 {
            break;
          }
        }
      }
      if |problems| > 0 {
        assert problems[0] in problems;
        return true;
      }
      return false;
    }
  }

  ghost predicate SeenAt(data: seq<OracleData>, c: Bytes, t: int64) {
    exists j :: 0 <= j < |data| && SeriesKey(data[j]) == (c, t)
  }

  /** The timestamps seen, per category, are those of the data gone through. */
  ghost predicate SeenIs(seen: map<Bytes, set<int64>>, data: seq<OracleData>) {
    && (forall j :: 0 <= j < |data| ==> data[j].category in seen && data[j].timestamp in seen[data[j].category])
    && (forall c, t :: c in seen && t in seen[c] ==> SeenAt(data, c, t))
  }

  lemma NothingSeen()
    ensures SeenIs(map[], [])
  {
  }

  lemma SeenHas(data: seq<OracleData>, i: nat, c: Bytes, t: int64) returns (j: nat)
    requires i <= |data| && SeenAt(data[..i], c, t)
    ensures j < i && SeriesKey(data[j]) == (c, t)
  {
    j :| 0 <= j < i && SeriesKey(data[..i][j]) == (c, t);
  }

  lemma SeenMore(seen: map<Bytes, set<int64>>, data: seq<OracleData>, d: OracleData)
    requires SeenIs(seen, data)
    ensures var old' := if d.category in seen then seen[d.category] else {};
            SeenIs(seen[d.category := old' + {d.timestamp}], data + [d])
  {
    var old' := if d.category in seen then seen[d.category] else {};
    var seen' := seen[d.category := old' + {d.timestamp}];
    var more := data + [d];
    forall c, t | c in seen' && t in seen'[c]
      ensures SeenAt(more, c, t)
    {
      if (c, t) == SeriesKey(d) {
        assert SeriesKey(more[|data|]) == (c, t);
      } else {
        assert SeenAt(data, c, t);
        var j :| 0 <= j < |data| && SeriesKey(data[j]) == (c, t);
        assert SeriesKey(more[j]) == (c, t);
      }
    }
  }

  predicate EntryMatches(s: State, category: Bytes)
    requires category in s.latest
  {
    var latest := s.latest[category];
    var key := (category, TimeKey(latest.timestamp));
    key in s.data && s.data[key].value == latest.value && s.data[key].submitter == latest.submitter
  }

  ghost predicate CacheMatches(s: State) {
    forall c :: c in s.latest ==> EntryMatches(s, c)
  }
}
