/** Genesis validation and the oracle module's own exports: what a valid import keeps, and
    exactly when an export would be accepted again. */
module OracleExports {
  import opened Machine
  import opened Store
  import opened OracleState
  import opened OracleRuns

  /** The keys of valid data are distinct, so importing loses none of it. */
  lemma ValidImportIsLossless(g: GenesisState)
    requires ValidGenesis(g)
    ensures var s := Imported(EMPTY, g);
            forall i :: 0 <= i < |g.data| ==> KeyOf(g.data[i]) in s.data && s.data[KeyOf(g.data[i])] == g.data[i]
  {
    forall i | 0 <= i < |g.data|
      ensures KeyOf(g.data[i]) in Imported(EMPTY, g).data && Imported(EMPTY, g).data[KeyOf(g.data[i])] == g.data[i]
    {
      forall j | i < j < |g.data|
        ensures KeyOf(g.data[j]) != KeyOf(g.data[i])
      {
        assert ValidDatum(g.params, Addresses(g.oracles), g.data[i]) && ValidDatum(g.params, Addresses(g.oracles), g.data[j]);
        assert SeriesKey(g.data[i]) != SeriesKey(g.data[j]);
      }
      LastWriteStays(EMPTY.(params := Some(g.params), oracles := PutAll(map[], AddressOf, g.oracles)), g.data, i);
    }
  }

  lemma {:induction false} LastWriteStays(s: State, ds: seq<OracleData>, i: nat)
    requires i < |ds| && forall j :: i < j < |ds| ==> KeyOf(ds[j]) != KeyOf(ds[i])
    ensures KeyOf(ds[i]) in AllWritten(s, ds).data && AllWritten(s, ds).data[KeyOf(ds[i])] == ds[i]
    decreases |ds|
  {
    var s' := Written(s, ds[0]);
    assert forall j :: 0 < j < |ds| ==> ds[j] == ds[1..][j - 1];
    if i > 0 {
      LastWriteStays(s', ds[1..], i - 1);
    } else {
      OthersKeep(s', ds[1..], KeyOf(ds[0]));
    }
  }

  lemma {:induction false} OthersKeep(s: State, ds: seq<OracleData>, k: DataKey)
    requires k in s.data && forall j :: 0 <= j < |ds| ==> KeyOf(ds[j]) != k
    ensures k in AllWritten(s, ds).data && AllWritten(s, ds).data[k] == s.data[k]
    decreases |ds|
  {
    if ds != [] {
      assert forall j :: 0 < j < |ds| ==> ds[j] == ds[1..][j - 1];
      OthersKeep(Written(s, ds[0]), ds[1..], k);
    }
  }

  // ------------------------------------------------------------------ when an export validates

  /** How many addresses are registered before `a`. */
  function Rank(s: State, a: Bytes): nat {
    |Below(BytesLe, s.oracles.Keys, a)|
  }

  /** The addresses an export lists: those with fewer than 1000 registered before them. */
  function Listed(s: State): set<Bytes> {
    set a | a in s.oracles && Rank(s, a) < 1_000
  }

  lemma ExportedOracles(s: State)
    requires UnderOwnKey(s.oracles, AddressOf)
    ensures var os := AllOracles(s);
            && Addresses(os) == Listed(s)
            && (forall i :: 0 <= i < |os| ==> os[i].address in s.oracles && os[i] == s.oracles[os[i].address])
            && (forall i, j :: 0 <= i < j < |os| ==> os[i].address != os[j].address)
  {
    hide BytesLe, TotalOrder, Below;
    TextOrder();
    var ks, os := Walk(BytesLe, s.oracles.Keys), AllOracles(s);
    forall i | 0 <= i < |os|
      ensures os[i].address == ks[i] && ks[i] in Listed(s)
    {
      assert ks[i] in s.oracles.Keys && AddressOf(s.oracles[ks[i]]) == ks[i];
      WalkRank(BytesLe, s.oracles.Keys, i);
    }
    forall a | a in Listed(s)
      ensures a in Addresses(os)
    {
      assert a in ks;
      var i :| 0 <= i < |ks| && ks[i] == a;
      WalkRank(BytesLe, s.oracles.Keys, i);
      assert os[i].address == a;
    }
  }

  /** What makes a state fit to be exported: valid parameters, the oracles listed named, and
      every datapoint valid and submitted by a listed oracle, or by none. */
  ghost predicate Exportable(s: State) {
    && ValidParams(ParamsOf(s))
    && (forall a :: a in Listed(s) ==> a != [] && s.oracles[a].name != [])
    && (forall k :: k in s.data ==> ValidDatum(ParamsOf(s), Listed(s), s.data[k]))
  }

  lemma ExportValidIff(s: State)
    requires Cached(s)
    ensures ValidGenesis(Exported(s)) <==> Exportable(s)
  {
    hide Scan, AllOracles, ValidDatum, BytesLe, Listed, Addresses;
    OwnAddresses(s);
    ExportedOracles(s);
    var g := Exported(s);
    if Exportable(s) {
      forall i | 0 <= i < |g.oracles|
        ensures g.oracles[i].address in Listed(s)
      {
        ListedAt(g.oracles, i);
      }
      forall i | 0 <= i < |g.data|
        ensures ValidDatum(g.params, Addresses(g.oracles), g.data[i])
        ensures forall j :: i < j < |g.data| ==> SeriesKey(g.data[i]) != SeriesKey(g.data[j])
      {
        var k := ScanOnly(s, i);
        forall j | i < j < |g.data|
          ensures SeriesKey(g.data[i]) != SeriesKey(g.data[j])
        {
          assert KeyOf(g.data[j]) != KeyOf(g.data[i]);
        }
      }
    }
    if ValidGenesis(g) {
      forall a | a in Listed(s)
        ensures a in s.oracles && a != [] && s.oracles[a].name != []
      {
        var i := ListedWhere(g.oracles, a);
      }
      forall k | k in s.data
        ensures ValidDatum(ParamsOf(s), Listed(s), s.data[k])
      {
        var i := ScanHas(s, k);
      }
    }
  }

  lemma ListedAt(os: seq<OracleInfo>, i: nat)
    requires i < |os|
    ensures os[i].address in Addresses(os)
  {
  }

  lemma ListedWhere(os: seq<OracleInfo>, a: Bytes) returns (i: nat)
    requires a in Addresses(os)
    ensures i < |os| && os[i].address == a
  {
    i :| 0 <= i < |os| && os[i].address == a;
  }

  /** With at most 1000 oracles all are listed. */
  lemma AllListedIff(s: State)
    requires UnderOwnKey(s.oracles, AddressOf)
    ensures Listed(s) == s.oracles.Keys <==> |s.oracles| <= 1_000
  {
    hide BytesLe, TotalOrder, Below;
    TextOrder();
    var ks := Walk(BytesLe, s.oracles.Keys);
    WalkLength(BytesLe, s.oracles.Keys, ks);
    if |s.oracles| <= 1_000 {
      forall a | a in s.oracles
        ensures a in Listed(s)
      {
        assert a in ks;
        var i :| 0 <= i < |ks| && ks[i] == a;
        WalkRank(BytesLe, s.oracles.Keys, i);
      }
    } else {
      WalkRank(BytesLe, s.oracles.Keys, 1_000);
      assert ks[1_000] in s.oracles.Keys && ks[1_000] !in Listed(s);
    }
  }

  // ------------------------------------------------------------------ removal

  lemma {:induction false} Fewer<T>(a: set<T>, b: set<T>)
    requires a <= b
    ensures |a| <= |b|
  {
    assert b == a + (b - a);
  }

  /** A later address has more addresses before it. */
  lemma RankAscends(s: State, a: Bytes, b: Bytes)
    requires a in s.oracles && b in s.oracles && BytesLe(a, b) && a != b
    ensures Rank(s, a) < Rank(s, b)
  {
    hide BytesLe;
    TextOrder();
    var before, after := Below(BytesLe, s.oracles.Keys, a), Below(BytesLe, s.oracles.Keys, b);
    forall x | x in before + {a}
      ensures x in after
    {
      if x != a {
        assert BytesLe(x, b);
        assert x != b;
      }
    }
    Fewer(before + {a}, after);
  }

  /** Removing an oracle moves up by one exactly the addresses after it. */
  lemma RankAfterRemoval(s: State, t: State, address: Bytes, a: Bytes)
    requires t.oracles == s.oracles - {address} && address in s.oracles && a in t.oracles
    ensures Rank(t, a) == if BytesLe(address, a) then Rank(s, a) - 1 else Rank(s, a)
  {
    hide BytesLe;
    var before, after := Below(BytesLe, s.oracles.Keys, a), Below(BytesLe, t.oracles.Keys, a);
    if BytesLe(address, a) {
      assert before == after + {address};
    } else {
      assert before == after;
    }
  }

  /** Removing a listed oracle moves the one with exactly 1000 addresses before it, if there
      is one, up into the list; removing another oracle leaves the list as it was. */
  lemma RemovedListed(s: State, t: State, address: Bytes)
    requires t.oracles == s.oracles - {address} && address in s.oracles
    ensures Listed(t) ==
            if address in Listed(s)
            then Listed(s) - {address} + set a | a in s.oracles && Rank(s, a) == 1_000
            else Listed(s)
  {
    hide Listed, Rank;
    var goal := if address in Listed(s)
                then Listed(s) - {address} + set a | a in s.oracles && Rank(s, a) == 1_000
                else Listed(s);
    ListedRegistered(s);
    ListedRegistered(t);
    ListedIsRank(s, address);
    forall a
      ensures a in Listed(t) <==> a in goal
    {
      if a in t.oracles {
        StillListed(s, t, address, a);
      }
    }
  }

  lemma StillListed(s: State, t: State, address: Bytes, a: Bytes)
    requires t.oracles == s.oracles - {address} && address in s.oracles && a in t.oracles
    ensures a in Listed(t) <==> a in Listed(s) || (address in Listed(s) && Rank(s, a) == 1_000)
  {
    hide BytesLe, Rank, Listed;
    RankAfterRemoval(s, t, address, a);
    ListedIsRank(s, a);
    ListedIsRank(s, address);
    ListedIsRank(t, a);
    TextOrder();
    if BytesLe(address, a) {
      RankAscends(s, address, a);
    } else {
      RankAscends(s, a, address);
    }
  }

  lemma ListedIsRank(s: State, a: Bytes)
    requires a in s.oracles
    ensures a in Listed(s) <==> Rank(s, a) < 1_000
  {
    hide BytesLe;
  }

  /** An address without a name is before all others, so it is listed. */
  lemma UnnamedListed(s: State)
    requires [] in s.oracles
    ensures [] in Listed(s)
  {
    assert Below(BytesLe, s.oracles.Keys, []) == {};
  }

  /** Removing an oracle can leave an export that no longer validates. An export that
      validated still does if and only if no stored datapoint was submitted by the oracle
      removed and, when that one was listed, the oracle with exactly 1000 addresses before
      it has a name. */
  lemma RemovalBreaksExportIff(authority: Bytes, s: State, b: Block, address: Bytes)
    requires Cached(s) && ValidGenesis(Exported(s)) && address in s.oracles
    ensures var t := Deliver(authority, s, b, RemoveOracle(authority, address));
            ValidGenesis(Exported(t)) <==>
              && (forall k :: k in s.data ==> s.data[k].submitter != address)
              && (Rank(s, address) < 1_000 ==>
                    forall a :: a in s.oracles && Rank(s, a) == 1_000 ==> s.oracles[a].name != [])
  {
    hide ValidGenesis, Exported, Cached, Listed, Rank, Handle;
    var t := Removed(authority, s, b, address);
    EventCached(authority, s, b, RemoveOracle(authority, address));
    ExportValidIff(s);
    ExportValidIff(t);
    RemovedListed(s, t, address);
    NoEmptyAddress(s);
    ListedRegistered(s);
    ListedIsRank(s, address);
    if forall k :: k in s.data ==> s.data[k].submitter != address {
      forall k | k in t.data
        ensures ValidDatum(ParamsOf(t), Listed(t), t.data[k])
      {
        assert ValidDatum(ParamsOf(s), Listed(s), s.data[k]);
      }
      NewNames(s, t, address);
    } else {
      var k :| k in s.data && s.data[k].submitter == address;
      ListedRegistered(t);
      assert !ValidDatum(ParamsOf(t), Listed(t), t.data[k]);
    }
  }

  lemma Removed(authority: Bytes, s: State, b: Block, address: Bytes) returns (t: State)
    requires address in s.oracles
    ensures t == Deliver(authority, s, b, RemoveOracle(authority, address)) == s.(oracles := s.oracles - {address})
  {
    t := Deliver(authority, s, b, RemoveOracle(authority, address));
  }

  /** The names on the list after a removal. */
  lemma NewNames(s: State, t: State, address: Bytes)
    requires t.oracles == s.oracles - {address} && address in s.oracles && [] !in s.oracles
    requires forall a :: a in Listed(s) ==> a in s.oracles && s.oracles[a].name != []
    ensures (forall a :: a in Listed(t) ==> a != [] && t.oracles[a].name != [])
       <==> (Rank(s, address) < 1_000 ==>
               forall a :: a in s.oracles && Rank(s, a) == 1_000 ==> s.oracles[a].name != [])
  {
    hide Listed, Rank;
    RemovedListed(s, t, address);
    ListedIsRank(s, address);
    ListedRegistered(t);
    if Rank(s, address) < 1_000 {
      forall a | a in s.oracles && Rank(s, a) == 1_000
        ensures a in Listed(t)
      {
        assert a != address;
      }
    }
  }

  lemma ListedRegistered(s: State)
    ensures Listed(s) <= s.oracles.Keys
  {
  }

  lemma NoEmptyAddress(s: State)
    requires Exportable(s)
    ensures [] !in s.oracles
  {
    hide Listed;
    if [] in s.oracles {
      UnnamedListed(s);
    }
  }

  // ------------------------------------------------------------------ over runs

  /** What the basic validation of messages asks for, and a time before the year 10000. */
  predicate Basic(e: Event) {
    match e.msg
    case SubmitData(_, category, value, _, timestamp) =>
      category != [] && value != [] && 0 < timestamp <= 253_402_300_800
    case AddOracle(_, address, name, _) => address != [] && name != []
    case _ => true
  }

  predicate LowersCap(s: State, e: Event) {
    e.msg.UpdateParams? && e.msg.params.maxMetadataSize < ParamsOf(s).maxMetadataSize
  }

  ghost predicate NeverLowers(authority: Bytes, s: State, es: seq<Event>)
    decreases |es|
  {
    es != [] ==> !LowersCap(s, es[0])
                 && NeverLowers(authority, Deliver(authority, s, es[0].block, es[0].msg), es[1..])
  }

  /** All that validation asks of a datapoint but a known submitter. */
  predicate SoundDatum(p: Params, d: OracleData) {
    d.category != [] && d.value != [] && 0 < d.timestamp <= 253_402_300_800 && |d.metadata| % TWO_32 <= p.maxMetadataSize
  }

  /** Valid parameters, every oracle named, every datapoint sound. */
  ghost predicate Sound(s: State) {
    && ValidParams(ParamsOf(s))
    && (forall a :: a in s.oracles ==> a != [] && s.oracles[a].name != [])
    && (forall k :: k in s.data ==> SoundDatum(ParamsOf(s), s.data[k]))
  }

  /** Every datapoint was submitted by an oracle of `known`, or by none. */
  ghost predicate Submitted(s: State, known: set<Bytes>) {
    forall k :: k in s.data ==> s.data[k].submitter == [] || s.data[k].submitter in known
  }

  lemma SubmissionSound(s: State, d: OracleData)
    requires Sound(s) && SoundDatum(ParamsOf(s), d)
    ensures Sound(Written(s, d))
    ensures Submitted(s, s.oracles.Keys) && d.submitter in s.oracles ==> Submitted(Written(s, d), s.oracles.Keys)
  {
    hide SoundDatum, ValidParams;
  }

  lemma SettingsSound(s: State, t: State)
    requires Sound(s) && t.data == s.data && ValidParams(ParamsOf(t))
    requires ParamsOf(t).maxMetadataSize >= ParamsOf(s).maxMetadataSize
    requires forall a :: a in t.oracles ==> a != [] && t.oracles[a].name != []
    ensures Sound(t)
    ensures Submitted(s, s.oracles.Keys) && s.oracles.Keys <= t.oracles.Keys ==> Submitted(t, t.oracles.Keys)
  {
    hide ValidParams;
    forall k | k in t.data
      ensures SoundDatum(ParamsOf(t), t.data[k])
    {
      assert SoundDatum(ParamsOf(s), s.data[k]);
    }
  }

  lemma EventSound(authority: Bytes, s: State, e: Event)
    requires Sound(s) && Basic(e) && !LowersCap(s, e)
    ensures Sound(Deliver(authority, s, e.block, e.msg))
    ensures Submitted(s, s.oracles.Keys) && !e.msg.RemoveOracle? ==>
              var t := Deliver(authority, s, e.block, e.msg); Submitted(t, t.oracles.Keys)
  {
    hide InWindow, Written, Submitted;
    var t := Deliver(authority, s, e.block, e.msg);
    match e.msg {
      case SubmitData(submitter, category, value, metadata, timestamp) =>
        if Handle(authority, s, e.block, e.msg).Some? {
          var d := OracleData(category, value, metadata, timestamp, submitter, e.block.height);
          SubmissionSound(s, d);
          SameOracles(s, d);
        }
      case _ =>
        SettingsSound(s, t);
    }
  }

  lemma SameOracles(s: State, d: OracleData)
    ensures Written(s, d).oracles == s.oracles
  {
  }

  lemma {:induction false} RunSound(authority: Bytes, s: State, es: seq<Event>)
    requires Sound(s) && NeverLowers(authority, s, es) && forall i :: 0 <= i < |es| ==> Basic(es[i])
    ensures Sound(AfterAll(authority, s, es))
    ensures Submitted(s, s.oracles.Keys) && (forall i :: 0 <= i < |es| ==> !es[i].msg.RemoveOracle?) ==>
              var t := AfterAll(authority, s, es); Submitted(t, t.oracles.Keys)
    decreases |es|
  {
    hide Sound, Submitted, Deliver, Basic, LowersCap;
    if es != [] {
      EventSound(authority, s, es[0]);
      assert forall i :: 0 <= i < |es[1..]| ==> es[1..][i] == es[i + 1];
      RunSound(authority, Deliver(authority, s, es[0].block, es[0].msg), es[1..]);
    }
  }

  lemma SoundExportable(s: State)
    requires Sound(s)
    ensures Exportable(s) <==> Submitted(s, Listed(s))
  {
    hide BytesLe, Below;
    forall k | k in s.data
      ensures ValidDatum(ParamsOf(s), Listed(s), s.data[k])
         <==> s.data[k].submitter == [] || s.data[k].submitter in Listed(s)
    {
      assert SoundDatum(ParamsOf(s), s.data[k]);
    }
  }

  lemma {:induction false} PutAllFrom<K, V>(m: map<K, V>, key: V -> K, vs: seq<V>, k: K)
    requires k in PutAll(m, key, vs)
    ensures (k in m && PutAll(m, key, vs)[k] == m[k])
         || exists i :: 0 <= i < |vs| && key(vs[i]) == k && PutAll(m, key, vs)[k] == vs[i]
    decreases |vs|
  {
    if vs != [] {
      PutAllFrom(m[key(vs[0]) := vs[0]], key, vs[1..], k);
      assert forall i :: 0 <= i < |vs[1..]| ==> vs[1..][i] == vs[i + 1];
    }
  }

  lemma ImportSound(g: GenesisState)
    requires ValidGenesis(g)
    ensures var s := Imported(EMPTY, g); Sound(s) && Submitted(s, s.oracles.Keys)
  {
    hide PutAll, BytesLe;
    var s := Imported(EMPTY, g);
    var none: map<Bytes, OracleInfo>, empty: map<DataKey, OracleData> := map[], map[];
    AllWrittenData(EMPTY.(params := Some(g.params), oracles := PutAll(none, AddressOf, g.oracles)), g.data);
    PutAllDistinct(none, AddressOf, g.oracles);
    forall a | a in s.oracles
      ensures a != [] && s.oracles[a].name != []
    {
      PutAllFrom(none, AddressOf, g.oracles, a);
    }
    forall a | a in Addresses(g.oracles)
      ensures a in s.oracles
    {
      var i := ListedWhere(g.oracles, a);
      assert AddressOf(g.oracles[i]) in s.oracles;
    }
    forall k | k in s.data
      ensures SoundDatum(ParamsOf(s), s.data[k])
      ensures s.data[k].submitter == [] || s.data[k].submitter in s.oracles.Keys
    {
      PutAllFrom(empty, KeyOf, g.data, k);
      var i :| 0 <= i < |g.data| && s.data[k] == g.data[i];
      assert ValidDatum(g.params, Addresses(g.oracles), g.data[i]);
    }
  }

  /** From a validated genesis, along every run of messages that pass their basic validation
      and never lower the cap, removals included: the export validates if and only if every
      datapoint was submitted by a listed oracle or by none. It does while nothing was
      removed and there are at most 1000 oracles. */
  lemma ExportsOverRuns(authority: Bytes, g: GenesisState, es: seq<Event>)
    requires ValidGenesis(g) && forall i :: 0 <= i < |es| ==> Basic(es[i])
    requires NeverLowers(authority, Imported(EMPTY, g), es)
    ensures var s := AfterAll(authority, Imported(EMPTY, g), es);
            && (ValidGenesis(Exported(s)) <==> Submitted(s, Listed(s)))
            && (|s.oracles| <= 1_000 && (forall i :: 0 <= i < |es| ==> !es[i].msg.RemoveOracle?)
                ==> ValidGenesis(Exported(s)))
  {
    hide Imported, Exported, AfterAll, ValidGenesis, Cached, Sound, Exportable, NeverLowers, Basic, Listed, Submitted;
    ImportSound(g);
    ImportCached(g);
    RunSound(authority, Imported(EMPTY, g), es);
    RunCached(authority, Imported(EMPTY, g), es);
    var s := AfterAll(authority, Imported(EMPTY, g), es);
    ExportValidIff(s);
    SoundExportable(s);
    OwnAddresses(s);
    AllListedIff(s);
  }

  // ------------------------------------------------------------------ it happens

  /** From the default genesis: an oracle is registered, submits a datapoint and is removed.
      The export validates before the removal and not after it. */
  lemma RemovalInstance(authority: Bytes)
    ensures exists s, b, address, es: seq<Event> ::
              && s == AfterAll(authority, Imported(EMPTY, GenesisState(DEFAULT_PARAMS, [], [])), es)
              && ValidGenesis(Exported(s))
              && !ValidGenesis(Exported(Deliver(authority, s, b, RemoveOracle(authority, address))))
  {
    hide Imported, Exported, Cached, ValidGenesis, Listed;
    var g := GenesisState(DEFAULT_PARAMS, [], []);
    var b := Block(1, 100);
    var add, submit := AddOracle(authority, [1], [1], []), SubmitData([1], [2], [3], [], 100);
    DefaultImport(g);
    var s0 := Imported(EMPTY, g);
    var s1 := Deliver(authority, s0, b, add);
    var s := Deliver(authority, s1, b, submit);
    ImportCached(g);
    EventCached(authority, s0, b, add);
    EventCached(authority, s1, b, submit);
    assert s.oracles == map[[1] := OracleInfo([1], [1], true, [])];
    OwnAddresses(s);
    AllListedIff(s);
    assert s.data == map[([2], 100) := OracleData([2], [3], [], 100, [1], 1)];
    assert Exportable(s);
    ExportValidIff(s);
    RemovalBreaksExportIff(authority, s, b, [1]);
    assert ([2], 100) in s.data;
    TwoEvents(authority, s0, Event(b, add), Event(b, submit));
  }

  lemma TwoEvents(authority: Bytes, s: State, a: Event, b: Event)
    ensures AfterAll(authority, s, [a, b])
         == Deliver(authority, Deliver(authority, s, a.block, a.msg), b.block, b.msg)
  {
    hide Deliver;
    assert [a, b][1..] == [b] && [b][1..] == [];
    assert forall w :: AfterAll(authority, w, []) == w;
    assert forall w :: AfterAll(authority, w, [b]) == Deliver(authority, w, b.block, b.msg);
  }

  function CrowdAddress(i: nat): Bytes
    requires i < 0x1_0000
  {
    [i / 0x100, i % 0x100]
  }

  /** The first `n` of them, each under a name. */
  function Crowd(n: nat): (os: seq<OracleInfo>)
    requires n <= 0x1_0000
    ensures |os| == n
  {
    seq(n, i requires 0 <= i < n => OracleInfo(CrowdAddress(i), [1], true, []))
  }

  /** A genesis with 1001 oracles, the last of which submitted a datapoint. */
  function CrowdedGenesis(): GenesisState {
    GenesisState(DEFAULT_PARAMS, Crowd(1_001),
                 [OracleData([1], [1], [], 1, CrowdAddress(1_000), 0)])
  }

  lemma CrowdIsValid()
    ensures ValidGenesis(CrowdedGenesis())
  {
    var g := CrowdedGenesis();
    assert g.oracles[1_000].address == CrowdAddress(1_000);
    assert CrowdAddress(1_000) in Addresses(g.oracles);
  }

  lemma CrowdOrder(i: nat, n: nat)
    requires i <= n < 0x1_0000
    ensures BytesLe(CrowdAddress(i), CrowdAddress(n))
  {
    var a, b := CrowdAddress(i), CrowdAddress(n);
    assert BytesLe(a[1..][1..], b[1..][1..]);
    assert a[0] == b[0] ==> BytesLe(a[1..], b[1..]);
  }

  lemma CrowdImported()
    ensures var s := Imported(EMPTY, CrowdedGenesis());
            && |s.oracles| == 1_001
            && CrowdAddress(1_000) in s.oracles
            && forall a :: a in s.oracles ==> BytesLe(a, CrowdAddress(1_000))
  {
    hide PutAll, BytesLe;
    var g := CrowdedGenesis();
    var m: map<Bytes, OracleInfo> := map[];
    AllWrittenData(EMPTY.(params := Some(g.params), oracles := PutAll(m, AddressOf, g.oracles)), g.data);
    var s := Imported(EMPTY, g);
    PutAllDistinct(m, AddressOf, g.oracles);
    assert AddressOf(g.oracles[1_000]) == CrowdAddress(1_000);
    forall a | a in s.oracles
      ensures BytesLe(a, CrowdAddress(1_000))
    {
      PutAllKeys(m, AddressOf, g.oracles, a);
      var i :| 0 <= i < |g.oracles| && AddressOf(g.oracles[i]) == a;
      CrowdOrder(i, 1_000);
    }
  }

  /** A valid genesis whose own export is refused, with no message in between: the registry
      is cut off at 1000 entries, and the datapoint of the last oracle is left without its
      submitter. Importing that export also loses an oracle. */
  lemma CrowdedInstance()
    ensures var s := Imported(EMPTY, CrowdedGenesis());
            && ValidGenesis(CrowdedGenesis()) && !ValidGenesis(Exported(s))
            && Imported(EMPTY, Exported(s)).oracles != s.oracles
  {
    hide ValidGenesis, Exported, BytesLe, Crowd, Imported, Cached, Scan;
    var s, last := Imported(EMPTY, CrowdedGenesis()), CrowdAddress(1_000);
    CrowdIsValid();
    CrowdImported();
    ImportCached(CrowdedGenesis());
    RestartRegistryIff(s);
    ExportValidIff(s);
    assert Below(BytesLe, s.oracles.Keys, last) == s.oracles.Keys - {last};
    assert last !in Listed(s);
    CrowdDatum();
  }

  lemma CrowdDatum()
    ensures exists k :: k in Imported(EMPTY, CrowdedGenesis()).data
              && Imported(EMPTY, CrowdedGenesis()).data[k].submitter == CrowdAddress(1_000)
  {
    hide ValidGenesis, Crowd;
    CrowdIsValid();
    ValidImportIsLossless(CrowdedGenesis());
    assert CrowdedGenesis().data[0].submitter == CrowdAddress(1_000);
  }
}
