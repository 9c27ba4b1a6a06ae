/** Who may do what to the identity module and what exactly it changes: message by message
    and over runs. */
module IdentityLaws {
  import opened Machine
  import opened Store
  import opened IdentityState
  import opened IdentityRuns

  // ------------------------------------------------------------------ parameters

  predicate InRange(c: Chain, p: Params) {
    (|p.adminAddress| == 0 || c.isAddress(p.adminAddress)) && 128 <= p.maxMetadataSize <= 65_536
  }

  lemma ParamsAre(c: Chain, s: State)
    ensures s.params.None? ==> ParamsOf(s) == Params([], 4_096)
    ensures s.params.Some? ==> ParamsOf(s) == s.params.value
    ensures forall p :: ValidParams(c, p) <==> InRange(c, p)
  {
  }

  /** The authority, and the admin if there is one. */
  predicate Governs(c: Chain, s: State, who: Bytes) {
    who == c.authority || (|ParamsOf(s).adminAddress| > 0 && who == ParamsOf(s).adminAddress)
  }

  predicate SmallEnough(s: State, metadata: Bytes) {
    ParamsOf(s).maxMetadataSize == 0 || |metadata| % 0x1_0000_0000 <= ParamsOf(s).maxMetadataSize
  }

  // ------------------------------------------------------------------ messages

  /** An address is registered if and only if someone who governs registers it, it is not
      yet registered, and its metadata is small enough; it is then active, with what was
      given, from the block's time on; otherwise nothing changes. */
  lemma RegisterIff(c: Chain, s: State, time: int64, who: Bytes, address: Bytes, name: Bytes, role: Bytes, metadata: Bytes)
    ensures var m := Register(who, address, name, role, metadata);
            var accepted := Governs(c, s, who) && SmallEnough(s, metadata) && address !in s.identities;
            && (Handle(c, s, time, m).Some? <==> accepted)
            && Deliver(c, s, Event(time, m)) ==
               if accepted
               then State(s.params,
                          s.identities[address := Identity(address, name, role, [0x61, 0x63, 0x74, 0x69, 0x76, 0x65],
                                                           metadata, time, time)],
                          s.byRole + {(role, address)})
               else s
  {
  }

  /** An identity is updated if and only if it is registered, someone who governs or its
      owner asks, and the metadata is small enough; then a name or metadata that is given
      replaces the old one, the time of the update is noted, and nothing else changes. */
  lemma UpdateIff(c: Chain, s: State, time: int64, who: Bytes, address: Bytes, name: Bytes, metadata: Bytes)
    requires Indexed(s)
    ensures var m := Update(who, address, name, metadata);
            var accepted := address in s.identities && (Governs(c, s, who) || who == address) && SmallEnough(s, metadata);
            && (Handle(c, s, time, m).Some? <==> accepted)
            && (!accepted ==> Deliver(c, s, Event(time, m)) == s)
            && (accepted ==>
                  var i, t := s.identities[address], Deliver(c, s, Event(time, m));
                  && t.params == s.params && t.byRole == s.byRole
                  && t.identities == s.identities[address :=
                       Identity(address, if |name| > 0 then name else i.name, i.role, i.status,
                                if |metadata| > 0 then metadata else i.metadata, i.registeredAt, time)])
  {
    hide IndexOf;
    OwnAddresses(s);
    if address in s.identities {
      RoleIndexed(s, address);
    }
  }

  lemma RoleIndexed(s: State, address: Bytes)
    requires Indexed(s) && address in s.identities
    ensures (s.identities[address].role, address) in s.byRole
  {
    OwnAddresses(s);
    assert RoleKey(s.identities[address]) in IndexOf(s.identities, RoleKey);
  }

  /** An identity is revoked if and only if someone who governs asks and it is registered and
      not yet revoked; then its status and the time are all that changes. */
  lemma RevokeIff(c: Chain, s: State, time: int64, who: Bytes, address: Bytes)
    requires Indexed(s)
    ensures var m := Revoke(who, address);
            var revoked := [0x72, 0x65, 0x76, 0x6F, 0x6B, 0x65, 0x64];
            var accepted := Governs(c, s, who) && address in s.identities && s.identities[address].status != revoked;
            && (Handle(c, s, time, m).Some? <==> accepted)
            && (!accepted ==> Deliver(c, s, Event(time, m)) == s)
            && (accepted ==>
                  var i, t := s.identities[address], Deliver(c, s, Event(time, m));
                  && t.params == s.params && t.byRole == s.byRole
                  && t.identities == s.identities[address :=
                       Identity(address, i.name, i.role, revoked, i.metadata, i.registeredAt, time)])
  {
    hide IndexOf;
    OwnAddresses(s);
    if address in s.identities {
      RoleIndexed(s, address);
    }
  }

  /** Only the authority sets parameters, and only in range. */
  lemma UpdateParamsIff(c: Chain, s: State, time: int64, signer: Bytes, p: Params)
    ensures Handle(c, s, time, UpdateParams(signer, p)).Some? <==> signer == c.authority && InRange(c, p)
    ensures Deliver(c, s, Event(time, UpdateParams(signer, p)))
         == if signer == c.authority && InRange(c, p) then s.(params := Some(p)) else s
  {
  }

  /** An address holds a role exactly when it is registered with it and active. */
  lemma HasRoleIff(s: State, address: Bytes, role: Bytes)
    ensures HasRole(s, address, role) <==>
            address in s.identities && s.identities[address].role == role
            && s.identities[address].status == [0x61, 0x63, 0x74, 0x69, 0x76, 0x65]
  {
  }

  // ------------------------------------------------------------------ over runs

  predicate SetsParams(c: Chain, e: Event) {
    e.msg.UpdateParams? && e.msg.authority == c.authority && InRange(c, e.msg.params)
  }

  lemma EventParams(c: Chain, s: State, e: Event)
    requires !SetsParams(c, e)
    ensures Deliver(c, s, e).params == s.params
  {
    if e.msg.UpdateParams? {
      UpdateParamsIff(c, s, e.time, e.msg.authority, e.msg.params);
    }
  }

  /** Over every run: parameters that changed were set by an update that the authority signed
      and that is in range. */
  lemma {:induction false} ParamsChangedBy(c: Chain, s: State, es: seq<Event>)
    requires AfterAll(c, s, es).params != s.params
    ensures exists i :: 0 <= i < |es| && SetsParams(c, es[i])
    decreases |es|
  {
    hide Deliver, SetsParams;
    if es != [] && !SetsParams(c, es[0]) {
      EventParams(c, s, es[0]);
      ParamsChangedBy(c, Deliver(c, s, es[0]), es[1..]);
      var i :| 0 <= i < |es[1..]| && SetsParams(c, es[1..][i]);
      assert es[i + 1] == es[1..][i];
    }
  }

  predicate Revokes(e: Event, address: Bytes) {
    e.msg.Revoke? && e.msg.address == address
  }

  /** An active identity keeps its role over every run that does not revoke it. */
  lemma {:induction false} RoleLasts(c: Chain, s: State, es: seq<Event>, address: Bytes, role: Bytes)
    requires Indexed(s) && HasRole(s, address, role)
    requires forall i :: 0 <= i < |es| ==> !Revokes(es[i], address)
    ensures HasRole(AfterAll(c, s, es), address, role)
    decreases |es|
  {
    hide Deliver, HasRole, Indexed, Revokes;
    if es != [] {
      RoleKept(c, s, es[0], address, role);
      EventKeeps(c, s, es[0]);
      assert forall i :: 0 <= i < |es[1..]| ==> es[1..][i] == es[i + 1];
      RoleLasts(c, Deliver(c, s, es[0]), es[1..], address, role);
    }
  }

  lemma RoleKept(c: Chain, s: State, e: Event, address: Bytes, role: Bytes)
    requires Indexed(s) && HasRole(s, address, role) && !Revokes(e, address)
    ensures HasRole(Deliver(c, s, e), address, role)
  {
    hide IndexOf;
    OwnAddresses(s);
  }

  /** So a registration gives its role, and no other, until a revocation. */
  lemma RegisteredHolds(c: Chain, s: State, e: Event, es: seq<Event>, role: Bytes)
    requires Indexed(s) && e.msg.Register? && Handle(c, s, e.time, e.msg).Some?
    requires forall i :: 0 <= i < |es| ==> !Revokes(es[i], e.msg.address)
    ensures HasRole(AfterAll(c, Deliver(c, s, e), es), e.msg.address, role) <==> role == e.msg.role
  {
    hide AfterAll, Indexed, Revokes, OverCap, IsAdmin;
    EventKeeps(c, s, e);
    RegisterIff(c, s, e.time, e.msg.creator, e.msg.address, e.msg.name, e.msg.role, e.msg.metadata);
    RoleLasts(c, Deliver(c, s, e), es, e.msg.address, e.msg.role);
  }

  /** Someone who neither governs nor owns changes nothing: an event of theirs leaves every
      identity but their own as it was. */
  lemma OthersAreSafe(c: Chain, s: State, e: Event, address: Bytes)
    requires Indexed(s) && !Governs(c, s, Sender(e.msg)) && Sender(e.msg) != address
    ensures var t := Deliver(c, s, e);
            t.params == s.params && (address in t.identities <==> address in s.identities)
            && (address in s.identities ==> t.identities[address] == s.identities[address])
  {
    hide IndexOf;
    OwnAddresses(s);
  }

  function Sender(m: Msg): Bytes {
    match m
    case Register(who, _, _, _, _) => who
    case Update(who, _, _, _) => who
    case Revoke(who, _) => who
    case UpdateParams(who, _) => who
  }

  // ------------------------------------------------------------------ genesis

  /** Which genesis states validate. */
  lemma ValidGenesisIff(c: Chain, g: GenesisState)
    ensures ValidGenesis(c, g) <==>
            && InRange(c, g.params) && AllDifferent(Mapped(AddressOf, g.identities))
            && forall k :: 0 <= k < |g.identities| ==>
                 var i := g.identities[k];
                 && |i.address| > 0 && |i.name| > 0 && |i.role| > 0 && |i.status| > 0
                 && |i.metadata| % 0x1_0000_0000 <= g.params.maxMetadataSize
  {
    forall k | 0 <= k < |g.identities|
      ensures Mapped(AddressOf, g.identities)[k] == g.identities[k].address
    {
      assert AddressOf(g.identities[k]) == g.identities[k].address;
    }
    forall k | 0 <= k < |g.identities|
      ensures ValidIdentity(g.params, g.identities[k]) <==>
              var i := g.identities[k];
              && |i.address| > 0 && |i.name| > 0 && |i.role| > 0 && |i.status| > 0
              && |i.metadata| % 0x1_0000_0000 <= g.params.maxMetadataSize
    {
    }
  }

  lemma ImportedStore(g: GenesisState)
    ensures var s := Imported(EMPTY, g);
            && s.params == Some(g.params) && s.identities == PutAll(map[], AddressOf, g.identities)
            && s.byRole == AddAll({}, RoleKey, g.identities)
  {
    hide PutAll, AddAll;
    AllWrittenIs(EMPTY.(params := Some(g.params)), g.identities);
  }

  /** What importing a genesis into an empty store gives: its parameters, and a role entry
      for each identity listed. */
  lemma ImportedRoles(g: GenesisState)
    ensures var s, ids := Imported(EMPTY, g), g.identities;
            && s.params == Some(g.params)
            && s.byRole == set i | 0 <= i < |ids| :: (ids[i].role, ids[i].address)
  {
    hide Imported, PutAll, AddAll;
    ImportedStore(g);
    AddAllIs({}, RoleKey, g.identities);
  }

  /** Under each address the last identity listed with it, and nothing else. */
  lemma ImportedIdentities(g: GenesisState)
    ensures var s, ids := Imported(EMPTY, g), g.identities;
            && (forall i :: 0 <= i < |ids| && (forall j :: i < j < |ids| ==> ids[j].address != ids[i].address)
                  ==> ids[i].address in s.identities && s.identities[ids[i].address] == ids[i])
            && (forall a :: a in s.identities ==> exists i :: 0 <= i < |ids| && ids[i].address == a)
  {
    hide Imported, PutAll, AddAll;
    var none: map<Bytes, Identity> := map[];
    var s, ids := Imported(EMPTY, g), g.identities;
    ImportedStore(g);
    forall i | 0 <= i < |ids| && forall j :: i < j < |ids| ==> ids[j].address != ids[i].address
      ensures ids[i].address in s.identities && s.identities[ids[i].address] == ids[i]
    {
      PutAllLast(none, AddressOf, ids, i);
    }
    forall a | a in s.identities
      ensures exists i :: 0 <= i < |ids| && ids[i].address == a
    {
      PutAllKeys(none, AddressOf, ids, a);
      var i :| 0 <= i < |ids| && AddressOf(ids[i]) == a;
    }
  }

  /** An export lists every identity once, in the dictionary order of addresses. */
  lemma ExportInOrder(s: State)
    requires Indexed(s)
    ensures var g := Exported(s);
            && g.params == ParamsOf(s) && |g.identities| == |s.identities|
            && forall i, j :: 0 <= i < j < |g.identities| ==> Precedes(g.identities[i].address, g.identities[j].address)
  {
    hide BytesLe, Precedes, TotalOrder, IndexOf, Walk;
    TextOrder();
    ValuesInOrder(s.identities, AddressOf);
    assert forall i :: AddressOf(i) == i.address;
  }
}
