/** The identity keeper and message server. */
module IdentityKeeper {
  import opened Machine
  import opened Store
  import opened IdentityState

  class Keeper {
    const chain: Chain

    var params: Option<Params>
    var identities: map<Bytes, Identity>
    var byRole: set<(Bytes, Bytes)>

    function View(): State
      reads this
    {
      State(params, identities, byRole)
    }

    constructor (chain: Chain)
      ensures this.chain == chain && View() == EMPTY
    {
      this.chain := chain;
      params, identities, byRole := None, map[], {};
    }

    method SetIdentity(i: Identity)
      modifies `identities, `byRole
      ensures View() == old(Written(View(), i))
    {
      identities := identities[i.address := i];
      byRole := byRole + {(i.role, i.address)};
    }

    method DeleteIdentity(address: Bytes)
      modifies `identities, `byRole
      ensures View() == old(Deleted(View(), address))
    {
      if address !in identities {
        return;
      }
      var role := identities[address].role;
      identities := identities - {address};
      byRole := byRole - {(role, address)};
    }

    method HoldsRole(address: Bytes, role: Bytes) returns (ok: bool)
      ensures ok == HasRole(View(), address, role)
    {
      if address !in identities {
        return false;
      }
      var i := identities[address];
      return i.role == role && i.status == ACTIVE;
    }

    method RegisterIdentity(time: int64, creator: Bytes, address: Bytes, name: Bytes, role: Bytes, metadata: Bytes)
      returns (ok: bool)
      modifies `identities, `byRole
      ensures View() == old(Deliver(chain, View(), Event(time, Register(creator, address, name, role, metadata))))
      ensures ok == old(Handle(chain, View(), time, Register(creator, address, name, role, metadata))).Some?
    {
      if !IsAdmin(chain, View(), creator) {
        return false;
      }
      if OverCap(View(), metadata) {
        return false;
      }
      if address in identities {
        return false;
      }
      SetIdentity(Identity(address, name, role, ACTIVE, metadata, time, time));
      return true;
    }

    method UpdateIdentity(time: int64, creator: Bytes, address: Bytes, name: Bytes, metadata: Bytes) returns (ok: bool)
      modifies `identities, `byRole
      ensures View() == old(Deliver(chain, View(), Event(time, Update(creator, address, name, metadata))))
      ensures ok == old(Handle(chain, View(), time, Update(creator, address, name, metadata))).Some?
    {
      if address !in identities {
        return false;
      }
      var i := identities[address];
      var isOwner := creator == address;
      if !IsAdmin(chain, View(), creator) && !isOwner {
        return false;
      }
      if OverCap(View(), metadata) {
        return false;
      }
      if name != [] {
        i := i.(name := name);
      }
      if metadata != [] {
        i := i.(metadata := metadata);
      }
      i := i.(updatedAt := time);
      SetIdentity(i);
      return true;
    }

    method RevokeIdentity(time: int64, creator: Bytes, address: Bytes) returns (ok: bool)
      modifies `identities, `byRole
      ensures View() == old(Deliver(chain, View(), Event(time, Revoke(creator, address))))
      ensures ok == old(Handle(chain, View(), time, Revoke(creator, address))).Some?
    {
      if !IsAdmin(chain, View(), creator) {
        return false;
      }
      if address !in identities {
        return false;
      }
      var i := identities[address];
      if i.status == REVOKED {
        return false;
      }
      i := i.(status := REVOKED);
      i := i.(updatedAt := time);
      SetIdentity(i);
      return true;
    }

    method UpdateModuleParams(time: int64, signer: Bytes, p: Params) returns (ok: bool)
      modifies `params
      ensures View() == old(Deliver(chain, View(), Event(time, UpdateParams(signer, p))))
      ensures ok == old(Handle(chain, View(), time, UpdateParams(signer, p))).Some?
    {
      if signer != chain.authority {
        return false;
      }
      if !ValidParams(chain, p) {
        return false;
      }
      params := Some(p);
      return true;
    }

    method InitGenesis(g: GenesisState)
      modifies this
      ensures View() == old(Imported(View(), g))
    {
      params := Some(g.params);
      ghost var all := AllWritten(View(), g.identities);
      assert g.identities[0..] == g.identities;
      for k := 0 to |g.identities|
        invariant all == AllWritten(View(), g.identities[k..])
      {
        assert g.identities[k..][1..] == g.identities[k + 1..];
        SetIdentity(g.identities[k]);
      }
    }

    /** `GenesisState.Validate`. */
    static method ValidateGenesis(c: Chain, g: GenesisState) returns (ok: bool)
      ensures ok <==> ValidGenesis(c, g)
    {
      if !ValidParams(c, g.params) {
        return false;
      }
      var seen: set<Bytes> := {};
      for k := 0 to |g.identities|
        invariant seen == set j | 0 <= j < k :: g.identities[j].address
        invariant forall j :: 0 <= j < k ==> ValidIdentity(g.params, g.identities[j])
        invariant forall i, j :: 0 <= i < j < k ==> g.identities[i].address != g.identities[j].address
      {
        var i := g.identities[k];
        if i.address == [] || i.address in seen {
          return false;
        }
        seen := seen + {i.address};
        if i.name == [] || i.role == [] || i.status == [] {
          return false;
        }
        if |i.metadata| % TWO_32 > g.params.maxMetadataSize {
          return false;
        }
      }
      return true;
    }

    method ExportGenesis() returns (g: GenesisState)
      ensures g == Exported(View())
    {
      TextOrder();
      var all := WalkValues(BytesLe, identities);
      g := GenesisState(ParamsOf(View()), all);
    }
  }
}
