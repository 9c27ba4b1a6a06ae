/** The identity module as a state machine. */
module IdentityState {
  import opened Machine
  import opened Store

  datatype Identity = Identity(
    address: Bytes, name: Bytes, role: Bytes, status: Bytes, metadata: Bytes,
    registeredAt: int64, updatedAt: int64)

  datatype Params = Params(adminAddress: Bytes, maxMetadataSize: uint32)

  datatype GenesisState = GenesisState(params: Params, identities: seq<Identity>)

  /** What the chain fixes: the authority, and which texts are well-formed addresses. */
  datatype Chain = Chain(authority: Bytes, isAddress: Bytes -> bool)

  datatype State = State(
    params: Option<Params>,
    identities: map<Bytes, Identity>,
    byRole: set<(Bytes, Bytes)>)

  datatype Msg =
    | Register(creator: Bytes, address: Bytes, name: Bytes, role: Bytes, metadata: Bytes)
    | Update(creator: Bytes, address: Bytes, name: Bytes, metadata: Bytes)
    | Revoke(creator: Bytes, address: Bytes)
    | UpdateParams(authority: Bytes, params: Params)

  /** A message and the time of its block. */
  datatype Event = Event(time: int64, msg: Msg)

  const EMPTY := State(None, map[], {})

  /** "active" */
  const ACTIVE: Bytes := [0x61, 0x63, 0x74, 0x69, 0x76, 0x65]
  /** "revoked" */
  const REVOKED: Bytes := [0x72, 0x65, 0x76, 0x6F, 0x6B, 0x65, 0x64]

  const DEFAULT_PARAMS := Params([], 4_096)
  const MAX_METADATA_LOWER: nat := 128
  const MAX_METADATA_UPPER: nat := 65_536

  predicate ValidParams(c: Chain, p: Params) {
    && (p.adminAddress != [] ==> c.isAddress(p.adminAddress))
    && MAX_METADATA_LOWER <= p.maxMetadataSize <= MAX_METADATA_UPPER
  }

  function ParamsOf(s: State): Params {
    match s.params
    case None => DEFAULT_PARAMS
    case Some(p) => p
  }

  predicate IsAdmin(c: Chain, s: State, who: Bytes) {
    who == c.authority || (ParamsOf(s).adminAddress != [] && ParamsOf(s).adminAddress == who)
  }

  predicate OverCap(s: State, metadata: Bytes) {
    ParamsOf(s).maxMetadataSize > 0 && |metadata| % TWO_32 > ParamsOf(s).maxMetadataSize
  }

  predicate HasRole(s: State, address: Bytes, role: Bytes) {
    address in s.identities && s.identities[address].role == role && s.identities[address].status == ACTIVE
  }

  function AddressOf(i: Identity): Bytes {
    i.address
  }

  function RoleKey(i: Identity): (Bytes, Bytes) {
    (i.role, i.address)
  }

  /** `SetIdentity`: the identity and its entry in the role index. */
  function Written(s: State, i: Identity): State {
    s.(identities := s.identities[i.address := i], byRole := s.byRole + {RoleKey(i)})
  }

  function AllWritten(s: State, ids: seq<Identity>): State
    decreases |ids|
  {
    if ids == [] then s else AllWritten(Written(s, ids[0]), ids[1..])
  }

  /** `DeleteIdentity`. */
  function Deleted(s: State, address: Bytes): State {
    if address !in s.identities then s
    else s.(identities := s.identities - {address},
            byRole := s.byRole - {(s.identities[address].role, address)})
  }

  function Handle(c: Chain, s: State, time: int64, m: Msg): Option<State> {
    match m
    case Register(creator, address, name, role, metadata) =>
      if !IsAdmin(c, s, creator) || OverCap(s, metadata) || address in s.identities then None
      else Some(Written(s, Identity(address, name, role, ACTIVE, metadata, time, time)))
    case Update(creator, address, name, metadata) =>
      if address !in s.identities then None
      else if !IsAdmin(c, s, creator) && creator != address then None
      else if OverCap(s, metadata) then None
      else
        var i := s.identities[address];
        Some(Written(s, i.(name := if name != [] then name else i.name,
                           metadata := if metadata != [] then metadata else i.metadata,
                           updatedAt := time)))
    case Revoke(creator, address) =>
      if !IsAdmin(c, s, creator) || address !in s.identities then None
      else if s.identities[address].status == REVOKED then None
      else Some(Written(s, s.identities[address].(status := REVOKED, updatedAt := time)))
    case UpdateParams(signer, p) =>
      if signer != c.authority || !ValidParams(c, p) then None
      else Some(s.(params := Some(p)))
  }

  function Deliver(c: Chain, s: State, e: Event): State {
    match Handle(c, s, e.time, e.msg)
    case None => s
    case Some(s') => s'
  }

  function AfterAll(c: Chain, s: State, es: seq<Event>): State
    decreases |es|
  {
    if es == [] then s else AfterAll(c, Deliver(c, s, es[0]), es[1..])
  }

  function Imported(s: State, g: GenesisState): State {
    AllWritten(s.(params := Some(g.params)), g.identities)
  }

  function Exported(s: State): GenesisState {
    TextOrder();
    GenesisState(ParamsOf(s), Values(s.identities, Walk(BytesLe, s.identities.Keys)))
  }

  /** `GenesisState.Validate`. */
  ghost predicate ValidGenesis(c: Chain, g: GenesisState) {
    && ValidParams(c, g.params)
    && (forall i :: 0 <= i < |g.identities| ==> ValidIdentity(g.params, g.identities[i]))
    && (forall i, j :: 0 <= i < j < |g.identities| ==> g.identities[i].address != g.identities[j].address)
  }

  predicate ValidIdentity(p: Params, i: Identity) {
    && i.address != [] && i.name != [] && i.role != [] && i.status != []
    && |i.metadata| % TWO_32 <= p.maxMetadataSize
  }
}
