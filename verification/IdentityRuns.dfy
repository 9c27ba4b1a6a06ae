/** What every run of the identity module keeps: roles and registration times for good,
    revocation for good, and an exact role index. */
module IdentityRuns {
  import opened Machine
  import opened Store
  import opened IdentityState

  /** Identities lie under their own addresses, and the role index holds exactly the
      (role, address) pairs of the stored identities. */
  ghost predicate Indexed(s: State) {
    UnderOwnKey(s.identities, AddressOf) && s.byRole == IndexOf(s.identities, RoleKey)
  }

  /** What may change about a registered identity: not its role, not its registration time,
      and its status only to revoked. */
  ghost predicate Follows(s: State, t: State) {
    forall a :: a in s.identities ==>
      && a in t.identities
      && t.identities[a].role == s.identities[a].role
      && t.identities[a].registeredAt == s.identities[a].registeredAt
      && (t.identities[a].status == s.identities[a].status || t.identities[a].status == REVOKED)
  }

  lemma NewIndexed(s: State, i: Identity)
    requires Indexed(s) && i.address !in s.identities
    ensures Indexed(Written(s, i))
  {
    IndexOfAdded(s.identities, i.address, i, RoleKey);
  }

  /** Writing an identity again with the same role leaves the index as it was. */
  lemma RewrittenIndexed(s: State, i: Identity)
    requires Indexed(s) && i.address in s.identities && s.identities[i.address].role == i.role
    ensures Indexed(Written(s, i))
  {
    var more := s.identities[i.address := i];
    assert RoleKey(s.identities[i.address]) == RoleKey(i);
    forall k
      ensures k in IndexOf(more, RoleKey) <==> k in IndexOf(s.identities, RoleKey)
    {
      if k in IndexOf(s.identities, RoleKey) {
        var a :| a in s.identities && RoleKey(s.identities[a]) == k;
        assert a in more && RoleKey(more[a]) == k;
      }
      if k in IndexOf(more, RoleKey) {
        var a :| a in more && RoleKey(more[a]) == k;
        assert a in s.identities && RoleKey(s.identities[a]) == k;
      }
    }
  }

  lemma {:induction false} AllWrittenIndexed(s: State, ids: seq<Identity>)
    requires Indexed(s)
    requires forall i :: 0 <= i < |ids| ==> ids[i].address !in s.identities
    requires forall i, j :: 0 <= i < j < |ids| ==> ids[i].address != ids[j].address
    ensures Indexed(AllWritten(s, ids))
    decreases |ids|
  {
    hide Indexed;
    if ids != [] {
      NewIndexed(s, ids[0]);
      AllWrittenIndexed(Written(s, ids[0]), ids[1..]);
    }
  }

  lemma ImportIndexed(c: Chain, g: GenesisState)
    requires ValidGenesis(c, g)
    ensures Indexed(Imported(EMPTY, g))
  {
    AllWrittenIndexed(EMPTY.(params := Some(g.params)), g.identities);
  }

  lemma EventKeeps(c: Chain, s: State, e: Event)
    requires Indexed(s)
    ensures Indexed(Deliver(c, s, e)) && Follows(s, Deliver(c, s, e))
  {
    hide OverCap, IsAdmin;
    OwnAddresses(s);
    var m := e.msg;
    if Handle(c, s, e.time, m).Some? {
      match m {
        case Register(_, address, name, role, metadata) =>
          NewIndexed(s, Identity(address, name, role, ACTIVE, metadata, e.time, e.time));
        case Update(_, address, name, metadata) =>
          var i := s.identities[address];
          RewrittenIndexed(s, i.(name := if name != [] then name else i.name,
                                 metadata := if metadata != [] then metadata else i.metadata,
                                 updatedAt := e.time));
        case Revoke(_, address) =>
          RewrittenIndexed(s, s.identities[address].(status := REVOKED, updatedAt := e.time));
        case UpdateParams(_, _) =>
      }
    }
  }

  lemma OwnAddresses(s: State)
    requires Indexed(s)
    ensures forall a :: a in s.identities ==> s.identities[a].address == a
  {
    forall a | a in s.identities
      ensures s.identities[a].address == a
    {
      assert AddressOf(s.identities[a]) == a;
    }
  }

  lemma {:induction false} RunKeeps(c: Chain, s: State, es: seq<Event>)
    requires Indexed(s)
    ensures Indexed(AfterAll(c, s, es)) && Follows(s, AfterAll(c, s, es))
    decreases |es|
  {
    hide Indexed, Deliver;
    if es != [] {
      EventKeeps(c, s, es[0]);
      RunKeeps(c, Deliver(c, s, es[0]), es[1..]);
    }
  }

  /** From a validated genesis, at every point of every run: the role index is exact; from
      then on no identity disappears or changes role or registration time; and a revoked
      one never holds any role again. */
  lemma Lifecycle(c: Chain, g: GenesisState, before: seq<Event>, after: seq<Event>)
    requires ValidGenesis(c, g)
    ensures var s := AfterAll(c, Imported(EMPTY, g), before);
            var t := AfterAll(c, s, after);
            && s.byRole == (set a | a in s.identities :: (s.identities[a].role, a))
            && Follows(s, t)
            && forall a, role :: a in s.identities && s.identities[a].status == REVOKED ==> !HasRole(t, a, role)
  {
    hide Imported, AfterAll;
    ImportIndexed(c, g);
    RunKeeps(c, Imported(EMPTY, g), before);
    var s := AfterAll(c, Imported(EMPTY, g), before);
    RunKeeps(c, s, after);
    OwnAddresses(s);
    assert s.byRole == set a | a in s.identities :: (s.identities[a].role, a) by {
      forall a | a in s.identities
        ensures RoleKey(s.identities[a]) == (s.identities[a].role, a)
      {
      }
    }
  }

  /** Once a revocation is accepted the address holds no role, and it takes an accepted
      revocation, not an update, to get there. */
  lemma RevokedForGood(c: Chain, s: State, e: Event, after: seq<Event>, role: Bytes)
    requires Indexed(s) && e.msg.Revoke? && Handle(c, s, e.time, e.msg).Some?
    ensures !HasRole(AfterAll(c, Deliver(c, s, e), after), e.msg.address, role)
  {
    hide IsAdmin, AfterAll;
    EventKeeps(c, s, e);
    OwnAddresses(s);
    RunKeeps(c, Deliver(c, s, e), after);
  }

  /** Deleting undoes the first writing of an identity, index entry included. */
  lemma DeleteUndoes(s: State, i: Identity)
    requires Indexed(s) && i.address !in s.identities
    ensures Deleted(Written(s, i), i.address) == s
  {
    OwnAddresses(s);
    assert RoleKey(i) !in s.byRole;
    assert s.identities[i.address := i] - {i.address} == s.identities;
    assert s.byRole + {RoleKey(i)} - {RoleKey(i)} == s.byRole;
  }

  /** Deleting keeps the index exact. */
  lemma DeletedIndexed(s: State, address: Bytes)
    requires Indexed(s)
    ensures Indexed(Deleted(s, address))
  {
    if address in s.identities {
      var t := Deleted(s, address);
      assert AddressOf(s.identities[address]) == address;
      forall k
        ensures k in t.byRole <==> k in IndexOf(t.identities, RoleKey)
      {
        if k in t.byRole {
          var a :| a in s.identities && RoleKey(s.identities[a]) == k;
          assert AddressOf(s.identities[a]) == a;
          assert a in t.identities;
        }
        if k in IndexOf(t.identities, RoleKey) {
          var a :| a in t.identities && RoleKey(t.identities[a]) == k;
          assert AddressOf(s.identities[a]) == a && a in s.identities;
        }
      }
    }
  }

  lemma {:induction false} AllWrittenIs(s: State, ids: seq<Identity>)
    ensures AllWritten(s, ids) == s.(identities := PutAll(s.identities, AddressOf, ids),
                                     byRole := AddAll(s.byRole, RoleKey, ids))
    decreases |ids|
  {
    if ids != [] {
      AllWrittenIs(Written(s, ids[0]), ids[1..]);
    }
  }

  /** From every state reached from a validated genesis, importing the export into an
      empty store restores it exactly. */
  lemma RestartIsExact(c: Chain, g: GenesisState, es: seq<Event>)
    requires ValidGenesis(c, g)
    ensures var s := AfterAll(c, Imported(EMPTY, g), es);
            Imported(EMPTY, Exported(s)) == s.(params := Some(ParamsOf(s)))
  {
    hide PutAll, AddAll, BytesLe, TotalOrder, AfterAll, IndexOf;
    ImportIndexed(c, g);
    RunKeeps(c, Imported(EMPTY, g), es);
    var s := AfterAll(c, Imported(EMPTY, g), es);
    TextOrder();
    AllWrittenIs(EMPTY.(params := Some(ParamsOf(s))), Exported(s).identities);
    PutAllRestores(BytesLe, s.identities, AddressOf);
    AddAllRestores(BytesLe, s.identities, RoleKey);
  }
}
