/** Exactly when the identity module's own export would be accepted as a genesis, and that
    it is along every run that does not lower the metadata cap. */
module IdentityExports {
  import opened Machine
  import opened Store
  import opened IdentityState
  import opened IdentityRuns

  ghost predicate Exportable(c: Chain, s: State) {
    ValidParams(c, ParamsOf(s)) && forall a :: a in s.identities ==> ValidIdentity(ParamsOf(s), s.identities[a])
  }

  function Complies(p: Params): Identity -> bool {
    (i: Identity) => ValidIdentity(p, i)
  }

  lemma IdentitiesComply(s: State)
    requires TotalOrder(BytesLe) && UnderOwnKey(s.identities, AddressOf)
    ensures var ids, p := Exported(s).identities, ParamsOf(s);
            && ((forall i :: 0 <= i < |ids| ==> ValidIdentity(p, ids[i]))
                <==> (forall a :: a in s.identities ==> ValidIdentity(p, s.identities[a])))
            && forall i, j :: 0 <= i < j < |ids| ==> ids[i].address != ids[j].address
  {
    hide BytesLe, ValidIdentity, TotalOrder, Walk;
    var ids, p := Exported(s).identities, ParamsOf(s);
    ValuesAll(BytesLe, s.identities, Complies(p));
    ValuesDistinct(BytesLe, s.identities, AddressOf);
    assert forall i :: Complies(p)(i) == ValidIdentity(p, i);
    assert forall i :: 0 <= i < |ids| ==> AddressOf(ids[i]) == ids[i].address;
  }

  /** An export validates if and only if the parameters are valid and every identity is
      complete and within the metadata cap. */
  lemma ExportValidIff(c: Chain, s: State)
    requires Indexed(s)
    ensures ValidGenesis(c, Exported(s)) <==> Exportable(c, s)
  {
    hide BytesLe, ValidIdentity, ValidParams, TotalOrder, Walk, IndexOf;
    TextOrder();
    IdentitiesComply(s);
  }

  // ------------------------------------------------------------------ over runs

  /** What the basic validation of messages asks for. */
  predicate Basic(e: Event) {
    e.msg.Register? ==> e.msg.address != [] && e.msg.name != [] && e.msg.role != []
  }

  predicate LowersCap(s: State, e: Event) {
    e.msg.UpdateParams? && e.msg.params.maxMetadataSize < ParamsOf(s).maxMetadataSize
  }

  ghost predicate NeverLowers(c: Chain, s: State, es: seq<Event>)
    decreases |es|
  {
    es != [] ==> !LowersCap(s, es[0]) && NeverLowers(c, Deliver(c, s, es[0]), es[1..])
  }

  lemma EventExportable(c: Chain, s: State, e: Event)
    requires Exportable(c, s) && Basic(e) && !LowersCap(s, e)
    ensures Exportable(c, Deliver(c, s, e))
  {
    var t := Deliver(c, s, e);
    forall a | a in t.identities
      ensures ValidIdentity(ParamsOf(t), t.identities[a])
    {
      if a in s.identities {
        assert ValidIdentity(ParamsOf(s), s.identities[a]);
      }
    }
  }

  lemma {:induction false} RunExportable(c: Chain, s: State, es: seq<Event>)
    requires Exportable(c, s) && NeverLowers(c, s, es) && forall i :: 0 <= i < |es| ==> Basic(es[i])
    ensures Exportable(c, AfterAll(c, s, es))
    decreases |es|
  {
    hide Exportable, Deliver, Basic, LowersCap;
    if es != [] {
      EventExportable(c, s, es[0]);
      assert forall i :: 0 <= i < |es[1..]| ==> es[1..][i] == es[i + 1];
      RunExportable(c, Deliver(c, s, es[0]), es[1..]);
    }
  }

  lemma {:induction false} AllWrittenValid(s: State, p: Params, ids: seq<Identity>)
    requires forall a :: a in s.identities ==> ValidIdentity(p, s.identities[a])
    requires forall i :: 0 <= i < |ids| ==> ValidIdentity(p, ids[i])
    ensures var t := AllWritten(s, ids);
            t.params == s.params && forall a :: a in t.identities ==> ValidIdentity(p, t.identities[a])
    decreases |ids|
  {
    hide ValidIdentity;
    if ids != [] {
      assert forall i :: 0 <= i < |ids[1..]| ==> ids[1..][i] == ids[i + 1];
      AllWrittenValid(Written(s, ids[0]), p, ids[1..]);
    }
  }

  /** From a validated genesis, along every run of messages that pass their basic validation
      and never lower the metadata cap, the export is a valid genesis again. */
  lemma ExportsStayValid(c: Chain, g: GenesisState, es: seq<Event>)
    requires ValidGenesis(c, g)
    requires NeverLowers(c, Imported(EMPTY, g), es) && forall i :: 0 <= i < |es| ==> Basic(es[i])
    ensures ValidGenesis(c, Exported(AfterAll(c, Imported(EMPTY, g), es)))
  {
    hide AfterAll, NeverLowers, Exported, Basic, ValidIdentity, Indexed;
    AllWrittenValid(EMPTY.(params := Some(g.params)), g.params, g.identities);
    ImportIndexed(c, g);
    assert Exportable(c, Imported(EMPTY, g));
    RunKeeps(c, Imported(EMPTY, g), es);
    RunExportable(c, Imported(EMPTY, g), es);
    ExportValidIff(c, AfterAll(c, Imported(EMPTY, g), es));
  }

  /** An accepted update keeps a valid export valid if and only if the metadata of every
      stored identity fits the new cap. */
  lemma UpdateKeepsExportIff(c: Chain, s: State, time: int64, p: Params)
    requires Indexed(s) && ValidGenesis(c, Exported(s))
    requires Handle(c, s, time, UpdateParams(c.authority, p)).Some?
    ensures ValidGenesis(c, Exported(Deliver(c, s, Event(time, UpdateParams(c.authority, p)))))
       <==> forall a :: a in s.identities ==> |s.identities[a].metadata| % TWO_32 <= p.maxMetadataSize
  {
    hide ValidGenesis, Exported;
    var t := Deliver(c, s, Event(time, UpdateParams(c.authority, p)));
    ExportValidIff(c, s);
    ExportValidIff(c, t);
    forall a | a in s.identities
      ensures ValidIdentity(p, s.identities[a]) <==> |s.identities[a].metadata| % TWO_32 <= p.maxMetadataSize
    {
      assert ValidIdentity(ParamsOf(s), s.identities[a]);
    }
  }

  function LongGenesis(): GenesisState {
    GenesisState(DEFAULT_PARAMS, [Identity([1], [1], [1], ACTIVE, seq(200, i => 0), 0, 0)])
  }

  lemma LongImported(c: Chain)
    ensures var s := Imported(EMPTY, LongGenesis());
            && ValidGenesis(c, LongGenesis()) && Exportable(c, s)
            && s.params == Some(DEFAULT_PARAMS) && s.identities == map[[1] := LongGenesis().identities[0]]
  {
    var g := LongGenesis();
    AllWrittenIs(EMPTY.(params := Some(g.params)), g.identities);
    assert g.identities[1..] == [];
  }

  /** It happens: the cap is lowered from 4096 to 128 over one identity with 200 bytes. */
  lemma UpdateInstance(c: Chain, time: int64)
    ensures exists g, p ::
              var s := Imported(EMPTY, g);
              && ValidGenesis(c, g) && ValidGenesis(c, Exported(s))
              && Handle(c, s, time, UpdateParams(c.authority, p)).Some?
              && !ValidGenesis(c, Exported(Deliver(c, s, Event(time, UpdateParams(c.authority, p)))))
  {
    hide Imported, Exported, Indexed, Exportable, ValidGenesis;
    var s, p := Imported(EMPTY, LongGenesis()), DEFAULT_PARAMS.(maxMetadataSize := 128);
    LongImported(c);
    ImportIndexed(c, LongGenesis());
    ExportValidIff(c, s);
    UpdateKeepsExportIff(c, s, time, p);
    assert [1] in s.identities && |s.identities[[1]].metadata| % TWO_32 == 200;
  }
}
