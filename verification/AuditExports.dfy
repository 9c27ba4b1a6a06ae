/** Exactly when the audit module's own export would be accepted as a genesis, and that it
    is along every run that does not lower the data cap. */
module AuditExports {
  import opened Machine
  import opened Store
  import opened AuditState
  import opened AuditRuns

  ghost predicate Exportable(s: State) {
    ValidParams(ParamsOf(s)) && forall id :: id in s.logs ==> ValidLog(ParamsOf(s), s.logs[id])
  }

  function Complies(p: Params): AuditLog -> bool {
    (l: AuditLog) => ValidLog(p, l)
  }

  lemma LogsComply(s: State)
    requires TotalOrder(Uint64Le) && UnderOwnKey(s.logs, IDOf)
    ensures var ls, p := Exported(s).logs, ParamsOf(s);
            && ((forall i :: 0 <= i < |ls| ==> ValidLog(p, ls[i]))
                <==> (forall id :: id in s.logs ==> ValidLog(p, s.logs[id])))
            && forall i, j :: 0 <= i < j < |ls| ==> ls[i].id != ls[j].id
  {
    hide ValidLog, TotalOrder, Walk;
    var ls, p := Exported(s).logs, ParamsOf(s);
    ValuesAll(Uint64Le, s.logs, Complies(p));
    ValuesDistinct(Uint64Le, s.logs, IDOf);
    assert forall l :: Complies(p)(l) == ValidLog(p, l);
    assert forall i :: 0 <= i < |ls| ==> IDOf(ls[i]) == ls[i].id;
  }

  /** An export validates if and only if the parameters are valid and every log is complete
      and within the data cap. */
  lemma ExportValidIff(s: State)
    requires Numbered(s)
    ensures ValidGenesis(Exported(s)) <==> Exportable(s)
  {
    hide ValidLog, ValidParams, TotalOrder, Walk;
    Uint64Order();
    LogsComply(s);
  }

  // ------------------------------------------------------------------ over runs

  /** What the basic validation of messages asks for. */
  predicate Basic(e: Event) {
    e.Run? && e.msg.RecordAudit? ==> e.msg.creator != [] && e.msg.eventType != [] && e.msg.action != []
  }

  predicate LowersCap(s: State, e: Event) {
    e.Run? && e.msg.UpdateParams? && e.msg.params.maxDataSize < ParamsOf(s).maxDataSize
  }

  ghost predicate NeverLowers(authority: Bytes, s: State, es: seq<Event>)
    decreases |es|
  {
    es != [] ==> !LowersCap(s, es[0]) && NeverLowers(authority, After(authority, s, es[0]), es[1..])
  }

  lemma EventExportable(authority: Bytes, s: State, e: Event)
    requires Exportable(s) && Basic(e) && !LowersCap(s, e)
    ensures Exportable(After(authority, s, e))
  {
    var t := After(authority, s, e);
    forall id | id in t.logs
      ensures ValidLog(ParamsOf(t), t.logs[id])
    {
      if id in s.logs && t.logs[id] == s.logs[id] {
        assert ValidLog(ParamsOf(s), s.logs[id]);
      }
    }
  }

  lemma {:induction false} RunExportable(authority: Bytes, s: State, es: seq<Event>)
    requires Exportable(s) && NeverLowers(authority, s, es) && forall i :: 0 <= i < |es| ==> Basic(es[i])
    ensures Exportable(AfterAll(authority, s, es))
    decreases |es|
  {
    hide Exportable, After, Basic, LowersCap;
    if es != [] {
      EventExportable(authority, s, es[0]);
      assert forall i :: 0 <= i < |es[1..]| ==> es[1..][i] == es[i + 1];
      RunExportable(authority, After(authority, s, es[0]), es[1..]);
    }
  }

  lemma {:induction false} AllRecordedValid(s: State, p: Params, ls: seq<AuditLog>)
    requires forall id :: id in s.logs ==> ValidLog(p, s.logs[id])
    requires forall i :: 0 <= i < |ls| ==> ValidLog(p, ls[i])
    ensures var t := AllRecorded(s, ls);
            t.params == s.params && forall id :: id in t.logs ==> ValidLog(p, t.logs[id])
    decreases |ls|
  {
    hide ValidLog;
    if ls != [] {
      assert forall i :: 0 <= i < |ls[1..]| ==> ls[1..][i] == ls[i + 1];
      AllRecordedValid(Recorded(s, ls[0]), p, ls[1..]);
    }
  }

  /** From a validated genesis, along every run of messages that pass their basic validation
      and never lower the data cap, the export is a valid genesis again. */
  lemma ExportsStayValid(authority: Bytes, g: GenesisState, es: seq<Event>)
    requires ValidGenesis(g) && Highest(g.logs, g.counter) + Costs(es) < TWO_64
    requires NeverLowers(authority, Imported(EMPTY, g), es) && forall i :: 0 <= i < |es| ==> Basic(es[i])
    ensures ValidGenesis(Exported(AfterAll(authority, Imported(EMPTY, g), es)))
  {
    hide AfterAll, NeverLowers, Exported, Basic, ValidLog, Highest, Costs;
    AllRecordedValid(EMPTY.(params := Some(g.params)), g.params, g.logs);
    ImportNumbered(g);
    assert Exportable(Imported(EMPTY, g));
    RunAppends(authority, Imported(EMPTY, g), es);
    RunExportable(authority, Imported(EMPTY, g), es);
    ExportValidIff(AfterAll(authority, Imported(EMPTY, g), es));
  }

  /** An accepted update keeps a valid export valid if and only if the data of every stored
      log fits the new cap. */
  lemma UpdateKeepsExportIff(authority: Bytes, s: State, b: Block, p: Params)
    requires Numbered(s) && ValidGenesis(Exported(s))
    requires Handle(authority, s, b, UpdateParams(authority, p)).Some?
    ensures ValidGenesis(Exported(Deliver(authority, s, b, UpdateParams(authority, p))))
       <==> forall id :: id in s.logs ==> |s.logs[id].data| % TWO_32 <= p.maxDataSize
  {
    hide ValidGenesis, Exported;
    var t := Deliver(authority, s, b, UpdateParams(authority, p));
    ExportValidIff(s);
    ExportValidIff(t);
    forall id | id in s.logs
      ensures ValidLog(p, s.logs[id]) <==> |s.logs[id].data| % TWO_32 <= p.maxDataSize
    {
      assert ValidLog(ParamsOf(s), s.logs[id]);
    }
  }

  function LongGenesis(): GenesisState {
    GenesisState(DEFAULT_PARAMS, [AuditLog(1, [1], [1], [], [1], seq(200, i => 0), 0, 0, [])], 0)
  }

  lemma LongImported()
    ensures var s := Imported(EMPTY, LongGenesis());
            && ValidGenesis(LongGenesis()) && Numbered(s) && Exportable(s)
            && s.params == Some(DEFAULT_PARAMS) && s.logs == map[1 := LongGenesis().logs[0]]
  {
    hide Numbered, Highest;
    var g := LongGenesis();
    ImportNumbered(g);
    AllRecordedIs(EMPTY.(params := Some(g.params)), g.logs);
    assert g.logs[1..] == [];
  }

  /** It happens: the cap is lowered from 65536 to 128 over one stored log with 200 bytes. */
  lemma UpdateInstance(authority: Bytes, b: Block)
    ensures exists g, p ::
              var s := Imported(EMPTY, g);
              && ValidGenesis(g) && ValidGenesis(Exported(s))
              && Handle(authority, s, b, UpdateParams(authority, p)).Some?
              && !ValidGenesis(Exported(Deliver(authority, s, b, UpdateParams(authority, p))))
  {
    hide Imported, Exported, Numbered, Exportable, ValidGenesis;
    var s, p := Imported(EMPTY, LongGenesis()), DEFAULT_PARAMS.(maxDataSize := 128);
    LongImported();
    ExportValidIff(s);
    UpdateKeepsExportIff(authority, s, b, p);
    assert 1 in s.logs && |s.logs[1].data| % TWO_32 == 200;
  }
}
