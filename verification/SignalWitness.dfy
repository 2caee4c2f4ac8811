/** A module that the gate wrongly skips:

        s = Signal()

        @receiver(s)
        def h(p):
            os.system(p)

        def c(request):
            s.send(request)
*/
module SignalWitness {
  import opened Options
  import opened PyAst
  import opened Walks
  import opened SymbolIndex
  import opened Facts
  import opened Resolution
  import opened Calls
  import opened Forwarding
  import opened FixedPoint
  import opened Callers
  import opened Reports
  import opened Gate

  const HANDLER: FuncId := FuncId("m", "h")
  const SENDER: FuncId := FuncId("m", "c")
  const EDGE: Edge := Edge(0, "p", "CWE-78", "system", 5)

  const DECORATOR: Node := Call(Name("receiver", true), [Name("s", true)], [], 3)
  const SYSTEM: Node := Call(Attribute(Name("os", true), "system"), [Name("p", true)], [], 5)
  const SEND: Node := Call(Attribute(Name("s", true), "send"), [Name("request", true)], [], 8)
  const HANDLER_DEF: Node := FunctionDef("h", Arguments(["p"], false, None, []), [ExprStmt(SYSTEM)], [DECORATOR])
  const SENDER_DEF: Node := FunctionDef("c", Arguments(["request"], false, None, []), [ExprStmt(SEND)], [])
  const SIGNAL: Node := Assign([Name("s", false)], Call(Name("Signal", true), [], [], 1))
  const BODY: seq<Node> := [SIGNAL, HANDLER_DEF, SENDER_DEF]

  function RowOf(func: Node, contract: Contract): (row: FuncFacts)
    requires func.FunctionDef?
    ensures HarvestedFrom(row, func) && row.contract == contract
  {
    FuncFacts(contract, Facts.Receivers(Ordered(func, true, [func])), SitesOf(CallsOf(Walk([func]))),
              DecosOf(func.decorators), WrapperOf(func))
  }

  const MODULE: ModuleFacts := ModuleFacts(
    map["h" := RowOf(HANDLER_DEF, Contract("m.py", ["p"], false, false, {}, [EDGE])),
        "c" := RowOf(SENDER_DEF, Contract("m.py", ["request"], false, false, {}, []))],
    map[], ["s"])

  const INDEX: Index := Index(
    map["m" := ModuleIndex(
          map["h" := SymbolDefinition("h", PlainFunction, "m.py"), "c" := SymbolDefinition("c", PlainFunction, "m.py")],
          map["os" := ImportBinding("os", ""), "Signal" := ImportBinding("django.dispatch", "Signal"),
              "receiver" := ImportBinding("django.dispatch", "receiver")],
          [])],
    ["m"], map["m.py" := "m"])

  const PROGRAM: Program := Program(INDEX, map["m" := MODULE], map["system" := "CWE-78"], {})

  const STATE: State := State(map[HANDLER := [EDGE], SENDER := []], map[], map[], map[])

  function SignalAnalysis(mentions: (Node, set<string>) -> bool): Analysis {
    Analysis(PROGRAM, STATE, map[("m", "s") := [HANDLER]], {}, n => false, mentions, n => n, (f, l, s) => s)
  }

  // ---------------------------------------------------------------- the nodes

  lemma BelowLeaf(n: Node)
    requires Children(n) == []
    ensures Below([n]) == {n}
  {
    BelowOne(n);
    assert Below([]) == {};
  }

  /** `receiver.attr(argument)` */
  lemma BelowMethodCall(call: Node)
    requires call.Call? && call.func.Attribute? && call.func.value.Name? && |call.args| == 1 && call.args[0].Name?
    requires call.keywords == []
    ensures Below([call]) == {call, call.func, call.func.value, call.args[0]}
  {
    BelowOne(call);
    assert Children(call) == [call.func, call.args[0]];
    BelowTwo(call.func, call.args[0]);
    BelowLeaf(call.args[0]);
    BelowOne(call.func);
    BelowLeaf(call.func.value);
  }

  lemma BelowNameCall(call: Node)
    requires call.Call? && call.func.Name? && |call.args| == 1 && call.args[0].Name? && call.keywords == []
    ensures Below([call]) == {call, call.func, call.args[0]}
  {
    BelowOne(call);
    assert Children(call) == [call.func, call.args[0]];
    BelowTwo(call.func, call.args[0]);
    BelowLeaf(call.func);
    BelowLeaf(call.args[0]);
  }

  lemma BelowFunction(func: Node)
    requires func.FunctionDef? && func.parameters.Arguments? && func.parameters.defaults == []
    requires |func.body| == 1 && func.body[0].ExprStmt?
    ensures Below([func])
        == {func, func.parameters, func.body[0]} + Below([func.body[0].value]) + Below(func.decorators)
  {
    var kids := [func.parameters] + func.body + func.decorators;
    BelowOne(func);
    assert Children(func) == kids;
    BelowAppend([func.parameters] + func.body, func.decorators);
    BelowAppend([func.parameters], func.body);
    BelowLeaf(func.parameters);
    assert func.body == [func.body[0]];
    BelowOne(func.body[0]);
    assert Children(func.body[0]) == [func.body[0].value];
  }

  lemma HandlerCalls(n: Node)
    requires n in Below([HANDLER_DEF])
    ensures !n.Assign? && (n.Call? ==> n == DECORATOR || n == SYSTEM)
  {
    BelowFunction(HANDLER_DEF);
    BelowMethodCall(SYSTEM);
    BelowNameCall(DECORATOR);
  }

  lemma SenderCalls(n: Node)
    requires n in Below([SENDER_DEF])
    ensures !n.Assign? && (n.Call? ==> n == SEND)
  {
    BelowFunction(SENDER_DEF);
    BelowMethodCall(SEND);
    assert Below([]) == {};
  }

  /** A harvested site is the shape of one of the calls. */
  lemma SiteIsCall(func: Node, site: CallSite) returns (call: Node)
    requires func.FunctionDef? && site in SitesOf(CallsOf(Walk([func])))
    ensures call.Call? && call in Below([func]) && site.shape == ShapeOf(call)
  {
    hide Walk, ShapeOf, Below;
    var calls := CallsOf(Walk([func]));
    var i :| 0 <= i < |calls| && SitesOf(calls)[i] == site;
    call := calls[i];
    assert call in calls;
    WalkVisitsBelow([func]);
  }

  lemma {:induction false} NoConstruction(nodes: seq<Node>)
    requires forall n | n in nodes :: !n.Assign?
    ensures Facts.Receivers(nodes) == []
  {
    if nodes != [] {
      NoConstruction(nodes[1..]);
    }
  }

  lemma NoReceivers(func: Node)
    requires func == HANDLER_DEF || func == SENDER_DEF
    ensures Facts.Receivers(Ordered(func, true, [func])) == []
  {
    hide Ordered, Facts.Receivers;
    OrderedIsBelow(func, true, [func]);
    forall n | n in Ordered(func, true, [func])
      ensures !n.Assign?
    {
      if func == HANDLER_DEF { HandlerCalls(n); } else { SenderCalls(n); }
    }
    NoConstruction(Ordered(func, true, [func]));
  }

  // ---------------------------------------------------------------- no call resolves

  lemma NothingResolves(call: Node)
    requires call == DECORATOR || call == SYSTEM || call == SEND
    ensures CallContract(PROGRAM, "m", call, map[]) == None
  {
    hide MODULE, ScanSuffix;
    Unregistered("os");
    Unregistered("django.dispatch");
    assert ResolveSymbol(INDEX, "m", "s") == None && ResolveSymbol(INDEX, "m", "send") == None;
    assert ResolveSymbol(INDEX, "m", "system") == None;
    assert ResolveSymbol(INDEX, "m", "os") == None && ResolveSymbol(INDEX, "m", "receiver") == None;
  }

  lemma Unregistered(name: string)
    requires name == "os" || name == "django.dispatch"
    ensures MatchRegistered(INDEX, name) == None
  {
    assert INDEX.order[1..] == [];
  }

  lemma SiteIsSilent(cx: Analysis, q: string, func: Node, site: CallSite)
    requires cx.prog == PROGRAM
    requires (q == "h" && func == HANDLER_DEF) || (q == "c" && func == SENDER_DEF)
    requires site in SitesOf(CallsOf(Walk([func])))
    ensures SiteContract(PROGRAM, "m", site.shape, map[]) == None && SiteTargets(cx, "m", site.shape) == []
  {
    hide Walk, CallContract, SiteContract, CallsOf, SitesOf, Below;
    var call := SiteIsCall(func, site);
    if func == HANDLER_DEF { HandlerCalls(call); } else { SenderCalls(call); }
    NothingResolves(call);
    SiteResolvesLikeCall(PROGRAM, "m", call, map[]);
    TargetsOfSite(cx, call);
  }

  lemma TargetsOfSite(cx: Analysis, call: Node)
    requires call == DECORATOR || call == SYSTEM || call == SEND
    ensures SiteTargets(cx, "m", ShapeOf(call)) == []
  {
  }

  lemma ReceiverMaps(q: string, func: Node)
    requires (q == "h" && func == HANDLER_DEF) || (q == "c" && func == SENDER_DEF)
    ensures q in MODULE.funcs && MODULE.funcs[q].calls == SitesOf(CallsOf(Walk([func])))
    ensures FactReceivers(PROGRAM, "m", q, MODULE.funcs[q].recv) == map[]
  {
    NoReceivers(func);
    hide Walk, Ordered, Facts.Receivers, CallsOf, SitesOf;
    assert '.' !in q;
  }

  lemma GateIsSilent(cx: Analysis)
    requires cx.prog == PROGRAM
    ensures !ModuleEmits(cx, "m", MODULE)
  {
    hide SiteContract, SiteTargets, FactReceivers, Walk, CallsOf, SitesOf;
    forall q, site | q in MODULE.funcs && site in MODULE.funcs[q].calls
      ensures !SiteEmits(cx, "m", site.shape, FactReceivers(PROGRAM, "m", q, MODULE.funcs[q].recv))
    {
      var func := if q == "h" then HANDLER_DEF else SENDER_DEF;
      ReceiverMaps(q, func);
      SiteIsSilent(cx, q, func, site);
    }
  }

  // ---------------------------------------------------------------- the module, faithfully

  lemma ModuleIsHarvested()
    ensures ContractedFunctions(BODY) == [(HANDLER_DEF, "h"), (SENDER_DEF, "c")]
    ensures RowsHarvested(MODULE, BODY)
  {
    hide RowOf, HarvestedFrom;
    assert BODY[1..] == [HANDLER_DEF, SENDER_DEF] && [HANDLER_DEF, SENDER_DEF][1..] == [SENDER_DEF]
        && [SENDER_DEF][1..] == [];
    assert ContractedFunctions([SENDER_DEF]) == [(SENDER_DEF, "c")] + ContractedFunctions([]);
    assert ContractedFunctions([HANDLER_DEF, SENDER_DEF]) == [(HANDLER_DEF, "h")] + ContractedFunctions([SENDER_DEF]);
  }

  lemma OnlyContracts(id: FuncId)
    ensures HasContract(PROGRAM, id) <==> id == HANDLER || id == SENDER
  {
    hide RowOf;
  }

  lemma Decorators()
    ensures FactsOf(PROGRAM, HANDLER).decos == [DecoFacts(Some("receiver"), true, None, 0, "s", "", false)]
    ensures FactsOf(PROGRAM, SENDER).decos == []
  {
    assert [DECORATOR][1..] == [];
    assert DecosOf([DECORATOR]) == [DecoOf(DECORATOR)] + DecosOf([]);
    hide Walk, Ordered, Facts.Receivers, CallsOf, SitesOf, WrapperOf;
  }

  lemma EventsAreCatalogued()
    ensures Catalogued(PROGRAM, map[("m", "s") := [HANDLER]], {})
  {
    hide RowOf, FactsOf, HasContract;
    Decorators();
    var subscribers := map[("m", "s") := [HANDLER]];
    var d := DecoFacts(Some("receiver"), true, None, 0, "s", "", false);
    assert SignalOf(PROGRAM, "m", d) == Some(("m", "s"));
    forall ref, id
      ensures Holds(subscribers, ref, id)
         <==> HasContract(PROGRAM, id) && SubscribesTo(PROGRAM, id, FactsOf(PROGRAM, id).decos, ref)
    {
      OnlyContracts(id);
      if id == HANDLER {
        assert forall x | x in FactsOf(PROGRAM, HANDLER).decos :: x == d;
        assert d in FactsOf(PROGRAM, HANDLER).decos;
      }
    }
    forall id: FuncId
      ensures !(HasContract(PROGRAM, id) && exists x | x in FactsOf(PROGRAM, id).decos :: DeclaresTask(x))
    {
      OnlyContracts(id);
    }
  }

  lemma ContractTable(id: FuncId)
    ensures id in STATE.table <==> HasContract(PROGRAM, id)
    ensures HasContract(PROGRAM, id) ==> STATE.table[id] == ContractOf(PROGRAM, id).ownSinks
    ensures HasContract(PROGRAM, id) ==>
              forall e | e in ContractOf(PROGRAM, id).ownSinks :: EdgeOk(PROGRAM, ContractOf(PROGRAM, id), e)
  {
    hide RowOf;
    OnlyContracts(id);
    assert forall e | e in [EDGE] :: e == EDGE;
  }

  /** The contracts are those the propagation leaves: nothing is forwarded anywhere. */
  lemma ContractsArePropagated()
    ensures Sound(PROGRAM, STATE) && Closed(PROGRAM, STATE.table)
  {
    hide Sound, Closed, FunctionClosed, HasContract, ContractOf, EdgeOk, MODULE;
    forall id
      ensures id in STATE.table <==> HasContract(PROGRAM, id)
      ensures HasContract(PROGRAM, id) ==> STATE.table[id] == ContractOf(PROGRAM, id).ownSinks
      ensures HasContract(PROGRAM, id) ==>
                forall e | e in ContractOf(PROGRAM, id).ownSinks :: EdgeOk(PROGRAM, ContractOf(PROGRAM, id), e)
      ensures HasContract(PROGRAM, id) <==> id == HANDLER || id == SENDER
    {
      ContractTable(id);
      OnlyContracts(id);
    }
    InitialIsSound(PROGRAM, STATE);
    NothingForwarded("h", HANDLER_DEF);
    NothingForwarded("c", SENDER_DEF);
    AllFunctionsClosed(PROGRAM, STATE.table);
  }

  lemma NothingForwarded(q: string, func: Node)
    requires (q == "h" && func == HANDLER_DEF) || (q == "c" && func == SENDER_DEF)
    ensures FunctionClosed(PROGRAM, STATE.table, FuncId("m", q))
  {
    hide Walk, CallsOf, SitesOf, SiteContract, FactReceivers, RowOf;
    var f := FuncId("m", q);
    OnlyContracts(f);
    ReceiverMaps(q, func);
    forall site | site in FactsOf(PROGRAM, f).calls
      ensures SiteClosed(PROGRAM, STATE.table, f, site.shape)
    {
      SiteIsSilent(SignalAnalysis((n, t) => false), q, func, site);
    }
  }

  // ---------------------------------------------------------------- the finding that is lost

  lemma SendReaches(cx: Analysis, tainted: set<string>, receivers: ReceiverMap)
    requires cx.prog == PROGRAM && cx.st == STATE && cx.subscribers == map[("m", "s") := [HANDLER]]
    requires cx.mentions(Name("request", true), tainted)
    ensures DispatchReport(cx, Caller("m", "m.py", "c"), SEND, tainted, receivers, HANDLER, EDGE)
  {
    var caller := Caller("m", "m.py", "c");
    HandlerFacts();
    hide RowOf, FactsOf, HasContract, MODULE;
    assert NameReference(PROGRAM, "m", "s") == ("m", "s");
    assert EmissionTargets(cx, "m", SEND) == [HANDLER] && DispatchedCall(cx, SEND) == SEND;
    assert CallOffset(PROGRAM, "m", SEND, HANDLER, receivers) == 0;
    assert KeywordPairs(SEND.keywords) == [];
    assert BoundAt(SEND.args, [], ["p"], 0, 0) == Some(SEND.args[0]);
    var bound := ArgumentsOf(cx, caller, SEND, HANDLER, receivers);
    assert 0 in bound && bound[0] == Name("request", true);
    assert EDGE in cx.st.table[HANDLER];
  }

  lemma HandlerFacts()
    ensures HasContract(PROGRAM, HANDLER)
    ensures ContractOf(PROGRAM, HANDLER).params == ["p"] && !ContractOf(PROGRAM, HANDLER).takesReceiver
    ensures Neutralized(PROGRAM, HANDLER) == {}
  {
    OnlyContracts(HANDLER);
    Decorators();
    hide RowOf;
    var decos := FactsOf(PROGRAM, HANDLER).decos;
    assert decos[..0] == [] && SlotsOfDecorators(PROGRAM, "m", [], ["p"]) == {};
    assert SlotsOfDecorator(PROGRAM, "m", decos[0], ["p"]) == {};
  }

  lemma SendIsWalked()
    ensures SEND in Walk([SENDER_DEF.body[0]])
  {
    hide Walk;
    WalkVisitsBelow([SENDER_DEF.body[0]]);
    BelowOne(SENDER_DEF.body[0]);
    assert Children(SENDER_DEF.body[0]) == [SEND];
    BelowOne(SEND);
  }

  lemma RequestIsTainted()
    ensures ParameterTaint(SENDER_DEF.parameters) == {"request"}
  {
    assert SENDER_DEF.parameters.names == ["request"];
  }

  lemma TaintAtSend(cx: Analysis, caller: Caller, tainted: set<string>, receivers: ReceiverMap)
    ensures TaintAt(cx, caller, SENDER_DEF.body, 0, tainted, receivers) == tainted
  {
    hide AssignsTaint;
    assert !SENDER_DEF.body[0].Assign?;
  }

  /** The module's facts are those of its tree, its handler is catalogued, and its contracts are what the
      propagation leaves.  The gate skips it; but the full analysis reports the sink behind the signal, for
      every taint test that finds the name `request` in the argument `request`. */
  lemma GateSkipsDispatchingModule(mentions: (Node, set<string>) -> bool)
    requires mentions(Name("request", true), {"request"})
    ensures RowsHarvested(MODULE, BODY)
    ensures var cx := SignalAnalysis(mentions);
      && Catalogued(PROGRAM, cx.subscribers, cx.tasks) && Sound(PROGRAM, cx.st) && Closed(PROGRAM, cx.st.table)
      && !ModuleEmits(cx, "m", MODULE)
      && ModuleFindings(cx, "m", "m.py", BODY) != []
  {
    hide Sound, Closed, Catalogued, RowsHarvested, ModuleEmits, ModuleFindings, RowOf, DispatchReport, TaintAt,
         FactReceivers, Walk, Ordered, Facts.Receivers;
    var cx := SignalAnalysis(mentions);
    ModuleIsHarvested();
    EventsAreCatalogued();
    ContractsArePropagated();
    GateIsSilent(cx);
    var fn := (SENDER_DEF, "c");
    var receivers := ReceiversIn(cx.prog, "m", SENDER_DEF, "c");
    SendIsWalked();
    RequestIsTainted();
    TaintAtSend(cx, Caller("m", "m.py", "c"), {"request"}, receivers);
    SendReaches(cx, {"request"}, receivers);
    assert StatementDispatches(cx, "m", "m.py", fn, 0, SEND, HANDLER, EDGE);
    assert fn in ContractedFunctions(BODY);
    SilentGateIsRight(cx, "m", "m.py", MODULE, BODY);
  }
}
