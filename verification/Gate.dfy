/** What the fact-level gate may skip. */
module Gate {
  import opened PyAst
  import opened Walks
  import opened Facts
  import opened Calls
  import opened Callers
  import opened Reports

  // ---------------------------------------------------------------- the gate

  /** Every function of the module has its facts in the table; with distinct qualified names the
      harvest makes it so. */
  ghost predicate RowsHarvested(facts: ModuleFacts, body: seq<Node>) {
    forall f | f in ContractedFunctions(body) :: f.1 in facts.funcs && HarvestedFrom(facts.funcs[f.1], f.0)
  }

  /** A call the analysis of `func` examines. */
  ghost predicate Examined(func: Node, call: Node) {
    func.FunctionDef? && call.Call? && exists stmt | stmt in func.body :: call in Walk([stmt])
  }

  /** Every examined call has its site among the harvested ones. */
  lemma ExaminedIsHarvested(facts: FuncFacts, func: Node, call: Node)
    requires func.FunctionDef? && HarvestedFrom(facts, func) && Examined(func, call)
    ensures exists site | site in facts.calls :: site.shape == ShapeOf(call) && site.line == call.lineno
  {
    hide ShapeOf, Children;
    var stmt :| stmt in func.body && call in Walk([stmt]);
    BodyIsBelow(func, stmt);
    WalkVisitsBelow([stmt]);
    WalkVisitsBelow([func]);
    var calls := CallsOf(Walk([func]));
    assert call in calls;
    var i :| 0 <= i < |calls| && calls[i] == call;
    assert facts.calls[i] in facts.calls;
  }

  lemma BodyIsBelow(func: Node, stmt: Node)
    requires func.FunctionDef? && stmt in func.body
    ensures Below([stmt]) <= Below([func])
  {
    assert stmt in Children(func);
    BelowChild(func, stmt);
  }

  /** When the gate answers no, no examined call resolves directly to a contract with a sink. */
  lemma SilentGateMeansSinklessCalls(cx: Analysis, mod: string, facts: ModuleFacts, body: seq<Node>,
                                     func: Node, qual: string, call: Node)
    requires RowsHarvested(facts, body) && !ModuleEmits(cx, mod, facts)
    requires (func, qual) in ContractedFunctions(body) && Examined(func, call)
    ensures var resolved := CallContract(cx.prog, mod, call, ReceiversIn(cx.prog, mod, func, qual));
      resolved.Some? ==> !BearsSink(cx, resolved.value)
  {
    hide CallContract, SiteContract, FactReceivers, BearsSink, SiteTargets, ShapeOf, Examined;
    var row := facts.funcs[qual];
    ExaminedIsCall(func, call);
    ExaminedIsHarvested(row, func, call);
    var site :| site in row.calls && site.shape == ShapeOf(call) && site.line == call.lineno;
    var receivers := FactReceivers(cx.prog, mod, qual, row.recv);
    assert !SiteEmits(cx, mod, site.shape, receivers);
    SiteResolvesLikeCall(cx.prog, mod, call, receivers);
  }

  lemma ExaminedIsCall(func: Node, call: Node)
    requires Examined(func, call)
    ensures call.Call?
  {
  }

  /** A call of statement `i` dispatches to a handler and hands it, under the taint at that statement, a
      tainted argument that reaches a sink. */
  ghost predicate StatementDispatches(cx: Analysis, mod: string, file: string, fn: (Node, string), i: nat, call: Node,
                                      handler: FuncId, e: Edge) {
    && fn.0.FunctionDef? && i < |fn.0.body| && call.Call? && call in Walk([fn.0.body[i]])
    && (var caller, receivers := Caller(mod, file, fn.1), ReceiversIn(cx.prog, mod, fn.0, fn.1);
        var tainted := TaintAt(cx, caller, fn.0.body, i, ParameterTaint(fn.0.parameters), receivers);
        DispatchReport(cx, caller, call, tainted, receivers, handler, e))
  }

  ghost predicate ModuleDispatches(cx: Analysis, mod: string, file: string, body: seq<Node>) {
    exists fn, i: nat, call, handler, e :: fn in ContractedFunctions(body)
        && StatementDispatches(cx, mod, file, fn, i, call, handler, e)
  }

  /** In a module the gate skips, whatever is reported is dispatched. */
  lemma SilentReportIsDispatch(cx: Analysis, mod: string, file: string, facts: ModuleFacts, body: seq<Node>,
                               fn: (Node, string), i: nat, call: Node, f: Finding)
    requires RowsHarvested(facts, body) && !ModuleEmits(cx, mod, facts)
    requires fn in ContractedFunctions(body) && FunctionReports(cx, mod, file, fn.0, fn.1, i, call, f)
    ensures ModuleDispatches(cx, mod, file, body)
  {
    hide RowsHarvested, ModuleEmits, ContractedFunctions, CallFindings, FindingFor, EmissionTargets, DispatchedCall,
         FactReceivers, Ordered, Facts.Receivers, CallContract, TaintAt, ParameterTaint, DispatchReport, Walk,
         BearsSink;
    var caller, receivers := Caller(mod, file, fn.1), ReceiversIn(cx.prog, mod, fn.0, fn.1);
    var tainted := TaintAt(cx, caller, fn.0.body, i, ParameterTaint(fn.0.parameters), receivers);
    assert Examined(fn.0, call);
    assert (fn.0, fn.1) == fn;
    SilentGateMeansSinklessCalls(cx, mod, facts, body, fn.0, fn.1, call);
    CallFindingsExact(cx, caller, call, tainted, receivers, f);
    if t, e :| DirectReport(cx, caller, call, tainted, receivers, t, e) {
      ReportBearsSink(cx, caller, call, t, tainted, receivers, e);
      assert false;
    }
    var t, e :| DispatchReport(cx, caller, call, tainted, receivers, t, e);
    assert StatementDispatches(cx, mod, file, fn, i, call, t, e);
  }

  lemma ReportBearsSink(cx: Analysis, caller: Caller, call: Node, callee: FuncId, tainted: set<string>,
                        receivers: ReceiverMap, e: Edge)
    requires call.Call? && Reported(cx, caller, call, callee, tainted, receivers, e)
    ensures BearsSink(cx, callee)
  {
  }

  /** What is dispatched with taint is reported. */
  lemma DispatchIsReported(cx: Analysis, mod: string, file: string, body: seq<Node>, fn: (Node, string), i: nat,
                           call: Node, handler: FuncId, e: Edge)
    requires fn in ContractedFunctions(body) && StatementDispatches(cx, mod, file, fn, i, call, handler, e)
    ensures ModuleFindings(cx, mod, file, body) != []
  {
    hide ContractedFunctions, CallFindings, FindingFor, EmissionTargets, FactReceivers, Ordered, Facts.Receivers,
         TaintAt, ParameterTaint, Walk, ModuleFindings;
    var caller, receivers := Caller(mod, file, fn.1), ReceiversIn(cx.prog, mod, fn.0, fn.1);
    var tainted := TaintAt(cx, caller, fn.0.body, i, ParameterTaint(fn.0.parameters), receivers);
    var f := FindingFor(cx, caller, DispatchedCall(cx, call).lineno, handler, e);
    CallFindingsExact(cx, caller, call, tainted, receivers, f);
    assert FunctionReports(cx, mod, file, fn.0, fn.1, i, call, f);
    ModuleFindingsExact(cx, mod, file, body, f);
  }

  /** Exactly when a silent gate is right: the full analysis of a module it skips reports nothing if and only
      if no call of it dispatches, under the taint at its statement, a tainted argument that reaches a
      sink. */
  lemma SilentGateIsRight(cx: Analysis, mod: string, file: string, facts: ModuleFacts, body: seq<Node>)
    requires RowsHarvested(facts, body) && !ModuleEmits(cx, mod, facts)
    ensures ModuleFindings(cx, mod, file, body) == [] <==> !ModuleDispatches(cx, mod, file, body)
  {
    hide RowsHarvested, ModuleEmits, ContractedFunctions, ModuleFindings, FunctionReports, StatementDispatches;
    var found := ModuleFindings(cx, mod, file, body);
    if found != [] {
      assert found[0] in found;
      ModuleFindingsExact(cx, mod, file, body, found[0]);
      var fn, i: nat, call :| fn in ContractedFunctions(body)
          && FunctionReports(cx, mod, file, fn.0, fn.1, i, call, found[0]);
      SilentReportIsDispatch(cx, mod, file, facts, body, fn, i, call, found[0]);
    } else if ModuleDispatches(cx, mod, file, body) {
      var fn, i: nat, call, t, e :| fn in ContractedFunctions(body)
          && StatementDispatches(cx, mod, file, fn, i, call, t, e);
      DispatchIsReported(cx, mod, file, body, fn, i, call, t, e);
    }
  }

  /** The gate never sees a dispatch: wherever the full analysis resolves the receiver of a
      `.send` or `.delay` call, the gate, handed the receiver kind, finds no handler. */
  lemma GateMissesEveryDispatch(cx: Analysis, mod: string, call: Node)
    requires call.Call? && EmissionTargets(cx, mod, call) != []
    ensures SiteTargets(cx, mod, ShapeOf(call)) == []
  {
    hide NameReference, AttrReference, BareNames, BarePairs, KeywordPairs;
  }

  /** What the gate does find: the handlers of a nameless signal or task, for a call whose receiver is no name, no
      attribute and no call of a name. */
  lemma GateFindsNamelessOnly(cx: Analysis, mod: string, call: Node, t: FuncId)
    requires call.Call?
    ensures t in SiteTargets(cx, mod, ShapeOf(call)) <==>
            && call.func.Attribute?
            && (var r := call.func.value; !r.Name? && !r.Attribute? && !(r.Call? && r.func.Name?))
            && (var ref := NameReference(cx.prog, mod, "");
                || (call.func.attr in {"send", "send_robust"} && Holds(cx.subscribers, ref, t))
                || (call.func.attr in {"delay", "apply_async"} && ref in cx.tasks && t == FuncId(ref.0, ref.1)))
  {
    hide NameReference, AttrReference, BareNames, BarePairs, KeywordPairs, DottedPrefix;
  }
}
