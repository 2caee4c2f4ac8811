/** What the two phases of the engine guarantee together: the reports are exactly the tainted arguments
    that reach a sink, and each comes with a genuine exploit route. */
module EndToEnd {
  import opened Options
  import opened PyAst
  import opened Walks
  import opened Facts
  import opened Resolution
  import opened Calls
  import opened Forwarding
  import opened Callers
  import opened Engine
  import opened Reports
  import opened CallerAnalysis

  /** The argument bound to parameter `q` of the callee is tainted and no decorator neutralises it. */
  ghost predicate TaintedInto(cx: Analysis, caller: Caller, call: Node, callee: FuncId, tainted: set<string>,
                              receivers: ReceiverMap, q: nat)
    requires call.Call? && HasContract(cx.prog, callee)
  {
    var bound := ArgumentsOf(cx, caller, call, callee, receivers);
    q in bound && q !in Neutralized(cx.prog, callee) && IsTainted(cx, bound[q], tainted)
  }

  /** After the propagation, a resolved call reports a sink through a parameter if and only if its argument
      is tainted and some chain of forwardings carries that parameter into the sink. */
  lemma ReportedIffSinkReached(cx: Analysis, caller: Caller, call: Node, callee: FuncId, tainted: set<string>,
                               receivers: ReceiverMap, q: nat, sink: string, line: int)
    requires call.Call? && HasContract(cx.prog, callee) && callee in cx.st.table
    requires forall s: Slot, name, at :: HasKey(cx.st.table, s, name, at) <==> Reaches(cx.prog, s, name, at)
    ensures
      (exists e: Edge :: e.param == q && e.sink == sink && e.line == line
                   && Reported(cx, caller, call, callee, tainted, receivers, e)
                   && FindingFor(cx, caller, call.lineno, callee, e)
                      in ContractFindings(cx, caller, call, callee, tainted, receivers))
      <==> TaintedInto(cx, caller, call, callee, tainted, receivers, q) && Reaches(cx.prog, Slot(callee, q), sink, line)
  {
    hide Reaches, HasContract, ArgumentsOf, Neutralized, IsTainted, FindingFor, ContractFindings;
    ContractFindingsExact(cx, caller, call, callee, tainted, receivers);
    assert HasKey(cx.st.table, Slot(callee, q), sink, line) <==> Reaches(cx.prog, Slot(callee, q), sink, line);
    if TaintedInto(cx, caller, call, callee, tainted, receivers, q) && Reaches(cx.prog, Slot(callee, q), sink, line) {
      var e :| e in cx.st.table[callee] && e.param == q && e.sink == sink && e.line == line;
      assert Reported(cx, caller, call, callee, tainted, receivers, e);
    }
  }

  // ---------------------------------------------------------------- every finding of a run

  /** The finding reports a recorded edge, and its trace is a genuine route to that edge's sink. */
  ghost predicate Justified(cx: Analysis, f: Finding) {
    exists callee: FuncId, e: Edge, path: seq<Slot> ::
      && callee in cx.st.table && e in cx.st.table[callee]
      && f.cwe == e.cwe && f.sink == e.sink && f.sinkLine == e.line
      && GenuineTrace(cx, f, callee, e, path)
  }

  ghost predicate AllJustified(cx: Analysis, fs: seq<Finding>) {
    forall f | f in fs :: Justified(cx, f)
  }

  lemma JustifiedConcat(cx: Analysis, a: seq<Finding>, b: seq<Finding>)
    requires AllJustified(cx, a) && AllJustified(cx, b)
    ensures AllJustified(cx, a + b)
  {
    hide Justified;
  }

  lemma NoneToJustify(cx: Analysis)
    ensures AllJustified(cx, [])
  {
  }

  lemma FindingIsJustified(cx: Analysis, chain: map<RouteKey, seq<Slot>>, caller: Caller, line: int, callee: FuncId,
                           e: Edge)
    requires Sound(cx.prog, cx.st.(chain := chain)) && HasContract(cx.prog, callee)
    requires callee in cx.st.table && e in cx.st.table[callee]
    ensures Justified(cx, FindingFor(cx, caller, line, callee, e))
  {
    hide Sound, HasContract, GenuineTrace, RouteHops, PathOf, RouteOf, OriginOf;
    FindingTraceIsGenuine(cx, chain, caller, line, callee, e);
  }

  lemma ContractFindingsJustified(cx: Analysis, chain: map<RouteKey, seq<Slot>>, caller: Caller, call: Node,
                                  callee: FuncId, tainted: set<string>, receivers: ReceiverMap)
    requires Sound(cx.prog, cx.st.(chain := chain)) && call.Call?
    ensures AllJustified(cx, ContractFindings(cx, caller, call, callee, tainted, receivers))
  {
    hide Sound, HasContract, Justified, FindingFor, ContractFindings, ArgumentsOf, Neutralized, IsTainted;
    ContractFindingsExact(cx, caller, call, callee, tainted, receivers);
    forall f | f in ContractFindings(cx, caller, call, callee, tainted, receivers)
      ensures Justified(cx, f)
    {
      var e :| Reported(cx, caller, call, callee, tainted, receivers, e)
               && f == FindingFor(cx, caller, call.lineno, callee, e);
      FindingIsJustified(cx, chain, caller, call.lineno, callee, e);
    }
  }

  lemma {:induction false} DispatchFindingsJustified(cx: Analysis, chain: map<RouteKey, seq<Slot>>, caller: Caller,
                                                     call: Node, targets: seq<FuncId>, tainted: set<string>,
                                                     receivers: ReceiverMap)
    requires Sound(cx.prog, cx.st.(chain := chain)) && call.Call?
    ensures AllJustified(cx, DispatchFindings(cx, caller, call, targets, tainted, receivers))
  {
    hide Sound, AllJustified, ContractFindings;
    NoneToJustify(cx);
    if targets != [] {
      ContractFindingsJustified(cx, chain, caller, call, targets[0], tainted, receivers);
      DispatchFindingsJustified(cx, chain, caller, call, targets[1..], tainted, receivers);
      JustifiedConcat(cx, ContractFindings(cx, caller, call, targets[0], tainted, receivers),
                      DispatchFindings(cx, caller, call, targets[1..], tainted, receivers));
    }
  }

  lemma CallFindingsJustified(cx: Analysis, chain: map<RouteKey, seq<Slot>>, caller: Caller, call: Node,
                              tainted: set<string>, receivers: ReceiverMap)
    requires Sound(cx.prog, cx.st.(chain := chain)) && call.Call?
    ensures AllJustified(cx, CallFindings(cx, caller, call, tainted, receivers))
  {
    hide Sound, AllJustified, ContractFindings, CallContract, DispatchFindings, DispatchedCall, EmissionTargets;
    NoneToJustify(cx);
    var resolved := CallContract(cx.prog, caller.mod, call, receivers);
    if resolved.Some? {
      ContractFindingsJustified(cx, chain, caller, call, resolved.value, tainted, receivers);
    }
    var dispatched, targets := DispatchedCall(cx, call), EmissionTargets(cx, caller.mod, call);
    DispatchFindingsJustified(cx, chain, caller, dispatched, targets, tainted, receivers);
    JustifiedConcat(cx, DirectFindings(cx, caller, call, tainted, receivers),
                    DispatchFindings(cx, caller, dispatched, targets, tainted, receivers));
  }

  lemma {:induction false} ScanJustified(cx: Analysis, chain: map<RouteKey, seq<Slot>>, caller: Caller,
                                         calls: seq<Node>, tainted: set<string>, receivers: ReceiverMap)
    requires Sound(cx.prog, cx.st.(chain := chain)) && forall c | c in calls :: c.Call?
    ensures AllJustified(cx, ScanCalls(cx, caller, calls, tainted, receivers))
  {
    hide Sound, AllJustified, CallFindings;
    NoneToJustify(cx);
    if calls != [] {
      CallFindingsJustified(cx, chain, caller, calls[0], tainted, receivers);
      ScanJustified(cx, chain, caller, calls[1..], tainted, receivers);
      JustifiedConcat(cx, CallFindings(cx, caller, calls[0], tainted, receivers),
                      ScanCalls(cx, caller, calls[1..], tainted, receivers));
    }
  }

  lemma {:induction false} BodyJustified(cx: Analysis, chain: map<RouteKey, seq<Slot>>, caller: Caller,
                                         body: seq<Node>, tainted: set<string>, receivers: ReceiverMap)
    requires Sound(cx.prog, cx.st.(chain := chain))
    ensures AllJustified(cx, BodyFindings(cx, caller, body, tainted, receivers))
    decreases |body|
  {
    hide Sound, AllJustified, ScanCalls, TaintAfter, Walk;
    NoneToJustify(cx);
    if body != [] {
      var after, calls := TaintAfter(cx, caller, body[0], tainted, receivers), CallsOf(Walk([body[0]]));
      ScanJustified(cx, chain, caller, calls, after, receivers);
      BodyJustified(cx, chain, caller, body[1..], after, receivers);
      JustifiedConcat(cx, ScanCalls(cx, caller, calls, after, receivers),
                      BodyFindings(cx, caller, body[1..], after, receivers));
    }
  }

  lemma {:induction false} FunctionsJustified(cx: Analysis, chain: map<RouteKey, seq<Slot>>, mod: string,
                                              file: string, all: seq<(Node, string)>)
    requires Sound(cx.prog, cx.st.(chain := chain)) && forall f | f in all :: f.0.FunctionDef?
    ensures AllJustified(cx, FindingsOfAll(cx, mod, file, all))
  {
    hide Sound, AllJustified, BodyFindings, Ordered, Facts.Receivers, FactReceivers;
    NoneToJustify(cx);
    if all != [] {
      var func, qual := all[0].0, all[0].1;
      BodyJustified(cx, chain, Caller(mod, file, qual), func.body, ParameterTaint(func.parameters),
                    ReceiversIn(cx.prog, mod, func, qual));
      FunctionsJustified(cx, chain, mod, file, all[1..]);
      JustifiedConcat(cx, FunctionFindings(cx, mod, file, func, qual), FindingsOfAll(cx, mod, file, all[1..]));
    }
  }

  /** Every finding of a run reports a recorded sink edge and carries a genuine exploit route: the source,
      then forwarding call sites outermost first, then the sink in the file of the function that owns it. */
  lemma {:induction false} EveryFindingIsJustified(cx: Analysis, chain: map<RouteKey, seq<Slot>>, rows: seq<ModuleRow>)
    requires Sound(cx.prog, cx.st.(chain := chain))
    ensures AllJustified(cx, GatedFindings(cx, rows))
    decreases |rows|
  {
    hide Sound, AllJustified, ModuleEmits, ContractedFunctions, FindingsOfAll;
    NoneToJustify(cx);
    if rows != [] {
      var front, last := rows[..|rows| - 1], rows[|rows| - 1];
      EveryFindingIsJustified(cx, chain, front);
      var more := if last.tree == None || !ModuleEmits(cx, last.mod, last.facts) then []
                  else ModuleFindings(cx, last.mod, last.file, last.tree.value);
      if last.tree.Some? {
        FunctionsJustified(cx, chain, last.mod, last.file, ContractedFunctions(last.tree.value));
      }
      JustifiedConcat(cx, GatedFindings(cx, front), more);
    }
  }

  /** The module is read, let through, and a call of one of its functions reports the finding. */
  ghost predicate RowReports(cx: Analysis, row: ModuleRow, fn: (Node, string), i: nat, call: Node, f: Finding) {
    && row.tree.Some? && ModuleEmits(cx, row.mod, row.facts) && fn in ContractedFunctions(row.tree.value)
    && FunctionReports(cx, row.mod, row.file, fn.0, fn.1, i, call, f)
  }

  function RowFindings(cx: Analysis, row: ModuleRow): seq<Finding> {
    if row.tree == None || !ModuleEmits(cx, row.mod, row.facts) then []
    else ModuleFindings(cx, row.mod, row.file, row.tree.value)
  }

  lemma LastRowReports(cx: Analysis, row: ModuleRow, f: Finding)
    ensures f in RowFindings(cx, row) <==> exists fn, i: nat, call :: RowReports(cx, row, fn, i, call, f)
  {
    hide ModuleEmits, ContractedFunctions, ModuleFindings, FunctionReports;
    if row.tree.Some? && ModuleEmits(cx, row.mod, row.facts) {
      ModuleFindingsExact(cx, row.mod, row.file, row.tree.value, f);
      if fn, i: nat, call :| fn in ContractedFunctions(row.tree.value)
                             && FunctionReports(cx, row.mod, row.file, fn.0, fn.1, i, call, f) {
        assert RowReports(cx, row, fn, i, call, f);
      }
    }
  }

  /** What a run reports, exactly: what some call of some statement reports, under the taint there, in a module
      that the gate lets through. */
  lemma {:induction false} RunReportsExactly(cx: Analysis, rows: seq<ModuleRow>, f: Finding)
    ensures f in GatedFindings(cx, rows) <==>
            exists row, fn, i: nat, call :: row in rows && RowReports(cx, row, fn, i, call, f)
    decreases |rows|
  {
    hide ModuleEmits, ModuleFindings, RowReports;
    if rows != [] {
      var front, last := rows[..|rows| - 1], rows[|rows| - 1];
      assert rows == front + [last];
      assert forall r :: r in rows <==> r in front || r == last;
      RunReportsExactly(cx, front, f);
      LastRowReports(cx, last, f);
      assert f in GatedFindings(cx, rows) <==> f in GatedFindings(cx, front) || f in RowFindings(cx, last);
      if row, fn, i: nat, call :| row in front && RowReports(cx, row, fn, i, call, f) {
        assert row in rows && RowReports(cx, row, fn, i, call, f);
      }
    }
  }

  /** `run` after indexing: propagation, event catalog, caller phase.  The phase works on exactly the contracts
      the propagation left; they hold a sink for a parameter if and only if a forwarding chain reaches it, and
      every finding reports one of them with a genuine route. */
  method AnalyzeProgram(prog: Program, order: seq<FuncId>, contracts: map<FuncId, FunctionSummary>,
                        rows: seq<ModuleRow>, isSource: Node -> bool,
                        mentions: (Node, set<string>) -> bool, envelope: Node -> Node,
                        describe: (string, int, string) -> string)
    returns (findings: seq<Finding>, ghost cx: Analysis)
    requires WellFormed(prog)
    requires forall f :: f in contracts <==> HasContract(prog, f)
    requires forall f | f in contracts :: contracts[f].id == f && contracts[f].contract == ContractOf(prog, f)
    requires forall f | f in contracts :: contracts[f].paramSinks == contracts[f].contract.ownSinks
    requires forall f :: f in order <==> HasContract(prog, f)
    requires forall r | r in rows :: RowOk(r)
    modifies contracts.Values
    ensures cx.prog == prog && Catalogued(prog, cx.subscribers, cx.tasks)
    ensures forall f | f in contracts :: f in cx.st.table && cx.st.table[f] == contracts[f].paramSinks
    ensures forall s: Slot, name, at :: HasKey(cx.st.table, s, name, at) <==> Reaches(prog, s, name, at)
    ensures findings == GatedFindings(cx, rows) && AllJustified(cx, findings)
  {
    hide *;
    var engine := new CrossFileTaintEngine(prog, order, contracts);
    engine.PropagateTransitiveSinkContracts();
    var table := map f | f in contracts :: contracts[f].paramSinks;
    var st := State(table, engine.sinkOrigins, engine.sinkRoute, map[]);
    EngineState(engine, st);
    var subscribers, tasks := BuildEventCatalog(prog, order);
    var analysis := Analysis(prog, st, subscribers, tasks, isSource, mentions, envelope, describe);
    var phase := new CallerPhase(analysis);
    phase.Run(rows);
    findings, cx := phase.findings, analysis;
    EveryFindingIsJustified(cx, engine.chain, rows);
  }

  lemma EngineState(engine: CrossFileTaintEngine, st: State)
    requires engine.Valid()
    requires st.table.Keys == engine.contracts.Keys
    requires forall f | f in engine.contracts :: st.table[f] == engine.contracts[f].paramSinks
    requires st.origins == engine.sinkOrigins && st.route == engine.sinkRoute
    ensures engine.Table() == st.table && Sound(engine.prog, st.(chain := engine.chain))
  {
    hide Sound;
    assert engine.Table() == st.table;
    assert engine.Provenances() == st.(chain := engine.chain);
  }
}
