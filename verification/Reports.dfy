/** What the caller analysis reports, exactly: from one call to one module, and the route each finding
    carries. */
module Reports {
  import opened Options
  import opened PyAst
  import opened Walks
  import opened Facts
  import opened Resolution
  import opened Calls
  import opened Forwarding
  import opened Callers

  // ---------------------------------------------------------------- exactness of one call

  /** Edge `e` of the callee is reported at this call: its argument is bound, not neutralised by a
      decorator, and tainted. */
  ghost predicate Reported(cx: Analysis, caller: Caller, call: Node, callee: FuncId, tainted: set<string>,
                           receivers: ReceiverMap, e: Edge)
    requires call.Call?
  {
    && HasContract(cx.prog, callee) && callee in cx.st.table && e in cx.st.table[callee]
    && (var bound := ArgumentsOf(cx, caller, call, callee, receivers);
        e.param in bound && e.param !in Neutralized(cx.prog, callee) && IsTainted(cx, bound[e.param], tainted))
  }

  lemma {:induction false} EdgeFindingsExact(cx: Analysis, caller: Caller, line: int, callee: FuncId,
                                             edges: seq<Edge>, q: nat)
    requires HasContract(cx.prog, callee)
    ensures forall f ::
      (f in EdgeFindings(cx, caller, line, callee, edges, q)
       <==> exists e :: e in edges && e.param == q && f == FindingFor(cx, caller, line, callee, e))
  {
    hide FindingFor, HasContract;
    if edges != [] {
      EdgeFindingsExact(cx, caller, line, callee, edges[1..], q);
      assert forall e :: e in edges <==> e == edges[0] || e in edges[1..];
    }
  }

  ghost predicate ReportedFrom(cx: Analysis, callee: FuncId, bound: map<nat, Node>, tainted: set<string>, q: nat,
                               e: Edge)
    requires HasContract(cx.prog, callee) && callee in cx.st.table
  {
    && e in cx.st.table[callee] && q <= e.param < |ContractOf(cx.prog, callee).params|
    && e.param in bound && e.param !in Neutralized(cx.prog, callee) && IsTainted(cx, bound[e.param], tainted)
  }

  lemma {:induction false} FindingsFromExact(cx: Analysis, caller: Caller, line: int, callee: FuncId,
                                             bound: map<nat, Node>, tainted: set<string>, q: nat)
    requires HasContract(cx.prog, callee) && callee in cx.st.table
    ensures forall f ::
      (f in FindingsFrom(cx, caller, line, callee, bound, tainted, q)
       <==> exists e :: ReportedFrom(cx, callee, bound, tainted, q, e) && f == FindingFor(cx, caller, line, callee, e))
    decreases |ContractOf(cx.prog, callee).params| - q
  {
    hide FindingFor, HasContract, ContractOf, Neutralized, EdgeFindings;
    if q < |ContractOf(cx.prog, callee).params| {
      FindingsFromExact(cx, caller, line, callee, bound, tainted, q + 1);
      EdgeFindingsExact(cx, caller, line, callee, cx.st.table[callee], q);
      assert forall e ::
        (ReportedFrom(cx, callee, bound, tainted, q, e)
         <==> ReportedFrom(cx, callee, bound, tainted, q + 1, e)
              || (e.param == q && ReportedFrom(cx, callee, bound, tainted, q, e)));
    }
  }

  /** A call reports exactly the edges of the callee whose argument is bound, not neutralised and
      tainted. */
  lemma ContractFindingsExact(cx: Analysis, caller: Caller, call: Node, callee: FuncId, tainted: set<string>,
                              receivers: ReceiverMap)
    requires call.Call?
    ensures forall f ::
      (f in ContractFindings(cx, caller, call, callee, tainted, receivers)
       <==> exists e :: Reported(cx, caller, call, callee, tainted, receivers, e)
                        && f == FindingFor(cx, caller, call.lineno, callee, e))
  {
    hide FindingFor, FindingsFrom, Neutralized;
    if HasContract(cx.prog, callee) && callee in cx.st.table {
      var bound := ArgumentsOf(cx, caller, call, callee, receivers);
      FindingsFromExact(cx, caller, call.lineno, callee, bound, tainted, 0);
      assert forall e ::
        (Reported(cx, caller, call, callee, tainted, receivers, e) <==> ReportedFrom(cx, callee, bound, tainted, 0, e));
    }
  }

  // ---------------------------------------------------------------- a call, a body, a module

  /** The call resolves to the callee and reports its edge. */
  ghost predicate DirectReport(cx: Analysis, caller: Caller, call: Node, tainted: set<string>, receivers: ReceiverMap,
                               callee: FuncId, e: Edge)
    requires call.Call?
  {
    CallContract(cx.prog, caller.mod, call, receivers) == Some(callee)
    && Reported(cx, caller, call, callee, tainted, receivers, e)
  }

  /** The call dispatches to the handler and reports its edge. */
  ghost predicate DispatchReport(cx: Analysis, caller: Caller, call: Node, tainted: set<string>, receivers: ReceiverMap,
                                 handler: FuncId, e: Edge)
    requires call.Call?
  {
    handler in EmissionTargets(cx, caller.mod, call)
    && Reported(cx, caller, DispatchedCall(cx, call), handler, tainted, receivers, e)
  }

  lemma {:induction false} DispatchFindingsExact(cx: Analysis, caller: Caller, call: Node, targets: seq<FuncId>,
                                                 tainted: set<string>, receivers: ReceiverMap)
    requires call.Call?
    ensures forall f ::
      (f in DispatchFindings(cx, caller, call, targets, tainted, receivers)
       <==> exists t :: t in targets && f in ContractFindings(cx, caller, call, t, tainted, receivers))
  {
    hide ContractFindings;
    if targets != [] {
      DispatchFindingsExact(cx, caller, call, targets[1..], tainted, receivers);
      assert forall t :: t in targets <==> t == targets[0] || t in targets[1..];
    }
  }

  lemma DirectFindingsExact(cx: Analysis, caller: Caller, call: Node, tainted: set<string>, receivers: ReceiverMap,
                            f: Finding)
    requires call.Call?
    ensures f in DirectFindings(cx, caller, call, tainted, receivers) <==>
            exists t, e :: DirectReport(cx, caller, call, tainted, receivers, t, e)
                           && f == FindingFor(cx, caller, call.lineno, t, e)
  {
    hide CallContract, ContractFindings, Reported, FindingFor;
    var resolved := CallContract(cx.prog, caller.mod, call, receivers);
    if resolved.Some? {
      ContractFindingsExact(cx, caller, call, resolved.value, tainted, receivers);
    }
  }

  /** What one call reports: the edges it reports directly and those it reports through dispatch. */
  lemma CallFindingsExact(cx: Analysis, caller: Caller, call: Node, tainted: set<string>, receivers: ReceiverMap,
                          f: Finding)
    requires call.Call?
    ensures f in CallFindings(cx, caller, call, tainted, receivers) <==>
            || (exists t, e :: DirectReport(cx, caller, call, tainted, receivers, t, e)
                               && f == FindingFor(cx, caller, call.lineno, t, e))
            || (exists t, e :: DispatchReport(cx, caller, call, tainted, receivers, t, e)
                               && f == FindingFor(cx, caller, DispatchedCall(cx, call).lineno, t, e))
  {
    hide CallContract, ContractFindings, Reported, FindingFor, DirectFindings, DispatchFindings, EmissionTargets,
         DispatchedCall, DirectReport;
    var targets, dispatched := EmissionTargets(cx, caller.mod, call), DispatchedCall(cx, call);
    DirectFindingsExact(cx, caller, call, tainted, receivers, f);
    DispatchFindingsExact(cx, caller, dispatched, targets, tainted, receivers);
    forall t | t in targets {
      ContractFindingsExact(cx, caller, dispatched, t, tainted, receivers);
    }
  }

  lemma {:induction false} ScanExact(cx: Analysis, caller: Caller, calls: seq<Node>, tainted: set<string>,
                                     receivers: ReceiverMap, f: Finding)
    requires forall c | c in calls :: c.Call?
    ensures f in ScanCalls(cx, caller, calls, tainted, receivers) <==>
            exists c :: c in calls && f in CallFindings(cx, caller, c, tainted, receivers)
  {
    hide CallFindings;
    if calls != [] {
      ScanExact(cx, caller, calls[1..], tainted, receivers, f);
      assert forall c :: c in calls <==> c == calls[0] || c in calls[1..];
    }
  }

  /** The taint in force for the calls of statement `i`: it includes the statement's own assignment. */
  function TaintAt(cx: Analysis, caller: Caller, body: seq<Node>, i: nat, tainted: set<string>,
                   receivers: ReceiverMap): set<string>
    requires i < |body|
  {
    var before := if i == 0 then tainted else TaintAt(cx, caller, body, i - 1, tainted, receivers);
    TaintAfter(cx, caller, body[i], before, receivers)
  }

  lemma {:induction false} TaintAtTail(cx: Analysis, caller: Caller, body: seq<Node>, i: nat, tainted: set<string>,
                                       receivers: ReceiverMap)
    requires 0 < i < |body|
    ensures TaintAt(cx, caller, body, i, tainted, receivers)
            == TaintAt(cx, caller, body[1..], i - 1, TaintAfter(cx, caller, body[0], tainted, receivers), receivers)
  {
    hide TaintAfter;
    if i > 1 {
      TaintAtTail(cx, caller, body, i - 1, tainted, receivers);
    }
  }

  /** A call of statement `i` reports the finding under the taint at that statement. */
  ghost predicate StatementReports(cx: Analysis, caller: Caller, body: seq<Node>, tainted: set<string>,
                                   receivers: ReceiverMap, i: nat, call: Node, f: Finding) {
    && i < |body| && call.Call? && call in Walk([body[i]])
    && f in CallFindings(cx, caller, call, TaintAt(cx, caller, body, i, tainted, receivers), receivers)
  }

  /** What a body reports. */
  lemma {:induction false} BodyFindingsExact(cx: Analysis, caller: Caller, body: seq<Node>, tainted: set<string>,
                                             receivers: ReceiverMap, f: Finding)
    ensures f in BodyFindings(cx, caller, body, tainted, receivers) <==>
            exists i: nat, call :: StatementReports(cx, caller, body, tainted, receivers, i, call, f)
    decreases |body|
  {
    hide CallFindings, TaintAfter, Walk, ScanCalls;
    if body != [] {
      var after := TaintAfter(cx, caller, body[0], tainted, receivers);
      ScanExact(cx, caller, CallsOf(Walk([body[0]])), after, receivers, f);
      BodyFindingsExact(cx, caller, body[1..], after, receivers, f);
      assert TaintAt(cx, caller, body, 0, tainted, receivers) == after;
      if f in BodyFindings(cx, caller, body, tainted, receivers) {
        if call :| call in CallsOf(Walk([body[0]])) && f in CallFindings(cx, caller, call, after, receivers) {
          assert StatementReports(cx, caller, body, tainted, receivers, 0, call, f);
        } else {
          var i: nat, call :| StatementReports(cx, caller, body[1..], after, receivers, i, call, f);
          TaintAtTail(cx, caller, body, i + 1, tainted, receivers);
          assert StatementReports(cx, caller, body, tainted, receivers, i + 1, call, f);
        }
      }
      if i: nat, call :| StatementReports(cx, caller, body, tainted, receivers, i, call, f) {
        if i > 0 {
          TaintAtTail(cx, caller, body, i, tainted, receivers);
          assert StatementReports(cx, caller, body[1..], after, receivers, i - 1, call, f);
        }
      }
    }
  }

  ghost predicate FunctionReports(cx: Analysis, mod: string, file: string, func: Node, qual: string, i: nat, call: Node,
                                  f: Finding) {
    func.FunctionDef?
    && StatementReports(cx, Caller(mod, file, qual), func.body, ParameterTaint(func.parameters),
                        ReceiversIn(cx.prog, mod, func, qual), i, call, f)
  }

  lemma FunctionIsBody(cx: Analysis, mod: string, file: string, func: Node, qual: string)
    requires func.FunctionDef?
    ensures FunctionFindings(cx, mod, file, func, qual)
         == BodyFindings(cx, Caller(mod, file, qual), func.body, ParameterTaint(func.parameters),
                         ReceiversIn(cx.prog, mod, func, qual))
  {
    hide BodyFindings, FactReceivers, Ordered, Facts.Receivers, ParameterTaint;
  }

  /** What a function reports: exactly what some call of some statement reports under the taint there. */
  lemma FunctionFindingsExact(cx: Analysis, mod: string, file: string, func: Node, qual: string, f: Finding)
    requires func.FunctionDef?
    ensures f in FunctionFindings(cx, mod, file, func, qual) <==>
            exists i: nat, call :: FunctionReports(cx, mod, file, func, qual, i, call, f)
  {
    hide StatementReports, BodyFindings, FunctionFindings, ReceiversIn, ParameterTaint;
    FunctionIsBody(cx, mod, file, func, qual);
    var caller, tainted := Caller(mod, file, qual), ParameterTaint(func.parameters);
    var receivers := ReceiversIn(cx.prog, mod, func, qual);
    BodyFindingsExact(cx, caller, func.body, tainted, receivers, f);
    assert forall i: nat, call ::
      (FunctionReports(cx, mod, file, func, qual, i, call, f)
       <==> StatementReports(cx, caller, func.body, tainted, receivers, i, call, f));
  }

  lemma {:induction false} FindingsOfAllExact(cx: Analysis, mod: string, file: string, all: seq<(Node, string)>,
                                              f: Finding)
    requires forall fn | fn in all :: fn.0.FunctionDef?
    ensures f in FindingsOfAll(cx, mod, file, all) <==>
            exists fn :: fn in all && f in FunctionFindings(cx, mod, file, fn.0, fn.1)
  {
    hide FunctionFindings;
    if all != [] {
      FindingsOfAllExact(cx, mod, file, all[1..], f);
      assert forall fn :: fn in all <==> fn == all[0] || fn in all[1..];
    }
  }

  /** What a module reports: exactly what a function of it reports. */
  lemma ModuleFindingsExact(cx: Analysis, mod: string, file: string, body: seq<Node>, f: Finding)
    ensures f in ModuleFindings(cx, mod, file, body) <==>
            exists fn, i: nat, call :: fn in ContractedFunctions(body)
                && FunctionReports(cx, mod, file, fn.0, fn.1, i, call, f)
  {
    hide FunctionFindings, FunctionReports, ContractedFunctions, FindingsOfAll;
    var all := ContractedFunctions(body);
    FindingsOfAllExact(cx, mod, file, all, f);
    forall fn | fn in all {
      FunctionFindingsExact(cx, mod, file, fn.0, fn.1, f);
    }
  }

  // ---------------------------------------------------------------- exploit routes

  /** A trace is the source, then the forwarding call sites outermost first, then the sink in the
      file of the function that owns it. */
  ghost predicate GenuineTrace(cx: Analysis, f: Finding, callee: FuncId, e: Edge, path: seq<Slot>) {
    && |path| > 0 && path[0] == Slot(callee, e.param) && Distinct(path)
    && |f.trace| == |path| + 1
    && f.trace[0] == TraceHop(SourceHop, f.callerFile, f.callerLine, f.callerFunc)
    && (forall i | 0 <= i < |path| :: HasContract(cx.prog, path[i].f))
    && (forall i | 0 <= i < |path| - 1 ::
          && Forwards(cx.prog, path[i], f.trace[i + 1].line, path[i + 1])
          && f.trace[i + 1] == TraceHop(RouteHop, ContractOf(cx.prog, path[i].f).filePath, f.trace[i + 1].line,
                                        NameOf(path[i].f)))
    && OwnsSink(cx.prog, path[|path| - 1], f.sink, f.sinkLine)
    && f.sinkFile == ContractOf(cx.prog, path[|path| - 1].f).filePath
    && f.trace[|path|].role == SinkHop && f.trace[|path|].file == f.sinkFile && f.trace[|path|].line == f.sinkLine
  }

  lemma TraceOfRoute(cx: Analysis, f: Finding, callee: FuncId, e: Edge, route: seq<Hop>, path: seq<Slot>)
    requires Genuine(cx.prog, RouteKeyOf(callee, e), route, f.sinkFile, path)
    requires HasContract(cx.prog, path[|route|].f)
    requires |f.trace| == |route| + 2
    requires f.trace[0] == TraceHop(SourceHop, f.callerFile, f.callerLine, f.callerFunc)
    requires forall i | 0 <= i < |route| ::
        f.trace[i + 1] == TraceHop(RouteHop, route[i].file, route[i].line, route[i].name)
    requires f.trace[|route| + 1].role == SinkHop && f.trace[|route| + 1].file == f.sinkFile
    requires f.trace[|route| + 1].line == f.sinkLine && f.sink == e.sink && f.sinkLine == e.line
    ensures GenuineTrace(cx, f, callee, e, path)
  {
    hide Forwards, HasContract, ContractOf, Distinct, OwnsSink, NameOf;
    assert |path| - 1 == |route|;
    forall i | 0 <= i < |path|
      ensures HasContract(cx.prog, path[i].f)
    {
    }
    forall i | 0 <= i < |path| - 1
      ensures Forwards(cx.prog, path[i], f.trace[i + 1].line, path[i + 1])
    {
      assert Forwards(cx.prog, path[i], Lines(route)[i], path[i + 1]);
    }
  }

  lemma LastSlotHasContract(prog: Program, k: RouteKey, route: seq<Hop>, origin: string, path: seq<Slot>)
    requires Genuine(prog, k, route, origin, path)
    ensures HasContract(prog, path[|route|].f)
  {
    hide Forwards, Distinct;
  }

  lemma ThreeParts<T>(head: T, middle: seq<T>, last: T)
    ensures var all := [head] + middle + [last];
      && |all| == |middle| + 2 && all[0] == head && all[|middle| + 1] == last
      && forall i | 0 <= i < |middle| :: all[i + 1] == middle[i]
  {
  }

  /** The trace of a finding: source, route, sink. */
  lemma TraceParts(cx: Analysis, caller: Caller, line: int, callee: FuncId, e: Edge)
    requires HasContract(cx.prog, callee)
    ensures
      var f, hops := FindingFor(cx, caller, line, callee, e), RouteHops(RouteOf(cx.st, RouteKeyOf(callee, e)));
      && |f.trace| == |hops| + 2
      && f.trace[0] == TraceHop(SourceHop, f.callerFile, f.callerLine, f.callerFunc)
      && (forall i | 0 <= i < |hops| :: f.trace[i + 1] == hops[i])
      && f.trace[|hops| + 1].role == SinkHop && f.trace[|hops| + 1].file == f.sinkFile
      && f.trace[|hops| + 1].line == f.sinkLine
      && f.sinkFile == OriginOf(cx.prog, cx.st, RouteKeyOf(callee, e)) && f.sink == e.sink && f.sinkLine == e.line
  {
    hide HasContract, RouteOf, OriginOf, NameOf, RouteHops;
    var k, name := RouteKeyOf(callee, e), caller.mod + "." + caller.func;
    var file := OriginOf(cx.prog, cx.st, k);
    ThreeParts(TraceHop(SourceHop, caller.file, line, name), RouteHops(RouteOf(cx.st, k)),
               TraceHop(SinkHop, file, e.line, cx.describe(file, e.line, e.sink)));
  }

  lemma ChainsDoNotMatter(cx: Analysis, chain: map<RouteKey, seq<Slot>>, callee: FuncId, e: Edge)
    requires HasContract(cx.prog, callee)
    ensures var st, k := cx.st.(chain := chain), RouteKeyOf(callee, e);
      RouteOf(st, k) == RouteOf(cx.st, k) && OriginOf(cx.prog, st, k) == OriginOf(cx.prog, cx.st, k) && k.f == callee
  {
    hide HasContract;
  }

  /** With the chains of the propagation in hand, every finding's trace is a genuine route. */
  lemma FindingTraceIsGenuine(cx: Analysis, chain: map<RouteKey, seq<Slot>>, caller: Caller, line: int,
                              callee: FuncId, e: Edge)
    requires Sound(cx.prog, cx.st.(chain := chain)) && HasContract(cx.prog, callee)
    requires callee in cx.st.table && e in cx.st.table[callee]
    ensures GenuineTrace(cx, FindingFor(cx, caller, line, callee, e), callee, e,
                         PathOf(cx.st.(chain := chain), RouteKeyOf(callee, e)))
  {
    hide *;
    var st, k := cx.st.(chain := chain), RouteKeyOf(callee, e);
    var f := FindingFor(cx, caller, line, callee, e);
    ChainsDoNotMatter(cx, chain, callee, e);
    SoundEdge(cx.prog, st, callee, e);
    TraceParts(cx, caller, line, callee, e);
    LastSlotHasContract(cx.prog, k, RouteOf(st, k), f.sinkFile, PathOf(st, k));
    TraceOfRoute(cx, f, callee, e, RouteOf(st, k), PathOf(st, k));
  }
}
