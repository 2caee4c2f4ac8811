/** The caller analysis: tainted call sites with their exploit route, and the fact-level gate that
    decides which modules are analysed at all. */
module Callers {
  import opened Options
  import opened PyAst
  import opened SymbolIndex
  import opened Facts
  import opened Resolution
  import opened Calls
  import opened Forwarding

  datatype Role = SourceHop | RouteHop | SinkHop

  datatype TraceHop = TraceHop(role: Role, file: string, line: int, name: string)

  datatype Finding = Finding(
    cwe: string, callerFile: string, callerLine: int, callerFunc: string,
    sinkFile: string, calleeFunc: string, sink: string, sinkLine: int,
    taintedParam: string, trace: seq<TraceHop>)

  type Reference = (string, string)  // (defining module, symbol)

  /** Everything the analysis reads: the program, the propagated contracts and their provenance (`st`, whose
      chains only the proofs of the propagation know), the event catalog, and as parameters the textual taint
      tests, the `apply_async` envelope and the sink spelling. */
  datatype Analysis = Analysis(
    prog: Program,
    st: State,
    subscribers: map<Reference, seq<FuncId>>,
    tasks: set<Reference>,
    isSource: Node -> bool,
    mentions: (Node, set<string>) -> bool,
    envelope: Node -> Node,
    describe: (string, int, string) -> string)

  // ---------------------------------------------------------------- references

  function NameReference(prog: Program, mod: string, name: string): Reference {
    if mod in prog.index.modules && name in prog.index.modules[mod].imports then
      var binding := prog.index.modules[mod].imports[name];
      var target := MatchRegistered(prog.index, binding.sourceModule);
      if target.Some? && target.value != ""
      then (target.value, if binding.importedName != "" then binding.importedName else name)
      else (mod, name)
    else (mod, name)
  }

  function AttrReference(prog: Program, base: string, attr: string): Reference {
    var target := MatchRegistered(prog.index, base);
    (if target.Some? && target.value != "" then target.value else base, attr)
  }

  /** `_resolve_reference` */
  function ResolveReference(prog: Program, mod: string, expr: Node): Option<Reference> {
    match expr
    case Name(id, _) => Some(NameReference(prog, mod, id))
    case Attribute(value, attr) =>
      if value.Name? && (value.id == "self" || value.id == "cls") then None
      else if DottedPrefix(value) == "" then None
      else Some(AttrReference(prog, DottedPrefix(value), attr))
    case _ => None
  }

  /** `_resolve_reference_fact`, whose `kind` is 0 for a name and 1 for an attribute. */
  function ResolveReferenceFact(prog: Program, mod: string, kind: nat, name: string, prefix: string, prefixBare: bool)
    : Option<Reference>
  {
    if kind == 0 then Some(NameReference(prog, mod, name))
    else if kind == 1 then
      if prefixBare && (prefix == "self" || prefix == "cls") then None
      else if prefix == "" then None
      else Some(AttrReference(prog, prefix, name))
    else None
  }

  // ---------------------------------------------------------------- the event catalog

  /** The signal that `@receiver(signal)` names. */
  function SignalOf(prog: Program, mod: string, d: DecoFacts): Option<Reference> {
    if d.tag == Some("receiver") && d.isCall && d.arg0kind != 2
    then ResolveReferenceFact(prog, mod, d.arg0kind, d.arg0name, d.arg0prefix, d.arg0bare) else None
  }

  /** `@shared_task`, `@app.task` */
  predicate DeclaresTask(d: DecoFacts) {
    d.tag == Some("shared_task") || d.tag == Some("task")
  }

  ghost predicate SubscribesTo(prog: Program, id: FuncId, decos: seq<DecoFacts>, ref: Reference) {
    exists d | d in decos :: SignalOf(prog, id.mod, d) == Some(ref)
  }

  ghost predicate Holds(subscribers: map<Reference, seq<FuncId>>, ref: Reference, id: FuncId) {
    ref in subscribers && id in subscribers[ref]
  }

  /** The subscribers of each signal are the functions a `@receiver` decorator names for it, and the tasks
      are the functions with a task decorator. */
  ghost predicate Catalogued(prog: Program, subscribers: map<Reference, seq<FuncId>>, tasks: set<Reference>) {
    && (forall ref, id ::
          (Holds(subscribers, ref, id)
           <==> HasContract(prog, id) && SubscribesTo(prog, id, FactsOf(prog, id).decos, ref)))
    && (forall id: FuncId ::
          ((id.mod, id.qual) in tasks
           <==> HasContract(prog, id) && exists d | d in FactsOf(prog, id).decos :: DeclaresTask(d)))
  }

  /** `setdefault(ref, []).append(id)` */
  function WithSubscriber(subscribers: map<Reference, seq<FuncId>>, ref: Reference, id: FuncId)
    : map<Reference, seq<FuncId>>
  {
    subscribers[ref := (if ref in subscribers then subscribers[ref] else []) + [id]]
  }

  /** The decorators of one function. */
  method CatalogFunction(prog: Program, id: FuncId, decos: seq<DecoFacts>, subscribers0: map<Reference, seq<FuncId>>)
    returns (subscribers: map<Reference, seq<FuncId>>, isTask: bool)
    ensures forall ref, x ::
      (Holds(subscribers, ref, x) <==> Holds(subscribers0, ref, x) || (x == id && SubscribesTo(prog, id, decos, ref)))
    ensures isTask <==> exists d | d in decos :: DeclaresTask(d)
  {
    hide SignalOf, Holds, SubscribesTo, WithSubscriber, DeclaresTask;
    subscribers, isTask := subscribers0, false;
    assert forall ref :: !SubscribesTo(prog, id, decos[..0], ref) by { NoSubscription(prog, id); }
    for k := 0 to |decos|
      invariant forall ref, x ::
        (Holds(subscribers, ref, x)
         <==> Holds(subscribers0, ref, x) || (x == id && SubscribesTo(prog, id, decos[..k], ref)))
      invariant isTask <==> exists d | d in decos[..k] :: DeclaresTask(d)
    {
      var d := decos[k];
      assert decos[..k + 1] == decos[..k] + [d];
      OneMoreDecorator(prog, id, decos[..k], d);
      assert forall x :: x in decos[..k + 1] <==> x in decos[..k] || x == d;
      ghost var before := subscribers;
      var signal := SignalOf(prog, id.mod, d);
      SignalIsNoTask(prog, id.mod, d);
      if signal.Some? {
        var ref := signal.value;
        HoldsAdded(before, ref, id);
        subscribers := WithSubscriber(subscribers, ref, id);
      } else if DeclaresTask(d) {
        isTask := true;
      }
      assert forall r, x :: Holds(subscribers, r, x) <==> Holds(before, r, x) || (signal == Some(r) && x == id);
    }
    assert decos[..|decos|] == decos;
  }

  /** `_build_event_catalog` */
  method BuildEventCatalog(prog: Program, order: seq<FuncId>)
    returns (subscribers: map<Reference, seq<FuncId>>, tasks: set<Reference>)
    requires forall f :: f in order <==> HasContract(prog, f)
    ensures Catalogued(prog, subscribers, tasks)
  {
    hide HasContract, FactsOf, Holds, SubscribesTo, DeclaresTask;
    subscribers, tasks := map[], {};
    assert forall ref, id :: !Holds(subscribers, ref, id) by { NothingHeld(); }
    for n := 0 to |order|
      invariant forall ref, id ::
        (Holds(subscribers, ref, id) <==> id in order[..n] && SubscribesTo(prog, id, FactsOf(prog, id).decos, ref))
      invariant forall id: FuncId ::
        ((id.mod, id.qual) in tasks <==> id in order[..n] && exists d | d in FactsOf(prog, id).decos :: DeclaresTask(d))
    {
      var id := order[n];
      assert id in order && order[..n + 1] == order[..n] + [id];
      assert forall x :: x in order[..n] ==> x in order;
      var isTask;
      subscribers, isTask := CatalogFunction(prog, id, FactsOf(prog, id).decos, subscribers);
      tasks := if isTask then tasks + {(id.mod, id.qual)} else tasks;
      assert forall x: FuncId :: (x.mod, x.qual) == (id.mod, id.qual) <==> x == id;
    }
    assert order[..|order|] == order;
  }

  lemma NoSubscription(prog: Program, id: FuncId)
    ensures forall ref :: !SubscribesTo(prog, id, [], ref)
  {
  }

  lemma OneMoreDecorator(prog: Program, id: FuncId, decos: seq<DecoFacts>, d: DecoFacts)
    ensures forall ref ::
      (SubscribesTo(prog, id, decos + [d], ref)
       <==> SubscribesTo(prog, id, decos, ref) || SignalOf(prog, id.mod, d) == Some(ref))
  {
    hide SignalOf;
    assert forall x :: x in decos + [d] <==> x in decos || x == d;
  }

  lemma SignalIsNoTask(prog: Program, mod: string, d: DecoFacts)
    ensures SignalOf(prog, mod, d).Some? ==> !DeclaresTask(d)
  {
  }

  lemma HoldsAdded(subscribers: map<Reference, seq<FuncId>>, ref: Reference, id: FuncId)
    ensures forall r, x ::
      (Holds(WithSubscriber(subscribers, ref, id), r, x) <==> Holds(subscribers, r, x) || (r == ref && x == id))
  {
    var before := if ref in subscribers then subscribers[ref] else [];
    var more := WithSubscriber(subscribers, ref, id);
    assert forall x :: x in before + [id] <==> x in before || x == id;
    forall r, x
      ensures Holds(more, r, x) <==> Holds(subscribers, r, x) || (r == ref && x == id)
    {
      if r == ref {
        assert more[r] == before + [id];
      } else {
        assert r in more <==> r in subscribers;
      }
    }
  }

  lemma NothingHeld()
    ensures forall ref, id :: !Holds(map[], ref, id)
  {
  }

  predicate IsEmission(attr: string) {
    attr == "send" || attr == "send_robust"
  }

  predicate IsDispatch(attr: string) {
    attr == "delay" || attr == "apply_async"
  }

  function TargetsOf(cx: Analysis, attr: string, ref: Option<Reference>): seq<FuncId> {
    if ref == None then []
    else if IsEmission(attr) then (if ref.value in cx.subscribers then cx.subscribers[ref.value] else [])
    else if IsDispatch(attr) && ref.value in cx.tasks then [FuncId(ref.value.0, ref.value.1)]
    else []
  }

  /** The handlers behind `signal.send(...)` and `task.delay(...)`, as the caller analysis sees
      them. */
  function EmissionTargets(cx: Analysis, mod: string, call: Node): seq<FuncId>
    requires call.Call?
  {
    if call.func.Attribute? then TargetsOf(cx, call.func.attr, ResolveReference(cx.prog, mod, call.func.value)) else []
  }

  /** The handlers of a dispatch site, as the gate sees them: the receiver kind of the call shape
      is handed over as the reference kind. */
  function SiteTargets(cx: Analysis, mod: string, site: CallShape): seq<FuncId> {
    if site.fkind != SITE_FUNC_ATTR || !(IsEmission(site.fname) || IsDispatch(site.fname)) then []
    else TargetsOf(cx, site.fname,
                   ResolveReferenceFact(cx.prog, mod, site.rkind, site.rname, site.rprefix, site.rprefixBare))
  }

  // ---------------------------------------------------------------- the gate

  predicate BearsSink(cx: Analysis, id: FuncId) {
    HasContract(cx.prog, id) && id in cx.st.table && cx.st.table[id] != []
  }

  predicate SiteEmits(cx: Analysis, mod: string, site: CallShape, receivers: ReceiverMap) {
    var resolved := SiteContract(cx.prog, mod, site, receivers);
    || (resolved.Some? && BearsSink(cx, resolved.value))
    || exists t | t in SiteTargets(cx, mod, site) :: BearsSink(cx, t)
  }

  /** Some harvested call of the module can reach a contract with a sink. */
  predicate ModuleEmits(cx: Analysis, mod: string, facts: ModuleFacts) {
    exists q | q in facts.funcs ::
      exists site | site in facts.funcs[q].calls ::
        SiteEmits(cx, mod, site.shape, FactReceivers(cx.prog, mod, q, facts.funcs[q].recv))
  }

  /** That is: some call of some function resolves or dispatches to a function with a sink edge in its contract. */
  lemma ModuleEmitsIff(cx: Analysis, mod: string, facts: ModuleFacts)
    ensures ModuleEmits(cx, mod, facts) <==>
            exists q, site, id, e ::
              && q in facts.funcs && site in facts.funcs[q].calls
              && (|| SiteContract(cx.prog, mod, site.shape, FactReceivers(cx.prog, mod, q, facts.funcs[q].recv))
                  == Some(id) || id in SiteTargets(cx, mod, site.shape))
              && HasContract(cx.prog, id) && id in cx.st.table && e in cx.st.table[id]
  {
    hide SiteContract, FactReceivers, SiteEmits, HasContract;
    forall q, site | q in facts.funcs && site in facts.funcs[q].calls {
      SiteEmitsIff(cx, mod, site.shape, FactReceivers(cx.prog, mod, q, facts.funcs[q].recv));
    }
  }

  lemma SiteEmitsIff(cx: Analysis, mod: string, site: CallShape, receivers: ReceiverMap)
    ensures SiteEmits(cx, mod, site, receivers) <==>
            exists id, e ::
              && (SiteContract(cx.prog, mod, site, receivers) == Some(id) || id in SiteTargets(cx, mod, site))
              && HasContract(cx.prog, id) && id in cx.st.table && e in cx.st.table[id]
  {
    hide SiteContract, SiteTargets, BearsSink;
    forall id
      ensures BearsSink(cx, id) <==>
              HasContract(cx.prog, id) && id in cx.st.table && exists e :: e in cx.st.table[id]
    {
      BearsSinkIff(cx, id);
    }
  }

  lemma BearsSinkIff(cx: Analysis, id: FuncId)
    ensures BearsSink(cx, id) <==> HasContract(cx.prog, id) && id in cx.st.table && exists e :: e in cx.st.table[id]
  {
    if BearsSink(cx, id) {
      assert cx.st.table[id][0] in cx.st.table[id];
    }
  }

  /** `_module_emits`, its loops over the functions and their calls. */
  method ModuleMayEmit(cx: Analysis, mod: string, facts: ModuleFacts, quals: seq<string>) returns (emits: bool)
    requires forall q :: q in quals <==> q in facts.funcs
    ensures emits <==> ModuleEmits(cx, mod, facts)
  {
    hide SiteContract, FactReceivers, BearsSink, SiteTargets;
    for i := 0 to |quals|
      invariant forall j, site | 0 <= j < i && site in facts.funcs[quals[j]].calls ::
        !SiteEmits(cx, mod, site.shape, FactReceivers(cx.prog, mod, quals[j], facts.funcs[quals[j]].recv))
    {
      var func := facts.funcs[quals[i]];
      var receivers := FactReceivers(cx.prog, mod, quals[i], func.recv);
      for c := 0 to |func.calls|
        invariant forall d | 0 <= d < c :: !SiteEmits(cx, mod, func.calls[d].shape, receivers)
      {
        var site := func.calls[c].shape;
        assert func.calls[c] in func.calls;
        var resolved := SiteContract(cx.prog, mod, site, receivers);
        if resolved.Some? && BearsSink(cx, resolved.value) {
          return true;
        }
        var targets := SiteTargets(cx, mod, site);
        for t := 0 to |targets|
          invariant forall u | 0 <= u < t :: !BearsSink(cx, targets[u])
        {
          if BearsSink(cx, targets[t]) {
            assert targets[t] in SiteTargets(cx, mod, site);
            return true;
          }
        }
      }
    }
    emits := false;
  }

  // ---------------------------------------------------------------- findings of one call

  function RouteHops(route: seq<Hop>): (hops: seq<TraceHop>)
    ensures |hops| == |route|
    ensures forall i | 0 <= i < |route| :: hops[i] == TraceHop(RouteHop, route[i].file, route[i].line, route[i].name)
  {
    seq(|route|, i requires 0 <= i < |route| => TraceHop(RouteHop, route[i].file, route[i].line, route[i].name))
  }

  datatype Caller = Caller(mod: string, file: string, func: string)

  function FindingFor(cx: Analysis, caller: Caller, line: int, callee: FuncId, e: Edge): Finding
    requires HasContract(cx.prog, callee)
  {
    var k := RouteKeyOf(callee, e);
    var file := OriginOf(cx.prog, cx.st, k);
    var name := caller.mod + "." + caller.func;
    Finding(e.cwe, caller.file, line, name, file, NameOf(callee), e.sink, e.line, e.paramName,
            [TraceHop(SourceHop, caller.file, line, name)] + RouteHops(RouteOf(cx.st, k))
            + [TraceHop(SinkHop, file, e.line, cx.describe(file, e.line, e.sink))])
  }

  function EdgeFindings(cx: Analysis, caller: Caller, line: int, callee: FuncId, edges: seq<Edge>, q: nat): seq<Finding>
    requires HasContract(cx.prog, callee)
  {
    if edges == [] then []
    else (if edges[0].param == q then [FindingFor(cx, caller, line, callee, edges[0])] else [])
         + EdgeFindings(cx, caller, line, callee, edges[1..], q)
  }

  function ArgumentsOf(cx: Analysis, caller: Caller, call: Node, callee: FuncId, receivers: ReceiverMap): map<nat, Node>
    requires call.Call? && HasContract(cx.prog, callee)
  {
    BindCall(call, ContractOf(cx.prog, callee).params, CallOffset(cx.prog, caller.mod, call, callee, receivers))
  }

  predicate IsTainted(cx: Analysis, arg: Node, tainted: set<string>) {
    cx.mentions(arg, tainted) || cx.isSource(arg)
  }

  /** The bound arguments from position `q` on, in order. */
  function FindingsFrom(cx: Analysis, caller: Caller, line: int, callee: FuncId, bound: map<nat, Node>,
                        tainted: set<string>, q: nat): seq<Finding>
    requires HasContract(cx.prog, callee) && callee in cx.st.table
    decreases |ContractOf(cx.prog, callee).params| - q
  {
    if q >= |ContractOf(cx.prog, callee).params| then []
    else
      (if q in bound && q !in Neutralized(cx.prog, callee) && IsTainted(cx, bound[q], tainted)
       then EdgeFindings(cx, caller, line, callee, cx.st.table[callee], q) else [])
      + FindingsFrom(cx, caller, line, callee, bound, tainted, q + 1)
  }

  /** `_emit_contract_findings` */
  function ContractFindings(cx: Analysis, caller: Caller, call: Node, callee: FuncId, tainted: set<string>,
                            receivers: ReceiverMap): seq<Finding>
    requires call.Call?
  {
    if !HasContract(cx.prog, callee) || callee !in cx.st.table then []
    else FindingsFrom(cx, caller, call.lineno, callee, ArgumentsOf(cx, caller, call, callee, receivers), tainted, 0)
  }

  function DispatchFindings(cx: Analysis, caller: Caller, call: Node, targets: seq<FuncId>, tainted: set<string>,
                            receivers: ReceiverMap): seq<Finding>
    requires call.Call?
  {
    if targets == [] then []
    else ContractFindings(cx, caller, call, targets[0], tainted, receivers)
         + DispatchFindings(cx, caller, call, targets[1..], tainted, receivers)
  }

  /** The call whose arguments a handler receives: `apply_async` carries them in an envelope. */
  function DispatchedCall(cx: Analysis, call: Node): (dispatched: Node)
    requires call.Call?
    ensures dispatched.Call?
  {
    if call.func.Attribute? && call.func.attr == "apply_async" && cx.envelope(call).Call?
    then cx.envelope(call) else call
  }

  function DirectFindings(cx: Analysis, caller: Caller, call: Node, tainted: set<string>,
                          receivers: ReceiverMap): seq<Finding>
    requires call.Call?
  {
    var resolved := CallContract(cx.prog, caller.mod, call, receivers);
    if resolved == None then [] else ContractFindings(cx, caller, call, resolved.value, tainted, receivers)
  }

  function CallFindings(cx: Analysis, caller: Caller, call: Node, tainted: set<string>,
                        receivers: ReceiverMap): seq<Finding>
    requires call.Call?
  {
    DirectFindings(cx, caller, call, tainted, receivers)
    + DispatchFindings(cx, caller, DispatchedCall(cx, call), EmissionTargets(cx, caller.mod, call), tainted, receivers)
  }

  function ScanCalls(cx: Analysis, caller: Caller, calls: seq<Node>, tainted: set<string>,
                     receivers: ReceiverMap): seq<Finding>
    requires forall c | c in calls :: c.Call?
  {
    if calls == [] then []
    else CallFindings(cx, caller, calls[0], tainted, receivers) + ScanCalls(cx, caller, calls[1..], tainted, receivers)
  }

  // ---------------------------------------------------------------- taint inside a caller

  /** `_returns_tainted_arg` */
  predicate ReturnsTaintedArg(bound: map<nat, Node>, taintedReturns: set<nat>, tainted: set<string>) {
    exists i | i in taintedReturns :: i in bound
      && exists n | n in Walk([bound[i]]) :: n.Name? && n.id in tainted
  }

  predicate AssignsTaint(cx: Analysis, caller: Caller, stmt: Node, tainted: set<string>, receivers: ReceiverMap)
    requires stmt.Assign?
  {
    || cx.isSource(stmt.value)
    || (var resolved := CallContract(cx.prog, caller.mod, stmt.value, receivers);
        if resolved.Some? && HasContract(cx.prog, resolved.value) && stmt.value.Call? then
          var contract := ContractOf(cx.prog, resolved.value);
          !contract.isSanitizer
          && ReturnsTaintedArg(ArgumentsOf(cx, caller, stmt.value, resolved.value, receivers),
                               contract.taintedReturns, tainted)
        else cx.mentions(stmt.value, tainted))
  }

  function TaintAfter(cx: Analysis, caller: Caller, stmt: Node, tainted: set<string>,
                      receivers: ReceiverMap): set<string> {
    if stmt.Assign? && AssignsTaint(cx, caller, stmt, tainted, receivers)
    then tainted + set t | t in TargetNames(stmt.targets) else tainted
  }

  function BodyFindings(cx: Analysis, caller: Caller, body: seq<Node>, tainted: set<string>,
                        receivers: ReceiverMap): seq<Finding> {
    if body == [] then []
    else
      var tainted' := TaintAfter(cx, caller, body[0], tainted, receivers);
      ScanCalls(cx, caller, CallsOf(Walk([body[0]])), tainted', receivers)
      + BodyFindings(cx, caller, body[1..], tainted', receivers)
  }

  function ParameterTaint(parameters: Node): set<string> {
    if parameters.Arguments? then set p | p in parameters.names && (p == "request" || p == "req") else {}
  }

  /** `_analyze_function_body` */
  function FunctionFindings(cx: Analysis, mod: string, file: string, func: Node, qual: string): seq<Finding>
    requires func.FunctionDef?
  {
    BodyFindings(cx, Caller(mod, file, qual), func.body, ParameterTaint(func.parameters),
                 ReceiversIn(cx.prog, mod, func, qual))
  }

  function FindingsOfAll(cx: Analysis, mod: string, file: string, all: seq<(Node, string)>): seq<Finding>
    requires forall f | f in all :: f.0.FunctionDef?
  {
    if all == [] then []
    else FunctionFindings(cx, mod, file, all[0].0, all[0].1) + FindingsOfAll(cx, mod, file, all[1..])
  }

  /** `_analyze_module_calls` */
  function ModuleFindings(cx: Analysis, mod: string, file: string, body: seq<Node>): seq<Finding> {
    FindingsOfAll(cx, mod, file, ContractedFunctions(body))
  }
}
