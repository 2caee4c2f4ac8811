/** The rest of the summary: well-formed sink edges, the sanitizer verdict, and the method that
    builds the contract. */
module Evidence {
  import opened Options
  import opened Text
  import opened PyAst
  import opened Facts
  import opened Summarizer
  import opened Resolution
  import opened Forwarding

  // ---------------------------------------------------------------- sink edges

  ghost predicate EdgeOf(sig: Signature, e: Edge) {
    && e.param < |sig.params| && e.paramName == sig.params[e.param]
    && e.sink in KNOWN_SINKS && e.cwe == KNOWN_SINKS[e.sink]
  }

  ghost predicate EdgesOk(sig: Signature, edges: seq<Edge>) {
    forall e | e in edges :: EdgeOf(sig, e)
  }

  lemma {:induction false} EdgesForOk(sig: Signature, found: set<nat>, name: string, line: int, upTo: nat)
    requires upTo <= |sig.params| && name in KNOWN_SINKS
    ensures EdgesOk(sig, EdgesFor(sig, found, name, KNOWN_SINKS[name], line, upTo))
  {
    hide KNOWN_SINKS;
    if upTo > 0 {
      EdgesForOk(sig, found, name, line, upTo - 1);
    }
  }

  lemma {:induction false} ArgumentEdgesOk(sig: Signature, alias: Aliases, call: Node, name: string, count: nat)
    requires call.Call? && count <= |call.args| && CalleeName(call.func) == Some(name) && name in KNOWN_SINKS
    ensures EdgesOk(sig, ArgumentEdges(sig, alias, call, KNOWN_SINKS[name], count))
  {
    hide KNOWN_SINKS, EdgesFor, Referenced;
    if count > 0 {
      ArgumentEdgesOk(sig, alias, call, name, count - 1);
      EdgesForOk(sig, Referenced(call.args[count - 1], alias, sig.container), name, call.lineno, |sig.params|);
    }
  }

  lemma {:induction false} StepAllEdgesOk(sig: Signature, nodes: seq<Node>, s: Sweep)
    requires EdgesOk(sig, s.sinks)
    ensures EdgesOk(sig, StepAll(sig, nodes, s).sinks)
  {
    hide KNOWN_SINKS, ArgumentEdges, Referenced, Extend, IsSanitizerCall;
    if nodes != [] {
      var n := nodes[0];
      if n.Call? && CalleeName(n.func).Some? && CalleeName(n.func).value in KNOWN_SINKS {
        ArgumentEdgesOk(sig, s.alias, n, CalleeName(n.func).value, |n.args|);
      }
      StepAllEdgesOk(sig, nodes[1..], Step(sig, n, s));
    }
  }

  lemma {:induction false} SweepEdgesOk(sig: Signature, body: seq<Node>, s: Sweep)
    requires EdgesOk(sig, s.sinks)
    ensures EdgesOk(sig, SweepBody(sig, body, s).sinks)
  {
    hide StepAll, Walk;
    if body != [] {
      StepAllEdgesOk(sig, Walk([body[0]]), s);
      SweepEdgesOk(sig, body[1..], StepAll(sig, Walk([body[0]]), s));
    }
  }

  /** Every sink edge of a summary names one of its parameters and the weakness of its sink; this
      is what the propagation takes for granted. */
  lemma SummaryEdgesOk(sig: Signature, body: seq<Node>)
    ensures EdgesOk(sig, Swept(sig, body).sinks)
  {
    hide SweepBody;
    SweepEdgesOk(sig, body, Start(sig));
  }

  // ---------------------------------------------------------------- the sanitizer verdict

  /** `_is_sanitized_expr` */
  predicate IsSanitizedExpr(expr: Node, clean: set<string>) {
    IsSanitizerCall(expr) || (expr.Name? && expr.id in clean)
  }

  predicate Propagates(sig: Signature, s: Sweep, expr: Node) {
    Referenced(expr, s.alias, sig.container) != {}
  }

  /** Some returned expression refers to a parameter, and every one that does is sanitized, judged
      by the names that are clean at the end of the sweep. */
  predicate HasEvidence(sig: Signature, s: Sweep) {
    && sig.params != [] && s.sinks == []
    && (exists e | e in s.returned :: Propagates(sig, s, e))
    && forall e | e in s.returned && Propagates(sig, s, e) :: IsSanitizedExpr(e, s.clean)
  }

  // ---------------------------------------------------------------- building the contract

  predicate HasStaticDecorator(func: Node)
    requires func.FunctionDef?
  {
    exists d | d in func.decorators :: (d.Name? && d.id == "staticmethod") || (d.Attribute? && d.attr == "staticmethod")
  }

  predicate TakesReceiver(func: Node, isMethod: bool)
    requires func.FunctionDef?
  {
    isMethod && !HasStaticDecorator(func) && ParameterNames(func) != [] && ParameterNames(func)[0] in {"self", "cls"}
  }

  /** The parameters a caller passes: a method's receiver is none of them. */
  function PassedParameters(func: Node, isMethod: bool): seq<string>
    requires func.FunctionDef?
  {
    if TakesReceiver(func, isMethod) then ParameterNames(func)[1..] else ParameterNames(func)
  }

  /** The name heuristic. */
  predicate NamedLikeSanitizer(name: string) {
    exists sanitizer | sanitizer in KNOWN_SANITIZERS :: Contains(Lower(name), sanitizer)
  }

  /** `is_sanitizer`: by the name or by the body. */
  predicate Flagged(name: string, sig: Signature, body: seq<Node>) {
    NamedLikeSanitizer(name) || HasEvidence(sig, Swept(sig, body))
  }

  /** The slots after the positional parameters: every literal key the body reads from its `**kwargs`, each
      once. */
  ghost predicate SlotsOf(func: Node, positional: seq<string>, sig: Signature)
    requires func.FunctionDef?
  {
    && positional <= sig.params && sig.container == SlotContainer(func, positional)
    && (var slots := sig.params[|positional|..];
        && (forall v :: v in slots <==>
              exists n | n in Walk([func]) :: KwargSlot(n, sig.container) == Some(v))
        && forall i, j | 0 <= i < j < |slots| :: slots[i] != slots[j])
  }

  /** `_summarize_function`: one sweep over the body, then the sanitizer verdict. */
  method SummarizeFunction(func: Node, name: string, isMethod: bool, filePath: string)
    returns (contract: Contract, sig: Signature)
    requires func.FunctionDef?
    ensures SlotsOf(func, PassedParameters(func, isMethod), sig) && contract.params == sig.params
    ensures contract.filePath == filePath && contract.takesReceiver == TakesReceiver(func, isMethod)
    ensures contract.takesReceiver <==>
      && isMethod && func.parameters.Arguments? && func.parameters.names != []
      && func.parameters.names[0] in {"self", "cls"}
      && forall d | d in func.decorators ::
           !(d.Name? && d.id == "staticmethod") && !(d.Attribute? && d.attr == "staticmethod")
    ensures func.parameters.Arguments? ==>
      func.parameters.names[(if contract.takesReceiver then 1 else 0)..] <= contract.params
    ensures contract.taintedReturns == Swept(sig, func.body).tainted && contract.ownSinks == Swept(sig, func.body).sinks
    ensures contract.isSanitizer <==> Flagged(name, sig, func.body)
    ensures EdgesOk(sig, contract.ownSinks)
  {
    PassedAre(func, isMethod);
    hide Swept, EdgesOk, HasEvidence, NamedLikeSanitizer, TakesReceiver, PassedParameters, KwargSlot, Walk;
    sig := ReadSignature(func, PassedParameters(func, isMethod));
    var s := SweepFunction(sig, func.body);
    var isSanitizer := NamedLikeSanitizer(name) || HasEvidence(sig, s);
    contract := Contract(filePath, sig.params, TakesReceiver(func, isMethod), isSanitizer, s.tainted, s.sinks);
    SummaryEdgesOk(sig, func.body);
  }

  lemma PassedAre(func: Node, isMethod: bool)
    requires func.FunctionDef?
    ensures TakesReceiver(func, isMethod) <==>
      && isMethod && func.parameters.Arguments? && func.parameters.names != []
      && func.parameters.names[0] in {"self", "cls"}
      && forall d | d in func.decorators ::
           !(d.Name? && d.id == "staticmethod") && !(d.Attribute? && d.attr == "staticmethod")
    ensures func.parameters.Arguments? ==>
      PassedParameters(func, isMethod) == func.parameters.names[(if TakesReceiver(func, isMethod) then 1 else 0)..]
  {
  }

  method ReadSignature(func: Node, positional: seq<string>) returns (sig: Signature)
    requires func.FunctionDef?
    ensures SlotsOf(func, positional, sig)
  {
    hide Walk, KwargSlot, SlotContainer;
    var container, slots := KwargSlots(func, positional);
    sig := Signature(positional + slots, container);
    assert sig.params[|positional|..] == slots;
  }

  method SweepFunction(sig: Signature, body: seq<Node>) returns (s: Sweep)
    ensures s == Swept(sig, body)
  {
    hide StepAll, Walk, InitialAliases;
    s := Start(sig);
    assert body[0..] == body;
    for i := 0 to |body|
      invariant SweepBody(sig, body[i..], s) == Swept(sig, body)
    {
      assert body[i..][0] == body[i] && body[i..][1..] == body[i + 1..];
      s := SweepStatementNodes(sig, Walk([body[i]]), s);
    }
    assert body[|body|..] == [];
  }

  /** The inner loop over the nodes of one statement. */
  method SweepStatementNodes(sig: Signature, nodes: seq<Node>, start: Sweep) returns (s: Sweep)
    ensures s == StepAll(sig, nodes, start)
  {
    hide Step;
    s := start;
    assert nodes[0..] == nodes;
    for i := 0 to |nodes|
      invariant StepAll(sig, nodes[i..], s) == StepAll(sig, nodes, start)
    {
      assert nodes[i..][0] == nodes[i] && nodes[i..][1..] == nodes[i + 1..];
      s := Step(sig, nodes[i], s);
    }
    assert nodes[|nodes|..] == [];
  }

  /** A program whose contracts come from the summariser is one the propagation can start from. */
  lemma SummariesAreWellFormed(prog: Program)
    requires prog.knownSinks == KNOWN_SINKS
    requires forall id | HasContract(prog, id) :: exists sig: Signature ::
      sig.params == ContractOf(prog, id).params && EdgesOk(sig, ContractOf(prog, id).ownSinks)
    ensures WellFormed(prog)
  {
    hide KNOWN_SINKS;
  }
}
