/** What a summary records, exactly: each edge and each tainted return, by the chain of assignments that leads
    there from the parameter. */
module Flows {
  import opened Options
  import opened PyAst
  import opened Facts
  import opened Summarizer
  import opened Dataflow
  import opened Evidence
  import opened Paths
  import opened Chains

  /** The name of parameter `i`; of several with one name, the last. */
  ghost predicate NamesParameter(sig: Signature, i: nat, x: string) {
    i < |sig.params| && sig.params[i] == x && forall j | i < j < |sig.params| :: sig.params[j] != x
  }

  ghost function Enters(sig: Signature, i: nat): (nat, string) -> bool {
    (t: nat, x: string) => t == 0 && NamesParameter(sig, i, x)
  }

  /** At this node `x` is assigned an expression that spells `y`, as a name or as a keyword slot. */
  ghost predicate Assigns(nodes: seq<Node>, container: Option<string>, t: nat, y: string, x: string) {
    && t < |nodes| && nodes[t].Assign? && x in TargetNames(nodes[t].targets)
    && Spelt(Below([nodes[t].value]), container, y)
  }

  ghost function Hands(nodes: seq<Node>, container: Option<string>): (nat, string, string) -> bool {
    (t: nat, y: string, x: string) => Assigns(nodes, container, t, y, x)
  }

  /** A chain of assignments among the first `k` nodes leads from parameter `i` to the name. */
  ghost predicate FlowsTo(sig: Signature, nodes: seq<Node>, k: nat, i: nat, x: string) {
    Spreads(Enters(sig, i), Hands(nodes, sig.container), k, x)
  }

  /** ... and to a name or slot spelt in the expression. */
  ghost predicate FlowsInto(sig: Signature, nodes: seq<Node>, k: nat, i: nat, expr: Node) {
    exists x :: Spelt(Below([expr]), sig.container, x) && FlowsTo(sig, nodes, k, i, x)
  }

  predicate InAlias(alias: Aliases, x: string, i: nat) {
    x in alias && i in alias[x]
  }

  /** The reference set of an expression is what its names and slots stand for. */
  lemma ReferencedIff(expr: Node, alias: Aliases, container: Option<string>, i: nat)
    ensures i in Referenced(expr, alias, container) <==>
            exists x :: Spelt(Below([expr]), container, x) && InAlias(alias, x, i)
  {
    WalkVisitsBelow([expr]);
    hide Walk, Below, KwargSlot;
    if i in Referenced(expr, alias, container) {
      var n :| n in Walk([expr]) && i in NodeParams(n, alias, container);
      NameHasNoSlot(n, container);
      var x := if n.Name? && n.id in alias then n.id else KwargSlot(n, container).value;
      assert Spelt(Below([expr]), container, x) && InAlias(alias, x, i);
    }
    if x :| Spelt(Below([expr]), container, x) && InAlias(alias, x, i) {
      var n :| n in Below([expr]) && ((n.Name? && n.id == x) || KwargSlot(n, container) == Some(x));
      NameHasNoSlot(n, container);
      assert i in NodeParams(n, alias, container);
    }
  }

  lemma {:induction false} ExtendIs(alias: Aliases, names: seq<string>, params: set<nat>, x: string, i: nat)
    ensures InAlias(Extend(alias, names, params), x, i) <==> InAlias(alias, x, i) || (x in names && i in params)
    decreases |names|
  {
    if names != [] {
      var front, last := names[..|names| - 1], names[|names| - 1];
      ExtendIs(alias, front, params, x, i);
      assert names == front + [last];
    }
  }

  lemma {:induction false} InitialIs(params: seq<string>, container: Option<string>, x: string, i: nat)
    ensures InAlias(InitialAliases(params), x, i) <==> NamesParameter(Signature(params, container), i, x)
    decreases |params|
  {
    if params != [] {
      InitialIs(params[..|params| - 1], container, x, i);
    }
  }

  /** One node of the sweep. */
  lemma StepAlias(sig: Signature, n: Node, s: Sweep, x: string, i: nat)
    ensures InAlias(Step(sig, n, s).alias, x, i) <==>
            || InAlias(s.alias, x, i)
            || (n.Assign? && x in TargetNames(n.targets) && i in Referenced(n.value, s.alias, sig.container))
  {
    hide Referenced, Extend, SinkEdges, IsSanitizerCall;
    if n.Assign? {
      ExtendIs(s.alias, TargetNames(n.targets), Referenced(n.value, s.alias, sig.container), x, i);
    }
  }

  /** The sweep after `k` nodes. */
  function After(sig: Signature, nodes: seq<Node>, k: nat): Sweep
    requires k <= |nodes|
  {
    StepAll(sig, nodes[..k], Start(sig))
  }

  lemma AfterNext(sig: Signature, nodes: seq<Node>, k: nat)
    requires k < |nodes|
    ensures After(sig, nodes, k + 1) == Step(sig, nodes[k], After(sig, nodes, k))
  {
    hide Step;
    assert nodes[..k + 1] == nodes[..k] + [nodes[k]];
    StepAllSplit(sig, nodes[..k], [nodes[k]], Start(sig));
    assert [nodes[k]][1..] == [];
  }

  /** What the aliases hold is what the chains lead to. */
  lemma {:induction false} AliasesAreChains(sig: Signature, nodes: seq<Node>, k: nat, x: string, i: nat)
    requires k <= |nodes|
    ensures InAlias(After(sig, nodes, k).alias, x, i) <==> FlowsTo(sig, nodes, k, i, x)
    decreases k
  {
    hide Step, Spreads, InAlias, Below, TargetNames;
    if k == 0 {
      assert After(sig, nodes, 0) == Start(sig) by { assert nodes[..0] == []; }
      InitialIs(sig.params, sig.container, x, i);
      SpreadsFirst(Enters(sig, i), Hands(nodes, sig.container), x);
    } else {
      var s := After(sig, nodes, k - 1);
      AliasesAreChains(sig, nodes, k - 1, x, i);
      AfterNext(sig, nodes, k - 1);
      StepAlias(sig, nodes[k - 1], s, x, i);
      SpreadsNext(Enters(sig, i), Hands(nodes, sig.container), k - 1, x);
      if nodes[k - 1].Assign? {
        forall y
          ensures InAlias(s.alias, y, i) <==> FlowsTo(sig, nodes, k - 1, i, y)
        {
          AliasesAreChains(sig, nodes, k - 1, y, i);
        }
        ReferencedWhere(sig, nodes, k - 1, nodes[k - 1].value, i);
        HandedOver(sig, nodes, k - 1, x, i);
      }
    }
  }

  lemma ReferencedWhere(sig: Signature, nodes: seq<Node>, k: nat, expr: Node, i: nat)
    requires k <= |nodes| && forall y :: InAlias(After(sig, nodes, k).alias, y, i) <==> FlowsTo(sig, nodes, k, i, y)
    ensures i in Referenced(expr, After(sig, nodes, k).alias, sig.container) <==> FlowsInto(sig, nodes, k, i, expr)
  {
    hide After, FlowsTo, Referenced, InAlias, Spelt;
    ReferencedIff(expr, After(sig, nodes, k).alias, sig.container, i);
  }

  /** What the assignment at this node hands over. */
  lemma HandedOver(sig: Signature, nodes: seq<Node>, p: nat, x: string, i: nat)
    requires p < |nodes| && nodes[p].Assign?
    ensures (x in TargetNames(nodes[p].targets) && FlowsInto(sig, nodes, p, i, nodes[p].value)) <==>
            exists y :: Spreads(Enters(sig, i), Hands(nodes, sig.container), p, y)
                && Hands(nodes, sig.container)(p, y, x)
  {
    hide Spelt, Spreads, TargetNames;
    if x in TargetNames(nodes[p].targets) && FlowsInto(sig, nodes, p, i, nodes[p].value) {
      var y :| Spelt(Below([nodes[p].value]), sig.container, y) && FlowsTo(sig, nodes, p, i, y);
      assert Hands(nodes, sig.container)(p, y, x);
    }
  }

  lemma ReferencedIsFlow(sig: Signature, nodes: seq<Node>, k: nat, expr: Node, i: nat)
    requires k <= |nodes|
    ensures i in Referenced(expr, After(sig, nodes, k).alias, sig.container) <==> FlowsInto(sig, nodes, k, i, expr)
  {
    hide After, FlowsTo, Referenced, InAlias, Spelt;
    forall x
      ensures InAlias(After(sig, nodes, k).alias, x, i) <==> FlowsTo(sig, nodes, k, i, x)
    {
      AliasesAreChains(sig, nodes, k, x, i);
    }
    ReferencedWhere(sig, nodes, k, expr, i);
  }

  // ---------------------------------------------------------------- the edges

  /** Node `p` is a sink call whose argument at this position is tracked and reached by the edge's parameter. */
  ghost predicate EdgeAt(sig: Signature, nodes: seq<Node>, p: nat, position: nat, e: Edge) {
    && p < |nodes| && nodes[p].Call? && position < |nodes[p].args|
    && ((nodes[p].func.Name? && nodes[p].func.id == e.sink)
        || (nodes[p].func.Attribute? && nodes[p].func.attr == e.sink))
    && e.sink in KNOWN_SINKS && e.cwe == KNOWN_SINKS[e.sink] && e.line == nodes[p].lineno
    && (e.cwe == "CWE-89" ==> position == 0)
    && e.param < |sig.params| && e.paramName == sig.params[e.param]
    && FlowsInto(sig, nodes, p, e.param, nodes[p].args[position])
  }

  lemma {:induction false} EdgesForAre(sig: Signature, found: set<nat>, name: string, cwe: string, line: int,
                                       upTo: nat, e: Edge)
    requires upTo <= |sig.params|
    ensures e in EdgesFor(sig, found, name, cwe, line, upTo) <==>
            && e.param < upTo && e.param in found && e.paramName == sig.params[e.param]
            && e.cwe == cwe && e.sink == name && e.line == line
  {
    if upTo > 0 {
      EdgesForAre(sig, found, name, cwe, line, upTo - 1, e);
    }
  }

  ghost predicate ArgumentHas(sig: Signature, alias: Aliases, call: Node, cwe: string, position: nat, e: Edge)
    requires call.Call? && position < |call.args|
  {
    && CalleeName(call.func) == Some(e.sink) && e.cwe == cwe && e.line == call.lineno
    && (cwe == "CWE-89" ==> position == 0)
    && e.param < |sig.params| && e.paramName == sig.params[e.param]
    && e.param in Referenced(call.args[position], alias, sig.container)
  }

  lemma {:induction false} ArgumentEdgesAre(sig: Signature, alias: Aliases, call: Node, cwe: string, count: nat,
                                            e: Edge)
    requires call.Call? && count <= |call.args|
    ensures e in ArgumentEdges(sig, alias, call, cwe, count) <==>
            exists position: nat :: position < count && ArgumentHas(sig, alias, call, cwe, position, e)
  {
    hide Referenced, EdgesFor;
    if count > 0 {
      ArgumentEdgesAre(sig, alias, call, cwe, count - 1, e);
      LastArgumentHas(sig, alias, call, cwe, count - 1, e);
      if position: nat :| position < count && ArgumentHas(sig, alias, call, cwe, position, e) {
        assert position < count - 1 || position == count - 1;
      }
    }
  }

  lemma LastArgumentHas(sig: Signature, alias: Aliases, call: Node, cwe: string, position: nat, e: Edge)
    requires call.Call? && position < |call.args|
    ensures e in ArgumentEdges(sig, alias, call, cwe, position + 1) <==>
            e in ArgumentEdges(sig, alias, call, cwe, position) || ArgumentHas(sig, alias, call, cwe, position, e)
  {
    hide Referenced, EdgesFor;
    var name := CalleeName(call.func);
    if name.Some? {
      EdgesForAre(sig, Referenced(call.args[position], alias, sig.container), name.value, cwe, call.lineno,
                  |sig.params|, e);
    }
  }

  lemma SinkEdgesAre(sig: Signature, nodes: seq<Node>, p: nat, e: Edge)
    requires p < |nodes| && nodes[p].Call?
    ensures e in SinkEdges(sig, After(sig, nodes, p).alias, nodes[p]) <==>
            exists position: nat :: EdgeAt(sig, nodes, p, position, e)
  {
    hide After, Referenced, FlowsInto, KNOWN_SINKS, ArgumentEdges;
    var call, alias := nodes[p], After(sig, nodes, p).alias;
    var name := CalleeName(call.func);
    forall position: nat | position < |call.args|
      ensures e.param in Referenced(call.args[position], alias, sig.container)
         <==> FlowsInto(sig, nodes, p, e.param, call.args[position])
    {
      ReferencedIsFlow(sig, nodes, p, call.args[position], e.param);
    }
    if name.Some? && name.value in KNOWN_SINKS {
      ArgumentEdgesAre(sig, alias, call, KNOWN_SINKS[name.value], |call.args|, e);
      var cwe := KNOWN_SINKS[name.value];
      if position: nat :| position < |call.args| && ArgumentHas(sig, alias, call, cwe, position, e) {
        assert EdgeAt(sig, nodes, p, position, e);
      }
      if position: nat :| EdgeAt(sig, nodes, p, position, e) {
        assert ArgumentHas(sig, alias, call, KNOWN_SINKS[name.value], position, e);
      }
    }
  }

  lemma StepSinks(sig: Signature, n: Node, s: Sweep, e: Edge)
    ensures e in Step(sig, n, s).sinks <==> e in s.sinks || (n.Call? && e in SinkEdges(sig, s.alias, n))
  {
    hide SinkEdges, Referenced, Extend, IsSanitizerCall;
  }

  lemma {:induction false} SinksAre(sig: Signature, nodes: seq<Node>, k: nat, e: Edge)
    requires k <= |nodes|
    ensures e in After(sig, nodes, k).sinks <==>
            exists p: nat, position: nat :: p < k && EdgeAt(sig, nodes, p, position, e)
    decreases k
  {
    hide Step, EdgeAt, SinkEdges;
    if k == 0 {
      assert nodes[..0] == [];
    } else {
      SinksAre(sig, nodes, k - 1, e);
      AfterNext(sig, nodes, k - 1);
      StepSinks(sig, nodes[k - 1], After(sig, nodes, k - 1), e);
      if nodes[k - 1].Call? {
        SinkEdgesAre(sig, nodes, k - 1, e);
      } else {
        NoEdgeElsewhere(sig, nodes, k - 1, e);
      }
    }
  }

  lemma NoEdgeElsewhere(sig: Signature, nodes: seq<Node>, p: nat, e: Edge)
    requires p < |nodes| && !nodes[p].Call?
    ensures forall position: nat :: !EdgeAt(sig, nodes, p, position, e)
  {
  }

  lemma SweptIsAfter(sig: Signature, body: seq<Node>)
    ensures Swept(sig, body) == After(sig, Flat(body), |Flat(body)|)
  {
    hide StepAll, SweepBody;
    SweepIsFlat(sig, body, Start(sig));
    assert Flat(body)[..|Flat(body)|] == Flat(body);
  }

  /** The edges of a summary, exactly: a call of a known sink, a tracked position of it, and a chain of assignments
      met before that call which leads from the parameter to a name or slot spelt in that argument. */
  lemma SinkEdgesIff(sig: Signature, body: seq<Node>, e: Edge)
    ensures e in Swept(sig, body).sinks <==> exists p: nat, position: nat :: EdgeAt(sig, Flat(body), p, position, e)
  {
    hide After, EdgeAt, Swept;
    var nodes := Flat(body);
    SweptIsAfter(sig, body);
    SinksAre(sig, nodes, |nodes|, e);
    if p: nat, position: nat :| EdgeAt(sig, nodes, p, position, e) {
      EdgeIsAtNode(sig, nodes, p, position, e);
    }
  }

  lemma EdgeIsAtNode(sig: Signature, nodes: seq<Node>, p: nat, position: nat, e: Edge)
    requires EdgeAt(sig, nodes, p, position, e)
    ensures p < |nodes|
  {
  }

  // ---------------------------------------------------------------- the returns

  /** Node `p` returns an expression that the parameter reaches. */
  ghost predicate ReturnsAt(sig: Signature, nodes: seq<Node>, p: nat, i: nat) {
    && p < |nodes| && nodes[p].Return? && nodes[p].results != []
    && FlowsInto(sig, nodes, p, i, nodes[p].results[0])
  }

  lemma StepTainted(sig: Signature, n: Node, s: Sweep, i: nat)
    ensures i in Step(sig, n, s).tainted <==>
            || i in s.tainted
            || (n.Return? && n.results != [] && i in Referenced(n.results[0], s.alias, sig.container))
  {
    hide SinkEdges, Referenced, Extend, IsSanitizerCall;
  }

  lemma {:induction false} TaintedAre(sig: Signature, nodes: seq<Node>, k: nat, i: nat)
    requires k <= |nodes|
    ensures i in After(sig, nodes, k).tainted <==> exists p: nat :: p < k && ReturnsAt(sig, nodes, p, i)
    decreases k
  {
    hide Step, FlowsInto, Referenced;
    if k == 0 {
      assert nodes[..0] == [];
    } else {
      var n := nodes[k - 1];
      TaintedAre(sig, nodes, k - 1, i);
      AfterNext(sig, nodes, k - 1);
      StepTainted(sig, n, After(sig, nodes, k - 1), i);
      if n.Return? && n.results != [] {
        ReferencedIsFlow(sig, nodes, k - 1, n.results[0], i);
      }
      var alias := After(sig, nodes, k - 1).alias;
      assert ReturnsAt(sig, nodes, k - 1, i)
        <==> n.Return? && n.results != [] && i in Referenced(n.results[0], alias, sig.container);
    }
  }

  /** The tainted returns of a summary, exactly: a return, and a chain of assignments met before it which leads
      from the parameter to a name or slot spelt in what it returns. */
  lemma TaintedReturnsIff(sig: Signature, body: seq<Node>, i: nat)
    ensures i in Swept(sig, body).tainted <==> exists p: nat :: ReturnsAt(sig, Flat(body), p, i)
  {
    hide After, FlowsInto, Swept;
    SweptIsAfter(sig, body);
    TaintedAre(sig, Flat(body), |Flat(body)|, i);
  }

  // ---------------------------------------------------------------- the clean names

  ghost predicate AssignedAt(nodes: seq<Node>, p: nat, x: string) {
    p < |nodes| && nodes[p].Assign? && x in TargetNames(nodes[p].targets)
  }

  /** The last of the first `k` nodes that assigns the name takes its value from a known sanitizer. */
  ghost predicate LastMadeClean(nodes: seq<Node>, k: nat, x: string) {
    exists p: nat ::
      && p < k && AssignedAt(nodes, p, x) && (forall q | p < q < k :: !AssignedAt(nodes, q, x))
      && nodes[p].value.Call?
      && ((nodes[p].value.func.Name? && nodes[p].value.func.id in KNOWN_SANITIZERS)
          || (nodes[p].value.func.Attribute? && nodes[p].value.func.attr in KNOWN_SANITIZERS))
  }

  lemma StepClean(sig: Signature, n: Node, s: Sweep, x: string)
    ensures x in Step(sig, n, s).clean <==>
            if n.Assign? && x in TargetNames(n.targets) then IsSanitizerCall(n.value) else x in s.clean
  {
    hide SinkEdges, Referenced, Extend, IsSanitizerCall;
  }

  lemma {:induction false} CleanAre(sig: Signature, nodes: seq<Node>, k: nat, x: string)
    requires k <= |nodes|
    ensures x in After(sig, nodes, k).clean <==> LastMadeClean(nodes, k, x)
    decreases k
  {
    hide Step, TargetNames, KNOWN_SANITIZERS;
    if k == 0 {
      assert nodes[..0] == [];
    } else {
      CleanAre(sig, nodes, k - 1, x);
      AfterNext(sig, nodes, k - 1);
      StepClean(sig, nodes[k - 1], After(sig, nodes, k - 1), x);
      if AssignedAt(nodes, k - 1, x) {
        assert IsSanitizerCall(nodes[k - 1].value) ==> LastMadeClean(nodes, k, x);
      }
    }
  }

  /** The clean names at the end of the sweep, exactly. */
  lemma CleanIff(sig: Signature, body: seq<Node>, x: string)
    ensures x in Swept(sig, body).clean <==> LastMadeClean(Flat(body), |Flat(body)|, x)
  {
    hide After, LastMadeClean, Swept;
    SweptIsAfter(sig, body);
    CleanAre(sig, Flat(body), |Flat(body)|, x);
  }

  // ---------------------------------------------------------------- the evidence

  ghost predicate ReturnedAt(nodes: seq<Node>, p: nat, e: Node) {
    p < |nodes| && nodes[p].Return? && nodes[p].results != [] && nodes[p].results[0] == e
  }

  lemma StepReturned(sig: Signature, n: Node, s: Sweep, e: Node)
    ensures e in Step(sig, n, s).returned <==> e in s.returned || (n.Return? && n.results != [] && n.results[0] == e)
  {
    hide SinkEdges, Referenced, Extend, IsSanitizerCall;
  }

  lemma {:induction false} ReturnedAre(sig: Signature, nodes: seq<Node>, k: nat, e: Node)
    requires k <= |nodes|
    ensures e in After(sig, nodes, k).returned <==> exists p: nat :: p < k && ReturnedAt(nodes, p, e)
    decreases k
  {
    hide Step;
    if k == 0 {
      assert nodes[..0] == [];
    } else {
      ReturnedAre(sig, nodes, k - 1, e);
      AfterNext(sig, nodes, k - 1);
      StepReturned(sig, nodes[k - 1], After(sig, nodes, k - 1), e);
      var n := nodes[k - 1];
      assert ReturnedAt(nodes, k - 1, e) <==> n.Return? && n.results != [] && n.results[0] == e;
    }
  }

  /** By the assignments of the whole body, some parameter flows into this returned expression. */
  ghost predicate Propagating(sig: Signature, nodes: seq<Node>, e: Node) {
    (exists p: nat :: ReturnedAt(nodes, p, e)) && exists i: nat :: FlowsInto(sig, nodes, |nodes|, i, e)
  }

  /** The expression is a call of a known sanitizer, or a name that was last assigned from one. */
  ghost predicate MadeClean(nodes: seq<Node>, e: Node) {
    || (e.Call? && ((e.func.Name? && e.func.id in KNOWN_SANITIZERS)
                    || (e.func.Attribute? && e.func.attr in KNOWN_SANITIZERS)))
    || (e.Name? && LastMadeClean(nodes, |nodes|, e.id))
  }

  lemma PropagatesIff(sig: Signature, body: seq<Node>, e: Node)
    ensures (e in Swept(sig, body).returned && Propagates(sig, Swept(sig, body), e))
        <==> Propagating(sig, Flat(body), e)
    ensures IsSanitizedExpr(e, Swept(sig, body).clean) <==> MadeClean(Flat(body), e)
  {
    hide After, FlowsInto, Swept, Referenced, LastMadeClean, KNOWN_SANITIZERS, ReturnedAt;
    var nodes := Flat(body);
    SweptIsAfter(sig, body);
    ReturnedAre(sig, nodes, |nodes|, e);
    assert forall p: nat | ReturnedAt(nodes, p, e) :: p < |nodes| by {
      forall p: nat | ReturnedAt(nodes, p, e) ensures p < |nodes| { ReturnIsNode(nodes, p, e); }
    }
    forall i: nat
      ensures i in Referenced(e, Swept(sig, body).alias, sig.container) <==> FlowsInto(sig, nodes, |nodes|, i, e)
    {
      ReferencedIsFlow(sig, nodes, |nodes|, e, i);
    }
    if e.Name? { CleanIff(sig, body, e.id); }
  }

  lemma ReturnIsNode(nodes: seq<Node>, p: nat, e: Node)
    requires ReturnedAt(nodes, p, e)
    ensures p < |nodes|
  {
  }

  /** The evidence, exactly: there is a parameter, no argument of a sink call is reached by one, one flows into some
      returned expression, and each such expression was made clean. */
  lemma EvidenceIff(sig: Signature, body: seq<Node>)
    ensures HasEvidence(sig, Swept(sig, body)) <==>
            && sig.params != [] && (forall e, p: nat, position: nat :: !EdgeAt(sig, Flat(body), p, position, e))
            && (exists e :: Propagating(sig, Flat(body), e))
            && forall e | Propagating(sig, Flat(body), e) :: MadeClean(Flat(body), e)
  {
    hide Swept, EdgeAt, Propagating, MadeClean, Propagates, IsSanitizedExpr;
    var s := Swept(sig, body);
    NoEdgeIff(sig, body);
    forall e
      ensures e in s.returned && Propagates(sig, s, e) <==> Propagating(sig, Flat(body), e)
      ensures IsSanitizedExpr(e, s.clean) <==> MadeClean(Flat(body), e)
    {
      PropagatesIff(sig, body, e);
    }
    if e :| Propagating(sig, Flat(body), e) {
      assert e in s.returned && Propagates(sig, s, e);
    }
    if e :| e in s.returned && Propagates(sig, s, e) {
      assert Propagating(sig, Flat(body), e);
    }
  }

  lemma NoEdgeIff(sig: Signature, body: seq<Node>)
    ensures Swept(sig, body).sinks == [] <==> forall e, p: nat, position: nat ::
        !EdgeAt(sig, Flat(body), p, position, e)
  {
    hide Swept, EdgeAt;
    var sinks := Swept(sig, body).sinks;
    forall e: Edge, p: nat, position: nat | EdgeAt(sig, Flat(body), p, position, e)
      ensures e in sinks
    {
      EdgeIsSink(sig, body, p, position, e);
    }
    if sinks != [] {
      assert sinks[0] in sinks;
      SinkEdgesIff(sig, body, sinks[0]);
    }
  }

  lemma EdgeIsSink(sig: Signature, body: seq<Node>, p: nat, position: nat, e: Edge)
    requires EdgeAt(sig, Flat(body), p, position, e)
    ensures e in Swept(sig, body).sinks
  {
    hide Swept, EdgeAt;
    SinkEdgesIff(sig, body, e);
  }
}
