/** The compact symbol facts the engine keeps per module, and how they are harvested from the
    syntax tree. */
module Facts {
  import opened Options
  import opened PyAst
  import opened Walks

  // Codes of a call site: what the callee is, and what its receiver is.
  const SITE_FUNC_OTHER: nat := 0
  const SITE_FUNC_NAME: nat := 1
  const SITE_FUNC_ATTR: nat := 2
  const SITE_RECV_OTHER: nat := 0
  const SITE_RECV_NAME: nat := 1
  const SITE_RECV_CTOR: nat := 2
  const SITE_RECV_ATTR: nat := 3

  datatype FuncId = FuncId(mod: string, qual: string)

  datatype ClassRef = ClassRef(name: string, mod: string)

  /** A parameter of a function that reaches a sink. */
  datatype Edge = Edge(param: nat, paramName: string, cwe: string, sink: string, line: int)

  /** The fixed part of a function's contract; `ownSinks` are the sinks in its own body. */
  datatype Contract = Contract(
    filePath: string,
    params: seq<string>,
    takesReceiver: bool,
    isSanitizer: bool,
    taintedReturns: set<nat>,
    ownSinks: seq<Edge>)

  /** Everything about a call that resolution reads, minus its line. */
  datatype CallShape = CallShape(
    fkind: nat, fname: string,
    rkind: nat, rname: string, rprefix: string, rprefixBare: bool,
    argn: seq<Option<string>>,
    kwn: seq<(string, Option<string>)>)

  datatype CallSite = CallSite(line: int, shape: CallShape)

  datatype DecoFacts = DecoFacts(
    tag: Option<string>, isCall: bool, bare: Option<string>,
    arg0kind: nat, arg0name: string, arg0prefix: string, arg0bare: bool)

  datatype ForwardedArg = ForwardedArg(used: set<string>, isCall: bool, tail: string)

  datatype WrapperShape = WrapperShape(
    ok: bool, wparams: seq<string>, flen: nat, fargs: seq<ForwardedArg>)

  /** One own-scope `a = b = Ctor(...)`: the names bound and the constructor. */
  datatype Receiver = Receiver(targets: seq<string>, ctor: string)

  datatype FuncFacts = FuncFacts(
    contract: Contract,
    recv: seq<Receiver>,
    calls: seq<CallSite>,
    decos: seq<DecoFacts>,
    wrapper: Option<WrapperShape>)

  /** `bases` maps a class to its base spellings; a base that is neither a name nor an attribute
      has no spelling. */
  datatype ModuleFacts = ModuleFacts(
    funcs: map<string, FuncFacts>,
    bases: map<string, seq<Option<string>>>,
    signals: seq<string>)

  // ---------------------------------------------------------------- expressions

  function DottedPrefix(expr: Node): string {
    match expr
    case Name(id, _) => id
    case Attribute(value, attr) =>
      var prefix := DottedPrefix(value);
      if prefix == "" then "" else prefix + "." + attr
    case _ => ""
  }

  function CalleeTail(func: Node): string {
    match func
    case Name(id, _) => id
    case Attribute(_, attr) => attr
    case _ => ""
  }

  function BareName(expr: Node): Option<string> {
    if expr.Name? then Some(expr.id) else None
  }

  function BareNames(exprs: seq<Node>): (names: seq<Option<string>>)
    ensures |names| == |exprs|
  {
    seq(|exprs|, i requires 0 <= i < |exprs| => BareName(exprs[i]))
  }

  /** The named keyword arguments of a call; `**mapping` has no name. */
  function KeywordPairs(keywords: seq<Node>): seq<(string, Node)> {
    if keywords == [] then []
    else (if keywords[0].Keyword? && keywords[0].arg != "" then [(keywords[0].arg, keywords[0].value)] else [])
         + KeywordPairs(keywords[1..])
  }

  function BarePairs(pairs: seq<(string, Node)>): (bare: seq<(string, Option<string>)>)
    ensures |bare| == |pairs|
  {
    seq(|pairs|, i requires 0 <= i < |pairs| => (pairs[i].0, BareName(pairs[i].1)))
  }

  function ShapeOf(call: Node): CallShape
    requires call.Call?
  {
    var argn := BareNames(call.args);
    var kwn := BarePairs(KeywordPairs(call.keywords));
    match call.func
    case Name(id, _) =>
      CallShape(SITE_FUNC_NAME, id, SITE_RECV_OTHER, "", "", false, argn, kwn)
    case Attribute(value, attr) =>
      (match value
       case Name(id, _) =>
         CallShape(SITE_FUNC_ATTR, attr, SITE_RECV_NAME, id, "", false, argn, kwn)
       case Attribute(inner, name) =>
         CallShape(SITE_FUNC_ATTR, attr, SITE_RECV_ATTR, name, DottedPrefix(inner), inner.Name?, argn, kwn)
       case _ =>
         if value.Call? && value.func.Name? then
           CallShape(SITE_FUNC_ATTR, attr, SITE_RECV_CTOR, value.func.id, "", false, argn, kwn)
         else
           CallShape(SITE_FUNC_ATTR, attr, SITE_RECV_OTHER, "", "", false, argn, kwn))
    case _ =>
      CallShape(SITE_FUNC_OTHER, "", SITE_RECV_OTHER, "", "", false, argn, kwn)
  }

  // ---------------------------------------------------------------- harvest of one function

  function TargetNames(targets: seq<Node>): seq<string> {
    if targets == [] then []
    else (if targets[0].Name? then [targets[0].id] else []) + TargetNames(targets[1..])
  }

  predicate IsConstruction(n: Node) {
    n.Assign? && n.value.Call? && n.value.func.Name?
  }

  function ReceiverOf(n: Node): seq<Receiver> {
    if IsConstruction(n) && TargetNames(n.targets) != []
    then [Receiver(TargetNames(n.targets), n.value.func.id)] else []
  }

  function Receivers(nodes: seq<Node>): seq<Receiver> {
    if nodes == [] then [] else ReceiverOf(nodes[0]) + Receivers(nodes[1..])
  }

  function CallsOf(nodes: seq<Node>): (calls: seq<Node>)
    ensures forall c | c in calls :: c.Call?
    ensures forall n :: n in calls <==> n in nodes && n.Call?
  {
    if nodes == [] then []
    else (if nodes[0].Call? then [nodes[0]] else []) + CallsOf(nodes[1..])
  }

  function SitesOf(calls: seq<Node>): (sites: seq<CallSite>)
    requires forall c | c in calls :: c.Call?
    ensures |sites| == |calls|
    ensures forall i | 0 <= i < |calls| :: sites[i] == CallSite(calls[i].lineno, ShapeOf(calls[i]))
  {
    seq(|calls|, i requires 0 <= i < |calls| => CallSite(calls[i].lineno, ShapeOf(calls[i])))
  }

  // ---------------------------------------------------------------- decorators

  /** The trailing name of a decorator, whether bare, dotted or called. */
  function DecoratorTag(decorator: Node): Option<string> {
    var target := if decorator.Call? then decorator.func else decorator;
    match target
    case Name(id, _) => Some(id)
    case Attribute(_, attr) => Some(attr)
    case _ => None
  }

  /** `_deco_facts` */
  function DecoOf(decorator: Node): DecoFacts {
    var name := DecoratorTag(decorator);
    var bare := if decorator.Call? then None else name;
    if decorator.Call? && decorator.args != [] then
      match decorator.args[0]
      case Name(id, _) => DecoFacts(name, true, bare, 0, id, "", false)
      case Attribute(value, attr) => DecoFacts(name, true, bare, 1, attr, DottedPrefix(value), value.Name?)
      case _ => DecoFacts(name, true, bare, 2, "", "", false)
    else DecoFacts(name, decorator.Call?, bare, 2, "", "", false)
  }

  function DecosOf(decorators: seq<Node>): seq<DecoFacts> {
    if decorators == [] then [] else [DecoOf(decorators[0])] + DecosOf(decorators[1..])
  }

  /** Names an expression reads, without the spelling of the callees in it. */
  function NameUses(expr: Node): set<string>
    decreases expr, 1
  {
    match expr
    case Name(id, _) => {id}
    case Call(func, args, keywords, _) =>
      if func.Name? || func.Attribute? then NameUsesOf(expr, args) + NameUsesOf(expr, keywords)
      else NameUsesOf(expr, Children(expr))
    case _ => NameUsesOf(expr, Children(expr))
  }

  function NameUsesOf(parent: Node, exprs: seq<Node>): set<string>
    requires forall i | 0 <= i < |exprs| :: exprs[i] < parent
    decreases parent, 0, |exprs|
  {
    if exprs == [] then {} else NameUses(exprs[0]) + NameUsesOf(parent, exprs[1..])
  }

  function ForwardedOf(arg: Node): ForwardedArg {
    ForwardedArg(NameUses(arg), arg.Call?, if arg.Call? then CalleeTail(arg.func) else "")
  }

  function FirstFunction(body: seq<Node>): (f: Option<Node>)
    ensures f.Some? ==> f.value.FunctionDef?
  {
    if body == [] then None else if body[0].FunctionDef? then Some(body[0]) else FirstFunction(body[1..])
  }

  /** The first call of a name among `wrapped`. */
  function FirstForward(nodes: seq<Node>, wrapped: set<string>): (call: Option<Node>)
    ensures call.Some? ==> call.value.Call?
  {
    if nodes == [] then None
    else if nodes[0].Call? && nodes[0].func.Name? && nodes[0].func.id in wrapped then Some(nodes[0])
    else FirstForward(nodes[1..], wrapped)
  }

  const NO_WRAPPER: WrapperShape := WrapperShape(false, [], 0, [])

  function ParameterNames(func: Node): seq<string>
    requires func.FunctionDef?
  {
    if func.parameters.Arguments? then func.parameters.names else []
  }

  /** `_wrapper_shape`: what a decorator's nested wrapper hands to the function it wraps. */
  function WrapperOf(func: Node): Option<WrapperShape>
    requires func.FunctionDef?
  {
    var wrapper := FirstFunction(func.body);
    if wrapper == None then None
    else if wrapper.value.parameters.Arguments?
            && (wrapper.value.parameters.variadic || wrapper.value.parameters.kwarg.Some?) then Some(NO_WRAPPER)
    else
      var forwarded := FirstForward(Walk([wrapper.value]), set p | p in ParameterNames(func));
      if forwarded == None || forwarded.value.keywords != [] then Some(NO_WRAPPER)
      else
        var args := forwarded.value.args;
        Some(WrapperShape(true, ParameterNames(wrapper.value), |args|,
                          seq(|args|, i requires 0 <= i < |args| => ForwardedOf(args[i]))))
  }

  /** The facts of one function that resolution and the caller analysis read. */
  ghost predicate HarvestedFrom(facts: FuncFacts, func: Node)
    requires func.FunctionDef?
  {
    && facts.recv == Receivers(Ordered(func, true, [func]))
    && facts.calls == SitesOf(CallsOf(Walk([func])))
    && facts.decos == DecosOf(func.decorators)
    && facts.wrapper == WrapperOf(func)
  }

  /** (function, qualified name) pairs, as the summariser indexes them. */
  function MethodsOf(cls: string, body: seq<Node>): (fs: seq<(Node, string)>)
    ensures forall f | f in fs :: f.0.FunctionDef?
  {
    if body == [] then []
    else (if body[0].FunctionDef? then [(body[0], cls + "." + body[0].name)] else [])
         + MethodsOf(cls, body[1..])
  }

  function ContractedFunctions(body: seq<Node>): (fs: seq<(Node, string)>)
    ensures forall f | f in fs :: f.0.FunctionDef?
  {
    if body == [] then []
    else
      (match body[0]
       case FunctionDef(name, _, _, _) => [(body[0], name)]
       case ClassDef(name, _, members, _) => MethodsOf(name, members)
       case _ => [])
      + ContractedFunctions(body[1..])
  }

  method HarvestFunction(func: Node, contract: Contract) returns (facts: FuncFacts)
    requires func.FunctionDef?
    ensures HarvestedFrom(facts, func) && facts.contract == contract
  {
    hide Receivers, DecosOf, WrapperOf, CallsOf, Walk;
    var own := OrderedNodes(func, true);
    facts := FuncFacts(contract, Receivers(own), SitesOf(CallsOf(Walk([func]))), DecosOf(func.decorators),
                       WrapperOf(func));
  }

  /** Of the first `n` definitions, no one after the `i`-th has its qualified name. */
  ghost predicate LastOf(all: seq<(Node, string)>, i: nat, n: nat)
    requires i < n <= |all|
  {
    forall k | i < k < n :: all[k].1 != all[i].1
  }

  ghost predicate RowIsFrom(func: Node, contract: Contract, row: FuncFacts) {
    func.FunctionDef? && HarvestedFrom(row, func) && row.contract == contract
  }

  /** The harvest loop of one module: a later definition of the same qualified name replaces the
      earlier row, so each row stands for the last definition of its name. */
  method HarvestFunctions(body: seq<Node>, contracts: map<string, Contract>)
    returns (funcs: map<string, FuncFacts>)
    ensures
      var all := ContractedFunctions(body);
      forall i | 0 <= i < |all| && all[i].1 in contracts && LastOf(all, i, |all|) ::
        all[i].1 in funcs && RowIsFrom(all[i].0, contracts[all[i].1], funcs[all[i].1])
    ensures forall q | q in funcs :: exists f :: f in ContractedFunctions(body) && f.1 == q
  {
    var all := ContractedFunctions(body);
    hide *;
    funcs := map[];
    for i := 0 to |all|
      invariant forall j | 0 <= j < i && all[j].1 in contracts && LastOf(all, j, i) ::
        all[j].1 in funcs && RowIsFrom(all[j].0, contracts[all[j].1], funcs[all[j].1])
      invariant forall q | q in funcs :: exists f :: f in all && f.1 == q
    {
      var (func, qual) := all[i];
      assert all[i] in all;
      ghost var before := funcs;
      if qual in contracts {
        var row := HarvestFunction(func, contracts[qual]);
        RowFrom(func, contracts[qual], row);
        funcs := funcs[qual := row];
      }
      forall j | 0 <= j < i + 1 && all[j].1 in contracts && LastOf(all, j, i + 1)
        ensures all[j].1 in funcs && RowIsFrom(all[j].0, contracts[all[j].1], funcs[all[j].1])
      {
        if j < i {
          LastOfShorter(all, j, i);
        }
      }
    }
  }

  lemma RowFrom(func: Node, contract: Contract, row: FuncFacts)
    requires func.FunctionDef? && HarvestedFrom(row, func) && row.contract == contract
    ensures RowIsFrom(func, contract, row)
  {
  }

  lemma LastOfShorter(all: seq<(Node, string)>, i: nat, n: nat)
    requires i < n < |all| && LastOf(all, i, n + 1)
    ensures LastOf(all, i, n) && all[n].1 != all[i].1
  {
  }
}
