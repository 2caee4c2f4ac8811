/** The function summariser: which parameters reach the return value and which reach a sink. */
module Summarizer {
  import opened Options
  import opened PyAst
  import opened Facts

  /** The weakness a sink call reports is a function of its name. */
  const KNOWN_SINKS: map<string, string> := map[
    "execute" := "CWE-89", "executemany" := "CWE-89", "raw" := "CWE-89",
    "system" := "CWE-78", "popen" := "CWE-78", "check_output" := "CWE-78",
    "call" := "CWE-78", "run" := "CWE-78",
    "eval" := "CWE-95", "exec" := "CWE-94",
    "loads" := "CWE-502", "load" := "CWE-502",
    "open" := "CWE-22"]

  const KNOWN_SANITIZERS: set<string> := {"int", "float", "bool", "len", "escape", "quote", "sha256", "md5"}

  type Aliases = map<string, set<nat>>

  /** The parameters, keyword slots included, and the `**kwargs` name if there is one. */
  datatype Signature = Signature(params: seq<string>, container: Option<string>)

  // ---------------------------------------------------------------- keyword slots

  function ConstStr(n: Node): Option<string> {
    if n.Constant? then n.text else None
  }

  /** `kwargs["k"]`, `kwargs.get("k")` and `kwargs.pop("k")` read the slot `kwargs[k]`. */
  function KwargSlot(n: Node, container: Option<string>): Option<string> {
    if container == None then None
    else match n
      case Subscript(base, slice) =>
        if base.Name? && base.id == container.value && ConstStr(slice).Some?
        then Some(VirtualName(base.id, ConstStr(slice).value)) else None
      case Call(func, args, _, _) =>
        if func.Attribute? && (func.attr == "get" || func.attr == "pop") && args != []
           && func.value.Name? && func.value.id == container.value && ConstStr(args[0]).Some?
        then Some(VirtualName(func.value.id, ConstStr(args[0]).value)) else None
      case _ => None
  }

  /** The node reads a literal key of the mapping: `c[key]`, `c.get(key, ...)` or `c.pop(key, ...)`. */
  ghost predicate ReadsKey(n: Node, c: string, key: string) {
    || (n.Subscript? && n.value.Name? && n.value.id == c && n.slice == Constant(Some(key)))
    || (n.Call? && n.func.Attribute? && n.func.attr in {"get", "pop"} && n.func.value.Name? && n.func.value.id == c
        && n.args != [] && n.args[0] == Constant(Some(key)))
  }

  /** The slot of a key is spelt `c[key]`. */
  lemma KwargSlotIff(n: Node, c: string, v: string)
    ensures KwargSlot(n, Some(c)) == Some(v) <==> exists key :: ReadsKey(n, c, key) && v == c + "[" + key + "]"
  {
    var slot := KwargSlot(n, Some(c));
    if slot.Some? {
      var key := if n.Subscript? then ConstStr(n.slice).value else ConstStr(n.args[0]).value;
      assert ReadsKey(n, c, key);
    }
  }

  function VirtualName(container: string, key: string): string {
    container + "[" + key + "]"
  }

  /** `_kwarg_slots`: one slot per literal key the body reads, in walk order. */
  method KwargSlots(func: Node, params: seq<string>) returns (container: Option<string>, slots: seq<string>)
    requires func.FunctionDef?
    ensures container == SlotContainer(func, params)
    ensures container == if func.parameters.Arguments? && func.parameters.kwarg.Some?
        && func.parameters.kwarg.value in params
                         then None else if func.parameters.Arguments? then func.parameters.kwarg else None
    ensures forall v :: v in slots <==> exists n | n in Walk([func]) :: KwargSlot(n, container) == Some(v)
    ensures forall v :: v in slots <==>
      container.Some? && exists n, key ::
        n in Walk([func]) && ReadsKey(n, container.value, key) && v == container.value + "[" + key + "]"
    ensures forall i, j | 0 <= i < j < |slots| :: slots[i] != slots[j]
  {
    container, slots := SlotContainer(func, params), [];
    if container == None {
      return;
    }
    hide KwargSlot, Walk;
    var nodes := Walk([func]);
    var seen := {container.value};
    for i := 0 to |nodes|
      invariant forall v :: v in slots <==> exists k | 0 <= k < i :: KwargSlot(nodes[k], container) == Some(v)
      invariant seen == {container.value} + set v | v in slots
      invariant forall a, b | 0 <= a < b < |slots| :: slots[a] != slots[b]
    {
      var slot := KwargSlot(nodes[i], container);
      SlotIsLonger(nodes[i], container);
      if slot.Some? && slot.value !in seen {
        seen := seen + {slot.value};
        slots := slots + [slot.value];
      }
    }
    forall v
      ensures v in slots <==> exists n, key ::
        n in nodes && ReadsKey(n, container.value, key) && v == container.value + "[" + key + "]"
    {
      SlotsAreKeys(nodes, container.value, v);
    }
  }

  lemma SlotsAreKeys(nodes: seq<Node>, c: string, v: string)
    ensures (exists n | n in nodes :: KwargSlot(n, Some(c)) == Some(v))
       <==> exists n, key :: n in nodes && ReadsKey(n, c, key) && v == c + "[" + key + "]"
  {
    hide KwargSlot, ReadsKey;
    forall n {
      KwargSlotIff(n, c, v);
    }
  }

  function SlotContainer(func: Node, params: seq<string>): Option<string>
    requires func.FunctionDef?
  {
    if func.parameters.Arguments? && func.parameters.kwarg.Some? && func.parameters.kwarg.value !in params
    then func.parameters.kwarg else None
  }

  lemma SlotIsLonger(n: Node, container: Option<string>)
    ensures var slot := KwargSlot(n, container); slot.Some? ==> slot.value != container.value
  {
    var slot := KwargSlot(n, container);
    if slot.Some? {
      assert |slot.value| > |container.value|;
    }
  }

  // ---------------------------------------------------------------- the sweep

  /** The parameters one node of an expression refers to. */
  function NodeParams(n: Node, alias: Aliases, container: Option<string>): set<nat> {
    if n.Name? && n.id in alias then alias[n.id]
    else
      var slot := KwargSlot(n, container);
      if slot.Some? && slot.value in alias then alias[slot.value] else {}
  }

  /** `_resolve_referenced_params` */
  function Referenced(expr: Node, alias: Aliases, container: Option<string>): set<nat> {
    set n, i | n in Walk([expr]) && i in NodeParams(n, alias, container) :: i
  }

  function CalleeName(func: Node): Option<string> {
    match func
    case Name(id, _) => Some(id)
    case Attribute(_, attr) => Some(attr)
    case _ => None
  }

  predicate IsSanitizerCall(n: Node) {
    n.Call? && CalleeName(n.func).Some? && CalleeName(n.func).value in KNOWN_SANITIZERS
  }

  /** What the sweep has learnt: aliases, locals produced by a sanitizer, returned expressions,
      parameters that reach a return, and sink edges. */
  datatype Sweep = Sweep(alias: Aliases, clean: set<string>, returned: seq<Node>, tainted: set<nat>, sinks: seq<Edge>)

  function Extend(alias: Aliases, names: seq<string>, params: set<nat>): Aliases {
    if names == [] then alias
    else
      var before := Extend(alias, names[..|names| - 1], params);
      var name := names[|names| - 1];
      before[name := params + if name in before then before[name] else {}]
  }

  /** The edges of one argument, by parameter. */
  function EdgesFor(sig: Signature, found: set<nat>, name: string, cwe: string, line: int, upTo: nat): seq<Edge>
    requires upTo <= |sig.params|
  {
    if upTo == 0 then []
    else EdgesFor(sig, found, name, cwe, line, upTo - 1)
         + if upTo - 1 in found then [Edge(upTo - 1, sig.params[upTo - 1], cwe, name, line)] else []
  }

  /** DB-API calls interpolate only their first argument. */
  predicate IsTracked(cwe: string, position: nat) {
    !(cwe == "CWE-89" && position > 0)
  }

  function ArgumentEdges(sig: Signature, alias: Aliases, call: Node, cwe: string, count: nat): seq<Edge>
    requires call.Call? && count <= |call.args|
  {
    if count == 0 then []
    else
      var name := CalleeName(call.func);
      ArgumentEdges(sig, alias, call, cwe, count - 1)
      + if name.Some? && IsTracked(cwe, count - 1)
        then EdgesFor(sig, Referenced(call.args[count - 1], alias, sig.container), name.value, cwe, call.lineno,
                      |sig.params|)
        else []
  }

  function SinkEdges(sig: Signature, alias: Aliases, call: Node): seq<Edge>
    requires call.Call?
  {
    var name := CalleeName(call.func);
    if name.Some? && name.value in KNOWN_SINKS
    then ArgumentEdges(sig, alias, call, KNOWN_SINKS[name.value], |call.args|) else []
  }

  function Step(sig: Signature, n: Node, s: Sweep): Sweep {
    match n
    case Assign(targets, value) =>
      var names := TargetNames(targets);
      var found := Referenced(value, s.alias, sig.container);
      var bound := set t | t in names;
      s.(clean := if IsSanitizerCall(value) then s.clean + bound else s.clean - bound,
         alias := if found == {} then s.alias else Extend(s.alias, names, found))
    case Return(results) =>
      if results == [] then s
      else s.(returned := s.returned + [results[0]],
              tainted := s.tainted + Referenced(results[0], s.alias, sig.container))
    case Call(_, _, _, _) => s.(sinks := s.sinks + SinkEdges(sig, s.alias, n))
    case _ => s
  }

  function StepAll(sig: Signature, nodes: seq<Node>, s: Sweep): Sweep {
    if nodes == [] then s else StepAll(sig, nodes[1..], Step(sig, nodes[0], s))
  }

  /** The sweep over the statements of a body. */
  function SweepBody(sig: Signature, body: seq<Node>, s: Sweep): Sweep {
    if body == [] then s else SweepBody(sig, body[1..], StepAll(sig, Walk([body[0]]), s))
  }

  function InitialAliases(params: seq<string>): Aliases {
    if params == [] then map[]
    else InitialAliases(params[..|params| - 1])[params[|params| - 1] := {|params| - 1}]
  }

  function Start(sig: Signature): Sweep {
    Sweep(InitialAliases(sig.params), {}, [], {}, [])
  }

  function Swept(sig: Signature, body: seq<Node>): Sweep {
    SweepBody(sig, body, Start(sig))
  }
}
