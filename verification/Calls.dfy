/** Resolving and binding one call: over a harvested call shape, over the call expression itself,
    and the agreement of the two. */
module Calls {
  import opened Options
  import opened PyAst
  import opened Walks
  import opened Sequences
  import opened SymbolIndex
  import opened Facts
  import opened Resolution

  type ReceiverMap = map<string, ClassRef>

  // ---------------------------------------------------------------- receivers

  function FirstSegment(qual: string): string {
    if qual == "" || qual[0] == '.' then "" else [qual[0]] + FirstSegment(qual[1..])
  }

  /** `self` and `cls` inside a method. */
  function OwnReceivers(mod: string, qual: string): ReceiverMap {
    if '.' in qual then
      var owner := ClassRef(FirstSegment(qual), mod);
      map["self" := owner, "cls" := owner]
    else map[]
  }

  function BindAll(bindings: ReceiverMap, targets: seq<string>, ref: ClassRef): ReceiverMap {
    bindings + map t | t in targets :: ref
  }

  /** `_fact_receivers`: constructor bindings in source order, a later rebinding winning. */
  function FactReceivers(prog: Program, mod: string, qual: string, recv: seq<Receiver>): ReceiverMap {
    if recv == [] then OwnReceivers(mod, qual)
    else
      var last := recv[|recv| - 1];
      var before := FactReceivers(prog, mod, qual, recv[..|recv| - 1]);
      var ref := ClassOfName(prog, last.ctor, mod);
      if ref == None then before else BindAll(before, last.targets, ref.value)
  }

  /** The receiver map of a whole body. */
  function ReceiversIn(prog: Program, mod: string, func: Node, qual: string): ReceiverMap {
    FactReceivers(prog, mod, qual, Facts.Receivers(Ordered(func, true, [func])))
  }

  /** `_instance_bindings` over a list of nodes of the function body. */
  method InstanceBindings(prog: Program, mod: string, qual: string, nodes: seq<Node>) returns (bindings: ReceiverMap)
    ensures bindings == FactReceivers(prog, mod, qual, Facts.Receivers(nodes))
  {
    bindings := OwnReceivers(mod, qual);
    assert Facts.Receivers([]) == [] && FactReceivers(prog, mod, qual, []) == OwnReceivers(mod, qual);
    hide Facts.Receivers, FactReceivers, ClassOfName, OwnReceivers, BindAll;
    for i := 0 to |nodes|
      invariant bindings == FactReceivers(prog, mod, qual, Facts.Receivers(nodes[..i]))
    {
      var node := nodes[i];
      assert nodes[..i + 1] == nodes[..i] + [node];
      ReceiversAppend(nodes[..i], node);
      FactReceiversAppend(prog, mod, qual, Facts.Receivers(nodes[..i]), ReceiverOf(node));
      if !IsConstruction(node) {
        continue;
      }
      var ref := ClassOfName(prog, node.value.func.id, mod);
      if ref == None {
        continue;
      }
      bindings := BindTargets(bindings, node.targets, ref.value);
    }
    assert nodes[..|nodes|] == nodes;
  }

  lemma BindAllStep(before: ReceiverMap, targets: seq<string>, name: string, ref: ClassRef)
    ensures BindAll(before, targets + [name], ref) == BindAll(before, targets, ref)[name := ref]
  {
  }

  lemma BindAllNone(before: ReceiverMap, ref: ClassRef)
    ensures BindAll(before, [], ref) == before
  {
  }

  method BindTargets(before: ReceiverMap, targets: seq<Node>, ref: ClassRef) returns (bindings: ReceiverMap)
    ensures bindings == if TargetNames(targets) == [] then before else BindAll(before, TargetNames(targets), ref)
  {
    bindings := before;
    BindAllNone(before, ref);
    assert TargetNames([]) == [];
    hide *;
    for t := 0 to |targets|
      invariant bindings == BindAll(before, TargetNames(targets[..t]), ref)
    {
      assert targets[..t + 1] == targets[..t] + [targets[t]];
      TargetNamesAppend(targets[..t], targets[t]);
      if targets[t].Name? {
        BindAllStep(before, TargetNames(targets[..t]), targets[t].id, ref);
        bindings := bindings[targets[t].id := ref];
      }
    }
    assert targets[..|targets|] == targets;
  }

  lemma {:induction false} TargetNamesAppend(targets: seq<Node>, target: Node)
    ensures TargetNames(targets + [target])
         == if target.Name? then TargetNames(targets) + [target.id] else TargetNames(targets)
  {
    if targets != [] {
      assert (targets + [target])[1..] == targets[1..] + [target];
      TargetNamesAppend(targets[1..], target);
      if target.Name? {
        Assoc(if targets[0].Name? then [targets[0].id] else [], TargetNames(targets[1..]), [target.id]);
      }
    }
  }

  lemma {:induction false} ReceiversAppend(nodes: seq<Node>, node: Node)
    ensures Facts.Receivers(nodes + [node]) == Facts.Receivers(nodes) + ReceiverOf(node)
  {
    if nodes == [] {
      assert [] + [node] == [node] && [node][1..] == [];
    } else {
      hide ReceiverOf;
      assert (nodes + [node])[1..] == nodes[1..] + [node];
      ReceiversAppend(nodes[1..], node);
      Assoc(ReceiverOf(nodes[0]), Facts.Receivers(nodes[1..]), ReceiverOf(node));
    }
  }

  lemma FactReceiversAppend(prog: Program, mod: string, qual: string, recv: seq<Receiver>, one: seq<Receiver>)
    requires |one| <= 1
    ensures FactReceivers(prog, mod, qual, recv + one)
         == if one == [] || ClassOfName(prog, one[0].ctor, mod) == None
            then FactReceivers(prog, mod, qual, recv)
            else BindAll(FactReceivers(prog, mod, qual, recv), one[0].targets,
                         ClassOfName(prog, one[0].ctor, mod).value)
  {
    if one == [] {
      assert recv + one == recv;
    } else {
      var all := recv + one;
      assert all[..|all| - 1] == recv;
    }
  }

  /** Reading only the assignments of a walk gives the same receivers as reading all of it. */
  lemma {:induction false} ReceiversOfAssignments(nodes: seq<Node>)
    ensures Facts.Receivers(Filter(IsAssignment, nodes)) == Facts.Receivers(nodes)
  {
    if nodes != [] {
      ReceiversOfAssignments(nodes[1..]);
      var later := Filter(IsAssignment, nodes[1..]);
      if IsAssignment(nodes[0]) {
        assert ([nodes[0]] + later)[1..] == later;
      } else {
        assert [] + later == later && ReceiverOf(nodes[0]) == [];
      }
    }
  }

  // ---------------------------------------------------------------- contracts of call sites

  function ImportedModuleOf(prog: Program, name: string, callerMod: string): Option<string> {
    if callerMod in prog.index.modules && name in prog.index.modules[callerMod].imports
       && prog.index.modules[callerMod].imports[name].importedName == ""
    then MatchRegistered(prog.index, prog.index.modules[callerMod].imports[name].sourceModule)
    else None
  }

  function IfContract(prog: Program, id: FuncId): Option<FuncId> {
    if HasContract(prog, id) then Some(id) else None
  }

  function NamedReceiver(prog: Program, name: string, callerMod: string, receivers: ReceiverMap): Option<ClassRef> {
    if name in receivers then Some(receivers[name]) else ClassOfName(prog, name, callerMod)
  }

  function MethodOn(prog: Program, ref: Option<ClassRef>, attr: string): Option<FuncId> {
    if ref == None then None else InheritedMethod(prog, ref.value, attr)
  }

  /** A bare name; a file that belongs to no module, or to the unnamed root package, has no
      contract. */
  function ByName(prog: Program, callerMod: string, name: string): Option<FuncId> {
    var def := ResolveSymbol(prog.index, callerMod, name);
    if def == None then None else
      var mod := FileModule(prog.index, def.value.filePath);
      if mod == None || mod.value == "" then None else IfContract(prog, FuncId(mod.value, def.value.name))
  }

  function SiteMethod(prog: Program, callerMod: string, site: CallShape, receivers: ReceiverMap): Option<FuncId> {
    MethodOn(prog,
      if site.rkind == SITE_RECV_NAME then NamedReceiver(prog, site.rname, callerMod, receivers)
      else if site.rkind == SITE_RECV_CTOR then ClassOfName(prog, site.rname, callerMod)
      else None,
      site.fname)
  }

  function SiteModuleAttribute(prog: Program, callerMod: string, site: CallShape): Option<FuncId> {
    if site.rkind != SITE_RECV_NAME then None else
      var target := ImportedModuleOf(prog, site.rname, callerMod);
      if target == None then None else IfContract(prog, FuncId(target.value, site.fname))
  }

  /** `_resolve_site_contract` */
  function SiteContract(prog: Program, callerMod: string, site: CallShape, receivers: ReceiverMap)
    : (found: Option<FuncId>)
  {
    if site.fkind == SITE_FUNC_NAME then ByName(prog, callerMod, site.fname)
    else if site.fkind == SITE_FUNC_ATTR then
      var asMethod := SiteMethod(prog, callerMod, site, receivers);
      if asMethod.Some? then asMethod else
        var asAttribute := SiteModuleAttribute(prog, callerMod, site);
        if asAttribute.Some? then asAttribute else ByName(prog, callerMod, site.fname)
    else None
  }

  function MethodContract(prog: Program, func: Node, callerMod: string, receivers: ReceiverMap): Option<FuncId>
    requires func.Attribute?
  {
    MethodOn(prog,
      match func.value
      case Name(id, _) => NamedReceiver(prog, id, callerMod, receivers)
      case Call(ctor, _, _, _) => if ctor.Name? then ClassOfName(prog, ctor.id, callerMod) else None
      case _ => None,
      func.attr)
  }

  function ModuleAttributeContract(prog: Program, func: Node, callerMod: string): Option<FuncId>
    requires func.Attribute?
  {
    if !func.value.Name? then None else
      var target := ImportedModuleOf(prog, func.value.id, callerMod);
      if target == None then None else IfContract(prog, FuncId(target.value, func.attr))
  }

  /** `_resolve_call_contract` */
  function CallContract(prog: Program, callerMod: string, value: Node, receivers: ReceiverMap): Option<FuncId> {
    if !value.Call? then None
    else match value.func
      case Name(id, _) => ByName(prog, callerMod, id)
      case Attribute(_, attr) =>
        var asMethod := MethodContract(prog, value.func, callerMod, receivers);
        if asMethod.Some? then asMethod else
          var asAttribute := ModuleAttributeContract(prog, value.func, callerMod);
          if asAttribute.Some? then asAttribute else ByName(prog, callerMod, attr)
      case _ => None
  }

  lemma {:induction false} SearchFindsContract(prog: Program, attr: string, pending: seq<ClassRef>, seen: set<ClassRef>)
    ensures var found := SearchBases(prog, attr, pending, seen); found.Some? ==> HasContract(prog, found.value)
    decreases |IndexedClasses(prog) - seen|, |pending|
  {
    if pending != [] {
      if pending[0] in seen {
        SearchFindsContract(prog, attr, pending[1..], seen);
      } else if !HasContract(prog, MethodId(pending[0], attr)) {
        SeenGrows(prog, pending[0], seen);
        var seen' := seen + {pending[0]};
        SearchFindsContract(prog, attr, pending[1..] + Unseen(BaseClasses(prog, pending[0]), seen'), seen');
      }
    }
  }

  lemma SiteContractExists(prog: Program, callerMod: string, site: CallShape, receivers: ReceiverMap)
    ensures var found := SiteContract(prog, callerMod, site, receivers);
      found.Some? ==> HasContract(prog, found.value)
  {
    if site.rkind == SITE_RECV_NAME {
      var ref := NamedReceiver(prog, site.rname, callerMod, receivers);
      if ref.Some? { SearchFindsContract(prog, site.fname, [ref.value], {}); }
    } else if site.rkind == SITE_RECV_CTOR {
      var ref := ClassOfName(prog, site.rname, callerMod);
      if ref.Some? { SearchFindsContract(prog, site.fname, [ref.value], {}); }
    }
  }

  /** Resolution over the harvested shape is resolution over the call expression. */
  lemma SiteResolvesLikeCall(prog: Program, callerMod: string, call: Node, receivers: ReceiverMap)
    requires call.Call?
    ensures SiteContract(prog, callerMod, ShapeOf(call), receivers) == CallContract(prog, callerMod, call, receivers)
  {
    assert MethodOn(prog, None, ShapeOf(call).fname) == None;
    hide NamedReceiver, MethodOn, ByName, ClassOfName, ImportedModuleOf, IfContract;
  }

  // ---------------------------------------------------------------- receiver offset

  /** `_receiver_offset_site`: 1 for an unbound `Class.method(receiver, ...)` call. */
  function SiteOffset(prog: Program, callerMod: string, site: CallShape, callee: FuncId, receivers: ReceiverMap): nat
    requires HasContract(prog, callee)
  {
    if !ContractOf(prog, callee).takesReceiver || site.fkind != SITE_FUNC_ATTR then 0
    else if site.rkind != SITE_RECV_NAME || site.rname in receivers then 0
    else
      var ref := ClassOfName(prog, site.rname, callerMod);
      if ref.Some? && InheritedMethod(prog, ref.value, site.fname) == Some(callee) then 1 else 0
  }

  /** `_receiver_offset` */
  function CallOffset(prog: Program, callerMod: string, call: Node, callee: FuncId, receivers: ReceiverMap): nat
    requires call.Call? && HasContract(prog, callee)
  {
    if !ContractOf(prog, callee).takesReceiver || !call.func.Attribute? then 0
    else
      var receiver := call.func.value;
      if !receiver.Name? || receiver.id in receivers then 0
      else
        var ref := ClassOfName(prog, receiver.id, callerMod);
        if ref.Some? && InheritedMethod(prog, ref.value, call.func.attr) == Some(callee) then 1 else 0
  }

  lemma OffsetsAgree(prog: Program, callerMod: string, call: Node, callee: FuncId, receivers: ReceiverMap)
    requires call.Call? && HasContract(prog, callee)
    ensures SiteOffset(prog, callerMod, ShapeOf(call), callee, receivers)
         == CallOffset(prog, callerMod, call, callee, receivers)
  {
    hide ClassOfName, InheritedMethod;
  }

  // ---------------------------------------------------------------- argument binding

  function EndsWith(s: string, suffix: string): bool {
    |suffix| <= |s| && s[|s| - |suffix|..] == suffix
  }

  /** The last position of a parameter name. */
  function ParamIndex(params: seq<string>, name: string): (index: Option<nat>)
    ensures index.Some? <==> name in params
    ensures index.Some? ==> index.value < |params| && params[index.value] == name && name !in params[index.value + 1..]
  {
    if params == [] then None
    else if params[|params| - 1] == name then Some(|params| - 1)
    else ParamIndex(params[..|params| - 1], name)
  }

  /** `_kwarg_slot_index`: the first `<container>[<key>]` slot of a keyword. */
  function KwargSlotIndex(params: seq<string>, keyword: string): (slot: Option<nat>)
    ensures slot.Some? ==> slot.value < |params|
  {
    if params == [] then None
    else if EndsWith(params[0], "[" + keyword + "]") then Some(0)
    else
      var later := KwargSlotIndex(params[1..], keyword);
      if later == None then None else Some(later.value + 1)
  }

  /** The parameter a keyword argument is bound to. */
  function KeywordSlot(params: seq<string>, keyword: string): (slot: Option<nat>)
    ensures slot.Some? ==> slot.value < |params|
  {
    if keyword in params then ParamIndex(params, keyword) else KwargSlotIndex(params, keyword)
  }

  function LastKeyword<T>(kws: seq<(string, T)>, params: seq<string>, i: nat): Option<T> {
    if kws == [] then None
    else if KeywordSlot(params, kws[|kws| - 1].0) == Some(i) then Some(kws[|kws| - 1].1)
    else LastKeyword(kws[..|kws| - 1], params, i)
  }

  /** What parameter `i` receives: the last keyword argument meant for it, otherwise the
      positional argument in its place. */
  function BoundAt<T>(pos: seq<T>, kws: seq<(string, T)>, params: seq<string>, offset: nat, i: nat): Option<T> {
    var byKeyword := LastKeyword(kws, params, i);
    if byKeyword.Some? then byKeyword
    else if i + offset < |pos| then Some(pos[i + offset]) else None
  }

  function Bind<T>(pos: seq<T>, kws: seq<(string, T)>, params: seq<string>, offset: nat): map<nat, T> {
    map i: nat | i < |params| && BoundAt(pos, kws, params, offset, i).Some? ::
        BoundAt(pos, kws, params, offset, i).value
  }

  lemma LastKeywordStep<T>(kws: seq<(string, T)>, kw: (string, T), params: seq<string>, i: nat)
    ensures LastKeyword(kws + [kw], params, i)
         == if KeywordSlot(params, kw.0) == Some(i) then Some(kw.1) else LastKeyword(kws, params, i)
  {
    assert (kws + [kw])[..|kws|] == kws;
  }

  lemma BindKeyword<T>(pos: seq<T>, kws: seq<(string, T)>, kw: (string, T), params: seq<string>, offset: nat)
    ensures Bind(pos, kws + [kw], params, offset)
         == var slot := KeywordSlot(params, kw.0);
            if slot.Some? then Bind(pos, kws, params, offset)[slot.value := kw.1] else Bind(pos, kws, params, offset)
  {
    forall i: nat {
      LastKeywordStep(kws, kw, params, i);
    }
  }

  lemma BindPositional<T>(pos: seq<T>, arg: T, params: seq<string>, offset: nat)
    ensures Bind(pos + [arg], [], params, offset)
         == if 0 <= |pos| - offset < |params| then Bind(pos, [], params, offset)[|pos| - offset := arg]
            else Bind(pos, [], params, offset)
  {
  }

  /** `_bind_call_args` and `_bind_site_args`: positional arguments first, then keywords. */
  method BindArgs<T>(pos: seq<T>, kws: seq<(string, T)>, params: seq<string>, offset: nat)
    returns (bound: map<nat, T>)
    ensures bound == Bind(pos, kws, params, offset)
  {
    bound := map[];
    assert bound == Bind([], [], params, offset);
    hide Bind, KeywordSlot;
    for idx := 0 to |pos|
      invariant bound == Bind(pos[..idx], [], params, offset)
    {
      assert pos[..idx + 1] == pos[..idx] + [pos[idx]];
      BindPositional(pos[..idx], pos[idx], params, offset);
      var paramIdx := idx - offset;
      if 0 <= paramIdx < |params| {
        bound := bound[paramIdx := pos[idx]];
      }
    }
    assert pos[..|pos|] == pos;
    for k := 0 to |kws|
      invariant bound == Bind(pos, kws[..k], params, offset)
    {
      assert kws[..k + 1] == kws[..k] + [kws[k]];
      BindKeyword(pos, kws[..k], kws[k], params, offset);
      var slot := KeywordSlot(params, kws[k].0);
      if slot.Some? {
        bound := bound[slot.value := kws[k].1];
      }
    }
    assert kws[..|kws|] == kws;
  }

  function BindCall(call: Node, params: seq<string>, offset: nat): map<nat, Node>
    requires call.Call?
  {
    Bind(call.args, KeywordPairs(call.keywords), params, offset)
  }

  function BindSite(site: CallShape, params: seq<string>, offset: nat): map<nat, Option<string>> {
    Bind(site.argn, site.kwn, params, offset)
  }

  lemma {:induction false} LastKeywordOfBare(kws: seq<(string, Node)>, params: seq<string>, i: nat)
    ensures LastKeyword(BarePairs(kws), params, i)
         == match LastKeyword(kws, params, i) case None => None case Some(value) => Some(BareName(value))
  {
    if kws != [] {
      assert BarePairs(kws)[..|kws| - 1] == BarePairs(kws[..|kws| - 1]);
      LastKeywordOfBare(kws[..|kws| - 1], params, i);
    }
  }

  /** Binding the harvested shape binds the same parameters, each to the bare name of the argument
      the call expression binds there. */
  lemma SiteBindsLikeCall(call: Node, params: seq<string>, offset: nat)
    requires call.Call?
    ensures BindSite(ShapeOf(call), params, offset).Keys == BindCall(call, params, offset).Keys
    ensures forall i | i in BindCall(call, params, offset) ::
      BindSite(ShapeOf(call), params, offset)[i] == BareName(BindCall(call, params, offset)[i])
  {
    var kws := KeywordPairs(call.keywords);
    assert ShapeOf(call).argn == BareNames(call.args) && ShapeOf(call).kwn == BarePairs(kws);
    forall i: nat {
      LastKeywordOfBare(kws, params, i);
    }
  }

  // ---------------------------------------------------------------- what a call binds

  /** The `k`-th keyword argument is named and meant for parameter `i`. */
  ghost predicate MeantFor(call: Node, params: seq<string>, k: nat, i: nat)
    requires call.Call?
  {
    && k < |call.keywords| && call.keywords[k].Keyword? && call.keywords[k].arg != ""
    && KeywordSlot(params, call.keywords[k].arg) == Some(i)
  }

  lemma KeywordPairsLast(ks: seq<Node>, k: Node)
    ensures KeywordPairs(ks + [k])
         == KeywordPairs(ks) + if k.Keyword? && k.arg != "" then [(k.arg, k.value)] else []
    decreases |ks|
  {
    if ks == [] {
      assert ks + [k] == [k] && [k][1..] == [];
    } else {
      assert (ks + [k])[1..] == ks[1..] + [k];
      KeywordPairsLast(ks[1..], k);
    }
  }

  /** The keyword among the first `n` that a parameter gets its argument from, if any. */
  lemma {:induction false} LastKeywordIs(call: Node, params: seq<string>, i: nat, n: nat)
    requires call.Call? && n <= |call.keywords|
    ensures match LastKeyword(KeywordPairs(call.keywords[..n]), params, i)
            case None => forall k | 0 <= k < n :: !MeantFor(call, params, k, i)
            case Some(value) => exists k: nat ::
              && k < n && MeantFor(call, params, k, i) && call.keywords[k].value == value
              && forall later | k < later < n :: !MeantFor(call, params, later, i)
    decreases n
  {
    hide KeywordSlot, KeywordPairs;
    if n == 0 {
      NoPairs();
      assert call.keywords[..0] == [];
    } else {
      LastKeywordIs(call, params, i, n - 1);
      var front, k := KeywordPairs(call.keywords[..n - 1]), call.keywords[n - 1];
      assert call.keywords[..n] == call.keywords[..n - 1] + [k];
      KeywordPairsLast(call.keywords[..n - 1], k);
      if k.Keyword? && k.arg != "" {
        LastKeywordStep(front, (k.arg, k.value), params, i);
        if KeywordSlot(params, k.arg) == Some(i) { assert MeantFor(call, params, n - 1, i); }
      } else {
        assert front + [] == front;
      }
    }
  }

  lemma NoPairs()
    ensures KeywordPairs([]) == []
  {
  }

  /** What a call hands to a parameter: the last named keyword argument meant for it, otherwise the positional
      argument in its place; a `**mapping` argument hands over nothing. */
  lemma BoundByCall(call: Node, params: seq<string>, offset: nat, i: nat)
    requires call.Call? && i < |params|
    ensures var bound := BindCall(call, params, offset);
      if exists k: nat :: MeantFor(call, params, k, i) then
        exists k: nat ::
          && MeantFor(call, params, k, i) && (forall later: nat | k < later :: !MeantFor(call, params, later, i))
          && i in bound && bound[i] == call.keywords[k].value
      else if i + offset < |call.args| then i in bound && bound[i] == call.args[i + offset]
      else i !in bound
  {
    hide KeywordSlot, KeywordPairs, LastKeyword;
    assert call.keywords[..|call.keywords|] == call.keywords;
    LastKeywordIs(call, params, i, |call.keywords|);
    assert forall k: nat | MeantFor(call, params, k, i) :: k < |call.keywords|;
  }

  // ---------------------------------------------------------------- keywords and slots

  /** The slots of a `**kwargs` mapping, one for each key. */
  function SlotNames(c: string, keys: seq<string>): (slots: seq<string>)
    ensures |slots| == |keys|
  {
    seq(|keys|, j requires 0 <= j < |keys| => c + "[" + keys[j] + "]")
  }

  lemma EndsWithMore(s: string, suffix: string, x: char)
    ensures EndsWith(s + [x], suffix + [x]) <==> EndsWith(s, suffix)
  {
    if |suffix| <= |s| {
      assert (s + [x])[|s| - |suffix|..] == s[|s| - |suffix|..] + [x];
      assert (s[|s| - |suffix|..] + [x])[..|suffix|] == s[|s| - |suffix|..];
      assert (suffix + [x])[..|suffix|] == suffix;
    }
  }

  lemma EndsInLast(u: string, key: string, t: string)
    requires |t| <= |key|
    ensures EndsWith(u + key, t) <==> EndsWith(key, t)
  {
    assert (u + key)[|u| + |key| - |t|..] == key[|key| - |t|..];
  }

  lemma EndsBefore(c: string, key: string, k: string)
    requires '[' !in k && |key| <= |k|
    ensures EndsWith(c + "[" + key, "[" + k) <==> key == k
  {
    var s, t := c + "[" + key, "[" + k;
    assert forall i | 0 <= i < |k| :: t[i + 1] == k[i] && k[i] in k;
    if |t| <= |s| {
      var from := |s| - |t|;
      if key == k {
        assert s[from..] == t;
      }
      if s[from..] == t {
        var at := |k| - |key|;
        assert s[from..][at] == s[|c|] == '[';
        assert at == 0;
        assert s[from..][1..] == key && t[1..] == k;
      }
    }
  }

  /** A slot looks like that of a keyword if its key is the keyword, or ends in a bracket and the keyword. */
  lemma SlotLooksLike(c: string, key: string, k: string)
    requires '[' !in k
    ensures EndsWith(c + "[" + key + "]", "[" + k + "]") <==> key == k || EndsWith(key, "[" + k)
  {
    hide EndsWith;
    EndsWithMore(c + "[" + key, "[" + k, ']');
    if |k| < |key| {
      EndsInLast(c + "[", key, "[" + k);
    } else {
      EndsBefore(c, key, k);
      LongerIsNoEnd(key, "[" + k);
    }
  }

  lemma LongerIsNoEnd(s: string, suffix: string)
    requires |suffix| > |s|
    ensures !EndsWith(s, suffix)
  {
  }

  lemma BracketAtEnd(p: string, k: string)
    ensures EndsWith(p, "[" + k + "]") ==> ']' in p
  {
    var suffix := "[" + k + "]";
    if EndsWith(p, suffix) {
      assert p[|p| - |suffix|..][|k| + 1] == ']';
    }
  }

  lemma {:induction false} SlotIndexAfter(positional: seq<string>, slots: seq<string>, k: string)
    requires forall p | p in positional :: !EndsWith(p, "[" + k + "]")
    ensures KwargSlotIndex(positional + slots, k)
         == match KwargSlotIndex(slots, k) case None => None case Some(j) => Some(|positional| + j)
    decreases |positional|
  {
    hide EndsWith;
    if positional == [] {
      assert positional + slots == slots;
    } else {
      assert (positional + slots)[1..] == positional[1..] + slots;
      SlotIndexAfter(positional[1..], slots, k);
    }
  }

  lemma {:induction false} SlotIndexIs(c: string, keys: seq<string>, k: string, j: nat)
    requires '[' !in k && j < |keys| && keys[j] == k
    ensures KwargSlotIndex(SlotNames(c, keys), k) == Some(j)
       <==> forall i | 0 <= i < j :: keys[i] != k && !EndsWith(keys[i], "[" + k)
    decreases |keys|
  {
    hide EndsWith;
    var slots := SlotNames(c, keys);
    SlotLooksLike(c, keys[0], k);
    if j > 0 {
      assert slots[1..] == SlotNames(c, keys[1..]);
      SlotIndexIs(c, keys[1..], k, j - 1);
      assert forall i | 0 < i < j :: keys[i] == keys[1..][i - 1];
      assert forall i | 0 <= i < j - 1 :: keys[1..][i] == keys[i + 1];
    }
  }

  /** A keyword argument reaches the slot that the callee reads it from exactly if no earlier slot's key ends in a
      bracket and that keyword. */
  lemma KeywordReachesSlot(positional: seq<string>, c: string, keys: seq<string>, k: string, j: nat)
    requires '[' !in k && j < |keys| && keys[j] == k && k !in positional + SlotNames(c, keys)
    requires forall p | p in positional :: ']' !in p
    requires forall i, l | 0 <= i < l < |keys| :: keys[i] != keys[l]
    ensures KeywordSlot(positional + SlotNames(c, keys), k) == Some(|positional| + j)
       <==> forall i | 0 <= i < j :: !EndsWith(keys[i], "[" + k)
  {
    hide SlotNames, KwargSlotIndex;
    forall p | p in positional
      ensures !EndsWith(p, "[" + k + "]")
    {
      BracketAtEnd(p, k);
    }
    SlotIndexAfter(positional, SlotNames(c, keys), k);
    SlotIndexIs(c, keys, k, j);
  }

  // ---------------------------------------------------------------- what a call resolves to

  /** The name resolves to this function of a registered module. */
  ghost predicate NamesFunction(prog: Program, mod: string, name: string, f: FuncId) {
    var def := ResolveSymbol(prog.index, mod, name);
    && def.Some? && def.value.name == f.qual && FileModule(prog.index, def.value.filePath) == Some(f.mod)
    && f.mod != "" && HasContract(prog, f)
  }

  /** The alias is bound by an `import` of the module, which has the function. */
  ghost predicate NamesModuleFunction(prog: Program, mod: string, alias: string, attr: string, f: FuncId) {
    && mod in prog.index.modules && alias in prog.index.modules[mod].imports
    && prog.index.modules[mod].imports[alias].importedName == ""
    && MatchRegistered(prog.index, prog.index.modules[mod].imports[alias].sourceModule) == Some(f.mod)
    && f.qual == attr && HasContract(prog, f)
  }

  /** The receiver is an object of this class: a variable bound to one, the class by name, or a new one. */
  ghost predicate HasClass(prog: Program, mod: string, receiver: Node, receivers: ReceiverMap, ref: ClassRef) {
    || (receiver.Name? && if receiver.id in receivers then receivers[receiver.id] == ref
                          else NamesClass(prog, mod, receiver.id, ref))
    || (receiver.Call? && receiver.func.Name? && NamesClass(prog, mod, receiver.func.id, ref))
  }

  ghost predicate NamesMethod(prog: Program, mod: string, func: Node, receivers: ReceiverMap, f: FuncId)
    requires func.Attribute?
  {
    exists ref :: HasClass(prog, mod, func.value, receivers, ref) && InheritedMethod(prog, ref, func.attr) == Some(f)
  }

  ghost predicate NamesAliased(prog: Program, mod: string, func: Node, f: FuncId)
    requires func.Attribute?
  {
    func.value.Name? && NamesModuleFunction(prog, mod, func.value.id, func.attr, f)
  }

  lemma MethodIs(prog: Program, mod: string, func: Node, receivers: ReceiverMap, f: FuncId)
    requires func.Attribute?
    ensures MethodContract(prog, func, mod, receivers) == Some(f) <==> NamesMethod(prog, mod, func, receivers, f)
  {
    hide InheritedMethod, ClassOfName, NamesClass;
    forall name, ref
      ensures ClassOfName(prog, name, mod) == Some(ref) <==> NamesClass(prog, mod, name, ref)
    {
      ClassOfNameNames(prog, mod, name, ref);
    }
  }

  lemma AliasedIs(prog: Program, mod: string, func: Node, f: FuncId)
    requires func.Attribute?
    ensures ModuleAttributeContract(prog, func, mod) == Some(f) <==> NamesAliased(prog, mod, func, f)
  {
    hide MatchRegistered;
  }

  lemma NamedIs(prog: Program, mod: string, name: string, f: FuncId)
    ensures ByName(prog, mod, name) == Some(f) <==> NamesFunction(prog, mod, name, f)
  {
    hide ResolveSymbol, FileModule;
  }

  /** What a call resolves to: a bare name to the function it names; a dotted one to the method of its receiver's
      class, else to the function of an imported module, else to a function of that bare name. */
  lemma CallResolves(prog: Program, mod: string, call: Node, receivers: ReceiverMap, f: FuncId)
    requires call.Call?
    ensures CallContract(prog, mod, call, receivers) == Some(f) <==>
            || (call.func.Name? && NamesFunction(prog, mod, call.func.id, f))
            || (call.func.Attribute?
                && (|| NamesMethod(prog, mod, call.func, receivers, f)
                    || ((forall g :: !NamesMethod(prog, mod, call.func, receivers, g))
                        && (|| NamesAliased(prog, mod, call.func, f)
                            || ((forall g :: !NamesAliased(prog, mod, call.func, g))
                                && NamesFunction(prog, mod, call.func.attr, f))))))
  {
    hide ByName, NamesFunction, MethodContract, NamesMethod, ModuleAttributeContract, NamesAliased;
    match call.func {
      case Name(id, _) => NamedIs(prog, mod, id, f);
      case Attribute(_, attr) =>
        NamedIs(prog, mod, attr, f);
        forall g
          ensures MethodContract(prog, call.func, mod, receivers) == Some(g) <==>
                  NamesMethod(prog, mod, call.func, receivers, g)
          ensures ModuleAttributeContract(prog, call.func, mod) == Some(g) <==> NamesAliased(prog, mod, call.func, g)
        {
          MethodIs(prog, mod, call.func, receivers, g);
          AliasedIs(prog, mod, call.func, g);
        }
      case _ =>
    }
  }

  /** In a method `self` and `cls` are objects of its class; in a function they are nothing. */
  lemma {:induction false} SelfIsOwner(mod: string, cls: string, method': string)
    requires '.' !in cls
    ensures OwnReceivers(mod, cls) == map[]
    ensures OwnReceivers(mod, cls + "." + method') == map["self" := ClassRef(cls, mod), "cls" := ClassRef(cls, mod)]
  {
    FirstSegmentIs(cls, method');
    assert (cls + "." + method')[|cls|] == '.';
  }

  lemma {:induction false} FirstSegmentIs(cls: string, rest: string)
    requires '.' !in cls
    ensures FirstSegment(cls + "." + rest) == cls
  {
    if cls != "" {
      FirstSegmentIs(cls[1..], rest);
      assert (cls + "." + rest)[1..] == cls[1..] + "." + rest;
      SplitFirst(cls);
    }
  }
}
