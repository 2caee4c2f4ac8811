/** Which parameters a decorator neutralises, read off the trees, and when a neutralised parameter is handed none
    but sanitizers' values. */
module Decorators {
  import opened Options
  import opened PyAst
  import opened SymbolIndex
  import opened Facts
  import opened Resolution
  import opened Forwarding
  import opened Dataflow
  import opened Verdict

  // ---------------------------------------------------------------- the names an expression reads

  /** The parts of an expression that are read; the spelling of a callee is not. */
  function ReadParts(n: Node): seq<Node> {
    if n.Call? && (n.func.Name? || n.func.Attribute?) then n.args + n.keywords else Children(n)
  }

  /** A way down to a name that avoids the spelling of callees. */
  ghost predicate ReadPath(path: seq<Node>, e: Node, x: string) {
    && path != [] && path[0] == e && path[|path| - 1].Name? && path[|path| - 1].id == x
    && forall j: nat | j + 1 < |path| :: path[j + 1] in ReadParts(path[j])
  }

  ghost predicate ReadsName(e: Node, x: string) {
    exists path :: ReadPath(path, e, x)
  }

  lemma {:induction false} UsesOfMany(parent: Node, es: seq<Node>, x: string)
    requires forall i | 0 <= i < |es| :: es[i] < parent
    ensures x in NameUsesOf(parent, es) <==> exists e :: e in es && x in NameUses(e)
    decreases |es|
  {
    hide NameUses, NameUsesOf;
    UsesOfFirst(parent, es);
    if es != [] {
      UsesOfMany(parent, es[1..], x);
      assert forall e :: e in es <==> e == es[0] || e in es[1..];
    }
  }

  lemma UsesOfFirst(parent: Node, es: seq<Node>)
    requires forall i | 0 <= i < |es| :: es[i] < parent
    ensures NameUsesOf(parent, es) == if es == [] then {} else NameUses(es[0]) + NameUsesOf(parent, es[1..])
  {
  }

  lemma UsesOfParts(e: Node, x: string)
    ensures x in NameUses(e)
       <==> (e.Name? && e.id == x) || (!e.Name? && exists c :: c in ReadParts(e) && x in NameUses(c))
  {
    hide NameUsesOf;
    match e
    case Name(_, _) =>
    case Call(func, args, keywords, _) =>
      if func.Name? || func.Attribute? {
        UsesOfMany(e, args, x);
        UsesOfMany(e, keywords, x);
        assert forall c :: c in ReadParts(e) <==> c in args || c in keywords;
      } else {
        UsesOfMany(e, Children(e), x);
      }
    case _ => UsesOfMany(e, Children(e), x);
  }

  lemma PartIsSmaller(e: Node, c: Node)
    requires c in ReadParts(e)
    ensures c < e && c in Children(e) && !e.Name?
  {
    if e.Call? {
      assert forall x :: x in Children(e) <==> x == e.func || x in e.args || x in e.keywords;
    }
  }

  lemma PathTail(path: seq<Node>, e: Node, x: string)
    requires ReadPath(path, e, x) && |path| > 1
    ensures ReadPath(path[1..], path[1], x) && path[1] in ReadParts(e)
  {
    hide ReadParts;
    assert path[0 + 1] in ReadParts(path[0]);
    forall j: nat | j + 1 < |path[1..]|
      ensures path[1..][j + 1] in ReadParts(path[1..][j])
    {
      assert path[(j + 1) + 1] in ReadParts(path[j + 1]);
    }
  }

  lemma PathFurther(path: seq<Node>, c: Node, x: string, e: Node)
    requires ReadPath(path, c, x) && c in ReadParts(e)
    ensures ReadPath([e] + path, e, x)
  {
    hide ReadParts;
    var longer := [e] + path;
    forall j: nat | j + 1 < |longer|
      ensures longer[j + 1] in ReadParts(longer[j])
    {
      if j > 0 { assert path[(j - 1) + 1] in ReadParts(path[j - 1]); }
    }
  }

  /** The recorded names are those that some way down leads to. */
  lemma {:induction false} NameUsesIff(e: Node, x: string)
    ensures x in NameUses(e) <==> ReadsName(e, x)
    decreases e
  {
    hide NameUses, ReadParts;
    UsesOfParts(e, x);
    if x in NameUses(e) {
      if e.Name? {
        assert ReadPath([e], e, x);
      } else {
        var c :| c in ReadParts(e) && x in NameUses(c);
        PartIsSmaller(e, c);
        NameUsesIff(c, x);
        var path :| ReadPath(path, c, x);
        PathFurther(path, c, x, e);
      }
    }
    if path :| ReadPath(path, e, x) {
      if |path| > 1 {
        PathTail(path, e, x);
        PartIsSmaller(e, path[1]);
        NameUsesIff(path[1], x);
      }
    }
  }

  // ---------------------------------------------------------------- what a decorator's tree forwards

  /** The first function defined in the body. */
  ghost predicate IsWrapper(func: Node, wrapper: Node)
    requires func.FunctionDef?
  {
    exists k: nat ::
      && k < |func.body| && func.body[k] == wrapper && wrapper.FunctionDef?
      && forall j | 0 <= j < k :: !func.body[j].FunctionDef?
  }

  /** A call of what the decorator is applied to. */
  predicate IsForward(func: Node, n: Node)
    requires func.FunctionDef?
  {
    n.Call? && n.func.Name? && n.func.id in ParameterNames(func)
  }

  ghost predicate IsFirstForward(func: Node, nodes: seq<Node>, call: Node)
    requires func.FunctionDef?
  {
    exists k: nat ::
      && k < |nodes| && nodes[k] == call && IsForward(func, call)
      && forall j | 0 <= j < k :: !IsForward(func, nodes[j])
  }

  predicate IsSanitizer(n: Node, sanitizers: set<string>) {
    && n.Call?
    && (match n.func
        case Name(id, _) => id in sanitizers
        case Attribute(_, attr) => attr in sanitizers
        case _ => "" in sanitizers)
  }

  predicate Positional(wrapper: Node)
    requires wrapper.FunctionDef?
  {
    wrapper.parameters.Arguments? ==> !wrapper.parameters.variadic && wrapper.parameters.kwarg.None?
  }

  /** The wrapper takes as many parameters as the function it wraps, hands over as many, and what it hands over at
      position `i` is a call of a sanitizer that reads no name but the wrapper's `i`-th parameter. */
  ghost predicate SanitizesAt(func: Node, params: seq<string>, sanitizers: set<string>, i: nat, wrapper: Node,
                              call: Node)
    requires func.FunctionDef?
  {
    && IsWrapper(func, wrapper) && Positional(wrapper) && IsFirstForward(func, Walk([wrapper]), call)
    && call.keywords == [] && |ParameterNames(wrapper)| == |params| && |call.args| == |params| && i < |params|
    && IsSanitizer(call.args[i], sanitizers)
    && forall x | ReadsName(call.args[i], x) :: x == ParameterNames(wrapper)[i]
  }

  ghost predicate Sanitizes(func: Node, params: seq<string>, sanitizers: set<string>, i: nat)
    requires func.FunctionDef?
  {
    exists wrapper, call :: SanitizesAt(func, params, sanitizers, i, wrapper, call)
  }

  lemma {:induction false} FirstFunctionIs(body: seq<Node>)
    ensures match FirstFunction(body)
            case None => forall j | 0 <= j < |body| :: !body[j].FunctionDef?
            case Some(f) => exists k: nat ::
              k < |body| && body[k] == f && forall j | 0 <= j < k :: !body[j].FunctionDef?
  {
    if body != [] && !body[0].FunctionDef? {
      FirstFunctionIs(body[1..]);
      assert forall j | 1 <= j < |body| :: body[j] == body[1..][j - 1];
      if FirstFunction(body).Some? {
        var k: nat :| k < |body[1..]| && body[1..][k] == FirstFunction(body).value
          && forall j | 0 <= j < k :: !body[1..][j].FunctionDef?;
        assert body[k + 1] == FirstFunction(body).value;
      }
    }
  }

  lemma {:induction false} FirstForwardIs(func: Node, nodes: seq<Node>)
    requires func.FunctionDef?
    ensures match FirstForward(nodes, set p | p in ParameterNames(func))
            case None => forall j | 0 <= j < |nodes| :: !IsForward(func, nodes[j])
            case Some(call) => IsFirstForward(func, nodes, call)
  {
    if nodes != [] && !IsForward(func, nodes[0]) {
      var rest := nodes[1..];
      FirstForwardIs(func, rest);
      assert forall j | 1 <= j < |nodes| :: nodes[j] == rest[j - 1];
      var found := FirstForward(rest, set p | p in ParameterNames(func));
      if found.Some? {
        var k: nat :| k < |rest| && rest[k] == found.value && IsForward(func, found.value)
          && forall j | 0 <= j < k :: !IsForward(func, rest[j]);
        assert nodes[k + 1] == found.value;
      }
    } else if nodes != [] {
      assert nodes[0] == FirstForward(nodes, set p | p in ParameterNames(func)).value;
    }
  }

  lemma OneWrapper(func: Node, one: Node, two: Node)
    requires func.FunctionDef? && IsWrapper(func, one) && IsWrapper(func, two)
    ensures one == two
  {
  }

  lemma OneFirstForward(func: Node, nodes: seq<Node>, one: Node, two: Node)
    requires func.FunctionDef? && IsFirstForward(func, nodes, one) && IsFirstForward(func, nodes, two)
    ensures one == two
  {
  }

  /** The recorded shape, read off the tree. */
  lemma SlotsAreSanitized(func: Node, params: seq<string>, sanitizers: set<string>, i: nat)
    requires func.FunctionDef?
    ensures WrapperOf(func).Some? && i in WrapperSlots(WrapperOf(func).value, params, sanitizers)
       <==> Sanitizes(func, params, sanitizers, i)
  {
    hide FirstForward, FirstFunction, Walk, IsFirstForward, IsWrapper, NameUses, ReadsName, IsSanitizer;
    FirstFunctionIs(func.body);
    var found := FirstFunction(func.body);
    if found == None {
      NoWrapper(func);
    } else {
      var wrapper := found.value;
      FoundIsWrapper(func, wrapper);
      forall other | IsWrapper(func, other) { OneWrapper(func, wrapper, other); }
      FirstForwardIs(func, Walk([wrapper]));
      var call := FirstForward(Walk([wrapper]), set p | p in ParameterNames(func));
      if call.Some? {
        forall other | IsFirstForward(func, Walk([wrapper]), other) {
          OneFirstForward(func, Walk([wrapper]), call.value, other);
        }
        if Positional(wrapper) && call.value.keywords == [] {
          ShapeSlots(wrapper, call.value, params, sanitizers, i);
          if i in WrapperSlots(WrapperOf(func).value, params, sanitizers) {
            assert SanitizesAt(func, params, sanitizers, i, wrapper, call.value);
          }
        }
      } else {
        NoFirstForward(func, Walk([wrapper]));
      }
    }
  }

  lemma NoWrapper(func: Node)
    requires func.FunctionDef? && forall j | 0 <= j < |func.body| :: !func.body[j].FunctionDef?
    ensures forall wrapper :: !IsWrapper(func, wrapper)
  {
  }

  lemma NoFirstForward(func: Node, nodes: seq<Node>)
    requires func.FunctionDef? && forall j | 0 <= j < |nodes| :: !IsForward(func, nodes[j])
    ensures forall call :: !IsFirstForward(func, nodes, call)
  {
  }

  lemma FoundIsWrapper(func: Node, wrapper: Node)
    requires func.FunctionDef? && wrapper.FunctionDef?
    requires exists k: nat ::
      k < |func.body| && func.body[k] == wrapper && forall j | 0 <= j < k :: !func.body[j].FunctionDef?
    ensures IsWrapper(func, wrapper)
  {
  }

  lemma ShapeSlots(wrapper: Node, call: Node, params: seq<string>, sanitizers: set<string>, i: nat)
    requires wrapper.FunctionDef? && call.Call?
    ensures
      var shape := WrapperShape(true, ParameterNames(wrapper), |call.args|,
                                seq(|call.args|, k requires 0 <= k < |call.args| => ForwardedOf(call.args[k])));
      i in WrapperSlots(shape, params, sanitizers) <==>
      && |ParameterNames(wrapper)| == |params| && |call.args| == |params| && i < |params|
      && IsSanitizer(call.args[i], sanitizers)
      && forall x | ReadsName(call.args[i], x) :: x == ParameterNames(wrapper)[i]
  {
    hide NameUses, ReadsName;
    if |ParameterNames(wrapper)| == |params| && |call.args| == |params| && i < |params| {
      var arg := call.args[i];
      forall x
        ensures x in NameUses(arg) <==> ReadsName(arg, x)
      {
        NameUsesIff(arg, x);
      }
    }
  }

  // ---------------------------------------------------------------- neutralised parameters

  /** Every contract's facts are those of a tree. */
  ghost predicate Harvested(prog: Program, trees: map<FuncId, Node>) {
    forall id | HasContract(prog, id) ::
      id in trees && trees[id].FunctionDef? && HarvestedFrom(FactsOf(prog, id), trees[id])
  }

  /** The decorator, a bare or dotted name, resolves to this function. */
  ghost predicate NamesDecorator(prog: Program, mod: string, deco: Node, d: FuncId) {
    && (deco.Name? || deco.Attribute?) && HasContract(prog, d)
    && var def := ResolveSymbol(prog.index, mod, if deco.Name? then deco.id else deco.attr);
       && def.Some? && def.value.kind in {PlainFunction, AsyncFunction} && def.value.name == d.qual
       && FileModule(prog.index, def.value.filePath) == Some(d.mod)
  }

  lemma DecoratorSlots(prog: Program, trees: map<FuncId, Node>, mod: string, deco: Node, params: seq<string>, i: nat)
    requires Harvested(prog, trees)
    ensures i in SlotsOfDecorator(prog, mod, DecoOf(deco), params) <==>
            exists d :: NamesDecorator(prog, mod, deco, d) && Sanitizes(trees[d], params, prog.knownSanitizers, i)
  {
    hide ResolveSymbol, FileModule, WrapperSlots, Sanitizes, WrapperOf, DottedPrefix;
    forall d | HasContract(prog, d) {
      SlotsAreSanitized(trees[d], params, prog.knownSanitizers, i);
    }
    if i in SlotsOfDecorator(prog, mod, DecoOf(deco), params) {
      var def := ResolveSymbol(prog.index, mod, DecoOf(deco).bare.value);
      var d := FuncId(FileModule(prog.index, def.value.filePath).value, def.value.name);
      assert NamesDecorator(prog, mod, deco, d);
    }
  }

  lemma {:induction false} DecoratorsSlots(prog: Program, trees: map<FuncId, Node>, mod: string, decos: seq<Node>,
                                           params: seq<string>, i: nat)
    requires Harvested(prog, trees)
    ensures i in SlotsOfDecorators(prog, mod, DecosOf(decos), params) <==>
            exists deco, d :: deco in decos && NamesDecorator(prog, mod, deco, d)
                              && Sanitizes(trees[d], params, prog.knownSanitizers, i)
    decreases |decos|
  {
    hide SlotsOfDecorator, DecoOf, NamesDecorator, Sanitizes, Harvested;
    if decos != [] {
      var front, last := decos[..|decos| - 1], decos[|decos| - 1];
      assert decos == front + [last];
      DecosOfLast(front, last);
      DecoratorsSlots(prog, trees, mod, front, params, i);
      DecoratorSlots(prog, trees, mod, last, params, i);
      NamedIsHarvested(prog, trees, mod);
    }
  }

  lemma NamedIsHarvested(prog: Program, trees: map<FuncId, Node>, mod: string)
    requires Harvested(prog, trees)
    ensures forall deco, d | NamesDecorator(prog, mod, deco, d) :: d in trees && trees[d].FunctionDef?
  {
    hide ResolveSymbol, FileModule, HarvestedFrom;
  }

  lemma {:induction false} DecosOfLast(front: seq<Node>, last: Node)
    ensures DecosOf(front + [last]) == DecosOf(front) + [DecoOf(last)]
  {
    hide DecoOf;
    if front == [] {
      assert front + [last] == [last] && [last][1..] == [];
    } else {
      assert (front + [last])[1..] == front[1..] + [last];
      DecosOfLast(front[1..], last);
    }
  }

  /** Which parameters are neutralised, exactly: one of the function's bare decorators resolves to a definition whose
      wrapper sanitizes that position. */
  lemma NeutralizedIff(prog: Program, trees: map<FuncId, Node>, id: FuncId, i: nat)
    requires Harvested(prog, trees) && HasContract(prog, id)
    ensures i in Neutralized(prog, id) <==>
            exists deco, d :: deco in trees[id].decorators && NamesDecorator(prog, id.mod, deco, d)
                              && Sanitizes(trees[d], ContractOf(prog, id).params, prog.knownSanitizers, i)
  {
    hide SlotsOfDecorators, NamesDecorator, Sanitizes, WrapperOf, DecosOf;
    var params := ContractOf(prog, id).params;
    NamedIsHarvested(prog, trees, id.mod);
    DecoratorsSlots(prog, trees, id.mod, trees[id].decorators, params, i);
    if params == [] {
      forall d | HasContract(prog, d)
        ensures !Sanitizes(trees[d], params, prog.knownSanitizers, i)
      {
        NothingToSanitize(trees[d], prog.knownSanitizers, i);
      }
      NamedHasContract(prog, id.mod);
    }
  }

  lemma NothingToSanitize(func: Node, sanitizers: set<string>, i: nat)
    requires func.FunctionDef?
    ensures !Sanitizes(func, [], sanitizers, i)
  {
  }

  lemma NamedHasContract(prog: Program, mod: string)
    ensures forall deco, d | NamesDecorator(prog, mod, deco, d) :: HasContract(prog, d)
  {
  }

  /** A decorator that hands every parameter over untouched stays transparent. */
  lemma UntouchedNeutralizesNothing(prog: Program, trees: map<FuncId, Node>, id: FuncId)
    requires Harvested(prog, trees) && HasContract(prog, id)
    requires forall deco, d, wrapper, call |
      && deco in trees[id].decorators && NamesDecorator(prog, id.mod, deco, d) && IsWrapper(trees[d], wrapper)
      && call in Walk([wrapper]) && IsForward(trees[d], call) :: forall arg | arg in call.args :: arg.Name?
    ensures Neutralized(prog, id) == {}
  {
    HasTree(prog, trees, id);
    hide NamesDecorator, IsWrapper, IsForward, Neutralized, Harvested, Walk, Sanitizes;
    NamedIsHarvested(prog, trees, id.mod);
    forall i
      ensures i !in Neutralized(prog, id)
    {
      NeutralizedIff(prog, trees, id, i);
      if deco, d :| deco in trees[id].decorators && NamesDecorator(prog, id.mod, deco, d)
                    && Sanitizes(trees[d], ContractOf(prog, id).params, prog.knownSanitizers, i) {
        UntouchedIsNotSanitized(trees[d], ContractOf(prog, id).params, prog.knownSanitizers, i);
        assert false;
      }
    }
  }

  lemma HasTree(prog: Program, trees: map<FuncId, Node>, id: FuncId)
    requires Harvested(prog, trees) && HasContract(prog, id)
    ensures id in trees && trees[id].FunctionDef?
  {
  }

  lemma UntouchedIsNotSanitized(func: Node, params: seq<string>, sanitizers: set<string>, i: nat)
    requires func.FunctionDef?
    requires forall wrapper, call | IsWrapper(func, wrapper) && call in Walk([wrapper]) && IsForward(func, call) ::
      forall arg | arg in call.args :: arg.Name?
    ensures !Sanitizes(func, params, sanitizers, i)
  {
    hide IsWrapper, Walk, ReadsName;
    forall wrapper, call
      ensures !SanitizesAt(func, params, sanitizers, i, wrapper, call)
    {
      if SanitizesAt(func, params, sanitizers, i, wrapper, call) {
        SanitizedIsCalled(func, params, sanitizers, i, wrapper, call);
        assert false;
      }
    }
  }

  lemma SanitizedIsCalled(func: Node, params: seq<string>, sanitizers: set<string>, i: nat, wrapper: Node, call: Node)
    requires func.FunctionDef? && SanitizesAt(func, params, sanitizers, i, wrapper, call)
    ensures IsWrapper(func, wrapper) && call in Walk([wrapper]) && IsForward(func, call)
    ensures i < |call.args| && call.args[i].Call? && call.args[i] in call.args
  {
  }

  // ---------------------------------------------------------------- what a neutralised parameter is handed

  /** In statement `k` of the wrapper the wrapped function is called with an argument at position `i`. */
  ghost predicate ForwardsAt(func: Node, wrapper: Node, k: nat, call: Node, i: nat)
    requires func.FunctionDef? && wrapper.FunctionDef?
  {
    k < |wrapper.body| && call in Below([wrapper.body[k]]) && IsForward(func, call) && i < |call.args|
  }

  /** The value handed over at this call was made by a sanitizer call evaluated in this statement or before. */
  ghost predicate HandsMade<V(!new)>(body: seq<Node>, sanitizers: set<string>, k: nat, arg: Node, sem: Semantics<V>,
                                     env: Env<V>)
    requires k < |body|
  {
    exists j: nat, made :: j <= k && made in Below([body[j]]) && IsSanitizer(made, sanitizers)
      && Eval(arg, None, sem, EnvAt(body, k, None, sem, env)) == Eval(made, None, sem, EnvAt(body, j, None, sem, env))
  }

  /** Copies undone, what every call of the wrapped function hands over at position `i` is a sanitizer call. */
  ghost predicate AllSanitized(func: Node, wrapper: Node, sanitizers: set<string>, i: nat)
    requires func.FunctionDef? && wrapper.FunctionDef?
  {
    forall k: nat, call | ForwardsAt(func, wrapper, k, call, i) ::
      IsSanitizer(Origin(wrapper.body, k, call.args[i]).1, sanitizers)
  }

  lemma ArgumentIsBelow(stmt: Node, call: Node, i: nat)
    requires call.Call? && i < |call.args| && call in Below([stmt])
    ensures call.args[i] in Below([stmt])
  {
    assert call.args[i] in Children(call);
    BelowDown([stmt], call, call.args[i]);
  }

  lemma {:induction false} BelowDown(ns: seq<Node>, n: Node, child: Node)
    requires n in Below(ns) && child in Children(n)
    ensures child in Below(ns)
    decreases Forest(ns)
  {
    ForestOfChildren(ns[0]);
    if n == ns[0] {
      BelowMember(Children(n), child);
      BelowOne(child);
    } else if n in Below(Children(ns[0])) {
      BelowDown(Children(ns[0]), n, child);
    } else {
      BelowDown(ns[1..], n, child);
    }
  }

  lemma ExpressionIsBelow(stmt: Node, e: Node)
    requires e in Expressions(stmt)
    ensures e in Below([stmt])
  {
    BelowOne(stmt);
    assert e in Children(stmt);
    BelowMember(Children(stmt), e);
    BelowOne(e);
  }

  lemma SanitizedHandsMade<V(!new)>(body: seq<Node>, sanitizers: set<string>, k: nat, arg: Node, sem: Semantics<V>,
                                    env: Env<V>)
    requires k < |body| && arg in Below([body[k]]) && IsSanitizer(Origin(body, k, arg).1, sanitizers)
    ensures HandsMade(body, sanitizers, k, arg, sem, env)
  {
    hide Eval, EnvAt, Origin, IsSanitizer, Below;
    var o := Origin(body, k, arg);
    OriginValue(body, k, arg, None, sem, env);
    if o != (k, arg) {
      ExpressionIsBelow(body[o.0], o.1);
    }
    assert o.1 in Below([body[o.0]]);
  }

  lemma UnsanitizedShows(body: seq<Node>, sanitizers: set<string>, k: nat, arg: Node)
    requires k < |body| && !IsSanitizer(Origin(body, k, arg).1, sanitizers)
    ensures !HandsMade(body, sanitizers, k, arg, FREE, PLAIN)
  {
    hide Eval, EnvAt, Origin, LastAssigned, Below;
    var o := Origin(body, k, arg);
    OriginValue(body, k, arg, None, FREE, PLAIN);
    TermOf(o.1, None, EnvAt(body, o.0, None, FREE, PLAIN));
    if o.1.Name? {
      ValueOfName(body, o.0, None, FREE, PLAIN, o.1.id);
    }
    forall j: nat, made | j <= k && made in Below([body[j]]) && IsSanitizer(made, sanitizers)
      ensures Eval(arg, None, FREE, EnvAt(body, k, None, FREE, PLAIN))
              != Eval(made, None, FREE, EnvAt(body, j, None, FREE, PLAIN))
    {
      TermOf(made, None, EnvAt(body, j, None, FREE, PLAIN));
    }
  }

  /** Exactly when the wrapped function is handed nothing but sanitizers' values at a position, whatever the
      expressions of the wrapper compute: every call of it hands over a sanitizer call there.  The code looks at
      the first call only. */
  lemma HandsMadeIff(func: Node, wrapper: Node, sanitizers: set<string>, i: nat)
    requires func.FunctionDef? && wrapper.FunctionDef? && StraightLine(wrapper.body, None)
    ensures (forall k: nat, call, sem: Semantics<Term>, env: Env<Term> | ForwardsAt(func, wrapper, k, call, i) ::
               HandsMade(wrapper.body, sanitizers, k, call.args[i], sem, env))
       <==> AllSanitized(func, wrapper, sanitizers, i)
  {
    hide HandsMade, IsSanitizer, Origin, Below, StraightLine;
    if AllSanitized(func, wrapper, sanitizers, i) {
      forall k: nat, call, sem: Semantics<Term>, env: Env<Term> | ForwardsAt(func, wrapper, k, call, i)
        ensures HandsMade(wrapper.body, sanitizers, k, call.args[i], sem, env)
      {
        ArgumentIsBelow(wrapper.body[k], call, i);
        SanitizedHandsMade(wrapper.body, sanitizers, k, call.args[i], sem, env);
      }
    } else {
      var k: nat, call :| ForwardsAt(func, wrapper, k, call, i)
        && !IsSanitizer(Origin(wrapper.body, k, call.args[i]).1, sanitizers);
      UnsanitizedShows(wrapper.body, sanitizers, k, call.args[i]);
    }
  }

  /** The call the code looks at hands over a sanitizer's value at every position it neutralises. */
  lemma FirstForwardHandsMade<V(!new)>(func: Node, params: seq<string>, sanitizers: set<string>, i: nat, wrapper: Node,
                                       call: Node, k: nat, sem: Semantics<V>, env: Env<V>)
    requires func.FunctionDef? && SanitizesAt(func, params, sanitizers, i, wrapper, call)
    requires ForwardsAt(func, wrapper, k, call, i)
    ensures HandsMade(wrapper.body, sanitizers, k, call.args[i], sem, env)
  {
    hide IsFirstForward, Walk, ReadsName, Below;
    ArgumentIsBelow(wrapper.body[k], call, i);
    assert Origin(wrapper.body, k, call.args[i]) == (k, call.args[i]);
    SanitizedHandsMade(wrapper.body, sanitizers, k, call.args[i], sem, env);
  }

  // ---------------------------------------------------------------- a second call that is raw

  const Q: Node := Name("q", true)
  const CLEANED: Node := Call(Name("int", true), [Q], [], 3)
  const FIRST_CALL: Node := Call(Name("f", true), [CLEANED], [], 3)
  const SECOND_CALL: Node := Call(Name("f", true), [Q], [], 4)

  /** `def w(q): f(int(q)); return f(q)` */
  const WRAPPER: Node :=
    FunctionDef("w", Arguments(["q"], false, None, []), [ExprStmt(FIRST_CALL), Return([SECOND_CALL])], [])

  /** `def checked(f):` with that wrapper */
  const CHECKED: Node :=
    FunctionDef("checked", Arguments(["f"], false, None, []), [WRAPPER, Return([Name("w", true)])], [])

  lemma WrapperWalk() returns (later: seq<Node>)
    ensures Walk([WRAPPER])
         == [WRAPPER, WRAPPER.parameters, WRAPPER.body[0], WRAPPER.body[1], FIRST_CALL] + later
  {
    var p, one, two := WRAPPER.parameters, WRAPPER.body[0], WRAPPER.body[1];
    assert Children(WRAPPER) == [p, one, two] && Children(p) == [];
    assert Children(one) == [FIRST_CALL] && Children(two) == [SECOND_CALL];
    later := WalkOfTwo(WRAPPER, p, one, two, FIRST_CALL, SECOND_CALL);
  }

  lemma WalkOfTwo(root: Node, p: Node, one: Node, two: Node, a: Node, c: Node) returns (later: seq<Node>)
    requires Children(root) == [p, one, two] && Children(p) == [] && Children(one) == [a] && Children(two) == [c]
    ensures Walk([root]) == [root, p, one, two, a] + later
  {
    hide Walk, Children;
    assert [root][1..] + [p, one, two] == [p, one, two];
    WalkFirst([root], root, [p, one, two]);
    assert [p, one, two][1..] + [] == [one, two];
    WalkFirst([p, one, two], p, [one, two]);
    assert [one, two][1..] + [a] == [two, a];
    WalkFirst([one, two], one, [two, a]);
    assert [two, a][1..] + [c] == [a, c];
    WalkFirst([two, a], two, [a, c]);
    later := Walk([a, c][1..] + Children(a));
    WalkFirst([a, c], a, [a, c][1..] + Children(a));
    assert [root] + ([p] + ([one] + ([two] + ([a] + later)))) == [root, p, one, two, a] + later;
  }

  lemma CleanedReadsQ()
    ensures forall x | ReadsName(CLEANED, x) :: x == "q"
  {
    forall x | ReadsName(CLEANED, x)
      ensures x == "q"
    {
      NameUsesIff(CLEANED, x);
      assert NameUsesOf(CLEANED, [Q]) == {"q"} by { assert [Q][1..] == []; }
      assert NameUses(CLEANED) == {"q"};
    }
  }

  /** The parameter counts as neutralised, and the second call hands the raw value over. */
  lemma SecondCallIsRaw()
    ensures Sanitizes(CHECKED, ["q"], {"int"}, 0) && IsWrapper(CHECKED, WRAPPER)
    ensures StraightLine(WRAPPER.body, None) && !AllSanitized(CHECKED, WRAPPER, {"int"}, 0)
  {
    hide ReadsName;
    assert CHECKED.body[0] == WRAPPER && IsWrapper(CHECKED, WRAPPER);
    var later := WrapperWalk();
    var nodes := Walk([WRAPPER]);
    assert nodes[4] == FIRST_CALL && IsFirstForward(CHECKED, nodes, FIRST_CALL);
    CleanedReadsQ();
    assert SanitizesAt(CHECKED, ["q"], {"int"}, 0, WRAPPER, FIRST_CALL);
    SecondIsForward();
    assert Origin(WRAPPER.body, 1, Q) == (1, Q) by { assert LastAssigned(WRAPPER.body, 1, "q") == None; }
    assert !IsSanitizer(Origin(WRAPPER.body, 1, SECOND_CALL.args[0]).1, {"int"});
    WrapperIsSimple();
  }

  lemma SecondIsForward()
    ensures ForwardsAt(CHECKED, WRAPPER, 1, SECOND_CALL, 0)
  {
    BelowOne(WRAPPER.body[1]);
    BelowOne(SECOND_CALL);
    assert Children(WRAPPER.body[1]) == [SECOND_CALL];
  }

  lemma WrapperExpressions()
    ensures Below([CLEANED]) == {CLEANED, Name("int", true), Q}
    ensures Below([FIRST_CALL]) == {FIRST_CALL, Name("f", true)} + Below([CLEANED])
    ensures Below([SECOND_CALL]) == {SECOND_CALL, Name("f", true), Q}
  {
    hide Below;
    BelowName("f", true);
    BelowName("int", true);
    BelowName("q", true);
    assert Children(CLEANED) == [Name("int", true), Q] && Children(FIRST_CALL) == [Name("f", true), CLEANED];
    assert Children(SECOND_CALL) == [Name("f", true), Q];
    BelowPair(CLEANED, Name("int", true), Q);
    BelowPair(FIRST_CALL, Name("f", true), CLEANED);
    BelowPair(SECOND_CALL, Name("f", true), Q);
  }

  lemma WrapperIsSimple()
    ensures StraightLine(WRAPPER.body, None)
  {
    WrapperExpressions();
    hide Below, Reads;
    assert Plain(FIRST_CALL) && Plain(SECOND_CALL);
  }
}
