/** What a summary means: straight-line bodies run on values, and two runs that agree where the
    summary says they may differ nowhere else. */
module Dataflow {
  import opened Options
  import opened PyAst
  import opened Facts
  import opened Summarizer
  import opened Walks

  /** Local variables and keyword slots by name. */
  type Env<!V> = string -> V

  /** What any expression other than a variable or slot read computes from its parts: an arbitrary
      deterministic function of the expression and the values of its operands. */
  type Semantics<!V> = (Node, seq<V>) -> V

  /** The parts of an expression that are evaluated.  A slot read does not evaluate its container. */
  function Operands(n: Node, container: Option<string>): (cs: seq<Node>)
    ensures forall i | 0 <= i < |cs| :: cs[i] < n
  {
    if KwargSlot(n, container) == None then Children(n)
    else match n
      case Subscript(_, slice) => [slice]
      case Call(_, args, keywords, _) => args + keywords
      case _ => []
  }

  function Eval<V>(n: Node, container: Option<string>, sem: Semantics<V>, env: Env<V>): V
    decreases n, 1
  {
    if n.Name? then env(n.id)
    else
      var values := Values(n, Operands(n, container), container, sem, env);
      var slot := KwargSlot(n, container);
      if slot.Some? then sem(n, [env(slot.value)] + values) else sem(n, values)
  }

  function Values<V>(parent: Node, cs: seq<Node>, container: Option<string>, sem: Semantics<V>,
                     env: Env<V>): (vs: seq<V>)
    requires forall i | 0 <= i < |cs| :: cs[i] < parent
    ensures |vs| == |cs| && forall i | 0 <= i < |cs| :: vs[i] == Eval(cs[i], container, sem, env)
    decreases parent, 0
  {
    seq(|cs|, i requires 0 <= i < |cs| => Eval(cs[i], container, sem, env))
  }

  /** The names an evaluation reads. */
  ghost function Reads(n: Node, container: Option<string>): set<string>
    decreases n
  {
    if n.Name? then {n.id}
    else
      var cs := Operands(n, container);
      (set i, x | 0 <= i < |cs| && x in Reads(cs[i], container) :: x)
      + var slot := KwargSlot(n, container); if slot.Some? then {slot.value} else {}
  }

  lemma {:induction false} EvalDependsOnReads<V>(n: Node, container: Option<string>, sem: Semantics<V>, one: Env<V>,
                                                 two: Env<V>)
    requires forall x | x in Reads(n, container) :: one(x) == two(x)
    ensures Eval(n, container, sem, one) == Eval(n, container, sem, two)
    decreases n
  {
    if !n.Name? {
      var cs := Operands(n, container);
      forall i | 0 <= i < |cs|
        ensures Eval(cs[i], container, sem, one) == Eval(cs[i], container, sem, two)
      {
        forall x | x in Reads(cs[i], container)
          ensures x in Reads(n, container)
        {
        }
        EvalDependsOnReads(cs[i], container, sem, one, two);
      }
      assert Values(n, cs, container, sem, one) == Values(n, cs, container, sem, two);
    }
  }

  /** Every name read is spelt by some node of the expression. */
  ghost predicate Spelt(ns: set<Node>, container: Option<string>, x: string) {
    exists n | n in ns :: (n.Name? && n.id == x) || KwargSlot(n, container) == Some(x)
  }

  lemma {:induction false} ReadsAreSpelt(n: Node, container: Option<string>, x: string)
    requires x in Reads(n, container)
    ensures Spelt(Below([n]), container, x)
    decreases n
  {
    assert n in Below([n]);
    if !n.Name? && KwargSlot(n, container) != Some(x) {
      var cs := Operands(n, container);
      var i :| 0 <= i < |cs| && x in Reads(cs[i], container);
      ReadsAreSpelt(cs[i], container, x);
      OperandIsChild(n, container, i);
    }
  }

  lemma OperandIsChild(n: Node, container: Option<string>, i: nat)
    requires i < |Operands(n, container)|
    ensures Below([Operands(n, container)[i]]) <= Below([n])
  {
    var c := Operands(n, container)[i];
    assert c in Operands(n, container);
    assert c in Children(n);
    BelowChild(n, c);
  }

  /** The summariser's reference set covers what an evaluation reads. */
  lemma ReadsAreReferenced(expr: Node, alias: Aliases, container: Option<string>, x: string)
    requires x in Reads(expr, container) && x in alias
    ensures alias[x] <= Referenced(expr, alias, container)
  {
    ReadsAreSpelt(expr, container, x);
    WalkVisitsBelow([expr]);
    hide Walk, KwargSlot;
    var n :| n in Below([expr]) && ((n.Name? && n.id == x) || KwargSlot(n, container) == Some(x));
    NameHasNoSlot(n, container);
    assert NodeParams(n, alias, container) == alias[x];
  }

  lemma NameHasNoSlot(n: Node, container: Option<string>)
    ensures n.Name? ==> KwargSlot(n, container) == None
  {
  }

  // ---------------------------------------------------------------- straight-line bodies

  /** No statement, lambda, comprehension, assignment expression or suspension inside. */
  ghost predicate Plain(e: Node) {
    forall n | n in Below([e]) :: IsInsideExpression(n) && !BindsOrSuspends(n)
  }

  predicate BindsOrSuspends(n: Node) {
    n.Lambda? || n.Arguments? || n.Binding? || n.Clause? || n.Suspension?
  }

  function Expressions(stmt: Node): seq<Node> {
    match stmt
    case Assign(_, value) => [value]
    case Return(results) => results
    case ExprStmt(value) => [value]
    case _ => []
  }

  /** `x = e`, `return e`, `return` or an expression statement.  A `**kwargs` mapping is read only
      through literal keys. */
  ghost predicate Simple(stmt: Node, container: Option<string>) {
    && (|| (stmt.Assign? && forall t | t in stmt.targets :: t.Name?)
        || (stmt.Return? && |stmt.results| <= 1)
        || stmt.ExprStmt?)
    && forall e | e in Expressions(stmt) :: Plain(e) && forall x | x in Reads(e, container) :: Some(x) != container
  }

  ghost predicate StraightLine(body: seq<Node>, container: Option<string>) {
    forall stmt | stmt in body :: Simple(stmt, container)
  }

  function EnvAfter<V>(stmt: Node, container: Option<string>, sem: Semantics<V>, env: Env<V>): Env<V> {
    if stmt.Assign? then
      var v := Eval(stmt.value, container, sem, env);
      x => if x in TargetNames(stmt.targets) then v else env(x)
    else env
  }

  function EnvAt<V>(body: seq<Node>, k: nat, container: Option<string>, sem: Semantics<V>, env: Env<V>): Env<V>
    requires k <= |body|
  {
    if k == 0 then env else EnvAfter(body[k - 1], container, sem, EnvAt(body, k - 1, container, sem, env))
  }

  /** The statement the body returns from; the length of the body if it falls off the end. */
  function FirstReturn(body: seq<Node>): (k: nat)
    ensures k <= |body| && (k < |body| ==> body[k].Return?)
  {
    if body == [] || body[0].Return? then 0 else 1 + FirstReturn(body[1..])
  }

  function Result<V>(body: seq<Node>, container: Option<string>, sem: Semantics<V>, env: Env<V>): Option<V> {
    var k := FirstReturn(body);
    if k == |body| || body[k].results == [] then None
    else Some(Eval(body[k].results[0], container, sem, EnvAt(body, k, container, sem, env)))
  }

  // ---------------------------------------------------------------- the sweep, statement by statement

  /** Nothing the sweep records is ever dropped. */
  ghost predicate Keeps(before: Sweep, after: Sweep) {
    before.tainted <= after.tainted && before.sinks <= after.sinks
  }

  lemma {:induction false} StepAllKeeps(sig: Signature, nodes: seq<Node>, s: Sweep)
    ensures Keeps(s, StepAll(sig, nodes, s))
  {
    hide Referenced, Extend, SinkEdges, IsSanitizerCall;
    if nodes != [] {
      StepAllKeeps(sig, nodes[1..], Step(sig, nodes[0], s));
    }
  }

  lemma {:induction false} SweepBodyKeeps(sig: Signature, body: seq<Node>, s: Sweep)
    ensures Keeps(s, SweepBody(sig, body, s))
  {
    hide StepAll, Walk;
    if body != [] {
      StepAllKeeps(sig, Walk([body[0]]), s);
      SweepBodyKeeps(sig, body[1..], StepAll(sig, Walk([body[0]]), s));
    }
  }

  lemma {:induction false} SweepBodySplit(sig: Signature, a: seq<Node>, b: seq<Node>, s: Sweep)
    ensures SweepBody(sig, a + b, s) == SweepBody(sig, b, SweepBody(sig, a, s))
  {
    hide StepAll, Walk;
    if a == [] {
      assert a + b == b;
    } else {
      assert (a + b)[1..] == a[1..] + b;
      SweepBodySplit(sig, a[1..], b, StepAll(sig, Walk([a[0]]), s));
    }
  }

  /** Expression nodes change no alias, and every sink call among them records its edges. */
  lemma {:induction false} PlainNodes(sig: Signature, nodes: seq<Node>, s: Sweep)
    requires forall n | n in nodes :: !n.Assign? && !n.Return?
    ensures StepAll(sig, nodes, s).alias == s.alias
    ensures forall call, e | call in nodes && call.Call? && e in SinkEdges(sig, s.alias, call) ::
      e in StepAll(sig, nodes, s).sinks
  {
    hide SinkEdges;
    if nodes != [] {
      var s' := Step(sig, nodes[0], s);
      PlainNodes(sig, nodes[1..], s');
      StepAllKeeps(sig, nodes[1..], s');
      forall call, e | call in nodes && call.Call? && e in SinkEdges(sig, s.alias, call)
        ensures e in StepAll(sig, nodes, s).sinks
      {
        if call == nodes[0] {
          assert e in s'.sinks;
          assert s'.sinks <= StepAll(sig, nodes[1..], s').sinks;
        }
      }
    }
  }

  lemma WalkStatement(stmt: Node)
    ensures Walk([stmt]) == [stmt] + Walk(Children(stmt))
  {
    assert [stmt][1..] + Children(stmt) == Children(stmt);
  }

  lemma WalkFirst(queue: seq<Node>, n: Node, next: seq<Node>)
    requires queue != [] && queue[0] == n && next == queue[1..] + Children(n)
    ensures Walk(queue) == [n] + Walk(next)
  {
    hide Children;
  }

  lemma {:induction false} WalkLeaves(queue: seq<Node>)
    requires forall n | n in queue :: Children(n) == []
    ensures Walk(queue) == queue
  {
    hide Children;
    if queue != [] {
      assert queue[1..] + [] == queue[1..];
      WalkFirst(queue, queue[0], queue[1..]);
      WalkLeaves(queue[1..]);
    }
  }

  lemma {:induction false} BelowIsBelowOne(ns: seq<Node>, x: Node)
    requires x in Below(ns)
    ensures exists n :: n in ns && x in Below([n])
  {
    assert [ns[0]][1..] == [];
    if x !in Below([ns[0]]) {
      BelowIsBelowOne(ns[1..], x);
    }
  }

  lemma BelowLeaf(n: Node)
    ensures Children(n) == [] ==> Below([n]) == {n}
    ensures n.Attribute? && n.value.Name? ==> Below([n]) == {n, n.value}
  {
    assert [n][1..] == [] && Below([]) == {};
    if n.Attribute? {
      assert [n.value][1..] == [];
    }
  }

  /** The expression nodes of a simple statement. */
  lemma SimpleNodes(stmt: Node, container: Option<string>)
    requires Simple(stmt, container)
    ensures forall n | n in Walk(Children(stmt)) :: !n.Assign? && !n.Return?
  {
    hide Below, Walk, Reads;
    WalkVisitsBelow(Children(stmt));
    forall n | n in Walk(Children(stmt))
      ensures !n.Assign? && !n.Return?
    {
      BelowIsBelowOne(Children(stmt), n);
      var c :| c in Children(stmt) && n in Below([c]);
      BelowLeaf(c);
      assert c in Expressions(stmt) ==> Plain(c);
    }
  }

  /** The aliases after a statement, and the edges of its calls. */
  lemma SweepStatement(sig: Signature, stmt: Node, s: Sweep)
    requires Simple(stmt, sig.container)
    ensures StepAll(sig, Walk([stmt]), s).alias == Step(sig, stmt, s).alias
    ensures Step(sig, stmt, s).tainted <= StepAll(sig, Walk([stmt]), s).tainted
    ensures forall call, e |
      call in Walk([stmt]) && call.Call? && e in SinkEdges(sig, Step(sig, stmt, s).alias, call) ::
      e in StepAll(sig, Walk([stmt]), s).sinks
  {
    hide Step, SinkEdges, Walk, Children;
    WalkStatement(stmt);
    var rest := Walk(Children(stmt));
    SimpleNodes(stmt, sig.container);
    assert Walk([stmt])[1..] == rest;
    var s' := Step(sig, stmt, s);
    PlainNodes(sig, rest, s');
    StepAllKeeps(sig, rest, s');
  }

  // ---------------------------------------------------------------- agreement of two runs

  /** Two environments agree on every name whose aliases are all agreed parameters. */
  ghost predicate Agree<V(!new)>(container: Option<string>, agreed: set<nat>, alias: Aliases, one: Env<V>,
                                 two: Env<V>) {
    forall x | Some(x) != container && (x in alias ==> alias[x] <= agreed) :: one(x) == two(x)
  }

  /** An expression that refers only to agreed parameters has the same value in both runs. */
  lemma SameValue<V(!new)>(e: Node, container: Option<string>, sem: Semantics<V>, agreed: set<nat>, alias: Aliases,
                           one: Env<V>, two: Env<V>)
    requires Agree(container, agreed, alias, one, two)
    requires forall x | x in Reads(e, container) :: Some(x) != container
    requires Referenced(e, alias, container) <= agreed
    ensures Eval(e, container, sem, one) == Eval(e, container, sem, two)
  {
    hide Reads, Referenced, Eval;
    forall x | x in Reads(e, container)
      ensures one(x) == two(x)
    {
      if x in alias { ReadsAreReferenced(e, alias, container, x); }
    }
    EvalDependsOnReads(e, container, sem, one, two);
  }

  lemma {:induction false} ExtendAdds(alias: Aliases, names: seq<string>, params: set<nat>)
    ensures var wider := Extend(alias, names, params);
      && (forall x | x !in names :: (x in wider <==> x in alias) && (x in alias ==> wider[x] == alias[x]))
      && (forall x | x in names :: x in wider && params <= wider[x])
      && (forall x | x in alias :: x in wider && alias[x] <= wider[x])
    decreases |names|
  {
    if names != [] {
      ExtendAdds(alias, names[..|names| - 1], params);
      assert forall x :: x in names <==> x in names[..|names| - 1] || x == names[|names| - 1];
    }
  }

  /** Weak updates keep the agreement: a stale alias can only ask for more. */
  lemma AgreeAfter<V(!new)>(sig: Signature, sem: Semantics<V>, agreed: set<nat>, stmt: Node, s: Sweep, one: Env<V>,
                            two: Env<V>)
    requires Simple(stmt, sig.container) && Agree(sig.container, agreed, s.alias, one, two)
    ensures Agree(sig.container, agreed, Step(sig, stmt, s).alias,
                  EnvAfter(stmt, sig.container, sem, one), EnvAfter(stmt, sig.container, sem, two))
  {
    hide Reads, Referenced, Eval, IsSanitizerCall, Extend, Plain;
    if stmt.Assign? {
      var names := TargetNames(stmt.targets);
      var found := Referenced(stmt.value, s.alias, sig.container);
      ExtendAdds(s.alias, names, found);
      assert stmt.value in Expressions(stmt);
      var one', two' := EnvAfter(stmt, sig.container, sem, one), EnvAfter(stmt, sig.container, sem, two);
      var alias' := Step(sig, stmt, s).alias;
      forall x | Some(x) != sig.container && (x in alias' ==> alias'[x] <= agreed)
        ensures one'(x) == two'(x)
      {
        if x in names {
          assert found <= agreed;
          SameValue(stmt.value, sig.container, sem, agreed, s.alias, one, two);
        }
      }
    }
  }

  /** The agreement holds before every statement of a straight-line body. */
  lemma {:induction false} AgreeAt<V(!new)>(sig: Signature, sem: Semantics<V>, agreed: set<nat>, body: seq<Node>,
                                            k: nat, one: Env<V>, two: Env<V>)
    requires StraightLine(body, sig.container) && k <= |body|
    requires Agree(sig.container, agreed, InitialAliases(sig.params), one, two)
    ensures Agree(sig.container, agreed, Swept(sig, body[..k]).alias,
                  EnvAt(body, k, sig.container, sem, one), EnvAt(body, k, sig.container, sem, two))
  {
    hide Step, StepAll, Walk, EnvAfter, Simple, InitialAliases;
    if k > 0 {
      AgreeAt(sig, sem, agreed, body, k - 1, one, two);
      var s := Swept(sig, body[..k - 1]);
      SweptNext(sig, body, k - 1);
      SweepStatement(sig, body[k - 1], s);
      AgreeAfter(sig, sem, agreed, body[k - 1], s,
                 EnvAt(body, k - 1, sig.container, sem, one), EnvAt(body, k - 1, sig.container, sem, two));
    }
  }

  lemma SweptNext(sig: Signature, body: seq<Node>, k: nat)
    requires k < |body|
    ensures Swept(sig, body[..k + 1]) == StepAll(sig, Walk([body[k]]), Swept(sig, body[..k]))
    ensures Keeps(Swept(sig, body[..k + 1]), Swept(sig, body))
  {
    hide StepAll, Walk;
    assert body[..k + 1] == body[..k] + [body[k]];
    SweepBodySplit(sig, body[..k], [body[k]], Start(sig));
    assert [body[k]][1..] == [];
    assert body == body[..k + 1] + body[k + 1..];
    SweepBodySplit(sig, body[..k + 1], body[k + 1..], Start(sig));
    SweepBodyKeeps(sig, body[k + 1..], Swept(sig, body[..k + 1]));
  }

  lemma {:induction false} InitialAliasesAre(params: seq<string>)
    ensures var alias := InitialAliases(params);
      && (forall x :: x in alias <==> x in params)
      && forall x | x in alias :: exists i: nat | i < |params| :: alias[x] == {i} && params[i] == x
    decreases |params|
  {
    if params != [] {
      var last := |params| - 1;
      var front := params[..last];
      InitialAliasesAre(front);
      forall x | x in InitialAliases(params)
        ensures exists i: nat | i < |params| :: InitialAliases(params)[x] == {i} && params[i] == x
      {
        if x != params[last] {
          assert x in InitialAliases(front);
          var i: nat :| i < |front| && InitialAliases(front)[x] == {i} && front[i] == x;
          assert params[i] == x;
        }
      }
      assert forall x :: x in params <==> x in params[..last] || x == params[last];
    }
  }

  /** The parameters on which two calls of the function agree. */
  ghost function Agreed<V(!new)>(sig: Signature, one: Env<V>, two: Env<V>): set<nat> {
    set i: nat | i < |sig.params| && one(sig.params[i]) == two(sig.params[i])
  }

  /** Two calls of the function: only its parameters may differ, and with them the mapping that
      holds the keyword ones. */
  ghost predicate SameOutside<V(!new)>(sig: Signature, one: Env<V>, two: Env<V>) {
    forall x | x !in sig.params && Some(x) != sig.container :: one(x) == two(x)
  }

  lemma AgreeInitially<V(!new)>(sig: Signature, one: Env<V>, two: Env<V>)
    requires SameOutside(sig, one, two)
    ensures Agree(sig.container, Agreed(sig, one, two), InitialAliases(sig.params), one, two)
  {
    InitialAliasesAre(sig.params);
    hide InitialAliases;
    var alias := InitialAliases(sig.params);
    forall x | Some(x) != sig.container && (x in alias ==> alias[x] <= Agreed(sig, one, two))
      ensures one(x) == two(x)
    {
      if x in alias {
        var i: nat :| i < |sig.params| && alias[x] == {i} && sig.params[i] == x;
        assert i in alias[x];
      }
    }
  }

  // ---------------------------------------------------------------- the two soundness results

  /** Non-interference: two calls that agree on the parameters in `tainted_returns` return equal
      values. */
  lemma ReturnIsNonInterfering<V(!new)>(sig: Signature, body: seq<Node>, sem: Semantics<V>, one: Env<V>, two: Env<V>)
    requires StraightLine(body, sig.container) && SameOutside(sig, one, two)
    requires forall i: nat | i in Swept(sig, body).tainted :: i in Agreed(sig, one, two)
    ensures Result(body, sig.container, sem, one) == Result(body, sig.container, sem, two)
  {
    hide Step, StepAll, SweepBody, Walk, InitialAliases, Agree, Referenced, Eval, Reads, Agreed, Plain;
    var k := FirstReturn(body);
    if k < |body| && body[k].results != [] {
      var agreed := Agreed(sig, one, two);
      AgreeInitially(sig, one, two);
      AgreeAt(sig, sem, agreed, body, k, one, two);
      var s, e := Swept(sig, body[..k]), body[k].results[0];
      SweptNext(sig, body, k);
      SweepStatement(sig, body[k], s);
      ReturnTaints(sig, body[k], s);
      assert Simple(body[k], sig.container) && e in Expressions(body[k]);
      SameValue(e, sig.container, sem, agreed, s.alias,
                EnvAt(body, k, sig.container, sem, one), EnvAt(body, k, sig.container, sem, two));
    }
  }

  lemma ReturnTaints(sig: Signature, stmt: Node, s: Sweep)
    requires stmt.Return? && stmt.results != []
    ensures Referenced(stmt.results[0], s.alias, sig.container) <= Step(sig, stmt, s).tainted
  {
  }

  lemma AliasesGrow(sig: Signature, stmt: Node, s: Sweep, expr: Node)
    ensures Referenced(expr, s.alias, sig.container) <= Referenced(expr, Step(sig, stmt, s).alias, sig.container)
  {
    hide Walk, SinkEdges, KwargSlot, IsSanitizerCall;
    var wider := Step(sig, stmt, s).alias;
    if stmt.Assign? {
      ExtendAdds(s.alias, TargetNames(stmt.targets), Referenced(stmt.value, s.alias, sig.container));
    }
    hide Step;
    assert forall x | x in s.alias :: x in wider && s.alias[x] <= wider[x];
    forall n, i | n in Walk([expr]) && i in NodeParams(n, s.alias, sig.container)
      ensures i in NodeParams(n, wider, sig.container)
    {
      NameHasNoSlot(n, sig.container);
    }
  }

  lemma KeptSinks(before: Sweep, after: Sweep, e: Edge)
    requires Keeps(before, after) && e in before.sinks
    ensures e in after.sinks
  {
  }

  /** Aliases name parameters. */
  ghost predicate InRange(sig: Signature, alias: Aliases) {
    forall x, i | x in alias && i in alias[x] :: i < |sig.params|
  }

  lemma ReferencedInRange(sig: Signature, alias: Aliases, expr: Node)
    requires InRange(sig, alias)
    ensures forall i | i in Referenced(expr, alias, sig.container) :: i < |sig.params|
  {
    hide Walk, KwargSlot;
  }

  lemma StepInRange(sig: Signature, n: Node, s: Sweep)
    requires InRange(sig, s.alias)
    ensures InRange(sig, Step(sig, n, s).alias)
  {
    hide Referenced, SinkEdges, IsSanitizerCall;
    if n.Assign? {
      ReferencedInRange(sig, s.alias, n.value);
      ExtendInRange(sig, s.alias, TargetNames(n.targets), Referenced(n.value, s.alias, sig.container));
    }
  }

  lemma {:induction false} ExtendInRange(sig: Signature, alias: Aliases, names: seq<string>, params: set<nat>)
    requires InRange(sig, alias) && forall i | i in params :: i < |sig.params|
    ensures InRange(sig, Extend(alias, names, params))
    decreases |names|
  {
    if names != [] {
      ExtendInRange(sig, alias, names[..|names| - 1], params);
    }
  }

  lemma {:induction false} StepAllInRange(sig: Signature, nodes: seq<Node>, s: Sweep)
    requires InRange(sig, s.alias)
    ensures InRange(sig, StepAll(sig, nodes, s).alias)
  {
    hide Step, InRange;
    if nodes != [] {
      StepInRange(sig, nodes[0], s);
      StepAllInRange(sig, nodes[1..], Step(sig, nodes[0], s));
    }
  }

  lemma {:induction false} SweepInRange(sig: Signature, body: seq<Node>, s: Sweep)
    requires InRange(sig, s.alias)
    ensures InRange(sig, SweepBody(sig, body, s).alias)
  {
    hide StepAll, InRange, Walk;
    if body != [] {
      StepAllInRange(sig, Walk([body[0]]), s);
      SweepInRange(sig, body[1..], StepAll(sig, Walk([body[0]]), s));
    }
  }

  lemma SweptInRange(sig: Signature, body: seq<Node>)
    ensures InRange(sig, Swept(sig, body).alias)
  {
    hide SweepBody;
    InitialAliasesAre(sig.params);
    var params, alias := sig.params, InitialAliases(sig.params);
    assert forall x :: x in alias <==> x in params;
    assert forall x | x in alias :: exists i: nat | i < |params| :: alias[x] == {i} && params[i] == x;
    SweepInRange(sig, body, Start(sig));
  }

  lemma {:induction false} EdgeForParam(sig: Signature, found: set<nat>, name: string, cwe: string, line: int,
                                        upTo: nat, i: nat)
    requires i < upTo <= |sig.params| && i in found
    ensures Edge(i, sig.params[i], cwe, name, line) in EdgesFor(sig, found, name, cwe, line, upTo)
  {
    if i < upTo - 1 {
      EdgeForParam(sig, found, name, cwe, line, upTo - 1, i);
    }
  }

  lemma {:induction false} ArgumentHasEdge(sig: Signature, alias: Aliases, call: Node, cwe: string, count: nat,
                                           position: nat, i: nat)
    requires call.Call? && position < count <= |call.args| && CalleeName(call.func).Some? && IsTracked(cwe, position)
    requires i in Referenced(call.args[position], alias, sig.container) && i < |sig.params|
    ensures Edge(i, sig.params[i], cwe, CalleeName(call.func).value, call.lineno)
            in ArgumentEdges(sig, alias, call, cwe, count)
  {
    hide Referenced, EdgesFor;
    if position < count - 1 {
      ArgumentHasEdge(sig, alias, call, cwe, count - 1, position, i);
    } else {
      EdgeForParam(sig, Referenced(call.args[position], alias, sig.container), CalleeName(call.func).value, cwe,
                   call.lineno, |sig.params|, i);
    }
  }

  lemma SinkHasEdge(sig: Signature, alias: Aliases, call: Node, position: nat, i: nat)
    requires call.Call? && position < |call.args| && CalleeName(call.func).Some?
    requires CalleeName(call.func).value in KNOWN_SINKS && IsTracked(KNOWN_SINKS[CalleeName(call.func).value], position)
    requires i in Referenced(call.args[position], alias, sig.container) && i < |sig.params|
    ensures exists e :: e in SinkEdges(sig, alias, call) && e.param == i && e.sink == CalleeName(call.func).value
                        && e.line == call.lineno
  {
    hide Referenced, KNOWN_SINKS, ArgumentEdges;
    ArgumentHasEdge(sig, alias, call, KNOWN_SINKS[CalleeName(call.func).value], |call.args|, position, i);
  }

  /** A call below an evaluated expression is itself evaluated. */
  lemma {:induction false} CallIsEvaluated(e: Node, container: Option<string>, call: Node)
    requires call.Call? && call in Below([e])
    ensures Reads(call, container) <= Reads(e, container)
    decreases e
  {
    if e != call {
      assert [e][1..] == [] && call in Below(Children(e));
      BelowIsBelowOne(Children(e), call);
      var c :| c in Children(e) && call in Below([c]);
      CallBelowOperand(e, container, c, call);
      var i :| 0 <= i < |Operands(e, container)| && Operands(e, container)[i] == c;
      CallIsEvaluated(c, container, call);
    }
  }

  lemma CallBelowOperand(e: Node, container: Option<string>, c: Node, call: Node)
    requires c in Children(e) && call.Call? && call in Below([c])
    ensures !e.Name? && c in Operands(e, container)
  {
    hide Below;
    BelowLeaf(c);
  }

  lemma BelowStatement(stmt: Node)
    ensures Below([stmt]) == {stmt} + Below(Children(stmt))
  {
    assert [stmt][1..] == [] && Below([]) == {};
  }

  lemma CallReadsNoContainer(stmt: Node, container: Option<string>, call: Node, position: nat)
    requires Simple(stmt, container) && call in Walk([stmt]) && call.Call? && position < |call.args|
    requires KwargSlot(call, container) == None
    ensures forall x | x in Reads(call.args[position], container) :: Some(x) != container
  {
    hide KwargSlot, Walk, Plain, Below;
    WalkVisitsBelow([stmt]);
    BelowStatement(stmt);
    BelowIsBelowOne(Children(stmt), call);
    var c :| c in Children(stmt) && call in Below([c]);
    BelowLeaf(c);
    assert c in Expressions(stmt);
    CallIsEvaluated(c, container, call);
    var i := |[call.func]| + position;
    assert Children(call)[i] == call.args[position] && Operands(call, container) == Children(call);
    assert Reads(Operands(call, container)[i], container) <= Reads(call, container);
  }

  lemma SinkIsNoSlot(call: Node, container: Option<string>)
    requires call.Call? && CalleeName(call.func).Some? && CalleeName(call.func).value in KNOWN_SINKS
    ensures KwargSlot(call, container) == None
  {
  }

  /** The edges a summary has for a sink call. */
  ghost predicate SinkCovered<V(!new)>(sig: Signature, sinks: seq<Edge>, name: string, line: int, one: Env<V>,
                                       two: Env<V>) {
    forall e | e in sinks && e.sink == name && e.line == line :: e.param in Agreed(sig, one, two)
  }

  /** Every tracked positional argument of an executed sink call is determined by the parameters
      that have an edge for that sink. */
  lemma SinkArgumentIsDetermined<V(!new)>(sig: Signature, body: seq<Node>, sem: Semantics<V>, one: Env<V>, two: Env<V>,
                                          k: nat, call: Node, position: nat)
    requires StraightLine(body, sig.container) && SameOutside(sig, one, two)
    requires k <= FirstReturn(body) && k < |body|
    requires call in Walk([body[k]]) && call.Call? && position < |call.args|
    requires CalleeName(call.func).Some? && CalleeName(call.func).value in KNOWN_SINKS
    requires IsTracked(KNOWN_SINKS[CalleeName(call.func).value], position)
    requires SinkCovered(sig, Swept(sig, body).sinks, CalleeName(call.func).value, call.lineno, one, two)
    ensures Eval(call.args[position], sig.container, sem, EnvAt(body, k, sig.container, sem, one))
         == Eval(call.args[position], sig.container, sem, EnvAt(body, k, sig.container, sem, two))
  {
    hide Step, StepAll, SweepBody, Walk, InitialAliases, Agree, Referenced, Eval, Reads, Agreed, Plain, SinkEdges,
         KNOWN_SINKS, EnvAt, Keeps, InRange, KwargSlot;
    var agreed, arg, container := Agreed(sig, one, two), call.args[position], sig.container;
    AgreeInitially(sig, one, two);
    AgreeAt(sig, sem, agreed, body, k, one, two);
    var s := Swept(sig, body[..k]);
    SweptNext(sig, body, k);
    SweepStatement(sig, body[k], s);
    AliasesGrow(sig, body[k], s, arg);
    SweptInRange(sig, body[..k]);
    ReferencedInRange(sig, s.alias, arg);
    forall i | i in Referenced(arg, s.alias, container)
      ensures i in agreed
    {
      SinkHasEdge(sig, Step(sig, body[k], s).alias, call, position, i);
      var e :| e in SinkEdges(sig, Step(sig, body[k], s).alias, call) && e.param == i
               && e.sink == CalleeName(call.func).value && e.line == call.lineno;
      KeptSinks(Swept(sig, body[..k + 1]), Swept(sig, body), e);
    }
    SinkIsNoSlot(call, container);
    CallReadsNoContainer(body[k], container, call, position);
    SameValue(arg, container, sem, agreed, s.alias, EnvAt(body, k, container, sem, one),
              EnvAt(body, k, container, sem, two));
  }
}
