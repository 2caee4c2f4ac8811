/** When the sanitizer verdict is right: what a straight-line body returns, traced back through the
    assignments before its first return. */
module Verdict {
  import opened Options
  import opened Text
  import opened PyAst
  import opened Facts
  import opened Summarizer
  import opened Dataflow
  import opened Evidence

  // ---------------------------------------------------------------- what a returned value is

  /** The value was produced by a sanitizer call that some statement up to `k` evaluates. */
  ghost predicate FromSanitizer<V(!new)>(body: seq<Node>, k: nat, container: Option<string>, sem: Semantics<V>,
                                         env: Env<V>, v: V) {
    exists j: nat, call | j <= k && j < |body| && call in Expressions(body[j]) ::
      IsSanitizerCall(call) && v == Eval(call, container, sem, EnvAt(body, j, container, sem, env))
  }

  /** The call returns nothing, or a value made by a known sanitizer, or the same value for all
      arguments. */
  ghost predicate RightOn<V(!new)>(sig: Signature, body: seq<Node>, sem: Semantics<V>, env: Env<V>) {
    var result := Result(body, sig.container, sem, env);
    || result == None
    || FromSanitizer(body, FirstReturn(body), sig.container, sem, env, result.value)
    || forall other: Env<V> | SameOutside(sig, env, other) :: Result(body, sig.container, sem, other) == result
  }

  // ---------------------------------------------------------------- where values come from

  /** The last of the first `k` statements that assigns the name. */
  function LastAssigned(body: seq<Node>, k: nat, x: string): (i: Option<nat>)
    requires k <= |body|
    ensures i.Some? ==> i.value < k && body[i.value].Assign? && x in TargetNames(body[i.value].targets)
  {
    if k == 0 then None
    else if body[k - 1].Assign? && x in TargetNames(body[k - 1].targets) then Some(k - 1)
    else LastAssigned(body, k - 1, x)
  }

  lemma {:induction false} ValueOfName<V>(body: seq<Node>, k: nat, container: Option<string>, sem: Semantics<V>,
                                          env: Env<V>, x: string)
    requires k <= |body|
    ensures EnvAt(body, k, container, sem, env)(x)
            == match LastAssigned(body, k, x)
               case None => env(x)
               case Some(i) => Eval(body[i].value, container, sem, EnvAt(body, i, container, sem, env))
  {
    hide Eval;
    if k > 0 {
      ValueOfName(body, k - 1, container, sem, env, x);
    }
  }

  /** The name's value before statement `k` depends on a parameter. */
  ghost predicate NameDepends(sig: Signature, body: seq<Node>, k: nat, x: string)
    requires k <= |body|
    decreases k, 0
  {
    match LastAssigned(body, k, x)
    case None => x in sig.params
    case Some(i) => ExprDepends(sig, body, i, body[i].value)
  }

  /** The expression's value at statement `k` depends on a parameter. */
  ghost predicate ExprDepends(sig: Signature, body: seq<Node>, k: nat, e: Node)
    requires k <= |body|
    decreases k, 1
  {
    exists x | x in Reads(e, sig.container) :: NameDepends(sig, body, k, x)
  }

  /** Copies undone: the expression that made the value, and the statement that evaluated it. */
  function Origin(body: seq<Node>, k: nat, e: Node): (o: (nat, Node))
    requires k <= |body|
    ensures o.0 <= k && (o.1.Name? ==> LastAssigned(body, o.0, o.1.id) == None)
    ensures o == (k, e) || (o.0 < k && o.1 in Expressions(body[o.0]))
    decreases k
  {
    if e.Name? && LastAssigned(body, k, e.id).Some? then
      var i := LastAssigned(body, k, e.id).value;
      Origin(body, i, body[i].value)
    else (k, e)
  }

  lemma {:induction false} OriginValue<V>(body: seq<Node>, k: nat, e: Node, container: Option<string>,
                                          sem: Semantics<V>, env: Env<V>)
    requires k <= |body|
    ensures var o := Origin(body, k, e);
      Eval(e, container, sem, EnvAt(body, k, container, sem, env))
      == Eval(o.1, container, sem, EnvAt(body, o.0, container, sem, env))
    decreases k
  {
    hide EnvAt;
    if e.Name? && LastAssigned(body, k, e.id).Some? {
      var i := LastAssigned(body, k, e.id).value;
      ValueOfName(body, k, container, sem, env, e.id);
      OriginValue(body, i, body[i].value, container, sem, env);
    }
  }

  /** What can be read off the body: its first return has no value, or, copies undone, a sanitizer call, or
      an expression that depends on no parameter. */
  ghost predicate Harmless(sig: Signature, body: seq<Node>) {
    var k := FirstReturn(body);
    || k == |body| || body[k].results == []
    || IsSanitizerCall(Origin(body, k, body[k].results[0]).1)
    || !ExprDepends(sig, body, k, body[k].results[0])
  }

  // ---------------------------------------------------------------- harmless bodies are right

  lemma {:induction false} IndependentIsSame<V(!new)>(sig: Signature, body: seq<Node>, k: nat, e: Node,
                                                      sem: Semantics<V>, one: Env<V>, two: Env<V>)
    requires StraightLine(body, sig.container) && SameOutside(sig, one, two) && k <= |body|
    requires !ExprDepends(sig, body, k, e) && forall x | x in Reads(e, sig.container) :: Some(x) != sig.container
    ensures Eval(e, sig.container, sem, EnvAt(body, k, sig.container, sem, one))
            == Eval(e, sig.container, sem, EnvAt(body, k, sig.container, sem, two))
    decreases k
  {
    hide Eval, Reads, EnvAt, Plain;
    forall x | x in Reads(e, sig.container)
      ensures EnvAt(body, k, sig.container, sem, one)(x) == EnvAt(body, k, sig.container, sem, two)(x)
    {
      ValueOfName(body, k, sig.container, sem, one, x);
      ValueOfName(body, k, sig.container, sem, two, x);
      assert !NameDepends(sig, body, k, x);
      match LastAssigned(body, k, x) {
        case None =>
        case Some(i) =>
          assert Simple(body[i], sig.container) && body[i].value in Expressions(body[i]);
          IndependentIsSame(sig, body, i, body[i].value, sem, one, two);
      }
    }
    EvalDependsOnReads(e, sig.container, sem, EnvAt(body, k, sig.container, sem, one),
                       EnvAt(body, k, sig.container, sem, two));
  }

  /** On a harmless body every call is right, whatever its expressions compute. */
  lemma HarmlessIsRight<V(!new)>(sig: Signature, body: seq<Node>, sem: Semantics<V>, env: Env<V>)
    requires StraightLine(body, sig.container) && Harmless(sig, body)
    ensures RightOn(sig, body, sem, env)
  {
    hide Eval, Reads, EnvAt, Plain, SameOutside, IsSanitizerCall, ExprDepends, Origin;
    var k := FirstReturn(body);
    if k < |body| && body[k].results != [] {
      var e := body[k].results[0];
      assert Simple(body[k], sig.container) && e in Expressions(body[k]);
      if IsSanitizerCall(Origin(body, k, e).1) {
        var o := Origin(body, k, e);
        OriginValue(body, k, e, sig.container, sem, env);
        assert o.0 < |body| && o.1 in Expressions(body[o.0]);
        assert FromSanitizer(body, k, sig.container, sem, env, Result(body, sig.container, sem, env).value);
      } else {
        forall other: Env<V> | SameOutside(sig, env, other)
          ensures Result(body, sig.container, sem, other) == Result(body, sig.container, sem, env)
        {
          IndependentIsSame(sig, body, k, e, sem, env, other);
        }
      }
    }
  }

  // ---------------------------------------------------------------- any other body is wrong

  /** Values that show how they were made; a marked variable is a parameter of the second call. */
  datatype Term = Var(name: string, marked: bool) | App(node: Node, args: seq<Term>)

  const FREE: Semantics<Term> := (n: Node, args: seq<Term>) => App(n, args)
  const PLAIN: Env<Term> := (x: string) => Var(x, false)

  function Marked(params: seq<string>): Env<Term> {
    x => Var(x, x in params)
  }

  /** The operands of a term, a slot read first. */
  lemma OperandTerms(n: Node, container: Option<string>, env: Env<Term>)
    requires !n.Name?
    ensures
      var cs, slot, t := Operands(n, container), KwargSlot(n, container), Eval(n, container, FREE, env);
      var from := if slot.Some? then 1 else 0;
      && t.App? && t.node == n && |t.args| == from + |cs|
      && (slot.Some? ==> t.args[0] == env(slot.value))
      && forall i | 0 <= i < |cs| :: t.args[from + i] == Eval(cs[i], container, FREE, env)
  {
    hide Operands, KwargSlot, Values;
    var cs, slot := Operands(n, container), KwargSlot(n, container);
    var values := Values(n, cs, container, FREE, env);
    if slot.Some? {
      assert Eval(n, container, FREE, env) == App(n, [env(slot.value)] + values);
    } else {
      assert Eval(n, container, FREE, env) == App(n, values);
    }
  }

  lemma {:induction false} TermsShowReads(n: Node, container: Option<string>, one: Env<Term>, two: Env<Term>, x: string)
    requires x in Reads(n, container) && one(x) != two(x)
    ensures Eval(n, container, FREE, one) != Eval(n, container, FREE, two)
    decreases n
  {
    hide Eval;
    TermOf(n, container, one);
    TermOf(n, container, two);
    if !n.Name? {
      OperandTerms(n, container, one);
      OperandTerms(n, container, two);
      var cs := Operands(n, container);
      if i :| 0 <= i < |cs| && x in Reads(cs[i], container) {
        TermsShowReads(cs[i], container, one, two, x);
      }
    }
  }

  lemma {:induction false} DependenceShows(sig: Signature, body: seq<Node>, k: nat, e: Node)
    requires k <= |body| && ExprDepends(sig, body, k, e)
    ensures Eval(e, sig.container, FREE, EnvAt(body, k, sig.container, FREE, PLAIN))
            != Eval(e, sig.container, FREE, EnvAt(body, k, sig.container, FREE, Marked(sig.params)))
    decreases k
  {
    hide Eval, Reads, EnvAt;
    var x :| x in Reads(e, sig.container) && NameDepends(sig, body, k, x);
    ValueOfName(body, k, sig.container, FREE, PLAIN, x);
    ValueOfName(body, k, sig.container, FREE, Marked(sig.params), x);
    match LastAssigned(body, k, x) {
      case None =>
      case Some(i) => DependenceShows(sig, body, i, body[i].value);
    }
    TermsShowReads(e, sig.container, EnvAt(body, k, sig.container, FREE, PLAIN),
                   EnvAt(body, k, sig.container, FREE, Marked(sig.params)), x);
  }

  lemma TermOf(n: Node, container: Option<string>, env: Env<Term>)
    ensures !n.Name? ==> Eval(n, container, FREE, env).App? && Eval(n, container, FREE, env).node == n
    ensures n.Name? ==> Eval(n, container, FREE, env) == env(n.id)
  {
  }

  /** On any other straight-line body, some call is wrong: its value was made by no sanitizer and changes
      with the arguments. */
  lemma HarmfulIsWrong(sig: Signature, body: seq<Node>)
    requires StraightLine(body, sig.container) && !Harmless(sig, body)
    ensures !RightOn(sig, body, FREE, PLAIN)
  {
    hide Eval, Reads, EnvAt, StraightLine, ExprDepends, Origin;
    var k := FirstReturn(body);
    var e, container := body[k].results[0], sig.container;
    var o := Origin(body, k, e);
    OriginValue(body, k, e, container, FREE, PLAIN);
    TermOf(o.1, container, EnvAt(body, o.0, container, FREE, PLAIN));
    if o.1.Name? {
      ValueOfName(body, o.0, container, FREE, PLAIN, o.1.id);
    }
    forall j: nat, call | j <= k && j < |body| && call in Expressions(body[j]) && IsSanitizerCall(call)
      ensures Result(body, container, FREE, PLAIN).value
              != Eval(call, container, FREE, EnvAt(body, j, container, FREE, PLAIN))
    {
      TermOf(call, container, EnvAt(body, j, container, FREE, PLAIN));
    }
    DependenceShows(sig, body, k, e);
    assert SameOutside(sig, PLAIN, Marked(sig.params));
  }

  /** Exactly when a straight-line function may be called a sanitizer: all its calls are right, whatever its
      expressions compute, if and only if the body is harmless. */
  lemma RightIffHarmless(sig: Signature, body: seq<Node>)
    requires StraightLine(body, sig.container)
    ensures (forall sem: Semantics<Term>, env: Env<Term> :: RightOn(sig, body, sem, env)) <==> Harmless(sig, body)
  {
    hide RightOn, Harmless, StraightLine;
    if Harmless(sig, body) {
      forall sem: Semantics<Term>, env: Env<Term>
        ensures RightOn(sig, body, sem, env)
      {
        HarmlessIsRight(sig, body, sem, env);
      }
    } else {
      HarmfulIsWrong(sig, body);
    }
  }

  // ---------------------------------------------------------------- the code's judgement

  lemma {:induction false} PlainNodesKeepClean(sig: Signature, nodes: seq<Node>, s: Sweep)
    requires forall n | n in nodes :: !n.Assign? && !n.Return?
    ensures StepAll(sig, nodes, s).clean == s.clean && StepAll(sig, nodes, s).returned == s.returned
  {
    hide SinkEdges;
    if nodes != [] {
      PlainNodesKeepClean(sig, nodes[1..], Step(sig, nodes[0], s));
    }
  }

  lemma StatementClean(sig: Signature, stmt: Node, s: Sweep)
    requires Simple(stmt, sig.container)
    ensures StepAll(sig, Walk([stmt]), s).clean == Step(sig, stmt, s).clean
    ensures StepAll(sig, Walk([stmt]), s).returned == Step(sig, stmt, s).returned
  {
    hide Step, Walk, Children;
    WalkStatement(stmt);
    SimpleNodes(stmt, sig.container);
    assert Walk([stmt])[1..] == Walk(Children(stmt));
    PlainNodesKeepClean(sig, Walk(Children(stmt)), Step(sig, stmt, s));
  }

  /** A name that is clean before a statement was last assigned from a sanitizer call. */
  lemma {:induction false} CleanIsFromSanitizer(sig: Signature, body: seq<Node>, k: nat, x: string)
    requires StraightLine(body, sig.container) && k <= |body| && x in Swept(sig, body[..k]).clean
    ensures LastAssigned(body, k, x).Some? && IsSanitizerCall(body[LastAssigned(body, k, x).value].value)
  {
    hide StepAll, Walk, IsSanitizerCall, Referenced, Simple, InitialAliases;
    if k > 0 {
      var s, stmt := Swept(sig, body[..k - 1]), body[k - 1];
      SweptNext(sig, body, k - 1);
      StatementClean(sig, stmt, s);
      if stmt.Assign? && x in TargetNames(stmt.targets) {
        assert IsSanitizerCall(stmt.value);
      } else {
        CleanIsFromSanitizer(sig, body, k - 1, x);
      }
    }
  }

  lemma UnpropagatedIsIndependent(sig: Signature, body: seq<Node>, k: nat, e: Node)
    requires StraightLine(body, sig.container) && k < |body| && e in Expressions(body[k])
    requires !Propagates(sig, Swept(sig, body[..k]), e)
    ensures !ExprDepends(sig, body, k, e)
  {
    hide StepAll, Walk, InitialAliases, Referenced, SweepBody, Eval, Reads, Agree, Plain, EnvAt, ExprDepends, Swept,
         Agreed, SameOutside, Marked;
    var one, two := PLAIN, Marked(sig.params);
    var s := Swept(sig, body[..k]);
    NoneAgreed(sig);
    AgreeInitially(sig, one, two);
    AgreeAt(sig, FREE, {}, body, k, one, two);
    assert Simple(body[k], sig.container);
    SameValue(e, sig.container, FREE, {}, s.alias,
              EnvAt(body, k, sig.container, FREE, one), EnvAt(body, k, sig.container, FREE, two));
    if ExprDepends(sig, body, k, e) {
      DependenceShows(sig, body, k, e);
    }
  }

  /** Judged by what is clean and aliased where the function first returns, the verdict is safe. */
  lemma JudgedAtReturnIsHarmless(sig: Signature, body: seq<Node>)
    requires StraightLine(body, sig.container) && FirstReturn(body) < |body| && body[FirstReturn(body)].results != []
    requires
      var k := FirstReturn(body);
      var e, s := body[k].results[0], Swept(sig, body[..k]);
      IsSanitizedExpr(e, s.clean) || !Propagates(sig, s, e)
    ensures Harmless(sig, body)
  {
    hide Swept, StraightLine, Propagates, ExprDepends, KNOWN_SANITIZERS;
    var k := FirstReturn(body);
    var e, s := body[k].results[0], Swept(sig, body[..k]);
    if !Propagates(sig, s, e) {
      UnpropagatedIsIndependent(sig, body, k, e);
    } else if e.Name? && e.id in s.clean {
      CleanIsFromSanitizer(sig, body, k, e.id);
      CallIsOrigin(body, k, e);
    }
  }

  lemma CallIsOrigin(body: seq<Node>, k: nat, e: Node)
    requires k <= |body| && e.Name? && LastAssigned(body, k, e.id).Some?
    requires body[LastAssigned(body, k, e.id).value].value.Call?
    ensures Origin(body, k, e).1 == body[LastAssigned(body, k, e.id).value].value
  {
  }

  lemma NoneAgreed(sig: Signature)
    ensures Agreed(sig, PLAIN, Marked(sig.params)) == {}
    ensures SameOutside(sig, PLAIN, Marked(sig.params))
  {
  }

  lemma {:induction false} AliasesOnlyGrow(sig: Signature, body: seq<Node>, k: nat)
    requires StraightLine(body, sig.container) && k <= |body|
    ensures var now, end := Swept(sig, body[..k]).alias, Swept(sig, body).alias;
      forall x | x in now :: x in end && now[x] <= end[x]
    decreases |body| - k
  {
    hide StepAll, Walk, InitialAliases, Referenced, SinkEdges, IsSanitizerCall, Extend, Simple;
    if k < |body| {
      AliasesOnlyGrow(sig, body, k + 1);
      var s := Swept(sig, body[..k]);
      SweptNext(sig, body, k);
      SweepStatement(sig, body[k], s);
      if body[k].Assign? {
        ExtendAdds(s.alias, TargetNames(body[k].targets), Referenced(body[k].value, s.alias, sig.container));
      }
    } else {
      assert body[..k] == body;
    }
  }

  lemma WiderRefersToMore(e: Node, container: Option<string>, now: Aliases, end: Aliases)
    requires forall x | x in now :: x in end && now[x] <= end[x]
    requires Referenced(e, now, container) != {}
    ensures Referenced(e, end, container) != {}
  {
    hide Walk;
    var i :| i in Referenced(e, now, container);
    var n :| n in Walk([e]) && i in NodeParams(n, now, container);
    NameHasNoSlot(n, container);
    assert i in NodeParams(n, end, container);
    assert i in Referenced(e, end, container);
  }

  lemma ReturnIsRecorded(sig: Signature, body: seq<Node>, k: nat)
    requires StraightLine(body, sig.container) && k < |body| && body[k].Return? && body[k].results != []
    ensures body[k].results[0] in Swept(sig, body).returned
    decreases |body| - k
  {
    hide StepAll, Walk, Simple, InitialAliases, Referenced;
    SweptNext(sig, body, k);
    StatementClean(sig, body[k], Swept(sig, body[..k]));
    ReturnsStay(sig, body, k + 1, body[k].results[0]);
  }

  lemma {:induction false} ReturnsStay(sig: Signature, body: seq<Node>, k: nat, e: Node)
    requires StraightLine(body, sig.container) && k <= |body| && e in Swept(sig, body[..k]).returned
    ensures e in Swept(sig, body).returned
    decreases |body| - k
  {
    hide StepAll, Walk, Simple, InitialAliases, Referenced, SinkEdges;
    if k < |body| {
      SweptNext(sig, body, k);
      StatementClean(sig, body[k], Swept(sig, body[..k]));
      ReturnsStay(sig, body, k + 1, e);
    } else {
      assert body[..k] == body;
    }
  }

  /** If the function first returns a name that is clean at the end, the name is clean already there. */
  ghost predicate CleanWhenReturned(sig: Signature, body: seq<Node>) {
    var k := FirstReturn(body);
    k < |body| && body[k].results != [] && body[k].results[0].Name? ==>
      (body[k].results[0].id in Swept(sig, body).clean ==> body[k].results[0].id in Swept(sig, body[..k]).clean)
  }

  /** So the verdict of the code is right unless a statement after the return made the returned name clean. */
  lemma EvidenceIsRight(sig: Signature, body: seq<Node>)
    requires StraightLine(body, sig.container)
    ensures HasEvidence(sig, Swept(sig, body)) && CleanWhenReturned(sig, body) ==> Harmless(sig, body)
  {
    hide StepAll, Walk, InitialAliases, Referenced, SweepBody, IsSanitizerCall, Plain, StraightLine;
    var k := FirstReturn(body);
    if HasEvidence(sig, Swept(sig, body)) && CleanWhenReturned(sig, body) && k < |body| && body[k].results != [] {
      var e, s := body[k].results[0], Swept(sig, body[..k]);
      ReturnIsRecorded(sig, body, k);
      if Propagates(sig, s, e) {
        AliasesOnlyGrow(sig, body, k);
        WiderRefersToMore(e, sig.container, s.alias, Swept(sig, body).alias);
      }
      JudgedAtReturnIsHarmless(sig, body);
    }
  }

  // ------------------------------------------------ where the verdict is wrong

  const P: Node := Name("p", true)
  const INT_P: Node := Call(Name("int", true), [P], [], 3)

  /** `def f(p): return p; p = int(p)` */
  const LATE: seq<Node> := [Return([P]), Assign([P], INT_P)]
  const LATE_SIGNATURE: Signature := Signature(["p"], None)

  lemma LateNodes()
    ensures Walk([LATE[0]]) == [LATE[0], P]
    ensures Walk([LATE[1]]) == [LATE[1], P, INT_P, Name("int", true), P]
    ensures Walk([P]) == [P] && Walk([INT_P]) == [INT_P, Name("int", true), P]
  {
    var int' := Name("int", true);
    assert Children(P) == [] && Children(int') == [];
    assert Children(LATE[0]) == [P] && Children(LATE[1]) == [P, INT_P] && Children(INT_P) == [int', P];
    LateWalks(LATE[0], LATE[1], INT_P, int', P);
  }

  lemma LateWalks(ret: Node, assign: Node, call: Node, name: Node, p: Node)
    requires Children(p) == [] && Children(name) == [] && Children(ret) == [p] && Children(assign) == [p, call]
    requires Children(call) == [name, p]
    ensures Walk([ret]) == [ret, p]
    ensures Walk([assign]) == [assign, p, call, name, p]
    ensures Walk([p]) == [p] && Walk([call]) == [call, name, p]
  {
    hide Walk, Children;
    WalkLeaves([p]);
    WalkLeaves([name, p]);
    assert [call][1..] == [] && [] + [name, p] == [name, p];
    WalkFirst([call], call, [name, p]);
    assert [ret][1..] == [] && [] + [p] == [p];
    WalkFirst([ret], ret, [p]);
    AssignWalk(assign, call, p);
  }

  lemma AssignWalk(assign: Node, call: Node, p: Node)
    requires Children(p) == [] && Children(assign) == [p, call]
    ensures Walk([assign]) == [assign, p] + Walk([call])
  {
    hide Walk, Children;
    assert [assign][1..] + [p, call] == [p, call];
    WalkFirst([assign], assign, [p, call]);
    assert [p, call][1..] + [] == [call];
    WalkFirst([p, call], p, [call]);
    assert [assign] + ([p] + Walk([call])) == [assign, p] + Walk([call]);
  }

  /** The clean names are those at the end of the sweep, so an assignment that comes after the
      return clears it: this function is called a sanitizer and returns its argument untouched. */
  lemma LateAssignmentFoolsVerdict<V(!new)>(sem: Semantics<V>, env: Env<V>)
    ensures HasEvidence(LATE_SIGNATURE, Swept(LATE_SIGNATURE, LATE))
    ensures Result(LATE, None, sem, env) == Some(env("p"))
  {
    TwoStatementSweep(LATE);
    assert P in [P];
    LateReferences();
    assert Eval(P, None, sem, env) == env("p") && FirstReturn(LATE) == 0;
  }

  lemma RefersToFirst(expr: Node, p: Node, alias: Aliases)
    requires p in Walk([expr]) && NodeParams(p, alias, None) == {0}
    requires forall n | n in Walk([expr]) && n != p :: NodeParams(n, alias, None) == {}
    ensures Referenced(expr, alias, None) == {0}
  {
    hide Walk, NodeParams;
    assert 0 in NodeParams(p, alias, None);
  }

  lemma LateReferencesOf(p: Node, name: Node, call: Node, alias: Aliases)
    requires Walk([p]) == [p] && Walk([call]) == [call, name, p] && name != p && call != p
    requires NodeParams(p, alias, None) == {0} && NodeParams(name, alias, None) == {}
        && NodeParams(call, alias, None) == {}
    ensures Referenced(p, alias, None) == {0} && Referenced(call, alias, None) == {0}
  {
    hide Walk, NodeParams, Referenced;
    RefersToFirst(p, p, alias);
    RefersToFirst(call, p, alias);
  }

  lemma LateReferences()
    ensures Referenced(P, map["p" := {0}], None) == {0} && Referenced(INT_P, map["p" := {0}], None) == {0}
  {
    hide Walk, Referenced;
    LateNodes();
    LateReferencesOf(P, Name("int", true), INT_P, map["p" := {0}]);
  }

  /** The aliases of `f(p)` and of `g(p)`, all along. */
  const P_ALIAS: Aliases := map["p" := {0}]

  lemma LeafSteps(s: Sweep)
    requires s.alias == P_ALIAS
    ensures Step(LATE_SIGNATURE, P, s) == s && Step(LATE_SIGNATURE, Name("int", true), s) == s
    ensures Step(LATE_SIGNATURE, INT_P, s) == s
  {
    assert CalleeName(INT_P.func) == Some("int") && "int" !in KNOWN_SINKS;
  }

  lemma ReturnStep(s: Sweep)
    requires s.alias == P_ALIAS
    ensures Step(LATE_SIGNATURE, LATE[0], s) == s.(returned := s.returned + [P], tainted := s.tainted + {0})
  {
    LateReferences();
    hide Referenced, KNOWN_SINKS, KNOWN_SANITIZERS;
  }

  lemma ReturnNodes(s: Sweep)
    requires s.alias == P_ALIAS
    ensures StepAll(LATE_SIGNATURE, Walk([LATE[0]]), s) == s.(returned := s.returned + [P], tainted := s.tainted + {0})
  {
    hide Step, Walk, Referenced;
    var next := s.(returned := s.returned + [P], tainted := s.tainted + {0});
    LateNodes();
    ReturnStep(s);
    LeafSteps(next);
    assert [LATE[0], P][1..] == [P] && [P][1..] == [];
    assert StepAll(LATE_SIGNATURE, [P], next) == StepAll(LATE_SIGNATURE, [], next);
  }

  lemma AssignStep(s: Sweep)
    requires s.alias == P_ALIAS
    ensures Step(LATE_SIGNATURE, LATE[1], s) == s.(clean := s.clean + {"p"})
  {
    LateReferences();
    hide Referenced;
    assert TargetNames([P]) == ["p"] by { assert [P][1..] == []; }
    assert Extend(P_ALIAS, ["p"], {0}) == P_ALIAS by {
      assert ["p"][..0] == [];
      var zero: set<nat> := {0};
      assert zero + zero == zero;
    }
    assert IsSanitizerCall(INT_P);
  }

  lemma AssignNodes(s: Sweep)
    requires s.alias == P_ALIAS
    ensures StepAll(LATE_SIGNATURE, Walk([LATE[1]]), s) == s.(clean := s.clean + {"p"})
  {
    var sig, next, int' := LATE_SIGNATURE, s.(clean := s.clean + {"p"}), Name("int", true);
    LateNodes();
    AssignStep(s);
    LeafSteps(next);
    hide Step, Walk;
    assert [LATE[1], P, INT_P, int', P][1..] == [P, INT_P, int', P] && [P, INT_P, int', P][1..] == [INT_P, int', P];
    assert [INT_P, int', P][1..] == [int', P] && [int', P][1..] == [P] && [P][1..] == [];
    assert StepAll(sig, [P], next) == StepAll(sig, [], next) == next;
    assert StepAll(sig, [int', P], next) == next;
    assert StepAll(sig, [INT_P, int', P], next) == next;
  }

  lemma SweepTwo(sig: Signature, a: Node, b: Node, s: Sweep)
    ensures SweepBody(sig, [a, b], s) == StepAll(sig, Walk([b]), StepAll(sig, Walk([a]), s))
  {
    hide StepAll, Walk;
    assert [a, b][1..] == [b] && [b][1..] == [];
    assert SweepBody(sig, [b], StepAll(sig, Walk([a]), s)) == StepAll(sig, Walk([b]), StepAll(sig, Walk([a]), s));
  }

  /** Both orders of the two statements end with the same summary. */
  lemma TwoStatementSweep(body: seq<Node>)
    requires body == LATE || body == EARLY
    ensures Swept(LATE_SIGNATURE, body) == Sweep(P_ALIAS, {"p"}, [P], {0}, [])
  {
    hide StepAll, Walk, SweepBody;
    var s0 := Sweep(P_ALIAS, {}, [], {}, []);
    assert InitialAliases(["p"]) == P_ALIAS by { assert ["p"][..0] == []; }
    assert Start(LATE_SIGNATURE) == s0;
    assert body == [body[0], body[1]];
    SweepTwo(LATE_SIGNATURE, body[0], body[1], s0);
    if body == LATE {
      ReturnNodes(s0);
      AssignNodes(s0.(returned := s0.returned + [P], tainted := s0.tainted + {0}));
    } else {
      AssignNodes(s0);
      ReturnNodes(s0.(clean := s0.clean + {"p"}));
    }
  }

  /** `def g(p): p = int(p); return p` */
  const EARLY: seq<Node> := [LATE[1], LATE[0]]

  /** In the other order the same two statements are a genuine sanitizer. */
  lemma EarlyAssignmentIsSanitizer()
    ensures StraightLine(EARLY, None) && HasEvidence(LATE_SIGNATURE, Swept(LATE_SIGNATURE, EARLY))
    ensures Harmless(LATE_SIGNATURE, EARLY)
  {
    TwoStatementSweep(EARLY);
    LateReferences();
    assert P in [P];
    assert EARLY[1..] == [LATE[0]];
    EarlyIsSimple();
  }

  lemma EarlyIsSimple()
    ensures Simple(LATE[0], None) && Simple(LATE[1], None)
  {
    LateNodes();
    WalkVisitsBelow([P]);
    WalkVisitsBelow([INT_P]);
    hide Walk, Below;
    assert forall n | n in Below([P]) :: n == P;
    assert forall n | n in Below([INT_P]) :: n in [INT_P, Name("int", true), P];
  }

  // ------------------------------------------------ the flag as a whole

  /** When a function carries the flag rightly: exactly if its body is harmless.  With a name that does not ask
      for the flag it is, unless a statement after the return made the returned name clean. */
  lemma FlagIsRightIff(name: string, sig: Signature, body: seq<Node>)
    requires StraightLine(body, sig.container) && Flagged(name, sig, body)
    ensures (forall sem: Semantics<Term>, env: Env<Term> :: RightOn(sig, body, sem, env)) <==> Harmless(sig, body)
    ensures !NamedLikeSanitizer(name) && CleanWhenReturned(sig, body) ==> Harmless(sig, body)
  {
    hide RightOn, Harmless, StraightLine, HasEvidence, NamedLikeSanitizer, CleanWhenReturned, Swept;
    RightIffHarmless(sig, body);
    EvidenceIsRight(sig, body);
  }

  /** `def hint(p): return p` */
  const HINT: seq<Node> := [LATE[0]]

  /** A name that merely contains one of a sanitizer carries the flag, whatever the function does. */
  lemma NameFoolsFlag()
    ensures Flagged("hint", LATE_SIGNATURE, HINT) && !RightOn(LATE_SIGNATURE, HINT, FREE, PLAIN)
  {
    HintIsNamed();
    EarlyIsSimple();
    assert StraightLine(HINT, None);
    assert FirstReturn(HINT) == 0 && LastAssigned(HINT, 0, "p") == None && Origin(HINT, 0, P) == (0, P);
    assert "p" in Reads(P, None) && NameDepends(LATE_SIGNATURE, HINT, 0, "p");
    assert ExprDepends(LATE_SIGNATURE, HINT, 0, P);
    HarmfulIsWrong(LATE_SIGNATURE, HINT);
  }

  lemma HintIsNamed()
    ensures NamedLikeSanitizer("hint")
  {
    assert Lower("hint") == "hint" by {
      assert "hint"[1..] == "int" && "int"[1..] == "nt" && "nt"[1..] == "t" && "t"[1..] == "";
    }
    assert "int" <= "hint"[1..] && "int" in KNOWN_SANITIZERS;
  }
}
