/** Bodies with blocks: what a summary means on one path through them.  The sweep walks each statement breadth
    first, so it meets the statements of a path in their order unless a block nests an assignment deeper than
    what comes after it. */
module Paths {
  import opened Options
  import opened PyAst
  import opened Facts
  import opened Summarizer
  import opened Dataflow

  /** The nodes of a body in the order of the sweep. */
  function Flat(body: seq<Node>): seq<Node> {
    if body == [] then [] else Walk([body[0]]) + Flat(body[1..])
  }

  /** The statements of a path occur among the nodes, in this order. */
  predicate Within(path: seq<Node>, nodes: seq<Node>) {
    path == [] || (nodes != [] && Within(if path[0] == nodes[0] then path[1..] else path, nodes[1..]))
  }

  lemma {:induction false} StepAllSplit(sig: Signature, a: seq<Node>, b: seq<Node>, s: Sweep)
    ensures StepAll(sig, a + b, s) == StepAll(sig, b, StepAll(sig, a, s))
  {
    hide Step;
    if a == [] {
      assert a + b == b;
    } else {
      assert (a + b)[1..] == a[1..] + b;
      StepAllSplit(sig, a[1..], b, Step(sig, a[0], s));
    }
  }

  lemma {:induction false} SweepIsFlat(sig: Signature, body: seq<Node>, s: Sweep)
    ensures SweepBody(sig, body, s) == StepAll(sig, Flat(body), s)
  {
    hide Step, Walk;
    if body != [] {
      StepAllSplit(sig, Walk([body[0]]), Flat(body[1..]), s);
      SweepIsFlat(sig, body[1..], StepAll(sig, Walk([body[0]]), s));
    }
  }

  // ---------------------------------------------------------------- a run along a path

  lemma AliasesGrow(sig: Signature, n: Node, s: Sweep)
    ensures var wider := Step(sig, n, s).alias; forall x | x in s.alias :: x in wider && s.alias[x] <= wider[x]
  {
    hide Referenced, Extend, SinkEdges, IsSanitizerCall;
    if n.Assign? {
      ExtendAdds(s.alias, TargetNames(n.targets), Referenced(n.value, s.alias, sig.container));
    }
  }

  lemma AgreeStays<V(!new)>(container: Option<string>, agreed: set<nat>, alias: Aliases, wider: Aliases, one: Env<V>,
                            two: Env<V>)
    requires Agree(container, agreed, alias, one, two) && forall x | x in alias :: x in wider && alias[x] <= wider[x]
    ensures Agree(container, agreed, wider, one, two)
  {
  }

  lemma {:induction false} EnvAtTail<V>(path: seq<Node>, k: nat, container: Option<string>, sem: Semantics<V>,
                                        env: Env<V>)
    requires 0 < k <= |path|
    ensures EnvAt(path, k, container, sem, env)
        == EnvAt(path[1..], k - 1, container, sem, EnvAfter(path[0], container, sem, env))
  {
    hide EnvAfter;
    if k > 1 {
      EnvAtTail(path, k - 1, container, sem, env);
    } else {
      assert EnvAt(path, 0, container, sem, env) == env;
    }
  }

  lemma ResultTail<V>(path: seq<Node>, container: Option<string>, sem: Semantics<V>, env: Env<V>)
    requires path != [] && !path[0].Return?
    ensures Result(path, container, sem, env)
        == Result(path[1..], container, sem, EnvAfter(path[0], container, sem, env))
  {
    hide EnvAfter, Eval, EnvAt;
    var k := FirstReturn(path);
    EnvAtTail(path, k, container, sem, env);
  }

  /** Where the nodes still to be swept hold the rest of the path. */
  lemma {:induction false} RunsAlong<V(!new)>(sig: Signature, nodes: seq<Node>, path: seq<Node>, s: Sweep,
                                              sem: Semantics<V>, agreed: set<nat>, one: Env<V>, two: Env<V>)
    requires Within(path, nodes) && StraightLine(path, sig.container)
    requires Agree(sig.container, agreed, s.alias, one, two) && StepAll(sig, nodes, s).tainted <= agreed
    ensures Result(path, sig.container, sem, one) == Result(path, sig.container, sem, two)
    decreases |nodes|
  {
    hide Step, Agree, Eval, EnvAfter, EnvAt, Simple;
    if path != [] {
      var n, container := nodes[0], sig.container;
      var next := Step(sig, n, s);
      if path[0] != n {
        AliasesGrow(sig, n, s);
        AgreeStays(container, agreed, s.alias, next.alias, one, two);
        RunsAlong(sig, nodes[1..], path, next, sem, agreed, one, two);
      } else if n.Return? {
        StepAllKeeps(sig, nodes[1..], next);
        ReturnsSame(sig, path, s, sem, agreed, one, two);
      } else {
        AgreeAfter(sig, sem, agreed, n, s, one, two);
        ResultTail(path, container, sem, one);
        ResultTail(path, container, sem, two);
        RunsAlong(sig, nodes[1..], path[1..], next, sem, agreed, EnvAfter(n, container, sem, one),
                  EnvAfter(n, container, sem, two));
      }
    }
  }

  lemma ReturnsSame<V(!new)>(sig: Signature, path: seq<Node>, s: Sweep, sem: Semantics<V>, agreed: set<nat>,
                             one: Env<V>, two: Env<V>)
    requires path != [] && path[0].Return? && Simple(path[0], sig.container)
    requires Agree(sig.container, agreed, s.alias, one, two) && Step(sig, path[0], s).tainted <= agreed
    ensures Result(path, sig.container, sem, one) == Result(path, sig.container, sem, two)
  {
    hide Agree, Eval, Referenced, Reads, Plain;
    assert FirstReturn(path) == 0;
    if path[0].results != [] {
      var e := path[0].results[0];
      assert e in Expressions(path[0]);
      SameValue(e, sig.container, sem, agreed, s.alias, one, two);
    }
  }

  /** Non-interference on a path, blocks or not: two calls that take the same path and agree on the parameters in
      `tainted_returns` return equal values, if the sweep meets the statements of the path in their order. */
  lemma PathIsNonInterfering<V(!new)>(sig: Signature, body: seq<Node>, path: seq<Node>, sem: Semantics<V>,
                                      one: Env<V>, two: Env<V>)
    requires Within(path, Flat(body)) && StraightLine(path, sig.container) && SameOutside(sig, one, two)
    requires forall i: nat | i in Swept(sig, body).tainted :: i in Agreed(sig, one, two)
    ensures Result(path, sig.container, sem, one) == Result(path, sig.container, sem, two)
  {
    hide Step, StepAll, SweepBody, InitialAliases, Agree, Agreed, StraightLine, SameOutside, Within, Flat;
    SweepIsFlat(sig, body, Start(sig));
    AgreeInitially(sig, one, two);
    RunsAlong(sig, Flat(body), path, Start(sig), sem, Agreed(sig, one, two), one, two);
  }

  // ---------------------------------------------------------------- blocks of one level

  /** The statements of a body and the direct children of each, in source order. */
  function OneLevel(body: seq<Node>): seq<Node> {
    if body == [] then [] else [body[0]] + Children(body[0]) + OneLevel(body[1..])
  }

  /** A breadth-first walk begins with its queue. */
  lemma {:induction false} WalkBeginsWithQueue(queue: seq<Node>)
    ensures queue <= Walk(queue)
    decreases Forest(queue)
  {
    if queue != [] {
      var next := queue[1..] + Children(queue[0]);
      ForestOfChildren(queue[0]);
      ForestAppend(queue[1..], Children(queue[0]));
      WalkBeginsWithQueue(next);
      BeginsWithTail(queue, next, Walk(next));
    }
  }

  lemma BeginsWithTail(queue: seq<Node>, next: seq<Node>, walk: seq<Node>)
    requires queue != [] && queue[1..] <= next && next <= walk
    ensures queue <= [queue[0]] + walk
  {
    assert queue[1..] == walk[..|queue| - 1];
    assert queue == [queue[0]] + queue[1..];
  }

  lemma {:induction false} WithinMore(path: seq<Node>, a: seq<Node>, b: seq<Node>, more: seq<Node>)
    requires Within(path, a + b)
    ensures Within(path, a + more + b)
    decreases |a|, |more|
  {
    if path != [] {
      if a != [] {
        var rest := if path[0] == a[0] then path[1..] else path;
        assert (a + b)[1..] == a[1..] + b && (a + more + b)[1..] == a[1..] + more + b;
        WithinMore(rest, a[1..], b, more);
      } else if more == [] {
        assert a + more + b == a + b;
      } else {
        assert a + b == b && a + more + b == more + b && (more + b)[1..] == a + more[1..] + b;
        WithinMore(path, a, b, more[1..]);
        if path[0] == more[0] {
          WithinTail(path, a + more[1..] + b);
        }
      }
    }
  }

  lemma {:induction false} WithinTail(path: seq<Node>, nodes: seq<Node>)
    requires path != [] && Within(path, nodes)
    ensures Within(path[1..], nodes)
    decreases |nodes|
  {
    if path[0] != nodes[0] {
      WithinTail(path, nodes[1..]);
      if |path| > 1 && path[1] == nodes[0] { WithinTail(path[1..], nodes[1..]); }
    } else if |path| > 1 && path[1] == nodes[0] {
      WithinTail(path[1..], nodes[1..]);
    }
  }

  /** With a stretch put in front on both sides. */
  lemma {:induction false} WithinBoth(path: seq<Node>, front: seq<Node>, a: seq<Node>, b: seq<Node>)
    requires Within(path, front + a) && forall p | Within(p, a) :: Within(p, b)
    ensures Within(path, front + b)
    decreases |front|
  {
    if path != [] {
      if front == [] {
        assert front + a == a && front + b == b;
      } else {
        assert (front + a)[1..] == front[1..] + a && (front + b)[1..] == front[1..] + b;
        WithinBoth(if path[0] == front[0] then path[1..] else path, front[1..], a, b);
      }
    }
  }

  /** A path through blocks that are not nested meets its statements in the order of the sweep. */
  lemma {:induction false} OneLevelIsWithin(body: seq<Node>, path: seq<Node>)
    requires Within(path, OneLevel(body))
    ensures Within(path, Flat(body))
    decreases |body|
  {
    hide Within;
    if body != [] {
      var stmt, rest := body[0], body[1..];
      var kids, walk := Children(stmt), Walk(Children(stmt));
      WalkStatement(stmt);
      WalkBeginsWithQueue(kids);
      var more := walk[|kids|..];
      assert walk == kids + more;
      forall p | Within(p, OneLevel(rest))
        ensures Within(p, Flat(rest))
      {
        OneLevelIsWithin(rest, p);
      }
      WithinBoth(path, [stmt] + kids, OneLevel(rest), Flat(rest));
      WithinMore(path, [stmt] + kids, Flat(rest), more);
      assert [stmt] + kids + more == Walk([stmt]);
    }
  }

  // ---------------------------------------------------------------- blocks of two levels

  const P: Node := Name("p", true)
  const X: Node := Name("x", true)
  const SET_X: Node := Assign([Name("x", false)], P)
  const RETURN_X: Node := Return([X])

  /** `if b: x = p` */
  const INNER: Node := OtherStmt([Name("b", true), SET_X])

  /** `if a: (if b: x = p); return x` */
  const OUTER: Node := OtherStmt([Name("a", true), INNER, RETURN_X])

  const ONLY_P: Signature := Signature(["p"], None)

  lemma WalkQueues(outer: Node, a: Node, inner: Node, ret: Node, b: Node, assign: Node, x: Node)
    requires Children(outer) == [a, inner, ret] && Children(a) == [] && Children(inner) == [b, assign]
        && Children(ret) == [x]
    ensures Walk([outer]) == [outer, a, inner, ret] + Walk([b, assign, x])
  {
    hide Walk, Children;
    assert [outer][1..] == [] && [] + [a, inner, ret] == [a, inner, ret];
    WalkFirst([outer], outer, [a, inner, ret]);
    assert [a, inner, ret][1..] + [] == [inner, ret];
    WalkFirst([a, inner, ret], a, [inner, ret]);
    assert [inner, ret][1..] + [b, assign] == [ret, b, assign];
    WalkFirst([inner, ret], inner, [ret, b, assign]);
    assert [ret, b, assign][1..] + [x] == [b, assign, x];
    WalkFirst([ret, b, assign], ret, [b, assign, x]);
    var later := Walk([b, assign, x]);
    assert [outer] + ([a] + ([inner] + ([ret] + later))) == [outer, a, inner, ret] + later;
  }

  lemma LaterNodes(b: Node, assign: Node, x: Node, target: Node, p: Node)
    requires Children(b) == [] && Children(assign) == [target, p] && Children(x) == [] && Children(target) == []
    requires Children(p) == []
    ensures Walk([b, assign, x]) == [b, assign] + [x, target, p]
  {
    hide Walk, Children;
    assert [b, assign, x][1..] + [] == [assign, x];
    WalkFirst([b, assign, x], b, [assign, x]);
    assert [assign, x][1..] + [target, p] == [x, target, p];
    WalkFirst([assign, x], assign, [x, target, p]);
    WalkLeaves([x, target, p]);
    assert [b] + ([assign] + [x, target, p]) == [b, assign] + [x, target, p];
  }

  /** The return comes before the assignment. */
  lemma OuterWalk() returns (later: seq<Node>)
    ensures Walk([OUTER]) == [OUTER, Name("a", true), INNER, RETURN_X] + later && forall n | n in later :: !n.Return?
  {
    var a, b, target := Name("a", true), Name("b", true), Name("x", false);
    assert Children(OUTER) == [a, INNER, RETURN_X] && Children(INNER) == [b, SET_X] && Children(RETURN_X) == [X];
    assert Children(SET_X) == [target, P] && Children(a) == [] && Children(b) == [];
    assert Children(X) == [] && Children(target) == [] && Children(P) == [];
    hide Walk, Children;
    WalkQueues(OUTER, a, INNER, RETURN_X, b, SET_X, X);
    LaterNodes(b, SET_X, X, target, P);
    later := Walk([b, SET_X, X]);
  }

  lemma {:induction false} OnlyReturnsTaint(sig: Signature, nodes: seq<Node>, s: Sweep)
    requires forall n | n in nodes :: !n.Return?
    ensures StepAll(sig, nodes, s).tainted == s.tainted
  {
    hide Referenced, Extend, SinkEdges, IsSanitizerCall;
    if nodes != [] { OnlyReturnsTaint(sig, nodes[1..], Step(sig, nodes[0], s)); }
  }

  lemma OuterSteps(s: Sweep)
    requires s == Start(ONLY_P)
    ensures StepAll(ONLY_P, [OUTER, Name("a", true), INNER, RETURN_X], s).tainted == {}
  {
    var a := Name("a", true);
    assert InitialAliases(["p"]) == map["p" := {0}] by { assert ["p"][..0] == []; }
    assert Referenced(X, s.alias, None) == {} by {
      WalkFirst([X], X, []);
      assert Walk([X]) == [X];
    }
    hide Referenced;
    var nodes := [OUTER, a, INNER, RETURN_X];
    assert nodes[1..] == [a, INNER, RETURN_X] && nodes[1..][1..] == [INNER, RETURN_X];
    assert [INNER, RETURN_X][1..] == [RETURN_X] && [RETURN_X][1..] == [];
    assert StepAll(ONLY_P, [RETURN_X], s).tainted == {};
    assert StepAll(ONLY_P, [INNER, RETURN_X], s) == StepAll(ONLY_P, [RETURN_X], s);
    assert StepAll(ONLY_P, [a, INNER, RETURN_X], s) == StepAll(ONLY_P, [INNER, RETURN_X], s);
  }

  /** One level deeper the sweep meets the return first: no parameter is said to reach it, and on the path through
      both blocks the function returns its argument. */
  lemma NestedAssignmentIsMissed<V(!new)>(sem: Semantics<V>, env: Env<V>)
    ensures Swept(ONLY_P, [OUTER]).tainted == {}
    ensures StraightLine([SET_X, RETURN_X], None) && Result([SET_X, RETURN_X], None, sem, env) == Some(env("p"))
    ensures !Within([SET_X, RETURN_X], Flat([OUTER]))
  {
    hide Within, Walk, StepAll, Flat, InitialAliases;
    var front := [OUTER, Name("a", true), INNER, RETURN_X];
    var later := OuterWalk();
    OneIsFlat(OUTER);
    SweepIsFlat(ONLY_P, [OUTER], Start(ONLY_P));
    StepAllSplit(ONLY_P, front, later, Start(ONLY_P));
    OuterSteps(Start(ONLY_P));
    OnlyReturnsTaint(ONLY_P, later, StepAll(ONLY_P, front, Start(ONLY_P)));
    PathRuns(sem, env);
    NotWithin(later);
  }

  lemma OneIsFlat(stmt: Node)
    ensures Flat([stmt]) == Walk([stmt])
  {
    hide Walk;
    assert [stmt][1..] == [] && Walk([stmt]) + [] == Walk([stmt]);
    assert Flat([]) == [];
  }

  lemma PathRuns<V(!new)>(sem: Semantics<V>, env: Env<V>)
    ensures StraightLine([SET_X, RETURN_X], None) && Result([SET_X, RETURN_X], None, sem, env) == Some(env("p"))
  {
    var path := [SET_X, RETURN_X];
    BelowLeaf(P);
    BelowLeaf(X);
    assert path[1..] == [RETURN_X] && FirstReturn([RETURN_X]) == 0 && FirstReturn(path) == 1;
    assert EnvAt(path, 1, None, sem, env) == EnvAfter(SET_X, None, sem, EnvAt(path, 0, None, sem, env));
    assert EnvAt(path, 0, None, sem, env) == env && TargetNames(SET_X.targets) == ["x"];
    hide Below;
    assert Plain(P) && Plain(X);
  }

  lemma {:induction false} WithinMembers(path: seq<Node>, nodes: seq<Node>)
    requires Within(path, nodes)
    ensures forall n | n in path :: n in nodes
    decreases |nodes|
  {
    if path != [] {
      WithinMembers(if path[0] == nodes[0] then path[1..] else path, nodes[1..]);
      assert forall n | n in path :: n == path[0] || n in path[1..];
    }
  }

  lemma WithinRest(path: seq<Node>, n: Node, rest: seq<Node>)
    requires path != [] && path[0] != n
    ensures Within(path, [n] + rest) == Within(path, rest)
  {
    assert ([n] + rest)[1..] == rest;
  }

  lemma NotWithin(later: seq<Node>)
    requires forall n | n in later :: !n.Return?
    ensures !Within([SET_X, RETURN_X], [OUTER, Name("a", true), INNER, RETURN_X] + later)
  {
    hide Within;
    var path, a := [SET_X, RETURN_X], Name("a", true);
    WithinRest(path, RETURN_X, later);
    WithinRest(path, INNER, [RETURN_X] + later);
    WithinRest(path, a, [INNER] + ([RETURN_X] + later));
    WithinRest(path, OUTER, [a] + ([INNER] + ([RETURN_X] + later)));
    assert [OUTER] + ([a] + ([INNER] + ([RETURN_X] + later))) == [OUTER, a, INNER, RETURN_X] + later;
    assert path[1] in path;
    if Within(path, later) {
      WithinMembers(path, later);
      assert false;
    }
  }
}
