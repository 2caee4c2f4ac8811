/** In which order the sanitizer audit judges the calls of a straight-line function: the walk meets an assignment
    before the calls in its own value, and the decorators after the body, although Python runs both the other way
    round.  When that is right is stated against the evaluation of the body. */
module SiteOrder {
  import opened Options
  import opened Sequences
  import opened PyAst
  import opened Walks
  import opened Facts
  import opened Resolution
  import opened Calls
  import opened Dataflow
  import opened Verdict
  import opened Sanitizers

  /** The call is suppressed, judged by the first `upTo` statements: it loads names they assign, and each of those
      was last assigned from a sanitizer. */
  ghost predicate Suppressed(prog: Program, mod: string, receivers: ReceiverMap, body: seq<Node>, upTo: nat, call: Node)
    requires upTo <= |body|
  {
    && call.Call?
    && (exists x | x in Loads(call) :: LastAssigned(body, upTo, x).Some?)
    && forall x | x in Loads(call) && LastAssigned(body, upTo, x).Some? ::
         Neutralizes(prog, mod, receivers, body[LastAssigned(body, upTo, x).value].value)
  }

  /** The call is evaluated when `k` statements have run, and judged by the first `upTo`: one more for the calls of
      a statement, and all of them for the calls of a decorator. */
  ghost predicate Placed(func: Node, call: Node, k: nat, upTo: nat)
    requires func.FunctionDef?
  {
    || (k < |func.body| && upTo == k + 1 && call in Below([func.body[k]]))
    || (k == 0 && upTo == |func.body| && call in Below(func.decorators))
  }

  // ---------------------------------------------------------------- the sites, statement by statement

  ghost predicate TracksName(prog: Program, mod: string, receivers: ReceiverMap, nodes: seq<Node>, body: seq<Node>,
                             upTo: nat, x: string)
    requires upTo <= |body|
  {
    && (AssignedIn(nodes, x) <==> LastAssigned(body, upTo, x).Some?)
    && (CleanAfter(prog, mod, receivers, nodes, x) <==>
          LastAssigned(body, upTo, x).Some?
          && Neutralizes(prog, mod, receivers, body[LastAssigned(body, upTo, x).value].value))
  }

  /** What the walk knows after these nodes is what the first `upTo` statements did. */
  ghost predicate Tracks(prog: Program, mod: string, receivers: ReceiverMap, nodes: seq<Node>, body: seq<Node>,
                         upTo: nat)
    requires upTo <= |body|
  {
    forall x :: TracksName(prog, mod, receivers, nodes, body, upTo, x)
  }

  lemma AssignedInAppend(nodes: seq<Node>, node: Node, x: string)
    ensures AssignedIn(nodes + [node], x) <==> AssignedIn(nodes, x) || AssignsName(node, x)
  {
    hide AssignsName;
    var all := nodes + [node];
    if AssignedIn(nodes, x) {
      var i :| 0 <= i < |nodes| && AssignsName(nodes[i], x);
      assert AssignsName(all[i], x);
    }
    if AssignsName(node, x) { assert AssignsName(all[|nodes|], x); }
  }

  lemma CleanAppend(prog: Program, mod: string, receivers: ReceiverMap, nodes: seq<Node>, node: Node, x: string)
    ensures CleanAfter(prog, mod, receivers, nodes + [node], x)
            <==> if AssignsName(node, x) then Neutralizes(prog, mod, receivers, node.value)
                 else CleanAfter(prog, mod, receivers, nodes, x)
  {
    hide AssignsName, Neutralizes;
    assert (nodes + [node])[..|nodes|] == nodes;
  }

  /** A statement of the body. */
  lemma TracksStatement(prog: Program, mod: string, receivers: ReceiverMap, nodes: seq<Node>, body: seq<Node>, k: nat)
    requires k < |body| && Tracks(prog, mod, receivers, nodes, body, k)
    ensures Tracks(prog, mod, receivers, nodes + [body[k]], body, k + 1)
  {
    hide Neutralizes, AssignedIn, CleanAfter, TargetNames;
    var more, next := nodes + [body[k]], k + 1;
    forall x
      ensures TracksName(prog, mod, receivers, more, body, next, x)
    {
      assert TracksName(prog, mod, receivers, nodes, body, k, x);
      AssignedInAppend(nodes, body[k], x);
      CleanAppend(prog, mod, receivers, nodes, body[k], x);
    }
  }

  /** A node that assigns nothing. */
  lemma TracksOther(prog: Program, mod: string, receivers: ReceiverMap, nodes: seq<Node>, node: Node, body: seq<Node>,
                    upTo: nat)
    requires upTo <= |body| && !node.Assign? && Tracks(prog, mod, receivers, nodes, body, upTo)
    ensures Tracks(prog, mod, receivers, nodes + [node], body, upTo)
  {
    hide Neutralizes, AssignedIn, CleanAfter, LastAssigned;
    var more := nodes + [node];
    forall x
      ensures TracksName(prog, mod, receivers, more, body, upTo, x)
    {
      assert TracksName(prog, mod, receivers, nodes, body, upTo, x);
      AssignedInAppend(nodes, node, x);
      CleanAppend(prog, mod, receivers, nodes, node, x);
    }
  }

  /** The site loop at one call. */
  lemma CallIsJudged(prog: Program, mod: string, receivers: ReceiverMap, nodes: seq<Node>, call: Node,
                     body: seq<Node>, upTo: nat)
    requires upTo <= |body| && call.Call? && Tracks(prog, mod, receivers, nodes, body, upTo)
    ensures ReplayAll(prog, mod, receivers, nodes + [call]).sites
         == ReplayAll(prog, mod, receivers, nodes).sites
            + if Suppressed(prog, mod, receivers, body, upTo, call) then {call.lineno} else {}
  {
    hide Neutralizes, AssignedIn, CleanAfter, LastAssigned, Loads, ReplayAll;
    ReplayLast(prog, mod, receivers, nodes, call);
    ReplayTracksNames(prog, mod, receivers, nodes);
    var s := ReplayAll(prog, mod, receivers, nodes);
    var relevant := Loads(call) * s.locals;
    forall x
      ensures x in relevant <==> x in Loads(call) && LastAssigned(body, upTo, x).Some?
      ensures x in s.sanitized <==> LastAssigned(body, upTo, x).Some?
                                    && Neutralizes(prog, mod, receivers, body[LastAssigned(body, upTo, x).value].value)
    {
      assert TracksName(prog, mod, receivers, nodes, body, upTo, x);
    }
    assert relevant != {} <==> exists x | x in Loads(call) :: LastAssigned(body, upTo, x).Some?;
  }

  /** The lines of the suppressed calls among these nodes. */
  ghost predicate JudgedAmong(prog: Program, mod: string, receivers: ReceiverMap, nodes: set<Node>, body: seq<Node>,
                              upTo: nat, line: int)
    requires upTo <= |body|
  {
    exists call :: call in nodes && Suppressed(prog, mod, receivers, body, upTo, call) && call.lineno == line
  }

  /** A stretch of nodes without an assignment. */
  lemma {:induction false} StretchIsJudged(prog: Program, mod: string, receivers: ReceiverMap, nodes: seq<Node>,
                                           more: seq<Node>, body: seq<Node>, upTo: nat)
    requires upTo <= |body| && Tracks(prog, mod, receivers, nodes, body, upTo) && forall n | n in more :: !n.Assign?
    ensures Tracks(prog, mod, receivers, nodes + more, body, upTo)
    ensures forall line :: (line in ReplayAll(prog, mod, receivers, nodes + more).sites
      <==> line in ReplayAll(prog, mod, receivers, nodes).sites
           || JudgedAmong(prog, mod, receivers, (set n | n in more), body, upTo, line))
    decreases |more|
  {
    hide Tracks, Suppressed, ReplayAll, Replay;
    if more == [] {
      assert nodes + more == nodes;
    } else {
      var front, last := more[..|more| - 1], more[|more| - 1];
      assert more == front + [last];
      assert nodes + more == (nodes + front) + [last];
      assert forall n :: n in more <==> n in front || n == last;
      StretchIsJudged(prog, mod, receivers, nodes, front, body, upTo);
      TracksOther(prog, mod, receivers, nodes + front, last, body, upTo);
      if last.Call? {
        CallIsJudged(prog, mod, receivers, nodes + front, last, body, upTo);
      } else {
        OtherIsNoSite(prog, mod, receivers, nodes + front, last);
        OnlyCalls(prog, mod, receivers, body, upTo, last);
      }
    }
  }

  lemma OtherIsNoSite(prog: Program, mod: string, receivers: ReceiverMap, nodes: seq<Node>, node: Node)
    requires !node.Call?
    ensures ReplayAll(prog, mod, receivers, nodes + [node]).sites == ReplayAll(prog, mod, receivers, nodes).sites
  {
    hide ReplayAll, Neutralizes;
    ReplayLast(prog, mod, receivers, nodes, node);
  }

  lemma OnlyCalls(prog: Program, mod: string, receivers: ReceiverMap, body: seq<Node>, upTo: nat, node: Node)
    requires upTo <= |body| && !node.Call?
    ensures !Suppressed(prog, mod, receivers, body, upTo, node)
  {
  }

  /** The nodes of one statement. */
  lemma StatementIsJudged(prog: Program, mod: string, receivers: ReceiverMap, root: Node, nodes: seq<Node>,
                          body: seq<Node>, k: nat)
    requires k < |body| && Simple(body[k], None) && Tracks(prog, mod, receivers, nodes, body, k)
    ensures var all := nodes + Ordered(root, false, [body[k]]);
      && Tracks(prog, mod, receivers, all, body, k + 1)
      && forall line :: (line in ReplayAll(prog, mod, receivers, all).sites
           <==> line in ReplayAll(prog, mod, receivers, nodes).sites
                || JudgedAmong(prog, mod, receivers, Below([body[k]]), body, k + 1, line))
  {
    hide Tracks, Suppressed, ReplayAll, Ordered, Below, Walk, Simple;
    var stmt := body[k];
    var rest := Ordered(root, false, Children(stmt));
    OrderedOne(root, stmt);
    assert !stmt.Call? by { SimpleIsNoCall(stmt); }
    TracksStatement(prog, mod, receivers, nodes, body, k);
    OtherIsNoSite(prog, mod, receivers, nodes, stmt);
    SimpleNodes(stmt, None);
    WalkVisitsBelow(Children(stmt));
    OrderedVisitsBelow(root, Children(stmt));
    StretchIsJudged(prog, mod, receivers, nodes + [stmt], rest, body, k + 1);
    assert nodes + Ordered(root, false, [stmt]) == nodes + [stmt] + rest;
    OnlyCalls(prog, mod, receivers, body, k + 1, stmt);
    BelowOne(stmt);
    assert forall n :: n in Below([stmt]) <==> n == stmt || n in rest;
  }

  lemma OrderedOne(root: Node, node: Node)
    ensures Ordered(root, false, [node]) == [node] + Ordered(root, false, Children(node))
  {
    OrderedStep(root, false, node, []);
    assert Children(node) + [] == Children(node) && [node] + [] == [node];
  }

  lemma SimpleIsNoCall(stmt: Node)
    requires Simple(stmt, None)
    ensures !stmt.Call?
  {
  }

  ghost predicate JudgedBefore(prog: Program, mod: string, receivers: ReceiverMap, body: seq<Node>, upTo: nat,
                               line: int)
    requires upTo <= |body|
  {
    exists k: nat :: k < upTo && JudgedAmong(prog, mod, receivers, Below([body[k]]), body, k + 1, line)
  }

  lemma {:induction false} BodyIsJudged(prog: Program, mod: string, receivers: ReceiverMap, root: Node,
                                        nodes: seq<Node>, body: seq<Node>, upTo: nat)
    requires upTo <= |body| && StraightLine(body, None) && Tracks(prog, mod, receivers, nodes, body, 0)
    ensures var all := nodes + Ordered(root, false, body[..upTo]);
      && Tracks(prog, mod, receivers, all, body, upTo)
      && forall line :: (line in ReplayAll(prog, mod, receivers, all).sites
           <==> line in ReplayAll(prog, mod, receivers, nodes).sites
                || JudgedBefore(prog, mod, receivers, body, upTo, line))
    decreases upTo
  {
    hide Tracks, JudgedAmong, ReplayAll, Simple;
    if upTo == 0 {
      assert nodes + Ordered(root, false, body[..0]) == nodes;
    } else {
      var front := nodes + Ordered(root, false, body[..upTo - 1]);
      BodyIsJudged(prog, mod, receivers, root, nodes, body, upTo - 1);
      assert body[..upTo] == body[..upTo - 1] + [body[upTo - 1]];
      OrderedAppend(root, false, body[..upTo - 1], [body[upTo - 1]]);
      StatementIsJudged(prog, mod, receivers, root, front, body, upTo - 1);
      assert nodes + Ordered(root, false, body[..upTo]) == front + Ordered(root, false, [body[upTo - 1]]);
      forall line
        ensures JudgedBefore(prog, mod, receivers, body, upTo, line)
           <==> JudgedBefore(prog, mod, receivers, body, upTo - 1, line)
                || JudgedAmong(prog, mod, receivers, Below([body[upTo - 1]]), body, upTo, line)
      {
      }
    }
  }

  /** Python's grammar: parameters and decorators hold no statement. */
  ghost predicate Shaped(func: Node)
    requires func.FunctionDef?
  {
    && Grammatical([func.parameters]) && IsInsideExpression(func.parameters)
    && Grammatical(func.decorators) && forall d | d in func.decorators :: IsInsideExpression(d)
  }

  ghost predicate JudgedIn(prog: Program, mod: string, receivers: ReceiverMap, func: Node, line: int)
    requires func.FunctionDef?
  {
    exists call, k: nat, upTo: nat ::
      Placed(func, call, k, upTo) && Suppressed(prog, mod, receivers, func.body, upTo, call) && call.lineno == line
  }

  /** The audit's sites in a straight-line function: the calls of each statement, judged as if it had run, and the
      calls of the decorators, judged as if the body had run. */
  lemma SitesAreJudged(prog: Program, mod: string, func: Node, qual: string)
    requires func.FunctionDef? && Shaped(func) && StraightLine(func.body, None)
    ensures forall line :: (line in Sanitizers.SitesOf(prog, mod, func, qual)
                            <==> JudgedIn(prog, mod, ReceiversIn(prog, mod, func, qual), func, line))
  {
    hide Tracks, Suppressed, ReplayAll, Ordered, Below, Simple, Grammatical, JudgedAmong, ReceiversIn;
    var receivers, body := ReceiversIn(prog, mod, func, qual), func.body;
    var head, deco := [func] + Ordered(func, false, [func.parameters]), Ordered(func, false, func.decorators);
    var front := head + Ordered(func, false, body);
    FunctionParts(func);
    StartTracks(prog, mod, receivers, body);
    ExpressionNodes(func, [func.parameters]);
    StretchIsJudged(prog, mod, receivers, [], head, body, 0);
    assert [] + head == head && body[..|body|] == body;
    NothingAtStart(prog, mod, receivers, (set n | n in head), body);
    BodyIsJudged(prog, mod, receivers, func, head, body, |body|);
    ExpressionNodes(func, func.decorators);
    StretchIsJudged(prog, mod, receivers, front, deco, body, |body|);
    OrderedVisitsBelow(func, func.decorators);
    assert (set n | n in deco) == Below(func.decorators);
    forall line {
      JudgedParts(prog, mod, receivers, func, line);
    }
  }

  lemma FunctionParts(func: Node)
    requires func.FunctionDef?
    ensures Ordered(func, false, [func])
         == [func] + Ordered(func, false, [func.parameters]) + Ordered(func, false, func.body)
            + Ordered(func, false, func.decorators)
  {
    OrderedOne(func, func);
    var p, b, d := [func.parameters], func.body, func.decorators;
    assert Children(func) == (p + b) + d;
    OrderedAppend(func, false, p + b, d);
    OrderedAppend(func, false, p, b);
    hide *;
    Assoc([func], Ordered(func, false, p) + Ordered(func, false, b), Ordered(func, false, d));
    Assoc([func], Ordered(func, false, p), Ordered(func, false, b));
  }

  lemma StartTracks(prog: Program, mod: string, receivers: ReceiverMap, body: seq<Node>)
    ensures Tracks(prog, mod, receivers, [], body, 0) && ReplayAll(prog, mod, receivers, []).sites == {}
  {
  }

  lemma NothingAtStart(prog: Program, mod: string, receivers: ReceiverMap, nodes: set<Node>, body: seq<Node>)
    ensures forall line :: !JudgedAmong(prog, mod, receivers, nodes, body, 0, line)
  {
  }

  lemma ExpressionNodes(root: Node, ns: seq<Node>)
    requires Grammatical(ns) && forall n | n in ns :: IsInsideExpression(n)
    ensures forall n | n in Ordered(root, false, ns) :: !n.Assign?
  {
    ExpressionsHoldNoStatement(ns);
    OrderedVisitsBelow(root, ns);
  }

  lemma JudgedParts(prog: Program, mod: string, receivers: ReceiverMap, func: Node, line: int)
    requires func.FunctionDef?
    ensures JudgedIn(prog, mod, receivers, func, line)
       <==> JudgedBefore(prog, mod, receivers, func.body, |func.body|, line)
            || JudgedAmong(prog, mod, receivers, Below(func.decorators), func.body, |func.body|, line)
  {
    hide Neutralizes, Loads, LastAssigned, Below;
    if JudgedBefore(prog, mod, receivers, func.body, |func.body|, line) {
      var k: nat :| k < |func.body| && JudgedAmong(prog, mod, receivers, Below([func.body[k]]), func.body, k + 1, line);
      var call :| call in Below([func.body[k]]) && Suppressed(prog, mod, receivers, func.body, k + 1, call)
          && call.lineno == line;
      assert Placed(func, call, k, k + 1);
    }
    if JudgedAmong(prog, mod, receivers, Below(func.decorators), func.body, |func.body|, line) {
      var call :| call in Below(func.decorators) && Suppressed(prog, mod, receivers, func.body, |func.body|, call)
                  && call.lineno == line;
      assert Placed(func, call, 0, |func.body|);
    }
  }

  // ---------------------------------------------------------------- what suppressed calls receive

  /** After `k` statements the name holds a value that a resolved sanitizer made. */
  ghost predicate HoldsMade<V(!new)>(prog: Program, mod: string, receivers: ReceiverMap, body: seq<Node>, k: nat,
                                     x: string, sem: Semantics<V>, env: Env<V>)
    requires k <= |body|
  {
    exists j: nat, made :: j < k && made in Expressions(body[j]) && Neutralizes(prog, mod, receivers, made)
      && EnvAt(body, k, None, sem, env)(x) == Eval(made, None, sem, EnvAt(body, j, None, sem, env))
  }

  /** A suppressed call and a name it is suppressed for. */
  ghost predicate SuppressedFor(prog: Program, mod: string, receivers: ReceiverMap, func: Node, call: Node, k: nat,
                                upTo: nat, x: string)
    requires func.FunctionDef?
  {
    && Placed(func, call, k, upTo) && Suppressed(prog, mod, receivers, func.body, upTo, call)
    && x in Loads(call) && LastAssigned(func.body, upTo, x).Some?
  }

  /** Every name a suppressed call is suppressed for holds a sanitizer's value when the call is evaluated. */
  ghost predicate ReceivesMade<V(!new)>(prog: Program, mod: string, receivers: ReceiverMap, func: Node,
                                        sem: Semantics<V>, env: Env<V>)
    requires func.FunctionDef?
  {
    forall call, k: nat, upTo: nat, x | SuppressedFor(prog, mod, receivers, func, call, k, upTo, x) ::
      HoldsMade(prog, mod, receivers, func.body, k, x, sem, env)
  }

  /** Whenever the assignment a name is judged by has not run when the call is evaluated, the value the name holds
      until then comes, copies undone, from a sanitizer too. */
  ghost predicate JudgedInTime(prog: Program, mod: string, receivers: ReceiverMap, func: Node)
    requires func.FunctionDef?
  {
    forall call, k: nat, upTo: nat, x |
      SuppressedFor(prog, mod, receivers, func, call, k, upTo, x) && LastAssigned(func.body, upTo, x).value >= k ::
      Neutralizes(prog, mod, receivers, Origin(func.body, k, Name(x, true)).1)
  }

  lemma NeutralizesCalls(prog: Program, mod: string, receivers: ReceiverMap, n: Node)
    requires Neutralizes(prog, mod, receivers, n)
    ensures n.Call?
  {
  }

  /** An assignment that has run is the last one before the call. */
  lemma LastAssignedEarlier(body: seq<Node>, k: nat, upTo: nat, x: string)
    requires k <= upTo <= |body| && LastAssigned(body, upTo, x).Some? && LastAssigned(body, upTo, x).value < k
    ensures LastAssigned(body, k, x) == LastAssigned(body, upTo, x)
    decreases upTo
  {
    hide TargetNames;
    if k < upTo { LastAssignedEarlier(body, k, upTo - 1, x); }
  }

  lemma NameIsRead<V>(body: seq<Node>, k: nat, sem: Semantics<V>, env: Env<V>, x: string)
    requires k <= |body|
    ensures Eval(Name(x, true), None, sem, EnvAt(body, k, None, sem, env)) == EnvAt(body, k, None, sem, env)(x)
  {
  }

  lemma JudgedInTimeReceivesMade<V(!new)>(prog: Program, mod: string, receivers: ReceiverMap, func: Node,
                                          sem: Semantics<V>, env: Env<V>)
    requires func.FunctionDef? && JudgedInTime(prog, mod, receivers, func)
    ensures ReceivesMade(prog, mod, receivers, func, sem, env)
  {
    hide Neutralizes, Loads, Below, Eval, EnvAt, Origin;
    var body := func.body;
    forall call, k: nat, upTo: nat, x | SuppressedFor(prog, mod, receivers, func, call, k, upTo, x)
      ensures HoldsMade(prog, mod, receivers, body, k, x, sem, env)
    {
      var i := LastAssigned(body, upTo, x).value;
      if i < k {
        LastAssignedEarlier(body, k, upTo, x);
        ValueOfName(body, k, None, sem, env, x);
        assert body[i].value in Expressions(body[i]);
      } else {
        var o := Origin(body, k, Name(x, true));
        OriginValue(body, k, Name(x, true), None, sem, env);
        NameIsRead(body, k, sem, env, x);
        NeutralizesCalls(prog, mod, receivers, o.1);
        assert o.0 < k && o.1 in Expressions(body[o.0]);
      }
    }
  }

  /** A name that comes from no sanitizer holds, where values show how they were made, no sanitizer's value. */
  lemma UnmadeShows(prog: Program, mod: string, receivers: ReceiverMap, body: seq<Node>, k: nat, x: string)
    requires k <= |body| && !Neutralizes(prog, mod, receivers, Origin(body, k, Name(x, true)).1)
    ensures !HoldsMade(prog, mod, receivers, body, k, x, FREE, PLAIN)
  {
    hide Neutralizes, Eval, EnvAt, Origin, LastAssigned;
    var o := Origin(body, k, Name(x, true));
    OriginValue(body, k, Name(x, true), None, FREE, PLAIN);
    NameIsRead(body, k, FREE, PLAIN, x);
    TermOf(o.1, None, EnvAt(body, o.0, None, FREE, PLAIN));
    if o.1.Name? {
      ValueOfName(body, o.0, None, FREE, PLAIN, o.1.id);
    }
    forall j: nat, made | j < k && made in Expressions(body[j]) && Neutralizes(prog, mod, receivers, made)
      ensures EnvAt(body, k, None, FREE, PLAIN)(x) != Eval(made, None, FREE, EnvAt(body, j, None, FREE, PLAIN))
    {
      NeutralizesCalls(prog, mod, receivers, made);
      TermOf(made, None, EnvAt(body, j, None, FREE, PLAIN));
    }
  }

  /** Exactly when the audit suppresses only calls that receive sanitizers' values, whatever the expressions
      compute: the names it judges by an assignment still to come were made by a sanitizer before. */
  lemma ReceivesMadeIff(prog: Program, mod: string, receivers: ReceiverMap, func: Node)
    requires func.FunctionDef?
    ensures (forall sem: Semantics<Term>, env: Env<Term> :: ReceivesMade(prog, mod, receivers, func, sem, env))
       <==> JudgedInTime(prog, mod, receivers, func)
  {
    hide Suppressed, Below, Neutralizes, HoldsMade, Origin, LastAssigned;
    if JudgedInTime(prog, mod, receivers, func) {
      forall sem: Semantics<Term>, env: Env<Term>
        ensures ReceivesMade(prog, mod, receivers, func, sem, env)
      {
        JudgedInTimeReceivesMade(prog, mod, receivers, func, sem, env);
      }
    } else {
      forall call, k: nat, upTo: nat, x |
        SuppressedFor(prog, mod, receivers, func, call, k, upTo, x)
        && !Neutralizes(prog, mod, receivers, Origin(func.body, k, Name(x, true)).1)
        ensures !ReceivesMade(prog, mod, receivers, func, FREE, PLAIN)
      {
        UnmadeShows(prog, mod, receivers, func.body, k, x);
      }
    }
  }

  // ---------------------------------------------------------------- a call judged too early

  const X: Node := Name("x", true)
  const INNER: Node := Call(Name("execute", true), [X], [], 2)
  const OUTER: Node := Call(Name("clean", true), [INNER], [], 2)

  /** `def f(x): x = clean(execute(x))` */
  const EARLY_FUNC: Node :=
    FunctionDef("f", Arguments(["x"], false, None, []), [Assign([Name("x", false)], OUTER)], [])

  /** Wherever `clean` is a sanitizer, the inner call is suppressed and receives the raw argument. */
  lemma InnerCallIsSuppressed<V(!new)>(prog: Program, mod: string, qual: string, sem: Semantics<V>, env: Env<V>)
    requires Neutralizes(prog, mod, ReceiversIn(prog, mod, EARLY_FUNC, qual), OUTER)
    ensures var receivers := ReceiversIn(prog, mod, EARLY_FUNC, qual);
      && SuppressedFor(prog, mod, receivers, EARLY_FUNC, INNER, 0, 1, "x")
      && 2 in Sanitizers.SitesOf(prog, mod, EARLY_FUNC, qual)
      && !ReceivesMade(prog, mod, receivers, EARLY_FUNC, sem, env)
  {
    hide Neutralizes, ReceiversIn, Sanitizers.SitesOf;
    var receivers, body := ReceiversIn(prog, mod, EARLY_FUNC, qual), EARLY_FUNC.body;
    EarlyNodes();
    SitesAreJudged(prog, mod, EARLY_FUNC, qual);
    assert LastAssigned(body, 1, "x") == Some(0);
    assert forall x | LastAssigned(body, 1, x).Some? :: LastAssigned(body, 1, x) == Some(0);
    assert Suppressed(prog, mod, receivers, body, 1, INNER);
    assert Placed(EARLY_FUNC, INNER, 0, 1);
    assert SuppressedFor(prog, mod, receivers, EARLY_FUNC, INNER, 0, 1, "x");
    assert JudgedIn(prog, mod, receivers, EARLY_FUNC, 2);
    assert !HoldsMade(prog, mod, receivers, body, 0, "x", sem, env);
  }

  lemma EarlyExpressions()
    ensures Below([INNER]) == {INNER, Name("execute", true), X}
    ensures Below([OUTER]) == {OUTER, Name("clean", true)} + Below([INNER])
    ensures INNER in Below([EARLY_FUNC.body[0]])
  {
    hide Below;
    BelowName("x", true);
    BelowName("x", false);
    BelowName("clean", true);
    BelowName("execute", true);
    assert Children(INNER) == [Name("execute", true), X] && Children(OUTER) == [Name("clean", true), INNER];
    BelowPair(INNER, Name("execute", true), X);
    BelowPair(OUTER, Name("clean", true), INNER);
    assert Children(EARLY_FUNC.body[0]) == [Name("x", false), OUTER];
    BelowPair(EARLY_FUNC.body[0], Name("x", false), OUTER);
  }

  lemma EarlyNodes()
    ensures INNER in Below([EARLY_FUNC.body[0]]) && "x" in Loads(INNER)
    ensures Shaped(EARLY_FUNC) && StraightLine(EARLY_FUNC.body, None)
  {
    EarlyExpressions();
    hide Below, Loads, Shaped, StraightLine;
    InnerLoads();
    OuterIsPlain();
    EarlyIsShaped();
  }

  lemma InnerLoads()
    ensures "x" in Loads(INNER)
  {
    EarlyExpressions();
    WalkVisitsBelow([INNER]);
    hide Below, Walk;
    assert X in Walk([INNER]);
  }

  lemma OuterIsPlain()
    ensures Plain(OUTER) && StraightLine(EARLY_FUNC.body, None)
  {
    EarlyExpressions();
    hide Below, Reads;
  }

  lemma EarlyIsShaped()
    ensures Shaped(EARLY_FUNC)
  {
    var p := EARLY_FUNC.parameters;
    BelowOne(p);
    assert Children(p) == [] && Below([]) == {};
    hide Below;
    assert forall n | n in Below([p]) :: n == p;
  }
}
