/** The explicit-stack tree walks of the cross-file engine, each proved equal to the recursive
    walk it replaces. */
module Walks {
  import opened PyAst
  import opened Sequences

  // ---------------------------------------------------------------- stacks

  /** The top of a stack is its last element; this lists it first. */
  function FromTop<T>(stack: seq<T>): (r: seq<T>)
    ensures |r| == |stack|
  {
    seq(|stack|, i requires 0 <= i < |stack| => stack[|stack| - 1 - i])
  }

  lemma PopTop<T>(stack: seq<T>)
    requires stack != []
    ensures FromTop(stack) == [stack[|stack| - 1]] + FromTop(stack[..|stack| - 1])
  {
  }

  /** Pushing the reversed children on the end of a stack puts them, in order, on top. */
  lemma PushReversed<T>(below: seq<T>, children: seq<T>)
    ensures FromTop(below + FromTop(children)) == children + FromTop(below)
  {
    var lhs, rhs := FromTop(below + FromTop(children)), children + FromTop(below);
    assert forall i | 0 <= i < |lhs| :: lhs[i] == rhs[i];
  }

  // ---------------------------------------------------------------- node filters

  /** `_GATE_RECEIVER_NODES`. */
  predicate IsAssignment(n: Node) {
    n.Assign? || n.OtherAssign?
  }

  /** `_GATE_SITE_NODES`. */
  predicate IsSiteNode(n: Node) {
    IsAssignment(n) || n.Call?
  }

  function Filter(keep: Node -> bool, ns: seq<Node>): seq<Node> {
    if ns == [] then []
    else (if keep(ns[0]) then [ns[0]] else []) + Filter(keep, ns[1..])
  }

  lemma {:induction false} FilterAppend(keep: Node -> bool, a: seq<Node>, b: seq<Node>)
    ensures Filter(keep, a + b) == Filter(keep, a) + Filter(keep, b)
  {
    if a == [] {
      assert a + b == b;
    } else {
      assert (a + b)[1..] == a[1..] + b;
      FilterAppend(keep, a[1..], b);
      Assoc(if keep(a[0]) then [a[0]] else [], Filter(keep, a[1..]), Filter(keep, b));
    }
  }

  // ---------------------------------------------------------------- the ordered walk

  /** The trees that a visit of `node` puts in front of the others. */
  function Entered(root: Node, skipScopes: bool, node: Node): seq<Node> {
    if skipScopes && node != root && IsScope(node) then [] else Children(node)
  }

  lemma StepShrinks(root: Node, skipScopes: bool, node: Node, rest: seq<Node>)
    ensures Forest(Entered(root, skipScopes, node) + rest) < Forest([node] + rest)
  {
    ForestOfChildren(node);
    ForestAppend(Entered(root, skipScopes, node), rest);
    assert ([node] + rest)[1..] == rest;
  }

  /** The nodes of the trees in source order, parents first; with `skipScopes`, a scope other
      than `root` is visited but not entered. */
  function Ordered(root: Node, skipScopes: bool, todo: seq<Node>): seq<Node>
    decreases Forest(todo)
  {
    if todo == [] then [] else
      StepShrinks(root, skipScopes, todo[0], todo[1..]);
      assert [todo[0]] + todo[1..] == todo;
      [todo[0]] + Ordered(root, skipScopes, Entered(root, skipScopes, todo[0]) + todo[1..])
  }

  lemma OrderedStep(root: Node, skipScopes: bool, node: Node, rest: seq<Node>)
    ensures Ordered(root, skipScopes, [node] + rest)
         == [node] + Ordered(root, skipScopes, Entered(root, skipScopes, node) + rest)
  {
    assert ([node] + rest)[1..] == rest;
  }

  lemma {:induction false} OrderedAppend(root: Node, skipScopes: bool, a: seq<Node>, b: seq<Node>)
    ensures Ordered(root, skipScopes, a + b) == Ordered(root, skipScopes, a) + Ordered(root, skipScopes, b)
    decreases Forest(a)
  {
    if a == [] {
      assert a + b == b;
    } else {
      hide *;
      var node, rest := a[0], a[1..];
      var kids := Entered(root, skipScopes, node);
      SplitFirst(a);
      Assoc([node], rest, b);
      Assoc(kids, rest, b);
      StepShrinks(root, skipScopes, node, rest);
      OrderedStep(root, skipScopes, node, rest);
      OrderedStep(root, skipScopes, node, rest + b);
      OrderedAppend(root, skipScopes, kids + rest, b);
      Assoc([node], Ordered(root, skipScopes, kids + rest), Ordered(root, skipScopes, b));
    }
  }

  /** Every node is visited when scopes are entered. */
  lemma {:induction false} OrderedVisitsBelow(root: Node, todo: seq<Node>)
    ensures forall x :: x in Ordered(root, false, todo) <==> x in Below(todo)
    decreases Forest(todo)
  {
    if todo != [] {
      var node, rest := todo[0], todo[1..];
      StepShrinks(root, false, node, rest);
      assert [node] + rest == todo;
      OrderedStep(root, false, node, rest);
      OrderedVisitsBelow(root, Children(node) + rest);
      BelowAppend(Children(node), rest);
    }
  }

  /** Whether or not scopes are entered, only nodes of the trees are visited. */
  lemma {:induction false} OrderedIsBelow(root: Node, skipScopes: bool, todo: seq<Node>)
    ensures forall x | x in Ordered(root, skipScopes, todo) :: x in Below(todo)
    decreases Forest(todo)
  {
    if todo != [] {
      var node, rest := todo[0], todo[1..];
      StepShrinks(root, skipScopes, node, rest);
      assert [node] + rest == todo;
      OrderedStep(root, skipScopes, node, rest);
      OrderedIsBelow(root, skipScopes, Entered(root, skipScopes, node) + rest);
      BelowAppend(Entered(root, skipScopes, node), rest);
    }
  }

  /** One round of the stack loop: the top node comes next, and the stack then owes the rest. */
  lemma VisitStep(root: Node, skipScopes: bool, stack: seq<Node>, node: Node, below: seq<Node>, next: seq<Node>)
    requires stack == below + [node]
    requires next == if skipScopes && node != root && IsScope(node) then below
                     else below + FromTop(Children(node))
    ensures Ordered(root, skipScopes, FromTop(stack)) == [node] + Ordered(root, skipScopes, FromTop(next))
    ensures Forest(FromTop(next)) < Forest(FromTop(stack))
  {
    assert FromTop(stack) == [node] + FromTop(below) by { PopTop(stack); }
    assert FromTop(next) == Entered(root, skipScopes, node) + FromTop(below) by {
      PushReversed(below, Children(node));
    }
    hide *;
    OrderedStep(root, skipScopes, node, FromTop(below));
    StepShrinks(root, skipScopes, node, FromTop(below));
  }

  method OrderedNodes(root: Node, skipScopes: bool) returns (yielded: seq<Node>)
    ensures yielded == Ordered(root, skipScopes, [root])
  {
    var stack := [root];
    yielded := [];
    assert FromTop(stack) == [root] && Ordered(root, skipScopes, FromTop([])) == [];
    hide *;
    while stack != []
      invariant yielded + Ordered(root, skipScopes, FromTop(stack)) == Ordered(root, skipScopes, [root])
      decreases Forest(FromTop(stack))
    {
      ghost var before, done := stack, yielded;
      var node := stack[|stack| - 1];
      stack := stack[..|stack| - 1];
      yielded := yielded + [node];
      assert before == stack + [node];
      ghost var below := stack;
      if !(skipScopes && node != root && IsScope(node)) {
        stack := stack + FromTop(Children(node));
      }
      VisitStep(root, skipScopes, before, node, below, stack);
      Assoc(done, [node], Ordered(root, skipScopes, FromTop(stack)));
    }
  }

  // ---------------------------------------------------------------- record, then replay

  /** The own-scope nodes still to come from a list of (node, scope depth) pairs. */
  function OwnPending(root: Node, todo: seq<(Node, nat)>): seq<Node> {
    if todo == [] then []
    else (if todo[0].1 == 0 then Ordered(root, true, [todo[0].0]) else []) + OwnPending(root, todo[1..])
  }

  function Nodes(todo: seq<(Node, nat)>): (ns: seq<Node>) {
    seq(|todo|, i requires 0 <= i < |todo| => todo[i].0)
  }

  function AtDepth(ns: seq<Node>, depth: nat): (todo: seq<(Node, nat)>) {
    seq(|ns|, i requires 0 <= i < |ns| => (ns[i], depth))
  }

  lemma {:induction false} OwnPendingAppend(root: Node, a: seq<(Node, nat)>, b: seq<(Node, nat)>)
    ensures OwnPending(root, a + b) == OwnPending(root, a) + OwnPending(root, b)
  {
    if a == [] {
      assert a + b == b;
    } else {
      hide Ordered;
      assert (a + b)[1..] == a[1..] + b;
      OwnPendingAppend(root, a[1..], b);
      Assoc(if a[0].1 == 0 then Ordered(root, true, [a[0].0]) else [],
            OwnPending(root, a[1..]), OwnPending(root, b));
    }
  }

  lemma {:induction false} OwnPendingAtDepth(root: Node, ns: seq<Node>, depth: nat)
    ensures OwnPending(root, AtDepth(ns, depth)) == if depth == 0 then Ordered(root, true, ns) else []
  {
    if ns != [] {
      hide Ordered;
      assert AtDepth(ns, depth)[1..] == AtDepth(ns[1..], depth);
      OwnPendingAtDepth(root, ns[1..], depth);
      assert ns == [ns[0]] + ns[1..];
      OrderedAppend(root, true, [ns[0]], ns[1..]);
    }
  }

  /** Popping one pair: what it contributes now, and what its children contribute later. */
  lemma OwnStep(root: Node, node: Node, depth: nat, rest: seq<(Node, nat)>)
    ensures
      OwnPending(root, [(node, depth)] + rest)
      == (if depth == 0 then [node] else [])
         + OwnPending(root, AtDepth(Children(node), ChildDepth(root, node, depth)) + rest)
  {
    var kids := AtDepth(Children(node), ChildDepth(root, node, depth));
    var owed := if depth == 0 then Ordered(root, true, [node]) else [];
    assert OwnPending(root, [(node, depth)] + rest) == owed + OwnPending(root, rest) by {
      hide Ordered;
      assert ([(node, depth)] + rest)[1..] == rest;
    }
    OwnNow(root, node, depth);
    hide *;
    OwnPendingAppend(root, kids, rest);
    Assoc(if depth == 0 then [node] else [], OwnPending(root, kids), OwnPending(root, rest));
  }

  function ChildDepth(root: Node, node: Node, depth: nat): nat {
    if node != root && IsScope(node) then depth + 1 else depth
  }

  lemma OwnNow(root: Node, node: Node, depth: nat)
    ensures (if depth == 0 then Ordered(root, true, [node]) else [])
         == (if depth == 0 then [node] else [])
            + OwnPending(root, AtDepth(Children(node), ChildDepth(root, node, depth)))
  {
    OwnPendingAtDepth(root, Children(node), ChildDepth(root, node, depth));
    OrderedStep(root, true, node, []);
    assert Ordered(root, true, []) == [];
    hide Ordered, OwnPending, AtDepth;
    assert [node] + [] == [node] && Children(node) + [] == Children(node);
  }

  lemma NodesOfChildren(ns: seq<Node>, depth: nat, rest: seq<(Node, nat)>)
    ensures Nodes(AtDepth(ns, depth) + rest) == ns + Nodes(rest)
  {
  }

  lemma NodesOfPair(node: Node, depth: nat, rest: seq<(Node, nat)>)
    ensures Nodes([(node, depth)] + rest) == [node] + Nodes(rest)
  {
  }

  lemma FilterOne(keep: Node -> bool, present: bool, node: Node)
    ensures Filter(keep, if present then [node] else []) == if present && keep(node) then [node] else []
  {
  }

  /** What the two recorded lists still owe, in terms of the stack. */
  lemma RecordStep(root: Node, node: Node, depth: nat, rest: seq<(Node, nat)>)
    ensures
      var children := AtDepth(Children(node), ChildDepth(root, node, depth));
      var todo := [(node, depth)] + rest;
      && Filter(IsAssignment, OwnPending(root, todo))
         == (if depth == 0 && IsAssignment(node) then [node] else [])
            + Filter(IsAssignment, OwnPending(root, children + rest))
      && Filter(IsSiteNode, Ordered(root, false, Nodes(todo)))
         == (if IsSiteNode(node) then [node] else [])
            + Filter(IsSiteNode, Ordered(root, false, Nodes(children + rest)))
      && Forest(Nodes(children + rest)) < Forest(Nodes(todo))
  {
    var children := AtDepth(Children(node), ChildDepth(root, node, depth));
    assert Entered(root, false, node) == Children(node);
    hide *;
    OwnStep(root, node, depth, rest);
    FilterAppend(IsAssignment, if depth == 0 then [node] else [], OwnPending(root, children + rest));
    FilterOne(IsAssignment, depth == 0, node);
    NodesOfPair(node, depth, rest);
    NodesOfChildren(Children(node), ChildDepth(root, node, depth), rest);
    OrderedStep(root, false, node, Nodes(rest));
    StepShrinks(root, false, node, Nodes(rest));
    FilterAppend(IsSiteNode, [node], Ordered(root, false, Nodes(children + rest)));
    FilterOne(IsSiteNode, true, node);
  }

  /** One round of the recording loop. */
  lemma RecordRound(root: Node, stack: seq<(Node, nat)>, node: Node, depth: nat, below: seq<(Node, nat)>)
    requires stack == below + [(node, depth)]
    ensures
      var next := below + FromTop(AtDepth(Children(node), ChildDepth(root, node, depth)));
      && Filter(IsAssignment, OwnPending(root, FromTop(stack)))
         == (if depth == 0 && IsAssignment(node) then [node] else [])
            + Filter(IsAssignment, OwnPending(root, FromTop(next)))
      && Filter(IsSiteNode, Ordered(root, false, Nodes(FromTop(stack))))
         == (if IsSiteNode(node) then [node] else [])
            + Filter(IsSiteNode, Ordered(root, false, Nodes(FromTop(next))))
      && Forest(Nodes(FromTop(next))) < Forest(Nodes(FromTop(stack)))
  {
    var children := AtDepth(Children(node), ChildDepth(root, node, depth));
    assert FromTop(stack) == [(node, depth)] + FromTop(below) by { PopTop(stack); }
    hide *;
    PushReversed(below, children);
    RecordStep(root, node, depth, FromTop(below));
  }

  lemma NothingLeft(root: Node)
    ensures OwnPending(root, FromTop([])) == [] && Filter(IsAssignment, []) == []
    ensures Filter(IsSiteNode, Ordered(root, false, Nodes(FromTop([])))) == []
    ensures OwnPending(root, FromTop([(root, 0)])) == Ordered(root, true, [root])
    ensures Nodes(FromTop([(root, 0)])) == [root]
  {
    assert FromTop([(root, 0)]) == AtDepth([root], 0) && Nodes(FromTop([(root, 0)])) == [root];
    OwnPendingAtDepth(root, [root], 0);
  }

  /** One walk records both lists; each equals the filtered walk it replaces. */
  method RecordProductive(root: Node) returns (ownAssigns: seq<Node>, productive: seq<Node>)
    ensures ownAssigns == Filter(IsAssignment, Ordered(root, true, [root]))
    ensures productive == Filter(IsSiteNode, Ordered(root, false, [root]))
  {
    hide Ordered, Forest, Children, OwnPending, Filter, Nodes, AtDepth, FromTop, IsSiteNode, IsAssignment;
    ownAssigns, productive := [], [];
    var stack: seq<(Node, nat)> := [(root, 0)];
    NothingLeft(root);
    while stack != []
      invariant ownAssigns + Filter(IsAssignment, OwnPending(root, FromTop(stack)))
             == Filter(IsAssignment, Ordered(root, true, [root]))
      invariant productive + Filter(IsSiteNode, Ordered(root, false, Nodes(FromTop(stack))))
             == Filter(IsSiteNode, Ordered(root, false, [root]))
      decreases Forest(Nodes(FromTop(stack)))
    {
      ghost var before, own, sites := stack, ownAssigns, productive;
      var (node, depth) := stack[|stack| - 1];
      stack := stack[..|stack| - 1];
      assert before == stack + [(node, depth)];
      RecordRound(root, before, node, depth, stack);
      if depth == 0 && IsAssignment(node) {
        ownAssigns := ownAssigns + [node];
      }
      if IsSiteNode(node) {
        productive := productive + [node];
      }
      var childDepth: nat := if node != root && IsScope(node) then depth + 1 else depth;
      stack := stack + FromTop(AtDepth(Children(node), childDepth));
      Assoc(own, if depth == 0 && IsAssignment(node) then [node] else [],
            Filter(IsAssignment, OwnPending(root, FromTop(stack))));
      Assoc(sites, if IsSiteNode(node) then [node] else [],
            Filter(IsSiteNode, Ordered(root, false, Nodes(FromTop(stack)))));
    }
  }

  // ---------------------------------------------------------------- the assignment gate

  predicate IsInsideExpression(n: Node) {
    IsExpression(n) || IsAuxiliary(n)
  }

  /** Python's grammar, as far as the gate needs it: no statement sits inside an expression. */
  ghost predicate Grammatical(ns: seq<Node>) {
    forall x | x in Below(ns) && IsInsideExpression(x) :: forall c | c in Children(x) :: IsInsideExpression(c)
  }

  lemma {:induction false} ExpressionsHoldNoStatement(ns: seq<Node>)
    requires Grammatical(ns)
    requires forall n | n in ns :: IsInsideExpression(n)
    ensures forall x | x in Below(ns) :: IsInsideExpression(x)
    decreases Forest(ns)
  {
    if ns != [] {
      ForestOfChildren(ns[0]);
      assert ns[0] in Below(ns);
      ExpressionsHoldNoStatement(Children(ns[0]));
      ExpressionsHoldNoStatement(ns[1..]);
    }
  }

  ghost function AssignmentsIn(ns: seq<Node>): set<Node> {
    set x | x in Below(ns) && IsAssignment(x)
  }

  /** The assignments strictly below some node of a list. */
  ghost function AssignmentsUnder(ns: seq<Node>): set<Node> {
    if ns == [] then {} else AssignmentsIn(Children(ns[0])) + AssignmentsUnder(ns[1..])
  }

  lemma {:induction false} AssignmentsUnderAppend(a: seq<Node>, b: seq<Node>)
    ensures AssignmentsUnder(a + b) == AssignmentsUnder(a) + AssignmentsUnder(b)
  {
    if a == [] {
      assert a + b == b;
    } else {
      assert (a + b)[1..] == a[1..] + b;
      hide AssignmentsIn;
      AssignmentsUnderAppend(a[1..], b);
    }
  }

  lemma AssignmentsUnderOne(n: Node)
    ensures AssignmentsUnder([n]) == AssignmentsIn(Children(n))
  {
    assert [n][1..] == [];
  }

  /** What one child of a popped node accounts for. */
  lemma AssignmentsOfChild(child: Node, later: seq<Node>)
    requires Grammatical([child])
    ensures AssignmentsIn([child] + later) == AssignmentsIn([child]) + AssignmentsIn(later)
    ensures IsExpression(child) ==> AssignmentsIn([child]) == {}
    ensures IsAssignment(child) ==> child in AssignmentsIn([child])
    ensures !IsAssignment(child) ==> AssignmentsIn([child]) == AssignmentsUnder([child])
  {
    BelowAppend([child], later);
    AssignmentsUnderOne(child);
    assert [child][1..] == [];
    if IsExpression(child) {
      ExpressionsHoldNoStatement([child]);
    }
  }

  lemma PopUnder(stack: seq<Node>, node: Node)
    ensures AssignmentsUnder(stack + [node]) == AssignmentsUnder(stack) + AssignmentsIn(Children(node))
    ensures Forest(stack + [node]) == Forest(stack) + 1 + Forest(Children(node))
  {
    AssignmentsUnderAppend(stack, [node]);
    AssignmentsUnderOne(node);
    ForestAppend(stack, [node]);
    ForestOfChildren(node);
    assert [node][1..] == [];
  }

  /** Everything on the stack is a node of the tree. */
  ghost predicate Inside(root: Node, ns: seq<Node>) {
    forall s | s in ns :: Below([s]) <= Below([root])
  }

  lemma ChildInside(root: Node, node: Node, child: Node)
    requires Grammatical([root]) && Inside(root, [node]) && child in Children(node)
    ensures Grammatical([child]) && Inside(root, [child])
  {
    assert node in [node];
    BelowChild(node, child);
  }

  lemma InsideAppend(root: Node, a: seq<Node>, b: seq<Node>)
    ensures Inside(root, a + b) <==> Inside(root, a) && Inside(root, b)
  {
    assert forall x :: x in a + b <==> x in a || x in b;
  }

  /** The gate's loop state: what is wanted is what the stack and the unread children still hold,
      and the stack has grown by no more than the children read so far. */
  ghost predicate Searching(root: Node, want: set<Node>, below: seq<Node>, stack: seq<Node>,
                            children: seq<Node>, i: nat)
    requires i <= |children|
  {
    && Inside(root, stack)
    && want == AssignmentsUnder(stack) + AssignmentsIn(children[i..])
    && Forest(stack) <= Forest(below) + Forest(children[..i])
  }

  lemma SearchMeans(root: Node, want: set<Node>, below: seq<Node>, stack: seq<Node>, children: seq<Node>, i: nat)
    requires i <= |children|
    ensures Searching(root, want, below, stack, children, i) <==>
            && Inside(root, stack)
            && want == AssignmentsUnder(stack) + AssignmentsIn(children[i..])
            && Forest(stack) <= Forest(below) + Forest(children[..i])
  {
  }

  lemma SearchStart(root: Node, want: set<Node>, below: seq<Node>, node: Node)
    requires Inside(root, below + [node]) && AssignmentsUnder(below + [node]) == want
    ensures Searching(root, want, below, below, Children(node), 0)
    ensures Inside(root, [node])
    ensures Forest(below) + Forest(Children(node)) < Forest(below + [node])
  {
    hide Children, Forest, AssignmentsUnder;
    PopUnder(below, node);
    InsideAppend(root, below, [node]);
    assert Children(node)[0..] == Children(node);
  }

  lemma SearchStep(root: Node, want: set<Node>, below: seq<Node>, stack: seq<Node>, node: Node, i: nat)
    requires Grammatical([root]) && Inside(root, [node]) && i < |Children(node)|
    requires Searching(root, want, below, stack, Children(node), i)
    ensures
      var child := Children(node)[i];
      if IsExpression(child) then Searching(root, want, below, stack, Children(node), i + 1)
      else if IsAssignment(child) then child in want
      else Searching(root, want, below, stack + [child], Children(node), i + 1)
  {
    hide *;
    var children := Children(node);
    var child := children[i];
    ChildInside(root, node, child);
    assert children[i..] == [child] + children[i + 1..];
    assert children[..i + 1] == children[..i] + [child];
    AssignmentsOfChild(child, children[i + 1..]);
    ForestAppend(children[..i], [child]);
    ForestAppend(stack, [child]);
    AssignmentsUnderAppend(stack, [child]);
    InsideAppend(root, stack, [child]);
    SearchMeans(root, want, below, stack, children, i);
    SearchMeans(root, want, below, stack, children, i + 1);
    SearchMeans(root, want, below, stack + [child], children, i + 1);
  }

  lemma SearchEnd(root: Node, want: set<Node>, below: seq<Node>, stack: seq<Node>, children: seq<Node>)
    requires Searching(root, want, below, stack, children, |children|)
    ensures Inside(root, stack) && AssignmentsUnder(stack) == want
    ensures Forest(stack) <= Forest(below) + Forest(children)
  {
    assert children[..|children|] == children && children[|children|..] == [];
    assert AssignmentsIn([]) == {};
  }

  /** Pruning expression subtrees loses no assignment: the gate answers exactly whether some
      assignment statement occurs anywhere below `root`. */
  method HasAssignStatement(root: Node) returns (found: bool)
    requires Grammatical([root])
    ensures found <==> AssignmentsIn(Children(root)) != {}
  {
    var stack := [root];
    AssignmentsUnderOne(root);
    ghost var want := AssignmentsIn(Children(root));
    assert AssignmentsUnder([]) == {} && Inside(root, stack);
    hide *;
    while stack != []
      invariant Inside(root, stack) && AssignmentsUnder(stack) == want
      decreases Forest(stack)
    {
      var node := stack[|stack| - 1];
      assert stack == stack[..|stack| - 1] + [node];
      stack := stack[..|stack| - 1];
      ghost var below := stack;
      SearchStart(root, want, below, node);
      var children := Children(node);
      for i := 0 to |children|
        invariant Searching(root, want, below, stack, children, i)
      {
        SearchStep(root, want, below, stack, node, i);
        var child := children[i];
        if IsExpression(child) {
          continue;
        }
        if IsAssignment(child) {
          return true;
        }
        stack := stack + [child];
      }
      SearchEnd(root, want, below, stack, children);
    }
    found := false;
  }
}
