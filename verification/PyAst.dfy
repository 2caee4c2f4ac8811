/** Optional values, for the source's `None`. */
module Options {
  datatype Option<+T> = None | Some(value: T)
}

/** Concatenation facts, stated apart because the solver finds them slowly in a large context. */
module Sequences {
  lemma Assoc<T>(a: seq<T>, b: seq<T>, c: seq<T>)
    ensures (a + b) + c == a + (b + c)
  {
  }

  lemma TailOfConcat<T>(a: seq<T>, b: seq<T>)
    requires a != []
    ensures (a + b)[0] == a[0] && (a + b)[1..] == a[1..] + b
  {
  }

  lemma SplitFirst<T>(s: seq<T>)
    requires s != []
    ensures s == [s[0]] + s[1..]
  {
  }
}

/** The Python syntax trees the analysis passes walk.

    One constructor per node type that a pass tests for; every other expression, assignment or
    statement keeps only its children.  `Children` lists them in the order of
    `ast.iter_child_nodes`; the childless `expr_context` nodes are dropped. */
module PyAst {
  import opened Options

  datatype Node =
    | Name(id: string, load: bool)
    | Attribute(value: Node, attr: string)
    | Call(func: Node, args: seq<Node>, keywords: seq<Node>, lineno: int)
    | Keyword(arg: string, value: Node)  // `arg` is "" for a `**mapping` argument
    | Constant(text: Option<string>)
    | Subscript(value: Node, slice: Node)
    | Lambda(parameters: Node, result: Node)
    | Binding(parts: seq<Node>)  // an assignment expression or a comprehension
    | Suspension(parts: seq<Node>)  // `yield`, `yield from`, `await`
    | OtherExpr(parts: seq<Node>)
    | Clause(parts: seq<Node>)  // one `for` clause of a comprehension
    // `names` are the positional parameters; `variadic` says there is `*args` or a keyword-only one
    | Arguments(names: seq<string>, variadic: bool, kwarg: Option<string>, defaults: seq<Node>)
    | Assign(targets: seq<Node>, value: Node)
    | OtherAssign(parts: seq<Node>)
    | FunctionDef(name: string, parameters: Node, body: seq<Node>, decorators: seq<Node>)
    | ClassDef(name: string, bases: seq<Node>, body: seq<Node>, decorators: seq<Node>)
    | Return(results: seq<Node>)
    | ExprStmt(value: Node)
    | OtherStmt(parts: seq<Node>)

  function Children(n: Node): (cs: seq<Node>)
    ensures forall i | 0 <= i < |cs| :: cs[i] < n
  {
    match n
    case Name(_, _) => []
    case Attribute(value, _) => [value]
    case Call(func, args, keywords, _) => [func] + args + keywords
    case Keyword(_, value) => [value]
    case Constant(_) => []
    case Subscript(value, slice) => [value, slice]
    case Lambda(parameters, result) => [parameters, result]
    case Binding(parts) => parts
    case Suspension(parts) => parts
    case OtherExpr(parts) => parts
    case Clause(parts) => parts
    case Arguments(_, _, _, defaults) => defaults
    case Assign(targets, value) => targets + [value]
    case OtherAssign(parts) => parts
    case FunctionDef(_, parameters, body, decorators) => [parameters] + body + decorators
    case ClassDef(_, bases, body, decorators) => bases + body + decorators
    case Return(results) => results
    case ExprStmt(value) => [value]
    case OtherStmt(parts) => parts
  }

  /** The node stands directly in one of the fields that hold nodes. */
  ghost predicate IsPart(n: Node, c: Node) {
    || ((n.Attribute? || n.Keyword? || n.Subscript? || n.Assign? || n.ExprStmt?) && c == n.value)
    || (n.Subscript? && c == n.slice)
    || (n.Call? && (c == n.func || c in n.args || c in n.keywords))
    || ((n.Lambda? || n.FunctionDef?) && c == n.parameters)
    || (n.Lambda? && c == n.result)
    || (n.Arguments? && c in n.defaults)
    || (n.Assign? && c in n.targets)
    || ((n.FunctionDef? || n.ClassDef?) && (c in n.body || c in n.decorators))
    || (n.ClassDef? && c in n.bases)
    || (n.Return? && c in n.results)
    || ((n.Binding? || n.Suspension? || n.OtherExpr? || n.Clause? || n.OtherAssign? || n.OtherStmt?) && c in n.parts)
  }

  /** No field is left out. */
  lemma ChildrenAreParts(n: Node, c: Node)
    ensures c in Children(n) <==> IsPart(n, c)
  {
  }

  /** `ast.expr` and `ast.pattern`. */
  predicate IsExpression(n: Node) {
    n.Name? || n.Attribute? || n.Call? || n.Constant? || n.Subscript? || n.Lambda? || n.OtherExpr?
    || n.Binding? || n.Suspension?
  }

  /** Nodes that are neither statements nor `ast.expr`, but sit inside expressions. */
  predicate IsAuxiliary(n: Node) {
    n.Keyword? || n.Arguments? || n.Clause?
  }

  /** `_SCOPES`. */
  predicate IsScope(n: Node) {
    n.FunctionDef? || n.Lambda? || n.ClassDef?
  }

  function Size(n: Node): (s: nat)
    ensures s >= 1
    decreases n
  {
    1 + SizeOf(n, Children(n))
  }

  function SizeOf(parent: Node, ns: seq<Node>): nat
    requires forall i | 0 <= i < |ns| :: ns[i] < parent
    decreases parent, |ns|
  {
    if ns == [] then 0 else Size(ns[0]) + SizeOf(parent, ns[1..])
  }

  /** The number of nodes in a list of trees: the measure of every walk below. */
  function Forest(ns: seq<Node>): nat {
    if ns == [] then 0 else Size(ns[0]) + Forest(ns[1..])
  }

  lemma {:induction false} SizeOfIsForest(parent: Node, ns: seq<Node>)
    requires forall i | 0 <= i < |ns| :: ns[i] < parent
    ensures SizeOf(parent, ns) == Forest(ns)
    decreases |ns|
  {
    if ns != [] {
      SizeOfIsForest(parent, ns[1..]);
    }
  }

  lemma ForestOfChildren(n: Node)
    ensures Size(n) == 1 + Forest(Children(n))
  {
    SizeOfIsForest(n, Children(n));
  }

  lemma {:induction false} ForestAppend(a: seq<Node>, b: seq<Node>)
    ensures Forest(a + b) == Forest(a) + Forest(b)
  {
    if a == [] {
      assert a + b == b;
    } else {
      assert (a + b)[1..] == a[1..] + b;
      ForestAppend(a[1..], b);
    }
  }

  // ---------------------------------------------------------------- walk orders

  /** `ast.walk`: breadth first, from a queue of trees. */
  function Walk(queue: seq<Node>): seq<Node>
    decreases Forest(queue)
  {
    if queue == [] then [] else
      ForestOfChildren(queue[0]);
      ForestAppend(queue[1..], Children(queue[0]));
      [queue[0]] + Walk(queue[1..] + Children(queue[0]))
  }

  /** The nodes of the trees as a set, whatever the order of the walk. */
  ghost function Below(ns: seq<Node>): set<Node>
    decreases Forest(ns)
  {
    if ns == [] then {} else
      ForestOfChildren(ns[0]);
      {ns[0]} + Below(Children(ns[0])) + Below(ns[1..])
  }

  lemma {:induction false} BelowAppend(a: seq<Node>, b: seq<Node>)
    ensures Below(a + b) == Below(a) + Below(b)
  {
    if a == [] {
      assert a + b == b;
    } else {
      assert (a + b)[1..] == a[1..] + b;
      BelowAppend(a[1..], b);
    }
  }

  /** `ast.walk` visits exactly the nodes of the trees. */
  lemma {:induction false} WalkVisitsBelow(queue: seq<Node>)
    ensures forall x :: x in Walk(queue) <==> x in Below(queue)
    decreases Forest(queue)
  {
    if queue != [] {
      var next := queue[1..] + Children(queue[0]);
      ForestOfChildren(queue[0]);
      ForestAppend(queue[1..], Children(queue[0]));
      WalkVisitsBelow(next);
      BelowAppend(queue[1..], Children(queue[0]));
    }
  }

  lemma {:induction false} BelowMember(ns: seq<Node>, x: Node)
    requires x in ns
    ensures Below([x]) <= Below(ns)
  {
    if ns[0] == x {
      assert [x][1..] == [];
    } else {
      BelowMember(ns[1..], x);
    }
  }

  /** A node below a child of `n` is below `n`. */
  lemma BelowChild(n: Node, child: Node)
    requires child in Children(n)
    ensures Below([child]) <= Below([n])
  {
    BelowMember(Children(n), child);
    assert [n][1..] == [];
  }

  lemma BelowOne(n: Node)
    ensures Below([n]) == {n} + Below(Children(n))
  {
    assert [n][1..] == [] && Below([]) == {};
  }

  lemma BelowTwo(a: Node, b: Node)
    ensures Below([a, b]) == Below([a]) + Below([b])
  {
    BelowAppend([a], [b]);
    assert [a] + [b] == [a, b];
  }

  lemma BelowPair(n: Node, a: Node, b: Node)
    requires Children(n) == [a, b]
    ensures Below([n]) == {n} + Below([a]) + Below([b])
  {
    BelowOne(n);
    BelowTwo(a, b);
  }

  lemma BelowName(id: string, load: bool)
    ensures Below([Name(id, load)]) == {Name(id, load)}
  {
    BelowOne(Name(id, load));
  }
}
