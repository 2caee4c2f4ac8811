/** Expansion of PEP 735 dependency groups by depth-first search with an active call stack. */
module DependencyGroups {
  import opened Sequences

  datatype Item = Req(clean: string, raw: string) | Include(target: string)

  /** The declared groups, by normalised name. */
  type Groups = map<string, seq<Item>>

  datatype Issue = Cycle(stack: seq<string>, group: string) | NotFound(group: string)

  datatype Outcome = Outcome(reqs: seq<Item>, issues: seq<Issue>)

  function Join(a: Outcome, b: Outcome): Outcome {
    Outcome(a.reqs + b.reqs, a.issues + b.issues)
  }

  // ---------------------------------------------------------------- the search

  /** The declared groups that are not being expanded yet: the measure of the search. */
  function Free(groups: Groups, stack: seq<string>): nat {
    |groups.Keys - set g | g in stack|
  }

  lemma FreeShrinks(groups: Groups, stack: seq<string>, g: string)
    requires g in groups && g !in stack
    ensures Free(groups, stack + [g]) < Free(groups, stack)
  {
    var before, after := groups.Keys - (set x | x in stack), groups.Keys - set x | x in stack + [g];
    assert g in stack + [g];
    assert forall x :: x in stack + [g] <==> x in stack || x == g;
    assert before == after + {g};
  }

  /** What `dfs` appends for one group. */
  function Expand(groups: Groups, g: string, stack: seq<string>): Outcome
    decreases Free(groups, stack), 1, 0
  {
    if g in stack then Outcome([], [Cycle(stack, g)])
    else if g !in groups then Outcome([], [NotFound(g)])
    else FreeShrinks(groups, stack, g); ExpandItems(groups, groups[g], stack + [g])
  }

  function ExpandItem(groups: Groups, item: Item, stack: seq<string>): Outcome
    decreases Free(groups, stack), 2, 0
  {
    match item
    case Req(_, _) => Outcome([item], [])
    case Include(target) => Expand(groups, target, stack)
  }

  function ExpandItems(groups: Groups, items: seq<Item>, stack: seq<string>): Outcome
    decreases Free(groups, stack), 3, |items|
  {
    if items == [] then Outcome([], [])
    else Join(ExpandItem(groups, items[0], stack), ExpandItems(groups, items[1..], stack))
  }

  lemma ExpandMeans(groups: Groups, g: string, stack: seq<string>)
    ensures g in stack ==> Expand(groups, g, stack) == Outcome([], [Cycle(stack, g)])
    ensures g !in stack && g !in groups ==> Expand(groups, g, stack) == Outcome([], [NotFound(g)])
    ensures g !in stack && g in groups ==> Expand(groups, g, stack) == ExpandItems(groups, groups[g], stack + [g])
  {
    hide ExpandItems;
  }

  lemma ItemsStep(groups: Groups, items: seq<Item>, i: nat, stack: seq<string>)
    requires i < |items|
    ensures ExpandItems(groups, items[i..], stack)
            == Join(ExpandItem(groups, items[i], stack), ExpandItems(groups, items[i + 1..], stack))
  {
    hide ExpandItem, Join;
    assert items[i..][0] == items[i] && items[i..][1..] == items[i + 1..];
  }

  lemma JoinAssoc(a: Outcome, b: Outcome, c: Outcome)
    ensures Join(Join(a, b), c) == Join(a, Join(b, c))
  {
    Assoc(a.reqs, b.reqs, c.reqs);
    Assoc(a.issues, b.issues, c.issues);
  }

  lemma NoItems(groups: Groups, stack: seq<string>)
    ensures ExpandItems(groups, [], stack) == Outcome([], [])
    ensures forall o: Outcome :: Join(o, Outcome([], [])) == o && Join(Outcome([], []), o) == o
  {
  }

  /** The parse result the search appends to. */
  class Resolver {
    const groups: Groups
    var resolved: seq<Item>
    var issues: seq<Issue>

    constructor (groups: Groups)
      ensures this.groups == groups && resolved == [] && issues == []
    {
      this.groups := groups;
      resolved, issues := [], [];
    }

    /** The inner `dfs`: it ends on every include graph. */
    method Dfs(current: string, callStack: seq<string>)
      modifies this
      ensures resolved == old(resolved) + Expand(groups, current, callStack).reqs
      ensures issues == old(issues) + Expand(groups, current, callStack).issues
      decreases Free(groups, callStack)
    {
      hide Expand, ExpandItems, Free;
      ExpandMeans(groups, current, callStack);
      if current in callStack {
        issues := issues + [Cycle(callStack, current)];
        return;
      }
      if current !in groups {
        issues := issues + [NotFound(current)];
        return;
      }
      var nextStack := callStack + [current];
      FreeShrinks(groups, callStack, current);
      var items := groups[current];
      ghost var reqs0, issues0 := resolved, issues;
      assert items[0..] == items;
      ghost var done := Outcome([], []);
      for i := 0 to |items|
        invariant Join(done, ExpandItems(groups, items[i..], nextStack)) == ExpandItems(groups, items, nextStack)
        invariant resolved == reqs0 + done.reqs && issues == issues0 + done.issues
      {
        ItemsStep(groups, items, i, nextStack);
        ghost var one := ExpandItem(groups, items[i], nextStack);
        JoinAssoc(done, one, ExpandItems(groups, items[i + 1..], nextStack));
        Assoc(reqs0, done.reqs, one.reqs);
        Assoc(issues0, done.issues, one.issues);
        match items[i] {
          case Req(_, _) => resolved := resolved + [items[i]];
          case Include(target) => Dfs(target, nextStack);
        }
        done := Join(done, one);
      }
      assert items[|items|..] == [];
      NoItems(groups, nextStack);
    }

    /** One root group. */
    method Resolve(root: string)
      modifies this
      ensures resolved == Expand(groups, root, []).reqs
      ensures issues == old(issues) + Expand(groups, root, []).issues
    {
      resolved := [];
      Dfs(root, []);
    }
  }

  // ---------------------------------------------------------------- include walks

  ghost predicate Includes(groups: Groups, g: string, h: string) {
    g in groups && Include(h) in groups[g]
  }

  /** Every group on the walk but the last is declared and includes the next. */
  ghost predicate IncludeWalk(groups: Groups, walk: seq<string>) {
    |walk| > 0 && forall i | 0 <= i < |walk| - 1 :: Includes(groups, walk[i], walk[i + 1])
  }

  /** A cycle of declared groups is reachable: some walk from the root comes back to a group. */
  ghost predicate CycleReachable(groups: Groups, root: string) {
    exists walk, i | 0 <= i < |walk| - 1 ::
      IncludeWalk(groups, walk) && walk[0] == root && walk[i] == walk[|walk| - 1]
  }

  ghost predicate UndeclaredReachable(groups: Groups, root: string) {
    exists walk :: |walk| > 0 && IncludeWalk(groups, walk) && walk[0] == root && walk[|walk| - 1] !in groups
  }

  ghost predicate Simple(stack: seq<string>) {
    forall i, j | 0 <= i < j < |stack| :: stack[i] != stack[j]
  }

  lemma WalkExtends(groups: Groups, walk: seq<string>, h: string)
    requires IncludeWalk(groups, walk) && Includes(groups, walk[|walk| - 1], h)
    ensures IncludeWalk(groups, walk + [h])
  {
    var longer := walk + [h];
    forall i | 0 <= i < |longer| - 1
      ensures Includes(groups, longer[i], longer[i + 1])
    {
      if i < |walk| - 1 { assert Includes(groups, walk[i], walk[i + 1]); }
    }
  }

  /** Every issue names a walk: the stack, then the offending group. */
  ghost predicate IssueIsWalk(groups: Groups, prefix: seq<string>, issue: Issue) {
    match issue
    case Cycle(stack, g) => prefix <= stack + [g] && IncludeWalk(groups, stack + [g]) && g in stack
    case NotFound(g) =>
      g !in groups && exists walk :: prefix <= walk && IncludeWalk(groups, walk) && walk[|walk| - 1] == g
  }

  lemma {:induction false} ExpandIssuesAreWalks(groups: Groups, g: string, stack: seq<string>)
    requires IncludeWalk(groups, stack + [g])
    ensures forall issue | issue in Expand(groups, g, stack).issues :: IssueIsWalk(groups, stack + [g], issue)
    decreases Free(groups, stack), 1, 0
  {
    if g in stack {
    } else if g !in groups {
      assert IssueIsWalk(groups, stack + [g], NotFound(g));
    } else {
      FreeShrinks(groups, stack, g);
      ItemsIssuesAreWalks(groups, groups[g], stack + [g]);
    }
  }

  lemma {:induction false} ItemsIssuesAreWalks(groups: Groups, items: seq<Item>, stack: seq<string>)
    requires IncludeWalk(groups, stack)
    requires forall item | item in items && item.Include? :: Includes(groups, stack[|stack| - 1], item.target)
    ensures forall issue | issue in ExpandItems(groups, items, stack).issues :: IssueIsWalk(groups, stack, issue)
    decreases Free(groups, stack), 2, |items|
  {
    if items != [] {
      ItemsIssuesAreWalks(groups, items[1..], stack);
      if items[0].Include? {
        var h := items[0].target;
        WalkExtends(groups, stack, h);
        ExpandIssuesAreWalks(groups, h, stack);
        forall issue | issue in Expand(groups, h, stack).issues
          ensures IssueIsWalk(groups, stack, issue)
        {
          assert IssueIsWalk(groups, stack + [h], issue);
        }
      }
    }
  }

  /** An include of a group on top of the stack is expanded. */
  lemma {:induction false} ItemIsExpanded(groups: Groups, items: seq<Item>, stack: seq<string>, h: string)
    requires Include(h) in items
    ensures forall issue | issue in Expand(groups, h, stack).issues :: issue in ExpandItems(groups, items, stack).issues
    decreases |items|
  {
    if items[0] != Include(h) {
      ItemIsExpanded(groups, items[1..], stack, h);
    }
  }

  /** The search follows every walk until it meets a group a second time or one that is not
      declared. */
  lemma {:induction false} WalkIsFollowed(groups: Groups, walk: seq<string>, k: nat)
    requires k < |walk| && IncludeWalk(groups, walk) && Simple(walk[..|walk| - 1])
    requires walk[|walk| - 1] in walk[..|walk| - 1] || walk[|walk| - 1] !in groups
    ensures
      var last := walk[|walk| - 1];
      var issue := if last in walk[..|walk| - 1] then Cycle(walk[..|walk| - 1], last) else NotFound(last);
      issue in Expand(groups, walk[k], walk[..k]).issues
    decreases |walk| - k
  {
    hide Expand, ExpandItems, Free;
    var last := |walk| - 1;
    ExpandMeans(groups, walk[k], walk[..k]);
    if k < last {
      assert Includes(groups, walk[k], walk[k + 1]);
      NotBefore(walk, k);
      WalkIsFollowed(groups, walk, k + 1);
      assert walk[..k] + [walk[k]] == walk[..k + 1];
      ItemIsExpanded(groups, groups[walk[k]], walk[..k + 1], walk[k + 1]);
    }
  }

  lemma NotBefore(walk: seq<string>, k: nat)
    requires k < |walk| - 1 && Simple(walk[..|walk| - 1])
    ensures walk[k] !in walk[..k]
  {
    var front := walk[..|walk| - 1];
    assert forall i | 0 <= i < k :: front[i] != front[k];
    assert walk[..k] == front[..k];
  }

  /** A walk that meets a group twice has a prefix that does so for the first time. */
  lemma {:induction false} FirstRepeat(walk: seq<string>, i: nat, j: nat) returns (n: nat)
    requires i < j < |walk| && walk[i] == walk[j]
    ensures n < |walk| && Simple(walk[..n]) && walk[n] in walk[..n]
    decreases j
  {
    if Simple(walk[..j]) {
      n := j;
      assert walk[..j][i] == walk[j];
    } else {
      var a, b :| 0 <= a < b < |walk[..j]| && walk[..j][a] == walk[..j][b];
      n := FirstRepeat(walk, a, b);
    }
  }

  lemma PrefixIsWalk(groups: Groups, walk: seq<string>, n: nat)
    requires IncludeWalk(groups, walk) && 0 < n <= |walk|
    ensures IncludeWalk(groups, walk[..n])
  {
    forall i | 0 <= i < n - 1
      ensures Includes(groups, walk[..n][i], walk[..n][i + 1])
    {
      assert Includes(groups, walk[i], walk[i + 1]);
    }
  }

  ghost predicate ReportsCycle(groups: Groups, root: string) {
    exists issue | issue in Expand(groups, root, []).issues :: issue.Cycle?
  }

  ghost predicate ReportsMissing(groups: Groups, root: string) {
    exists issue | issue in Expand(groups, root, []).issues :: issue.NotFound?
  }

  lemma ReportedCycleIsReachable(groups: Groups, root: string)
    requires ReportsCycle(groups, root)
    ensures CycleReachable(groups, root)
  {
    hide Expand, IncludeWalk;
    var issue :| issue in Expand(groups, root, []).issues && issue.Cycle?;
    RootWalk(groups, root);
    ExpandIssuesAreWalks(groups, root, []);
    assert IssueIsWalk(groups, [root], issue);
    var walk := issue.stack + [issue.group];
    var i :| 0 <= i < |issue.stack| && issue.stack[i] == issue.group;
    assert walk[0] == [root][0] && walk[i] == walk[|walk| - 1];
  }

  lemma RootWalk(groups: Groups, root: string)
    ensures [] + [root] == [root] && IncludeWalk(groups, [root])
  {
  }

  lemma ReachableCycleIsReported(groups: Groups, root: string)
    requires CycleReachable(groups, root)
    ensures ReportsCycle(groups, root)
  {
    hide Expand, IncludeWalk, Simple;
    var walk, i :| 0 <= i < |walk| - 1 && IncludeWalk(groups, walk) && walk[0] == root && walk[i] == walk[|walk| - 1];
    var n := FirstRepeat(walk, i, |walk| - 1);
    PrefixIsWalk(groups, walk, n + 1);
    var short := walk[..n + 1];
    assert short[..n] == walk[..n] && short[0] == root && short[..0] == [];
    WalkIsFollowed(groups, short, 0);
  }

  /** A cycle issue is recorded if and only if a cycle of declared groups is reachable. */
  lemma CycleIffReported(groups: Groups, root: string)
    ensures ReportsCycle(groups, root) <==> CycleReachable(groups, root)
  {
    hide ReportsCycle, CycleReachable;
    if ReportsCycle(groups, root) { ReportedCycleIsReachable(groups, root); }
    if CycleReachable(groups, root) { ReachableCycleIsReported(groups, root); }
  }

  lemma ReportedMissingIsReachable(groups: Groups, root: string)
    requires ReportsMissing(groups, root)
    ensures UndeclaredReachable(groups, root)
  {
    hide Expand, IncludeWalk;
    var issue :| issue in Expand(groups, root, []).issues && issue.NotFound?;
    RootWalk(groups, root);
    ExpandIssuesAreWalks(groups, root, []);
    assert IssueIsWalk(groups, [root], issue);
    var walk :| [root] <= walk && IncludeWalk(groups, walk) && walk[|walk| - 1] == issue.group;
    assert walk[0] == [root][0];
  }

  lemma BeforeLastDeclared(groups: Groups, walk: seq<string>)
    requires IncludeWalk(groups, walk)
    ensures forall i | 0 <= i < |walk| - 1 :: walk[i] in groups
  {
    forall i | 0 <= i < |walk| - 1
      ensures walk[i] in groups
    {
      assert Includes(groups, walk[i], walk[i + 1]);
    }
  }

  lemma ReachableMissingIsReported(groups: Groups, root: string)
    requires UndeclaredReachable(groups, root)
    ensures ReportsMissing(groups, root)
  {
    hide Expand, IncludeWalk, Simple;
    var walk :| |walk| > 0 && IncludeWalk(groups, walk) && walk[0] == root && walk[|walk| - 1] !in groups;
    var simple := SimpleWalkTo(groups, walk);
    BeforeLastDeclared(groups, simple);
    assert simple[..0] == [];
    WalkIsFollowed(groups, simple, 0);
  }

  /** A missing group is reported if and only if some reachable include names it. */
  lemma NotFoundIffReported(groups: Groups, root: string)
    ensures ReportsMissing(groups, root) <==> UndeclaredReachable(groups, root)
  {
    hide ReportsMissing, UndeclaredReachable;
    if ReportsMissing(groups, root) { ReportedMissingIsReachable(groups, root); }
    if UndeclaredReachable(groups, root) { ReachableMissingIsReported(groups, root); }
  }

  /** Cutting the detours out of a walk to an undeclared group. */
  lemma {:induction false} SimpleWalkTo(groups: Groups, walk: seq<string>) returns (simple: seq<string>)
    requires |walk| > 0 && IncludeWalk(groups, walk) && walk[|walk| - 1] !in groups
    ensures |simple| > 0 && IncludeWalk(groups, simple) && simple[0] == walk[0]
        && simple[|simple| - 1] == walk[|walk| - 1]
    ensures Simple(simple[..|simple| - 1])
    decreases |walk|
  {
    var last := |walk| - 1;
    if Simple(walk[..last]) {
      simple := walk;
    } else {
      var a, b :| 0 <= a < b < |walk[..last]| && walk[..last][a] == walk[..last][b];
      var shorter := walk[..a] + walk[b..];
      forall i | 0 <= i < |shorter| - 1
        ensures Includes(groups, shorter[i], shorter[i + 1])
      {
        var at := if i < a then i else i - a + b;
        assert Includes(groups, walk[at], walk[at + 1]);
      }
      simple := SimpleWalkTo(groups, shorter);
    }
  }

  // ---------------------------------------------------------------- the plain flattening

  /** The in-order flattening without any stack, includes unrolled to a depth. */
  function Flatten(groups: Groups, g: string, depth: nat): seq<Item>
    decreases depth, 1, 0
  {
    if depth == 0 || g !in groups then [] else FlattenItems(groups, groups[g], depth - 1)
  }

  function FlattenItems(groups: Groups, items: seq<Item>, depth: nat): seq<Item>
    decreases depth, 2, |items|
  {
    if items == [] then []
    else (if items[0].Req? then [items[0]] else Flatten(groups, items[0].target, depth))
         + FlattenItems(groups, items[1..], depth)
  }

  lemma RepeatIsCycle(groups: Groups, stack: seq<string>, g: string)
    requires stack != [] && IncludeWalk(groups, stack + [g]) && g in stack
    ensures CycleReachable(groups, stack[0])
  {
    var walk := stack + [g];
    var i :| 0 <= i < |stack| && stack[i] == g;
    assert walk[0] == stack[0] && walk[i] == walk[|walk| - 1];
  }

  lemma {:induction false} ExpandIsFlatten(groups: Groups, root: string, g: string, stack: seq<string>, depth: nat)
    requires IncludeWalk(groups, stack + [g]) && (stack + [g])[0] == root && !CycleReachable(groups, root)
    requires depth > Free(groups, stack)
    ensures Expand(groups, g, stack).reqs == Flatten(groups, g, depth)
    decreases Free(groups, stack), 1, 0
  {
    hide CycleReachable, IncludeWalk, Free, ExpandItems, FlattenItems;
    if g in stack {
      RepeatIsCycle(groups, stack, g);
      assert false;
    } else if g in groups {
      FreeShrinks(groups, stack, g);
      ItemsAreFlatten(groups, root, groups[g], stack + [g], depth - 1);
    }
  }

  lemma {:induction false} ItemsAreFlatten(groups: Groups, root: string, items: seq<Item>, stack: seq<string>,
                                           depth: nat)
    requires stack != [] && IncludeWalk(groups, stack) && stack[0] == root && !CycleReachable(groups, root)
    requires forall item | item in items && item.Include? :: Includes(groups, stack[|stack| - 1], item.target)
    requires depth > Free(groups, stack)
    ensures ExpandItems(groups, items, stack).reqs == FlattenItems(groups, items, depth)
    decreases Free(groups, stack), 2, |items|
  {
    hide CycleReachable, IncludeWalk, Free, Expand, Flatten, Includes;
    if items != [] {
      ItemsAreFlatten(groups, root, items[1..], stack, depth);
      if items[0].Include? {
        WalkExtends(groups, stack, items[0].target);
        ExpandIsFlatten(groups, root, items[0].target, stack, depth);
      }
    }
  }

  /** On a group from which no cycle is reachable, the search yields exactly the in-order recursive
      flattening, duplicates kept; unrolling deeper than the number of groups changes nothing. */
  lemma AcyclicIsFlattened(groups: Groups, root: string, depth: nat)
    requires !CycleReachable(groups, root) && depth > |groups|
    ensures Expand(groups, root, []).reqs == Flatten(groups, root, depth)
  {
    hide CycleReachable, Expand, Flatten;
    RootWalk(groups, root);
    var none: set<string> := set g | g in [];
    assert groups.Keys - none == groups.Keys;
    assert Free(groups, []) == |groups.Keys|;
    ExpandIsFlatten(groups, root, root, [], depth);
  }
}
