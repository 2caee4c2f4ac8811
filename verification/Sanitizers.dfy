/** The sanitizer audit: call sites whose locally assigned arguments were all neutralised.  The
    gated record-then-replay scan is proved equal to walking the body twice, and both to a
    definition that looks only at the last assignment of each name.  First and last are meant in the
    order of the walk throughout. */
module Sanitizers {
  import opened PyAst
  import opened Walks
  import opened Facts
  import opened Resolution
  import opened Calls

  /** The assigned value is a call that resolves to a sanitizer contract. */
  predicate Neutralizes(prog: Program, mod: string, receivers: ReceiverMap, value: Node) {
    var resolved := CallContract(prog, mod, value, receivers);
    resolved.Some? && HasContract(prog, resolved.value) && ContractOf(prog, resolved.value).isSanitizer
  }

  function AssignedNames(node: Node): set<string>
    requires node.Assign?
  {
    set t | t in TargetNames(node.targets)
  }

  /** The names a call loads. */
  function Loads(call: Node): set<string> {
    set n | n in Walk([call]) && n.Name? && n.load :: n.id
  }

  // ---------------------------------------------------------------- the specification

  predicate AssignsName(node: Node, name: string) {
    node.Assign? && name in AssignedNames(node)
  }

  predicate AssignedIn(nodes: seq<Node>, name: string) {
    exists i | 0 <= i < |nodes| :: AssignsName(nodes[i], name)
  }

  /** The last assignment of the name takes its value from a sanitizer. */
  predicate CleanAfter(prog: Program, mod: string, receivers: ReceiverMap, nodes: seq<Node>, name: string) {
    if nodes == [] then false
    else
      var last := nodes[|nodes| - 1];
      if AssignsName(last, name) then Neutralizes(prog, mod, receivers, last.value)
      else CleanAfter(prog, mod, receivers, nodes[..|nodes| - 1], name)
  }

  /** Node `i` is a suppressed call: it loads some name that the walk met an assignment of, and every such name
      was last assigned, as the walk goes, from a sanitizer. */
  ghost predicate SuppressedAt(prog: Program, mod: string, receivers: ReceiverMap, nodes: seq<Node>, i: nat)
    requires i < |nodes|
  {
    && nodes[i].Call?
    && (exists name | name in Loads(nodes[i]) :: AssignedIn(nodes[..i], name))
    && forall name | name in Loads(nodes[i]) && AssignedIn(nodes[..i], name) ::
         CleanAfter(prog, mod, receivers, nodes[..i], name)
  }

  // ---------------------------------------------------------------- the replay

  datatype Scan = Scan(locals: set<string>, sanitized: set<string>, sites: set<int>)

  /** One node of the site loop. */
  function Replay(prog: Program, mod: string, receivers: ReceiverMap, node: Node, s: Scan): Scan {
    match node
    case Assign(_, value) =>
      var names := AssignedNames(node);
      Scan(s.locals + names,
           if Neutralizes(prog, mod, receivers, value) then s.sanitized + names else s.sanitized - names,
           s.sites)
    case Call(_, _, _, lineno) =>
      var relevant := Loads(node) * s.locals;
      if relevant != {} && relevant <= s.sanitized then s.(sites := s.sites + {lineno}) else s
    case _ => s
  }

  function ReplayAll(prog: Program, mod: string, receivers: ReceiverMap, nodes: seq<Node>): Scan {
    if nodes == [] then Scan({}, {}, {})
    else Replay(prog, mod, receivers, nodes[|nodes| - 1], ReplayAll(prog, mod, receivers, nodes[..|nodes| - 1]))
  }

  lemma ReplayLast(prog: Program, mod: string, receivers: ReceiverMap, nodes: seq<Node>, node: Node)
    ensures ReplayAll(prog, mod, receivers, nodes + [node])
         == Replay(prog, mod, receivers, node, ReplayAll(prog, mod, receivers, nodes))
  {
    assert (nodes + [node])[..|nodes|] == nodes;
  }

  /** Replaying only the recorded nodes is replaying all of them. */
  lemma {:induction false} ReplayFiltered(prog: Program, mod: string, receivers: ReceiverMap, nodes: seq<Node>)
    ensures ReplayAll(prog, mod, receivers, Filter(IsSiteNode, nodes)) == ReplayAll(prog, mod, receivers, nodes)
    decreases |nodes|
  {
    if nodes != [] {
      var front, last := nodes[..|nodes| - 1], nodes[|nodes| - 1];
      assert nodes == front + [last];
      FilterAppend(IsSiteNode, front, [last]);
      assert Filter(IsSiteNode, [last]) == if IsSiteNode(last) then [last] else [];
      ReplayFiltered(prog, mod, receivers, front);
      if IsSiteNode(last) {
        ReplayLast(prog, mod, receivers, Filter(IsSiteNode, front), last);
      } else {
        assert Filter(IsSiteNode, front) + [] == Filter(IsSiteNode, front);
      }
    }
  }

  /** The two name sets of the loop, in terms of the nodes seen so far. */
  lemma {:induction false} ReplayTracksNames(prog: Program, mod: string, receivers: ReceiverMap, nodes: seq<Node>)
    ensures var s := ReplayAll(prog, mod, receivers, nodes);
      forall name ::
        && (name in s.locals <==> AssignedIn(nodes, name))
        && (name in s.sanitized <==> CleanAfter(prog, mod, receivers, nodes, name))
    decreases |nodes|
  {
    hide Neutralizes, AssignedNames, Loads;
    if nodes != [] {
      var front, last := nodes[..|nodes| - 1], nodes[|nodes| - 1];
      ReplayTracksNames(prog, mod, receivers, front);
      forall name
        ensures AssignedIn(nodes, name) <==> AssignedIn(front, name) || AssignsName(last, name)
      {
        if AssignedIn(front, name) {
          var i :| 0 <= i < |front| && AssignsName(front[i], name);
          assert AssignsName(nodes[i], name);
        }
        if AssignsName(last, name) { assert AssignsName(nodes[|nodes| - 1], name); }
      }
    }
  }

  /** The loop collects exactly the suppressed calls. */
  lemma {:induction false} ReplayIsExact(prog: Program, mod: string, receivers: ReceiverMap, nodes: seq<Node>)
    ensures forall line ::
      (line in ReplayAll(prog, mod, receivers, nodes).sites
       <==> exists i | 0 <= i < |nodes| :: SuppressedAt(prog, mod, receivers, nodes, i) && nodes[i].lineno == line)
    decreases |nodes|
  {
    hide Neutralizes, AssignedNames, Loads, AssignedIn, CleanAfter;
    if nodes != [] {
      var front, last := nodes[..|nodes| - 1], nodes[|nodes| - 1];
      ReplayIsExact(prog, mod, receivers, front);
      ReplayTracksNames(prog, mod, receivers, front);
      LastCall(prog, mod, receivers, front, last);
      forall i | 0 <= i < |front|
        ensures SuppressedAt(prog, mod, receivers, nodes, i) <==> SuppressedAt(prog, mod, receivers, front, i)
      {
        assert nodes[..i] == front[..i];
      }
    }
  }

  lemma LastCall(prog: Program, mod: string, receivers: ReceiverMap, front: seq<Node>, last: Node)
    ensures var s := ReplayAll(prog, mod, receivers, front);
      SuppressedAt(prog, mod, receivers, front + [last], |front|)
      <==> last.Call? && Loads(last) * s.locals != {} && Loads(last) * s.locals <= s.sanitized
  {
    hide Neutralizes, AssignedNames, Loads, AssignedIn, CleanAfter;
    ReplayTracksNames(prog, mod, receivers, front);
    assert (front + [last])[..|front|] == front;
    var s, nodes := ReplayAll(prog, mod, receivers, front), front + [last];
    assert nodes[|front|] == last;
    if last.Call? {
      var relevant := Loads(last) * s.locals;
      assert forall name :: name in relevant <==> name in Loads(last) && AssignedIn(front, name);
      assert (relevant != {}) <==> exists name | name in Loads(last) :: AssignedIn(front, name);
      assert relevant <= s.sanitized
        <==> forall name | name in relevant :: CleanAfter(prog, mod, receivers, front, name);
    }
  }

  /** Without an assignment there is no site. */
  lemma {:induction false} NoAssignmentNoSite(prog: Program, mod: string, receivers: ReceiverMap, nodes: seq<Node>)
    requires forall n | n in nodes :: !n.Assign?
    ensures ReplayAll(prog, mod, receivers, nodes) == Scan({}, {}, {})
    decreases |nodes|
  {
    if nodes != [] {
      NoAssignmentNoSite(prog, mod, receivers, nodes[..|nodes| - 1]);
    }
  }

  // ---------------------------------------------------------------- the scan

  /** The suppressed lines of one function body, with the receiver map of the whole body. */
  function SitesOf(prog: Program, mod: string, func: Node, qual: string): set<int> {
    ReplayAll(prog, mod, ReceiversIn(prog, mod, func, qual), Ordered(func, false, [func])).sites
  }

  lemma UnassignedBodyHasNoSite(prog: Program, mod: string, func: Node, qual: string)
    requires func.FunctionDef? && AssignmentsIn(Children(func)) == {}
    ensures SitesOf(prog, mod, func, qual) == {}
  {
    hide ReceiversIn;
    OrderedVisitsBelow(func, [func]);
    assert [func][1..] == [] && Below([]) == {};
    assert Below([func]) == {func} + Below(Children(func)) + Below([func][1..]);
    forall n | n in Ordered(func, false, [func])
      ensures !n.Assign?
    {
      assert n in Below([func]);
      assert n in Below(Children(func)) && n.Assign? ==> n in AssignmentsIn(Children(func));
    }
    NoAssignmentNoSite(prog, mod, ReceiversIn(prog, mod, func, qual), Ordered(func, false, [func]));
  }

  /** `_sanitized_sites`: the gate, the single recording walk and the replay. */
  method SanitizedSites(prog: Program, mod: string, func: Node, qual: string) returns (sites: set<int>)
    requires func.FunctionDef? && Grammatical([func])
    ensures sites == SitesOf(prog, mod, func, qual)
  {
    hide Ordered, Facts.Receivers, FactReceivers, Filter, Replay, ReplayAll, AssignmentsIn, Children, Below;
    sites := {};
    var assigns := HasAssignStatement(func);
    if !assigns {
      UnassignedBodyHasNoSite(prog, mod, func, qual);
      return;
    }
    var ownAssigns, productive := RecordProductive(func);
    ReceiversOfAssignments(Ordered(func, true, [func]));
    var receivers := InstanceBindings(prog, mod, qual, ownAssigns);
    ReplayFiltered(prog, mod, receivers, Ordered(func, false, [func]));
    sites := ReplaySites(prog, mod, receivers, productive);
  }

  /** The site loop over the recorded nodes. */
  method ReplaySites(prog: Program, mod: string, receivers: ReceiverMap, productive: seq<Node>)
      returns (sites: set<int>)
    ensures sites == ReplayAll(prog, mod, receivers, productive).sites
  {
    var locals: set<string>, sanitized: set<string> := {}, {};
    sites := {};
    assert ReplayAll(prog, mod, receivers, []) == Scan({}, {}, {});
    hide ReplayAll, Neutralizes, Loads;
    for i := 0 to |productive|
      invariant Scan(locals, sanitized, sites) == ReplayAll(prog, mod, receivers, productive[..i])
    {
      var node := productive[i];
      assert productive[..i + 1] == productive[..i] + [node];
      ReplayLast(prog, mod, receivers, productive[..i], node);
      if node.Assign? {
        var names := AssignedNames(node);
        locals := locals + names;
        sanitized := if Neutralizes(prog, mod, receivers, node.value) then sanitized + names else sanitized - names;
      } else if node.Call? {
        var relevant := Loads(node) * locals;
        if relevant != {} && relevant <= sanitized {
          sites := sites + {node.lineno};
        }
      }
    }
    assert productive[..|productive|] == productive;
  }
}
