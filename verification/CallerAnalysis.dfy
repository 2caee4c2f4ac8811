/** The second phase of the engine: the modules that pass the gate are analysed, and every tainted
    call into a sink-bearing contract is reported. */
module CallerAnalysis {
  import opened Options
  import opened PyAst
  import opened Walks
  import opened Sequences
  import opened Facts
  import opened Resolution
  import opened Calls
  import opened Forwarding
  import opened Callers
  import opened Gate

  /** One module of the run: its facts and, when its source can be read again, its statements. */
  datatype ModuleRow = ModuleRow(mod: string, file: string, facts: ModuleFacts, quals: seq<string>,
                                 tree: Option<seq<Node>>)

  /** The findings of every readable module, without the gate. */
  function UngatedFindings(cx: Analysis, rows: seq<ModuleRow>): seq<Finding> {
    if rows == [] then []
    else UngatedFindings(cx, rows[..|rows| - 1])
         + var last := rows[|rows| - 1];
           if last.tree == None then [] else ModuleFindings(cx, last.mod, last.file, last.tree.value)
  }

  /** The findings of the readable modules that the gate lets through. */
  function GatedFindings(cx: Analysis, rows: seq<ModuleRow>): seq<Finding> {
    if rows == [] then []
    else GatedFindings(cx, rows[..|rows| - 1])
         + var last := rows[|rows| - 1];
           if last.tree == None || !ModuleEmits(cx, last.mod, last.facts) then []
           else ModuleFindings(cx, last.mod, last.file, last.tree.value)
  }

  /** The harvested facts of the row are those of its tree. */
  ghost predicate RowOk(row: ModuleRow) {
    && (forall q :: q in row.quals <==> q in row.facts.funcs)
    && (row.tree.Some? ==> RowsHarvested(row.facts, row.tree.value))
  }

  ghost predicate RowDispatches(cx: Analysis, row: ModuleRow) {
    row.tree.Some? && ModuleDispatches(cx, row.mod, row.file, row.tree.value)
  }

  class CallerPhase {
    const cx: Analysis
    var findings: seq<Finding>

    constructor (cx: Analysis)
      ensures this.cx == cx && findings == []
    {
      this.cx := cx;
      findings := [];
    }

    /** `_emit_contract_findings` */
    method EmitContractFindings(caller: Caller, call: Node, callee: FuncId, tainted: set<string>,
                                receivers: ReceiverMap)
      requires call.Call? && HasContract(cx.prog, callee) && callee in cx.st.table
      modifies this
      ensures findings == old(findings) + ContractFindings(cx, caller, call, callee, tainted, receivers)
    {
      hide FindingFor, Neutralized, CallOffset, Bind, IsTainted, HasContract, EdgeFindings, FindingsFrom;
      var neutralized := Neutralized(cx.prog, callee);
      var params := ContractOf(cx.prog, callee).params;
      var bound := ArgumentsOf(cx, caller, call, callee, receivers);
      ghost var want := findings + FindingsFrom(cx, caller, call.lineno, callee, bound, tainted, 0);
      for q := 0 to |params|
        invariant want == findings + FindingsFrom(cx, caller, call.lineno, callee, bound, tainted, q)
      {
        ghost var rest := FindingsFrom(cx, caller, call.lineno, callee, bound, tainted, q + 1);
        FindingsFromStep(cx, caller, call.lineno, callee, bound, tainted, q);
        ghost var before := findings;
        if q in bound && q !in neutralized && IsTainted(cx, bound[q], tainted) {
          EmitEdges(caller, call.lineno, callee, q);
          Assoc(before, EdgeFindings(cx, caller, call.lineno, callee, cx.st.table[callee], q), rest);
        }
      }
      FindingsFromEnd(cx, caller, call.lineno, callee, bound, tainted);
    }

    /** The loop over the callee's sinks for one argument. */
    method EmitEdges(caller: Caller, line: int, callee: FuncId, q: nat)
      requires HasContract(cx.prog, callee) && callee in cx.st.table
      modifies this
      ensures findings == old(findings) + EdgeFindings(cx, caller, line, callee, cx.st.table[callee], q)
    {
      hide FindingFor, HasContract;
      var edges := cx.st.table[callee];
      for i := 0 to |edges|
        invariant findings == old(findings) + EdgeFindings(cx, caller, line, callee, edges[..i], q)
      {
        assert edges[..i + 1] == edges[..i] + [edges[i]];
        EdgeFindingsAppend(cx, caller, line, callee, edges[..i], edges[i], q);
        if edges[i].param == q {
          Assoc(old(findings), EdgeFindings(cx, caller, line, callee, edges[..i], q),
                [FindingFor(cx, caller, line, callee, edges[i])]);
          findings := findings + [FindingFor(cx, caller, line, callee, edges[i])];
        }
      }
      assert edges[..|edges|] == edges;
    }

    /** Direct and dispatched findings of one call. */
    method CheckCall(caller: Caller, call: Node, tainted: set<string>, receivers: ReceiverMap)
      requires call.Call?
      modifies this
      ensures findings == old(findings) + CallFindings(cx, caller, call, tainted, receivers)
    {
      hide CallContract, ContractFindings, EmissionTargets, DispatchedCall, HasContract, DispatchFindings;
      var resolved := CallContract(cx.prog, caller.mod, call, receivers);
      if resolved.Some? {
        CheckTarget(caller, call, resolved.value, tainted, receivers);
      }
      var targets, dispatched := EmissionTargets(cx, caller.mod, call), DispatchedCall(cx, call);
      ghost var direct := findings;
      NoTargets(cx, caller, dispatched, tainted, receivers);
      for t := 0 to |targets|
        invariant findings == direct + DispatchFindings(cx, caller, dispatched, targets[..t], tainted, receivers)
      {
        assert targets[..t + 1] == targets[..t] + [targets[t]];
        DispatchAppend(cx, caller, dispatched, targets[..t], targets[t], tainted, receivers);
        Assoc(direct, DispatchFindings(cx, caller, dispatched, targets[..t], tainted, receivers),
              ContractFindings(cx, caller, dispatched, targets[t], tainted, receivers));
        CheckTarget(caller, dispatched, targets[t], tainted, receivers);
      }
      assert targets[..|targets|] == targets;
      Assoc(old(findings), DirectFindings(cx, caller, call, tainted, receivers),
            DispatchFindings(cx, caller, dispatched, targets, tainted, receivers));
    }

    method CheckTarget(caller: Caller, call: Node, callee: FuncId, tainted: set<string>, receivers: ReceiverMap)
      requires call.Call?
      modifies this
      ensures findings == old(findings) + ContractFindings(cx, caller, call, callee, tainted, receivers)
    {
      hide FindingsFrom, ArgumentsOf;
      if HasContract(cx.prog, callee) && callee in cx.st.table {
        EmitContractFindings(caller, call, callee, tainted, receivers);
      }
    }

    /** `_analyze_function_body`: taint is tracked statement by statement, and every call of a
        statement is checked under the taint that includes its own assignment. */
    method AnalyzeFunctionBody(mod: string, file: string, func: Node, qual: string)
      requires func.FunctionDef?
      modifies this
      ensures findings == old(findings) + FunctionFindings(cx, mod, file, func, qual)
    {
      hide CallFindings, TaintAfter, Walk, FactReceivers, Ordered, Facts.Receivers, ParameterTaint, BodyFindings,
           ScanCalls;
      var caller := Caller(mod, file, qual);
      var own := OrderedNodes(func, true);
      var receivers := InstanceBindings(cx.prog, mod, qual, own);
      var tainted := ParameterTaint(func.parameters);
      var body := func.body;
      ghost var want := findings + BodyFindings(cx, caller, body, tainted, receivers);
      assert body[0..] == body;
      for i := 0 to |body|
        invariant want == findings + BodyFindings(cx, caller, body[i..], tainted, receivers)
      {
        BodyStep(cx, caller, body[i..], tainted, receivers);
        assert body[i..][0] == body[i] && body[i..][1..] == body[i + 1..];
        tainted := TaintAfter(cx, caller, body[i], tainted, receivers);
        var calls := CallsOf(Walk([body[i]]));
        ghost var before := findings;
        CheckCalls(caller, calls, tainted, receivers);
        Assoc(before, ScanCalls(cx, caller, calls, tainted, receivers),
              BodyFindings(cx, caller, body[i + 1..], tainted, receivers));
      }
      BodyEnd(cx, caller, body[|body|..], tainted, receivers);
    }

    method CheckCalls(caller: Caller, calls: seq<Node>, tainted: set<string>, receivers: ReceiverMap)
      requires forall c | c in calls :: c.Call?
      modifies this
      ensures findings == old(findings) + ScanCalls(cx, caller, calls, tainted, receivers)
    {
      hide CallFindings;
      for c := 0 to |calls|
        invariant findings == old(findings) + ScanCalls(cx, caller, calls[..c], tainted, receivers)
      {
        assert calls[..c + 1] == calls[..c] + [calls[c]];
        ScanAppend(cx, caller, calls[..c], calls[c], tainted, receivers);
        Assoc(old(findings), ScanCalls(cx, caller, calls[..c], tainted, receivers),
              CallFindings(cx, caller, calls[c], tainted, receivers));
        CheckCall(caller, calls[c], tainted, receivers);
      }
      assert calls[..|calls|] == calls;
    }

    /** `_analyze_module_calls` */
    method AnalyzeModuleCalls(mod: string, file: string, body: seq<Node>)
      modifies this
      ensures findings == old(findings) + ModuleFindings(cx, mod, file, body)
    {
      hide FunctionFindings, ContractedFunctions;
      var all := ContractedFunctions(body);
      for i := 0 to |all|
        invariant findings == old(findings) + FindingsOfAll(cx, mod, file, all[..i])
      {
        assert all[..i + 1] == all[..i] + [all[i]];
        assert all[i] in all;
        AllAppend(cx, mod, file, all[..i], all[i]);
        Assoc(old(findings), FindingsOfAll(cx, mod, file, all[..i]),
              FunctionFindings(cx, mod, file, all[i].0, all[i].1));
        AnalyzeFunctionBody(mod, file, all[i].0, all[i].1);
      }
      assert all[..|all|] == all;
    }

    /** The caller phase of `run` */
    method Run(rows: seq<ModuleRow>)
      requires forall r | r in rows :: RowOk(r)
      modifies this
      ensures findings == old(findings) + GatedFindings(cx, rows)
    {
      hide ModuleEmits, ModuleFindings, RowsHarvested;
      for i := 0 to |rows|
        invariant findings == old(findings) + GatedFindings(cx, rows[..i])
      {
        var row := rows[i];
        assert row in rows && rows[..i + 1][..i] == rows[..i];
        var emits := ModuleMayEmit(cx, row.mod, row.facts, row.quals);
        if !emits || row.tree == None {
          continue;
        }
        Assoc(old(findings), GatedFindings(cx, rows[..i]), ModuleFindings(cx, row.mod, row.file, row.tree.value));
        AnalyzeModuleCalls(row.mod, row.file, row.tree.value);
      }
      assert rows[..|rows|] == rows;
    }
  }

  lemma {:induction false} GatedIsNoLonger(cx: Analysis, rows: seq<ModuleRow>)
    ensures |GatedFindings(cx, rows)| <= |UngatedFindings(cx, rows)|
    decreases |rows|
  {
    hide ModuleEmits, ModuleFindings;
    if rows != [] {
      GatedIsNoLonger(cx, rows[..|rows| - 1]);
    }
  }

  lemma SplitEqual<T>(a: seq<T>, b: seq<T>, c: seq<T>, d: seq<T>)
    requires |a| <= |c| && (b == d || b == [])
    ensures a + b == c + d <==> a == c && b == d
  {
    if a + b == c + d {
      assert |a + b| == |a| + |b| && |c + d| == |c| + |d|;
      assert a == (a + b)[..|a|] && c == (c + d)[..|a|];
    }
  }

  /** Exactly when the gate loses nothing: every readable module that dispatches a tainted argument into a
      handler's sink is let through. */
  lemma {:induction false} GateLosesNothingIff(cx: Analysis, rows: seq<ModuleRow>)
    requires forall r | r in rows :: RowOk(r)
    ensures GatedFindings(cx, rows) == UngatedFindings(cx, rows)
       <==> forall r | r in rows :: RowDispatches(cx, r) ==> ModuleEmits(cx, r.mod, r.facts)
    decreases |rows|
  {
    hide ModuleEmits, ModuleFindings, RowDispatches, RowOk;
    if rows != [] {
      var front, last := rows[..|rows| - 1], rows[|rows| - 1];
      assert rows == front + [last];
      GateLosesNothingIff(cx, front);
      GatedIsNoLonger(cx, front);
      var all := if last.tree == None then [] else ModuleFindings(cx, last.mod, last.file, last.tree.value);
      var found := if last.tree == None || !ModuleEmits(cx, last.mod, last.facts) then [] else all;
      SplitEqual(GatedFindings(cx, front), found, UngatedFindings(cx, front), all);
      SkippedRow(cx, last);
      assert forall r :: r in rows <==> r in front || r == last;
    }
  }

  lemma SkippedRow(cx: Analysis, row: ModuleRow)
    requires RowOk(row)
    ensures row.tree == None ==> !RowDispatches(cx, row)
    ensures row.tree.Some? && !ModuleEmits(cx, row.mod, row.facts) ==>
              (ModuleFindings(cx, row.mod, row.file, row.tree.value) == [] <==> !RowDispatches(cx, row))
  {
    hide ModuleEmits, ModuleFindings, ModuleDispatches, RowsHarvested;
    if row.tree.Some? && !ModuleEmits(cx, row.mod, row.facts) {
      SilentGateIsRight(cx, row.mod, row.file, row.facts, row.tree.value);
    }
  }

  lemma FindingsFromStep(cx: Analysis, caller: Caller, line: int, callee: FuncId, bound: map<nat, Node>,
                         tainted: set<string>, q: nat)
    requires HasContract(cx.prog, callee) && callee in cx.st.table && q < |ContractOf(cx.prog, callee).params|
    ensures FindingsFrom(cx, caller, line, callee, bound, tainted, q)
         == (if q in bound && q !in Neutralized(cx.prog, callee) && IsTainted(cx, bound[q], tainted)
             then EdgeFindings(cx, caller, line, callee, cx.st.table[callee], q) else [])
            + FindingsFrom(cx, caller, line, callee, bound, tainted, q + 1)
  {
  }

  lemma FindingsFromEnd(cx: Analysis, caller: Caller, line: int, callee: FuncId, bound: map<nat, Node>,
                        tainted: set<string>)
    requires HasContract(cx.prog, callee) && callee in cx.st.table
    ensures FindingsFrom(cx, caller, line, callee, bound, tainted, |ContractOf(cx.prog, callee).params|) == []
  {
  }

  lemma {:induction false} EdgeFindingsAppend(cx: Analysis, caller: Caller, line: int, callee: FuncId, edges: seq<Edge>,
                                              e: Edge, q: nat)
    requires HasContract(cx.prog, callee)
    ensures EdgeFindings(cx, caller, line, callee, edges + [e], q)
         == if e.param == q
            then EdgeFindings(cx, caller, line, callee, edges, q) + [FindingFor(cx, caller, line, callee, e)]
            else EdgeFindings(cx, caller, line, callee, edges, q)
  {
    hide FindingFor, HasContract;
    if edges != [] {
      assert (edges + [e])[1..] == edges[1..] + [e];
      EdgeFindingsAppend(cx, caller, line, callee, edges[1..], e, q);
      Assoc(if edges[0].param == q then [FindingFor(cx, caller, line, callee, edges[0])] else [],
            EdgeFindings(cx, caller, line, callee, edges[1..], q), [FindingFor(cx, caller, line, callee, e)]);
    }
  }

  lemma NoTargets(cx: Analysis, caller: Caller, call: Node, tainted: set<string>, receivers: ReceiverMap)
    requires call.Call?
    ensures DispatchFindings(cx, caller, call, [], tainted, receivers) == []
  {
  }

  lemma {:induction false} DispatchAppend(cx: Analysis, caller: Caller, call: Node, targets: seq<FuncId>, t: FuncId,
                                          tainted: set<string>, receivers: ReceiverMap)
    requires call.Call?
    ensures DispatchFindings(cx, caller, call, targets + [t], tainted, receivers)
         == DispatchFindings(cx, caller, call, targets, tainted, receivers)
            + ContractFindings(cx, caller, call, t, tainted, receivers)
  {
    hide ContractFindings;
    if targets == [] {
      assert targets + [t] == [t] && [t][1..] == [];
    } else {
      assert (targets + [t])[1..] == targets[1..] + [t];
      DispatchAppend(cx, caller, call, targets[1..], t, tainted, receivers);
      Assoc(ContractFindings(cx, caller, call, targets[0], tainted, receivers),
            DispatchFindings(cx, caller, call, targets[1..], tainted, receivers),
            ContractFindings(cx, caller, call, t, tainted, receivers));
    }
  }

  lemma {:induction false} ScanAppend(cx: Analysis, caller: Caller, calls: seq<Node>, call: Node,
                                      tainted: set<string>, receivers: ReceiverMap)
    requires call.Call? && forall c | c in calls :: c.Call?
    ensures ScanCalls(cx, caller, calls + [call], tainted, receivers)
         == ScanCalls(cx, caller, calls, tainted, receivers) + CallFindings(cx, caller, call, tainted, receivers)
  {
    hide CallFindings;
    if calls == [] {
      assert calls + [call] == [call] && [call][1..] == [];
    } else {
      assert (calls + [call])[1..] == calls[1..] + [call];
      ScanAppend(cx, caller, calls[1..], call, tainted, receivers);
      Assoc(CallFindings(cx, caller, calls[0], tainted, receivers),
            ScanCalls(cx, caller, calls[1..], tainted, receivers), CallFindings(cx, caller, call, tainted, receivers));
    }
  }

  lemma {:induction false} AllAppend(cx: Analysis, mod: string, file: string, all: seq<(Node, string)>,
                                     f: (Node, string))
    requires f.0.FunctionDef? && forall g | g in all :: g.0.FunctionDef?
    ensures FindingsOfAll(cx, mod, file, all + [f])
         == FindingsOfAll(cx, mod, file, all) + FunctionFindings(cx, mod, file, f.0, f.1)
  {
    hide FunctionFindings;
    if all == [] {
      assert all + [f] == [f] && [f][1..] == [];
    } else {
      assert (all + [f])[1..] == all[1..] + [f];
      AllAppend(cx, mod, file, all[1..], f);
      Assoc(FunctionFindings(cx, mod, file, all[0].0, all[0].1), FindingsOfAll(cx, mod, file, all[1..]),
            FunctionFindings(cx, mod, file, f.0, f.1));
    }
  }

  lemma BodyStep(cx: Analysis, caller: Caller, body: seq<Node>, tainted: set<string>, receivers: ReceiverMap)
    requires body != []
    ensures BodyFindings(cx, caller, body, tainted, receivers)
         == var tainted' := TaintAfter(cx, caller, body[0], tainted, receivers);
            ScanCalls(cx, caller, CallsOf(Walk([body[0]])), tainted', receivers)
            + BodyFindings(cx, caller, body[1..], tainted', receivers)
  {
  }

  lemma BodyEnd(cx: Analysis, caller: Caller, body: seq<Node>, tainted: set<string>, receivers: ReceiverMap)
    requires body == []
    ensures BodyFindings(cx, caller, body, tainted, receivers) == []
  {
  }
}
