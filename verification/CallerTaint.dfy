/** What the taint of a caller means: which names can carry request data in a straight-line body, and when the
    statement-by-statement taint set misses none of them. */
module CallerTaint {
  import opened Options
  import opened PyAst
  import opened Facts
  import opened Resolution
  import opened Calls
  import opened Callers
  import opened Reports
  import opened Summarizer
  import opened Dataflow
  import opened Verdict
  import opened Chains

  /** A caller's body with what its analysis starts from. */
  datatype Body = Body(cx: Analysis, caller: Caller, receivers: ReceiverMap, stmts: seq<Node>, start: set<string>)

  /** The taint before statement `i`. */
  function TaintBefore(b: Body, i: nat): set<string>
    requires i <= |b.stmts|
  {
    if i == 0 then b.start else TaintAt(b.cx, b.caller, b.stmts, i - 1, b.start, b.receivers)
  }

  /** What the textual tests are: a text mentions a set of names if it mentions one of them, it mentions the names
      spelt in it, and a source pattern in a part of a text is in the text. */
  ghost predicate Textual(cx: Analysis) {
    && (forall n, names: set<string> :: cx.mentions(n, names) <==> exists x :: x in names && cx.mentions(n, {x}))
    && (forall n, name | name in Below([n]) && name.Name? :: cx.mentions(n, {name.id}))
    && (forall n, c | c in Children(n) && cx.isSource(c) :: cx.isSource(n))
  }

  // ---------------------------------------------------------------- taint as a chain

  /** The statement assigns the name a source. */
  ghost predicate TakesSource(b: Body, i: nat, x: string) {
    && i < |b.stmts| && b.stmts[i].Assign? && x in TargetNames(b.stmts[i].targets)
    && b.cx.isSource(b.stmts[i].value)
  }

  /** The call resolves to this contract. */
  ghost predicate ResolvesTo(b: Body, n: Node, callee: FuncId) {
    && n.Call? && CallContract(b.cx.prog, b.caller.mod, n, b.receivers) == Some(callee)
    && HasContract(b.cx.prog, callee)
  }

  /** The argument is handed to a parameter that reaches the callee's return. */
  ghost predicate Returned(b: Body, call: Node, callee: FuncId, arg: Node)
    requires ResolvesTo(b, call, callee)
  {
    exists i: nat ::
      && i in ContractOf(b.cx.prog, callee).taintedReturns
      && i in ArgumentsOf(b.cx, b.caller, call, callee, b.receivers)
      && ArgumentsOf(b.cx, b.caller, call, callee, b.receivers)[i] == arg
  }

  /** The statement hands the taint of `y` on to `x`: through a resolved call, only from an argument that is
      returned and never through a sanitizer; otherwise from any text that mentions `y`. */
  ghost predicate HandsOn(b: Body, i: nat, y: string, x: string) {
    && i < |b.stmts| && b.stmts[i].Assign? && x in TargetNames(b.stmts[i].targets)
    && (var value := b.stmts[i].value;
        if exists callee :: ResolvesTo(b, value, callee) then
          exists callee, arg, name :: ResolvesTo(b, value, callee) && !ContractOf(b.cx.prog, callee).isSanitizer
            && Returned(b, value, callee, arg) && name in Below([arg]) && name.Name? && name.id == y
        else b.cx.mentions(value, {y}))
  }

  ghost function Sources(b: Body): (nat, string) -> bool {
    (t: nat, x: string) => if t == 0 then x in b.start else TakesSource(b, t - 1, x)
  }

  ghost function Hands(b: Body): (nat, string, string) -> bool {
    (t: nat, y: string, x: string) => HandsOn(b, t, y, x)
  }

  lemma TaintNext(b: Body, i: nat)
    requires i < |b.stmts|
    ensures TaintBefore(b, i + 1) == TaintAfter(b.cx, b.caller, b.stmts[i], TaintBefore(b, i), b.receivers)
  {
    hide TaintAfter;
  }

  lemma ReturnsTaintedIff(b: Body, call: Node, callee: FuncId, tainted: set<string>)
    requires ResolvesTo(b, call, callee)
    ensures ReturnsTaintedArg(ArgumentsOf(b.cx, b.caller, call, callee, b.receivers),
                              ContractOf(b.cx.prog, callee).taintedReturns, tainted)
       <==> exists arg, name ::
              && Returned(b, call, callee, arg) && name in Below([arg])
              && name.Name? && name.id in tainted
  {
    hide ArgumentsOf, CallContract, Walk, Below;
    var bound := ArgumentsOf(b.cx, b.caller, call, callee, b.receivers);
    forall i | i in bound
      ensures forall n :: n in Walk([bound[i]]) <==> n in Below([bound[i]])
    {
      WalkVisitsBelow([bound[i]]);
    }
    var returned := ContractOf(b.cx.prog, callee).taintedReturns;
    if ReturnsTaintedArg(bound, returned, tainted) {
      var i :| i in returned && i in bound && exists n | n in Walk([bound[i]]) :: n.Name? && n.id in tainted;
      var n :| n in Walk([bound[i]]) && n.Name? && n.id in tainted;
      assert Returned(b, call, callee, bound[i]);
    }
  }

  /** One statement: what it taints beside what was tainted. */
  lemma TaintedAfter(b: Body, i: nat, x: string)
    requires Textual(b.cx) && i < |b.stmts|
    ensures x in TaintBefore(b, i + 1) <==>
            || x in TaintBefore(b, i) || TakesSource(b, i, x)
            || exists y :: y in TaintBefore(b, i) && HandsOn(b, i, y, x)
  {
    hide TaintBefore, ReturnsTaintedArg, ArgumentsOf, CallContract, TargetNames, Below, Returned;
    var stmt, tainted := b.stmts[i], TaintBefore(b, i);
    TaintNext(b, i);
    if stmt.Assign? && x in TargetNames(stmt.targets) {
      if callee :| ResolvesTo(b, stmt.value, callee) {
        ResolvedHandsOn(b, i, x, callee);
        ResolvedTaints(b, stmt, callee, tainted);
      } else {
        UnresolvedTaints(b, stmt, tainted);
      }
    }
  }

  lemma ResolvedTaints(b: Body, stmt: Node, callee: FuncId, tainted: set<string>)
    requires stmt.Assign? && ResolvesTo(b, stmt.value, callee)
    ensures AssignsTaint(b.cx, b.caller, stmt, tainted, b.receivers) <==>
            || b.cx.isSource(stmt.value)
            || (!ContractOf(b.cx.prog, callee).isSanitizer
                && exists arg, name ::
                     && Returned(b, stmt.value, callee, arg) && name in Below([arg])
                     && name.Name? && name.id in tainted)
  {
    hide ReturnsTaintedArg, ArgumentsOf, CallContract, Below, Returned;
    ReturnsTaintedIff(b, stmt.value, callee, tainted);
  }

  lemma UnresolvedTaints(b: Body, stmt: Node, tainted: set<string>)
    requires stmt.Assign? && forall callee :: !ResolvesTo(b, stmt.value, callee)
    ensures AssignsTaint(b.cx, b.caller, stmt, tainted, b.receivers) <==>
            b.cx.isSource(stmt.value) || b.cx.mentions(stmt.value, tainted)
  {
    hide ReturnsTaintedArg, ArgumentsOf;
    var resolved := CallContract(b.cx.prog, b.caller.mod, stmt.value, b.receivers);
    assert resolved.Some? ==> !ResolvesTo(b, stmt.value, resolved.value);
  }

  lemma ResolvedHandsOn(b: Body, i: nat, x: string, callee: FuncId)
    requires i < |b.stmts| && b.stmts[i].Assign? && x in TargetNames(b.stmts[i].targets)
    requires ResolvesTo(b, b.stmts[i].value, callee)
    ensures forall y :: HandsOn(b, i, y, x) <==>
      (!ContractOf(b.cx.prog, callee).isSanitizer
       && exists arg, name ::
            && Returned(b, b.stmts[i].value, callee, arg) && name in Below([arg])
            && name.Name? && name.id == y)
  {
    hide Returned, TargetNames, Below, ResolvesTo;
    OneCallee(b, b.stmts[i].value, callee);
  }

  lemma OneCallee(b: Body, n: Node, callee: FuncId)
    requires ResolvesTo(b, n, callee)
    ensures forall other | ResolvesTo(b, n, other) :: other == callee
  {
  }

  /** The taint at a statement, exactly: a name is tainted if and only if a chain of assignments leads to it from a
      request parameter or from a source. */
  lemma {:induction false} TaintIsChain(b: Body, i: nat, x: string)
    requires Textual(b.cx) && i <= |b.stmts|
    ensures x in TaintBefore(b, i) <==> Spreads(Sources(b), Hands(b), i, x)
    decreases i
  {
    hide Textual, Spreads, TakesSource, HandsOn;
    if i == 0 {
      SpreadsFirst(Sources(b), Hands(b), x);
    } else {
      var k: nat := i - 1;
      TaintedAfter(b, k, x);
      SpreadsNext(Sources(b), Hands(b), k, x);
      forall y
        ensures y in TaintBefore(b, k) <==> Spreads(Sources(b), Hands(b), k, y)
      {
        TaintIsChain(b, k, y);
      }
      assert Sources(b)(i, x) == TakesSource(b, k, x);
      assert forall y :: Hands(b)(k, y, x) == HandsOn(b, k, y, x);
    }
  }

  /** What a sanitizer's contract returns taints nothing. */
  lemma SanitizerAddsNothing(b: Body, i: nat, callee: FuncId)
    requires i < |b.stmts| && b.stmts[i].Assign? && !b.cx.isSource(b.stmts[i].value)
    requires ResolvesTo(b, b.stmts[i].value, callee) && ContractOf(b.cx.prog, callee).isSanitizer
    ensures TaintBefore(b, i + 1) == TaintBefore(b, i)
  {
    hide CallContract, TaintBefore;
    TaintNext(b, i);
  }

  // ---------------------------------------------------------------- what carries request data

  /** The operand of a resolved call that its result may depend on: the callee itself with its receiver, and the
      arguments that are returned. */
  ghost predicate Matters(b: Body, call: Node, callee: FuncId, c: Node)
    requires ResolvesTo(b, call, callee)
  {
    || c == call.func || Returned(b, call, callee, c) || (c.Keyword? && Returned(b, call, callee, c.value))
  }

  ghost predicate IsClean(b: Body, n: Node) {
    exists callee :: ResolvesTo(b, n, callee) && ContractOf(b.cx.prog, callee).isSanitizer
  }

  ghost predicate IsSummarised(b: Body, n: Node) {
    exists callee :: ResolvesTo(b, n, callee) && !ContractOf(b.cx.prog, callee).isSanitizer
  }

  /** A part of an expression that its value may depend on. */
  ghost predicate Counts(b: Body, n: Node, c: Node) {
    && c in Children(n)
    && forall callee | ResolvesTo(b, n, callee) :: !ContractOf(b.cx.prog, callee).isSanitizer
        && Matters(b, n, callee, c)
  }

  ghost predicate NameCarries(b: Body, k: nat, x: string)
    requires k <= |b.stmts|
    decreases k, 0
  {
    match LastAssigned(b.stmts, k, x)
    case None => x in b.start
    case Some(j) => ExprCarries(b, j, b.stmts[j].value)
  }

  /** At statement `k` the expression's value carries data of a request parameter or of a source, as far as the
      contracts of the functions it calls let it. */
  ghost predicate ExprCarries(b: Body, k: nat, e: Node)
    requires k <= |b.stmts|
    decreases k, 1, e
  {
    if e.Name? then NameCarries(b, k, e.id)
    else b.cx.isSource(e) || exists c | Counts(b, e, c) :: c < e && ExprCarries(b, k, c)
  }

  // ---------------------------------------------------------------- what is not carried is the same

  /** The two runs compute alike but for their sources. */
  ghost predicate SameProgram<V(!new)>(b: Body, semA: Semantics<V>, semB: Semantics<V>) {
    forall n, vs | !b.cx.isSource(n) :: semA(n, vs) == semB(n, vs)
  }

  /** What the summaries promise: a resolved call returns the same if the operands that count are the same; what a
      sanitizer returns is taken to be the same always. */
  ghost predicate Trusted<V(!new)>(b: Body, semA: Semantics<V>, semB: Semantics<V>) {
    forall call, one: Env<V>, two: Env<V> |
      && !b.cx.isSource(call) && (IsClean(b, call) || IsSummarised(b, call))
      && forall c | Counts(b, call, c) :: Eval(c, None, semA, one) == Eval(c, None, semB, two) ::
      Eval(call, None, semA, one) == Eval(call, None, semB, two)
  }

  /** Two runs of the body that differ in their request parameters and their sources only. */
  ghost predicate Runs<V(!new)>(b: Body, semA: Semantics<V>, semB: Semantics<V>, one: Env<V>, two: Env<V>) {
    SameProgram(b, semA, semB) && Trusted(b, semA, semB) && forall x | x !in b.start :: one(x) == two(x)
  }

  lemma {:induction false} UncarriedIsSame<V(!new)>(b: Body, k: nat, e: Node, semA: Semantics<V>, semB: Semantics<V>,
                                                    one: Env<V>, two: Env<V>)
    requires k <= |b.stmts| && Runs(b, semA, semB, one, two) && !ExprCarries(b, k, e)
    ensures Eval(e, None, semA, EnvAt(b.stmts, k, None, semA, one))
            == Eval(e, None, semB, EnvAt(b.stmts, k, None, semB, two))
    decreases k, e
  {
    hide Eval, EnvAt, SameProgram, Trusted, Counts, IsClean, IsSummarised;
    var envA, envB := EnvAt(b.stmts, k, None, semA, one), EnvAt(b.stmts, k, None, semB, two);
    if e.Name? {
      ValueOfName(b.stmts, k, None, semA, one, e.id);
      ValueOfName(b.stmts, k, None, semB, two, e.id);
      NameIsEnv(e, semA, envA);
      NameIsEnv(e, semB, envB);
      match LastAssigned(b.stmts, k, e.id) {
        case None =>
        case Some(j) => UncarriedIsSame(b, j, b.stmts[j].value, semA, semB, one, two);
      }
    } else {
      forall c | Counts(b, e, c)
        ensures Eval(c, None, semA, envA) == Eval(c, None, semB, envB)
      {
        CountsIsPart(b, e, c);
        UncarriedIsSame(b, k, c, semA, semB, one, two);
      }
      SameOperands(b, e, semA, semB, envA, envB);
    }
  }

  lemma NameIsEnv<V>(e: Node, sem: Semantics<V>, env: Env<V>)
    requires e.Name?
    ensures Eval(e, None, sem, env) == env(e.id)
  {
  }

  lemma CountsIsPart(b: Body, n: Node, c: Node)
    requires Counts(b, n, c)
    ensures c < n
  {
  }

  lemma SameOperands<V(!new)>(b: Body, e: Node, semA: Semantics<V>, semB: Semantics<V>, envA: Env<V>, envB: Env<V>)
    requires !e.Name? && !b.cx.isSource(e) && SameProgram(b, semA, semB) && Trusted(b, semA, semB)
    requires forall c | Counts(b, e, c) :: Eval(c, None, semA, envA) == Eval(c, None, semB, envB)
    ensures Eval(e, None, semA, envA) == Eval(e, None, semB, envB)
  {
    hide ResolvesTo, Matters;
    if !IsClean(b, e) && !IsSummarised(b, e) {
      var cs := Children(e);
      forall i | 0 <= i < |cs|
        ensures Eval(cs[i], None, semA, envA) == Eval(cs[i], None, semB, envB)
      {
        assert Counts(b, e, cs[i]);
      }
      assert Operands(e, None) == cs;
      assert Values(e, cs, None, semA, envA) == Values(e, cs, None, semB, envB);
    }
  }

  // ---------------------------------------------------------------- what is carried shows

  /** The values of the operands that count. */
  ghost function Kept<V>(b: Body, n: Node, cs: seq<Node>, vs: seq<V>): seq<V>
    requires |cs| == |vs|
    decreases |cs|
  {
    if cs == [] then []
    else Kept(b, n, cs[..|cs| - 1], vs[..|vs| - 1]) + if Counts(b, n, cs[|cs| - 1]) then [vs[|vs| - 1]] else []
  }

  lemma {:induction false} KeptSame<V>(b: Body, n: Node, cs: seq<Node>, vs: seq<V>, ws: seq<V>)
    requires |cs| == |vs| == |ws|
    ensures |Kept(b, n, cs, vs)| == |Kept(b, n, cs, ws)|
    ensures Kept(b, n, cs, vs) == Kept(b, n, cs, ws) <==>
            forall i | 0 <= i < |cs| :: Counts(b, n, cs[i]) ==> vs[i] == ws[i]
    decreases |cs|
  {
    hide Counts;
    if cs != [] {
      var m := |cs| - 1;
      KeptSame(b, n, cs[..m], vs[..m], ws[..m]);
      var a, c := Kept(b, n, cs[..m], vs[..m]), Kept(b, n, cs[..m], ws[..m]);
      if Counts(b, n, cs[m]) {
        LastsSame(a, c, vs[m], ws[m]);
      } else {
        assert a + [] == a && c + [] == c;
      }
    }
  }

  lemma LastsSame<V>(a: seq<V>, c: seq<V>, v: V, w: V)
    requires |a| == |c|
    ensures a + [v] == c + [w] <==> a == c && v == w
  {
    if a + [v] == c + [w] {
      assert a == (a + [v])[..|a|] && c == (c + [w])[..|a|];
      assert v == (a + [v])[|a|] && w == (c + [w])[|a|];
    }
  }

  /** Values that show what they are made from; a source has a mark of its own. */
  ghost function Terms(b: Body, mark: bool): Semantics<Term> {
    (n: Node, vs: seq<Term>) =>
      if b.cx.isSource(n) then Var("", mark)
      else App(n, if |vs| == |Children(n)| then Kept(b, n, Children(n), vs) else vs)
  }

  ghost function MarkedIn(names: set<string>): Env<Term> {
    (x: string) => Var(x, x in names)
  }

  lemma TermIs(b: Body, mark: bool, n: Node, env: Env<Term>)
    requires !n.Name?
    ensures Eval(n, None, Terms(b, mark), env)
         == if b.cx.isSource(n) then Var("", mark)
            else App(n, Kept(b, n, Children(n), Values(n, Children(n), None, Terms(b, mark), env)))
  {
    hide Kept, Values;
    assert Operands(n, None) == Children(n) && KwargSlot(n, None) == None;
  }

  lemma TermsAreTrusted(b: Body)
    ensures SameProgram(b, Terms(b, false), Terms(b, true)) && Trusted(b, Terms(b, false), Terms(b, true))
  {
    hide Kept, Counts, IsClean, IsSummarised, Eval, Values;
    var semA, semB := Terms(b, false), Terms(b, true);
    forall call, one: Env<Term>, two: Env<Term> |
      && !b.cx.isSource(call) && (IsClean(b, call) || IsSummarised(b, call))
      && forall c | Counts(b, call, c) :: Eval(c, None, semA, one) == Eval(c, None, semB, two)
      ensures Eval(call, None, semA, one) == Eval(call, None, semB, two)
    {
      ResolvedIsCall(b, call);
      TermIs(b, false, call, one);
      TermIs(b, true, call, two);
      var cs := Children(call);
      KeptSame(b, call, cs, Values(call, cs, None, semA, one), Values(call, cs, None, semB, two));
    }
  }

  lemma ResolvedIsCall(b: Body, n: Node)
    requires IsClean(b, n) || IsSummarised(b, n)
    ensures n.Call?
  {
  }

  lemma {:induction false} CarriedShows(b: Body, k: nat, e: Node)
    requires k <= |b.stmts| && ExprCarries(b, k, e)
    ensures Eval(e, None, Terms(b, false), EnvAt(b.stmts, k, None, Terms(b, false), PLAIN))
            != Eval(e, None, Terms(b, true), EnvAt(b.stmts, k, None, Terms(b, true), MarkedIn(b.start)))
    decreases k, e
  {
    hide Eval, EnvAt, Counts, Kept, Terms, Values;
    var semA, semB := Terms(b, false), Terms(b, true);
    var envA, envB := EnvAt(b.stmts, k, None, semA, PLAIN), EnvAt(b.stmts, k, None, semB, MarkedIn(b.start));
    if e.Name? {
      ValueOfName(b.stmts, k, None, semA, PLAIN, e.id);
      ValueOfName(b.stmts, k, None, semB, MarkedIn(b.start), e.id);
      NameIsEnv(e, semA, envA);
      NameIsEnv(e, semB, envB);
      match LastAssigned(b.stmts, k, e.id) {
        case None =>
        case Some(j) => CarriedShows(b, j, b.stmts[j].value);
      }
    } else {
      TermIs(b, false, e, envA);
      TermIs(b, true, e, envB);
      if !b.cx.isSource(e) {
        var c :| Counts(b, e, c) && c < e && ExprCarries(b, k, c);
        CarriedShows(b, k, c);
        var cs := Children(e);
        CountsIsChild(b, e, c);
        var i :| 0 <= i < |cs| && cs[i] == c;
        KeptSame(b, e, cs, Values(e, cs, None, semA, envA), Values(e, cs, None, semB, envB));
      }
    }
  }

  lemma CountsIsChild(b: Body, n: Node, c: Node)
    requires Counts(b, n, c)
    ensures c in Children(n)
  {
  }

  // ---------------------------------------------------------------- when the taint misses nothing

  /** The statement assigns an untainted name what a method returns whose receiver carries request data: the
      contract speaks of the parameters only. */
  ghost predicate HidesReceiver(b: Body, i: nat) {
    && i < |b.stmts| && b.stmts[i].Assign? && !b.cx.isSource(b.stmts[i].value)
    && IsSummarised(b, b.stmts[i].value) && ExprCarries(b, i, b.stmts[i].value.func)
    && exists x | x in TargetNames(b.stmts[i].targets) :: x !in TaintBefore(b, i + 1)
  }

  /** An expression without a source whose names carry nothing carries nothing. */
  lemma {:induction false} NoNameNoCarry(b: Body, k: nat, e: Node)
    requires Textual(b.cx) && k <= |b.stmts| && !b.cx.isSource(e)
    requires forall n | n in Below([e]) && n.Name? :: !NameCarries(b, k, n.id)
    ensures !ExprCarries(b, k, e)
    decreases e
  {
    hide Counts, NameCarries;
    BelowOne(e);
    forall c | Counts(b, e, c) && c < e
      ensures !ExprCarries(b, k, c)
    {
      CountsIsChild(b, e, c);
      BelowChild(e, c);
      NoNameNoCarry(b, k, c);
    }
  }

  lemma LastAssignedHere(b: Body, i: nat, x: string)
    requires i < |b.stmts|
    ensures LastAssigned(b.stmts, i + 1, x)
         == if b.stmts[i].Assign? && x in TargetNames(b.stmts[i].targets) then Some(i) else LastAssigned(b.stmts, i, x)
  {
    hide TargetNames;
  }

  /** An assigned value that does not taint carries nothing, unless its receiver does. */
  lemma UntaintedValue(b: Body, i: nat, x: string)
    requires Textual(b.cx) && i < |b.stmts| && b.stmts[i].Assign? && x in TargetNames(b.stmts[i].targets)
    requires x !in TaintBefore(b, i + 1)
    requires forall y | y !in TaintBefore(b, i) :: !NameCarries(b, i, y)
    ensures ExprCarries(b, i, b.stmts[i].value) ==> HidesReceiver(b, i)
  {
    hide NameCarries, TaintBefore, ResolvesTo, Returned, TargetNames, Textual;
    var value := b.stmts[i].value;
    TaintedAfter(b, i, x);
    assert b.cx.isSource(value) ==> TakesSource(b, i, x);
    if callee :| ResolvesTo(b, value, callee) {
      OneCallee(b, value, callee);
      CallIsCall(b, value, callee);
      if !ContractOf(b.cx.prog, callee).isSanitizer {
        forall c | Counts(b, value, c) && c < value && c != value.func
          ensures !ExprCarries(b, i, c)
        {
          ReturnedUntainted(b, i, x, callee, c);
        }
      } else {
        NothingCounts(b, value, callee);
      }
    } else {
      forall n | n in Below([value]) && n.Name?
        ensures !NameCarries(b, i, n.id)
      {
        SpeltIsMentioned(b.cx, value, n);
        assert HandsOn(b, i, n.id, x);
      }
      NoNameNoCarry(b, i, value);
    }
  }

  lemma CallIsCall(b: Body, n: Node, callee: FuncId)
    requires ResolvesTo(b, n, callee)
    ensures n.Call? && HasContract(b.cx.prog, callee)
  {
  }

  lemma NothingCounts(b: Body, n: Node, callee: FuncId)
    requires ResolvesTo(b, n, callee) && ContractOf(b.cx.prog, callee).isSanitizer
    ensures forall c :: !Counts(b, n, c)
  {
  }

  lemma SpeltIsMentioned(cx: Analysis, n: Node, name: Node)
    requires Textual(cx) && name in Below([n]) && name.Name?
    ensures cx.mentions(n, {name.id})
  {
  }

  lemma PartIsNoSource(cx: Analysis, n: Node, c: Node)
    requires Textual(cx) && c in Children(n) && !cx.isSource(n)
    ensures !cx.isSource(c)
  {
  }

  /** An operand that is returned and spells no tainted name. */
  lemma ReturnedUntainted(b: Body, i: nat, x: string, callee: FuncId, c: Node)
    requires Textual(b.cx) && i < |b.stmts| && b.stmts[i].Assign? && x in TargetNames(b.stmts[i].targets)
    requires x !in TaintBefore(b, i + 1) && !b.cx.isSource(b.stmts[i].value)
    requires forall y | y !in TaintBefore(b, i) :: !NameCarries(b, i, y)
    requires ResolvesTo(b, b.stmts[i].value, callee) && !ContractOf(b.cx.prog, callee).isSanitizer
    requires Counts(b, b.stmts[i].value, c) && c != b.stmts[i].value.func
    ensures !ExprCarries(b, i, c)
  {
    hide NameCarries, TaintBefore, ResolvesTo, Returned, TargetNames, Textual;
    var value := b.stmts[i].value;
    TaintedAfter(b, i, x);
    assert Matters(b, value, callee, c);
    PartIsNoSource(b.cx, value, c);
    var arg := if Returned(b, value, callee, c) then c else c.value;
    if arg != c { BelowOne(c); BelowChild(c, arg); }
    forall n | n in Below([arg]) && n.Name?
      ensures !NameCarries(b, i, n.id)
    {
      assert HandsOn(b, i, n.id, x);
    }
    if arg != c {
      PartIsNoSource(b.cx, c, arg);
      NoNameNoCarry(b, i, arg);
      KeywordCarries(b, i, c);
    } else {
      NoNameNoCarry(b, i, c);
    }
  }

  lemma KeywordCarries(b: Body, k: nat, c: Node)
    requires k <= |b.stmts| && c.Keyword? && !b.cx.isSource(c) && !ExprCarries(b, k, c.value)
    ensures !ExprCarries(b, k, c)
  {
    assert Children(c) == [c.value];
  }

  /** Without a hidden receiver, untainted names carry nothing. */
  lemma {:induction false} UntaintedCarriesNothing(b: Body, i: nat, x: string)
    requires Textual(b.cx) && i <= |b.stmts| && (forall j: nat | j < i :: !HidesReceiver(b, j))
    requires x !in TaintBefore(b, i)
    ensures !NameCarries(b, i, x)
    decreases i
  {
    hide HidesReceiver, Textual, ExprCarries, TargetNames;
    if i > 0 {
      var k: nat := i - 1;
      TaintNext(b, k);
      LastAssignedHere(b, k, x);
      if b.stmts[k].Assign? && x in TargetNames(b.stmts[k].targets) {
        forall y | y !in TaintBefore(b, k)
          ensures !NameCarries(b, k, y)
        {
          UntaintedCarriesNothing(b, k, y);
        }
        UntaintedValue(b, k, x);
      } else {
        UntaintedCarriesNothing(b, k, x);
      }
    }
  }

  /** Whatever two runs differ in, an untainted name holds the same in both. */
  ghost predicate TaintMissesNothing(b: Body) {
    forall i: nat, x, semA: Semantics<Term>, semB: Semantics<Term>, one: Env<Term>, two: Env<Term> |
      i <= |b.stmts| && x !in TaintBefore(b, i) && Runs(b, semA, semB, one, two) ::
      EnvAt(b.stmts, i, None, semA, one)(x) == EnvAt(b.stmts, i, None, semB, two)(x)
  }

  /** Exactly when the taint of a straight-line caller misses nothing: no untainted name is assigned what a method
      returns whose receiver carries request data. */
  lemma TaintMissesNothingIff(b: Body)
    requires Textual(b.cx) && StraightLine(b.stmts, None)
    ensures TaintMissesNothing(b) <==> forall i: nat :: !HidesReceiver(b, i)
  {
    hide Textual, HidesReceiver, NameCarries, EnvAt, Runs, StraightLine, TaintBefore;
    if forall i: nat :: !HidesReceiver(b, i) {
      forall i: nat, x, semA: Semantics<Term>, semB: Semantics<Term>, one: Env<Term>, two: Env<Term> |
        i <= |b.stmts| && x !in TaintBefore(b, i) && Runs(b, semA, semB, one, two)
        ensures EnvAt(b.stmts, i, None, semA, one)(x) == EnvAt(b.stmts, i, None, semB, two)(x)
      {
        UntaintedCarriesNothing(b, i, x);
        UncarriedNameIsSame(b, i, x, semA, semB, one, two);
      }
    } else {
      var i: nat :| HidesReceiver(b, i);
      HiddenShows(b, i);
    }
  }

  lemma UncarriedNameIsSame<V(!new)>(b: Body, i: nat, x: string, semA: Semantics<V>, semB: Semantics<V>,
                                     one: Env<V>, two: Env<V>)
    requires i <= |b.stmts| && !NameCarries(b, i, x) && Runs(b, semA, semB, one, two)
    ensures EnvAt(b.stmts, i, None, semA, one)(x) == EnvAt(b.stmts, i, None, semB, two)(x)
  {
    hide NameCarries, EnvAt, Runs;
    var e := Name(x, true);
    assert ExprCarries(b, i, e) == NameCarries(b, i, x);
    UncarriedIsSame(b, i, e, semA, semB, one, two);
    NameIsEnv(e, semA, EnvAt(b.stmts, i, None, semA, one));
    NameIsEnv(e, semB, EnvAt(b.stmts, i, None, semB, two));
  }

  lemma HiddenShows(b: Body, i: nat)
    requires HidesReceiver(b, i)
    ensures !TaintMissesNothing(b)
  {
    hide EnvAt, TaintBefore, Trusted, SameProgram, Terms, TargetNames;
    var value := b.stmts[i].value;
    var x :| x in TargetNames(b.stmts[i].targets) && x !in TaintBefore(b, i + 1);
    var semA, semB, two := Terms(b, false), Terms(b, true), MarkedIn(b.start);
    TermsAreTrusted(b);
    assert Runs(b, semA, semB, PLAIN, two);
    FuncCounts(b, value);
    assert ExprCarries(b, i, value);
    LastAssignedHere(b, i, x);
    var e := Name(x, true);
    assert ExprCarries(b, i + 1, e);
    CarriedShows(b, i + 1, e);
    NameIsEnv(e, semA, EnvAt(b.stmts, i + 1, None, semA, PLAIN));
    NameIsEnv(e, semB, EnvAt(b.stmts, i + 1, None, semB, two));
  }

  lemma FuncCounts(b: Body, call: Node)
    requires IsSummarised(b, call)
    ensures Counts(b, call, call.func) && call.func < call
  {
    var callee :| ResolvesTo(b, call, callee) && !ContractOf(b.cx.prog, callee).isSanitizer;
    OneCallee(b, call, callee);
    assert call.func in Children(call);
  }

  /** So an argument the analysis does not call tainted holds the same in any two runs. */
  lemma UntaintedArgumentIsSame<V(!new)>(b: Body, i: nat, arg: Node, semA: Semantics<V>, semB: Semantics<V>,
                                         one: Env<V>, two: Env<V>)
    requires Textual(b.cx) && StraightLine(b.stmts, None) && i < |b.stmts|
    requires (forall j: nat | j < i :: !HidesReceiver(b, j)) && Runs(b, semA, semB, one, two)
    requires !IsTainted(b.cx, arg, TaintBefore(b, i + 1))
    ensures Eval(arg, None, semA, EnvAt(b.stmts, i, None, semA, one))
            == Eval(arg, None, semB, EnvAt(b.stmts, i, None, semB, two))
  {
    hide HidesReceiver, NameCarries, EnvAt, Runs, StraightLine, Eval, Textual;
    TaintNext(b, i);
    forall n | n in Below([arg]) && n.Name?
      ensures !NameCarries(b, i, n.id)
    {
      SpeltIsMentioned(b.cx, arg, n);
      MentionsAny(b.cx, arg, TaintBefore(b, i + 1), n.id);
      UntaintedCarriesNothing(b, i, n.id);
    }
    NoNameNoCarry(b, i, arg);
    UncarriedIsSame(b, i, arg, semA, semB, one, two);
  }

  lemma MentionsAny(cx: Analysis, n: Node, names: set<string>, x: string)
    requires Textual(cx) && cx.mentions(n, {x}) && !cx.mentions(n, names)
    ensures x !in names
  {
  }

  // ---------------------------------------------------------------- the analysis of a function

  /** What the analysis of a function starts from: the parameters that hold a request. */
  function BodyOf(cx: Analysis, mod: string, file: string, func: Node, qual: string): Body
    requires func.FunctionDef?
  {
    Body(cx, Caller(mod, file, qual), ReceiversIn(cx.prog, mod, func, qual), func.body,
         set p | p in ParameterNames(func) && p in {"request", "req"})
  }

  /** What a function reports, it reports at that taint. */
  lemma ReportsAtTaint(cx: Analysis, mod: string, file: string, func: Node, qual: string, i: nat, call: Node,
                       f: Finding)
    requires func.FunctionDef? && i < |func.body|
    ensures FunctionReports(cx, mod, file, func, qual, i, call, f) <==>
            && call.Call? && call in Walk([func.body[i]])
            && var b := BodyOf(cx, mod, file, func, qual);
               f in CallFindings(cx, b.caller, call, TaintBefore(b, i + 1), b.receivers)
  {
    hide CallFindings, TaintAfter, ReceiversIn, Walk;
    assert ParameterTaint(func.parameters) == BodyOf(cx, mod, file, func, qual).start;
  }

  // ---------------------------------------------------------------- taint that is missed

  const REQUEST: Node := Name("request", true)
  const MAKE: Node := Call(Name("Wrap", true), [REQUEST], [], 2)
  const GET: Node := Call(Attribute(Name("w", true), "get"), [], [], 3)

  /** `w = Wrap(request); x = w.get()` */
  const WRAPPED: seq<Node> := [Assign([Name("w", false)], MAKE), Assign([Name("x", false)], GET)]

  /** Where `get` is a method without parameters that is no sanitizer, its result is not tainted though the object
      carries the request. */
  lemma ReceiverHidesTaint(b: Body, callee: FuncId)
    requires b.stmts == WRAPPED && b.start == {"request"} && Textual(b.cx)
    requires !b.cx.isSource(MAKE) && !b.cx.isSource(GET) && forall other :: !ResolvesTo(b, MAKE, other)
    requires ResolvesTo(b, GET, callee) && !ContractOf(b.cx.prog, callee).isSanitizer
    requires ContractOf(b.cx.prog, callee).taintedReturns == {}
    ensures HidesReceiver(b, 1) && "x" !in TaintBefore(b, 2) && !TaintMissesNothing(b)
  {
    hide Textual, ResolvesTo, TaintMissesNothing, ExprCarries, TaintBefore;
    XStaysUntainted(b, callee);
    WrapCarries(b);
    var last := b.stmts[1];
    assert last.value == GET && TargetNames(last.targets) == ["x"];
    assert IsSummarised(b, GET) && "x" in TargetNames(last.targets) && "x" !in TaintBefore(b, 1 + 1);
    HiddenShows(b, 1);
  }

  lemma XStaysUntainted(b: Body, callee: FuncId)
    requires b.stmts == WRAPPED && b.start == {"request"} && Textual(b.cx) && !b.cx.isSource(GET)
    requires ResolvesTo(b, GET, callee) && ContractOf(b.cx.prog, callee).taintedReturns == {}
    ensures "x" !in TaintBefore(b, 2)
  {
    hide Textual, ResolvesTo;
    TaintedAfter(b, 0, "x");
    TaintedAfter(b, 1, "x");
    OneCallee(b, GET, callee);
    assert forall arg :: !Returned(b, GET, callee, arg);
    assert TargetNames([Name("w", false)]) == ["w"] && TargetNames([Name("x", false)]) == ["x"];
    assert forall y :: !HandsOn(b, 1, y, "x");
  }

  lemma OnlyCallsResolve(b: Body, n: Node)
    requires !n.Call?
    ensures forall other :: !ResolvesTo(b, n, other)
  {
  }

  lemma WrapCarries(b: Body)
    requires b.stmts == WRAPPED && b.start == {"request"} && forall other :: !ResolvesTo(b, MAKE, other)
    ensures ExprCarries(b, 1, GET.func)
  {
    OnlyCallsResolve(b, GET.func);
    hide ResolvesTo;
    var w := Name("w", true);
    assert TargetNames([Name("w", false)]) == ["w"] && LastAssigned(b.stmts, 1, "w") == Some(0);
    assert ExprCarries(b, 0, REQUEST);
    assert Children(MAKE) == [Name("Wrap", true), REQUEST] && Counts(b, MAKE, REQUEST);
    assert ExprCarries(b, 0, MAKE);
    assert ExprCarries(b, 1, w);
    assert Children(GET.func) == [w] && Counts(b, GET.func, w);
  }

  /** `if c: x = request` */
  const BLOCK: seq<Node> := [OtherStmt([Name("c", true), Assign([Name("x", false)], REQUEST)])]

  /** An assignment inside a block taints nothing. */
  lemma BlockHidesTaint(b: Body, env: Env<Term>)
    requires b.stmts == BLOCK && b.start == {"request"}
    ensures "x" !in TaintBefore(b, 1)
    ensures EnvAt([Assign([Name("x", false)], REQUEST)], 1, None, FREE, env)("x") == env("request")
  {
    TaintNext(b, 0);
    assert TargetNames([Name("x", false)]) == ["x"];
    var path := [Assign([Name("x", false)], REQUEST)];
    assert EnvAt(path, 0, None, FREE, env) == env;
  }
}
