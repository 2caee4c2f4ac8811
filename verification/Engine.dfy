/** The cross-file taint engine: mutable contracts, provenance tables and the propagation loop. */
module Engine {
  import opened Options
  import opened Facts
  import opened Resolution
  import opened Calls
  import opened Forwarding
  import opened FixedPoint

  /** One function's contract; only its sink edges change after the summary is built. */
  class FunctionSummary {
    const id: FuncId
    const contract: Contract
    var paramSinks: seq<Edge>

    constructor (id: FuncId, contract: Contract)
      ensures this.id == id && this.contract == contract && paramSinks == contract.ownSinks
    {
      this.id := id;
      this.contract := contract;
      paramSinks := contract.ownSinks;
    }
  }

  ghost predicate SlotsCached(prog: Program, slots: map<FuncId, set<nat>>) {
    forall f | f in slots :: HasContract(prog, f) && slots[f] == Neutralized(prog, f)
  }

  class CrossFileTaintEngine {
    const prog: Program
    const order: seq<FuncId>  // the functions, in the iteration order of the module and function tables
    const contracts: map<FuncId, FunctionSummary>
    var sinkOrigins: map<RouteKey, string>
    var sinkRoute: map<RouteKey, seq<Hop>>
    var decoratorSlots: map<FuncId, set<nat>>
    var propagationRounds: nat
    ghost var chain: map<RouteKey, seq<Slot>>

    /** The contract objects are those of the program, one each. */
    ghost predicate Linked() {
      && (forall f :: f in contracts <==> HasContract(prog, f))
      && (forall f | f in contracts :: contracts[f].id == f && contracts[f].contract == ContractOf(prog, f))
      && (forall f :: f in order <==> HasContract(prog, f))
    }

    ghost function Table(): map<FuncId, seq<Edge>>
      reads contracts.Values
    {
      map f | f in contracts :: contracts[f].paramSinks
    }

    ghost function Provenances(): State
      reads this, contracts.Values
    {
      State(Table(), sinkOrigins, sinkRoute, chain)
    }

    ghost predicate Valid()
      reads this, contracts.Values
    {
      && Linked()
      && Sound(prog, Provenances())
      && SlotsCached(prog, decoratorSlots)
    }

    constructor (prog: Program, order: seq<FuncId>, contracts: map<FuncId, FunctionSummary>)
      requires WellFormed(prog)
      requires forall f :: f in contracts <==> HasContract(prog, f)
      requires forall f | f in contracts :: contracts[f].id == f && contracts[f].contract == ContractOf(prog, f)
      requires forall f | f in contracts :: contracts[f].paramSinks == contracts[f].contract.ownSinks
      requires forall f :: f in order <==> HasContract(prog, f)
      ensures Valid() && this.prog == prog && this.order == order && this.contracts == contracts
      ensures Initial(prog, Provenances()) && propagationRounds == 0
    {
      this.prog, this.order, this.contracts := prog, order, contracts;
      sinkOrigins, sinkRoute, decoratorSlots, chain := map[], map[], map[], map[];
      propagationRounds := 0;
      new;
      InitialIsSound(prog, Provenances());
    }

    /** `_decorator_sanitized_params`, with its cache. */
    method DecoratorSanitizedParams(callee: FuncId) returns (sanitized: set<nat>)
      requires Valid() && HasContract(prog, callee)
      modifies this`decoratorSlots
      ensures Valid() && Provenances() == old(Provenances())
      ensures sanitized == Neutralized(prog, callee)
    {
      hide Sound, Neutralized, HasContract, SlotsOfDecorator, SlotsOfDecorators, SlotsCached;
      CacheMeans(prog, decoratorSlots);
      if callee in decoratorSlots {
        return decoratorSlots[callee];
      }
      sanitized := {};
      var params, decos := ContractOf(prog, callee).params, FactsOf(prog, callee).decos;
      NoDecorators(prog, callee.mod, params);
      if params != [] {
        for i := 0 to |decos|
          invariant sanitized == SlotsOfDecorators(prog, callee.mod, decos[..i], params)
          invariant Valid() && unchanged(this)
        {
          assert decos[..i + 1] == decos[..i] + [decos[i]];
          OneMoreDecorator(prog, callee.mod, decos[..i], decos[i], params);
          sanitized := sanitized + SlotsOfDecorator(prog, callee.mod, decos[i], params);
        }
        assert decos[..|decos|] == decos;
      }
      NeutralizedMeans(prog, callee);
      CacheGrows(prog, decoratorSlots, callee);
      decoratorSlots := decoratorSlots[callee := sanitized];
    }

    /** The contract object of a function of the program. */
    ghost predicate Owns(summary: FunctionSummary) {
      summary.id in contracts && contracts[summary.id] == summary
    }

    /** `summary.param_sinks.append(...)`: one contract's list grows, the others keep theirs. */
    method AppendEdge(summary: FunctionSummary, edge: Edge)
      requires Linked() && Owns(summary)
      modifies summary
      ensures Table() == WithEdge(old(Table()), summary.id, edge)
    {
      hide HasContract, ContractOf;
      summary.paramSinks := summary.paramSinks + [edge];
    }

    /** Files the origin, the route and the chain of one lifted edge; the contracts stay. */
    method RecordProvenance(lifted: RouteKey, source: string, route: seq<Hop>, ghost path: seq<Slot>)
      requires Linked()
      modifies this`sinkOrigins, this`sinkRoute, this`chain
      ensures Table() == old(Table()) && sinkOrigins == old(sinkOrigins)[lifted := source]
      ensures sinkRoute == old(sinkRoute)[lifted := route] && chain == old(chain)[lifted := path]
    {
      sinkOrigins, sinkRoute := sinkOrigins[lifted := source], sinkRoute[lifted := route];
      chain := chain[lifted := path];
    }

    /** Appends one lifted edge and records where it came from. */
    method RecordLift(summary: FunctionSummary, param: nat, line: int, callee: FuncId, edge: Edge)
      requires Valid() && Owns(summary)
      requires CanLift(prog, Provenances(), Slot(summary.id, param), line, callee, edge)
      modifies this`sinkOrigins, this`sinkRoute, this`chain, summary
      ensures Valid()
      ensures Provenances() == Lifted(prog, old(Provenances()), Slot(summary.id, param), line, callee, edge)
    {
      hide Sound, CanLift, NameOf, Neutralized, RouteKeyOf, HasContract, Lifted, LiftedEdge, WithEdge, ContractOf,
           SlotsCached, PathOf;
      var f := summary.id;
      ghost var before := Provenances();
      LiftKeepsSound(prog, before, Slot(f, param), line, callee, edge);
      CanLiftMeans(prog, before, Slot(f, param), line, callee, edge);
      var origin, lifted := RouteKeyOf(callee, edge), RouteKey(f, param, edge.sink, edge.line);
      var source := if origin in sinkOrigins then sinkOrigins[origin] else contracts[callee].contract.filePath;
      var route := if origin in sinkRoute then sinkRoute[origin] else [];
      var hop := Hop(summary.contract.filePath, line, NameOf(f));
      LiftedMeans(prog, before, Slot(f, param), line, callee, edge);
      AppendEdge(summary, LiftedEdge(prog, Slot(f, param), edge));
      RecordProvenance(lifted, source, [hop] + route, [Slot(f, param)] + PathOf(before, origin));
      assert Provenances() == Lifted(prog, before, Slot(f, param), line, callee, edge);
    }

    /** The innermost loop of `_lift_callee_sinks`: every sink of callee parameter `q` becomes a
        sink of the caller's parameter.  For a self-recursive call the list being read is the
        list being extended. */
    method LiftArgument(summary: FunctionSummary, param: nat, line: int, callee: FuncId, q: nat, known0: set<SinkKey>)
      returns (known: set<SinkKey>, added: bool)
      requires Valid() && Owns(summary) && HasContract(prog, callee)
      requires Forwards(prog, Slot(summary.id, param), line, Slot(callee, q))
      requires param < |summary.contract.params|
      requires known0 == Keys(Table()[summary.id])
      modifies this`sinkOrigins, this`sinkRoute, this`chain, summary
      ensures Valid() && Grows(old(Provenances()), Provenances(), added)
      ensures known == Keys(Table()[summary.id])
      ensures Carried(Table(), Slot(summary.id, param), Slot(callee, q))
    {
      hide Sound, SlotsCached, Forwards, Keys, Grows, CanLift, Lifted, HasContract, Missing;
      known, added := known0, false;
      GrowsNot(Provenances());
      ghost var start := Provenances();
      var i := 0;
      while i < |contracts[callee].paramSinks|
        invariant i <= |Table()[callee]|
        invariant Valid() && Grows(start, Provenances(), added)
        invariant known == Keys(Table()[summary.id])
        invariant forall j | 0 <= j < i && Table()[callee][j].param == q ::
          SinkKey(param, Table()[callee][j].cwe, Table()[callee][j].sink, Table()[callee][j].line) in known
        decreases Missing(prog, Table()), |Table()[callee]| - i
      {
        var edge := contracts[callee].paramSinks[i];
        i := i + 1;
        if edge.param != q {
          continue;
        }
        var key := SinkKey(param, edge.cwe, edge.sink, edge.line);
        if key in known {
          continue;
        }
        known := known + {key};
        ghost var before := Provenances();
        assert edge in before.table[callee];
        MayLift(prog, before, Slot(summary.id, param), line, callee, edge);
        LiftEffect(prog, before, Slot(summary.id, param), line, callee, edge);
        RecordLift(summary, param, line, callee, edge);
        GrowsTransitive(start, before, Provenances(), added, true);
        added := true;
      }
      CarriedMeans(Table(), Slot(summary.id, param), Slot(callee, q));
    }

    /** The bound arguments of one call site, in parameter order. */
    method LiftSite(summary: FunctionSummary, site: CallSite, known0: set<SinkKey>)
      returns (known: set<SinkKey>, added: bool)
      requires Valid() && Owns(summary) && site in FactsOf(prog, summary.id).calls
      requires known0 == Keys(Table()[summary.id])
      modifies this`sinkOrigins, this`sinkRoute, this`chain, this`decoratorSlots, summary
      ensures Valid() && Grows(old(Provenances()), Provenances(), added)
      ensures known == Keys(Table()[summary.id])
      ensures !added ==> SiteClosed(prog, Table(), summary.id, site.shape)
    {
      hide Sound, SlotsCached, Forwards, Keys, Grows, Carried, ForwardsAt, ForwardedParam, SiteContract, SiteReceivers,
           SiteOffset, Neutralized, BindSite, SiteClosed;
      known, added := known0, false;
      ghost var start := Provenances();
      GrowsNot(start);
      var f := summary.id;
      var receivers := SiteReceivers(prog, f);
      var resolved := SiteContract(prog, f.mod, site.shape, receivers);
      SiteContractExists(prog, f.mod, site.shape, receivers);
      if resolved == None {
        UnresolvedIsClosed(prog, Table(), f, site.shape);
        return;
      }
      var callee := resolved.value;
      if contracts[callee].paramSinks == [] {
        SinklessIsClosed(prog, Table(), f, site.shape, callee);
        return;
      }
      var neutralized := DecoratorSanitizedParams(callee);
      var params := contracts[callee].contract.params;
      var bound := BindSite(site.shape, params, SiteOffset(prog, f.mod, site.shape, callee, receivers));
      for q := 0 to |params|
        invariant Valid() && Grows(start, Provenances(), added)
        invariant known == Keys(Table()[f])
        invariant !added ==> forall r: nat | r < q :: SlotClosed(prog, Table(), f, site.shape, callee, r)
      {
        ghost var before := Provenances();
        ForwardedMeans(prog, f, site.shape, callee, q);
        if q !in bound || q in neutralized || bound[q] == None {
          NotForwarded(prog, Table(), f, site.shape, callee, q);
          continue;
        }
        var param := ParamIndex(summary.contract.params, bound[q].value);
        if param == None {
          NotForwarded(prog, Table(), f, site.shape, callee, q);
          continue;
        }
        SiteForwards(prog, f, site, callee, q, param.value);
        var lifted;
        known, lifted := LiftArgument(summary, param.value, site.line, callee, q, known);
        GrowsTransitive(start, before, Provenances(), added, lifted);
        GrowsNotMeans(before, Provenances(), lifted);
        CarriedClosesSlot(prog, Table(), f, site.shape, callee, q, param.value);
        added := added || lifted;
      }
      if !added {
        SlotsCloseSite(prog, Table(), f, site.shape, callee);
      }
    }

    /** `_lift_callee_sinks`: one pass over the calls of one function. */
    method LiftCalleeSinks(summary: FunctionSummary) returns (added: bool)
      requires Valid() && Owns(summary)
      modifies this`sinkOrigins, this`sinkRoute, this`chain, this`decoratorSlots, summary
      ensures Valid() && Grows(old(Provenances()), Provenances(), added)
      ensures !added ==> FunctionClosed(prog, Table(), summary.id)
    {
      hide Sound, SlotsCached, Keys, Grows, SiteClosed;
      added := false;
      ghost var start := Provenances();
      GrowsNot(start);
      var known := Keys(summary.paramSinks);
      var calls := FactsOf(prog, summary.id).calls;
      for c := 0 to |calls|
        invariant Valid() && Grows(start, Provenances(), added)
        invariant known == Keys(Table()[summary.id])
        invariant !added ==> forall d | 0 <= d < c :: SiteClosed(prog, Table(), summary.id, calls[d].shape)
      {
        ghost var before := Provenances();
        var lifted;
        known, lifted := LiftSite(summary, calls[c], known);
        GrowsTransitive(start, before, Provenances(), added, lifted);
        GrowsNotMeans(before, Provenances(), lifted);
        added := added || lifted;
      }
    }

    /** `_propagate_transitive_sink_contracts`: on any call graph the rounds end, and then every
        function holds exactly the sinks that a chain of forwardings reaches. */
    method PropagateTransitiveSinkContracts()
      requires Valid()
      modifies this`sinkOrigins, this`sinkRoute, this`chain, this`decoratorSlots, this`propagationRounds,
          contracts.Values
      ensures Valid() && Closed(prog, Table())
      ensures forall s, sink, line :: HasKey(Table(), s, sink, line) <==> Reaches(prog, s, sink, line)
      ensures propagationRounds > old(propagationRounds)
    {
      hide Sound, SlotsCached, Grows, FunctionClosed, HasKey, Reaches, Closed, Missing;
      while true
        invariant Valid() && propagationRounds >= old(propagationRounds)
        decreases Missing(prog, Table())
      {
        propagationRounds := propagationRounds + 1;
        var changed := false;
        ghost var start := Provenances();
        GrowsNot(start);
        for i := 0 to |order|
          invariant Valid() && Grows(start, Provenances(), changed)
          invariant propagationRounds > old(propagationRounds)
          invariant !changed ==> forall j | 0 <= j < i :: FunctionClosed(prog, Table(), order[j])
        {
          assert order[i] in order;
          var summary := contracts[order[i]];
          if summary.contract.params == [] {
            NoParamsIsClosed(prog, Table(), order[i]);
            continue;
          }
          ghost var before := Provenances();
          var lifted := LiftCalleeSinks(summary);
          GrowsTransitive(start, before, Provenances(), changed, lifted);
          GrowsNotMeans(before, Provenances(), lifted);
          changed := changed || lifted;
        }
        if !changed {
          AllFunctionsClosed(prog, Table());
          LeastFixedPoint(prog, Provenances());
          return;
        }
        GrowthShrinksMissing(prog, start, Provenances());
      }
    }
  }

  lemma CacheMeans(prog: Program, slots: map<FuncId, set<nat>>)
    requires SlotsCached(prog, slots)
    ensures forall f | f in slots :: HasContract(prog, f) && slots[f] == Neutralized(prog, f)
  {
  }

  lemma CacheGrows(prog: Program, slots: map<FuncId, set<nat>>, callee: FuncId)
    requires SlotsCached(prog, slots) && HasContract(prog, callee)
    ensures SlotsCached(prog, slots[callee := Neutralized(prog, callee)])
  {
  }

  lemma NoDecorators(prog: Program, mod: string, params: seq<string>)
    ensures SlotsOfDecorators(prog, mod, [], params) == {}
  {
  }

  lemma OneMoreDecorator(prog: Program, mod: string, decos: seq<DecoFacts>, deco: DecoFacts, params: seq<string>)
    ensures SlotsOfDecorators(prog, mod, decos + [deco], params)
         == SlotsOfDecorators(prog, mod, decos, params) + SlotsOfDecorator(prog, mod, deco, params)
  {
    assert (decos + [deco])[..|decos|] == decos;
  }

  lemma NeutralizedMeans(prog: Program, id: FuncId)
    requires HasContract(prog, id)
    ensures Neutralized(prog, id)
         == if ContractOf(prog, id).params == [] then {}
            else SlotsOfDecorators(prog, id.mod, FactsOf(prog, id).decos, ContractOf(prog, id).params)
  {
  }

  lemma CanLiftMeans(prog: Program, st: State, a: Slot, line: int, b: FuncId, e: Edge)
    requires CanLift(prog, st, a, line, b, e)
    ensures HasContract(prog, a.f) && HasContract(prog, b) && a.f in st.table
    ensures a.param < |ContractOf(prog, a.f).params|
  {
  }

  lemma LiftedMeans(prog: Program, st: State, a: Slot, line: int, b: FuncId, e: Edge)
    requires HasContract(prog, a.f) && HasContract(prog, b)
    requires a.f in st.table && a.param < |ContractOf(prog, a.f).params|
    ensures
      var from, to := RouteKeyOf(b, e), RouteKey(a.f, a.param, e.sink, e.line);
      Lifted(prog, st, a, line, b, e)
      == State(WithEdge(st.table, a.f, LiftedEdge(prog, a, e)),
               st.origins[to := if from in st.origins then st.origins[from] else ContractOf(prog, b).filePath],
               st.route[to := [Hop(ContractOf(prog, a.f).filePath, line, NameOf(a.f))]
                              + if from in st.route then st.route[from] else []],
               st.chain[to := [a] + PathOf(st, from)])
  {
  }

  lemma GrowsNot(st: State)
    ensures Grows(st, st, false)
  {
  }

  lemma GrowsNotMeans(before: State, after: State, added: bool)
    requires Grows(before, after, added)
    ensures !added ==> after == before
  {
  }

  lemma MayLift(prog: Program, st: State, a: Slot, line: int, b: FuncId, e: Edge)
    requires Sound(prog, st) && HasContract(prog, a.f) && HasContract(prog, b)
    requires b in st.table && a.f in st.table && e in st.table[b]
    requires Forwards(prog, a, line, Slot(b, e.param)) && a.param < |ContractOf(prog, a.f).params|
    requires SinkKey(a.param, e.cwe, e.sink, e.line) !in Keys(st.table[a.f])
    ensures CanLift(prog, st, a, line, b, e)
  {
  }

  lemma CarriedMeans(table: map<FuncId, seq<Edge>>, a: Slot, b: Slot)
    requires a.f in table && b.f in table
    requires forall j | 0 <= j < |table[b.f]| && table[b.f][j].param == b.param ::
      SinkKey(a.param, table[b.f][j].cwe, table[b.f][j].sink, table[b.f][j].line) in Keys(table[a.f])
    ensures Carried(table, a, b)
  {
  }

  /** What one parameter of the resolved callee contributes to a site. */
  ghost predicate SlotClosed(prog: Program, table: map<FuncId, seq<Edge>>, f: FuncId, site: CallShape,
                             callee: FuncId, q: nat) {
    && HasContract(prog, f)
    && forall p: nat | ForwardsAt(prog, Slot(f, p), site, Slot(callee, q)) ::
        Carried(table, Slot(f, p), Slot(callee, q))
  }

  lemma UnresolvedIsClosed(prog: Program, table: map<FuncId, seq<Edge>>, f: FuncId, site: CallShape)
    requires HasContract(prog, f) && SiteContract(prog, f.mod, site, SiteReceivers(prog, f)) == None
    ensures SiteClosed(prog, table, f, site)
  {
  }

  lemma SinklessIsClosed(prog: Program, table: map<FuncId, seq<Edge>>, f: FuncId, site: CallShape, callee: FuncId)
    requires HasContract(prog, f) && SiteContract(prog, f.mod, site, SiteReceivers(prog, f)) == Some(callee)
    requires f in table && callee in table && table[callee] == []
    ensures SiteClosed(prog, table, f, site)
  {
  }

  lemma ForwardedMeans(prog: Program, f: FuncId, site: CallShape, callee: FuncId, q: nat)
    requires HasContract(prog, f) && HasContract(prog, callee)
    ensures
      var bound := BindSite(site, ContractOf(prog, callee).params,
                            SiteOffset(prog, f.mod, site, callee, SiteReceivers(prog, f)));
      ForwardedParam(prog, f, site, callee, q)
      == if q in bound && bound[q].Some? then ParamIndex(ContractOf(prog, f).params, bound[q].value) else None
  {
  }

  /** A slot that is unbound, neutralised or not bound to a bare parameter name forwards nothing. */
  lemma NotForwarded(prog: Program, table: map<FuncId, seq<Edge>>, f: FuncId, site: CallShape, callee: FuncId, q: nat)
    requires HasContract(prog, f) && HasContract(prog, callee)
    requires q in Neutralized(prog, callee) || ForwardedParam(prog, f, site, callee, q) == None
    ensures SlotClosed(prog, table, f, site, callee, q)
  {
  }

  lemma SiteForwards(prog: Program, f: FuncId, site: CallSite, callee: FuncId, q: nat, param: nat)
    requires HasContract(prog, f) && HasContract(prog, callee) && site in FactsOf(prog, f).calls
    requires SiteContract(prog, f.mod, site.shape, SiteReceivers(prog, f)) == Some(callee)
    requires q !in Neutralized(prog, callee) && ForwardedParam(prog, f, site.shape, callee, q) == Some(param)
    ensures Forwards(prog, Slot(f, param), site.line, Slot(callee, q))
  {
  }

  lemma CarriedClosesSlot(prog: Program, table: map<FuncId, seq<Edge>>, f: FuncId, site: CallShape,
                          callee: FuncId, q: nat, param: nat)
    requires HasContract(prog, f) && HasContract(prog, callee)
    requires ForwardedParam(prog, f, site, callee, q) == Some(param)
    requires Carried(table, Slot(f, param), Slot(callee, q))
    ensures SlotClosed(prog, table, f, site, callee, q)
  {
    hide Carried;
  }

  lemma SlotsCloseSite(prog: Program, table: map<FuncId, seq<Edge>>, f: FuncId, site: CallShape, callee: FuncId)
    requires HasContract(prog, f) && HasContract(prog, callee)
    requires SiteContract(prog, f.mod, site, SiteReceivers(prog, f)) == Some(callee)
    requires forall q: nat | q < |ContractOf(prog, callee).params| :: SlotClosed(prog, table, f, site, callee, q)
    ensures SiteClosed(prog, table, f, site)
  {
    hide Carried;
    forall p: nat, b | ForwardsAt(prog, Slot(f, p), site, b)
      ensures Carried(table, Slot(f, p), b)
    {
      assert b == Slot(callee, b.param);
      assert b.param < |ContractOf(prog, callee).params|;
      assert SlotClosed(prog, table, f, site, callee, b.param);
    }
  }

  lemma NoParamsIsClosed(prog: Program, table: map<FuncId, seq<Edge>>, f: FuncId)
    requires HasContract(prog, f) && ContractOf(prog, f).params == []
    ensures FunctionClosed(prog, table, f)
  {
    hide Carried, Neutralized, SiteContract;
  }
}
