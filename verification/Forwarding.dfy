/** Which sink obligations a function inherits by forwarding its parameters: the specification the
    propagation loop computes, as a least fixed point with a provenance route for every edge. */
module Forwarding {
  import opened Options
  import opened SymbolIndex
  import opened Facts
  import opened Resolution
  import opened Calls

  /** A parameter of a function. */
  datatype Slot = Slot(f: FuncId, param: nat)

  /** The key under which an edge is known. */
  datatype SinkKey = SinkKey(param: nat, cwe: string, sink: string, line: int)

  /** The key of the two provenance tables. */
  datatype RouteKey = RouteKey(f: FuncId, param: nat, sink: string, line: int)

  datatype Hop = Hop(file: string, line: int, name: string)

  /** The sink edges of every contract, and where each lifted edge came from; `chain` is the
      sequence of parameters behind a lifted edge. */
  datatype State = State(
    table: map<FuncId, seq<Edge>>,
    origins: map<RouteKey, string>,
    route: map<RouteKey, seq<Hop>>,
    chain: map<RouteKey, seq<Slot>>)

  // ---------------------------------------------------------------- decorators

  /** The slots a decorator's wrapper rebuilds through a sanitizer before calling through. */
  function WrapperSlots(shape: WrapperShape, params: seq<string>, sanitizers: set<string>): set<nat> {
    if !shape.ok || |shape.wparams| != |params| || shape.flen != |params| then {}
    else set i: nat | i < |shape.fargs| && i < |shape.wparams|
                      && shape.fargs[i].used <= {shape.wparams[i]}
                      && shape.fargs[i].isCall && shape.fargs[i].tail in sanitizers
  }

  function SlotsOfDecorator(prog: Program, mod: string, deco: DecoFacts, params: seq<string>): set<nat> {
    if deco.bare == None then {} else
      var def := ResolveSymbol(prog.index, mod, deco.bare.value);
      if def == None || !(def.value.kind == PlainFunction || def.value.kind == AsyncFunction) then {} else
        var decoMod := FileModule(prog.index, def.value.filePath);
        if decoMod == None || !HasContract(prog, FuncId(decoMod.value, def.value.name)) then {} else
          var wrapper := FactsOf(prog, FuncId(decoMod.value, def.value.name)).wrapper;
          if wrapper == None then {} else WrapperSlots(wrapper.value, params, prog.knownSanitizers)
  }

  function SlotsOfDecorators(prog: Program, mod: string, decos: seq<DecoFacts>, params: seq<string>): set<nat> {
    if decos == [] then {}
    else SlotsOfDecorators(prog, mod, decos[..|decos| - 1], params)
         + SlotsOfDecorator(prog, mod, decos[|decos| - 1], params)
  }

  /** `_decorator_sanitized_params` */
  function Neutralized(prog: Program, id: FuncId): set<nat>
    requires HasContract(prog, id)
  {
    if ContractOf(prog, id).params == [] then {}
    else SlotsOfDecorators(prog, id.mod, FactsOf(prog, id).decos, ContractOf(prog, id).params)
  }

  // ---------------------------------------------------------------- forwarding

  function SiteReceivers(prog: Program, f: FuncId): ReceiverMap
    requires HasContract(prog, f)
  {
    FactReceivers(prog, f.mod, f.qual, FactsOf(prog, f).recv)
  }

  /** The parameter of `f` that a call site hands over, as a bare name, to parameter `q` of the
      resolved callee. */
  function ForwardedParam(prog: Program, f: FuncId, site: CallShape, callee: FuncId, q: nat): Option<nat>
    requires HasContract(prog, f) && HasContract(prog, callee)
  {
    var bound := BindSite(site, ContractOf(prog, callee).params,
                          SiteOffset(prog, f.mod, site, callee, SiteReceivers(prog, f)));
    if q in bound && bound[q].Some? then ParamIndex(ContractOf(prog, f).params, bound[q].value) else None
  }

  /** Parameter `a` of the caller goes straight into parameter `b` of the callee at this site, and
      no decorator of the callee neutralises it. */
  predicate ForwardsAt(prog: Program, a: Slot, site: CallShape, b: Slot)
    requires HasContract(prog, a.f)
  {
    && SiteContract(prog, a.f.mod, site, SiteReceivers(prog, a.f)) == Some(b.f)
    && HasContract(prog, b.f)
    && b.param !in Neutralized(prog, b.f)
    && ForwardedParam(prog, a.f, site, b.f, b.param) == Some(a.param)
  }

  ghost predicate Forwards(prog: Program, a: Slot, line: int, b: Slot) {
    && HasContract(prog, a.f)
    && exists site | site in FactsOf(prog, a.f).calls :: site.line == line && ForwardsAt(prog, a, site.shape, b)
  }

  ghost predicate OwnsSink(prog: Program, s: Slot, sink: string, line: int) {
    && HasContract(prog, s.f)
    && exists e | e in ContractOf(prog, s.f).ownSinks :: e.param == s.param && e.sink == sink && e.line == line
  }

  /** Each parameter of `path` is forwarded to the next, at the given call lines, and the last one
      reaches the sink in its own function's body. */
  ghost predicate ForwardingChain(prog: Program, path: seq<Slot>, lines: seq<int>, sink: string, line: int) {
    && |path| == |lines| + 1
    && (forall i | 0 <= i < |lines| :: Forwards(prog, path[i], lines[i], path[i + 1]))
    && OwnsSink(prog, path[|lines|], sink, line)
  }

  ghost predicate Reaches(prog: Program, s: Slot, sink: string, line: int) {
    exists path: seq<Slot>, lines: seq<int> ::
      |path| > 0 && path[0] == s && ForwardingChain(prog, path, lines, sink, line)
  }

  // ---------------------------------------------------------------- well-formed programs

  predicate EdgeOk(prog: Program, contract: Contract, e: Edge) {
    && e.param < |contract.params| && e.paramName == contract.params[e.param]
    && e.sink in prog.knownSinks && e.cwe == prog.knownSinks[e.sink]
  }

  /** What the summariser guarantees of the sinks it finds in a function's own body. */
  ghost predicate WellFormed(prog: Program) {
    forall id | HasContract(prog, id) ::
      forall e | e in ContractOf(prog, id).ownSinks :: EdgeOk(prog, ContractOf(prog, id), e)
  }

  // ---------------------------------------------------------------- states

  function KeyOf(e: Edge): SinkKey {
    SinkKey(e.param, e.cwe, e.sink, e.line)
  }

  function Keys(edges: seq<Edge>): set<SinkKey> {
    set e | e in edges :: KeyOf(e)
  }

  function RouteKeyOf(id: FuncId, e: Edge): RouteKey {
    RouteKey(id, e.param, e.sink, e.line)
  }

  ghost predicate HasKey(table: map<FuncId, seq<Edge>>, s: Slot, sink: string, line: int) {
    && s.f in table
    && exists e | e in table[s.f] :: e.param == s.param && e.sink == sink && e.line == line
  }

  function RouteOf(st: State, k: RouteKey): seq<Hop> {
    if k in st.route then st.route[k] else []
  }

  function OriginOf(prog: Program, st: State, k: RouteKey): string
    requires HasContract(prog, k.f)
  {
    if k in st.origins then st.origins[k] else ContractOf(prog, k.f).filePath
  }

  function PathOf(st: State, k: RouteKey): seq<Slot> {
    if k in st.chain then st.chain[k] else [Slot(k.f, k.param)]
  }

  function Lines(route: seq<Hop>): (lines: seq<int>)
    ensures |lines| == |route|
    ensures forall i | 0 <= i < |route| :: lines[i] == route[i].line
  {
    seq(|route|, i requires 0 <= i < |route| => route[i].line)
  }

  function NameOf(id: FuncId): string {
    id.mod + "." + id.qual
  }

  ghost predicate Distinct(path: seq<Slot>) {
    forall i, j | 0 <= i < j < |path| :: path[i] != path[j]
  }

  /** The route is a chain of forwarding call sites, outermost first, from the key's parameter to
      a function that owns the sink in the origin file; no parameter occurs twice on it. */
  ghost predicate Genuine(prog: Program, k: RouteKey, route: seq<Hop>, origin: string, path: seq<Slot>) {
    && |path| == |route| + 1 && path[0] == Slot(k.f, k.param) && Distinct(path)
    && ForwardingChain(prog, path, Lines(route), k.sink, k.line)
    && (forall i | 0 <= i < |route| ::
          HasContract(prog, path[i].f)
          && route[i].file == ContractOf(prog, path[i].f).filePath && route[i].name == NameOf(path[i].f))
    && origin == ContractOf(prog, path[|route|].f).filePath
  }

  ghost predicate EdgeSound(prog: Program, st: State, id: FuncId, e: Edge)
    requires HasContract(prog, id)
  {
    var k := RouteKeyOf(id, e);
    && EdgeOk(prog, ContractOf(prog, id), e)
    && Genuine(prog, k, RouteOf(st, k), OriginOf(prog, st, k), PathOf(st, k))
    && forall s | s in PathOf(st, k) :: HasKey(st.table, s, e.sink, e.line)
  }

  ghost predicate Provenance(st: State) {
    && st.route.Keys == st.origins.Keys == st.chain.Keys
    && forall k | k in st.route :: HasKey(st.table, Slot(k.f, k.param), k.sink, k.line)
  }

  /** Own edges come first; after them, no edge repeats the key of an earlier one. */
  ghost predicate RowSound(prog: Program, id: FuncId, row: seq<Edge>)
    requires HasContract(prog, id)
  {
    var own := ContractOf(prog, id).ownSinks;
    && own <= row
    && forall i | |own| <= i < |row| :: KeyOf(row[i]) !in Keys(row[..i])
  }

  /** Every row of the table is sound, and the table has exactly the contracts. */
  ghost predicate RowsSound(prog: Program, table: map<FuncId, seq<Edge>>) {
    && (forall id :: id in table <==> HasContract(prog, id))
    && (forall id | id in table :: RowSound(prog, id, table[id]))
  }

  /** What holds at every round of the propagation. */
  ghost predicate Sound(prog: Program, st: State) {
    && WellFormed(prog)
    && RowsSound(prog, st.table)
    && (forall id, e | id in st.table && e in st.table[id] :: HasContract(prog, id) && EdgeSound(prog, st, id, e))
    && Provenance(st)
  }

  // ---------------------------------------------------------------- one lift

  function LiftedEdge(prog: Program, a: Slot, e: Edge): Edge
    requires HasContract(prog, a.f) && a.param < |ContractOf(prog, a.f).params|
  {
    Edge(a.param, ContractOf(prog, a.f).params[a.param], e.cwe, e.sink, e.line)
  }

  function WithEdge(table: map<FuncId, seq<Edge>>, id: FuncId, edge: Edge): map<FuncId, seq<Edge>>
    requires id in table
  {
    table[id := table[id] + [edge]]
  }

  /** The edge, origin and route that one lift records. */
  function Lifted(prog: Program, st: State, a: Slot, line: int, b: FuncId, e: Edge): State
    requires HasContract(prog, a.f) && HasContract(prog, b)
    requires a.f in st.table && a.param < |ContractOf(prog, a.f).params|
  {
    var from, to := RouteKeyOf(b, e), RouteKey(a.f, a.param, e.sink, e.line);
    State(WithEdge(st.table, a.f, LiftedEdge(prog, a, e)),
          st.origins[to := OriginOf(prog, st, from)],
          st.route[to := [Hop(ContractOf(prog, a.f).filePath, line, NameOf(a.f))] + RouteOf(st, from)],
          st.chain[to := [a] + PathOf(st, from)])
  }

  ghost predicate CanLift(prog: Program, st: State, a: Slot, line: int, b: FuncId, e: Edge) {
    && Sound(prog, st) && HasContract(prog, a.f) && HasContract(prog, b) && a.f in st.table && b in st.table
    && e in st.table[b] && Forwards(prog, a, line, Slot(b, e.param))
    && a.param < |ContractOf(prog, a.f).params|
    && SinkKey(a.param, e.cwe, e.sink, e.line) !in Keys(st.table[a.f])
  }

  lemma CweFollowsSink(prog: Program, st: State, id: FuncId, e: Edge)
    requires Sound(prog, st) && id in st.table && e in st.table[id]
    ensures e.sink in prog.knownSinks && e.cwe == prog.knownSinks[e.sink]
  {
    assert EdgeSound(prog, st, id, e);
  }

  lemma HeldKeyIsKnown(prog: Program, st: State, s: Slot, sink: string, line: int)
    requires Sound(prog, st) && HasKey(st.table, s, sink, line)
    ensures sink in prog.knownSinks && SinkKey(s.param, prog.knownSinks[sink], sink, line) in Keys(st.table[s.f])
  {
    var known :| known in st.table[s.f] && known.param == s.param && known.sink == sink && known.line == line;
    CweFollowsSink(prog, st, s.f, known);
    hide *;
    assert KeyOf(known) == SinkKey(s.param, prog.knownSinks[sink], sink, line) by { KeyParts(known); }
    KeyInKeys(st.table[s.f], known);
  }

  lemma KeyParts(e: Edge)
    ensures KeyOf(e) == SinkKey(e.param, e.cwe, e.sink, e.line)
  {
  }

  lemma KeyInKeys(row: seq<Edge>, e: Edge)
    requires e in row
    ensures KeyOf(e) in Keys(row)
  {
  }

  /** The lifted key is new to the provenance tables, too. */
  lemma LiftedKeyIsNew(prog: Program, st: State, a: Slot, line: int, b: FuncId, e: Edge)
    requires CanLift(prog, st, a, line, b, e)
    ensures !HasKey(st.table, a, e.sink, e.line)
    ensures RouteKey(a.f, a.param, e.sink, e.line) !in st.route
  {
    CweFollowsSink(prog, st, b, e);
    var k := RouteKey(a.f, a.param, e.sink, e.line);
    assert k in st.route ==> HasKey(st.table, Slot(k.f, k.param), k.sink, k.line);
    hide HasKey, Keys, Sound;
    if HasKey(st.table, a, e.sink, e.line) {
      HeldKeyIsKnown(prog, st, a, e.sink, e.line);
    }
  }

  lemma PrependSlot(prog: Program, a: Slot, line: int, tail: seq<Slot>, lines: seq<int>, sink: string, l: int)
    requires |tail| > 0 && ForwardingChain(prog, tail, lines, sink, l) && Distinct(tail)
    requires Forwards(prog, a, line, tail[0]) && a !in tail
    ensures ForwardingChain(prog, [a] + tail, [line] + lines, sink, l) && Distinct([a] + tail)
  {
    hide Forwards, OwnsSink;
    var path, all := [a] + tail, [line] + lines;
    assert forall i | 1 <= i < |path| :: path[i] == tail[i - 1] && path[i] in tail;
    forall i | 0 <= i < |all|
      ensures Forwards(prog, path[i], all[i], path[i + 1])
    {
      if i > 0 { assert Forwards(prog, tail[i - 1], lines[i - 1], tail[i]); }
    }
  }

  lemma LiftExtendsRoute(prog: Program, st: State, a: Slot, line: int, b: FuncId, e: Edge)
    requires CanLift(prog, st, a, line, b, e)
    ensures
      var from := RouteKeyOf(b, e);
      var hop := Hop(ContractOf(prog, a.f).filePath, line, NameOf(a.f));
      Genuine(prog, RouteKey(a.f, a.param, e.sink, e.line), [hop] + RouteOf(st, from),
              OriginOf(prog, st, from), [a] + PathOf(st, from))
  {
    var from := RouteKeyOf(b, e);
    assert EdgeSound(prog, st, b, e);
    LiftedKeyIsNew(prog, st, a, line, b, e);
    ExtendRoute(prog, a, line, from, RouteOf(st, from), OriginOf(prog, st, from), PathOf(st, from));
  }

  lemma ExtendRoute(prog: Program, a: Slot, line: int, from: RouteKey,
                    hops: seq<Hop>, origin: string, tail: seq<Slot>)
    requires Genuine(prog, from, hops, origin, tail) && a !in tail
    requires HasContract(prog, a.f) && Forwards(prog, a, line, Slot(from.f, from.param))
    ensures
      var hop := Hop(ContractOf(prog, a.f).filePath, line, NameOf(a.f));
      Genuine(prog, RouteKey(a.f, a.param, from.sink, from.line), [hop] + hops, origin, [a] + tail)
  {
    hide Forwards, ForwardingChain, Distinct, HasContract, ContractOf;
    var hop := Hop(ContractOf(prog, a.f).filePath, line, NameOf(a.f));
    var path, route := [a] + tail, [hop] + hops;
    PrependSlot(prog, a, line, tail, Lines(hops), from.sink, from.line);
    assert Lines(route) == [line] + Lines(hops);
    forall i | 0 <= i < |route|
      ensures HasContract(prog, path[i].f)
      ensures route[i].file == ContractOf(prog, path[i].f).filePath && route[i].name == NameOf(path[i].f)
    {
      if i > 0 { assert path[i] == tail[i - 1] && route[i] == hops[i - 1]; }
    }
    assert path[|route|] == tail[|hops|];
  }

  lemma HasKeyGrows(table: map<FuncId, seq<Edge>>, id: FuncId, edge: Edge, s: Slot, sink: string, line: int)
    requires id in table
    ensures HasKey(table, s, sink, line) ==> HasKey(WithEdge(table, id, edge), s, sink, line)
    ensures HasKey(WithEdge(table, id, edge), Slot(id, edge.param), edge.sink, edge.line)
  {
    var row := table[id] + [edge];
    assert row[|table[id]|] in row;
    assert forall x | x in table[id] :: x in row;
  }

  /** An edge whose route key is not the lifted one keeps its route, origin and chain. */
  lemma OtherEdgeUnchanged(prog: Program, st: State, a: Slot, line: int, b: FuncId, e: Edge, id: FuncId, x: Edge)
    requires HasContract(prog, a.f) && HasContract(prog, b) && HasContract(prog, id)
    requires a.f in st.table && a.param < |ContractOf(prog, a.f).params|
    requires EdgeSound(prog, st, id, x) && RouteKeyOf(id, x) != RouteKey(a.f, a.param, e.sink, e.line)
    ensures EdgeSound(prog, Lifted(prog, st, a, line, b, e), id, x)
  {
    hide Genuine, HasContract, ContractOf, EdgeOk, LiftedEdge, WithEdge, HasKey, NameOf;
    var st', k := Lifted(prog, st, a, line, b, e), RouteKeyOf(id, x);
    assert PathOf(st', k) == PathOf(st, k);
    forall s | s in PathOf(st', k)
      ensures HasKey(st'.table, s, x.sink, x.line)
    {
      HasKeyGrows(st.table, a.f, LiftedEdge(prog, a, e), s, x.sink, x.line);
    }
  }

  lemma LiftedEdgeIsSound(prog: Program, st: State, a: Slot, line: int, b: FuncId, e: Edge)
    requires HasContract(prog, a.f) && HasContract(prog, b)
    requires a.f in st.table && a.param < |ContractOf(prog, a.f).params|
    requires EdgeSound(prog, st, b, e)
    requires
      var from := RouteKeyOf(b, e);
      var hop := Hop(ContractOf(prog, a.f).filePath, line, NameOf(a.f));
      Genuine(prog, RouteKey(a.f, a.param, e.sink, e.line), [hop] + RouteOf(st, from),
              OriginOf(prog, st, from), [a] + PathOf(st, from))
    ensures EdgeSound(prog, Lifted(prog, st, a, line, b, e), a.f, LiftedEdge(prog, a, e))
  {
    hide Genuine, HasContract, ContractOf, WithEdge, HasKey, NameOf;
    var st', k, from := Lifted(prog, st, a, line, b, e), RouteKey(a.f, a.param, e.sink, e.line), RouteKeyOf(b, e);
    assert PathOf(st', k) == [a] + PathOf(st, from);
    forall s | s in PathOf(st', k)
      ensures HasKey(st'.table, s, e.sink, e.line)
    {
      HasKeyGrows(st.table, a.f, LiftedEdge(prog, a, e), s, e.sink, e.line);
      if s != a { assert s in PathOf(st, from); }
    }
  }

  lemma SoundEdge(prog: Program, st: State, id: FuncId, e: Edge)
    requires Sound(prog, st) && id in st.table && e in st.table[id]
    ensures HasContract(prog, id) && EdgeSound(prog, st, id, e)
    ensures HasKey(st.table, Slot(id, e.param), e.sink, e.line)
  {
  }

  lemma EdgesStaySound(prog: Program, st: State, a: Slot, line: int, b: FuncId, e: Edge, id: FuncId, x: Edge)
    requires CanLift(prog, st, a, line, b, e)
    requires
      var table := WithEdge(st.table, a.f, LiftedEdge(prog, a, e));
      id in table && x in table[id]
    ensures HasContract(prog, id) && EdgeSound(prog, Lifted(prog, st, a, line, b, e), id, x)
  {
    hide EdgeSound, Forwards, Keys, HasContract, Sound, ContractOf, LiftedEdge, HasKey, Lifted;
    LiftedKeyIsNew(prog, st, a, line, b, e);
    if id in st.table && x in st.table[id] {
      SoundEdge(prog, st, id, x);
      OtherEdgeUnchanged(prog, st, a, line, b, e, id, x);
    } else {
      assert id == a.f && x in st.table[a.f] + [LiftedEdge(prog, a, e)];
      SoundEdge(prog, st, b, e);
      LiftExtendsRoute(prog, st, a, line, b, e);
      LiftedEdgeIsSound(prog, st, a, line, b, e);
    }
  }

  lemma RowGrows(prog: Program, id: FuncId, row: seq<Edge>, edge: Edge)
    requires HasContract(prog, id) && RowSound(prog, id, row) && KeyOf(edge) !in Keys(row)
    ensures RowSound(prog, id, row + [edge])
  {
    hide HasContract, ContractOf, Keys, KeyOf;
    var row' := row + [edge];
    assert row'[..|row|] == row;
    forall i | |ContractOf(prog, id).ownSinks| <= i < |row'|
      ensures KeyOf(row'[i]) !in Keys(row'[..i])
    {
      if i < |row| { assert row'[..i] == row[..i] && row'[i] == row[i]; }
    }
  }

  lemma RowsGrow(prog: Program, table: map<FuncId, seq<Edge>>, id: FuncId, edge: Edge)
    requires RowsSound(prog, table) && id in table && KeyOf(edge) !in Keys(table[id])
    ensures RowsSound(prog, WithEdge(table, id, edge))
  {
    hide RowSound, HasContract, Keys, KeyOf;
    RowGrows(prog, id, table[id], edge);
  }

  lemma ProvenanceGrows(prog: Program, st: State, a: Slot, line: int, b: FuncId, e: Edge)
    requires Provenance(st) && HasContract(prog, a.f) && HasContract(prog, b)
    requires a.f in st.table && a.param < |ContractOf(prog, a.f).params|
    ensures Provenance(Lifted(prog, st, a, line, b, e))
  {
    var st', edge := Lifted(prog, st, a, line, b, e), LiftedEdge(prog, a, e);
    var to := RouteKey(a.f, a.param, e.sink, e.line);
    assert st'.route.Keys == st'.origins.Keys == st'.chain.Keys == st.route.Keys + {to};
    forall k | k in st'.route
      ensures HasKey(st'.table, Slot(k.f, k.param), k.sink, k.line)
    {
      HasKeyGrows(st.table, a.f, edge, Slot(k.f, k.param), k.sink, k.line);
    }
  }

  /** A lift keeps everything that holds at every round. */
  lemma LiftKeepsSound(prog: Program, st: State, a: Slot, line: int, b: FuncId, e: Edge)
    requires CanLift(prog, st, a, line, b, e)
    ensures Sound(prog, Lifted(prog, st, a, line, b, e))
  {
    hide EdgeSound, RowsSound, Provenance, WellFormed, Keys, HasContract, ContractOf, Forwards, RouteOf, OriginOf,
         PathOf, NameOf, WithEdge;
    KeyParts(LiftedEdge(prog, a, e));
    RowsGrow(prog, st.table, a.f, LiftedEdge(prog, a, e));
    ProvenanceGrows(prog, st, a, line, b, e);
    var st' := Lifted(prog, st, a, line, b, e);
    forall id, x | id in st'.table && x in st'.table[id]
      ensures HasContract(prog, id) && EdgeSound(prog, st', id, x)
    {
      EdgesStaySound(prog, st, a, line, b, e, id, x);
    }
  }
}
