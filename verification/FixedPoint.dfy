/** The propagated table is the least fixed point of parameter forwarding. */
module FixedPoint {
  import opened Sets
  import opened Facts
  import opened Resolution
  import opened Forwarding

  /** Every sink of parameter `b` is also a sink of parameter `a`. */
  ghost predicate Carried(table: map<FuncId, seq<Edge>>, a: Slot, b: Slot) {
    && a.f in table && b.f in table
    && forall e | e in table[b.f] && e.param == b.param :: SinkKey(a.param, e.cwe, e.sink, e.line) in Keys(table[a.f])
  }

  ghost predicate SiteClosed(prog: Program, table: map<FuncId, seq<Edge>>, f: FuncId, site: CallShape) {
    HasContract(prog, f) && forall p: nat, b | ForwardsAt(prog, Slot(f, p), site, b) :: Carried(table, Slot(f, p), b)
  }

  ghost predicate FunctionClosed(prog: Program, table: map<FuncId, seq<Edge>>, f: FuncId) {
    HasContract(prog, f) && forall site | site in FactsOf(prog, f).calls :: SiteClosed(prog, table, f, site.shape)
  }

  /** No forwarding adds anything. */
  ghost predicate Closed(prog: Program, table: map<FuncId, seq<Edge>>) {
    forall a, line, b | Forwards(prog, a, line, b) :: Carried(table, a, b)
  }

  /** Every function has at least the sinks of its own body. */
  ghost predicate HoldsOwn(prog: Program, table: map<FuncId, seq<Edge>>) {
    forall id | HasContract(prog, id) :: id in table && forall e | e in ContractOf(prog, id).ownSinks :: e in table[id]
  }

  lemma AllFunctionsClosed(prog: Program, table: map<FuncId, seq<Edge>>)
    requires forall f | HasContract(prog, f) :: FunctionClosed(prog, table, f)
    ensures Closed(prog, table)
  {
    hide ForwardsAt, Carried;
    forall a, line, b | Forwards(prog, a, line, b)
      ensures Carried(table, a, b)
    {
      var site :| site in FactsOf(prog, a.f).calls && site.line == line && ForwardsAt(prog, a, site.shape, b);
      assert SiteClosed(prog, table, a.f, site.shape);
      assert Slot(a.f, a.param) == a;
    }
  }

  lemma CarryKey(table: map<FuncId, seq<Edge>>, a: Slot, b: Slot, sink: string, line: int)
    requires Carried(table, a, b) && HasKey(table, b, sink, line)
    ensures HasKey(table, a, sink, line)
  {
    var e :| e in table[b.f] && e.param == b.param && e.sink == sink && e.line == line;
    var k := SinkKey(a.param, e.cwe, e.sink, e.line);
    assert k in Keys(table[a.f]);
    var known :| known in table[a.f] && KeyOf(known) == k;
  }

  /** Completeness along one chain, for any closed table. */
  lemma {:induction false} ChainIsHeld(prog: Program, table: map<FuncId, seq<Edge>>, path: seq<Slot>, lines: seq<int>,
                                       sink: string, line: int)
    requires HoldsOwn(prog, table) && Closed(prog, table)
    requires ForwardingChain(prog, path, lines, sink, line)
    ensures HasKey(table, path[0], sink, line)
    decreases |lines|
  {
    if lines == [] {
      var e :| e in ContractOf(prog, path[0].f).ownSinks && e.param == path[0].param && e.sink == sink
          && e.line == line;
      assert e in table[path[0].f];
    } else {
      ChainTail(prog, path, lines, sink, line);
      hide HasKey, Carried, Forwards, ForwardingChain;
      ChainIsHeld(prog, table, path[1..], lines[1..], sink, line);
      CarryKey(table, path[0], path[1..][0], sink, line);
    }
  }

  lemma ChainTail(prog: Program, path: seq<Slot>, lines: seq<int>, sink: string, line: int)
    requires ForwardingChain(prog, path, lines, sink, line) && lines != []
    ensures |path| > 1 && Forwards(prog, path[0], lines[0], path[1..][0])
    ensures ForwardingChain(prog, path[1..], lines[1..], sink, line)
  {
    hide Forwards, OwnsSink;
    forall i | 0 <= i < |lines[1..]|
      ensures Forwards(prog, path[1..][i], lines[1..][i], path[1..][i + 1])
    {
      assert Forwards(prog, path[i + 1], lines[i + 1], path[i + 2]);
    }
  }

  lemma SoundHoldsOwn(prog: Program, st: State)
    requires Sound(prog, st)
    ensures HoldsOwn(prog, st.table)
  {
    hide EdgeSound, Provenance, HasContract;
    forall id | HasContract(prog, id)
      ensures id in st.table && forall e | e in ContractOf(prog, id).ownSinks :: e in st.table[id]
    {
      var own := ContractOf(prog, id).ownSinks;
      assert RowSound(prog, id, st.table[id]);
      assert forall e | e in own :: e in st.table[id][..|own|];
    }
  }

  lemma HeldIsReached(prog: Program, st: State, s: Slot, sink: string, line: int)
    requires Sound(prog, st) && HasKey(st.table, s, sink, line)
    ensures Reaches(prog, s, sink, line)
  {
    var e :| e in st.table[s.f] && e.param == s.param && e.sink == sink && e.line == line;
    SoundEdge(prog, st, s.f, e);
    var k := RouteKeyOf(s.f, e);
    assert Genuine(prog, k, RouteOf(st, k), OriginOf(prog, st, k), PathOf(st, k));
  }

  /** A sound and closed table holds exactly the sinks that some chain of bare-name,
      non-neutralised forwardings reaches. */
  lemma LeastFixedPoint(prog: Program, st: State)
    requires Sound(prog, st) && Closed(prog, st.table)
    ensures forall s, sink, line :: HasKey(st.table, s, sink, line) <==> Reaches(prog, s, sink, line)
  {
    SoundHoldsOwn(prog, st);
    hide Sound, Closed, HasKey, HoldsOwn, ForwardingChain;
    forall s, sink, line
      ensures HasKey(st.table, s, sink, line) <==> Reaches(prog, s, sink, line)
    {
      if HasKey(st.table, s, sink, line) {
        HeldIsReached(prog, st, s, sink, line);
      }
      if Reaches(prog, s, sink, line) {
        var path: seq<Slot>, lines: seq<int> :| |path| > 0 && path[0] == s
            && ForwardingChain(prog, path, lines, sink, line);
        ChainIsHeld(prog, st.table, path, lines, sink, line);
      }
    }
  }

  /** It is contained in every closed table that holds the own sinks. */
  lemma LeastAmongClosed(prog: Program, st: State, other: map<FuncId, seq<Edge>>)
    requires Sound(prog, st) && HoldsOwn(prog, other) && Closed(prog, other)
    ensures forall s, sink, line | HasKey(st.table, s, sink, line) :: HasKey(other, s, sink, line)
  {
    hide Sound, Closed, HasKey, HoldsOwn, ForwardingChain;
    forall s, sink, line | HasKey(st.table, s, sink, line)
      ensures HasKey(other, s, sink, line)
    {
      HeldIsReached(prog, st, s, sink, line);
      var path: seq<Slot>, lines: seq<int> :| |path| > 0 && path[0] == s
          && ForwardingChain(prog, path, lines, sink, line);
      ChainIsHeld(prog, other, path, lines, sink, line);
    }
  }

  /** Two runs of the propagation, in whatever module and function order, end with the same keys:
      same parameter, weakness, sink and line for every function. */
  lemma OrderIndependent(prog: Program, one: State, two: State, id: FuncId)
    requires Sound(prog, one) && Closed(prog, one.table) && Sound(prog, two) && Closed(prog, two.table)
    requires HasContract(prog, id)
    ensures id in one.table && id in two.table && Keys(one.table[id]) == Keys(two.table[id])
  {
    KeysIncluded(prog, one, two, id);
    KeysIncluded(prog, two, one, id);
  }

  lemma KeysIncluded(prog: Program, one: State, two: State, id: FuncId)
    requires Sound(prog, one) && Sound(prog, two) && Closed(prog, two.table) && HasContract(prog, id)
    ensures id in one.table && id in two.table && Keys(one.table[id]) <= Keys(two.table[id])
  {
    SoundHoldsOwn(prog, one);
    SoundHoldsOwn(prog, two);
    LeastAmongClosed(prog, one, two.table);
    hide Sound, Closed, EdgeSound;
    forall k | k in Keys(one.table[id])
      ensures k in Keys(two.table[id])
    {
      var e :| e in one.table[id] && KeyOf(e) == k;
      var s := Slot(id, e.param);
      assert HasKey(one.table, s, e.sink, e.line);
      CweFollowsSink(prog, one, id, e);
      HeldKeyIsKnown(prog, two, s, e.sink, e.line);
    }
  }

  // ---------------------------------------------------------------- the initial table

  ghost predicate Initial(prog: Program, st: State) {
    && (forall id :: id in st.table <==> HasContract(prog, id))
    && (forall id | id in st.table :: st.table[id] == ContractOf(prog, id).ownSinks)
    && st.origins == map[] && st.route == map[] && st.chain == map[]
  }

  lemma InitialIsSound(prog: Program, st: State)
    requires WellFormed(prog) && Initial(prog, st)
    ensures Sound(prog, st)
  {
    forall id, e | id in st.table && e in st.table[id]
      ensures HasContract(prog, id) && EdgeSound(prog, st, id, e)
    {
      var k := RouteKeyOf(id, e);
      assert PathOf(st, k) == [Slot(id, e.param)] && RouteOf(st, k) == [];
      assert OwnsSink(prog, Slot(id, e.param), e.sink, e.line);
    }
  }

  // ---------------------------------------------------------------- termination

  datatype Sink = Sink(cwe: string, name: string, line: int)

  ghost function OwnSinks(prog: Program, ids: set<FuncId>): set<Sink> {
    set id, e | id in ids && HasContract(prog, id) && e in ContractOf(prog, id).ownSinks :: Sink(e.cwe, e.sink, e.line)
  }

  /** Every key a function could ever hold. */
  ghost function Possible(prog: Program, ids: set<FuncId>): set<(FuncId, SinkKey)> {
    set id, p: nat, t | id in ids && HasContract(prog, id) && p < |ContractOf(prog, id).params|
        && t in OwnSinks(prog, ids) ::
      (id, SinkKey(p, t.cwe, t.name, t.line))
  }

  ghost function Present(table: map<FuncId, seq<Edge>>): set<(FuncId, SinkKey)> {
    set id, e | id in table && e in table[id] :: (id, KeyOf(e))
  }

  lemma PresentIsPossible(prog: Program, st: State)
    requires Sound(prog, st)
    ensures Present(st.table) <= Possible(prog, st.table.Keys)
  {
    forall id, e | id in st.table && e in st.table[id]
      ensures (id, KeyOf(e)) in Possible(prog, st.table.Keys)
    {
      SoundEdge(prog, st, id, e);
      EdgeIsPossible(prog, st, id, e);
    }
  }

  lemma EdgeIsPossible(prog: Program, st: State, id: FuncId, e: Edge)
    requires WellFormed(prog) && RowsSound(prog, st.table)
    requires HasContract(prog, id) && EdgeSound(prog, st, id, e)
    ensures (id, KeyOf(e)) in Possible(prog, st.table.Keys)
  {
    var path, route := PathOf(st, RouteKeyOf(id, e)), RouteOf(st, RouteKeyOf(id, e));
    var last := path[|route|];
    assert OwnsSink(prog, last, e.sink, e.line);
    var own :| own in ContractOf(prog, last.f).ownSinks && own.param == last.param && own.sink == e.sink
        && own.line == e.line;
    assert EdgeOk(prog, ContractOf(prog, last.f), own);
    assert Sink(own.cwe, own.sink, own.line) in OwnSinks(prog, st.table.Keys);
    assert e.param < |ContractOf(prog, id).params|;
  }

  lemma PresentGrows(table: map<FuncId, seq<Edge>>, id: FuncId, edge: Edge)
    requires id in table
    ensures Present(WithEdge(table, id, edge)) == Present(table) + {(id, KeyOf(edge))}
    ensures KeyOf(edge) !in Keys(table[id]) ==> (id, KeyOf(edge)) !in Present(table)
  {
    var table', one := WithEdge(table, id, edge), (id, KeyOf(edge));
    var row := table'[id];
    assert row[|table[id]|] == edge && edge in row;
    forall p
      ensures p in Present(table') <==> p in Present(table) + {one}
    {
      if p in Present(table') {
        var x :| p.0 in table' && x in table'[p.0] && p == (p.0, KeyOf(x));
        if p.0 == id && x !in table[id] { assert x == edge; }
      }
      if p in Present(table) {
        var x :| p.0 in table && x in table[p.0] && p == (p.0, KeyOf(x));
        assert x in table'[p.0];
      }
    }
  }

  /** From one state of the propagation to a later one: keys are only added, and `added` tells
      whether anything happened at all. */
  ghost predicate Grows(before: State, after: State, added: bool) {
    && before.table.Keys == after.table.Keys
    && Present(before.table) <= Present(after.table)
    && (added ==> Present(before.table) < Present(after.table))
    && (!added ==> after == before)
  }

  lemma GrowsTransitive(a: State, b: State, c: State, first: bool, second: bool)
    requires Grows(a, b, first) && Grows(b, c, second)
    ensures Grows(a, c, first || second)
  {
  }

  /** How many keys are still possible but absent: the measure of the propagation. */
  ghost function Missing(prog: Program, table: map<FuncId, seq<Edge>>): nat {
    |Possible(prog, table.Keys) - Present(table)|
  }

  lemma GrowthShrinksMissing(prog: Program, before: State, after: State)
    requires Sound(prog, after) && Grows(before, after, true)
    ensures Missing(prog, after.table) < Missing(prog, before.table)
  {
    hide Sound, Possible, Present;
    PresentIsPossible(prog, after);
    FewerLeft(Possible(prog, after.table.Keys), Present(before.table), Present(after.table));
  }

  lemma FewerLeft<T>(all: set<T>, fewer: set<T>, more: set<T>)
    requires fewer < more <= all
    ensures |all - more| < |all - fewer|
  {
    var k :| k in more && k !in fewer;
    assert k in all - fewer && k !in all - more;
    ProperSubsetIsSmaller(all - more, all - fewer);
  }

  /** One lift adds exactly one key, to one function. */
  lemma LiftEffect(prog: Program, st: State, a: Slot, line: int, b: FuncId, e: Edge)
    requires CanLift(prog, st, a, line, b, e)
    ensures
      var st' := Lifted(prog, st, a, line, b, e);
      && Grows(st, st', true)
      && Keys(st'.table[a.f]) == Keys(st.table[a.f]) + {SinkKey(a.param, e.cwe, e.sink, e.line)}
      && (forall id | id in st.table :: id in st'.table && st.table[id] <= st'.table[id])
      && Missing(prog, st'.table) < Missing(prog, st.table)
  {
    hide Sound, Forwards, Present, Possible, HasContract, ContractOf, OriginOf, RouteOf, PathOf, NameOf;
    var edge := LiftedEdge(prog, a, e);
    PresentGrows(st.table, a.f, edge);
    KeysGrow(st.table[a.f], edge);
    LiftKeepsSound(prog, st, a, line, b, e);
    GrowthShrinksMissing(prog, st, Lifted(prog, st, a, line, b, e));
  }

  lemma KeysGrow(row: seq<Edge>, edge: Edge)
    ensures Keys(row + [edge]) == Keys(row) + {KeyOf(edge)}
  {
    assert (row + [edge])[|row|] in row + [edge];
    assert forall x :: x in row + [edge] <==> x in row || x == edge;
    forall k
      ensures k in Keys(row + [edge]) <==> k in Keys(row) + {KeyOf(edge)}
    {
      if k in Keys(row) {
        var x :| x in row && KeyOf(x) == k;
        assert x in row + [edge];
      }
    }
  }
}
