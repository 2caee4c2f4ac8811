/** Which contract a call reaches, over facts and over the syntax tree. */
module Resolution {
  import opened Options
  import opened Sequences
  import opened SymbolIndex
  import opened Facts

  /** Everything the cross-module passes read: the symbol index, the facts of every module, the
      weakness each known sink name reports, and the known sanitizer names. */
  datatype Program = Program(
    index: Index,
    modules: map<string, ModuleFacts>,
    knownSinks: map<string, string>,
    knownSanitizers: set<string>)

  predicate HasContract(prog: Program, id: FuncId) {
    id.mod in prog.modules && id.qual in prog.modules[id.mod].funcs
  }

  function FactsOf(prog: Program, id: FuncId): FuncFacts
    requires HasContract(prog, id)
  {
    prog.modules[id.mod].funcs[id.qual]
  }

  function ContractOf(prog: Program, id: FuncId): Contract
    requires HasContract(prog, id)
  {
    FactsOf(prog, id).contract
  }

  // ---------------------------------------------------------------- classes

  /** The class a name refers to inside a module. */
  function ClassOfName(prog: Program, name: string, callerMod: string): Option<ClassRef> {
    var def := ResolveSymbol(prog.index, callerMod, name);
    if def == None || def.value.kind != Class then None else
      var mod := FileModule(prog.index, def.value.filePath);
      if mod == None then None else Some(ClassRef(def.value.name, mod.value))
  }

  function ResolveBases(prog: Program, spellings: seq<Option<string>>, mod: string): seq<ClassRef> {
    if spellings == [] then []
    else
      var before := ResolveBases(prog, spellings[..|spellings| - 1], mod);
      var last := spellings[|spellings| - 1];
      var parent := if last.Some? then ClassOfName(prog, last.value, mod) else None;
      if parent.Some? then before + [parent.value] else before
  }

  predicate IsIndexedClass(prog: Program, ref: ClassRef) {
    ref.mod in prog.modules && ref.name in prog.modules[ref.mod].bases
  }

  /** The base classes of a class, in source order. */
  function BaseClasses(prog: Program, ref: ClassRef): (parents: seq<ClassRef>)
    ensures parents != [] ==> IsIndexedClass(prog, ref)
  {
    if IsIndexedClass(prog, ref) then ResolveBases(prog, prog.modules[ref.mod].bases[ref.name], ref.mod) else []
  }

  function MethodId(ref: ClassRef, attr: string): FuncId {
    FuncId(ref.mod, ref.name + "." + attr)
  }

  function Unseen(parents: seq<ClassRef>, seen: set<ClassRef>): seq<ClassRef> {
    if parents == [] then []
    else (if parents[0] in seen then [] else [parents[0]]) + Unseen(parents[1..], seen)
  }

  function IndexedClasses(prog: Program): set<ClassRef> {
    set m, c | m in prog.modules && c in prog.modules[m].bases :: ClassRef(c, m)
  }

  /** The breadth-first search from a queue of classes. */
  function SearchBases(prog: Program, attr: string, pending: seq<ClassRef>, seen: set<ClassRef>): Option<FuncId>
    decreases |IndexedClasses(prog) - seen|, |pending|
  {
    if pending == [] then None
    else if pending[0] in seen then SearchBases(prog, attr, pending[1..], seen)
    else if HasContract(prog, MethodId(pending[0], attr)) then Some(MethodId(pending[0], attr))
    else
      SeenGrows(prog, pending[0], seen);
      SearchBases(prog, attr, pending[1..] + Unseen(BaseClasses(prog, pending[0]), seen + {pending[0]}),
                  seen + {pending[0]})
  }

  lemma SeenGrows(prog: Program, ref: ClassRef, seen: set<ClassRef>)
    requires ref !in seen
    ensures |IndexedClasses(prog) - (seen + {ref})| <= |IndexedClasses(prog) - seen|
    ensures BaseClasses(prog, ref) != [] ==> |IndexedClasses(prog) - (seen + {ref})| < |IndexedClasses(prog) - seen|
  {
    var all := IndexedClasses(prog);
    if ref in all {
      assert all - seen == (all - (seen + {ref})) + {ref};
    } else {
      assert all - seen == all - (seen + {ref});
    }
  }

  function InheritedMethod(prog: Program, ref: ClassRef, attr: string): Option<FuncId> {
    SearchBases(prog, attr, [ref], {})
  }

  lemma SearchStep(prog: Program, attr: string, first: ClassRef, rest: seq<ClassRef>, seen: set<ClassRef>)
    ensures SearchBases(prog, attr, [first] + rest, seen)
         == if first in seen then SearchBases(prog, attr, rest, seen)
            else if HasContract(prog, MethodId(first, attr)) then Some(MethodId(first, attr))
            else SearchBases(prog, attr, rest + Unseen(BaseClasses(prog, first), seen + {first}), seen + {first})
  {
    assert ([first] + rest)[1..] == rest;
  }

  method ResolveInheritedMethod(prog: Program, ref: ClassRef, attr: string) returns (found: Option<FuncId>)
    ensures found == InheritedMethod(prog, ref, attr)
  {
    var pending := [ref];
    var seen: set<ClassRef> := {};
    assert SearchBases(prog, attr, [], {}) == None;
    assert forall s :: SearchBases(prog, attr, [], s) == None && Unseen([], s) == [];
    hide SearchBases, HasContract, MethodId, BaseClasses, Unseen, IndexedClasses;
    while pending != []
      invariant SearchBases(prog, attr, pending, seen) == InheritedMethod(prog, ref, attr)
      decreases |IndexedClasses(prog) - seen|, |pending|
    {
      var current := pending[0];
      SplitFirst(pending);
      SearchStep(prog, attr, current, pending[1..], seen);
      pending := pending[1..];
      if current in seen {
        continue;
      }
      SeenGrows(prog, current, seen);
      seen := seen + {current};
      if HasContract(prog, MethodId(current, attr)) {
        return Some(MethodId(current, attr));
      }
      var parents := BaseClasses(prog, current);
      pending := QueueUnseen(pending, parents, seen);
    }
    found := None;
  }

  method QueueUnseen(queue: seq<ClassRef>, parents: seq<ClassRef>, seen: set<ClassRef>)
    returns (pending: seq<ClassRef>)
    ensures pending == queue + Unseen(parents, seen)
  {
    pending := queue;
    for i := 0 to |parents|
      invariant pending == queue + Unseen(parents[..i], seen)
    {
      assert parents[..i + 1] == parents[..i] + [parents[i]];
      UnseenAppend(parents[..i], parents[i], seen);
      if parents[i] !in seen {
        pending := pending + [parents[i]];
      }
    }
    assert parents[..|parents|] == parents;
  }

  lemma {:induction false} UnseenAppend(parents: seq<ClassRef>, parent: ClassRef, seen: set<ClassRef>)
    ensures Unseen(parents + [parent], seen) == Unseen(parents, seen) + if parent in seen then [] else [parent]
  {
    if parents != [] {
      assert (parents + [parent])[1..] == parents[1..] + [parent];
      UnseenAppend(parents[1..], parent, seen);
    }
  }

  lemma {:induction false} UnseenMembers(parents: seq<ClassRef>, seen: set<ClassRef>)
    ensures forall p :: p in Unseen(parents, seen) <==> p in parents && p !in seen
  {
    if parents != [] {
      UnseenMembers(parents[1..], seen);
    }
  }

  // ------------------------------------------------ what a base is

  /** In a module the spelling resolves to this class. */
  ghost predicate NamesClass(prog: Program, mod: string, spelling: string, p: ClassRef) {
    var def := ResolveSymbol(prog.index, mod, spelling);
    && def.Some? && def.value.kind == Class && def.value.name == p.name
    && FileModule(prog.index, def.value.filePath) == Some(p.mod)
  }

  /** The `k`-th spelling of a list names this class. */
  ghost predicate SpellingNames(prog: Program, spellings: seq<Option<string>>, mod: string, k: nat, p: ClassRef) {
    k < |spellings| && spellings[k].Some? && NamesClass(prog, mod, spellings[k].value, p)
  }

  /** The `k`-th base in the class header names this class. */
  ghost predicate NamesBase(prog: Program, ref: ClassRef, k: nat, p: ClassRef) {
    && ref.mod in prog.modules && ref.name in prog.modules[ref.mod].bases
    && SpellingNames(prog, prog.modules[ref.mod].bases[ref.name], ref.mod, k, p)
  }

  ghost predicate IsBase(prog: Program, ref: ClassRef, p: ClassRef) {
    exists k: nat :: NamesBase(prog, ref, k, p)
  }

  /** The parents, each with the position of a spelling that names it, in the order of the spellings; every
      spelling that names a class is there. */
  ghost predicate InSourceOrder(prog: Program, spellings: seq<Option<string>>, mod: string, parents: seq<ClassRef>,
                                from: seq<nat>) {
    && |from| == |parents|
    && (forall i, j | 0 <= i < j < |from| :: from[i] < from[j])
    && (forall j | 0 <= j < |from| :: SpellingNames(prog, spellings, mod, from[j], parents[j]))
    && forall k: nat, p | SpellingNames(prog, spellings, mod, k, p) :: k in from
  }

  lemma ClassOfNameNames(prog: Program, mod: string, spelling: string, p: ClassRef)
    ensures NamesClass(prog, mod, spelling, p) <==> ClassOfName(prog, spelling, mod) == Some(p)
  {
    hide ResolveSymbol, FileModule;
  }

  lemma {:induction false} BasesAreNamed(prog: Program, spellings: seq<Option<string>>, mod: string)
    returns (from: seq<nat>)
    ensures InSourceOrder(prog, spellings, mod, ResolveBases(prog, spellings, mod), from)
    decreases |spellings|
  {
    hide SpellingNames, ClassOfName;
    from := [];
    if spellings != [] {
      var n := |spellings| - 1;
      var before := BasesAreNamed(prog, spellings[..n], mod);
      var last := spellings[n];
      var parent := if last.Some? then ClassOfName(prog, last.value, mod) else None;
      from := if parent.Some? then before + [n] else before;
      forall p
        ensures parent == Some(p) <==> SpellingNames(prog, spellings, mod, n, p)
      {
        if last.Some? { ClassOfNameNames(prog, mod, last.value, p); }
        LastSpelling(prog, spellings, mod, p);
      }
      forall k: nat, p | SpellingNames(prog, spellings, mod, k, p)
        ensures k in from
      {
        SpellingIsEarlier(prog, spellings, mod, k, p);
      }
      forall j, p | 0 <= j < |before| && SpellingNames(prog, spellings[..n], mod, before[j], p)
        ensures before[j] < n && SpellingNames(prog, spellings, mod, before[j], p)
      {
        SpellingIsEarlier(prog, spellings, mod, before[j], p);
      }
    } else {
      NothingSpelt(prog, mod);
    }
  }

  lemma NothingSpelt(prog: Program, mod: string)
    ensures forall k: nat, p :: !SpellingNames(prog, [], mod, k, p)
  {
  }

  lemma LastSpelling(prog: Program, spellings: seq<Option<string>>, mod: string, p: ClassRef)
    requires spellings != []
    ensures var n := |spellings| - 1;
      SpellingNames(prog, spellings, mod, n, p) <==> spellings[n].Some? && NamesClass(prog, mod, spellings[n].value, p)
  {
  }

  lemma SpellingIsEarlier(prog: Program, spellings: seq<Option<string>>, mod: string, k: nat, p: ClassRef)
    requires spellings != []
    ensures var n := |spellings| - 1;
      && (SpellingNames(prog, spellings[..n], mod, k, p) <==> k < n && SpellingNames(prog, spellings, mod, k, p))
      && (SpellingNames(prog, spellings, mod, k, p) ==> k <= n)
  {
    hide NamesClass;
  }

  /** The bases of a class are the classes its header names, in source order. */
  lemma BasesInSourceOrder(prog: Program, ref: ClassRef) returns (from: seq<nat>)
    ensures var parents := BaseClasses(prog, ref);
      && |from| == |parents| && (forall i, j | 0 <= i < j < |from| :: from[i] < from[j])
      && (forall j | 0 <= j < |from| :: NamesBase(prog, ref, from[j], parents[j]))
      && forall k: nat, p | NamesBase(prog, ref, k, p) :: k in from
  {
    hide SpellingNames, ResolveBases;
    from := [];
    if IsIndexedClass(prog, ref) {
      from := BasesAreNamed(prog, prog.modules[ref.mod].bases[ref.name], ref.mod);
    }
  }

  lemma BaseIsNamed(prog: Program, ref: ClassRef, p: ClassRef)
    ensures p in BaseClasses(prog, ref) <==> IsBase(prog, ref, p)
  {
    hide NamesBase, BaseClasses;
    var parents := BaseClasses(prog, ref);
    var from := BasesInSourceOrder(prog, ref);
    if p in parents {
      var j: nat :| j < |parents| && parents[j] == p;
      assert NamesBase(prog, ref, from[j], p);
    }
    if k: nat :| NamesBase(prog, ref, k, p) {
      var j: nat :| j < |from| && from[j] == k;
      OneNamed(prog, ref, k, p, parents[j]);
      assert parents[j] in parents;
    }
  }

  lemma OneNamed(prog: Program, ref: ClassRef, k: nat, p: ClassRef, q: ClassRef)
    requires NamesBase(prog, ref, k, p) && NamesBase(prog, ref, k, q)
    ensures p == q
  {
    hide ResolveSymbol, FileModule;
  }

  // ------------------------------------------------ what the inheritance search returns

  /** `ref` is an ancestor of `root`, `distance` inheritance edges away. */
  ghost predicate Ancestor(prog: Program, root: ClassRef, ref: ClassRef, distance: nat)
    decreases distance
  {
    if distance == 0 then ref == root
    else exists child :: Ancestor(prog, root, child, distance - 1) && IsBase(prog, child, ref)
  }

  ghost predicate Declares(prog: Program, ref: ClassRef, attr: string) {
    HasContract(prog, MethodId(ref, attr))
  }

  /** The search state at level `d`: `now` are queued classes at distance `d`, `next` at `d + 1`;
      every class nearer than `d` has been seen, and none of the seen ones declares the method. */
  ghost predicate AtLevel(prog: Program, root: ClassRef, attr: string, d: nat,
                          now: seq<ClassRef>, next: seq<ClassRef>, seen: set<ClassRef>)
  {
    && (forall c | c in now :: Ancestor(prog, root, c, d))
    && (forall c | c in next :: Ancestor(prog, root, c, d + 1))
    && (forall c | c in seen :: !Declares(prog, c, attr))
    && (forall c, m: nat | m < d && Ancestor(prog, root, c, m) :: c in seen)
    && (forall c | Ancestor(prog, root, c, d) :: c in seen || c in now)
    && (forall c, p | c in seen && IsBase(prog, c, p) :: p in seen || p in now || p in next)
  }

  /** Exhausting a level makes the next one current. */
  lemma NextLevel(prog: Program, root: ClassRef, attr: string, d: nat, next: seq<ClassRef>, seen: set<ClassRef>)
    requires AtLevel(prog, root, attr, d, [], next, seen)
    ensures AtLevel(prog, root, attr, d + 1, next, [], seen)
  {
    forall c, m: nat | m < d + 1 && Ancestor(prog, root, c, m)
      ensures c in seen
    {
      if m == d { assert c in seen || c in []; }
    }
    forall c | Ancestor(prog, root, c, d + 1)
      ensures c in seen || c in next
    {
      var child :| Ancestor(prog, root, child, d) && IsBase(prog, child, c);
      assert child in seen || child in [];
    }
  }

  /** A set of classes that holds the root and every base of its members holds every ancestor. */
  lemma {:induction false} AncestorsSeen(prog: Program, root: ClassRef, seen: set<ClassRef>, ref: ClassRef,
                                         distance: nat)
    requires root in seen && (forall c, p | c in seen && IsBase(prog, c, p) :: p in seen)
    requires Ancestor(prog, root, ref, distance)
    ensures ref in seen
    decreases distance
  {
    hide IsBase;
    if distance > 0 {
      var child :| Ancestor(prog, root, child, distance - 1) && IsBase(prog, child, ref);
      AncestorsSeen(prog, root, seen, child, distance - 1);
    }
  }

  /** The answer of a search is an ancestor that declares the method, at minimal distance. */
  ghost predicate NearestDeclaration(prog: Program, root: ClassRef, attr: string, found: Option<FuncId>) {
    if found == None then forall c, m: nat | Ancestor(prog, root, c, m) :: !Declares(prog, c, attr)
    else exists c, d: nat ::
      && Ancestor(prog, root, c, d) && Declares(prog, c, attr) && found.value == MethodId(c, attr)
      && forall other, m: nat | m < d && Ancestor(prog, root, other, m) :: !Declares(prog, other, attr)
  }

  lemma VisitLevel(prog: Program, root: ClassRef, attr: string, d: nat,
                   now: seq<ClassRef>, next: seq<ClassRef>, seen: set<ClassRef>)
    requires AtLevel(prog, root, attr, d, now, next, seen)
    requires now != [] && now[0] !in seen && !Declares(prog, now[0], attr)
    ensures AtLevel(prog, root, attr, d, now[1..],
                    next + Unseen(BaseClasses(prog, now[0]), seen + {now[0]}), seen + {now[0]})
  {
    var c, seen' := now[0], seen + {now[0]};
    var parents := Unseen(BaseClasses(prog, c), seen');
    UnseenMembers(BaseClasses(prog, c), seen');
    assert forall x :: x in now <==> x == c || x in now[1..];
    forall p
      ensures p in BaseClasses(prog, c) <==> IsBase(prog, c, p)
    {
      BaseIsNamed(prog, c, p);
    }
    forall p | p in next + parents
      ensures Ancestor(prog, root, p, d + 1)
    {
      if p in parents { assert Ancestor(prog, root, c, d) && IsBase(prog, c, p); }
    }
  }

  lemma {:induction false} SearchIsNearest(prog: Program, root: ClassRef, attr: string, d: nat,
                                           now: seq<ClassRef>, next: seq<ClassRef>, seen: set<ClassRef>)
    requires AtLevel(prog, root, attr, d, now, next, seen)
    ensures NearestDeclaration(prog, root, attr, SearchBases(prog, attr, now + next, seen))
    decreases |IndexedClasses(prog) - seen|, |now + next|, |next|
  {
    var pending := now + next;
    if pending == [] {
      NothingDeclares(prog, root, attr, d, seen);
    } else if now == [] {
      NextLevel(prog, root, attr, d, next, seen);
      assert next + [] == next && [] + next == next;
      SearchIsNearest(prog, root, attr, d + 1, next, [], seen);
    } else {
      assert pending[0] == now[0] && pending[1..] == now[1..] + next;
      if now[0] in seen {
        assert AtLevel(prog, root, attr, d, now[1..], next, seen);
        SearchIsNearest(prog, root, attr, d, now[1..], next, seen);
      } else if Declares(prog, now[0], attr) {
        Found(prog, root, attr, d, now, next, seen);
      } else {
        var parents := Unseen(BaseClasses(prog, now[0]), seen + {now[0]});
        VisitLevel(prog, root, attr, d, now, next, seen);
        SeenGrows(prog, now[0], seen);
        Assoc(now[1..], next, parents);
        SearchIsNearest(prog, root, attr, d, now[1..], next + parents, seen + {now[0]});
      }
    }
  }

  lemma Found(prog: Program, root: ClassRef, attr: string, d: nat,
              now: seq<ClassRef>, next: seq<ClassRef>, seen: set<ClassRef>)
    requires AtLevel(prog, root, attr, d, now, next, seen)
    requires now != [] && Declares(prog, now[0], attr)
    ensures NearestDeclaration(prog, root, attr, Some(MethodId(now[0], attr)))
  {
    assert Ancestor(prog, root, now[0], d);
    assert forall other, m: nat | m < d && Ancestor(prog, root, other, m) :: other in seen;
  }

  lemma NothingDeclares(prog: Program, root: ClassRef, attr: string, d: nat, seen: set<ClassRef>)
    requires AtLevel(prog, root, attr, d, [], [], seen)
    ensures NearestDeclaration(prog, root, attr, None)
  {
    assert Ancestor(prog, root, root, 0);
    assert root in seen;
    forall c, m: nat | Ancestor(prog, root, c, m)
      ensures !Declares(prog, c, attr)
    {
      AncestorsSeen(prog, root, seen, c, m);
    }
  }

  /** On any hierarchy, cyclic or diamond-shaped, the search answers None exactly when no ancestor
      declares the method, and otherwise names a declaration at minimal inheritance distance. */
  lemma InheritedMethodIsNearest(prog: Program, root: ClassRef, attr: string)
    ensures NearestDeclaration(prog, root, attr, InheritedMethod(prog, root, attr))
  {
    assert Ancestor(prog, root, root, 0);
    assert [root] + [] == [root];
    SearchIsNearest(prog, root, attr, 0, [root], [], {});
  }

  /** An override wins over every ancestor. */
  lemma OverrideWins(prog: Program, root: ClassRef, attr: string)
    requires Declares(prog, root, attr)
    ensures InheritedMethod(prog, root, attr) == Some(MethodId(root, attr))
  {
  }
}
