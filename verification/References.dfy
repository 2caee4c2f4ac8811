/** What signal and task decorators mean, read off the trees, and the spellings that references are made of. */
module References {
  import opened Options
  import opened PyAst
  import opened SymbolIndex
  import opened Facts
  import opened Resolution
  import opened Callers
  import opened Decorators

  // ---------------------------------------------------------------- dotted spellings

  /** The expression is this chain of names joined by dots. */
  ghost predicate Spells(e: Node, parts: seq<string>) {
    match e
    case Name(id, _) => parts == [id]
    case Attribute(value, attr) => |parts| > 1 && parts[|parts| - 1] == attr && Spells(value, parts[..|parts| - 1])
    case _ => false
  }

  lemma {:induction false} JoinLast(parts: seq<string>, last: string)
    requires |parts| >= 1
    ensures JoinDots(parts + [last]) == JoinDots(parts) + "." + last
  {
    if |parts| == 1 {
      assert (parts + [last])[1..] == [last];
    } else {
      assert (parts + [last])[1..] == parts[1..] + [last];
      JoinLast(parts[1..], last);
      JoinsInOrder(parts[0], JoinDots(parts[1..]), last);
    }
  }

  lemma JoinsInOrder(a: string, b: string, c: string)
    ensures a + "." + (b + "." + c) == (a + "." + b) + "." + c
  {
  }

  /** A chain of names is spelt with its dots. */
  lemma {:induction false} PrefixOfChain(e: Node, parts: seq<string>)
    requires Spells(e, parts) && forall part | part in parts :: part != ""
    ensures DottedPrefix(e) == JoinDots(parts) && DottedPrefix(e) != ""
    decreases e
  {
    assert forall i | 0 <= i < |parts| :: parts[i] in parts;
    if e.Attribute? {
      var front, last := parts[..|parts| - 1], parts[|parts| - 1];
      assert parts == front + [last];
      PrefixOfChain(e.value, front);
      JoinLast(front, last);
    }
  }

  /** Anything else has no spelling. */
  lemma {:induction false} PrefixOfOther(e: Node)
    requires forall parts :: !Spells(e, parts)
    ensures DottedPrefix(e) == ""
    decreases e
  {
    match e
    case Name(id, _) => assert Spells(e, [id]);
    case Attribute(value, attr) =>
      forall parts
        ensures !Spells(value, parts)
      {
        if Spells(value, parts) {
          SpellsSome(value, parts);
          var longer := parts + [attr];
          assert longer[..|longer| - 1] == parts;
          assert Spells(e, longer);
        }
      }
      PrefixOfOther(value);
    case _ =>
  }

  lemma SpellsSome(e: Node, parts: seq<string>)
    requires Spells(e, parts)
    ensures |parts| >= 1
  {
  }

  // ---------------------------------------------------------------- events

  predicate CalledBy(deco: Node, name: string) {
    deco.Call? && ((deco.func.Name? && deco.func.id == name) || (deco.func.Attribute? && deco.func.attr == name))
  }

  /** `@receiver(signal, ...)`, where the first argument is a name or an attribute that refers to this signal. */
  ghost predicate Receives(prog: Program, mod: string, deco: Node, ref: Reference) {
    && CalledBy(deco, "receiver") && deco.args != [] && (deco.args[0].Name? || deco.args[0].Attribute?)
    && ResolveReference(prog, mod, deco.args[0]) == Some(ref)
  }

  /** `@shared_task`, `@app.task`, called or not. */
  predicate IsTask(deco: Node) {
    || (deco.Name? && deco.id in {"shared_task", "task"})
    || (deco.Attribute? && deco.attr in {"shared_task", "task"})
    || CalledBy(deco, "shared_task") || CalledBy(deco, "task")
  }

  lemma SignalIsReceived(prog: Program, mod: string, deco: Node, ref: Reference)
    ensures SignalOf(prog, mod, DecoOf(deco)) == Some(ref) <==> Receives(prog, mod, deco, ref)
  {
    hide NameReference, AttrReference;
    if deco.Call? && deco.args != [] && deco.args[0].Attribute? {
      BarePrefix(deco.args[0].value);
    }
  }

  lemma BarePrefix(e: Node)
    ensures e.Name? ==> DottedPrefix(e) == e.id
  {
  }

  lemma TaskIsDeclared(deco: Node)
    ensures DeclaresTask(DecoOf(deco)) <==> IsTask(deco)
  {
    hide DottedPrefix;
  }

  lemma {:induction false} DecosAre(decorators: seq<Node>, d: DecoFacts)
    ensures d in DecosOf(decorators) <==> exists deco :: deco in decorators && d == DecoOf(deco)
  {
    hide DecoOf;
    if decorators != [] {
      DecosAre(decorators[1..], d);
      assert forall x :: x in decorators <==> x == decorators[0] || x in decorators[1..];
    }
  }

  /** The catalog, read off the trees: a function subscribes to the signals its `@receiver` decorators refer to, and
      is a task if a decorator says so. */
  lemma CataloguedOffTrees(prog: Program, trees: map<FuncId, Node>, subscribers: map<Reference, seq<FuncId>>,
                           tasks: set<Reference>, id: FuncId, ref: Reference)
    requires Harvested(prog, trees) && Catalogued(prog, subscribers, tasks) && HasContract(prog, id)
    ensures Holds(subscribers, ref, id) <==>
            exists deco :: deco in trees[id].decorators && Receives(prog, id.mod, deco, ref)
    ensures (id.mod, id.qual) in tasks <==> exists deco :: deco in trees[id].decorators && IsTask(deco)
  {
    hide Holds, DecoOf, DecosOf, SignalOf, DeclaresTask, Receives, IsTask, WrapperOf;
    var decorators, decos := trees[id].decorators, FactsOf(prog, id).decos;
    forall d
      ensures d in decos <==> exists deco :: deco in decorators && d == DecoOf(deco)
    {
      DecosAre(decorators, d);
    }
    forall deco
      ensures SignalOf(prog, id.mod, DecoOf(deco)) == Some(ref) <==> Receives(prog, id.mod, deco, ref)
      ensures DeclaresTask(DecoOf(deco)) <==> IsTask(deco)
    {
      SignalIsReceived(prog, id.mod, deco, ref);
      TaskIsDeclared(deco);
    }
  }

  // ---------------------------------------------------------------- what a reference is, and whom a dispatch reaches

  /** A name refers to what its import binds, in the registered module it is imported from, or else to itself in this
      module. */
  ghost predicate NameRefersTo(prog: Program, mod: string, name: string, ref: Reference) {
    if exists target ::
         && mod in prog.index.modules && name in prog.index.modules[mod].imports && target != ""
         && MatchRegistered(prog.index, prog.index.modules[mod].imports[name].sourceModule) == Some(target)
    then
      var binding := prog.index.modules[mod].imports[name];
      && MatchRegistered(prog.index, binding.sourceModule) == Some(ref.0) && ref.0 != ""
      && ref.1 == (if binding.importedName == "" then name else binding.importedName)
    else ref == (mod, name)
  }

  /** A dotted spelling refers to its last part, in the registered module that the rest spells, or in what it spells. */
  ghost predicate DottedRefersTo(prog: Program, base: string, attr: string, ref: Reference) {
    && ref.1 == attr
    && if exists target :: target != "" && MatchRegistered(prog.index, base) == Some(target)
       then MatchRegistered(prog.index, base) == Some(ref.0) else ref.0 == base
  }

  lemma ReferenceIs(prog: Program, mod: string, expr: Node, ref: Reference)
    ensures ResolveReference(prog, mod, expr) == Some(ref) <==>
            || (expr.Name? && NameRefersTo(prog, mod, expr.id, ref))
            || (expr.Attribute? && !(expr.value.Name? && expr.value.id in {"self", "cls"})
                && DottedPrefix(expr.value) != "" && DottedRefersTo(prog, DottedPrefix(expr.value), expr.attr, ref))
  {
    hide MatchRegistered, DottedPrefix;
  }

  /** Whom a dispatch reaches: the subscribers of the signal that is sent, or the task that is delayed. */
  lemma TargetsIff(cx: Analysis, mod: string, call: Node, t: FuncId)
    requires call.Call?
    ensures t in EmissionTargets(cx, mod, call) <==>
            && call.func.Attribute?
            && exists ref ::
                 && ResolveReference(cx.prog, mod, call.func.value) == Some(ref)
                 && (|| (call.func.attr in {"send", "send_robust"} && Holds(cx.subscribers, ref, t))
                     || (call.func.attr in {"delay", "apply_async"} && ref in cx.tasks && t == FuncId(ref.0, ref.1)))
  {
    hide ResolveReference;
  }
}
