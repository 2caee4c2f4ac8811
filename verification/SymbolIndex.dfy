/** The project-wide symbol table and its import resolver. */
module SymbolIndex {
  import opened Options
  import opened Sequences

  datatype SymbolKind = PlainFunction | AsyncFunction | Class | Method

  datatype SymbolDefinition = SymbolDefinition(name: string, kind: SymbolKind, filePath: string)

  /** `importedName` is "" for `import module`. */
  datatype ImportBinding = ImportBinding(sourceModule: string, importedName: string)

  datatype ModuleIndex = ModuleIndex(
    definitions: map<string, SymbolDefinition>,
    imports: map<string, ImportBinding>,
    starImports: seq<string>)

  /** `order` lists the registered module names in registration order; `fileModule` maps a file
      path spelling to the module that owns the file. */
  datatype Index = Index(
    modules: map<string, ModuleIndex>,
    order: seq<string>,
    fileModule: map<string, string>)

  // ---------------------------------------------------------------- module name matching

  /** `name.endswith("." + candidate)` */
  predicate DotSuffix(name: string, candidate: string) {
    |candidate| < |name| && name[|name| - |candidate| - 1..] == "." + candidate
  }

  /** The first registered module whose dotted name ends with the candidate: the linear scan. */
  function ScanSuffix(order: seq<string>, candidate: string): Option<string> {
    if order == [] then None
    else if DotSuffix(order[0], candidate) then Some(order[0])
    else ScanSuffix(order[1..], candidate)
  }

  function MatchRegistered(idx: Index, candidate: string): Option<string> {
    if candidate in idx.modules then Some(candidate) else ScanSuffix(idx.order, candidate)
  }

  function SplitDots(s: string): (parts: seq<string>)
    ensures |parts| >= 1
  {
    if s == "" then [""]
    else if s[0] == '.' then [""] + SplitDots(s[1..])
    else var rest := SplitDots(s[1..]); [[s[0]] + rest[0]] + rest[1..]
  }

  function JoinDots(parts: seq<string>): string
    requires |parts| >= 1
  {
    if |parts| == 1 then parts[0] else parts[0] + "." + JoinDots(parts[1..])
  }

  lemma JoinHead(c: char, parts: seq<string>)
    requires |parts| >= 1
    ensures JoinDots([[c] + parts[0]] + parts[1..]) == [c] + JoinDots(parts)
  {
    var longer := [[c] + parts[0]] + parts[1..];
    assert longer[1..] == parts[1..];
    if |parts| > 1 {
      hide JoinDots;
      Assoc([c], parts[0], ".");
      Assoc([c], parts[0] + ".", JoinDots(parts[1..]));
    }
  }

  lemma {:induction false} JoinAfterSplit(s: string)
    ensures JoinDots(SplitDots(s)) == s
  {
    if s != "" {
      JoinAfterSplit(s[1..]);
      var rest := SplitDots(s[1..]);
      if s[0] == '.' {
        assert ([""] + rest)[1..] == rest;
      } else {
        JoinHead(s[0], rest);
      }
    }
  }

  /** Some proper tail of the parts joins to the candidate. */
  ghost predicate TailJoins(parts: seq<string>, candidate: string) {
    exists i | 1 <= i < |parts| :: JoinDots(parts[i..]) == candidate
  }

  lemma TailJoinsCons(first: string, parts: seq<string>, candidate: string)
    requires |parts| >= 1
    ensures TailJoins([first] + parts, candidate) <==> JoinDots(parts) == candidate || TailJoins(parts, candidate)
  {
    hide JoinDots;
    var longer := [first] + parts;
    if TailJoins(longer, candidate) {
      var i :| 1 <= i < |longer| && JoinDots(longer[i..]) == candidate;
      assert longer[i..] == parts[i - 1..];
      assert i == 1 ==> parts[i - 1..] == parts;
    }
    if JoinDots(parts) == candidate {
      assert longer[1..] == parts;
    }
    if TailJoins(parts, candidate) {
      var i :| 1 <= i < |parts| && JoinDots(parts[i..]) == candidate;
      assert longer[i + 1..] == parts[i..];
    }
  }

  lemma TailJoinsIgnoresFirst(first: string, parts: seq<string>, candidate: string)
    requires |parts| >= 1
    ensures TailJoins([first] + parts[1..], candidate) <==> TailJoins(parts, candidate)
  {
    var other := [first] + parts[1..];
    assert forall i | 1 <= i < |parts| :: other[i..] == parts[i..];
  }

  /** Joining all but the first few parts gives exactly what follows a dot. */
  lemma {:induction false} ProperSuffixes(s: string, candidate: string)
    ensures DotSuffix(s, candidate) <==> TailJoins(SplitDots(s), candidate)
  {
    if s != "" {
      hide JoinDots, TailJoins;
      ProperSuffixes(s[1..], candidate);
      var rest := SplitDots(s[1..]);
      if s[0] == '.' {
        TailJoinsCons("", rest, candidate);
        JoinAfterSplit(s[1..]);
        assert |candidate| + 1 == |s| ==> s[|s| - |candidate| - 1..] == "." + s[1..];
      } else {
        TailJoinsIgnoresFirst([s[0]] + rest[0], rest, candidate);
      }
      assert |candidate| + 1 < |s| ==> s[1..][|s[1..]| - |candidate| - 1..] == s[|s| - |candidate| - 1..];
    }
  }

  /** The suffix index answers every candidate exactly as the scan it replaces. */
  ghost predicate AnswersLikeScan(index: map<string, string>, order: seq<string>) {
    forall candidate :: ScanSuffix(order, candidate)
                     == if candidate in index then Some(index[candidate]) else None
  }

  lemma {:induction false} ScanAppend(order: seq<string>, name: string, candidate: string)
    ensures ScanSuffix(order + [name], candidate)
         == if ScanSuffix(order, candidate).Some? then ScanSuffix(order, candidate)
            else if DotSuffix(name, candidate) then Some(name) else None
  {
    if order != [] {
      assert (order + [name])[1..] == order[1..] + [name];
      ScanAppend(order[1..], name, candidate);
    }
  }

  method BuildSuffixIndex(order: seq<string>) returns (index: map<string, string>)
    ensures AnswersLikeScan(index, order)
  {
    index := map[];
    for m := 0 to |order|
      invariant AnswersLikeScan(index, order[..m])
    {
      var parts := SplitDots(order[m]);
      ghost var before := index;
      for i := 1 to |parts|
        invariant forall c ::
            (c in index <==> c in before || exists k | 1 <= k < i :: JoinDots(parts[k..]) == c)
        invariant forall c :: c in index ==> index[c] == if c in before then before[c] else order[m]
      {
        var suffix := JoinDots(parts[i..]);
        if suffix !in index {
          index := index[suffix := order[m]];
        }
      }
      assert order[..m + 1] == order[..m] + [order[m]];
      forall candidate
        ensures ScanSuffix(order[..m + 1], candidate)
             == if candidate in index then Some(index[candidate]) else None
      {
        ProperSuffixes(order[m], candidate);
        ScanAppend(order[..m], order[m], candidate);
      }
    }
    assert order[..|order|] == order;
  }

  // ---------------------------------------------------------------- symbols

  function ResolveStar(idx: Index, stars: seq<string>, name: string): Option<SymbolDefinition> {
    if stars == [] then None else
      var target := MatchRegistered(idx, stars[0]);
      if target.Some? && target.value != "" && target.value in idx.modules
          && name in idx.modules[target.value].definitions
      then Some(idx.modules[target.value].definitions[name])
      else ResolveStar(idx, stars[1..], name)
  }

  function ResolveImport(idx: Index, binding: ImportBinding, name: string): Option<SymbolDefinition> {
    var target := MatchRegistered(idx, binding.sourceModule);
    var lookup := if binding.importedName != "" then binding.importedName else name;
    if target.Some? && target.value != "" && target.value in idx.modules
        && lookup in idx.modules[target.value].definitions
    then Some(idx.modules[target.value].definitions[lookup])
    else None
  }

  /** Local definitions first, then explicit imports, then star imports. */
  function ResolveSymbol(idx: Index, callerMod: string, name: string): Option<SymbolDefinition> {
    if callerMod !in idx.modules then None else
      var m := idx.modules[callerMod];
      if name in m.definitions then Some(m.definitions[name]) else
        var imported := if name in m.imports then ResolveImport(idx, m.imports[name], name) else None;
        if imported.Some? then imported else ResolveStar(idx, m.starImports, name)
  }

  function FileModule(idx: Index, path: string): Option<string> {
    if path in idx.fileModule then Some(idx.fileModule[path]) else None
  }

  // ---------------------------------------------------------------- what a name resolves to

  ghost predicate Defines(idx: Index, mod: string, name: string, def: SymbolDefinition) {
    mod in idx.modules && name in idx.modules[mod].definitions && idx.modules[mod].definitions[name] == def
  }

  /** `from source import imported as name`, or `import source as name`, where the source is this module and has the
      definition. */
  ghost predicate Imports(idx: Index, mod: string, name: string, def: SymbolDefinition) {
    && mod in idx.modules && name in idx.modules[mod].imports
    && var binding := idx.modules[mod].imports[name];
       exists target ::
         && MatchRegistered(idx, binding.sourceModule) == Some(target) && target != ""
         && Defines(idx, target, if binding.importedName == "" then name else binding.importedName, def)
  }

  /** The `k`-th star import of the list brings the definition. */
  ghost predicate StarBrings(idx: Index, stars: seq<string>, k: nat, name: string, def: SymbolDefinition) {
    k < |stars| && exists target ::
      MatchRegistered(idx, stars[k]) == Some(target) && target != "" && Defines(idx, target, name, def)
  }

  lemma {:induction false} FirstStar(idx: Index, stars: seq<string>, name: string, def: SymbolDefinition)
    ensures ResolveStar(idx, stars, name) == Some(def) <==>
            exists k: nat ::
              && StarBrings(idx, stars, k, name, def)
              && forall j: nat, other | j < k :: !StarBrings(idx, stars, j, name, other)
  {
    hide MatchRegistered;
    if stars != [] {
      FirstStar(idx, stars[1..], name, def);
      forall j: nat, other
        ensures StarBrings(idx, stars, j + 1, name, other) <==> StarBrings(idx, stars[1..], j, name, other)
      {
      }
      StarAhead(idx, stars, name, def);
    }
  }

  lemma StarAhead(idx: Index, stars: seq<string>, name: string, def: SymbolDefinition)
    requires stars != []
    requires ResolveStar(idx, stars[1..], name) == Some(def) <==>
             exists k: nat ::
               && StarBrings(idx, stars[1..], k, name, def)
               && forall j: nat, other | j < k :: !StarBrings(idx, stars[1..], j, name, other)
    ensures ResolveStar(idx, stars, name) == Some(def) <==>
            exists k: nat ::
              && StarBrings(idx, stars, k, name, def)
              && forall j: nat, other | j < k :: !StarBrings(idx, stars, j, name, other)
  {
    hide MatchRegistered;
    var target := MatchRegistered(idx, stars[0]);
    var first := if target.Some? && target.value != "" && target.value in idx.modules
        && name in idx.modules[target.value].definitions
                 then Some(idx.modules[target.value].definitions[name]) else None;
    assert forall other :: StarBrings(idx, stars, 0, name, other) <==> first == Some(other);
    if ResolveStar(idx, stars, name) == Some(def) && first == None {
      var k: nat :| StarBrings(idx, stars[1..], k, name, def)
        && forall j: nat, other | j < k :: !StarBrings(idx, stars[1..], j, name, other);
      assert StarBrings(idx, stars, k + 1, name, def);
      forall j: nat, other | j < k + 1
        ensures !StarBrings(idx, stars, j, name, other)
      {
        if j > 0 { assert !StarBrings(idx, stars[1..], j - 1, name, other); }
      }
    }
    if k: nat :| StarBrings(idx, stars, k, name, def)
                 && forall j: nat, other | j < k :: !StarBrings(idx, stars, j, name, other) {
      if k > 0 {
        assert forall other :: !StarBrings(idx, stars, 0, name, other);
        assert first == None;
        assert StarBrings(idx, stars[1..], k - 1, name, def);
        forall j: nat, other | j < k - 1
          ensures !StarBrings(idx, stars[1..], j, name, other)
        {
          assert !StarBrings(idx, stars, j + 1, name, other);
        }
      }
    }
  }

  /** What a name resolves to: a definition of the module itself, else what an explicit import of it brings, else what
      the first star import that has it brings. */
  lemma ResolvesInOrder(idx: Index, mod: string, name: string, def: SymbolDefinition)
    ensures ResolveSymbol(idx, mod, name) == Some(def) <==>
            && mod in idx.modules
            && (|| Defines(idx, mod, name, def)
                || ((forall other :: !Defines(idx, mod, name, other))
                    && (|| Imports(idx, mod, name, def)
                        || ((forall other :: !Imports(idx, mod, name, other))
                            && exists k: nat ::
                                 && StarBrings(idx, idx.modules[mod].starImports, k, name, def)
                                 && forall j: nat, other | j < k ::
                                      !StarBrings(idx, idx.modules[mod].starImports, j, name, other)))))
  {
    hide MatchRegistered, ResolveStar, StarBrings;
    if mod in idx.modules {
      var m := idx.modules[mod];
      FirstStar(idx, m.starImports, name, def);
      if name in m.definitions {
        assert Defines(idx, mod, name, m.definitions[name]);
      }
      forall other {
        ImportIs(idx, mod, name, other);
      }
      var imported := if name in m.imports then ResolveImport(idx, m.imports[name], name) else None;
      if imported.Some? {
        ImportIs(idx, mod, name, imported.value);
      }
    }
  }

  lemma ImportIs(idx: Index, mod: string, name: string, def: SymbolDefinition)
    requires mod in idx.modules
    ensures Imports(idx, mod, name, def) <==>
            name in idx.modules[mod].imports && ResolveImport(idx, idx.modules[mod].imports[name], name) == Some(def)
  {
    hide MatchRegistered;
  }
}
