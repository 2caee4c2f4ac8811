/** The fix-verification loop over an analyser that maps a set of files to its report. */
module FixVerification {
  import opened Options
  import opened Sets
  import opened Text

  type Files = map<string, string>

  datatype Patch = Patch(file: string, original: string, replacement: string)

  datatype Endpoint = Endpoint(id: string, symbol: string, file: string)

  /** `steps` is the edge's transform split at its arrows. */
  datatype Edge = Edge(sourceId: string, targetId: string, kind: string, steps: seq<string>)

  datatype Report = Report(sources: seq<Endpoint>, sinks: seq<Endpoint>, edges: seq<Edge>)

  datatype Signature = Signature(source: string, sink: string, sourceFile: string, sinkFile: string,
                                 rootVariable: string)

  datatype Status = NotVerified | InvalidPatch | RegressionDetected | VerifiedFix

  datatype Verdict = Verdict(status: Status, patched: Option<Files>, regressions: Option<set<Signature>>)

  // ---------------------------------------------------------------- signatures

  /** The endpoint an id stands for; of several with one id, the last. */
  function Lookup(endpoints: seq<Endpoint>, id: string): Option<Endpoint>
    decreases |endpoints|
  {
    if endpoints == [] then None
    else if endpoints[|endpoints| - 1].id == id then Some(endpoints[|endpoints| - 1])
    else Lookup(endpoints[..|endpoints| - 1], id)
  }

  function RootVariable(steps: seq<string>): string {
    if steps == [] then "unknown"
    else if ':' in steps[0] && !("return" <= steps[0]) then steps[0]
    else RootVariable(steps[1..])
  }

  /** The first step that names a variable and is no return; "unknown" if there is none. */
  lemma {:induction false} RootVariableIs(steps: seq<string>, i: nat)
    requires i <= |steps| && forall k | 0 <= k < i :: ':' !in steps[k] || "return" <= steps[k]
    requires i < |steps| ==> ':' in steps[i] && !("return" <= steps[i])
    ensures RootVariable(steps) == if i < |steps| then steps[i] else "unknown"
  {
    if i > 0 {
      RootVariableIs(steps[1..], i - 1);
    }
  }

  /** The signature an edge contributes, if any. */
  function SignatureOf(report: Report, e: Edge): Option<Signature> {
    var source, sink := Lookup(report.sources, e.sourceId), Lookup(report.sinks, e.targetId);
    if source.Some? && sink.Some? && e.kind != "CLEAN" && "SNK" <= e.targetId then
      Some(Signature(source.value.symbol, sink.value.symbol, source.value.file, sink.value.file, RootVariable(e.steps)))
    else None
  }

  function Signatures(report: Report): set<Signature> {
    set e | e in report.edges && SignatureOf(report, e).Some? :: SignatureOf(report, e).value
  }

  method ById(endpoints: seq<Endpoint>) returns (table: map<string, Endpoint>)
    ensures forall id :: if id in table then Lookup(endpoints, id) == Some(table[id]) else Lookup(endpoints, id) == None
  {
    table := map[];
    for i := 0 to |endpoints|
      invariant forall id :: if id in table then Lookup(endpoints[..i], id) == Some(table[id])
                             else Lookup(endpoints[..i], id) == None
    {
      assert endpoints[..i + 1][..i] == endpoints[..i];
      table := table[endpoints[i].id := endpoints[i]];
    }
    assert endpoints[..|endpoints|] == endpoints;
  }

  method CollectSignatures(report: Report) returns (signatures: set<Signature>)
    ensures signatures == Signatures(report)
  {
    hide Lookup, RootVariable;
    var sources := ById(report.sources);
    var sinks := ById(report.sinks);
    signatures := {};
    for i := 0 to |report.edges|
      invariant forall s ::
        (s in signatures <==> exists k | 0 <= k < i :: SignatureOf(report, report.edges[k]) == Some(s))
    {
      var e := report.edges[i];
      if e.sourceId in sources && e.targetId in sinks && e.kind != "CLEAN" && "SNK" <= e.targetId {
        var source, sink := sources[e.sourceId], sinks[e.targetId];
        signatures := signatures
          + {Signature(source.symbol, sink.symbol, source.file, sink.file, RootVariable(e.steps))};
      }
    }
    forall s
      ensures s in signatures <==> s in Signatures(report)
    {
      if s in Signatures(report) {
        var e :| e in report.edges && SignatureOf(report, e) == Some(s);
        var k :| 0 <= k < |report.edges| && report.edges[k] == e;
      }
    }
  }

  // ---------------------------------------------------------------- the patch

  /** `s.replace(part, put, 1)` */
  function ReplaceFirst(s: string, part: string, put: string): string {
    if part <= s then put + s[|part|..]
    else if s == "" then ""
    else [s[0]] + ReplaceFirst(s[1..], part, put)
  }

  /** The snippet stands at this place and at none before it, and the replacement is put there; the rest of the
      text stays. */
  ghost predicate ReplacedAt(s: string, part: string, put: string, at: nat) {
    && at + |part| <= |s| && s[at..at + |part|] == part
    && ReplaceFirst(s, part, put) == s[..at] + put + s[at + |part|..]
    && forall i | 0 <= i < at :: !(part <= s[i..])
  }

  /** The patch rewrites one place: the leftmost occurrence of the snippet. */
  lemma {:induction false} ReplaceFirstIsLocal(s: string, part: string, put: string) returns (at: nat)
    requires Contains(s, part)
    ensures ReplacedAt(s, part, put, at)
  {
    hide Contains;
    if part <= s {
      at := 0;
      assert s[..0] + put == put;
    } else {
      hide ReplacedAt;
      ContainsLater(s, part);
      var later := ReplaceFirstIsLocal(s[1..], part, put);
      at := later + 1;
      ReplacedLater(s, part, put, later);
    }
  }

  lemma ReplacedLater(s: string, part: string, put: string, later: nat)
    requires s != "" && !(part <= s) && ReplacedAt(s[1..], part, put, later)
    ensures ReplacedAt(s, part, put, later + 1)
  {
    var at, rest := later + 1, s[1..];
    assert rest[later..later + |part|] == s[at..at + |part|];
    PutLater(s, later, later + |part|, put);
    forall i | 0 <= i < at
      ensures !(part <= s[i..])
    {
      if i > 0 {
        assert s[i..] == rest[i - 1..];
      } else {
        assert s[0..] == s;
      }
    }
  }

  lemma PutLater(s: string, from: nat, to: nat, put: string)
    requires s != "" && from <= to < |s|
    ensures [s[0]] + (s[1..][..from] + put + s[1..][to..]) == s[..from + 1] + put + s[to + 1..]
  {
    assert s[..from + 1] == [s[0]] + s[1..][..from];
    assert s[1..][to..] == s[to + 1..];
  }

  lemma ContainsLater(s: string, part: string)
    requires Contains(s, part) && !(part <= s)
    ensures s != "" && Contains(s[1..], part)
  {
    var i :| 0 <= i <= |s| && part <= s[i..];
    assert s[0..] == s;
    assert s[1..][i - 1..] == s[i..];
  }

  function Patched(files: Files, patch: Patch): Files
    requires patch.file in files
  {
    files[patch.file := ReplaceFirst(files[patch.file], patch.original, patch.replacement)]
  }

  predicate Applies(files: Files, patch: Patch) {
    patch.original != patch.replacement && patch.file in files && Contains(files[patch.file], patch.original)
  }

  predicate AllParse(files: Files, parses: string -> bool) {
    forall path | path in files :: parses(files[path])
  }

  /** `verify_fix`.  The verdict is a verified fix exactly when the patch applies, every file still
      parses, and what the analyser finds afterwards was found before and is not the target. */
  method VerifyFix(files: Files, patch: Patch, target: Signature, parses: string -> bool, analyze: Files -> Report)
    returns (v: Verdict)
    ensures v.status == VerifiedFix <==>
              && Applies(files, patch) && AllParse(Patched(files, patch), parses)
              && Signatures(analyze(Patched(files, patch))) <= Signatures(analyze(files)) - {target}
    ensures v.status == InvalidPatch <==>
              && patch.original != patch.replacement
              && (Applies(files, patch) ==> !AllParse(Patched(files, patch), parses))
    ensures v.status == RegressionDetected <==>
              && Applies(files, patch) && AllParse(Patched(files, patch), parses)
              && target !in Signatures(analyze(Patched(files, patch)))
              && v.regressions == Some(Signatures(analyze(Patched(files, patch))) - Signatures(analyze(files)))
              && v.regressions.value != {}
    ensures v.patched.Some? ==> Applies(files, patch) && v.patched.value == Patched(files, patch)
    ensures v.status in {VerifiedFix, RegressionDetected} ==> v.patched.Some?
  {
    hide Signatures, Contains, ReplaceFirst;
    if patch.original == patch.replacement {
      return Verdict(NotVerified, None, None);
    }
    if patch.file !in files {
      return Verdict(InvalidPatch, None, None);
    }
    if !Contains(files[patch.file], patch.original) {
      return Verdict(InvalidPatch, None, None);
    }
    var patched := files[patch.file := ReplaceFirst(files[patch.file], patch.original, patch.replacement)];
    if !AllParse(patched, parses) {
      return Verdict(InvalidPatch, None, None);
    }
    var before := CollectSignatures(analyze(files));
    var after := CollectSignatures(analyze(patched));
    if target in after {
      return Verdict(NotVerified, Some(patched), None);
    }
    var regressions := after - before;
    if regressions != {} {
      return Verdict(RegressionDetected, Some(patched), Some(regressions));
    }
    forall s | s in after
      ensures s in before
    {
      assert s in before || s in regressions;
    }
    return Verdict(VerifiedFix, Some(patched), None);
  }

  // ---------------------------------------------------------------- chains of verified fixes

  datatype Fix = Fix(patch: Patch, target: Signature)

  ghost predicate Verified(files: Files, fix: Fix, parses: string -> bool, analyze: Files -> Report) {
    && Applies(files, fix.patch) && AllParse(Patched(files, fix.patch), parses)
    && Signatures(analyze(Patched(files, fix.patch))) <= Signatures(analyze(files)) - {fix.target}
  }

  /** Verified fixes applied one after the other, each for a target that was still reported. */
  ghost predicate Chain(files: Files, fixes: seq<Fix>, parses: string -> bool, analyze: Files -> Report)
    decreases fixes
  {
    fixes == [] || (
      && Verified(files, fixes[0], parses, analyze)
      && fixes[0].target in Signatures(analyze(files))
      && Chain(Patched(files, fixes[0].patch), fixes[1..], parses, analyze))
  }

  ghost function After(files: Files, fixes: seq<Fix>): Files
    decreases fixes
  {
    if fixes == [] || fixes[0].patch.file !in files then files else After(Patched(files, fixes[0].patch), fixes[1..])
  }

  /** Along a chain every step strictly shrinks what is reported, so a chain is no longer than the
      initial number of findings; it ends without any of its targets, adds nothing, and leaves alone
      every file that no patch names. */
  lemma {:induction false} ChainShrinks(files: Files, fixes: seq<Fix>, parses: string -> bool, analyze: Files -> Report)
    requires Chain(files, fixes, parses, analyze)
    ensures var last := Signatures(analyze(After(files, fixes)));
      && |last| + |fixes| <= |Signatures(analyze(files))|
      && last <= Signatures(analyze(files))
      && forall fix | fix in fixes :: fix.target !in last
    ensures After(files, fixes).Keys == files.Keys
    ensures forall path | path in files && (forall fix | fix in fixes :: fix.patch.file != path) ::
              After(files, fixes)[path] == files[path]
    decreases fixes
  {
    hide Signatures, Contains, ReplaceFirst, AllParse;
    if fixes != [] {
      var first := fixes[0];
      var next := Patched(files, first.patch);
      assert After(files, fixes) == After(next, fixes[1..]);
      ChainShrinks(next, fixes[1..], parses, analyze);
      ProperSubsetIsSmaller(Signatures(analyze(next)), Signatures(analyze(files)));
      assert forall fix | fix in fixes :: fix == first || fix in fixes[1..];
      assert forall fix | fix in fixes[1..] :: fix in fixes;
    }
  }

  /** Whatever the analyser, as long as it reports `reported` of these files, a verified fix of the target leaves
      strictly less. */
  ghost predicate AlwaysShrinks(files: Files, target: Signature, reported: set<Signature>) {
    forall patch, parses, analyze: Files -> Report |
      Signatures(analyze(files)) == reported && Verified(files, Fix(patch, target), parses, analyze) ::
      Signatures(analyze(Patched(files, patch))) < reported
  }

  /** Exactly when a verified fix can be trusted to remove something: its target was reported.  The code does not
      check that, and of every other target there is a verified fix that removes nothing. */
  lemma ShrinksIffTargetWasThere(files: Files, target: Signature, report: Report)
    requires files != map[]
    ensures AlwaysShrinks(files, target, Signatures(report)) <==> target in Signatures(report)
  {
    hide Signatures;
    if target !in Signatures(report) {
      var patch := EmptyPatchIsVerified(files, target, report);
      var analyze: Files -> Report := (f: Files) => report;
      var parses: string -> bool := (s: string) => true;
      assert Signatures(analyze(files)) == Signatures(report) && Verified(files, Fix(patch, target), parses, analyze);
      assert !(Signatures(analyze(Patched(files, patch))) < Signatures(report));
    }
  }

  /** A verified fix that changes a file and not the report. */
  lemma EmptyPatchIsVerified(files: Files, target: Signature, report: Report) returns (patch: Patch)
    requires files != map[] && target !in Signatures(report)
    ensures Verified(files, Fix(patch, target), (s: string) => true, (f: Files) => report)
  {
    hide Signatures, ReplaceFirst;
    var file :| file in files;
    patch := Patch(file, "", "x");
    assert "" <= files[file][0..];
  }

  lemma AbsentTargetIsVerified()
    ensures exists files, fix, parses, analyze ::
      && Verified(files, fix, parses, analyze)
      && Signatures(analyze(Patched(files, fix.patch))) == Signatures(analyze(files))
      && fix.target !in Signatures(analyze(files))
  {
    var files: Files := map["a.py" := "x"];
    var fix := Fix(Patch("a.py", "x", "y"), Signature("s", "t", "a.py", "a.py", "unknown"));
    var parses: string -> bool := (s: string) => true;
    var analyze: Files -> Report := (f: Files) => Report([], [], []);
    assert "x" <= "x"[0..];
    assert Signatures(analyze(files)) == {};
    assert Signatures(analyze(Patched(files, fix.patch))) == {};
    assert Verified(files, fix, parses, analyze);
  }
}
