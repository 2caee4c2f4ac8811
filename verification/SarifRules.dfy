/** The driver rule table that `to_sarif` keeps while it emits SAST, SCA and secret results. */
module SarifRules {
  import opened Options
  import opened Sequences
  import opened Text
  import opened SarifRanking
  import opened SarifBounding

  /** One finding of a scan: its rule (a CWE or an advisory id) and where it is. */
  datatype ScanFinding = ScanFinding(rule: string, file: string, line: int, level: string, snippet: string)

  const SECRET_RULE: string := "CWE-798"

  /** `CWE_CANONICAL_ROLLUP` */
  function CanonicalCwe(cwe: string): string {
    match cwe
    case "CWE-489" => "CWE-668"
    case "CWE-918" => "CWE-20"
    case "CWE-79" => "CWE-96"
    case "CWE-1336" => "CWE-116"
    case "CWE-605" => "CWE-200"
    case _ => cwe
  }

  ghost predicate DistinctRules(rules: seq<string>) {
    forall i, j | 0 <= i < j < |rules| :: rules[i] != rules[j]
  }

  /** The index table inverts the list of driver rules. */
  ghost predicate Inverts(index: map<string, nat>, rules: seq<string>) {
    && DistinctRules(rules)
    && (forall id :: id in index <==> id in rules)
    && forall id | id in index :: index[id] < |rules| && rules[index[id]] == id
  }

  /** `ruleIndex` is in range and names the driver rule with the result's id
      (section 3.27.6 of SARIF v2.1.0). */
  ghost predicate PointsAtItsRule(rules: seq<string>, r: SarifResult) {
    0 <= r.ruleIndex < |rules| && rules[r.ruleIndex] == r.ruleId
  }

  ghost predicate AllPoint(rules: seq<string>, results: seq<SarifResult>) {
    forall r | r in results :: PointsAtItsRule(rules, r)
  }

  /** A result reports a finding under a rule and at a level. */
  ghost predicate Reports(r: SarifResult, rule: string, f: ScanFinding, level: string) {
    r.ruleId == rule && r.uri == f.file && r.startLine == f.line && r.level == level && r.snippet == f.snippet
  }

  /** From position `from` on, the results report the findings in order, each under its rule. */
  ghost predicate ReportsAll(results: seq<SarifResult>, from: nat, findings: seq<ScanFinding>,
                             rule: ScanFinding -> string, level: ScanFinding -> string) {
    from + |findings| <= |results|
    && forall k | 0 <= k < |findings| :: Reports(results[from + k], rule(findings[k]), findings[k], level(findings[k]))
  }

  function OwnLevel(f: ScanFinding): string { f.level }

  function SastRule(f: ScanFinding): string { CanonicalCwe(f.rule) }

  function ScaRule(f: ScanFinding): string { f.rule }

  function SecretRule(f: ScanFinding): string { SECRET_RULE }

  function SecretLevel(f: ScanFinding): string { "error" }

  function InsertId(id: string, sorted: seq<string>): (r: seq<string>)
    ensures multiset(r) == multiset(sorted) + multiset{id}
  {
    if sorted == [] || Lex(id, sorted[0]) then [id] + sorted
    else
      assert sorted == [sorted[0]] + sorted[1..];
      [sorted[0]] + InsertId(id, sorted[1..])
  }

  /** `sorted(keys)` */
  function SortedIds(ids: seq<string>): (r: seq<string>)
    ensures multiset(r) == multiset(ids)
  {
    if ids == [] then [] else
      assert ids == [ids[0]] + ids[1..];
      InsertId(ids[0], SortedIds(ids[1..]))
  }

  class SarifRuleTable {
    var rules: seq<string>
    var index: map<string, nat>
    var results: seq<SarifResult>

    /** Every result emitted so far points at its rule. */
    ghost predicate Valid()
      reads this
    {
      Inverts(index, rules) && AllPoint(rules, results)
    }

    /** The enabled rules; they come from a table keyed by id, so they are distinct. */
    constructor (enabled: seq<string>)
      requires DistinctRules(enabled)
      ensures Valid() && rules == enabled && results == []
    {
      var table: map<string, nat> := map[];
      for i := 0 to |enabled|
        invariant forall id :: id in table <==> id in enabled[..i]
        invariant forall id | id in table :: table[id] < i && enabled[table[id]] == id
      {
        table := table[enabled[i] := i];
      }
      assert enabled[..|enabled|] == enabled;
      rules, index, results := enabled, table, [];
    }

    /** `rule_index_by_id[id] = len(driver_rules); driver_rules.append(...)` */
    method AddRule(id: string)
      requires Valid() && id !in index
      modifies this`rules, this`index
      ensures Valid() && rules == old(rules) + [id] && id in index
    {
      index := index[id := |rules|];
      rules := rules + [id];
      assert forall x :: x in rules <==> x in old(rules) || x == id;
    }

    method Emit(id: string, f: ScanFinding, level: string)
      requires Valid() && id in index
      modifies this`results
      ensures Valid() && |results| == |old(results)| + 1 && old(results) <= results
      ensures Reports(results[|old(results)|], id, f, level)
    {
      var r := SarifResult(id, f.file, f.line, level, index[id], f.snippet);
      results := results + [r];
      assert forall x | x in results :: x in old(results) || x == r;
    }

    /** The SAST loop: a rule that is missing is appended on the spot. */
    method EmitSast(findings: seq<ScanFinding>)
      requires Valid()
      modifies this
      ensures Valid() && old(rules) <= rules && |results| == |old(results)| + |findings| && old(results) <= results
      ensures ReportsAll(results, |old(results)|, findings, SastRule, OwnLevel)
    {
      hide Inverts, AllPoint, Reports;
      for i := 0 to |findings|
        invariant Valid() && old(rules) <= rules && |results| == |old(results)| + i
        invariant old(results) <= results && ReportsAll(results, |old(results)|, findings[..i], SastRule, OwnLevel)
      {
        var cwe := CanonicalCwe(findings[i].rule);
        if cwe !in index {
          AddRule(cwe);
        }
        Emit(cwe, findings[i], findings[i].level);
      }
    }

    /** The SCA loops: missing advisories are collected, appended in sorted order, and only then
        are the results emitted. */
    method EmitSca(findings: seq<ScanFinding>)
      requires Valid()
      modifies this
      ensures Valid() && old(rules) <= rules && |results| == |old(results)| + |findings| && old(results) <= results
      ensures ReportsAll(results, |old(results)|, findings, ScaRule, OwnLevel)
    {
      hide Inverts, AllPoint, Reports, SortedIds;
      var missing: seq<string> := [];
      for i := 0 to |findings|
        invariant DistinctRules(missing)
        invariant forall id | id in missing :: id !in index
        invariant forall k | 0 <= k < i :: findings[k].rule in index || findings[k].rule in missing
      {
        if findings[i].rule !in index && findings[i].rule !in missing {
          missing := missing + [findings[i].rule];
        }
      }
      AddSorted(missing);
      for i := 0 to |findings|
        invariant Valid() && rules == old(rules) + SortedIds(missing) && |results| == |old(results)| + i
        invariant old(results) <= results && ReportsAll(results, |old(results)|, findings[..i], ScaRule, OwnLevel)
        invariant forall k | 0 <= k < |findings| :: findings[k].rule in index
      {
        Emit(findings[i].rule, findings[i], findings[i].level);
      }
    }

    method AddSorted(missing: seq<string>)
      requires Valid() && DistinctRules(missing)
      requires forall id | id in missing :: id !in index
      modifies this`rules, this`index
      ensures Valid() && rules == old(rules) + SortedIds(missing)
      ensures forall id | id in missing || id in old(index) :: id in index
    {
      hide Lex, InsertId, SortedIds;
      var sorted := SortedIds(missing);
      SortedIdsDistinct(missing);
      for i := 0 to |sorted|
        invariant Valid() && rules == old(rules) + sorted[..i]
        invariant forall id :: id in index <==> id in old(index) || id in sorted[..i]
      {
        assert sorted[i] in multiset(sorted) && sorted[i] in missing;
        assert forall a | 0 <= a < i :: sorted[..i][a] == sorted[a] && sorted[a] != sorted[i];
        var id := sorted[i];
        ghost var before := index;
        AddRule(id);
        assert sorted[..i + 1] == sorted[..i] + [id];
        Assoc(old(rules), sorted[..i], [id]);
        assert forall x :: x in index <==> x in rules;
      }
      assert sorted[..|sorted|] == sorted;
      forall id | id in missing
        ensures id in sorted
      {
        assert id in multiset(missing);
      }
    }

    /** The secret loop. */
    method EmitSecrets(findings: seq<ScanFinding>)
      requires Valid()
      modifies this
      ensures Valid() && old(rules) <= rules && |results| == |old(results)| + |findings| && old(results) <= results
      ensures ReportsAll(results, |old(results)|, findings, SecretRule, SecretLevel)
    {
      hide Inverts, AllPoint, Reports;
      if findings != [] && SECRET_RULE !in index {
        AddRule(SECRET_RULE);
      }
      for i := 0 to |findings|
        invariant Valid() && old(rules) <= rules && |results| == |old(results)| + i
        invariant old(results) <= results && ReportsAll(results, |old(results)|, findings[..i], SecretRule, SecretLevel)
        invariant findings != [] ==> SECRET_RULE in index
      {
        Emit(SECRET_RULE, findings[i], "error");
      }
    }
  }

  lemma SortedIdsDistinct(ids: seq<string>)
    requires DistinctRules(ids)
    ensures DistinctRules(SortedIds(ids))
  {
    hide SortedIds;
    var sorted := SortedIds(ids);
    forall a, b | 0 <= a < b < |sorted|
      ensures sorted[a] != sorted[b]
    {
      AtMostOnce(ids, sorted[a]);
      assert sorted == sorted[..b] + [sorted[b]] + sorted[b + 1..];
      assert sorted[a] in sorted[..b];
    }
  }

  lemma {:induction false} AtMostOnce(ids: seq<string>, id: string)
    requires DistinctRules(ids)
    ensures multiset(ids)[id] <= 1
  {
    if ids != [] {
      AtMostOnce(ids[1..], id);
      assert ids == [ids[0]] + ids[1..];
      assert forall i | 0 <= i < |ids[1..]| :: ids[1..][i] == ids[i + 1];
      assert ids[0] !in ids[1..];
    }
  }

  // ---------------------------------------------------------------- the rule part of `to_sarif`

  /** The three loops in order: the document that goes to the bounding has distinct driver rules,
      reports every finding once and in order under its own rule, and each of its results points at
      the driver rule with its own id. */
  method SarifResults(enabled: seq<string>, sast: seq<ScanFinding>, sca: seq<ScanFinding>, secrets: seq<ScanFinding>)
    returns (rules: seq<string>, results: seq<SarifResult>)
    requires DistinctRules(enabled)
    ensures enabled <= rules && DistinctRules(rules) && AllPoint(rules, results)
    ensures |results| == |sast| + |sca| + |secrets|
    ensures ReportsAll(results, 0, sast, SastRule, OwnLevel)
    ensures ReportsAll(results, |sast|, sca, ScaRule, OwnLevel)
    ensures ReportsAll(results, |sast| + |sca|, secrets, SecretRule, SecretLevel)
  {
    hide AllPoint, Reports;
    var table := new SarifRuleTable(enabled);
    table.EmitSast(sast);
    ghost var first := table.results;
    table.EmitSca(sca);
    ghost var second := table.results;
    table.EmitSecrets(secrets);
    rules, results := table.rules, table.results;
    assert forall k | 0 <= k < |first| :: second[k] == first[k];
    assert forall k | 0 <= k < |second| :: results[k] == second[k];
  }

  lemma {:induction false} StripKeepsPointers(rules: seq<string>, results: seq<SarifResult>)
    requires AllPoint(rules, results)
    ensures AllPoint(rules, StripAll(results))
  {
    hide Priority;
    if results != [] {
      assert AllPoint(rules, results[1..]);
      StripKeepsPointers(rules, results[1..]);
      assert PointsAtItsRule(rules, results[0]) && Strip(results[0]).ruleId == results[0].ruleId;
      var rest := StripAll(results[1..]);
      assert forall r | r in [Strip(results[0])] + rest :: r == Strip(results[0]) || r in rest;
    }
  }

  lemma CutKeepsPointers(rules: seq<string>, original: seq<SarifResult>, kept: seq<SarifResult>)
    requires AllPoint(rules, original) && IsBestCut(original, kept)
    ensures AllPoint(rules, kept)
  {
    hide FirstOccurrences, Ranked, PointsAtItsRule;
    FirstOccurrencesAreDistinct(original);
    var deduped := FirstOccurrences(original);
    if kept != deduped {
      var k: nat :| k <= |deduped| && kept == Ranked(deduped)[..k];
      RankedIsStableSort(deduped);
      forall r | r in kept
        ensures PointsAtItsRule(rules, r)
      {
        assert r in multiset(Ranked(deduped));
      }
    }
  }

  /** Bounding the document afterwards only removes results, so the pointers stay right. */
  lemma BoundingKeepsPointers(rules: seq<string>, doc: Document, size: Document -> nat, budget: nat, cap: Option<nat>,
                              n: nat, i: nat)
    requires i < |doc| && AllPoint(rules, doc[i].results)
    ensures var bounded := ShedTimes(Prepared(doc, size, budget, cap), n);
      i < |bounded| && AllPoint(rules, bounded[i].results)
  {
    hide AllPoint, Prepared, ShedTimes, IsBestCut;
    BoundedKeepsBest(doc, size, budget, cap, n);
    var kept := ShedTimes(Prepared(doc, size, budget, cap), n)[i].results;
    var whole :| IsBestCut(doc[i].results, whole) && (kept == whole || kept == StripAll(whole));
    CutKeepsPointers(rules, doc[i].results, whole);
    StripKeepsPointers(rules, whole);
  }

  // ---------------------------------------------------------------- rolled-up rules repeat

  /** A hygiene note and, at the same place, an exploitable request forgery: rolled up they share an identity,
      and removing duplicates keeps the note. */
  lemma RollupHidesTheError(results: seq<SarifResult>, file: string, line: int, snippet: string)
    requires
      var f := ScanFinding("CWE-20", file, line, "note", snippet);
      var g := ScanFinding("CWE-918", file, line, "error", snippet);
      |results| == 2 && ReportsAll(results, 0, [f, g], SastRule, OwnLevel)
    ensures !FirstIsBest(results) && Capped(results, None) == [results[0]]
    ensures results[0].level == "note" && results[1].level == "error"
  {
    hide Capped;
    var f := ScanFinding("CWE-20", file, line, "note", snippet);
    var g := ScanFinding("CWE-918", file, line, "error", snippet);
    var findings := [f, g];
    assert findings[0] == f && findings[1] == g;
    assert Reports(results[0 + 0], SastRule(findings[0]), f, OwnLevel(findings[0]));
    assert Reports(results[0 + 1], SastRule(findings[1]), g, OwnLevel(findings[1]));
    LevelsApart();
    assert IsFirst(results, 0) && IdentityOf(results[0]) == IdentityOf(results[1]);
    assert !AtMost(Priority(results[0]), Priority(results[1]));
    assert results == [results[0], results[1]];
    SameIdentityGoes(results[0], results[1]);
  }

  lemma LevelsApart()
    ensures LevelRank(Lower("note")) == 2 && LevelRank(Lower("error")) == 0
  {
    assert Lower("note") == "note" && Lower("error") == "error" by {
      assert "note"[1..] == "ote" && "ote"[1..] == "te" && "te"[1..] == "e" && "e"[1..] == "";
      assert "error"[1..] == "rror" && "rror"[1..] == "ror" && "ror"[1..] == "or" && "or"[1..] == "r" && "r"[1..] == "";
    }
  }

  lemma SameIdentityGoes(a: SarifResult, c: SarifResult)
    requires IdentityOf(a) == IdentityOf(c)
    ensures Capped([a, c], None) == [a]
  {
    hide IdentityOf;
    TwoOfOne(a, c);
  }
}
