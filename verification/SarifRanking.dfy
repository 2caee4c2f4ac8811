/** The order in which a SARIF document sheds results, and duplicate removal. */
module SarifRanking {
  import opened Sequences
  import opened Text

  /** One SARIF result: what identity and priority read, the rule index, and its snippet. */
  datatype SarifResult = SarifResult(
    ruleId: string, uri: string, startLine: int, level: string, ruleIndex: int, snippet: string)

  datatype Identity = Identity(ruleId: string, uri: string, startLine: int)

  function IdentityOf(r: SarifResult): Identity {
    Identity(r.ruleId, r.uri, r.startLine)
  }

  function LevelRank(level: string): nat {
    if level == "error" then 0
    else if level == "warning" then 1
    else if level == "note" then 2
    else if level == "none" then 3
    else 1
  }

  function SpecificityTier(cwe: string): nat {
    if cwe in {"CWE-89", "CWE-78", "CWE-79", "CWE-94", "CWE-22", "CWE-918", "CWE-916", "CWE-384"} then 1
    else if cwe in {"CWE-20", "CWE-707", "CWE-116", "CWE-693"} then 3
    else 2
  }

  /** Severity first, specificity second. */
  function Priority(r: SarifResult): (nat, nat) {
    (LevelRank(Lower(r.level)), SpecificityTier(r.ruleId))
  }

  predicate AtMost(a: (nat, nat), b: (nat, nat)) {
    a.0 < b.0 || (a.0 == b.0 && a.1 <= b.1)
  }

  /** Errors come before warnings, and before levels that are none, then notes, then the level `none`. */
  predicate Severer(a: string, b: string) {
    || (a == "error" && b != "error")
    || (a !in {"error", "note", "none"} && b in {"note", "none"})
    || (a == "note" && b == "none")
  }

  /** Exploitable sinks come before everything else, and broad hygiene after it. */
  predicate MoreSpecific(a: string, b: string) {
    var sinks := {"CWE-89", "CWE-78", "CWE-79", "CWE-94", "CWE-22", "CWE-918", "CWE-916", "CWE-384"};
    var hygiene := {"CWE-20", "CWE-707", "CWE-116", "CWE-693"};
    (a in sinks && b !in sinks) || (a !in hygiene && b in hygiene)
  }

  /** One result is shed before another exactly if it is less severe, or as severe and less specific. */
  lemma PriorityMeans(a: SarifResult, b: SarifResult)
    ensures AtMost(Priority(a), Priority(b)) <==>
            || Severer(Lower(a.level), Lower(b.level))
            || (!Severer(Lower(b.level), Lower(a.level)) && !MoreSpecific(b.ruleId, a.ruleId))
  {
    hide Lower;
  }

  // ---------------------------------------------------------------- the stable sort

  function Insert(r: SarifResult, sorted: seq<SarifResult>): seq<SarifResult> {
    if sorted == [] || AtMost(Priority(r), Priority(sorted[0])) then [r] + sorted
    else [sorted[0]] + Insert(r, sorted[1..])
  }

  /** `sorted(results, key=_result_priority)` */
  function Ranked(results: seq<SarifResult>): (ranked: seq<SarifResult>)
    ensures |ranked| == |results|
  {
    if results == [] then [] else
      InsertLength(results[0], Ranked(results[1..]));
      Insert(results[0], Ranked(results[1..]))
  }

  lemma {:induction false} InsertLength(r: SarifResult, sorted: seq<SarifResult>)
    ensures |Insert(r, sorted)| == |sorted| + 1
  {
    hide Priority;
    if sorted != [] { InsertLength(r, sorted[1..]); }
  }

  ghost predicate InOrder(results: seq<SarifResult>) {
    forall i, j | 0 <= i < j < |results| :: AtMost(Priority(results[i]), Priority(results[j]))
  }

  /** The results of one priority, in the order of the list. */
  function OfPriority(p: (nat, nat), results: seq<SarifResult>): seq<SarifResult> {
    if results == [] then []
    else (if Priority(results[0]) == p then [results[0]] else []) + OfPriority(p, results[1..])
  }

  lemma {:induction false} InsertKeepsOrder(r: SarifResult, sorted: seq<SarifResult>)
    requires InOrder(sorted)
    ensures InOrder(Insert(r, sorted)) && multiset(Insert(r, sorted)) == multiset([r] + sorted)
  {
    hide Priority;
    if sorted != [] && !AtMost(Priority(r), Priority(sorted[0])) {
      InsertKeepsOrder(r, sorted[1..]);
      var rest := Insert(r, sorted[1..]);
      assert sorted == [sorted[0]] + sorted[1..];
      forall x | x in rest
        ensures AtMost(Priority(sorted[0]), Priority(x))
      {
        assert x in multiset(rest);
        assert x in [r] + sorted[1..];
      }
    }
  }

  lemma {:induction false} InsertIsStable(r: SarifResult, sorted: seq<SarifResult>, p: (nat, nat))
    requires InOrder(sorted)
    ensures OfPriority(p, Insert(r, sorted)) == OfPriority(p, [r] + sorted)
  {
    hide Priority;
    assert ([r] + sorted)[1..] == sorted;
    if sorted != [] && !AtMost(Priority(r), Priority(sorted[0])) {
      var rest := Insert(r, sorted[1..]);
      InsertIsStable(r, sorted[1..], p);
      assert ([sorted[0]] + rest)[1..] == rest && ([r] + sorted[1..])[1..] == sorted[1..];
      assert Priority(r) == p ==> Priority(sorted[0]) != p;
    }
  }

  /** The ranking is a stable sort: in order, a permutation, and results of equal priority keep
      their discovery order. */
  lemma {:induction false} RankedIsStableSort(results: seq<SarifResult>)
    ensures InOrder(Ranked(results)) && multiset(Ranked(results)) == multiset(results)
    ensures forall p :: OfPriority(p, Ranked(results)) == OfPriority(p, results)
  {
    hide Priority, Insert, OfPriority;
    if results != [] {
      RankedIsStableSort(results[1..]);
      InsertKeepsOrder(results[0], Ranked(results[1..]));
      SplitFirst(results);
      forall p
        ensures OfPriority(p, Ranked(results)) == OfPriority(p, results)
      {
        InsertIsStable(results[0], Ranked(results[1..]), p);
        OfPriorityFirst(p, results[0], Ranked(results[1..]));
        OfPriorityFirst(p, results[0], results[1..]);
      }
    }
  }

  lemma OfPriorityFirst(p: (nat, nat), r: SarifResult, rest: seq<SarifResult>)
    ensures OfPriority(p, [r] + rest) == (if Priority(r) == p then [r] else []) + OfPriority(p, rest)
  {
    assert ([r] + rest)[1..] == rest;
  }

  lemma {:induction false} OfPriorityAppend(p: (nat, nat), a: seq<SarifResult>, b: seq<SarifResult>)
    ensures OfPriority(p, a + b) == OfPriority(p, a) + OfPriority(p, b)
  {
    hide Priority;
    if a == [] {
      assert a + b == b;
    } else {
      assert (a + b)[1..] == a[1..] + b;
      OfPriorityAppend(p, a[1..], b);
      Assoc(if Priority(a[0]) == p then [a[0]] else [], OfPriority(p, a[1..]), OfPriority(p, b));
    }
  }

  lemma {:induction false} RankingOrdered(results: seq<SarifResult>)
    requires InOrder(results)
    ensures Ranked(results) == results
  {
    hide Priority;
    if results != [] {
      assert InOrder(results[1..]);
      RankingOrdered(results[1..]);
    }
  }

  /** Cutting a ranking and ranking again changes nothing: repeated shedding is one cut. */
  lemma CutOfRanking(results: seq<SarifResult>, k: nat)
    requires k <= |results|
    ensures Ranked(Ranked(results)[..k]) == Ranked(results)[..k]
  {
    hide Priority, Ranked;
    RankedIsStableSort(results);
    RankingOrdered(Ranked(results)[..k]);
  }

  /** The kept results of a cut are never of worse priority than a shed one, and within a priority
      the earliest discovered are kept. */
  lemma CutKeepsBest(results: seq<SarifResult>, k: nat)
    requires k <= |results|
    ensures var kept, shed := Ranked(results)[..k], Ranked(results)[k..];
      && multiset(kept) + multiset(shed) == multiset(results)
      && (forall a, b | a in kept && b in shed :: AtMost(Priority(a), Priority(b)))
      && forall p :: OfPriority(p, kept) + OfPriority(p, shed) == OfPriority(p, results)
  {
    hide Priority, Ranked, OfPriority;
    RankedIsStableSort(results);
    var kept, shed := Ranked(results)[..k], Ranked(results)[k..];
    assert Ranked(results) == kept + shed;
    forall p {
      OfPriorityAppend(p, kept, shed);
    }
    forall a, b | a in kept && b in shed
      ensures AtMost(Priority(a), Priority(b))
    {
      var i :| 0 <= i < |kept| && kept[i] == a;
      var j :| 0 <= j < |shed| && shed[j] == b;
      assert Ranked(results)[i] == a && Ranked(results)[k + j] == b;
    }
  }

  // ---------------------------------------------------------------- snippets

  /** `_strip_snippets` on one result. */
  function Strip(r: SarifResult): (s: SarifResult)
    ensures IdentityOf(s) == IdentityOf(r) && Priority(s) == Priority(r) && s.ruleIndex == r.ruleIndex
  {
    r.(snippet := "")
  }

  function StripAll(results: seq<SarifResult>): seq<SarifResult> {
    if results == [] then [] else [Strip(results[0])] + StripAll(results[1..])
  }

  lemma {:induction false} InsertStripped(r: SarifResult, sorted: seq<SarifResult>)
    ensures Insert(Strip(r), StripAll(sorted)) == StripAll(Insert(r, sorted))
  {
    hide Priority, Strip;
    if sorted != [] {
      InsertStripped(r, sorted[1..]);
      assert StripAll(sorted)[1..] == StripAll(sorted[1..]);
      assert ([r] + sorted)[1..] == sorted;
    }
  }

  /** Stripping snippets does not disturb the ranking. */
  lemma {:induction false} RankingStripped(results: seq<SarifResult>)
    ensures Ranked(StripAll(results)) == StripAll(Ranked(results))
  {
    hide Priority, Strip, Insert;
    if results != [] {
      RankingStripped(results[1..]);
      assert StripAll(results)[1..] == StripAll(results[1..]);
      InsertStripped(results[0], Ranked(results[1..]));
    }
  }

  lemma {:induction false} StripTake(results: seq<SarifResult>, k: nat)
    requires k <= |results|
    ensures |StripAll(results)| == |results| && StripAll(results)[..k] == StripAll(results[..k])
  {
    if results != [] {
      if k > 0 {
        StripTake(results[1..], k - 1);
        assert results[..k][1..] == results[1..][..k - 1];
      } else {
        StripTake(results[1..], 0);
      }
    }
  }

  // ---------------------------------------------------------------- duplicates

  function Identities(results: seq<SarifResult>): set<Identity> {
    set r | r in results :: IdentityOf(r)
  }

  /** The results whose identity did not occur before. */
  function FirstOccurrences(results: seq<SarifResult>): seq<SarifResult> {
    if results == [] then []
    else
      var front, last := results[..|results| - 1], results[|results| - 1];
      FirstOccurrences(front) + if IdentityOf(last) in Identities(front) then [] else [last]
  }

  ghost predicate DistinctIdentities(results: seq<SarifResult>) {
    forall i, j | 0 <= i < j < |results| :: IdentityOf(results[i]) != IdentityOf(results[j])
  }

  /** Every two results differ in their rule, their file or their line. */
  ghost predicate DistinctAlerts(results: seq<SarifResult>) {
    forall i, j | 0 <= i < j < |results| ::
      || results[i].ruleId != results[j].ruleId
      || results[i].uri != results[j].uri
      || results[i].startLine != results[j].startLine
  }

  /** Results are duplicates exactly if rule, file and line agree. */
  lemma DuplicatesShareAlert(a: SarifResult, b: SarifResult)
    ensures IdentityOf(a) == IdentityOf(b) <==> a.ruleId == b.ruleId && a.uri == b.uri && a.startLine == b.startLine
  {
  }

  lemma DistinctIffAlerts(results: seq<SarifResult>)
    ensures DistinctIdentities(results) <==> DistinctAlerts(results)
  {
    hide IdentityOf;
    forall i, j | 0 <= i < j < |results| {
      DuplicatesShareAlert(results[i], results[j]);
    }
  }

  lemma IdentitiesAppend(results: seq<SarifResult>, r: SarifResult)
    ensures Identities(results + [r]) == Identities(results) + {IdentityOf(r)}
  {
    assert (results + [r])[|results|] in results + [r];
    assert forall x :: x in results + [r] <==> x in results || x == r;
    forall id
      ensures id in Identities(results + [r]) <==> id in Identities(results) + {IdentityOf(r)}
    {
      if id in Identities(results) {
        var x :| x in results && IdentityOf(x) == id;
        assert x in results + [r];
      }
    }
  }

  lemma DistinctAppend(results: seq<SarifResult>, r: SarifResult)
    requires DistinctIdentities(results) && IdentityOf(r) !in Identities(results)
    ensures DistinctIdentities(results + [r])
  {
    hide IdentityOf;
    assert forall i | 0 <= i < |results| :: results[i] in results && IdentityOf(results[i]) in Identities(results);
  }

  /** Removing duplicates keeps every identity, once, with a result of the list. */
  lemma {:induction false} FirstOccurrencesAreDistinct(results: seq<SarifResult>)
    ensures DistinctIdentities(FirstOccurrences(results))
    ensures Identities(FirstOccurrences(results)) == Identities(results)
    ensures |FirstOccurrences(results)| <= |results|
    ensures forall r | r in FirstOccurrences(results) :: r in results
    decreases |results|
  {
    hide IdentityOf, Identities, DistinctIdentities;
    if results == [] {
      NothingIsDistinct();
    } else {
      var front, last := results[..|results| - 1], results[|results| - 1];
      FirstOccurrencesAreDistinct(front);
      assert results == front + [last];
      IdentitiesAppend(front, last);
      var kept := FirstOccurrences(front);
      if IdentityOf(last) !in Identities(front) {
        IdentitiesAppend(kept, last);
        DistinctAppend(kept, last);
      } else {
        assert kept + [] == kept;
        assert Identities(front) + {IdentityOf(last)} == Identities(front);
      }
    }
  }

  lemma NothingIsDistinct()
    ensures DistinctIdentities([])
  {
  }

  /** The dedupe loop. */
  method Dedupe(results: seq<SarifResult>) returns (deduped: seq<SarifResult>)
    ensures deduped == FirstOccurrences(results)
  {
    var seen: set<Identity> := {};
    deduped := [];
    for i := 0 to |results|
      invariant seen == Identities(results[..i])
      invariant deduped == FirstOccurrences(results[..i])
    {
      var identity := IdentityOf(results[i]);
      assert results[..i + 1] == results[..i] + [results[i]];
      IdentitiesAppend(results[..i], results[i]);
      if identity in seen {
        continue;
      }
      seen := seen + {identity};
      deduped := deduped + [results[i]];
    }
    assert results[..|results|] == results;
  }
}
