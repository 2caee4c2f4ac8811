/** Keeping a SARIF document inside an upload budget: dedupe, cap, strip, shed. */
module SarifBounding {
  import opened Options
  import opened SarifRanking

  datatype Note = Trimmed(duplicates: nat, overCap: nat) | ShedForSize(dropped: nat)

  /** The value of one run. */
  datatype RunValue = RunValue(results: seq<SarifResult>, notes: seq<Note>)

  type Document = seq<RunValue>

  // ---------------------------------------------------------------- one run

  /** The results of a run after dedupe and the display cap. */
  function Capped(results: seq<SarifResult>, cap: Option<nat>): seq<SarifResult> {
    var deduped := FirstOccurrences(results);
    if cap.Some? && |deduped| > cap.value then Ranked(deduped)[..cap.value] else deduped
  }

  /** What became of the results of one run: none was shed, or the best `k` of the distinct ones
      remain, in rank order. */
  ghost predicate IsBestCut(original: seq<SarifResult>, kept: seq<SarifResult>) {
    var deduped := FirstOccurrences(original);
    kept == deduped || exists k: nat :: k <= |deduped| && kept == Ranked(deduped)[..k]
  }

  lemma CappedIsBestCut(results: seq<SarifResult>, cap: Option<nat>)
    ensures IsBestCut(results, Capped(results, cap))
  {
    hide FirstOccurrences, Ranked;
  }

  lemma CutOfCut(original: seq<SarifResult>, kept: seq<SarifResult>, k: nat)
    requires IsBestCut(original, kept) && k <= |kept|
    ensures IsBestCut(original, Ranked(kept)[..k])
  {
    hide FirstOccurrences, Ranked;
    var deduped := FirstOccurrences(original);
    if kept != deduped {
      var n: nat :| n <= |deduped| && kept == Ranked(deduped)[..n];
      CutOfRanking(deduped, n);
      assert Ranked(kept)[..k] == Ranked(deduped)[..k];
    }
  }

  /** Whatever remains of a run differs pairwise in rule, file or line, and of the first results of each identity
      none that was shed has a better priority than one that was kept; at equal priority the first
      discovered stays. */
  lemma BestCutKeepsBest(original: seq<SarifResult>, kept: seq<SarifResult>)
    requires IsBestCut(original, kept)
    ensures DistinctIdentities(kept) && DistinctAlerts(kept)
    ensures exists shed: seq<SarifResult> ::
      && multiset(kept) + multiset(shed) == multiset(FirstOccurrences(original))
      && (forall a, b | a in kept && b in shed :: AtMost(Priority(a), Priority(b)))
      && (forall p :: OfPriority(p, kept) <= OfPriority(p, FirstOccurrences(original)))
  {
    hide FirstOccurrences, Ranked, Priority, OfPriority, AtMost, DistinctAlerts;
    var deduped := FirstOccurrences(original);
    DistinctIffAlerts(kept);
    FirstOccurrencesAreDistinct(original);
    if kept == deduped {
      var shed: seq<SarifResult> := [];
      assert multiset(kept) + multiset(shed) == multiset(deduped);
    } else {
      var k: nat :| k <= |deduped| && kept == Ranked(deduped)[..k];
      CutKeepsBest(deduped, k);
      var shed := Ranked(deduped)[k..];
      assert forall p :: OfPriority(p, kept) + OfPriority(p, shed) == OfPriority(p, deduped);
      RankedStaysDistinct(deduped, k);
    }
  }

  lemma RankedStaysDistinct(results: seq<SarifResult>, k: nat)
    requires DistinctIdentities(results) && k <= |results|
    ensures DistinctIdentities(Ranked(results)[..k])
  {
    hide Ranked, IdentityOf;
    RankedIsStableSort(results);
    PermutationStaysDistinct(results, Ranked(results));
  }

  lemma PermutationStaysDistinct(a: seq<SarifResult>, b: seq<SarifResult>)
    requires DistinctIdentities(a) && multiset(a) == multiset(b)
    ensures DistinctIdentities(b)
  {
    hide IdentityOf;
    forall i, j | 0 <= i < j < |b|
      ensures IdentityOf(b[i]) != IdentityOf(b[j])
    {
      if b[i] == b[j] {
        TwiceInMultiset(b, i, j);
        OnceInMultiset(a, b[i]);
        assert false;
      }
      assert b[i] in multiset(a) && b[j] in multiset(a);
      var p :| 0 <= p < |a| && a[p] == b[i];
      var q :| 0 <= q < |a| && a[q] == b[j];
      assert p != q;
    }
  }

  lemma TwiceInMultiset(s: seq<SarifResult>, i: nat, j: nat)
    requires i < j < |s| && s[i] == s[j]
    ensures multiset(s)[s[i]] >= 2
  {
    assert s == s[..j] + [s[j]] + s[j + 1..];
    assert s[i] in s[..j];
  }

  lemma {:induction false} OnceInMultiset(s: seq<SarifResult>, r: SarifResult)
    requires DistinctIdentities(s)
    ensures multiset(s)[r] <= 1
  {
    hide IdentityOf;
    if s != [] {
      OnceInMultiset(s[1..], r);
      assert s == [s[0]] + s[1..];
      assert forall i | 0 <= i < |s[1..]| :: s[1..][i] == s[i + 1] && IdentityOf(s[0]) != IdentityOf(s[i + 1]);
      assert s[0] !in s[1..];
    }
  }

  // ---------------------------------------------------------------- the shedding step

  function Total(doc: Document): nat {
    if doc == [] then 0 else |doc[0].results| + Total(doc[1..])
  }

  /** `max(runs, key=len)`: the first run with the most results. */
  function Longest(doc: Document): (i: nat)
    requires doc != []
    ensures i < |doc| && forall j | 0 <= j < |doc| :: |doc[j].results| <= |doc[i].results|
    ensures forall j | 0 <= j < i :: |doc[j].results| < |doc[i].results|
  {
    if |doc| == 1 then 0
    else
      var later := 1 + Longest(doc[1..]);
      if |doc[later].results| > |doc[0].results| then later else 0
  }

  function Max(a: nat, b: nat): nat {
    if a >= b then a else b
  }

  /** One round: the longest run keeps the better three quarters of its results, but at least one. */
  function Shed(doc: Document): Document {
    if Total(doc) == 0 then doc
    else
      TotalPositive(doc);
      var i := Longest(doc);
      var ranked := Ranked(doc[i].results);
      ThreeQuarters(|ranked|);
      doc[i := doc[i].(results := ranked[..Max(1, |ranked| * 3 / 4)])]
  }

  lemma ThreeQuarters(n: nat)
    requires n > 0
    ensures Max(1, n * 3 / 4) <= n && (n > 1 ==> Max(1, n * 3 / 4) < n)
  {
  }

  lemma {:induction false} TotalPositive(doc: Document)
    ensures Total(doc) > 0 ==> doc != [] && |doc[Longest(doc)].results| > 0
    ensures (forall j | 0 <= j < |doc| :: doc[j].results == []) ==> Total(doc) == 0
  {
    if doc != [] {
      TotalPositive(doc[1..]);
      if Total(doc) > 0 && Total(doc[1..]) > 0 {
        assert |doc[1..][Longest(doc[1..])].results| > 0;
      }
      assert (forall j | 0 <= j < |doc| :: doc[j].results == [])
        ==> forall j | 0 <= j < |doc[1..]| :: doc[1..][j].results == [];
    }
  }

  lemma {:induction false} TotalUpdate(doc: Document, i: nat, results: seq<SarifResult>)
    requires i < |doc|
    ensures Total(doc[i := doc[i].(results := results)]) + |doc[i].results| == Total(doc) + |results|
  {
    if i > 0 {
      TotalUpdate(doc[1..], i - 1, results);
      assert doc[i := doc[i].(results := results)][1..] == doc[1..][i - 1 := doc[i].(results := results)];
    } else {
      assert doc[i := doc[i].(results := results)][1..] == doc[1..];
    }
  }

  /** Every run reduced to its best result: where shedding ends. */
  function Floor(doc: Document): Document {
    seq(|doc|, i requires 0 <= i < |doc| => FloorRun(doc[i]))
  }

  function FloorRun(run: RunValue): RunValue {
    if run.results == [] then run else run.(results := Ranked(run.results)[..1])
  }

  lemma FloorOfCut(run: RunValue, k: nat)
    requires 1 <= k <= |run.results|
    ensures FloorRun(run.(results := Ranked(run.results)[..k])) == FloorRun(run)
  {
    hide Ranked;
    CutOfRanking(run.results, k);
    assert Ranked(run.results)[..k][..1] == Ranked(run.results)[..1];
  }

  /** Shedding never changes where it ends, and makes progress unless every run is down to one
      result. */
  lemma ShedStep(doc: Document)
    requires Total(doc) > 0
    ensures Floor(Shed(doc)) == Floor(doc)
    ensures Total(Shed(doc)) <= Total(doc)
    ensures (exists j | 0 <= j < |doc| :: |doc[j].results| > 1) ==> Total(Shed(doc)) < Total(doc)
  {
    hide Ranked, FloorRun, Total;
    TotalPositive(doc);
    var i := Longest(doc);
    var n := |doc[i].results|;
    var k := Max(1, n * 3 / 4);
    ThreeQuarters(n);
    TotalUpdate(doc, i, Ranked(doc[i].results)[..k]);
    FloorOfCut(doc[i], k);
    ShedMeans(doc, i, k);
    var shed := Shed(doc);
    forall j | 0 <= j < |doc|
      ensures FloorRun(shed[j]) == FloorRun(doc[j])
    {
    }
    assert Floor(shed) == Floor(doc);
  }

  lemma ShedMeans(doc: Document, i: nat, k: nat)
    requires Total(doc) > 0 && doc != [] && i == Longest(doc) && |doc[i].results| > 0
    requires k == Max(1, |doc[i].results| * 3 / 4)
    ensures k <= |doc[i].results| && Shed(doc) == doc[i := doc[i].(results := Ranked(doc[i].results)[..k])]
  {
    ThreeQuarters(|doc[i].results|);
  }

  /** Once no run holds two results the round changes nothing: a document that is still over budget
      then is never brought under it. */
  lemma ShedStuck(doc: Document)
    requires forall j | 0 <= j < |doc| :: |doc[j].results| <= 1
    ensures Shed(doc) == doc && Floor(doc) == doc
  {
    forall j | 0 <= j < |doc|
      ensures FloorRun(doc[j]) == doc[j]
    {
      if |doc[j].results| == 1 { RankedOne(doc[j].results); }
    }
    assert Floor(doc) == doc;
    if Total(doc) > 0 {
      TotalPositive(doc);
      RankedOne(doc[Longest(doc)].results);
    }
  }

  lemma RankedOne(results: seq<SarifResult>)
    requires |results| == 1
    ensures Ranked(results) == results
  {
    assert results[1..] == [];
  }

  // ---------------------------------------------------------------- when the rounds end

  function ShedTimes(doc: Document, n: nat): Document
    decreases n
  {
    if n == 0 then doc else ShedTimes(Shed(doc), n - 1)
  }

  lemma {:induction false} ShedReachesFloor(doc: Document)
    ensures exists n: nat :: ShedTimes(doc, n) == Floor(doc)
    decreases Total(doc)
  {
    hide Shed, Floor, Longest;
    if forall j | 0 <= j < |doc| :: |doc[j].results| <= 1 {
      ShedStuck(doc);
      assert ShedTimes(doc, 0) == Floor(doc);
    } else {
      TotalPositive(doc);
      SomeResults(doc);
      ShedStep(doc);
      ShedReachesFloor(Shed(doc));
      var n: nat :| ShedTimes(Shed(doc), n) == Floor(Shed(doc));
      assert ShedTimes(doc, n + 1) == Floor(doc);
    }
  }

  lemma {:induction false} SomeResults(doc: Document)
    ensures (exists j | 0 <= j < |doc| :: |doc[j].results| > 1) ==> Total(doc) > 0
  {
    if doc != [] {
      SomeResults(doc[1..]);
      if j :| 0 <= j < |doc| && |doc[j].results| > 1 {
        assert j > 0 ==> |doc[1..][j - 1].results| > 1;
      }
    }
  }

  /** Shedding never makes a document larger. */
  ghost predicate ShedShrinks(size: Document -> nat) {
    forall doc :: size(Shed(doc)) <= size(doc)
  }

  lemma {:induction false} FloorIsSmallest(size: Document -> nat, doc: Document, n: nat)
    requires ShedShrinks(size)
    ensures size(Floor(doc)) <= size(ShedTimes(doc, n))
    decreases n
  {
    hide Floor, Shed;
    if n > 0 {
      if Total(doc) > 0 { ShedStep(doc); } else { NothingToShed(doc); }
      FloorIsSmallest(size, Shed(doc), n - 1);
    } else {
      ShedReachesFloor(doc);
      var m: nat :| ShedTimes(doc, m) == Floor(doc);
      ShedTimesShrinks(size, doc, m);
    }
  }

  lemma NothingToShed(doc: Document)
    requires Total(doc) == 0
    ensures Shed(doc) == doc
  {
  }

  lemma {:induction false} ShedTimesShrinks(size: Document -> nat, doc: Document, n: nat)
    requires ShedShrinks(size)
    ensures size(ShedTimes(doc, n)) <= size(doc)
    decreases n
  {
    hide Shed;
    if n > 0 { ShedTimesShrinks(size, Shed(doc), n - 1); }
  }

  /** The loop can bring a document under the budget if and only if the document with at most one
      result a run fits. */
  lemma ShedFitsIffFloorFits(size: Document -> nat, doc: Document, budget: nat)
    requires ShedShrinks(size)
    ensures (exists n: nat :: size(ShedTimes(doc, n)) <= budget) <==> size(Floor(doc)) <= budget
  {
    hide Floor, Shed, ShedShrinks;
    ShedReachesFloor(doc);
    if n: nat :| size(ShedTimes(doc, n)) <= budget {
      FloorIsSmallest(size, doc, n);
    }
    if size(Floor(doc)) <= budget {
      var n: nat :| ShedTimes(doc, n) == Floor(doc);
    }
  }

  /** The shedding loop leaves at this document: it fits, or no run has a result to shed. */
  ghost predicate Leaves(doc: Document, size: Document -> nat, budget: nat) {
    size(doc) <= budget || Total(doc) == 0
  }

  /** The loop ends: some round leaves it. */
  ghost predicate LoopEnds(prepared: Document, size: Document -> nat, budget: nat) {
    exists n: nat :: Leaves(ShedTimes(prepared, n), size, budget)
  }

  lemma {:induction false} ShedKeepsSome(doc: Document, n: nat)
    ensures Total(ShedTimes(doc, n)) == 0 <==> Total(doc) == 0
    decreases n
  {
    hide Ranked, Total;
    if n > 0 {
      if Total(doc) > 0 {
        TotalPositive(doc);
        var i := Longest(doc);
        var k := Max(1, |doc[i].results| * 3 / 4);
        ShedMeans(doc, i, k);
        TotalUpdate(doc, i, Ranked(doc[i].results)[..k]);
        AtLeastOne(doc, i);
      } else {
        NothingToShed(doc);
      }
      ShedKeepsSome(Shed(doc), n - 1);
    }
  }

  lemma {:induction false} AtLeastOne(doc: Document, i: nat)
    requires i < |doc|
    ensures Total(doc) >= |doc[i].results|
  {
    if i > 0 { AtLeastOne(doc[1..], i - 1); }
  }

  /** Exactly when the loop ends: the document has no result, or it fits, or it fits once every run is
      down to its best result.  Any other document keeps it running for ever. */
  lemma LoopEndsIff(prepared: Document, size: Document -> nat, budget: nat)
    requires ShedShrinks(size)
    ensures LoopEnds(prepared, size, budget) <==>
            Total(prepared) == 0 || size(prepared) <= budget || size(Floor(prepared)) <= budget
  {
    hide Floor, Shed, ShedShrinks, Total, ShedTimes;
    ShedFitsIffFloorFits(size, prepared, budget);
    NoShedding(prepared);
    if LoopEnds(prepared, size, budget) {
      var n: nat :| Leaves(ShedTimes(prepared, n), size, budget);
      ShedKeepsSome(prepared, n);
    }
    if Total(prepared) == 0 || size(prepared) <= budget {
      assert Leaves(ShedTimes(prepared, 0), size, budget);
    } else if size(Floor(prepared)) <= budget {
      var n: nat :| size(ShedTimes(prepared, n)) <= budget;
      assert Leaves(ShedTimes(prepared, n), size, budget);
    }
  }

  lemma NoShedding(doc: Document)
    ensures ShedTimes(doc, 0) == doc
  {
  }

  /** One run with one result that is over budget: the loop runs for ever. */
  lemma LoopForEver(r: SarifResult, size: Document -> nat, budget: nat)
    requires size([RunValue([r], [])]) > budget
    ensures !LoopEnds([RunValue([r], [])], size, budget)
  {
    var doc := [RunValue([r], [])];
    ShedStuck(doc);
    assert Total(doc) == 1 by { assert doc[1..] == []; }
    forall n: nat
      ensures !Leaves(ShedTimes(doc, n), size, budget)
    {
      StuckStays(doc, n);
    }
  }

  lemma {:induction false} StuckStays(doc: Document, n: nat)
    requires Shed(doc) == doc
    ensures ShedTimes(doc, n) == doc
    decreases n
  {
    hide Shed;
    if n > 0 { StuckStays(doc, n - 1); }
  }

  // ---------------------------------------------------------------- the whole document

  function CapRun(run: RunValue, cap: Option<nat>): RunValue {
    var deduped, capped := FirstOccurrences(run.results), Capped(run.results, cap);
    FirstOccurrencesAreDistinct(run.results);
    var duplicates, over := |run.results| - |deduped|, |deduped| - |capped|;
    RunValue(capped, run.notes + if duplicates > 0 || over > 0 then [Trimmed(duplicates, over)] else [])
  }

  function CapAll(doc: Document, cap: Option<nat>): (r: Document)
    ensures |r| == |doc|
  {
    seq(|doc|, i requires 0 <= i < |doc| => CapRun(doc[i], cap))
  }

  function StripDocument(doc: Document): (r: Document)
    ensures |r| == |doc|
  {
    seq(|doc|, i requires 0 <= i < |doc| => doc[i].(results := StripAll(doc[i].results)))
  }

  /** Snippets go only when the capped document is over budget. */
  function Prepared(doc: Document, size: Document -> nat, budget: nat, cap: Option<nat>): (r: Document)
    ensures |r| == |doc|
  {
    if size(CapAll(doc, cap)) > budget then StripDocument(CapAll(doc, cap)) else CapAll(doc, cap)
  }

  /** The best cut of a run, with or without its snippets. */
  ghost predicate IsBestCutOrStripped(original: seq<SarifResult>, kept: seq<SarifResult>) {
    exists whole :: IsBestCut(original, whole) && (kept == whole || kept == StripAll(whole))
  }

  lemma PreparedIsBestCut(doc: Document, size: Document -> nat, budget: nat, cap: Option<nat>, i: nat)
    requires i < |doc|
    ensures IsBestCutOrStripped(doc[i].results, Prepared(doc, size, budget, cap)[i].results)
  {
    hide IsBestCut, Capped;
    CappedIsBestCut(doc[i].results, cap);
    assert CapAll(doc, cap)[i].results == Capped(doc[i].results, cap);
  }

  lemma PreparedWithinCap(doc: Document, size: Document -> nat, budget: nat, cap: Option<nat>, i: nat)
    requires i < |doc|
    ensures cap.Some? ==> |Prepared(doc, size, budget, cap)[i].results| <= cap.value
  {
    hide FirstOccurrences, Ranked;
    StripTake(Capped(doc[i].results, cap), 0);
  }

  // ---------------------------------------------------------------- every result is answered for

  /** The results a truncation note says are gone. */
  function NoteCount(note: Note): nat {
    match note
    case Trimmed(duplicates, overCap) => duplicates + overCap
    case ShedForSize(dropped) => dropped
  }

  function Noted(notes: seq<Note>): nat {
    if notes == [] then 0 else NoteCount(notes[0]) + Noted(notes[1..])
  }

  /** The results a document holds plus the results its notes own up to. */
  function Answered(doc: Document): nat {
    if doc == [] then 0 else |doc[0].results| + Noted(doc[0].notes) + Answered(doc[1..])
  }

  lemma {:induction false} NotedAppend(notes: seq<Note>, note: Note)
    ensures Noted(notes + [note]) == Noted(notes) + NoteCount(note)
  {
    if notes != [] {
      assert (notes + [note])[1..] == notes[1..] + [note];
      NotedAppend(notes[1..], note);
    }
  }

  lemma CapRunAnswers(run: RunValue, cap: Option<nat>)
    ensures |CapRun(run, cap).results| + Noted(CapRun(run, cap).notes) == |run.results| + Noted(run.notes)
  {
    hide FirstOccurrences, Ranked, Noted;
    FirstOccurrencesAreDistinct(run.results);
    var deduped, capped := FirstOccurrences(run.results), Capped(run.results, cap);
    var duplicates, over := |run.results| - |deduped|, |deduped| - |capped|;
    NotedAppend(run.notes, Trimmed(duplicates, over));
    assert run.notes + [] == run.notes;
  }

  lemma {:induction false} CapAnswers(doc: Document, cap: Option<nat>)
    ensures Answered(CapAll(doc, cap)) == Answered(doc)
  {
    hide CapRun, Noted;
    if doc != [] {
      CapAnswers(doc[1..], cap);
      CapRunAnswers(doc[0], cap);
      assert CapAll(doc, cap)[1..] == CapAll(doc[1..], cap);
    }
  }

  lemma {:induction false} StripAnswers(doc: Document)
    ensures Answered(StripDocument(doc)) == Answered(doc)
  {
    hide Noted, StripAll;
    if doc != [] {
      StripAnswers(doc[1..]);
      StripTake(doc[0].results, 0);
      assert StripDocument(doc)[1..] == StripDocument(doc[1..]);
    }
  }

  lemma PreparedAnswers(doc: Document, size: Document -> nat, budget: nat, cap: Option<nat>)
    ensures Answered(Prepared(doc, size, budget, cap)) == Answered(doc)
  {
    hide CapAll, StripDocument, Answered;
    CapAnswers(doc, cap);
    StripAnswers(CapAll(doc, cap));
  }

  /** What a document says beside its results. */
  function AllNoted(doc: Document): nat {
    if doc == [] then 0 else Noted(doc[0].notes) + AllNoted(doc[1..])
  }

  lemma {:induction false} AnsweredParts(doc: Document)
    ensures Answered(doc) == Total(doc) + AllNoted(doc)
  {
    hide Noted;
    if doc != [] { AnsweredParts(doc[1..]); }
  }

  lemma {:induction false} SameNotesSaySame(a: Document, b: Document)
    requires |a| == |b| && forall i | 0 <= i < |a| :: a[i].notes == b[i].notes
    ensures AllNoted(a) == AllNoted(b)
  {
    hide Noted;
    if a != [] { SameNotesSaySame(a[1..], b[1..]); }
  }

  lemma RoundKeepsNotes(doc: Document)
    ensures |Shed(doc)| == |doc| && forall i | 0 <= i < |doc| :: Shed(doc)[i].notes == doc[i].notes
  {
    hide Ranked, Total;
    if Total(doc) > 0 {
      TotalPositive(doc);
      ShedMeans(doc, Longest(doc), Max(1, |doc[Longest(doc)].results| * 3 / 4));
    }
  }

  /** Shedding touches no note. */
  lemma {:induction false} ShedKeepsNotes(doc: Document, n: nat)
    ensures |ShedTimes(doc, n)| == |doc| && forall i | 0 <= i < |doc| :: ShedTimes(doc, n)[i].notes == doc[i].notes
    decreases n
  {
    hide Shed;
    if n > 0 {
      RoundKeepsNotes(doc);
      ShedKeepsNotes(Shed(doc), n - 1);
    }
  }

  /** Results held plus results owned up to in the notes never change: after any number of rounds, with
      the note on what those rounds shed, the document answers for exactly the results it came with. */
  lemma EveryResultIsAnswered(doc: Document, size: Document -> nat, budget: nat, cap: Option<nat>, n: nat, dropped: nat)
    requires var prepared := Prepared(doc, size, budget, cap);
      Total(ShedTimes(prepared, n)) + dropped == Total(prepared)
    ensures Answered(NoteShed(ShedTimes(Prepared(doc, size, budget, cap), n), dropped)) == Answered(doc)
  {
    hide Prepared, ShedTimes, Answered, Total, AllNoted, NoteShed;
    var prepared := Prepared(doc, size, budget, cap);
    var bounded := ShedTimes(prepared, n);
    PreparedAnswers(doc, size, budget, cap);
    AnsweredParts(prepared);
    AnsweredParts(bounded);
    ShedKeepsNotes(prepared, n);
    SameNotesSaySame(prepared, bounded);
    SomeRun(prepared);
    NoteAnswers(bounded, dropped);
  }

  lemma SomeRun(doc: Document)
    ensures Total(doc) > 0 ==> doc != []
  {
  }

  lemma NoteAnswers(doc: Document, dropped: nat)
    requires dropped > 0 ==> doc != []
    ensures Answered(NoteShed(doc, dropped)) == Answered(doc) + dropped
  {
    hide Noted;
    if dropped > 0 {
      NotedAppend(doc[0].notes, ShedForSize(dropped));
      assert NoteShed(doc, dropped)[1..] == doc[1..];
    }
  }

  // ---------------------------------------------------------------- which results went where

  /** The results whose identity did occur before. */
  function Repeats(results: seq<SarifResult>): seq<SarifResult> {
    if results == [] then []
    else
      var front, last := results[..|results| - 1], results[|results| - 1];
      if IdentityOf(last) in Identities(front) then Repeats(front) + [last] else Repeats(front)
  }

  lemma {:induction false} RepeatsAreTheRest(results: seq<SarifResult>)
    ensures multiset(FirstOccurrences(results)) + multiset(Repeats(results)) == multiset(results)
    ensures |FirstOccurrences(results)| + |Repeats(results)| == |results|
    decreases |results|
  {
    hide IdentityOf, Identities;
    if results != [] {
      var front, last := results[..|results| - 1], results[|results| - 1];
      RepeatsAreTheRest(front);
      assert results == front + [last];
      assert FirstOccurrences(front) + [] == FirstOccurrences(front);
    }
  }

  /** A repeat has the identity of a result that is kept as the first of its kind. */
  lemma {:induction false} RepeatsRepeat(results: seq<SarifResult>, r: SarifResult)
    requires r in Repeats(results)
    ensures IdentityOf(r) in Identities(FirstOccurrences(results))
    decreases |results|
  {
    hide IdentityOf, Identities, FirstOccurrences;
    var front, last := results[..|results| - 1], results[|results| - 1];
    FirstOccurrencesAreDistinct(results);
    assert results == front + [last];
    IdentitiesAppend(front, last);
    if r in Repeats(front) {
      RepeatsRepeat(front, r);
      FirstOccurrencesAreDistinct(front);
    }
  }

  /** The note of the first pass is right, and says which results it speaks of: the duplicates repeat the
      identity of a result that was not one, and the results over the cap are none that outranks a
      kept one. */
  lemma CapTakesTheRight(run: RunValue, cap: Option<nat>) returns (over: seq<SarifResult>)
    ensures multiset(CapRun(run, cap).results) + multiset(over) + multiset(Repeats(run.results))
        == multiset(run.results)
    ensures forall a, b | a in CapRun(run, cap).results && b in over :: AtMost(Priority(a), Priority(b))
    ensures CapRun(run, cap).notes
            == run.notes + if |Repeats(run.results)| + |over| > 0 then [Trimmed(|Repeats(run.results)|, |over|)] else []
  {
    hide FirstOccurrences, Ranked, Repeats, Priority, AtMost, OfPriority;
    RepeatsAreTheRest(run.results);
    var deduped, repeats := FirstOccurrences(run.results), Repeats(run.results);
    if cap.Some? && |deduped| > cap.value {
      CutKeepsBest(deduped, cap.value);
      over := Ranked(deduped)[cap.value..];
    } else {
      over := [];
    }
  }

  function ResultsOf(doc: Document): seq<SarifResult> {
    if doc == [] then [] else doc[0].results + ResultsOf(doc[1..])
  }

  lemma {:induction false} CutInDocument(doc: Document, i: nat, kept: seq<SarifResult>, gone: seq<SarifResult>)
    requires i < |doc| && multiset(kept) + multiset(gone) == multiset(doc[i].results)
    ensures multiset(ResultsOf(doc[i := doc[i].(results := kept)])) + multiset(gone) == multiset(ResultsOf(doc))
  {
    var cut := doc[i := doc[i].(results := kept)];
    if i > 0 {
      CutInDocument(doc[1..], i - 1, kept, gone);
      assert cut[1..] == doc[1..][i - 1 := doc[i].(results := kept)];
    } else {
      assert cut[1..] == doc[1..];
    }
  }

  lemma ShedTakes(doc: Document) returns (gone: seq<SarifResult>)
    ensures multiset(ResultsOf(Shed(doc))) + multiset(gone) == multiset(ResultsOf(doc))
  {
    hide Ranked, ResultsOf;
    gone := [];
    if Total(doc) > 0 {
      TotalPositive(doc);
      var i := Longest(doc);
      var k := Max(1, |doc[i].results| * 3 / 4);
      ShedMeans(doc, i, k);
      RankedIsStableSort(doc[i].results);
      var ranked := Ranked(doc[i].results);
      gone := ranked[k..];
      assert ranked == ranked[..k] + gone;
      CutInDocument(doc, i, ranked[..k], gone);
    }
  }

  /** The rounds lose no result unseen: what is held and what was shed are together the results of the
      document they began with. */
  lemma {:induction false} RoundsShed(doc: Document, n: nat) returns (gone: seq<SarifResult>)
    ensures multiset(ResultsOf(ShedTimes(doc, n))) + multiset(gone) == multiset(ResultsOf(doc))
    ensures Total(ShedTimes(doc, n)) + |gone| == Total(doc)
    decreases n
  {
    hide Shed, ResultsOf, Total;
    if n == 0 {
      gone := [];
    } else {
      var first := ShedTakes(doc);
      var later := RoundsShed(Shed(doc), n - 1);
      gone := first + later;
    }
    TotalIsCount(doc);
    TotalIsCount(ShedTimes(doc, n));
    assert |multiset(ResultsOf(doc))| == |ResultsOf(doc)|;
    assert |multiset(ResultsOf(ShedTimes(doc, n)))| == |ResultsOf(ShedTimes(doc, n))|;
    assert |multiset(gone)| == |gone|;
  }

  lemma {:induction false} TotalIsCount(doc: Document)
    ensures Total(doc) == |ResultsOf(doc)|
  {
    if doc != [] { TotalIsCount(doc[1..]); }
  }

  // ---------------------------------------------------------------- when nothing is dropped

  lemma {:induction false} DistinctAreKept(results: seq<SarifResult>)
    requires DistinctIdentities(results)
    ensures FirstOccurrences(results) == results
    decreases |results|
  {
    hide IdentityOf;
    if results != [] {
      var front, last := results[..|results| - 1], results[|results| - 1];
      DistinctAreKept(front);
      assert results == front + [last];
      assert forall i | 0 <= i < |front| :: front[i] == results[i] && IdentityOf(results[i]) != IdentityOf(last);
    }
  }

  /** A run keeps its results as they are if and only if every two of them differ in rule, file or line and
      they are within the cap: staying within the cap alone does not do. */
  lemma NothingDroppedIff(results: seq<SarifResult>, cap: Option<nat>)
    ensures Capped(results, cap) == results <==>
            DistinctAlerts(results) && (cap.Some? ==> |results| <= cap.value)
  {
    hide FirstOccurrences, Ranked, DistinctIdentities, Identities, DistinctAlerts;
    DistinctIffAlerts(results);
    FirstOccurrencesAreDistinct(results);
    if DistinctIdentities(results) {
      DistinctAreKept(results);
    }
  }

  /** Within the cap, every rule, file and line that is reported stays reported. */
  lemma EveryAlertStays(results: seq<SarifResult>, cap: Option<nat>, x: SarifResult)
    requires x in results && (cap.Some? ==> |results| <= cap.value)
    ensures exists y :: y in Capped(results, cap)
              && y.ruleId == x.ruleId && y.uri == x.uri && y.startLine == x.startLine
  {
    hide FirstOccurrences, Ranked, IdentityOf, DistinctIdentities;
    FirstOccurrencesAreDistinct(results);
    assert IdentityOf(x) in Identities(FirstOccurrences(results));
    var y :| y in FirstOccurrences(results) && IdentityOf(y) == IdentityOf(x);
    DuplicatesShareAlert(y, x);
  }

  /** One result twice, no cap exceeded: one of them goes. */
  lemma DuplicateIsDroppedUnderTheCap(r: SarifResult)
    ensures Capped([r, r], Some(5000)) == [r]
  {
    TwoOfOne(r, r);
  }

  lemma CutOfBestCut(original: seq<SarifResult>, kept: seq<SarifResult>, k: nat)
    requires IsBestCutOrStripped(original, kept) && k <= |kept|
    ensures IsBestCutOrStripped(original, Ranked(kept)[..k])
  {
    hide IsBestCut, Ranked;
    var whole :| IsBestCut(original, whole) && (kept == whole || kept == StripAll(whole));
    StripTake(whole, 0);
    CutOfCut(original, whole, k);
    RankingStripped(whole);
    StripTake(Ranked(whole), k);
  }

  /** Every document on the way down keeps, of every run, a best cut of its original results. */
  lemma {:induction false} ShedKeepsBestCuts(originals: Document, doc: Document, n: nat)
    requires |doc| == |originals|
    requires forall i | 0 <= i < |doc| :: IsBestCutOrStripped(originals[i].results, doc[i].results)
    ensures |ShedTimes(doc, n)| == |originals|
    ensures forall i | 0 <= i < |originals| :: IsBestCutOrStripped(originals[i].results, ShedTimes(doc, n)[i].results)
    ensures forall i | 0 <= i < |originals| :: |ShedTimes(doc, n)[i].results| <= |doc[i].results|
    decreases n
  {
    hide IsBestCutOrStripped, Ranked;
    if n > 0 {
      if Total(doc) == 0 {
        NothingToShed(doc);
      } else {
        TotalPositive(doc);
        var i := Longest(doc);
        var k := Max(1, |doc[i].results| * 3 / 4);
        ShedMeans(doc, i, k);
        CutOfBestCut(originals[i].results, doc[i].results, k);
      }
      ShedKeepsBestCuts(originals, Shed(doc), n - 1);
    }
  }

  /** Bounding a document keeps, of every run, a best cut of its results within the display cap,
      whatever the budget. */
  lemma BoundedKeepsBest(doc: Document, size: Document -> nat, budget: nat, cap: Option<nat>, n: nat)
    ensures var bounded := ShedTimes(Prepared(doc, size, budget, cap), n);
      && |bounded| == |doc|
      && (forall i | 0 <= i < |doc| :: IsBestCutOrStripped(doc[i].results, bounded[i].results))
      && (cap.Some? ==> forall i | 0 <= i < |doc| :: |bounded[i].results| <= cap.value)
  {
    hide IsBestCutOrStripped, Prepared, ShedTimes;
    var prepared := Prepared(doc, size, budget, cap);
    forall i | 0 <= i < |doc|
      ensures IsBestCutOrStripped(doc[i].results, prepared[i].results)
      ensures cap.Some? ==> |prepared[i].results| <= cap.value
    {
      PreparedIsBestCut(doc, size, budget, cap, i);
      PreparedWithinCap(doc, size, budget, cap, i);
    }
    ShedKeepsBestCuts(doc, prepared, n);
  }

  // ---------------------------------------------------------------- repeats and the best result

  /** Position `i` holds the first result of its identity. */
  ghost predicate IsFirst(results: seq<SarifResult>, i: nat) {
    i < |results| && forall k | 0 <= k < i :: IdentityOf(results[k]) != IdentityOf(results[i])
  }

  /** No later result outranks the first one of its identity. */
  ghost predicate FirstIsBest(results: seq<SarifResult>) {
    forall i: nat, j: nat |
      i < j < |results| && IsFirst(results, i) && IdentityOf(results[i]) == IdentityOf(results[j]) ::
      AtMost(Priority(results[i]), Priority(results[j]))
  }

  /** A kept result stands for this one: same identity, and no worse. */
  ghost predicate StoodFor(kept: seq<SarifResult>, x: SarifResult) {
    exists a :: a in kept && IdentityOf(a) == IdentityOf(x) && AtMost(Priority(a), Priority(x))
  }

  /** Every result either has a kept one that stands for it, or its identity is gone and it outranks no kept
      result. */
  ghost predicate NothingBetterIsLost(original: seq<SarifResult>, kept: seq<SarifResult>) {
    forall x | x in original ::
      StoodFor(kept, x)
      || (IdentityOf(x) !in Identities(kept) && forall a | a in kept :: AtMost(Priority(a), Priority(x)))
  }

  lemma {:induction false} FirstIsKept(results: seq<SarifResult>, i: nat)
    requires IsFirst(results, i)
    ensures results[i] in FirstOccurrences(results)
    decreases |results|
  {
    hide IdentityOf;
    var front, last := results[..|results| - 1], results[|results| - 1];
    if i < |front| {
      FirstIsKept(front, i);
    } else {
      assert forall r | r in front :: exists k: nat :: k < i && r == results[k];
    }
  }

  lemma {:induction false} SomeFirst(results: seq<SarifResult>, j: nat) returns (i: nat)
    requires j < |results|
    ensures i <= j && IsFirst(results, i) && IdentityOf(results[i]) == IdentityOf(results[j])
    decreases j
  {
    hide IdentityOf;
    if k: nat :| k < j && IdentityOf(results[k]) == IdentityOf(results[j]) {
      i := SomeFirst(results, k);
    } else {
      i := j;
    }
  }

  lemma SameIdentitySame(results: seq<SarifResult>, a: SarifResult, b: SarifResult)
    requires DistinctIdentities(results) && a in results && b in results && IdentityOf(a) == IdentityOf(b)
    ensures a == b
  {
    hide IdentityOf;
    var i :| 0 <= i < |results| && results[i] == a;
    var j :| 0 <= j < |results| && results[j] == b;
  }

  /** With the best result of every identity first, a best cut loses nothing better than what it keeps. */
  lemma BestCutLosesNothingBetter(original: seq<SarifResult>, kept: seq<SarifResult>)
    requires IsBestCut(original, kept) && FirstIsBest(original)
    ensures NothingBetterIsLost(original, kept)
  {
    hide FirstOccurrences, Ranked, Priority, AtMost, IdentityOf, OfPriority, IsBestCut, DistinctIdentities;
    var deduped := FirstOccurrences(original);
    FirstOccurrencesAreDistinct(original);
    BestCutKeepsBest(original, kept);
    var shed: seq<SarifResult> :| multiset(kept) + multiset(shed) == multiset(deduped)
      && forall a, b | a in kept && b in shed :: AtMost(Priority(a), Priority(b));
    forall x | x in original
      ensures StoodFor(kept, x)
              || (IdentityOf(x) !in Identities(kept) && forall a | a in kept :: AtMost(Priority(a), Priority(x)))
    {
      var j: nat :| j < |original| && original[j] == x;
      var i := SomeFirst(original, j);
      var first := original[i];
      FirstIsKept(original, i);
      AtMostItself(Priority(x));
      assert AtMost(Priority(first), Priority(x));
      InOneOfTwo(kept, shed, deduped, first);
      if first !in kept {
        forall a | a in kept
          ensures AtMost(Priority(a), Priority(x)) && IdentityOf(a) != IdentityOf(x)
        {
          AtMostTransitive(Priority(a), Priority(first), Priority(x));
          InOneOfTwo(kept, shed, deduped, a);
          if IdentityOf(a) == IdentityOf(first) { SameIdentitySame(deduped, a, first); }
        }
      }
    }
  }

  lemma AtMostItself(p: (nat, nat))
    ensures AtMost(p, p)
  {
  }

  lemma AtMostTransitive(p: (nat, nat), q: (nat, nat), r: (nat, nat))
    requires AtMost(p, q) && AtMost(q, r)
    ensures AtMost(p, r)
  {
  }

  lemma InOneOfTwo(a: seq<SarifResult>, b: seq<SarifResult>, all: seq<SarifResult>, x: SarifResult)
    requires multiset(a) + multiset(b) == multiset(all)
    ensures x in all <==> x in a || x in b
  {
    assert x in all <==> x in multiset(all);
    assert x in a <==> x in multiset(a);
    assert x in b <==> x in multiset(b);
  }

  /** Exactly when no cut loses a result that outranks a kept one, or keeps a worse result of an identity: the
      first result of each identity is its best.  Removing duplicates looks at the order only. */
  lemma NothingBetterIsLostIff(original: seq<SarifResult>)
    ensures (forall kept | IsBestCut(original, kept) :: NothingBetterIsLost(original, kept)) <==> FirstIsBest(original)
  {
    hide FirstOccurrences, Ranked, Priority, AtMost, IdentityOf, DistinctIdentities, NothingBetterIsLost;
    if FirstIsBest(original) {
      forall kept | IsBestCut(original, kept)
        ensures NothingBetterIsLost(original, kept)
      {
        BestCutLosesNothingBetter(original, kept);
      }
    } else {
      assert IsBestCut(original, FirstOccurrences(original));
      if NothingBetterIsLost(original, FirstOccurrences(original)) {
        DedupedShowsFirstIsBest(original);
        assert false;
      }
    }
  }

  lemma DedupedShowsFirstIsBest(original: seq<SarifResult>)
    requires NothingBetterIsLost(original, FirstOccurrences(original))
    ensures FirstIsBest(original)
  {
    hide FirstOccurrences, Priority, AtMost, IdentityOf, IsFirst, StoodFor;
    forall i: nat, j: nat | i < j < |original| && IsFirst(original, i)
        && IdentityOf(original[i]) == IdentityOf(original[j])
      ensures AtMost(Priority(original[i]), Priority(original[j]))
    {
      IdentityStays(original, original[j]);
      FirstStandsFor(original, i, original[j]);
    }
  }

  lemma IdentityStays(results: seq<SarifResult>, x: SarifResult)
    requires x in results
    ensures IdentityOf(x) in Identities(FirstOccurrences(results))
  {
    hide FirstOccurrences, IdentityOf, DistinctIdentities;
    FirstOccurrencesAreDistinct(results);
  }

  lemma FirstStandsFor(results: seq<SarifResult>, i: nat, x: SarifResult)
    requires IsFirst(results, i) && IdentityOf(results[i]) == IdentityOf(x) && StoodFor(FirstOccurrences(results), x)
    ensures AtMost(Priority(results[i]), Priority(x))
  {
    hide FirstOccurrences, Priority, AtMost, IdentityOf, DistinctIdentities, Identities;
    FirstOccurrencesAreDistinct(results);
    FirstIsKept(results, i);
    var a :| a in FirstOccurrences(results) && IdentityOf(a) == IdentityOf(x) && AtMost(Priority(a), Priority(x));
    SameIdentitySame(FirstOccurrences(results), a, results[i]);
  }

  lemma StrippedStandsFor(original: seq<SarifResult>, kept: seq<SarifResult>)
    requires NothingBetterIsLost(original, kept)
    ensures NothingBetterIsLost(original, StripAll(kept))
  {
    hide Priority, AtMost, IdentityOf, Strip, NothingBetterIsLost;
    StrippedMembers(kept);
    forall x | x in original
      ensures StoodFor(StripAll(kept), x)
              || (IdentityOf(x) !in Identities(StripAll(kept))
                  && forall a | a in StripAll(kept) :: AtMost(Priority(a), Priority(x)))
    {
      StripLosesNothing(original, kept, x);
    }
    LosesNothingMeans(original, StripAll(kept));
  }

  lemma LosesNothingMeans(original: seq<SarifResult>, kept: seq<SarifResult>)
    requires forall x | x in original ::
      StoodFor(kept, x)
      || (IdentityOf(x) !in Identities(kept) && forall a | a in kept :: AtMost(Priority(a), Priority(x)))
    ensures NothingBetterIsLost(original, kept)
  {
    hide Priority, AtMost, IdentityOf, StoodFor;
  }

  lemma StripLosesNothing(original: seq<SarifResult>, kept: seq<SarifResult>, x: SarifResult)
    requires NothingBetterIsLost(original, kept) && x in original
    ensures StoodFor(StripAll(kept), x)
            || (IdentityOf(x) !in Identities(StripAll(kept))
                && forall a | a in StripAll(kept) :: AtMost(Priority(a), Priority(x)))
  {
    hide Priority, AtMost, IdentityOf, Strip;
    StrippedMembers(kept);
    if StoodFor(kept, x) {
      var a :| a in kept && IdentityOf(a) == IdentityOf(x) && AtMost(Priority(a), Priority(x));
      assert Strip(a) in StripAll(kept);
    }
  }

  lemma {:induction false} StrippedMembers(results: seq<SarifResult>)
    ensures forall r :: r in StripAll(results) <==> exists a :: a in results && r == Strip(a)
  {
    hide Strip;
    if results != [] {
      StrippedMembers(results[1..]);
      assert forall a :: a in results <==> a == results[0] || a in results[1..];
    }
  }

  /** So a run whose identities each come with their best result first loses nothing better than what is left of
      it, for every cap, every budget and every number of rounds. */
  lemma BoundedLosesNothingBetter(doc: Document, size: Document -> nat, budget: nat, cap: Option<nat>, n: nat, i: nat)
    requires i < |doc| && FirstIsBest(doc[i].results)
    ensures var bounded := ShedTimes(Prepared(doc, size, budget, cap), n);
      |bounded| == |doc| && NothingBetterIsLost(doc[i].results, bounded[i].results)
  {
    hide IsBestCut, Prepared, ShedTimes, NothingBetterIsLost, FirstIsBest;
    BoundedKeepsBest(doc, size, budget, cap, n);
    var kept := ShedTimes(Prepared(doc, size, budget, cap), n)[i].results;
    var whole :| IsBestCut(doc[i].results, whole) && (kept == whole || kept == StripAll(whole));
    BestCutLosesNothingBetter(doc[i].results, whole);
    StrippedStandsFor(doc[i].results, whole);
  }

  /** The best result comes last, as a repeat: it goes and the worst of all stays, or one in between. */
  lemma RepeatHidesTheBest(a: SarifResult, b: SarifResult, c: SarifResult)
    requires IdentityOf(a) == IdentityOf(c) != IdentityOf(b)
    requires !AtMost(Priority(b), Priority(c)) && !AtMost(Priority(a), Priority(b))
    ensures Capped([a, c], None) == [a] && Capped([a, b, c], Some(1)) == [b]
  {
    hide Priority, IdentityOf;
    TwoOfOne(a, c);
    assert [a, b, c][..2] == [a, b] && [a, b][..1] == [a] && [a][..0] == [];
    assert FirstOccurrences([a]) == [] + [a] == [a];
    assert a in [a, b] && IdentityOf(c) in Identities([a, b]);
    assert FirstOccurrences([a, b]) == [a] + [b] == [a, b];
    assert FirstOccurrences([a, b, c]) == [a, b] + [] == [a, b];
    assert [a, b][1..] == [b] && [b][1..] == [];
    assert Ranked([b]) == [b];
    assert [b][1..] == [] && Insert(a, [b]) == [b] + Insert(a, []) == [b, a];
    assert Ranked([a, b]) == [b, a] && [b, a][..1] == [b];
  }

  lemma TwoOfOne(a: SarifResult, c: SarifResult)
    requires IdentityOf(a) == IdentityOf(c)
    ensures FirstOccurrences([a, c]) == [a]
  {
    hide IdentityOf;
    assert [a, c][..1] == [a] && [a][..0] == [];
    assert FirstOccurrences([a]) == [] + [a] == [a];
    assert a in [a] && IdentityOf(c) in Identities([a]);
    assert FirstOccurrences([a, c]) == [a] + [] == [a];
  }

  // ---------------------------------------------------------------- in place

  class SarifRun {
    var results: seq<SarifResult>
    var notes: seq<Note>

    constructor (results: seq<SarifResult>)
      ensures this.results == results && notes == []
    {
      this.results, notes := results, [];
    }
  }

  ghost function ValueOf(run: SarifRun): RunValue
    reads run
  {
    RunValue(run.results, run.notes)
  }

  ghost function ValuesOf(runs: seq<SarifRun>): (doc: Document)
    reads runs
    ensures |doc| == |runs|
    ensures forall i | 0 <= i < |runs| :: doc[i] == ValueOf(runs[i])
  {
    seq(|runs|, i requires 0 <= i < |runs| reads runs => ValueOf(runs[i]))
  }

  ghost predicate DistinctRuns(runs: seq<SarifRun>) {
    forall i, j | 0 <= i < j < |runs| :: runs[i] != runs[j]
  }

  /** The serialised size of the document as it stands. */
  method Measure(runs: seq<SarifRun>, size: Document -> nat) returns (bytes: nat, doc: Document)
    ensures doc == ValuesOf(runs) && bytes == size(doc)
  {
    doc := [];
    for i := 0 to |runs|
      invariant |doc| == i && forall j | 0 <= j < i :: doc[j] == ValueOf(runs[j])
    {
      doc := doc + [RunValue(runs[i].results, runs[i].notes)];
    }
    assert doc == ValuesOf(runs);
    bytes := size(doc);
  }

  method CapInPlace(run: SarifRun, cap: Option<nat>)
    modifies run
    ensures ValueOf(run) == CapRun(old(ValueOf(run)), cap)
  {
    hide FirstOccurrences, Ranked;
    FirstOccurrencesAreDistinct(run.results);
    var deduped := Dedupe(run.results);
    var duplicates := |run.results| - |deduped|;
    var over := 0;
    if cap.Some? && |deduped| > cap.value {
      over := |deduped| - cap.value;
      deduped := Ranked(deduped)[..cap.value];
    }
    run.results := deduped;
    if duplicates > 0 || over > 0 {
      run.notes := run.notes + [Trimmed(duplicates, over)];
    }
  }

  /** The loop over the runs: dedupe and display cap. */
  method CapRuns(runs: seq<SarifRun>, cap: Option<nat>)
    requires DistinctRuns(runs)
    modifies runs
    ensures ValuesOf(runs) == CapAll(old(ValuesOf(runs)), cap)
  {
    hide CapRun;
    ghost var original := ValuesOf(runs);
    for i := 0 to |runs|
      invariant forall j | 0 <= j < i :: ValueOf(runs[j]) == CapRun(original[j], cap)
      invariant forall j | i <= j < |runs| :: ValueOf(runs[j]) == original[j]
    {
      CapInPlace(runs[i], cap);
    }
  }

  method StripRuns(runs: seq<SarifRun>)
    requires DistinctRuns(runs)
    modifies runs
    ensures ValuesOf(runs) == StripDocument(old(ValuesOf(runs)))
  {
    hide StripAll;
    ghost var original := ValuesOf(runs);
    for i := 0 to |runs|
      invariant forall j | 0 <= j < i :: ValueOf(runs[j]) == original[j].(results := StripAll(original[j].results))
      invariant forall j | i <= j < |runs| :: ValueOf(runs[j]) == original[j]
    {
      runs[i].results := StripAll(runs[i].results);
    }
  }

  /** One round of the shedding loop. */
  method ShedRound(runs: seq<SarifRun>, ghost doc: Document) returns (lost: nat)
    requires DistinctRuns(runs) && doc == ValuesOf(runs) && Total(doc) > 0
    modifies runs
    ensures ValuesOf(runs) == Shed(doc) && Total(Shed(doc)) + lost == Total(doc)
  {
    hide Ranked, Total, Shed;
    TotalPositive(doc);
    var i := LongestRun(runs);
    var results := Ranked(runs[i].results);
    var keep := Max(1, |results| * 3 / 4);
    ShedMeans(doc, i, keep);
    TotalUpdate(doc, i, results[..keep]);
    runs[i].results := results[..keep];
    lost := |results| - keep;
    assert ValuesOf(runs) == doc[i := doc[i].(results := results[..keep])];
  }

  method LongestRun(runs: seq<SarifRun>) returns (i: nat)
    requires runs != []
    ensures i == Longest(ValuesOf(runs))
  {
    hide Longest;
    i := 0;
    for j := 1 to |runs|
      invariant i < j
      invariant forall k | 0 <= k < j :: |runs[k].results| <= |runs[i].results|
      invariant forall k | 0 <= k < i :: |runs[k].results| < |runs[i].results|
    {
      if |runs[j].results| > |runs[i].results| {
        i := j;
      }
    }
    LongestIsUnique(ValuesOf(runs), i);
  }

  lemma LongestIsUnique(doc: Document, i: nat)
    requires i < |doc| && forall j | 0 <= j < |doc| :: |doc[j].results| <= |doc[i].results|
    requires forall j | 0 <= j < i :: |doc[j].results| < |doc[i].results|
    ensures Longest(doc) == i
  {
  }

  /** What the shedding loop keeps. */
  ghost predicate Shedding(prepared: Document, doc: Document, size: Document -> nat, budget: nat, rounds: nat,
                           dropped: nat) {
    && doc == ShedTimes(prepared, rounds)
    && Total(doc) + dropped == Total(prepared)
    && forall m | 0 <= m < rounds :: !Leaves(ShedTimes(prepared, m), size, budget)
  }

  lemma SheddingStarts(prepared: Document, size: Document -> nat, budget: nat)
    ensures Shedding(prepared, prepared, size, budget, 0, 0)
  {
    hide Total;
  }

  /** One round that does not leave the loop, on the way to the round `last` that does. */
  lemma SheddingStep(prepared: Document, doc: Document, size: Document -> nat, budget: nat, rounds: nat, dropped: nat,
                     next: Document, lost: nat, last: nat)
    requires Shedding(prepared, doc, size, budget, rounds, dropped) && !Leaves(doc, size, budget)
    requires Leaves(ShedTimes(prepared, last), size, budget)
    requires next == Shed(doc) && Total(next) + lost == Total(doc)
    ensures Shedding(prepared, next, size, budget, rounds + 1, dropped + lost)
    ensures rounds < last
  {
    hide Shed, Total, ShedTimes;
    ShedOnceMore(prepared, rounds);
  }

  /** The shedding loop, with its way out when no run has a result left. */
  method ShedToBudget(runs: seq<SarifRun>, size: Document -> nat, budget: nat, ghost prepared: Document,
                      ghost last: nat)
    returns (dropped: nat, ghost rounds: nat)
    requires DistinctRuns(runs) && prepared == ValuesOf(runs) && Leaves(ShedTimes(prepared, last), size, budget)
    modifies runs
    ensures Leaves(ValuesOf(runs), size, budget)
    ensures Shedding(prepared, ValuesOf(runs), size, budget, rounds, dropped)
  {
    hide *;
    SheddingStarts(prepared, size, budget);
    var bytes, doc := Measure(runs, size);
    rounds, dropped := 0, 0;
    while bytes > budget
      invariant doc == ValuesOf(runs) && bytes == size(doc)
      invariant Shedding(prepared, doc, size, budget, rounds, dropped)
      decreases last - rounds
    {
      if Total(doc) == 0 {
        break;
      }
      MustGoOn(doc, size, budget);
      ghost var before := doc;
      var lost;
      lost, bytes, doc := ShedAndMeasure(runs, doc, size);
      SheddingStep(prepared, before, size, budget, rounds, dropped, doc, lost, last);
      dropped, rounds := dropped + lost, rounds + 1;
    }
    MayLeave(doc, size, budget);
  }

  lemma MustGoOn(doc: Document, size: Document -> nat, budget: nat)
    ensures size(doc) > budget && Total(doc) != 0 ==> !Leaves(doc, size, budget)
  {
  }

  lemma MayLeave(doc: Document, size: Document -> nat, budget: nat)
    ensures size(doc) <= budget || Total(doc) == 0 ==> Leaves(doc, size, budget)
  {
  }

  method ShedAndMeasure(runs: seq<SarifRun>, ghost doc: Document, size: Document -> nat)
    returns (lost: nat, bytes: nat, next: Document)
    requires DistinctRuns(runs) && doc == ValuesOf(runs) && Total(doc) > 0
    modifies runs
    ensures next == ValuesOf(runs) && bytes == size(next)
    ensures next == Shed(doc) && Total(next) + lost == Total(doc)
  {
    hide Shed, Total, ValuesOf, DistinctRuns;
    lost := ShedRound(runs, doc);
    bytes, next := Measure(runs, size);
  }

  method AddShedNote(runs: seq<SarifRun>, dropped: nat)
    requires DistinctRuns(runs)
    modifies runs
    ensures ValuesOf(runs) == NoteShed(old(ValuesOf(runs)), dropped)
  {
    ghost var before := ValuesOf(runs);
    if dropped > 0 && |runs| > 0 {
      runs[0].notes := runs[0].notes + [ShedForSize(dropped)];
    }
    assert ValuesOf(runs) == NoteShed(before, dropped);
  }

  /** `bound_sarif_document`, whenever its loop ends: the rounds stop at the first document that fits or
      has nothing to shed, and the note on shed results comes after that.  Results held plus results
      owned up to in the notes are as many as before. */
  method BoundSarifDocument(runs: seq<SarifRun>, size: Document -> nat, budget: nat, cap: Option<nat>)
    returns (dropped: nat, ghost rounds: nat)
    requires DistinctRuns(runs)
    requires LoopEnds(Prepared(ValuesOf(runs), size, budget, cap), size, budget)
    modifies runs
    ensures
      var prepared := Prepared(old(ValuesOf(runs)), size, budget, cap);
      var bounded := ShedTimes(prepared, rounds);
      && Leaves(bounded, size, budget)
      && (forall m | 0 <= m < rounds :: !Leaves(ShedTimes(prepared, m), size, budget))
      && Total(bounded) + dropped == Total(prepared)
      && ValuesOf(runs) == NoteShed(bounded, dropped)
      && (size(prepared) <= budget ==> size(ValuesOf(runs)) <= budget)
    ensures Answered(ValuesOf(runs)) == Answered(old(ValuesOf(runs)))
  {
    ghost var before := ValuesOf(runs);
    ghost var last: nat :| Leaves(ShedTimes(Prepared(before, size, budget, cap), last), size, budget);
    hide Shed, Floor, Total, CapAll, StripDocument, ValuesOf, DistinctRuns, NoteShed, ShedTimes, Answered, Leaves;
    CapRuns(runs, cap);
    var bytes, doc := Measure(runs, size);
    if bytes > budget {
      StripRuns(runs);
      bytes, doc := Measure(runs, size);
    }
    dropped, rounds := ShedToBudget(runs, size, budget, doc, last);
    FitsAtOnce(doc, ValuesOf(runs), size, budget, rounds, dropped);
    AddShedNote(runs, dropped);
    EveryResultIsAnswered(before, size, budget, cap, rounds, dropped);
  }

  /** A document that fits after the first pass is returned as it is. */
  lemma FitsAtOnce(prepared: Document, doc: Document, size: Document -> nat, budget: nat, rounds: nat, dropped: nat)
    requires Shedding(prepared, doc, size, budget, rounds, dropped)
    ensures size(prepared) <= budget ==> rounds == 0 && NoteShed(doc, dropped) == prepared
  {
    hide Total, Shed;
    NoShedding(prepared);
    assert rounds > 0 ==> !Leaves(ShedTimes(prepared, 0), size, budget);
  }

  /** The note on the results shed for size, on the first run. */
  function NoteShed(doc: Document, dropped: nat): Document {
    if dropped == 0 || doc == [] then doc else doc[0 := doc[0].(notes := doc[0].notes + [ShedForSize(dropped)])]
  }

  /** What the note on `k` shed results costs: as much at every round, since no round touches the notes. */
  ghost predicate NoteCosts(prepared: Document, size: Document -> nat, cost: nat -> nat) {
    forall m: nat, k: nat :: size(NoteShed(ShedTimes(prepared, m), k)) == size(ShedTimes(prepared, m)) + cost(k)
  }

  lemma RoundsOnlyShed(doc: Document, n: nat)
    ensures Total(ShedTimes(doc, n)) <= Total(doc)
  {
    hide *;
    var gone := RoundsShed(doc, n);
  }

  function LostBy(prepared: Document, n: nat): (lost: nat)
    ensures Total(ShedTimes(prepared, n)) + lost == Total(prepared)
  {
    RoundsOnlyShed(prepared, n);
    Total(prepared) - Total(ShedTimes(prepared, n))
  }

  /** One round takes the document from above the budget to far enough below it to leave room for the note on
      everything shed so far. */
  ghost predicate ClearsTheNote(prepared: Document, size: Document -> nat, cost: nat -> nat, budget: nat, m: nat) {
    size(ShedTimes(prepared, m)) > budget && size(ShedTimes(prepared, m + 1)) + cost(LostBy(prepared, m + 1)) <= budget
  }

  /** When the returned document is within budget: exactly if it was before any shedding, or if the round that
      crosses the budget also clears the note.  The loop looks for the first of the two only. */
  lemma ReturnedFitsIff(prepared: Document, size: Document -> nat, cost: nat -> nat, budget: nat,
                        doc: Document, rounds: nat, dropped: nat)
    requires ShedShrinks(size) && NoteCosts(prepared, size, cost)
    requires Shedding(prepared, doc, size, budget, rounds, dropped) && Leaves(doc, size, budget)
    ensures size(NoteShed(doc, dropped)) <= budget <==>
            size(prepared) <= budget || exists m: nat :: ClearsTheNote(prepared, size, cost, budget, m)
  {
    hide Total, NoteShed, ShedShrinks, ShedTimes;
    NoShedding(prepared);
    FitsAtOnce(prepared, doc, size, budget, rounds, dropped);
    if size(prepared) > budget {
      assert dropped == LostBy(prepared, rounds);
      assert size(NoteShed(doc, dropped)) == size(doc) + cost(dropped);
      if size(NoteShed(doc, dropped)) <= budget {
        assert rounds > 0;
        assert !Leaves(ShedTimes(prepared, rounds - 1), size, budget);
        assert ClearsTheNote(prepared, size, cost, budget, rounds - 1);
      }
      if m: nat :| ClearsTheNote(prepared, size, cost, budget, m) {
        CrossingIsFirst(prepared, size, budget, doc, rounds, dropped, m);
      }
    }
  }

  /** The loop leaves after the one round that crosses the budget. */
  lemma CrossingIsFirst(prepared: Document, size: Document -> nat, budget: nat, doc: Document, rounds: nat,
                        dropped: nat, m: nat)
    requires ShedShrinks(size)
    requires Shedding(prepared, doc, size, budget, rounds, dropped) && Leaves(doc, size, budget)
    requires size(ShedTimes(prepared, m)) > budget >= size(ShedTimes(prepared, m + 1))
    ensures rounds == m + 1
  {
    hide Total, ShedShrinks, ShedTimes;
    if size(doc) > budget {
      ShedKeepsSome(prepared, rounds);
      NothingToShed(prepared);
      StuckStays(prepared, m);
      StuckStays(prepared, m + 1);
      assert false;
    }
    if rounds <= m {
      ShedTimesAdd(prepared, rounds, m - rounds);
      ShedTimesShrinks(size, doc, m - rounds);
    }
  }

  lemma {:induction false} ShedTimesAdd(doc: Document, m: nat, n: nat)
    ensures ShedTimes(doc, m + n) == ShedTimes(ShedTimes(doc, m), n)
    decreases m
  {
    hide Shed;
    if m > 0 { ShedTimesAdd(Shed(doc), m - 1, n); }
  }

  /** So a caller who wants to stay within a limit asks for a budget that leaves room for the note on all the
      results: then the loop ends and the returned document, note and all, is within the limit. */
  lemma RoomForTheNote(prepared: Document, size: Document -> nat, cost: nat -> nat, limit: nat)
    requires ShedShrinks(size) && NoteCosts(prepared, size, cost)
    requires forall j: nat, k: nat | j <= k :: cost(j) <= cost(k)
    requires size(Floor(prepared)) + cost(Total(prepared)) <= limit
    ensures
      var budget: nat := limit - cost(Total(prepared));
      && LoopEnds(prepared, size, budget)
      && forall doc, rounds: nat, dropped: nat ::
           Shedding(prepared, doc, size, budget, rounds, dropped) && Leaves(doc, size, budget)
           ==> size(NoteShed(doc, dropped)) <= limit
  {
    hide Total, NoteShed, ShedShrinks, ShedTimes, Floor;
    var budget: nat := limit - cost(Total(prepared));
    LoopEndsIff(prepared, size, budget);
    forall doc, rounds: nat, dropped: nat | Shedding(prepared, doc, size, budget, rounds, dropped)
        && Leaves(doc, size, budget)
      ensures size(NoteShed(doc, dropped)) <= limit
    {
      if Total(doc) == 0 {
        ShedKeepsSome(prepared, rounds);
        NothingToShed(prepared);
        StuckStays(prepared, rounds);
        SomeResults(prepared);
        ShedStuck(prepared);
      }
      assert dropped <= Total(prepared);
      assert size(NoteShed(doc, dropped)) == size(doc) + cost(dropped);
    }
  }

  /** Two results, one too many: one round brings the document within the budget, and the note takes it over the
      budget again.  So whatever the size measure, what the loop hands on ends up over budget. */
  lemma NoteOvershoots(a: SarifResult, b: SarifResult, size: Document -> nat, budget: nat)
    requires IdentityOf(a) != IdentityOf(b) && a.snippet == b.snippet == ""
    requires
      var doc := [RunValue([a, b], [])];
      size(doc) > budget && size(Shed(doc)) <= budget < size(NoteShed(Shed(doc), 1))
    ensures
      var doc := [RunValue([a, b], [])];
      && Prepared(doc, size, budget, None) == doc && LoopEnds(doc, size, budget)
      && forall final, rounds: nat, dropped: nat ::
           Shedding(doc, final, size, budget, rounds, dropped) && Leaves(final, size, budget)
           ==> size(NoteShed(final, dropped)) > budget
  {
    hide FirstOccurrences, Ranked, Shed, IdentityOf, Total, NoteShed;
    var doc := [RunValue([a, b], [])];
    DistinctAreKept([a, b]);
    assert CapRun(doc[0], None) == doc[0];
    assert CapAll(doc, None) == doc;
    Unsnipped(a, b);
    assert StripDocument(doc) == doc;
    OneOfTwo(doc);
    var shed := Shed(doc);
    assert ShedTimes(doc, 1) == ShedTimes(shed, 0) == shed;
    assert Leaves(ShedTimes(doc, 1), size, budget);
    forall final, rounds: nat, dropped: nat | Shedding(doc, final, size, budget, rounds, dropped)
        && Leaves(final, size, budget)
      ensures size(NoteShed(final, dropped)) > budget
    {
      assert rounds <= 1;
      assert rounds != 0 by { NoShedding(doc); }
    }
  }

  lemma Unsnipped(a: SarifResult, b: SarifResult)
    requires a.snippet == b.snippet == ""
    ensures StripAll([a, b]) == [a, b]
  {
    assert [a, b][1..] == [b] && [b][1..] == [];
    assert StripAll([b]) == [b];
  }

  lemma OneOfTwo(doc: Document)
    requires |doc| == 1 && |doc[0].results| == 2 && doc[0].notes == []
    ensures Total(doc) == 2 && Total(ShedTimes(doc, 1)) == 1
    ensures |ShedTimes(doc, 1)| == 1 && |ShedTimes(doc, 1)[0].results| == 1 && ShedTimes(doc, 1)[0].notes == []
  {
    hide Ranked;
    assert doc[1..] == [];
    ShedMeans(doc, 0, 1);
    var shed := Shed(doc);
    assert |shed| == 1 && shed[1..] == [];
    assert ShedTimes(doc, 1) == ShedTimes(shed, 0);
  }

  lemma {:induction false} ShedOnceMore(doc: Document, n: nat)
    ensures ShedTimes(doc, n + 1) == Shed(ShedTimes(doc, n))
    decreases n
  {
    hide Shed;
    if n > 0 { ShedOnceMore(Shed(doc), n - 1); }
  }
}
