# Verified model of the scanner's analysis core

This project models the parts of the TimeCodeSecurity scanner whose correctness is not visible from
one function body, and proves what they promise.

* **The cross-file taint engine.** Python syntax trees (`PyAst.dfy`) are walked (`Walks.dfy`),
  reduced to compact facts (`Facts.dfy`), and functions are summarised: which parameters reach the
  return and which reach a sink (`Summarizer.dfy`; `Flows.dfy` says exactly which, by chains of
  assignments, `Chains.dfy`), and whether the function is a sanitizer (`Evidence.dfy`). What a
  summary means is stated against an evaluation of straight-line bodies (`Dataflow.dfy` for the
  parameters, `Verdict.dfy` for the sanitizer verdict) and of paths through blocks (`Paths.dfy`).
  Names, classes and calls are resolved through the symbol index (`SymbolIndex.dfy`,
  `Resolution.dfy`, `Calls.dfy`). The propagation lifts sink edges through call sites, unless a
  decorator neutralises the parameter (`Decorators.dfy`): `Forwarding.dfy` and `FixedPoint.dfy` say
  what the least fixed point is, `Engine.dfy` is the mutable engine whose loop computes it. The
  second phase catalogs signal handlers and tasks, then reports tainted calls (`Callers.dfy`,
  `CallerAnalysis.dfy`; `References.dfy` says what a decorator and a dispatch refer to,
  `Reports.dfy` exactly which calls are reported, `CallerTaint.dfy` what the taint of a caller
  means), skipping modules by a fact-level gate (`Gate.dfy`, `SignalWitness.dfy`); `EndToEnd.dfy`
  runs both phases. `Sanitizers.dfy` is the sanitizer audit, `SiteOrder.dfy` what its order of
  judging means, and `Pep695.dfy` the in-place source rewriter.
* **Around it.** PEP 735 group expansion (`DependencyGroups.dfy`), SARIF ranking, bounding and rule
  indexing (`SarifRanking.dfy`, `SarifBounding.dfy`, `SarifRules.dfy`), bisection around crashing files
  (`JsIsolation.dfy`), the template auditor (`TemplateAuditor.dfy`), the rate limiter
  (`RateLimit.dfy`), the GitHub annotation encoder (`Annotations.dfy`), finding consolidation
  (`Consolidation.dfy`) and fix verification (`FixVerification.dfy`).
* **Shared.** `Text.dfy` holds string helpers, `Sets.dfy` the sizes of finite sets.

Objects whose methods update fields are classes; loops over lists and dictionaries are methods proved
against specification functions; the edit loop of the rewriter works on an array. Properties of those
specifications are lemmas.

In these places the code does not do what its comments, or its callers, would have it do. The model
follows the code, and says with which input it fails and exactly when it does not:

* The comment at cross_file_engine.py:1062-1064 says the gate over-approximates the caller analysis. It
  does for direct calls only. `_module_emits` hands the receiver kind of a call shape to
  `_resolve_reference_fact`, which expects a reference kind, so no `.send` or `.delay` site is ever
  found (`Gate.GateMissesEveryDispatch`; a whole module that is wrongly skipped in
  `SignalWitness.GateSkipsDispatchingModule`). A silent gate is right if and only if no call of the module
  dispatches a tainted argument that reaches a sink (`Gate.SilentGateIsRight`), and a run loses nothing if
  and only if every module with such a call is let through (`CallerAnalysis.GateLosesNothingIff`).
* A function can be called a sanitizer because of an assignment that comes after its return
  (`Verdict.LateAssignmentFoolsVerdict`). Which straight-line functions may be called one is read off the
  body (`Verdict.RightIffHarmless`); every function the code calls one on the evidence of its body may be,
  unless a statement after the return made the returned name clean (`Verdict.EvidenceIsRight`), and judging
  by the names clean at the return would be safe always (`Verdict.JudgedAtReturnIsHarmless`).
* The shedding loop of `bound_sarif_document` need not end: one run with one result that is over budget
  keeps it running for ever (`SarifBounding.LoopForEver`). It ends if and only if the document has no
  result, or fits, or fits once every run is down to its best result (`SarifBounding.LoopEndsIff`).
* A function whose name contains that of a sanitizer is called one whatever it does
  (`Verdict.NameFoolsFlag`); `Verdict.FlagIsRightIff` says when the flag as a whole is right.
* `ast.walk` is breadth first, so in nested blocks the summary can miss an assignment that the return after it
  reads (`Paths.NestedAssignmentIsMissed`). On a path whose statements the walk meets in their order the
  summary is right (`Paths.PathIsNonInterfering`), and blocks of one level always give such paths
  (`Paths.OneLevelIsWithin`).
* A neutralised parameter is said never to be observed raw (cross_file_engine.py:1523-1532). The code looks at
  the wrapper's first call of what it wraps only, so a second call can hand the raw value over
  (`Decorators.SecondCallIsRaw`). Nothing but sanitizers' values is handed over if and only if every such call
  hands over a sanitizer call there (`Decorators.HandsMadeIff`).
* The taint of a caller misses request data that a method returns from its receiver, since contracts speak of
  parameters only (`CallerTaint.ReceiverHidesTaint`). In straight-line callers that is the only way: an untainted
  name holds the same in all runs if and only if no untainted name is assigned what a method returns whose
  receiver carries request data (`CallerTaint.TaintMissesNothingIff`). Assignments inside blocks are not looked at
  (`CallerTaint.BlockHidesTaint`).
* The audit's walk is called chronological (cross_file_engine.py:50). It meets an assignment before the calls in
  its own value and a decorator after the body, so a call can be suppressed that receives the raw value
  (`SiteOrder.InnerCallIsSuppressed`). In straight-line functions suppressed calls receive sanitizers' values if
  and only if every name judged by an assignment still to come was made by a sanitizer before
  (`SiteOrder.ReceivesMadeIff`).
* The note on shed results is added after the last size test, so the returned document may be larger than
  the budget (`SarifBounding.NoteOvershoots`). It is not if and only if no shedding was needed or the round
  that crosses the budget also clears the note (`SarifBounding.ReturnedFitsIff`); a budget that leaves room
  for the note on all results is always enough (`SarifBounding.RoomForTheNote`).
* "Nothing is dropped until a cap is actually exceeded" (sarif_adapter.py:132) does not hold for
  duplicates (`SarifBounding.DuplicateIsDroppedUnderTheCap`, `SarifBounding.NothingDroppedIff`).
* Nor are errors always kept ahead of lesser results (sarif_adapter.py:128-129): of one identity the first
  result stays, not the best (`SarifBounding.RepeatHidesTheBest`; two findings whose rules are rolled up into
  one in `SarifRules.RollupHidesTheError`). No cut loses a better result than it keeps if and only if no repeat
  outranks the first result of its identity (`SarifBounding.NothingBetterIsLostIff`).
* `verify_fix` never checks that the target was reported before, so a patch that removes nothing can be
  a verified fix (`FixVerification.AbsentTargetIsVerified`). Verified fixes of a target always shrink the report
  if and only if the target was reported (`FixVerification.ShrinksIffTargetWasThere`).
* Consolidating twice drops the first pass's `consolidated_from` (`Consolidation.SecondPassForgets`): the
  two passes account for every finding if and only if no two share a family, a file and a line
  (`Consolidation.TwoPassesConserveIff`). No alert's file, line, CWE or severity changes.
* The line table of the source rewriter cuts at every boundary `splitlines` knows, a form feed among
  them, while `tokenize` counts newlines only. So a form feed misplaces every later row
  (`Pep695.FormFeedMisplacesRows`); the start of a row is right if and only if no other boundary comes
  before it (`Pep695.StartIsRightIff`). Then an edit misses its tokens: in one source the name of a function is
  blanked and its closing bracket stays (`Pep695.FormFeedMovesTheEdit`). All edits are where their tokens are if
  and only if no such boundary comes before the row of a parameter list or alias (`Pep695.EditsAreTrueIff`).

## Model

| member | source | states |
|---|---|---|
| Walks.OrderedNodes | cross_file_engine.py:49-61 | the explicit stack yields the recursive pre-order, with or without nested scopes |
| Walks.OrderedVisitsBelow | cross_file_engine.py:49-61 | when scopes are entered, exactly the nodes of the tree are visited |
| Walks.RecordProductive | cross_file_engine.py:118-143 | the one recording walk returns both lists, each equal to the filtered walk it replaces |
| Walks.HasAssignStatement | cross_file_engine.py:95-115 | pruning expressions loses nothing: true iff an assignment statement occurs anywhere below the root |
| PyAst.WalkVisitsBelow | cross_file_engine.py:64-75 | the breadth-first walk visits exactly the nodes of the trees |
| SymbolIndex.ProperSuffixes | symbol_indexer.py:369-411 | joining all but the first parts of a dotted name gives exactly what follows one of its dots |
| SymbolIndex.BuildSuffixIndex | symbol_indexer.py:390-411 | the suffix table answers every candidate as the linear scan over the registered modules it replaces |
| SymbolIndex.ResolvesInOrder | symbol_indexer.py:336-367 | a name resolves to a definition of its module, else to what an explicit import of it brings, else to what the first star import that has it brings |
| Facts.HarvestFunctions | cross_file_engine.py:452-529 | every harvested row holds the facts of the last definition with that qualified name: receivers, call shapes, decorators and wrapper shape, all read off its tree |
| Resolution.ResolveInheritedMethod | cross_file_engine.py:1442-1470 | the queue search ends on every hierarchy and returns what the level-by-level specification finds |
| Resolution.BasesInSourceOrder | cross_file_engine.py:1472-1488 | the parents of a class are the classes its base spellings resolve to, each at the place of its spelling, in source order, and none is left out |
| Resolution.InheritedMethodIsNearest | cross_file_engine.py:1442-1488 | with ancestors told from the base spellings alone: None iff no ancestor declares the method; otherwise a declaring ancestor at minimal distance |
| Resolution.OverrideWins | cross_file_engine.py:1442-1488 | a class that declares the method itself is the answer, whatever its ancestors declare |
| Calls.InstanceBindings | cross_file_engine.py:1597-1634 | the receiver map built from tree nodes equals the one built from harvested facts |
| Calls.ReceiversOfAssignments | cross_file_engine.py:1597-1634 | keeping only the assignments of a walk gives the same receivers as keeping all of it |
| Calls.SiteResolvesLikeCall | cross_file_engine.py:955-1015 | resolving a harvested call shape gives the contract that resolving the call expression gives |
| Calls.OffsetsAgree | cross_file_engine.py:1039-1057 | the receiver offset read off the facts is the one read off the tree |
| Calls.SiteContractExists | cross_file_engine.py:955-1015 | a resolved site always names a function that has a contract |
| Calls.CallResolves | cross_file_engine.py:1382-1518 | a bare call resolves to the function its name resolves to; a dotted one to the method of its receiver's class, else to the function of an imported module, else to a function of that name |
| Calls.SelfIsOwner | cross_file_engine.py:1597-1634 | inside a method `self` and `cls` are objects of its class |
| Calls.BindArgs | cross_file_engine.py:1017-1037 | positional then keyword binding: each parameter gets the last keyword meant for it, else the positional in its place |
| Calls.BoundByCall | cross_file_engine.py:1291-1333 | over the call itself: a parameter gets the last named keyword argument meant for it, else the positional in its place, and nothing from a `**mapping` argument |
| Calls.KeywordReachesSlot | cross_file_engine.py:1291-1333 | a keyword reaches the slot the callee reads it from iff no earlier slot's key ends in a bracket and that keyword |
| Calls.SiteBindsLikeCall | cross_file_engine.py:1291-1333 | binding over facts binds the same parameters, each to the bare name of the argument bound over the tree |
| Forwarding.LiftKeepsSound | cross_file_engine.py:913-931 | one lift keeps every edge's route a genuine, repetition-free chain of forwardings that ends at the owner of the sink in the origin file |
| Decorators.NameUsesIff | cross_file_engine.py:159-173 | the names an expression is said to read are those a way down leads to that avoids the spelling of callees |
| Decorators.NeutralizedIff | cross_file_engine.py:1520-1574 | a parameter is neutralised iff a bare decorator resolves to a definition whose wrapper takes and hands over as many arguments and hands over, in its place, a call of a known sanitizer that reads no name but that parameter |
| Decorators.UntouchedNeutralizesNothing | cross_file_engine.py:1520-1574 | decorators that hand over bare names neutralise nothing |
| Decorators.FirstForwardHandsMade | cross_file_engine.py:1520-1574 | in every evaluation the call looked at hands over, in a neutralised place, a value a sanitizer made |
| Decorators.HandsMadeIff | cross_file_engine.py:1520-1574 | in all evaluations of a straight-line wrapper all its calls hand over, in a place, values sanitizers made iff each hands over, copies undone, a sanitizer call there |
| Decorators.SecondCallIsRaw | cross_file_engine.py:475-488 | a wrapper whose parameter counts as neutralised and whose second call hands it over raw |
| FixedPoint.InitialIsSound | cross_file_engine.py:843-862 | the summariser's edges, with empty provenance tables, satisfy that invariant |
| FixedPoint.LeastFixedPoint | cross_file_engine.py:843-862 | a sound and closed table holds a sink for a parameter iff a chain of bare-name, non-neutralised forwardings reaches it |
| FixedPoint.LeastAmongClosed | cross_file_engine.py:843-862 | it is contained in every closed table that holds the own sinks |
| FixedPoint.OrderIndependent | cross_file_engine.py:843-862 | two finished propagations, whatever their order, hold the same keys with the same weakness |
| FixedPoint.PresentIsPossible | cross_file_engine.py:864-911 | the keys held are always among finitely many possible ones, which bounds the rounds |
| FixedPoint.LiftEffect | cross_file_engine.py:905-931 | one lift adds exactly one key, to one function |
| Engine.CrossFileTaintEngine.constructor | cross_file_engine.py:607-648 | a fresh engine over summarised contracts is valid, with empty provenance |
| Engine.CrossFileTaintEngine.DecoratorSanitizedParams | cross_file_engine.py:1520-1574 | the cached answer is the neutralised slots of the callee; the contracts stay |
| Engine.CrossFileTaintEngine.RecordLift | cross_file_engine.py:913-931 | the appended edge, its origin and its route are those of the lift, and the engine stays valid |
| Engine.CrossFileTaintEngine.LiftArgument | cross_file_engine.py:901-931 | after the innermost loop every sink of the callee's parameter is one of the caller's, also when the list read is the list extended |
| Engine.CrossFileTaintEngine.LiftCalleeSinks | cross_file_engine.py:864-933 | keys are only added; when it answers that nothing was, every call site of the function is closed |
| Engine.CrossFileTaintEngine.PropagateTransitiveSinkContracts | cross_file_engine.py:843-862 | the rounds end on every call graph, and then a function holds a sink iff a forwarding chain reaches it |
| Summarizer.KwargSlots | function_summarizer.py:279-353 | one slot `c[key]` for each literal key that `c[key]`, `c.get(key)` or `c.pop(key)` reads from the `**c` mapping, each once |
| Flows.SinkEdgesIff | function_summarizer.py:171-225 | an edge is recorded iff a call of a known sink has, at a tracked position, an argument that spells a name or slot to which a chain of assignments met before leads from the edge's parameter |
| Flows.TaintedReturnsIff | function_summarizer.py:189-194 | a parameter is a tainted return iff such a chain leads from it into a returned expression |
| Flows.CleanIff | function_summarizer.py:174-186 | a name is clean iff the last assignment of it that the sweep met takes its value from a known sanitizer |
| Flows.EvidenceIff | function_summarizer.py:227-255 | the body is evidence iff no sink edge exists, some returned expression is reached by a parameter through a chain of assignments, and each such expression is a known sanitizer's call or a clean name |
| Dataflow.ReadsAreReferenced | function_summarizer.py:257-271 | the reference set of an expression covers every parameter its evaluation reads |
| Dataflow.ReturnIsNonInterfering | function_summarizer.py:156-225 | straight-line bodies: two calls that agree on the parameters in `tainted_returns` return equal values |
| Dataflow.SinkArgumentIsDetermined | function_summarizer.py:196-225 | a tracked positional argument of an executed sink call is determined by the parameters with an edge for that sink |
| Paths.PathIsNonInterfering | function_summarizer.py:171-225 | blocks or not: two calls that take one path and agree on `tainted_returns` return equal values, if the sweep meets the statements of the path in their order |
| Paths.OneLevelIsWithin | function_summarizer.py:171-225 | it does so on every path through blocks that are not nested |
| Paths.NestedAssignmentIsMissed | function_summarizer.py:171-225 | a body of two nested blocks that returns its argument on a path and is said to return no parameter |
| Evidence.SummaryEdgesOk | function_summarizer.py:196-225 | every edge names one of the parameters and the weakness of its sink name |
| Verdict.RightIffHarmless | function_summarizer.py:227-255 | every call of a straight-line body returns nothing, a sanitizer's value or the same for all arguments, whatever its expressions compute, iff, copies undone, its first return names a sanitizer call or an expression that depends on no parameter |
| Verdict.HarmfulIsWrong | function_summarizer.py:227-255 | any other straight-line body has a call whose value was made by no sanitizer and changes with the arguments |
| Verdict.JudgedAtReturnIsHarmless | function_summarizer.py:250-255 | the code's own test, applied with the clean names and aliases at the first return, never errs |
| Verdict.EvidenceIsRight | function_summarizer.py:227-255 | a body judged to sanitize is harmless unless a statement after its first return made the returned name clean |
| Verdict.LateAssignmentFoolsVerdict | function_summarizer.py:227-255 | a function judged to sanitize that returns its argument untouched |
| Verdict.EarlyAssignmentIsSanitizer | function_summarizer.py:227-255 | with the same two statements in the other order the function is judged the same and is harmless |
| Verdict.FlagIsRightIff | function_summarizer.py:150-241 | a function flagged by name or evidence is rightly so iff its body is harmless; without such a name it is unless a statement after the return made the returned name clean |
| Verdict.NameFoolsFlag | function_summarizer.py:150-152 | a function flagged for its name that returns its argument |
| Evidence.SummarizeFunction | function_summarizer.py:128-255 | the contract holds the swept taints and edges; its parameters are the positional ones without the receiver, then one slot for each key read from `**kwargs`; it is a sanitizer iff its name or its body says so |
| Evidence.SummariesAreWellFormed | function_summarizer.py:93-126 | contracts built this way are ones the propagation can start from |
| Callers.BuildEventCatalog | cross_file_engine.py:719-743 | a function is a subscriber of a signal, or a task, iff one of its decorators says so |
| References.CataloguedOffTrees | cross_file_engine.py:719-743 | off the trees: a function subscribes to the signals its called `receiver` decorators refer to with their first argument, and is a task iff a decorator is named so |
| References.ReferenceIs | cross_file_engine.py:745-776 | a name refers to what its import binds in a registered module, else to itself here; a dotted spelling to its last part in the module the rest spells |
| References.PrefixOfChain | cross_file_engine.py:146-156 | a chain of names is spelt with its dots |
| References.TargetsIff | cross_file_engine.py:791-841 | a dispatch reaches the subscribers of the signal that is sent, or the task that is delayed |
| Callers.ModuleMayEmit | cross_file_engine.py:1059-1086 | the gate answers yes iff some harvested call resolves to, or dispatches to, a contract with a sink |
| Callers.ModuleEmitsIff | cross_file_engine.py:1059-1086 | that is, iff some call of some function resolves or dispatches to a function with a sink edge in its contract |
| Reports.ContractFindingsExact | cross_file_engine.py:1682-1745 | a call reports exactly the callee's edges whose argument is bound, not neutralised and tainted |
| Reports.CallFindingsExact | cross_file_engine.py:1227-1289 | a call reports exactly those of its callee and those of every handler it dispatches to |
| Reports.BodyFindingsExact | cross_file_engine.py:1227-1289 | a body reports a finding iff a call of one of its statements reports it under the taint at that statement |
| Reports.FunctionFindingsExact | cross_file_engine.py:1227-1289 | the same for a function, whose taint starts with its request parameters |
| Reports.ModuleFindingsExact | cross_file_engine.py:1227-1289 | a module reports a finding iff a call of one of its functions does |
| CallerTaint.TaintIsChain | cross_file_engine.py:1233-1267 | a name is tainted at a statement iff a chain of assignments leads to it from a request parameter or a source, through a resolved call only from a returned argument and never through a sanitizer, otherwise through any text that mentions the name |
| CallerTaint.SanitizerAddsNothing | cross_file_engine.py:1249-1252 | an assignment from a sanitizer's contract taints no name |
| CallerTaint.TaintMissesNothingIff | cross_file_engine.py:1233-1267 | in straight-line callers an untainted name holds the same in any two runs that differ in request parameters and sources only iff no untainted name is assigned what a method returns whose receiver carries such data |
| CallerTaint.UntaintedArgumentIsSame | cross_file_engine.py:1703-1708 | likewise an argument that is not called tainted has the same value in both runs |
| CallerTaint.ReportsAtTaint | cross_file_engine.py:1227-1289 | a function reports at that taint, started from its parameters `request` and `req` |
| CallerTaint.ReceiverHidesTaint | cross_file_engine.py:1246-1260 | two statements after which an untainted name can hold request data |
| CallerTaint.BlockHidesTaint | cross_file_engine.py:1239-1240 | an assignment inside a block taints nothing |
| Reports.FindingTraceIsGenuine | cross_file_engine.py:1714-1730 | a trace is the source, then genuine forwarding sites outermost first, then the sink in the file of its owner |
| Gate.SilentGateMeansSinklessCalls | cross_file_engine.py:1059-1086 | in a module the gate skips, every examined direct call resolves to no contract with a sink |
| Gate.SilentReportIsDispatch | cross_file_engine.py:1059-1086 | whatever the full analysis reports in a module the gate skips is reported through a dispatch |
| Gate.SilentGateIsRight | cross_file_engine.py:1059-1086 | the full analysis of a skipped module reports nothing iff none of its calls dispatches, under the taint at its statement, a tainted argument that reaches a sink |
| Gate.GateMissesEveryDispatch | cross_file_engine.py:759-776 | where the caller analysis finds handlers behind a dispatch, the gate finds none |
| Gate.GateFindsNamelessOnly | cross_file_engine.py:1059-1086 | the handlers the gate does find are those of a nameless signal or task |
| SignalWitness.GateSkipsDispatchingModule | cross_file_engine.py:1059-1086 | a module with a signal, its handler and its sender, all facts and contracts those of its tree, that the gate skips although the full analysis reports a finding in it |
| CallerAnalysis.CallerPhase.EmitContractFindings | cross_file_engine.py:1682-1745 | appends the findings of one resolved call, in parameter and edge order |
| CallerAnalysis.CallerPhase.AnalyzeFunctionBody | cross_file_engine.py:1227-1289 | appends the findings of one body under statement-by-statement taint |
| CallerAnalysis.CallerPhase.Run | cross_file_engine.py:650-705 | appends exactly the findings of the readable modules that the gate lets through |
| CallerAnalysis.GateLosesNothingIff | cross_file_engine.py:1059-1086 | the gated findings are the ungated ones iff every readable module that dispatches a tainted argument into a sink is let through |
| EndToEnd.ReportedIffSinkReached | cross_file_engine.py:1665-1745 | after the propagation, a call reports a sink through a parameter iff its argument is tainted and a forwarding chain carries the parameter there |
| EndToEnd.EveryFindingIsJustified | cross_file_engine.py:650-705 | every finding of a run reports a recorded edge with a genuine route |
| EndToEnd.RunReportsExactly | cross_file_engine.py:650-705 | a run reports a finding iff a call of a function of a module the gate lets through reports it under the taint at its statement |
| EndToEnd.AnalyzeProgram | cross_file_engine.py:650-705 | propagation, event catalog and caller phase in one: the contracts used hold a sink iff a forwarding chain reaches it, the findings are those of the gated modules, and each has a recorded edge and a genuine route |
| Sanitizers.SanitizedSites | cross_file_engine.py:1176-1216 | the gated record-then-replay scan returns the sites of walking the body twice |
| Sanitizers.ReplayFiltered | cross_file_engine.py:1176-1216 | replaying only the recorded nodes is replaying all of them |
| Sanitizers.ReplayIsExact | cross_file_engine.py:1176-1216 | a call is a site iff it loads a name the walk met an assignment of, and every such name was last assigned, in walk order, from a sanitizer |
| Sanitizers.UnassignedBodyHasNoSite | cross_file_engine.py:1176-1216 | a body the assignment test rejects has no site |
| SiteOrder.SitesAreJudged | cross_file_engine.py:1176-1216 | in a straight-line function a call is judged by the statements up to and including its own, and a decorator's call by the whole body |
| SiteOrder.ReceivesMadeIff | cross_file_engine.py:49-61 | suppressed calls receive only values made by resolved sanitizers, whatever the expressions compute, iff each name judged by an assignment that has not run comes, copies undone, from a sanitizer already |
| SiteOrder.InnerCallIsSuppressed | cross_file_engine.py:49-61 | a one-line function whose inner call is suppressed and receives the raw argument |
| Pep695.ApplyEdits | cross_file_engine.py:303-319 | the in-place loops leave the array as the specification of the edits says |
| Pep695.FillAllKeepsLines | cross_file_engine.py:303-319 | edits keep the length and every newline, introduce none, and touch nothing outside their spans |
| Pep695.FillWritesText | cross_file_engine.py:303-319 | read without its newlines, an edited span holds exactly the padded replacement |
| Pep695.MatchingBracket | cross_file_engine.py:223-233 | the first bracket that closes everything opened since the given one, if any |
| Pep695.StartIsRightIff | cross_file_engine.py:244-250 | the table gives the start of a row, or a place before it; it is right iff before the row there is no line end of `splitlines` but newlines, each with or without a carriage return before it |
| Pep695.FormFeedMisplacesRows | cross_file_engine.py:244-250 | a text whose second row is looked up one character too early |
| Pep695.RewritePep695 | cross_file_engine.py:236-319 | None when no header has type parameters and none is an alias; otherwise the source with an edit for each parameter list and each alias, in the places the table gives, and no other |
| Pep695.RewriteKeepsLines | cross_file_engine.py:303-319 | such edits keep the length and every newline and carriage return of the source |
| Pep695.EditsAreTrueIff | cross_file_engine.py:244-301 | the edits are where their tokens really are iff no line boundary but newlines comes before the rows of any parameter list or alias |
| Pep695.RewriteTouchesOnlyHeaders | cross_file_engine.py:236-319 | under that condition characters change only between the true ends of parameter lists and of the `type NAME` of aliases |
| Pep695.FormFeedMovesTheEdit | cross_file_engine.py:236-319 | a source with a form feed whose every rewriting blanks the name of a function and leaves its closing bracket |
| DependencyGroups.Resolver.Dfs | manifest_parser.py:719-742 | on every include graph the search ends and appends what the recursive specification says |
| DependencyGroups.CycleIffReported | manifest_parser.py:719-742 | a cycle issue is recorded iff a cycle of declared groups is reachable from the root |
| DependencyGroups.NotFoundIffReported | manifest_parser.py:719-742 | a missing-group issue is recorded iff a reachable include names an undeclared group |
| DependencyGroups.AcyclicIsFlattened | manifest_parser.py:715-744 | with no reachable cycle the result is the in-order recursive flattening, duplicates kept |
| SarifRanking.RankedIsStableSort | sarif_adapter.py:39-43 | the ranking is ordered, a permutation, and keeps discovery order within one priority |
| SarifRanking.PriorityMeans | sarif_adapter.py:22-47 | a result ranks before another iff it is severer (error, warning or unlisted, note, none) or as severe and no less specific (sink, other, hygiene) |
| SarifRanking.CutKeepsBest | sarif_adapter.py:148-153 | a cut keeps no result of worse priority than one it sheds, and of equal ones the earliest |
| SarifRanking.CutOfRanking | sarif_adapter.py:163-171 | ranking and cutting again is one cut: repeated shedding does not change the order |
| SarifRanking.FirstOccurrencesAreDistinct | sarif_adapter.py:134-147 | dedupe keeps every identity once, with a result of the list |
| SarifRanking.Dedupe | sarif_adapter.py:136-146 | the loop keeps the first result of each identity |
| SarifBounding.BestCutKeepsBest | sarif_adapter.py:134-172 | what remains of a run differs pairwise in rule, file or line, and among the first results of each identity no shed one outranks a kept one |
| SarifBounding.NothingBetterIsLostIff | sarif_adapter.py:128-172 | in every cut each result of the run is stood for by a kept one of its identity that is no worse, or its identity is gone and it outranks no kept result: iff no repeat outranks the first result of its identity |
| SarifBounding.BoundedLosesNothingBetter | sarif_adapter.py:128-172 | under that condition the same holds for every cap, every budget and every number of rounds |
| SarifBounding.RepeatHidesTheBest | sarif_adapter.py:134-153 | three results of which the best is dropped although a worse one is kept |
| SarifBounding.BoundedKeepsBest | sarif_adapter.py:134-172 | bounding leaves, of every run, a best cut of its results within the display cap, whatever the budget |
| SarifBounding.EveryResultIsAnswered | sarif_adapter.py:134-177 | results held plus results owned up to in the notes stay as many as before, after any number of rounds |
| SarifBounding.CapTakesTheRight | sarif_adapter.py:134-155 | kept results, duplicates and results over the cap are together the results of the run, none over the cap outranks a kept one, and the note gives the two numbers |
| SarifBounding.RoundsShed | sarif_adapter.py:163-171 | after any number of rounds the results held and the results shed are together, as a multiset, those before |
| SarifBounding.NothingDroppedIff | sarif_adapter.py:79-155 | a run keeps its results as they are iff every two differ in rule, file or line and they are within the cap |
| SarifBounding.EveryAlertStays | sarif_adapter.py:79-155 | within the cap every rule, file and line that is reported stays reported |
| SarifBounding.DuplicateIsDroppedUnderTheCap | sarif_adapter.py:134-147 | a run within the cap that loses a result |
| SarifBounding.ShedStuck | sarif_adapter.py:163-171 | once no run holds two results a round changes nothing |
| SarifBounding.ShedFitsIffFloorFits | sarif_adapter.py:163-171 | if shedding never enlarges a document, some number of rounds brings it under budget iff the document with at most one result a run fits |
| SarifBounding.LoopEndsIff | sarif_adapter.py:163-171 | if shedding never enlarges a document, the loop ends iff the document has no result, or fits, or fits with one result a run |
| SarifBounding.LoopForEver | sarif_adapter.py:163-171 | one run with one result that is over budget: no round leaves the loop |
| SarifBounding.ShedToBudget | sarif_adapter.py:163-171 | the loop stops at the first round that is within budget or has nothing to shed, and counts what it shed |
| SarifBounding.BoundSarifDocument | sarif_adapter.py:121-177 | the prepared document is shed up to the first round that leaves the loop, then noted; one that fits is returned as it is; results held plus results owned up to in the notes stay as many |
| SarifBounding.ReturnedFitsIff | sarif_adapter.py:161-177 | for a note of any cost, the returned document fits iff the prepared one did, or some round takes it from above the budget to at least the cost of its note below |
| SarifBounding.RoomForTheNote | sarif_adapter.py:161-177 | with a budget reduced by the cost of the note on all results the loop ends and the returned document, note included, is within the limit, provided the floor document and that note are |
| SarifBounding.NoteOvershoots | sarif_adapter.py:161-177 | two results of which one is shed: under every size by which one fits and the note does not, what the loop returns is over budget |
| SarifRules.SarifRuleTable.EmitSast | sarif_adapter.py:439-512 | one result per finding under its canonical CWE, each pointing at the driver rule with its id |
| SarifRules.SarifRuleTable.EmitSca | sarif_adapter.py:553-605 | the same for advisories, whose missing rules are appended in sorted order first |
| SarifRules.SarifRuleTable.EmitSecrets | sarif_adapter.py:652-671 | the same for secrets, all under one rule |
| SarifRules.SarifResults | sarif_adapter.py:243-671 | the document has distinct driver rules, one result per finding in order, and every `ruleIndex` in range and right |
| SarifRules.BoundingKeepsPointers | sarif_adapter.py:719 | the final bounding leaves every remaining `ruleIndex` right |
| SarifRules.RollupHidesTheError | sarif_adapter.py:45-75 | an error and a note whose rules roll up into one: they share an identity and the note is kept |
| JsIsolation.IsolatedScan.ScanFilesIsolated | js_scanner.py:840-853 | findings, dropped files and child runs are those of the recursive bisection |
| JsIsolation.BisectLosesOnlyCrashers | js_scanner.py:840-853 | exactly the crashing files are dropped, in order; the rest is reported, in order |
| JsIsolation.BisectRunsAreBounded | js_scanner.py:840-853 | k crashing files among n cost at most 1 + 2k times the rounded-up logarithm of n child runs |
| JsIsolation.CeilLog2IsLeast | js_scanner.py:840-853 | that logarithm is the least exponent whose power of two reaches n |
| JsIsolation.NoFileIsForgotten | js_scanner.py:840-853 | whatever makes a batch fail, every file is in a batch scanned as a whole or is dropped on its own |
| TemplateAuditor.TemplateSecurityAuditor.HandleStartTag | html_auditor.py:165-192 | the stack, the depth and the reports stay those of the events so far |
| TemplateAuditor.TemplateSecurityAuditor.HandleData | html_auditor.py:194-214 | the same for character data, where a token protects the innermost open form only |
| TemplateAuditor.TemplateSecurityAuditor.HandleEndTag | html_auditor.py:216-236 | the same for end tags; a form end tag pops one frame |
| TemplateAuditor.TemplateSecurityAuditor.Close | html_auditor.py:238-255 | the stack ends empty and every form start was popped exactly once |
| TemplateAuditor.AuditTemplate | html_auditor.py:257-266 | on any event stream there is exactly one finding per reported identity, at its line or at 1: what single events report, and the unprotected forms |
| TemplateAuditor.ReportedLines | html_auditor.py:216-255 | the CWE-352 identities are exactly the start lines of forms that saw no token while innermost, told from heights alone, without a stack |
| TemplateAuditor.IntegrityLines | html_auditor.py:98-127 | the CWE-353 identities are exactly the lines of scripts and style sheet links that load from another host without an integrity attribute that is not blank |
| TemplateAuditor.VerbatimIffUnclosed | html_auditor.py:170-171 | the clamped depth is positive iff some stretch of events up to here opened more verbatim tags than it closed |
| RateLimit.RateLimiter.CheckRateLimit | app.py:127-153 | accepted iff fewer than 30 (premium) or 5 accepted times are in the last 60 seconds; the queue holds exactly those, sorted |
| RateLimit.AfterIsWindow | app.py:138-140 | the pruned queue is the suffix of the accepted times later than the bound |
| RateLimit.AfterAgain | app.py:138-140 | pruning at an earlier time loses nothing that a later window holds |
| RateLimit.ServeKey | app.py:127-153 | the calls a limiter serves for one key form a run in which each call is decided from the ones before, and its queue ends as the accepted times still inside the window |
| RateLimit.WindowNeverOverLimit | app.py:127-153 | in every run, any 60-second window holds at most 30 (premium) or 5 accepted calls |
| Annotations.EscapeIsSimultaneous | ci_reporter.py:41-85 | the chained replaces equal one simultaneous character map |
| Annotations.EscapeRoundTrip | ci_reporter.py:41-85 | a decoder gets every text back from either escape |
| Annotations.NormalizePath | ci_reporter.py:88-96 | the path with slashes for backslashes, position by position, without a leading `./` |
| Annotations.LineReadsBack | ci_reporter.py:158-165 | cutting a line at the first `::`, the first space and the commas recovers level, properties and message; it is one line |
| Annotations.DigitsRoundTrip | ci_reporter.py:98-107 | a printed coordinate reads back as the number |
| Annotations.FormatGithubAnnotation | ci_reporter.py:109-165 | the line reads back as the normalised level, path, positive coordinates, title and message, without CR or LF |
| Consolidation.ConsolidateFamily | cli.py:415-451 | the loops build the merge of the group: members by family priority, the first representing the rest, and the text naming the CWEs present |
| Consolidation.PresentMeans | cli.py:415-424 | the CWEs that text draws on are exactly those of the family that some member has, none named more often than the family lists it |
| Consolidation.MessageTells | cli.py:415-424 | read back at its commas, a cookie alert's text lists the flags of the CWEs present; any other text has the trimmed operation after the first colon and lists the CWEs beside the primary one, in the family's order |
| Consolidation.MergeAccounts | cli.py:427-451 | a group's alert keeps the key's file and line and, with what it absorbed, accounts for every member once |
| Consolidation.MergePicksPrimary | cli.py:431-433 | the alert's CWE is one of the group, and no member has one of earlier priority |
| Consolidation.MergeIsLoudest | cli.py:427-451 | its severity and confidence are the highest in the group, as the first member that has them spells them |
| Consolidation.ConsolidateFindings | cli.py:454-474 | the two passes give the sorted list of pass-through findings and merged groups |
| Consolidation.ConsolidationConserves | cli.py:454-474 | alerts plus absorbed entries are as many as the inputs, and each input's site occurs exactly once |
| Consolidation.ReportIsRight | cli.py:454-474 | sorted, one alert per family, file and line, each an unchanged input or the merge of its whole group |
| Consolidation.NothingIsPlayedDown | cli.py:454-474 | every family finding has its alert, at least as severe and as confident |
| Consolidation.ConsolidatingAgainChangesNothing | cli.py:454-474 | a second pass keeps the order and every file, line, CWE and severity, and absorbs nothing |
| Consolidation.TwoPassesConserveIff | cli.py:454-474 | the alerts of two passes account for every finding iff no two findings share a family, a file and a line |
| Consolidation.SecondPassForgets | cli.py:454-474 | two findings whose first pass absorbs one, and whose second names none |
| FixVerification.CollectSignatures | verification_engine.py:59-79 | the loop collects exactly the signatures of tainted edges into sinks |
| FixVerification.RootVariableIs | verification_engine.py:20-33 | a signature's root variable is the first step with a colon that is no return, else "unknown" |
| FixVerification.ReplaceFirstIsLocal | verification_engine.py:48-50 | the patch rewrites one place, the leftmost occurrence of the snippet |
| FixVerification.VerifyFix | verification_engine.py:35-90 | VERIFIED_FIX iff the patch applies, all files parse, and what is found afterwards was found before and is not the target; likewise for the other verdicts |
| FixVerification.ChainShrinks | verification_engine.py:35-90 | along verified fixes with present targets the findings strictly shrink, so the chain is no longer than the first set; no other file changes |
| FixVerification.ShrinksIffTargetWasThere | verification_engine.py:35-90 | whatever the analyser does elsewhere, every verified fix of a target leaves strictly fewer findings iff the target was reported |
| FixVerification.AbsentTargetIsVerified | verification_engine.py:81-90 | a verified fix that changes nothing, for a target that was never reported |

## Left out

- SarifBounding.BoundSarifDocument: requires that the loop ends, since a method that runs for ever has no result to speak of; `LoopEndsIff` says when that is. The size measure is a parameter, and each run is an object of its own.
- SarifBounding.ReturnedFitsIff: takes a size that shedding does not enlarge and a note whose cost does not change from round to round, both true of a serialised document.
- SarifBounding.LoopEndsIff: takes a size that shedding does not enlarge, which a serialised document has.
- Walks.HasAssignStatement: requires Python's grammar (no statement inside an expression), which the source's parser guarantees.
- CallerAnalysis.CallerPhase.Run: takes modules whose qualified names are distinct; the source overwrites the facts of an earlier definition of the same name.
- EndToEnd.AnalyzeProgram: starts from the finished index, facts and summaries; the members that build facts and summaries stand beside it, and reading the project from disk is not modelled.
- Dataflow.ReturnIsNonInterfering: straight-line bodies with name targets; lambdas, comprehensions, assignment expressions, `yield` and `await` are excluded, the `**kwargs` container may only be read through literal keys, and an evaluation is an arbitrary deterministic function of its operands, so in-place mutation of Python objects is not captured.
- Dataflow.SinkArgumentIsDetermined: the same bodies.
- Decorators.HandsMadeIff: wrappers with straight-line bodies; "made by a sanitizer" goes by the name of the call, as the code does.
- CallerTaint.TaintMissesNothingIff: straight-line callers; the texts of expressions are taken to contain the names spelt in them and the texts of their parts, and callees to do what their summaries say.
- Paths.PathIsNonInterfering: two calls on one path, each statement of it run once; which path is taken may depend on any parameter, and a second turn of a loop is not a path here.
- SiteOrder.ReceivesMadeIff: the calls of one statement are all taken to see the values from before it, and a decorator's names to hold what they hold before the body.
- Verdict.RightIffHarmless: the same bodies; "whatever its expressions compute" ranges over evaluations whose values show how they were made.
- Annotations.FormatGithubAnnotation: coordinates are optional integers; the source also converts other values to integers.
- Consolidation.ConsolidateFamily: the input findings are taken to be distinct objects, since the source compares the representative by identity; fields that every finding passes through unchanged are one opaque part of it.
- RateLimit.RateLimiter.CheckRateLimit: the clock is a parameter that does not go back for a key; concurrent requests on the shared deque are not modelled.
- TemplateAuditor.AuditTemplate: events and the untrusted `safe` matches of a text are inputs; letter case and white space are ASCII; messages and severities are omitted.
- FixVerification.VerifyFix: the analyser and the parser are functions of the files, and an edge's transform is given already split at its arrows.
- Pep695.RewritePep695: takes the tokens with their rows and columns, and asks that names and brackets lie in the source; `tokenize` itself is not modelled.
- Parsing, unparsing, regular expressions and the TOML, YAML and JSON libraries: trees, token lists and parsed tables are inputs; `expr_context` nodes are dropped from trees.
- Symbol index construction from files and relative import resolution: the finished index is an input, and path comparison is by equal strings.
- The texts themselves that the substring taint tests read, the `apply_async` argument envelope and the spelling of sinks: parameters or given facts.
- The spelling prefilter in front of the sanitizer scan (cross_file_engine.py:1172-1174): depends on symbol spellings this model does not have.
- The order of the module and function tables: one list of functions, in any order.
- Finding merge, comparison with other tools, Dockerfile instructions, the OSV client and its caches: independent of everything modelled here.
- Web routes, authentication, reports, event bus, configuration, rule tables, file discovery and subprocess handling: plumbing and data.
