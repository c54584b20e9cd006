# Verified models of the srcMove pipeline and its benchmark

srcMove reports code that a commit moved. Around the detector stand a benchmark that samples
BigCloneBench pairs, runs the detector on them through a resumable journal and scores the results, and
a history analysis that walks a first-parent chain in batches. This project models the stateful
algorithms of those parts and proves what they promise.

`dafny verify dfyconfig.toml` checks everything. Each module stands for one component:

- **Allocation, Selection**: the water-filling quota allocator of stratified Type-3 sampling and the
  bounded heaps it feeds. The allocation is the unique fair one, larger samples contain smaller ones,
  and the error exits behind the first checks are never taken.
- **Locators, NamespaceObserver, NamespaceIndex, Admission, StreamAdmission**: the locator lexer, the
  observer that records extension elements, the stack-built forest of their spans, and the two binding
  passes. The lexer is compared with a definition of prefix tokens that does not scan, the spans with the
  open elements, the forest with a plain filter, and admission is characterised exactly.
- **MoveCollection, MoveSequences, SequenceProperties, SiblingSequences, Reports, ReportCounts, ResultAdmission,
  CollectedOutput, SequenceExamples**: the collection of moves from content groups, their aggregation
  into ordered sequences, the projection to reports, the reported histograms, and the checks of the
  result validator on what comes out.
- **Text, Oracle, Scoring, Summary**: extraction, wrapping and normalization of fragments, the position
  and text oracle, the outcome of a case, and the summary counters.
- **Journal, JournalRuns, RunReport**: the execution journal as an object, and every history of
  invocations over it as a state machine in which the process may die after any commit.
- **History, Coordinator**: the target-driven history frontier over its store, and the bounded
  concurrent scheduler that publishes pairs in order and, whatever fails, ends with every worker gone.
- **SelectionIndex, IndexProperties, Audit**: the dense-position selection index and the population
  audit over it.
- **Schedule, ScheduleOrder, Catalog, Classifier**: the position-balanced benchmark schedule, the batched catalog
  import and framed inventories, and the movement classifier.
- **Ordering, Wrappers**: sorting, multiset totals and string order; option and result types.

Code that updates variables or objects is a method or a class, proved against a function or predicate;
the properties are lemmas about that specification. Sorting is a specification function: on totally
ordered keys every correct sort returns the same list (`Ordering.SortedPermutationIsUnique`).

## Conventions and assumptions

- Hashes and content ids are ranks or identifiers; a rank may collide, and then ids decide.
- A SQL table is the sequence of its rows; a transaction is one step, and a process dies only between
  steps. The clock, JSON columns and identity hashes are left out.
- Random shuffles and samples are arbitrary permutations and arbitrary draws.
- A repository is its first-parent chain, newest commit first, without repeated commits.
- Results produced by srcMove do not contain the keys that the scoring code adds to them.
- The benchmark cases are numbered by distinct ids, and the manifest counts them correctly.
- A catalog row has a content-pair id exactly when its source is available.
- The group and registry data of the aggregation refer to existing candidates, and candidates of
  different linked groups start at different nodes. Move ids are drawn without repetition.
- Locators are written by srcReader, which is not part of this model. Where its convention
  (`doc/plans/results_schema_v3/README.md`, lines 207-245) is needed, it is a named predicate:
  `StreamAdmission.StepOk` and `Streamed` (a locator is the path of steps of the open elements),
  `CollectedOutput.OwnLocators` (a locator belongs to one node), `SequenceProperties.SlotsNameXpaths`
  and `ResultAdmission.LocatorsNameFiles`.

## Findings

Some natural claims hold only under a condition. The code is modelled as it is; the exact condition and
a counterexample are proved.

- Sequences are globally maximal, and the output passes the validator, when a locator belongs to one
  node: `CollectedOutput.CollectedSequencesAreMaximal` and `CollectedOutputIsAdmitted`, for all moves that
  the collector makes of disjoint groups. srcReader promises such locators by its positional qualifiers,
  which older captures do not have (lines 214-217 of the convention), and the construction itself does not
  ensure it. It drops a group
  whose source locator another qualifying group has (src/move_sequences.cpp 84-87), but an alias without a
  reliable context does not qualify, and its move then takes the group of the original.
  `SequenceExamples.MaximalityCanFail` and `OutputCanBeRejected` run the collector on such groups: all
  other promises hold, yet two links that continue each other are separated, and two spans overlap. The
  exact conditions are `SequenceProperties.ConsecutiveLinksShareIff` and
  `CollectedOutput.CollectedOutputIsAdmittedIff`.
- Withdrawing the mapping of the structural region, unlike the other evidence, can turn a relocation
  into a stationary or restructured classification: `Classifier.WithdrawingTheRegionIff` is the exact
  condition, `Classifier.WithdrawingTheRegionCanMislead` the example. Such observations come from a code
  fragment that moves between two continuing blocks of one function, say the bodies of two `if`
  statements, neither of which holds an unchanged statement of its own: the regions are mapped apart,
  while the anchors of both are the ends of the function (src/region_filter.cpp 566-607).

## Model

| member | source | states |
|---|---|---|
| Allocation.NeverCross | bigMoveBench/selection.py:386-413 | two fair allocations of any totals never cross: no band gains while another loses |
| Allocation.FairIsUnique | bigMoveBench/selection.py:386-413 | a total has one fair allocation in declared order |
| Allocation.FairIsMonotone | bigMoveBench/selection.py:386-413 | a larger total gives no band less |
| Allocation.HouseMonotone | bigMoveBench/selection.py:386-413 | one more unit goes to exactly one band |
| Allocation.RaiseActive | bigMoveBench/selection.py:403-408 | a full round raises every active band by the quotient, capped, and consumes what it adds |
| Allocation.ServeLeaders | bigMoveBench/selection.py:399-402 | the last partial round serves the leading active bands and stays fair |
| Allocation.WaterFill | bigMoveBench/selection.py:386-413 | the loop ends with the fair allocation of the target; it neither runs out of active bands nor stops making progress |
| Allocation.EqualAllocation | bigMoveBench/selection.py:374-413 | fails exactly on an empty band or a sample below one frame a band, else returns the fair allocation of min(sample, eligible) |
| Selection.StrataPartition | bigMoveBench/selection.py:336-342 | exactly one declared band covers a similarity, so the unclassified assertion never fires |
| Selection.SelectionsNest | bigMoveBench/selection.py:416-471 | a selection has exactly min(size, total) frames, and a larger size only adds frames |
| Selection.SelectionIsUnique | bigMoveBench/selection.py:416-471 | size, seed and inventory determine the selection |
| Selection.SelectionTakesLowRanks | bigMoveBench/selection.py:435-448 | a selection takes a fair number of frames of each band, and of two frames of a band the one with the lower seed rank, or on equal ranks the greater id |
| Selection.HeapPush | bigMoveBench/selection.py:445-446 | pushing keeps the least element first and adds the candidate |
| Selection.HeapReplace | bigMoveBench/selection.py:447-448 | replacing removes the least element and adds the candidate |
| Selection.Offer | bigMoveBench/selection.py:441-448 | after each frame the heap holds the best candidates seen, up to the quota |
| Selection.FillHeaps | bigMoveBench/selection.py:435-448 | after the scan every heap is its band's sort-and-take |
| Selection.Assemble | bigMoveBench/selection.py:449-470 | the union of the heaps is the selection, no heap is empty, and the reports carry the totals of the bands and of their chosen frames |
| Selection.SelectedWithinEligible | bigMoveBench/selection.py:454-468 | a band reports min(quota, eligible) selected frames and never more selected than eligible rows |
| Selection.SelectType3 | bigMoveBench/selection.py:416-471 | fails exactly as the allocator does; otherwise the allocation is fair, every band has its quota of chosen frames, those of lowest seed rank, the reports are those of the bands, and the zero-frames error is never raised |
| Locators.ScanIsExact | src/pipeline.cpp:81-112 | the lexer reports a name exactly when a maximal unquoted name run followed by a colon spells it |
| Locators.ValidateIsExact | src/pipeline.cpp:76-113 | validation succeeds exactly for rooted locators whose prefix tokens are all bound, and fails as invalid exactly for unrooted ones |
| Locators.ReportedPrefixIsUnbound | src/pipeline.cpp:104-108 | the prefix that is reported is spelled by the locator and not bound |
| Locators.CharacterClasses | src/pipeline.cpp:81-103 | the letters, digits and marks of names, and the quotation marks, listed |
| Locators.ValidateIsMonotone | src/pipeline.cpp:76-113 | more bindings never invalidate a locator |
| Locators.ValidateLocator | src/pipeline.cpp:76-113 | the scanning loop computes the validation, including which prefix is reported |
| NamespaceIndex.WalkIsNestingDepth | src/pipeline.cpp:63-66 | on nested-or-disjoint spans a lookup takes one step more than the nesting depth |
| NamespaceIndex.PopEnded | src/pipeline.cpp:48-49 | popping keeps every span that has not ended before the next one starts |
| NamespaceIndex.LocatorNamespaceIndex.constructor | src/pipeline.cpp:44-53 | each span's parent is the last earlier span that is still open |
| NamespaceIndex.LocatorNamespaceIndex.UpperBound | src/pipeline.cpp:57-61 | binary search splits the spans at the position |
| NamespaceIndex.LocatorNamespaceIndex.Ancestors | src/pipeline.cpp:55-69 | for any spans in opening order the lookup returns exactly the enclosing ones, ascending |
| NamespaceIndex.LocatorNamespaceIndex.WalkUp | src/pipeline.cpp:63-66 | walking the parents collects every enclosing span |
| Admission.UsesAtIsExact | src/pipeline.cpp:315-319 | a candidate is bound for exactly the spans around its position |
| Admission.PassGrows | src/pipeline.cpp:318-333 | a pass only adds bindings, each of an enclosing use |
| Admission.OptionalPassSucceeds | src/pipeline.cpp:337-340 | the second pass never fails |
| Admission.PublishedPassBinds | src/pipeline.cpp:315-336 | a successful first pass binds every enclosing prefix to its own URI and admits every locator |
| Admission.AdmissionIsSound | src/pipeline.cpp:299-341 | success depends on published candidates alone; the final map extends theirs and still validates every published locator |
| Admission.ModesAgree | src/pipeline.cpp:299-341 | diagnostics and ordinary mode leave the same map when both succeed |
| Admission.OutputModesAgree | src/pipeline.cpp:299-341 | the same over a registry, when grouped candidates are active |
| Admission.AdmissionSucceedsIff | src/pipeline.cpp:315-336 | for any locators, exactly when admission succeeds: supported prefixes with one meaning each, and locators covered in turn |
| Admission.OrdinaryAfterDiagnostics | src/pipeline.cpp:303-336 | for any locators, exactly when ordinary mode succeeds after diagnostics mode has |
| Admission.OrdinaryModeSucceedsIff | src/pipeline.cpp:299-341 | for any locators, the same over a registry, when grouped candidates are active |
| Admission.OwnAdmissionSucceedsIff | src/pipeline.cpp:315-336 | when locators spell only prefixes of their own spans, admission succeeds exactly when those are supported and have one meaning each |
| Admission.OrdinaryModeFollows | src/pipeline.cpp:299-341 | then ordinary mode succeeds whenever diagnostics mode does, with the same map |
| Admission.OneSidedGroupsDoNotMatter | src/pipeline.cpp:309-313 | a group without deletes or without inserts never changes the ordinary result |
| Admission.OrdinaryModeAdmitsGroups | src/pipeline.cpp:309-336 | when ordinary mode succeeds, every prefix around a candidate of a group with both sides is supported and bound to its own URI, and its locator spells bound prefixes |
| Admission.DiagnosticsAdmitActive | src/pipeline.cpp:305-308 | when diagnostics mode succeeds, the same holds of every active candidate |
| Admission.OrdinaryModeSucceedsExactly | src/pipeline.cpp:299-341 | over own prefixes, ordinary mode succeeds exactly when the prefixes around candidates of groups with both sides are supported with one meaning each |
| Admission.SupportedIffSpellable | src/pipeline.cpp:320-325 | a prefix is supported exactly when a locator can spell it as one prefix token |
| Admission.EmplaceUse | src/pipeline.cpp:318-333 | binding one enclosing use, with both errors, is the specified step |
| Admission.Bind | src/pipeline.cpp:315-335 | binding one candidate, statement by statement, is the specified step |
| Admission.RunPass | src/pipeline.cpp:336-340 | one pass over the chosen ids is the specified pass |
| Admission.AdmitLocators | src/pipeline.cpp:299-341 | the two passes compute the specified admission, in either mode |
| NamespaceObserver.XpathNamespaceObserver.Consume | src/region_filter.cpp:659-688 | the branches on one node do to the object what the step function does to its contents |
| NamespaceObserver.StateKnows | src/region_filter.cpp:655-689 | after any number of nodes the observer holds the nesting depth, the open extension elements, and one use per extension element in opening order, with its end once it is closed |
| NamespaceObserver.Observe | src/region_filter.cpp:1464-1483 | the uses of a stream are exactly its extension elements |
| NamespaceObserver.SpansAreOpenElements | src/region_filter.cpp:659-688 | at the start of an element the recorded spans around it are exactly those of the elements it stands in |
| NamespaceObserver.SpansAreNested | src/region_filter.cpp:659-688 | the spans come in opening order and are nested or disjoint |
| NamespaceObserver.PrefixSpelled | src/region_filter.cpp:682-684 | a step spells the prefix before its colon, and none when a predicate comes first |
| StreamAdmission.PathPrefixes | src/region_filter.cpp:678-684 | the prefix tokens of a path of locator steps are core prefixes and those of its own elements |
| StreamAdmission.StreamedPrefixesAreOwn | src/region_filter.cpp:655-689 | what the observer records covers every locator: it spells core prefixes and those of the spans around its candidate |
| StreamAdmission.StreamIsAdmittedIff | src/pipeline.cpp:299-341 | over the stream, admission succeeds exactly when the prefixes around published candidates are supported and have one meaning each |
| StreamAdmission.DiagnosticsNeverAdmitMore | src/pipeline.cpp:299-341 | over the stream, whatever diagnostics mode admits ordinary mode admits, with the same map |
| StreamAdmission.AdmitStream | src/pipeline.cpp:299-341 | the recorded spans meet what the index needs, and the passes compute the specified admission |
| MoveCollection.BuildMoveTags | src/writer/annotation_plan.cpp:114-152 | the loops over the linked groups compute the specified tags |
| MoveCollection.MoveTagsAreSound | src/writer/annotation_plan.cpp:94-110 | every tag stands where its candidate starts and carries the move id of a linked group of that candidate |
| MoveCollection.CollectMoveResults | src/writer/annotation_writer.cpp:252-276 | tagging, sorting, appending and materializing yield one entry per tagged move id |
| MoveCollection.EntriesAreOk | src/writer/annotation_writer.cpp:64-91 | the endpoints of an entry are tags of its move, with their locators |
| MoveSequences.ByFromXpathIsUnique | src/move_sequences.cpp:70-88 | an entry is a group exactly when one qualifying group has the xpath, and null exactly when several have |
| MoveSequences.SequencesIgnoreInputOrder | src/move_sequences.cpp:64-146 | with unique move ids the sequences do not depend on the order of groups or moves |
| MoveSequences.IndexGroups | src/move_sequences.cpp:70-88 | the emplace-or-null loop builds the specified map |
| MoveSequences.CollectLinks | src/move_sequences.cpp:90-107 | the loop collects the specified links |
| MoveSequences.ScanRun | src/move_sequences.cpp:124-127 | the inner loop stops at the end of the run |
| MoveSequences.RunSequence | src/move_sequences.cpp:128-141 | a run becomes a sequence with these members and endpoint spans |
| MoveSequences.CutRuns | src/move_sequences.cpp:122-144 | the outer loop cuts the links into maximal runs of at least two |
| MoveSequences.BuildMoveSequences | src/move_sequences.cpp:64-146 | the whole function computes the specified sequences |
| SequenceProperties.SortedLinksArePrepared | src/move_sequences.cpp:90-120 | the sorted links have unique moves, reliable endpoints and strictly increasing keys |
| SequenceProperties.SequenceShape | src/move_sequences.cpp:122-144 | a sequence has at least two members that share parents, lie apart in order on both sides and fill the ordinal span exactly |
| SequenceProperties.SequencesAreDisjoint | src/move_sequences.cpp:122-144 | a move is in at most one sequence |
| SequenceProperties.ConsecutiveLinksShareIff | src/move_sequences.cpp:38-49 | consecutive links share a sequence exactly when no selected link sorts between them |
| SequenceProperties.DistinctOrdinalsGiveMaximality | src/move_sequences.cpp:109-145 | with distinct source ordinals in a partition, consecutive links always share a sequence |
| SequenceProperties.OwnSourcesGiveMaximality | src/move_sequences.cpp:64-146 | when no two moves share a source and a sibling has one locator, consecutive links always share a sequence |
| SiblingSequences.SiblingLinksShareIff | src/move_sequences.cpp:38-49 | links between next siblings on both sides share a sequence exactly when no selected link sorts between them, spelled over files, parents, ordinals and ids |
| SiblingSequences.PairIsSelected | src/move_sequences.cpp:66-107 | the Type-1 move of a group that alone pairs two placed candidates is selected, with these ends |
| SiblingSequences.SiblingMovesShareASequence | src/move_sequences.cpp:64-146 | moves of next siblings to next siblings share a sequence, stated on moves, groups and candidates |
| SiblingSequences.SequenceMember | src/move_sequences.cpp:51-60 | every member is the Type-1 move of a one-to-one pair of placed candidates, which stand at their places in the spans and whose locators the spans list |
| Reports.BuildReportedMoves | src/move_sequences.cpp:148-177 | the projection loop computes the specified reports |
| Reports.IndexOwners | src/move_sequences.cpp:151-157 | the member table maps each member to its first sequence |
| Reports.BuiltSequencesAreWellFormed | src/move_sequences.cpp:64-146 | built sequences have distinct Type-1 members of the moves and distinct ids |
| Reports.ReportElements | src/move_sequences.cpp:161-175 | the reports are exactly those of the moves |
| Reports.ReportIdsAreUnique | src/move_sequences.cpp:161-175 | report ids are unique |
| Reports.ReportsPartitionMoves | src/move_sequences.cpp:148-177 | the reports' members are the move ids, each exactly once |
| ReportCounts.ReportsFollowFirstAppearance | src/move_sequences.cpp:161-175 | reports are listed in the order in which their first members appear |
| ReportCounts.EverySequenceIsReported | src/move_sequences.cpp:161-175 | every sequence is reported exactly once |
| ReportCounts.ReportedCounts | src/pipeline.cpp:362-375 | reported type2c and type3 equal the atomic counts; reported type1 is short of them by the folded members |
| ReportCounts.IndexById | src/pipeline.cpp:364-365 | the id table holds the relationship of each move |
| ReportCounts.CountReported | src/pipeline.cpp:366-375 | the counting loop computes the reported histogram |
| ResultAdmission.SpansMeetIffSlotsShared | srcmove_runtime/results_schema.py:169-177 | two sequence spans overlap exactly when two members share a sibling slot |
| ResultAdmission.OutputIsAdmittedIff | srcmove_runtime/results_schema.py:127-180 | any output passes these checks exactly when no candidate has two owners, no joined link is a copy or a residual, and no two joined links share a sibling slot |
| ResultAdmission.OwnEndsFreeSlots | srcmove_runtime/results_schema.py:169-177 | when no two moves share a source or a target and a sibling has one locator, no two links share a slot |
| CollectedOutput.OneMovePerGroup | src/writer/annotation_plan.cpp:128-149 | with disjoint groups the collector makes one move of every linked group and no other |
| CollectedOutput.MovesKeepTheirGroups | src/writer/annotation_writer.cpp:64-91 | the endpoints of a move are exactly the candidates of its group, and its relationship names the group's match |
| CollectedOutput.KindsAreExact | src/move_registry/content_group_builder.cpp:54-72 | the kind of a group, from its numbers of deleted and inserted candidates |
| CollectedOutput.CollectedEndpointsAreOwned | srcmove_runtime/results_schema.py:130-133 | in collected moves every candidate is an endpoint at most once, whatever the groups share |
| CollectedOutput.CollectedOutputIsAdmittedIff | srcmove_runtime/results_schema.py:127-180 | the output for collected moves passes exactly when no joined link is a copy or a residual and no two joined links share a sibling slot |
| CollectedOutput.CollectedMovesOwnTheirEnds | src/writer/annotation_writer.cpp:252-276 | when a locator belongs to one node, collected moves have sources and targets of their own |
| CollectedOutput.CollectedSequencesAreMaximal | src/move_sequences.cpp:64-146 | then links that continue each other always share a sequence |
| CollectedOutput.CollectedLinksAreSettled | src/move_registry/content_group_builder.cpp:94-95 | then a link belongs to a group that is neither a copy nor a residual |
| CollectedOutput.CollectedOutputIsAdmitted | srcmove_runtime/results_schema.py:127-180 | then the output for any disjoint groups passes these checks |
| SequenceExamples.MaximalityCanFail | src/move_sequences.cpp:84-107 | groups with an alias whose collected moves have two consecutive links separated |
| SequenceExamples.OutputCanBeRejected | srcmove_runtime/results_schema.py:169-177 | the same groups: every other check passes, and the spans overlap |
| Text.NormalizeIsTrim | bigMoveBench/oracle.py:212-215 | normalizing is joining the stripped lines without blank ones at the ends |
| Text.NormalizeIsIdempotent | bigMoveBench/oracle.py:212-215 | normalizing twice changes nothing |
| Text.NormalizeIgnoresIndentation | bigMoveBench/synthetic.py:16-22 | indenting a fragment does not change its normal text |
| Text.ExtractYieldsNormalForm | bigMoveBench/dataset.py:36-63 | an extracted fragment is non-blank and ends in a single LF |
| Text.RangeErrorsAreExact | bigMoveBench/dataset.py:36-63 | a range is invalid exactly when it has no lines or starts before the first, and too long exactly when it ends beyond the line feeds of the text |
| Text.WrapperRoundTrip | bigMoveBench/synthetic.py:25-46 | extracting the reported payload range from a rendered wrapper returns exactly the indented fragment |
| Text.WrappedFragmentIsRecognized | bigMoveBench/dataset.py:36-63 | extraction, wrapping and extraction again give a text that normalizes to the original fragment |
| Oracle.IndentedTextMatchesStrictly | bigMoveBench/oracle.py:230-244 | a fragment matches its indented form strictly, and matching is symmetric |
| Oracle.MatchMeans | bigMoveBench/oracle.py:218-244 | strict exactly on equal normal texts, tolerant exactly when one of two different ones is damaged and repair makes them equal |
| Oracle.OverlapIsSharedLine | bigMoveBench/oracle.py:208-209 | ordered ranges overlap exactly when they share a line |
| Oracle.CollectPositions | bigMoveBench/oracle.py:145-205 | positions are collected per move id, or fail when one cannot be resolved |
| Oracle.PositionsAreReported | bigMoveBench/oracle.py:145-205 | the table holds exactly the ordered line ranges of the moves with that id |
| Oracle.AssessPositiveCase | bigMoveBench/oracle.py:284-448 | the loop and its flags compute the specified assessment |
| Oracle.AssessmentIff | bigMoveBench/oracle.py:366-448 | detected exactly when some move links both texts and reaches both ranges; classified exactly when some such move has the expected relationship |
| Oracle.DetectedMoveIsExact | bigMoveBench/oracle.py:366-448 | a detection reports a detecting move, the statuses of the first of its texts that match, and whether its relationship is the expected one |
| Oracle.AddingMovesKeepsAPass | bigMoveBench/oracle.py:366-448 | adding resolvable moves keeps a pass and keeps a detection |
| Oracle.AssessmentIgnoresOrder | bigMoveBench/oracle.py:366-448 | the set of moves decides the outcome |
| Oracle.LabelKeepsDetection | bigMoveBench/oracle.py:284-448 | another expected label changes classification only |
| Oracle.WrapperMoveIsDetected | bigMoveBench/oracle.py:366-398 | a move that reports the wrapped fragments at their wrapper lines passes |
| Oracle.FindWholeFragmentMatch | bigMoveBench/evaluate.py:159-197 | finds the first move that links both complete texts |
| Scoring.ScoreCompletedCase | bigMoveBench/evaluate.py:110-264 | the scoring of one completed case, with the reviewed outcome |
| Scoring.OutcomeOfNegative | bigMoveBench/evaluate.py:126-197 | a known false positive fails the oracle when it cannot be judged, and is a false positive exactly when some move links both texts |
| Scoring.OutcomeOfPositive | bigMoveBench/evaluate.py:199-264 | a positive case is a miss exactly when no move detects it, and passes exactly when a detecting move has the expected relationship |
| Scoring.OutcomeOfReview | bigMoveBench/evaluate.py:218-233 | the reviewed outcome is a miss exactly when no move detects the case, and a pass exactly when a detecting move has the reviewed relationship |
| Scoring.StageOfMiss | bigMoveBench/evaluate.py:48-70 | the stage of a miss, from the number of grouped entries and the reported moves |
| Scoring.ExecuteCase | bigMoveBench/normalized_execution.py:1032-1229 | for any behaviour of the tools the record is coupled, each early outcome stands for exactly one failed stage, and only scored positive cases are reviewed |
| Scoring.RecordsAreCoupled | bigMoveBench/normalized_execution.py:1102-1229 | outcome, semantic status, reviewed outcome and stage of every record agree |
| Scoring.ReviewChangesOnlyClassification | bigMoveBench/evaluate.py:218-236 | a reviewed outcome differs only between detected outcomes, and never for a known false positive |
| Scoring.KnownFalsePositiveSplits | bigMoveBench/evaluate.py:159-197 | a known false positive passes exactly when every part of the result passes |
| Scoring.AddedMovesNeverHurt | bigMoveBench/evaluate.py:208-264 | added moves never worsen the original or the reviewed outcome of a positive case |
| Summary.Summarize | bigMoveBench/normalized_execution.py:580-668 | every counter is the number of rows it stands for |
| Summary.EveryRowIsCountedOnce | bigMoveBench/normalized_execution.py:619-647 | class counts over a complete list of classes sum to the rows |
| Summary.CountsAreConserved | bigMoveBench/normalized_execution.py:619-668 | outcome, reviewed and stage counts each sum to the rows, and the four kinds of pass to the passes |
| Summary.DerivedEligibleIsExact | bigMoveBench/normalized_execution.py:720-723 | the derived number of eligible cases is the number with eligible semantics |
| Summary.CategoryFunnel | bigMoveBench/normalized_execution.py:602-632 | agreed and reviewed agreed <= detected <= eligible <= completed <= selected in every category |
| Summary.GatePassesIff | bigMoveBench/evaluate.py:41-45 | exactly when a pair set passes its gate |
| Journal.ExecutionJournal.constructor | bigMoveBench/normalized_execution.py:184-213 | a new journal is empty and running |
| Journal.ExecutionJournal.RecoverRunning | bigMoveBench/normalized_execution.py:273-280 | running rows become interrupted and are counted; nothing else changes |
| Journal.ExecutionJournal.FindLatestTerminal | bigMoveBench/normalized_execution.py:282-287 | the terminal row of the case with the greatest ordinal |
| Journal.ExecutionJournal.Begin | bigMoveBench/normalized_execution.py:289-316 | appends a running row with the next ordinal, or fails on a used id and changes nothing |
| Journal.ExecutionJournal.Finish | bigMoveBench/normalized_execution.py:318-360 | makes the running row terminal, or fails when none is running and changes nothing |
| Journal.ExecutionJournal.CompletedCaseCount | bigMoveBench/normalized_execution.py:362-367 | counting each case once gives the number of cases with a terminal row |
| Journal.NextOrdinalCounts | bigMoveBench/normalized_execution.py:297-303 | with dense ordinals the next one is the number of attempts of the case |
| Journal.LatestIsLast | bigMoveBench/normalized_execution.py:282-287 | with dense ordinals the latest terminal row is the last one inserted |
| JournalRuns.StepKeepsJournal | bigMoveBench/normalized_execution.py:1266-1351 | every commit, and a crash after any commit, keeps the invariant and every terminal row |
| JournalRuns.HistoriesAreSafe | bigMoveBench/normalized_execution.py:1266-1351 | over every history no row is removed or renumbered and no terminal row changes |
| JournalRuns.SoundRows | bigMoveBench/normalized_execution.py:273-360 | ordinals are dense, at most one attempt runs, and only retryable outcomes are retried |
| JournalRuns.MustRunIff | bigMoveBench/normalized_execution.py:1274-1289 | a case runs exactly when it has no terminal attempt or, with retrying on, its last one is an upstream, tool or oracle failure |
| JournalRuns.InvocationRunsWhatIsNeeded | bigMoveBench/normalized_execution.py:1274-1345 | one invocation adds one attempt for each case that had to run, in case order, and none for others |
| JournalRuns.ReconciliationNeverFails | bigMoveBench/normalized_execution.py:1346-1350 | the terminal case count always reconciles after the last case |
| JournalRuns.CompletedStatusIsHonest | bigMoveBench/normalized_execution.py:369-382 | over every history a run marked completed has a terminal attempt for every case and none running, and an invocation at a case has marked the run as running |
| JournalRuns.RetryOffRunsEachCaseOnce | bigMoveBench/normalized_execution.py:1274-1289 | with retrying off a completed run has exactly one terminal attempt per case |
| JournalRuns.SettledRunsExecuteNothing | bigMoveBench/normalized_execution.py:1274-1289 | when no case has to run, no later invocation changes a row |
| JournalRuns.CompletedIsSettled | bigMoveBench/normalized_execution.py:1274-1289 | a completed run is settled for a plain rerun, and for a retrying one exactly when no latest outcome is retryable |
| JournalRuns.RecordsStayGood | bigMoveBench/normalized_execution.py:318-360 | a property of every recorded result holds of every terminal row |
| JournalRuns.CompletedResults | bigMoveBench/normalized_execution.py:384-397 | the latest results of a completed run cover exactly the cases, each by a result recorded for it |
| JournalRuns.InterruptionsAreInvisible | bigMoveBench/normalized_execution.py:1231-1351 | with deterministic tools every completed history has the results of an uninterrupted run |
| JournalRuns.RowsAreExecuted | bigMoveBench/normalized_execution.py:1315-1323 | every row that becomes terminal holds what the tools made of its case and ordinal |
| JournalRuns.DeterministicRun | bigMoveBench/normalized_execution.py:1266-1351 | from any sound journal, a completed history over deterministic tools has each case's own result |
| JournalRuns.VisitCase | bigMoveBench/normalized_execution.py:1274-1345 | the visit of one case is one or two steps of the machine over the tools, or a crash; an added row holds what the tools made of that case and ordinal |
| JournalRuns.RunOnce | bigMoveBench/normalized_execution.py:1266-1351 | one invocation is a history over the tools; the rows it adds hold what the tools made of their own cases; on return it has executed exactly what was needed, reused the rest and counted the failed attempts |
| RunReport.CompletedRunIsConserved | bigMoveBench/normalized_execution.py:1346-1364 | the summary of a completed run counts every case once, whatever happened on the way |
| RunReport.ScoredRunIsConserved | bigMoveBench/normalized_execution.py:1346-1364 | the same for a runner over tools whose records are scored from some outcome on the case |
| History.SelectionIsExact | srcmove_history/git.py:210-230 | the selected pairs are the next ones, as many as asked for or there are, with an exact exhaustion flag |
| History.BatchesTileTheChain | srcmove_history/database.py:516-534 | however batches are cut, the published pairs are the covered ones, each once |
| History.AnalysisDatabase.constructor | srcmove_history/analysis.py:463-471 | a new store holds its first batch, pending |
| History.AnalysisDatabase.CompletedPrefix | srcmove_history/database.py:639-660 | the number of leading sealed rows, or an error when a sealed row follows an unsealed one |
| History.AnalysisDatabase.AddPendingBatch | srcmove_history/database.py:433-540 | the next pairs become the pending batch; an exhausted history, a second batch and another starting commit are refused without effect |
| History.AnalysisDatabase.RecordOutcome | srcmove_history/database.py:542-637 | seals one row of the pending batch once, for the pair it was planned for, or fails without effect |
| History.AnalysisDatabase.PublishNext | srcmove_history/analysis.py:120-129 | publishing the next pair in sequence always succeeds and extends the log by it |
| History.AnalysisDatabase.CommitPendingBatch | srcmove_history/database.py:662-696 | a sealed batch moves the frontier by exactly its pairs; an unsealed one is refused without effect |
| History.ExecutePendingBatch | srcmove_history/analysis.py:545-592 | publishes the unsealed suffix and commits, or is interrupted with a valid store |
| History.PlanNextBatch | srcmove_history/analysis.py:515-542 | plans a non-empty batch within target and limit; the no-older-pair error is unreachable |
| History.AdvanceAnalysis | srcmove_history/analysis.py:289-366 | returns with coverage max(previous, min(target, chain)), fails only as specified, terminates, and never plans past the target |
| History.CreateAnalysis | srcmove_history/analysis.py:447-493 | creation fails exactly on a target of no pairs or a history without one |
| History.AnalyzeRepository | srcmove_history/analysis.py:139-241 | creates or reopens and resolves the target; a normal return covers all pairs, the asked number, so many more, or down to the commit, never fewer than before; each error has its exact condition |
| History.CoverageIsPathIndependent | srcmove_history/analysis.py:307-366 | coverage does not depend on how a target was split or where it was interrupted |
| History.AdditionalPairsExtendCoverage | srcmove_history/analysis.py:267-286 | a relative target that is reached extends the coverage by exactly that many pairs, or to the root |
| History.RelativeTargetsAddUp | srcmove_history/analysis.py:267-286 | any number of reached relative targets extend the coverage by their sum, or to the root |
| History.RepeatedRelativeTargetIff | srcmove_history/analysis.py:276-286 | repeating a relative target after an interruption covers what one run would have covered exactly when nothing was committed before it or the root is reached |
| History.PublishedPairsAreTheCoveredOnes | srcmove_history/analysis.py:103-136 | without pending work the published pairs are exactly the covered prefix, each once, in batches of at most a hundred |
| Coordinator.StepKeeps | srcmove_history/coordinator.py:139-343 | every step of every thread, failures included, conserves workers, slots and items |
| Coordinator.PublicationIsOrderedAndBounded | srcmove_history/coordinator.py:152-214 | whatever fails, publication is contiguous, in order and without a failed item; outcomes, queue and reordering window stay within capacity |
| Coordinator.NoDeadlock | srcmove_history/coordinator.py:152-343 | until the run is over (workers joined, or gone after an interrupted draining) some thread can move without a further fault |
| Coordinator.RunsAreBounded | srcmove_history/coordinator.py:152-343 | a run takes at most sixteen steps an item, three a worker and two more |
| Coordinator.CoordinatorMayFail | srcmove_history/coordinator.py:152-220 | an interrupt can come at any moment before the workers are joined, and a publication or the input can fail whenever it is used |
| Coordinator.WorkersMayFail | srcmove_history/coordinator.py:266-343 | a worker can crash while it waits, its context can fail when it leaves, and any execution can fail |
| Coordinator.EveryRunJoinsItsWorkers | srcmove_history/coordinator.py:206-343 | whatever fails, in a run that cannot go on every worker has left, also when the draining was interrupted; every slot is back or belongs to an undiscarded result, a prefix was published in order, and a failure is reported unless everything was |
| Coordinator.UninterruptedRunsJoin | srcmove_history/coordinator.py:206-220 | unless the draining is interrupted, such a run has joined all workers and got back every slot |
| Coordinator.FaultFreeRunsPublishEverything | srcmove_history/coordinator.py:78-240 | without a fault a run that cannot go on has published every item in order and reports no failure |
| SelectionIndex.GroupedRows | bigMoveBench/selection.py:265-276 | the groups are the rows, cut where the frame changes |
| SelectionIndex.SortedGroups | bigMoveBench/selection.py:265-276 | on sorted rows every frame has one group, in increasing order |
| SelectionIndex.EveryRowIsGrouped | bigMoveBench/selection.py:265-276 | the rows are exactly the members of the groups |
| SelectionIndex.InsertEntries | bigMoveBench/selection_index.py:109-117 | inserting entries keeps positions and counts exact |
| SelectionIndex.BuildIndex | bigMoveBench/selection_index.py:82-127 | fails exactly on an unsupported type, else stores exactly the entries, contributors, exclusions and counts of the groups |
| IndexProperties.PositionsAreDense | bigMoveBench/selection_index.py:111-117 | the positions of a category and band are exactly 0 to count - 1, each used once |
| IndexProperties.PositionsFollowFrames | bigMoveBench/selection_index.py:90-117 | positions follow frame order, and a frame has at most one band in a category |
| IndexProperties.CatalogRowsAreConserved | bigMoveBench/selection_index.py:92-117 | indexed plus excluded rows are the available rows, for catalog and source rows |
| IndexProperties.ContributorsAreTheRows | bigMoveBench/selection_index.py:106-116 | the contributors are exactly the rows of groups without a conflict, under their categories |
| IndexProperties.ContributorsAreCounted | bigMoveBench/selection_index.py:113-117 | the counted catalog rows are the stored contributors |
| IndexProperties.DrawsResolve | bigMoveBench/selection_index.py:219-226 | any draw of distinct positions resolves to distinct frames |
| IndexProperties.CategoryIsOwn | bigMoveBench/categories.py:21-36 | the category of a row, from its kind, syntactic type and similarities |
| IndexProperties.SupportedIff | bigMoveBench/categories.py:21-36 | a group is supported exactly when its positive pairs are of types 1 to 3 |
| IndexProperties.StrengthIsWeakest | bigMoveBench/selection_index.py:108 | the strength of a Type-3 frame is the least similarity of its rows, on lines or tokens |
| IndexProperties.StoredFrame | bigMoveBench/selection_index.py:92-117 | every stored frame is that of a group without a label conflict, counts the group's rows of the category, and has the band of their weakest similarity |
| Audit.CollectMemberships | bigMoveBench/audit.py:79-81 | the table holds exactly the memberships that the edges name |
| Audit.CollectEdges | bigMoveBench/audit.py:107-114 | the pairwise overlap queries yield exactly the frames in two categories |
| Audit.OverlapAccounting | bigMoveBench/audit.py:77-87 | memberships minus excess is the cardinality of the union of the categories, and the patterns count the repeated frames by their categories |
| Audit.FramesAreTheEligibleGroups | bigMoveBench/audit.py:116-127 | every group without a conflict contributes one distinct frame |
| Audit.Population | bigMoveBench/audit.py:90-131 | on any index whose frames are unique in each category, exactly the failing checks are reported |
| Audit.PopulationHasNoDiscrepancies | bigMoveBench/audit.py:90-131 | an index built from a catalog has unique frames and passes every check over its stored frames |
| Schedule.BuildSchedule | performance/benchmark.py:117-166 | fails exactly on the rejected arguments, else the loops build the specified schedule |
| Schedule.SequenceNumbersAreContiguous | performance/benchmark.py:145-166 | the sequence numbers are 1 to (warmups + repetitions) * workloads * variants |
| Schedule.BlocksAreContiguous | performance/benchmark.py:146-165 | entries of one phase, repetition and workload stand together and run a rotation of the base order |
| Schedule.RotationPermutes | performance/benchmark.py:151-153 | a block runs every variant once |
| Schedule.PositionsAreBalanced | performance/benchmark.py:138-165 | in each phase a variant of a workload stands at each position the floor or ceiling of repetitions / variants times |
| ScheduleOrder.ScheduleIsExact | performance/benchmark.py:131-165 | every entry: repetition j + 1 of a phase runs the workloads in its own drawn order and each of them the variants in its base order from variant j on; the warmups come first |
| Catalog.FlushPairs | bigMoveBench/catalog.py:267-282 | a flushed batch adds the occurrences of each key |
| Catalog.RememberFunction | bigMoveBench/catalog.py:207-220 | fails exactly when the mention contradicts what was remembered, else what is remembered is exactly what was said |
| Catalog.ImportExport | bigMoveBench/catalog.py:264-320 | for any batch size, succeeds exactly on consistent rows; then every multiplicity has grown by the occurrences, and the functions and their uses are exactly the known ones and those of the rows |
| Catalog.MultiplicitiesAreConserved | bigMoveBench/catalog.py:600-608 | multiplicities sum to the imported rows, and their excess to the duplicates |
| Catalog.FrameRows | bigMoveBench/catalog.py:569-577 | feeds the framed rows to the hasher, and fails exactly on a row of 2^64 bytes or more |
| Catalog.FramingRoundTrip | bigMoveBench/catalog.py:569-577 | the rows can be read back from the framed bytes |
| Catalog.FramingIsInjective | bigMoveBench/oracle.py:47-53 | equal framed bytes mean equal parts |
| Classifier.Observe | src/movement_classifier.cpp:25-97 | filling the fields step by step gives the specified observations |
| Classifier.ClassifyMovement | src/movement_classifier.cpp:107-173 | exactly which observations make a correspondence relocated, stationary or restructured |
| Classifier.ReasonsAreExact | src/movement_classifier.cpp:107-173 | each reason is given exactly when its evidence is the first that decides |
| Classifier.SwapIsDual | src/movement_classifier.cpp:107-173 | swapping endpoints keeps the kind and exchanges only wrapped and unwrapped |
| Classifier.NothingMovesOntoItself | src/movement_classifier.cpp:107-173 | an endpoint is stationary against itself when all evidence is there, and ambiguous otherwise |
| Classifier.InnerAncestorsWrap | src/movement_classifier.cpp:59-73 | ancestors added around the construct in the changed revision are a wrapping, and ancestors lost there an unwrapping |
| Classifier.CrossedIff | src/movement_classifier.cpp:15-23 | crossed exactly when some common sibling precedes one endpoint and follows the other |
| Classifier.LessEvidenceIsSafe | src/movement_classifier.cpp:25-173 | withdrawing evidence keeps the kind or makes it ambiguous |
| Classifier.LessEvidenceAddsNoMove | src/movement_classifier.cpp:175-179 | withdrawing evidence never makes a move eligible, and what a parent carries along is never eligible |
| Classifier.WithdrawingTheRegionIff | src/movement_classifier.cpp:138-143 | exactly when withdrawing the structural region changes the kind to another |
| Classifier.WithdrawingTheRegionCanMislead | src/movement_classifier.cpp:138-143 | a relocation that becomes stationary when the region mapping is withdrawn |

## Left out

- Heap layout: a heap is a list whose first element is the least; `heapq` is modelled by that contract.
- Candidate registry, content grouping and region filtering: their output is given data here, but for the namespace observer.
- Splitting the last step off a locator, and the raw texts, scores and locations that a move entry carries along.
- Parsing and resolution of XML, XPath and positions: a location resolves to a line range or does not.
- `normalize_encoding_damage`: its codecs are a parameter, about which nothing is assumed.
- Locale: character classes of the lexer are the ASCII ones; Unicode line and blank characters are those Python names.
- File publication, subprocesses, timeouts, locks, profiling, progress and report rendering.
- Row order of the CSV and JSON reports, timings, memory and cache counters, and the Type-3 strength groups of the summary.
- UTF-8 decoding before extraction: fragments are text.
- Concurrent invocations of one journal or one analysis: the operation lock admits one at a time.
- The `nsmallest` selection of the other categories, frozen quota plans and the checks of sampled rows against the catalog.
- Validation of the remaining result fields (locations, names, statistics) that the aggregation does not produce.
- Scoring.ExecuteCase: the srcDiff cache and the label-correction registry are left out; a case carries its correction.
- Coordinator.EveryRunJoinsItsWorkers: polling timeouts are steps without effect, an interrupt falls between two steps, and the threads are assumed to be scheduled.
- History.AnalysisDatabase.RecordOutcome: invocation records, fingerprints and the stored columns of an outcome are left out, and with them the errors on a stopped invocation, a drifted fingerprint or a non-terminal status.
- History.AnalysisDatabase.AddPendingBatch: manifests and revision numbers are left out, and with them the errors on their drift.
- History.AnalysisDatabase.CommitPendingBatch: revision numbers are left out, and with them the errors on their drift.
- History.AnalyzeRepository: naming an abbreviated commit, drift of the executables and the admission of a repository are errors before the part modelled here.
- Journal.ExecutionJournal.constructor: reopening a stored journal validates its identity hashes, which are not modelled.
- Oracle.AssessPositiveCase: the failure messages, and the path for fixtures that reads positions from the annotated document.
- Scoring.ScoreCompletedCase: the failure messages and the evidence fields that only repeat the assessment.
- Summary.Summarize: the tables of corrections, of observed kinds and of Type-3 strengths, and all timing counters.
- ResultAdmission.OutputIsAdmittedIff: the sequence policy is not compared; the writer emits one literal on both sides (src/util/json_writer.hpp, lines 156 and 395).
