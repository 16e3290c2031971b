# The query engine's fast paths, and the simple meanings they must agree with

This project models the parts of the SQL engine in which a fast form replaces a simple one, and proves when the two
agree: the index lookup planned for a filter against the filter itself, the join iterators against a nested loop, plan
rewrites against the plan they replace, the parallel exchange against a sequential scan, hash grouping against groups,
and the registry's deferred deletion against the clients that hold an index. Rows are sequences of integers, booleans
and NULL; expressions are evaluated with the engine's own three-valued rules; an evaluation can fail, and the failure
is part of the model. Iterators and other stateful objects are classes whose methods are proved against functions of
their state; goroutines are steps of a state machine, and a property of a protocol is proved for every interleaving.

Where the code does not do what it is for, the model keeps the code as it is. A lemma then says exactly when it is
right, in terms a caller can check:

* An inequality with its column on the right, a BETWEEN with equal bounds and a negated OR with a NULL operand get
  lookups that lose rows if their constants are numbers (`IndexLimits`: which rows, for any catalog and schema). With
  other constants, as for a NOT IN list with a NULL, such a lookup loses nothing: reading it panics
  (`IndexReadability`).
* The join iterator never ends on an empty secondary side, except in two cases (`Joins.JoinIsRightIff`), and loses the
  rows it failed to cache, unless it cached none (`Joins.DroppedRowsAreLost`).
* The indexed join compares the key in the order of the condition with the columns in the order of the index. It is right
  iff the key of a row finds every row that joins with it (`IndexedJoins.AgreesIffFound`); for keys that are columns, iff
  a chain of equalities leads from every key to its place in the index (`JoinKeys.AgreesIffConnected`); for equalities
  of pairs of columns, iff the index has their order (`JoinKeys.PlannedJoinAgreesIff`), which the planner does not check
  (`JoinKeys.ExchangedIndexLosesRows`). Other conjuncts provide no keys; they matter only if they exclude the very rows
  that would show the fault.
* A join condition that gives a number is not `true`, but as a filter it passes
  (`JoinConditions.MoveAtKeepsRowsIff`); only a condition without an operator can do that.
* Folding `FALSE OR x` beneath NOT, or `TRUE AND x` inside a comparison, changes results (`FilterFolding`).
* A column beside an aggregation reads the output row after hoisting: it is right in every group iff the output at its
  place is that column (`Aggregations.ColumnIsRightIff`).
* `DeleteIndex` checks and marks an index under the shared lock, so an index can be removed while a client holds it, and a
  queued deletion can lose its wake-up. Runs are safe as long as every step is careful: no index is marked while a lookup
  has found it beside another use, none is checked while another deletion has checked it. After any other step some
  continuation is unsafe, unless there already is a deadlock (`Registry.StepIsSafeIff`).
* A lookup and a deletion can wait for each other for ever. A run does so iff one of its steps is a collision
  (`Registry.RunDeadlocksIff`), and a pending deletion can end iff there is no deadlock (`Registry.PendingCanEndIff`).
  Deleting from an empty registry keeps the read lock (`Registry.EmptyStaysEmpty`).
* An exchange with no token never starts (`Exchange.StuckMeansEof`).
* A SET with all 64 members accepts no number, because one shifted by 64 is zero (`SetTypes.NumberAcceptedIff`), and a
  bit field that selects only an empty member does not come back from its string (`SetTypes.BitFieldRoundTrip`).

The documentation and the code disagree in one place that matters here: sql/memory.go:33-41 says that a rows cache is
emptied when a row does not fit, but sql/cache.go:70-77 leaves it as it is. The model follows the code.

Modules: `Values`, `Expressions` (evaluation, conjunctions, field positions); `Lookups`, `IndexPlanning`,
`WideIndexes`, `IndexSoundness`, `IndexPrecision`, `IndexReadability`, `IndexLimits`, `ExpressionLists` (index
planning); `MemoryTable`, `Pushdown` (the in-memory table); `NestedLoop`, `Runs`, `Joins`, `IndexedJoins`, `JoinKeys`,
`ExchangedSides`, `JoinConditions` (joins); `FilterFolding`; `Exchange`, `Parallel`, `Sums`;
`Registry`, `RegistryObject`; `GroupBy`, `Aggregations`, `DistinctRows`; `SetTypes`, `BitFields`, `CommaLists`;
`SimilarText`. `dafny verify dfyconfig.toml` checks all of it.

## Model

| member | source | states |
|---|---|---|
| Expressions.InRangeEvaluates | sql/expression/logic.go:45-135 | evaluation fails only on a field outside the row |
| Expressions.EvaluableIsConstant | sql/analyzer/assign_indexes.go:841-843 | an expression with no column and no subquery evaluates, to the same value on every row |
| Expressions.SameValue | sql/analyzer/pushdown.go:81-103 | evaluation depends on columns, not on positions: an expression resolved against two schemas has one value on rows that agree on shared columns |
| Expressions.SplitConjunction | sql/analyzer/filters.go:43-53 | a row passes the expression iff it passes every conjunct |
| Expressions.JoinAnd | sql/expression/logic.go:20-33 | a row passes the conjunction iff it passes every expression |
| Expressions.JoinAndLoop | sql/expression/logic.go:20-33 | the loop builds that conjunction, and nothing from no expression |
| Expressions.FixFieldIndexes | sql/analyzer/pushdown.go:81-103 | fails iff a column is missing from the schema; otherwise every field is at the position of its column and nothing else changed |
| Lookups.EvalExpressionSelects | memory/mergeable_index.go:140-147 | the expression of a lookup holds on exactly the rows the lookup accepts, through ascending, descending, negated and merged lookups |
| Lookups.MatchExpressionSelects | memory/mergeable_index.go:127-138 | the expression rows are matched with holds on exactly the rows of the lookup |
| Lookups.CollectUnion | memory/mergeable_index.go:195-212 | the loop flattens the united lookups as `Union` does |
| Lookups.CollectIntersection | memory/mergeable_index.go:169-186 | the loop flattens the intersected lookups as `Intersection` does |
| Lookups.UnionAccepts | memory/mergeable_index.go:195-212 | a flattened union accepts a row iff one of the two lookups does |
| Lookups.IntersectionAccepts | memory/mergeable_index.go:169-186 | a flattened intersection accepts a row iff both lookups do |
| IndexPlanning.IndexByExpression | sql/index.go:446-461 | the first index whose expressions are all among the given ones, or none if there is none |
| IndexPlanning.MergeOrLoop | sql/analyzer/assign_indexes.go:91-142 | the OR case, over the tables in any order: a lookup for every table iff both sides have lookups for the same tables and all merge |
| IndexPlanning.IntersectLoop | sql/analyzer/assign_indexes.go:552-582 | the merge of an AND, over the tables in any order |
| IndexPlanning.ConjunctsAreLighter | sql/analyzer/assign_indexes.go:286-308 | the weight by which the mutual recursion of planning and negated planning ends drops at every conjunct |
| WideIndexes.WidestIsLongest | sql/index.go:465-507 | of the indexes on several expressions, all of them among the given columns, the first of the longest; none iff there is none |
| WideIndexes.EqualitiesGetPoint | sql/analyzer/assign_indexes.go:638-702 | if equalities name all columns of an index and the planner has no reason to look further, they get the lookup for the key of their constants, of the first equality on each column, and are not planned again |
| WideIndexes.PreferredTakesPart | sql/analyzer/assign_indexes.go:584-636 | whatever the other conjuncts are, the table then has a lookup, and it accepts only rows with that key |
| IndexSoundness.LookupKeepsRow | sql/analyzer/assign_indexes.go:88-312 | for every filter, table and row, the lookup planned for the table keeps the row if the filter accepts it and avoids the failing shapes |
| IndexSoundness.NegatedLookupKeepsRow | sql/analyzer/assign_indexes.go:469-550 | the same for negated filters, through De Morgan, BETWEEN and double negation |
| IndexSoundness.MultiColumnKeeps | sql/analyzer/assign_indexes.go:584-702 | the lookups on several columns keep every row that satisfies all conjuncts |
| IndexSoundness.MergeOrKeeps | sql/analyzer/assign_indexes.go:91-142 | merging the plans of an OR keeps the rows of either side |
| IndexSoundness.IntersectKeeps | sql/analyzer/assign_indexes.go:552-582 | intersecting two plans keeps the rows that both must keep |
| IndexSoundness.InKeeps | sql/analyzer/assign_indexes.go:143-224 | the united lookups of an IN list, and the intersected ones of NOT IN, keep their rows |
| IndexSoundness.ConjunctsAccepted | sql/analyzer/filters.go:43-53 | an accepted conjunction has accepted conjuncts only |
| IndexPrecision.LookupIsTight | sql/analyzer/assign_indexes.go:88-312 | a filter of AND, OR and NOT over comparisons, BETWEEN and lists that all meet an index of one table has a plan with a lookup for this table alone, which accepts only rows on which the filter holds |
| IndexPrecision.NegatedLookupIsTight | sql/analyzer/assign_indexes.go:469-550 | so does its negation |
| IndexPrecision.LookupIsExact | sql/analyzer/assign_indexes.go:88-312 | outside the failing shapes the lookup accepts exactly the rows on which the filter holds |
| IndexPrecision.ConjunctTakesPart | sql/analyzer/assign_indexes.go:286-308 | whatever the other conjuncts of an AND are, one that meets an index of the table takes part in its lookup, which accepts only rows on which that conjunct holds |
| IndexPrecision.UnmergeableServesEqualities | sql/analyzer/assign_indexes.go:428-467 | an index without ranges and set operations serves single equalities, whose lookup accepts exactly the rows on which they hold, and no other comparison |
| IndexPrecision.OrHasLookupIff | sql/analyzer/assign_indexes.go:91-142 | an OR has a lookup for a table iff its columns are of one table and both sides have lookups for the same tables that can all be merged |
| IndexLimits.InequalityLosesRow | sql/analyzer/assign_indexes.go:394-467 | for any catalog, indexed expression, constant and row: the lookup of a comparison can be read and loses the row iff the column is on the right, the comparison is no equality, the constant is a number, it holds, and the two sides differ |
| IndexLimits.InequalityKeepsAllRows | sql/analyzer/assign_indexes.go:394-467 | the lookup of a comparison of a column with a constant loses no row of the table iff the column is on the left, or the comparison is an equality, or the constant is no number |
| IndexLimits.BetweenLosesRow | sql/analyzer/assign_indexes.go:361-387 | the lookup of BETWEEN on any indexed expression can be read and loses a row iff the filter accepts it and the bounds are the same number |
| IndexLimits.BetweenKeepsAllRows | sql/analyzer/assign_indexes.go:361-387 | the lookup of BETWEEN on a column loses no row of the table iff the bounds are not the same number |
| IndexLimits.NotInLosesNothing | memory/unmergeable_index.go:108-135 | the lookup of NOT IN loses no row: with a NULL in the list it cannot be read |
| IndexLimits.NegatedOrPlan | sql/analyzer/assign_indexes.go:469-550 | the plan of a negated OR is the intersection of the plans of the negated operands |
| IndexLimits.NegatedOrLosesRow | sql/expression/logic.go:103-135 | a negated OR of any operands loses a row iff the lookups that take part can be read, one operand is false, the other NULL, and the lookup of the negation of the NULL one takes part and does not accept the row |
| IndexLimits.NegatedOrOfEqualitiesLosesRow | sql/expression/logic.go:103-135 | a negated OR of equalities between indexed expressions and constants loses exactly the rows with one false and one NULL operand, if both constants are numbers, and none otherwise |
| IndexReadability.ComparisonReadable | memory/ascend_index.go:40-68 | the lookup of a comparison can be read iff all keys are numbers, and the comparison is an equality or the index has one expression |
| IndexReadability.BetweenReadable | memory/descend_index.go:27-55 | the lookup of BETWEEN can be read iff the bounds are numbers and the index has one expression |
| IndexReadability.UnionReadable | memory/mergeable_index.go:195-212 | a flattened union can be read iff both lookups can |
| IndexReadability.IntersectionReadable | memory/mergeable_index.go:169-186 | a flattened intersection can be read iff both lookups can |
| IndexReadability.ListLookupReadable | memory/unmergeable_index.go:108-135 | the lookup of an IN or NOT IN list can be read iff every element is a number |
| IndexReadability.GroupReady | sql/analyzer/assign_indexes.go:584-702 | the lookup on several columns can be read if the constants of its group are numbers and ranges have one column |
| IndexReadability.PlanIsReady | sql/analyzer/assign_indexes.go:88-312 | planning a filter with numbers wherever an index meets them, and no range over several columns, succeeds, and every lookup of the plan can be read |
| IndexReadability.PlannedLookupIsReadable | sql/analyzer/assign_indexes.go:88-312 | so can the lookup of a table, and also that of a single equality with any constant |
| ExpressionLists.Match | sql/index.go:550-574 | the greedy matching answers true iff the first list is contained in the second, counting repetitions |
| ExpressionLists.FindPartner | sql/index.go:556-567 | the first unvisited equal element, if there is one |
| ExpressionLists.Equal | sql/index.go:577-583 | true iff the lists are permutations of each other |
| MemoryTable.PositionsFindRows | memory/unmergeable_index.go:76-106 | the rows at the positions found are the matching rows, in order |
| MemoryTable.IndexValIter.InitValues | memory/unmergeable_index.go:76-106 | computes the positions once, or fails on a row that does not evaluate |
| MemoryTable.IndexValIter.Next | memory/unmergeable_index.go:61-74 | hands out the remaining positions one by one |
| MemoryTable.TableIter.GetFromIndex | memory/table.go:209-221 | the next row of the index |
| MemoryTable.TableIter.GetRow | memory/table.go:182-194 | the next candidate row, from the index or the scan |
| MemoryTable.TableIter.Next | memory/table.go:154-172 | yields the candidates that pass all filters, projected, in order; fails only if an expression fails on a row |
| Pushdown.ExprToTableFilters | sql/analyzer/filters.go:18-41 | the list of every table holds the conjuncts that mention it and no other, in order |
| Pushdown.GetUnhandledFilters | sql/analyzer/filters.go:55-73 | the filters that are not handled, in order |
| Pushdown.PushesOwnConjuncts | sql/analyzer/pushdown.go:264-338 | the filters of the table are the conjuncts on its columns alone, moved to its positions; what is left above it are all the others in their order, or the whole filter if nothing was pushed |
| Pushdown.ProjectedColumns | memory/table.go:524-567 | position by position the column of that name; no projection if the table lacks one of the names |
| Pushdown.RefitCommutesWithProjection | sql/analyzer/pushdown.go:202-262 | a refitted expression has on the projected row the value the expression has on the row |
| Pushdown.PushdownPreservesRows | sql/analyzer/pushdown.go:264-338 | pushing filters, projection and a sound lookup into the table gives exactly the rows of filtering the scan and projecting |
| Pushdown.PlannedQueryIsCorrect | sql/analyzer/pushdown.go:140-199 | end to end: a one-table query with its planned lookup has an answer iff planning succeeds and the lookup can be read; the answer consists of the rows that pass the filter, in the order of the table, each shown by its named columns in the order of the names; a filter with numbers wherever an index meets them, or a single equality, has one |
| NestedLoop.BuildRow | sql/plan/join.go:499-512 | a joined row is the two rows side by side, the primary one last for a right join; without a match the other side is NULL |
| NestedLoop.RowsOfStep | sql/plan/join.go:464-495 | reading one secondary row adds the joined row iff the condition is true on it |
| Joins.StepPending | sql/plan/join.go:396-495 | every turn of the loop pays the row it emits out of what the state owes, in all three modes |
| Joins.RunEmitsPending | sql/plan/join.go:464-495 | a run over a non-empty secondary side ends, having emitted exactly what its first state owes |
| Joins.JoinIsNestedLoop | sql/plan/join.go:352-512 | whichever mode it starts in and whenever it switches, the iterator emits the nested-loop join |
| Joins.CacheIsWholeIff | sql/plan/join.go:396-462 | later primary rows meet the whole secondary side iff memory ran out in the first pass, or every row of it could be added, or none; otherwise they meet fewer rows |
| Joins.DroppedRowsAreLost | sql/plan/join.go:445-452 | with a failing cache the iterator is right for every condition and primary side iff that holds |
| Joins.JoinIsRightIff | sql/plan/join.go:389-402 | it emits the nested-loop join iff the secondary side has a row, or the primary side has none, or it has one and the mode was unknown |
| Joins.JoinIter.constructor | sql/plan/join.go:307-323 | the iterator starts in the initial state of its mode |
| Joins.JoinIter.LoadPrimaryRow | sql/plan/join.go:352-367 | the step of the machine that loads a primary row |
| Joins.JoinIter.LoadInMemory | sql/plan/join.go:369-394 | loads the secondary side into the cache, up to the first row that cannot be added; fails there and keeps the rows before it |
| Joins.JoinIter.LoadSecondaryRow | sql/plan/join.go:396-462 | the step that loads a secondary row, in every mode |
| Joins.JoinIter.TakeTurn | sql/plan/join.go:464-495 | one turn of the loop |
| Joins.JoinIter.Next | sql/plan/join.go:464-495 | returns the first row owed and owes the rest; the end iff nothing is owed |
| IndexedJoins.AgreesIffFound | sql/plan/indexed_join.go:134-244 | for any condition, keys and index: the indexed join is the nested-loop join of all inputs iff the key of a primary row finds every secondary row that joins with it |
| IndexedJoins.MatchIsFound | sql/plan/indexed_join.go:148-191 | a secondary row that joins is found for the key of the primary row |
| IndexedJoins.IndexedJoinIsNestedLoop | sql/plan/indexed_join.go:134-244 | if the keys line up with the index, the indexed join is the nested-loop join of all inputs |
| IndexedJoins.RightJoinSwapsColumns | sql/analyzer/optimize_joins.go:86-91 | for all inputs the right join has the rows of the primary-first join with the rewritten condition, in order, with the column blocks swapped |
| IndexedJoins.RightJoinIffFound | sql/plan/indexed_join.go:237-244 | the indexed join of a right join has its rows for all inputs, with the column blocks swapped, iff the key of a primary row finds every row that joins with it |
| ExchangedSides.ExchangedJoinIsPermuted | sql/analyzer/optimize_joins.go:151-157 | an inner join with its sides exchanged has the same rows for all inputs, in some order and with the column blocks swapped |
| ExchangedSides.ExchangedIffFound | sql/analyzer/optimize_joins.go:151-157 | the indexed join with its sides exchanged has those rows for all inputs iff the key of a row finds every row that joins with it |
| IndexedJoins.TablesDecide | sql/analyzer/optimize_joins.go:350-373 | the side of an equality belongs to a table iff this is the only table of its columns, and to some table iff there is exactly one |
| JoinKeys.JoinSidesAre | sql/analyzer/optimize_joins.go:311-348 | the keys taken from any conditions are the sides over the table of those equalities whose two sides each have columns of one table, and nothing else |
| JoinKeys.SidesOfEqualities | sql/analyzer/optimize_joins.go:311-348 | other conjuncts, comparisons by another operator among them, do not change the keys or their order |
| JoinKeys.LinesUpIffInOrder | sql/analyzer/optimize_joins.go:311-348 | for any conjuncts whose equalities are between two tables, no key with two partners, the planned keys line up with an index iff it lists its expressions in the order of the equalities |
| JoinKeys.ConnectedAgrees | sql/plan/indexed_join.go:134-244 | for any condition at all, the indexed join is right on all inputs if a chain of its column equalities leads from the column of every key to the indexed column at its place |
| JoinKeys.AgreesIffConnected | sql/plan/indexed_join.go:134-244 | that is exact: it is right on all inputs only with such chains, unless the other conjuncts exclude the rows that show the fault |
| JoinKeys.AgreesIffLinesUp | sql/plan/indexed_join.go:134-244 | if the equalities pair columns, no secondary one with two primary ones, that is iff the keys line up with the index |
| JoinKeys.PlannedJoinAgreesIff | sql/analyzer/optimize_joins.go:130-161 | for pairs of columns mixed with any other conjuncts, the planned indexed join is right on all inputs if the index has the order of the condition, and only then unless the other conjuncts exclude the rows that show it |
| JoinKeys.PlannedEqualitiesAgreeIff | sql/analyzer/optimize_joins.go:130-161 | on the equalities of such a condition alone it is right on all inputs iff the index has the order of the condition |
| JoinKeys.ExchangedIndexLosesRows | sql/analyzer/optimize_joins.go:130-161 | for every such join that an index on two or more columns serves, the planner takes the index with two columns exchanged as well, and it loses rows |
| IndexedJoins.IndexedJoinIter.constructor | sql/plan/indexed_join.go:103-113 | the iterator owes the whole indexed join |
| IndexedJoins.IndexedJoinIter.LoadPrimary | sql/plan/indexed_join.go:134-146 | loads a primary row if none is current; nothing owed changes |
| IndexedJoins.IndexedJoinIter.LoadSecondary | sql/plan/indexed_join.go:148-191 | the next row found for the key, or the end of the primary row |
| IndexedJoins.IndexedJoinIter.Next | sql/plan/indexed_join.go:193-224 | returns the first row owed and owes the rest; fails only if an evaluation fails |
| JoinConditions.ContainsSources | sql/analyzer/optimization_rules.go:284-300 | true iff every source is among the given ones |
| JoinConditions.NodeSources | sql/analyzer/optimization_rules.go:302-314 | the sources of the schema, each once |
| JoinConditions.SourceList | sql/analyzer/optimization_rules.go:316-333 | the sources of the columns of an expression, each once |
| JoinConditions.SortConjuncts | sql/analyzer/optimization_rules.go:211-230 | the three lists of conjuncts, in the order of the condition |
| JoinConditions.PartsMeanCondition | sql/analyzer/optimization_rules.go:211-256 | the split exists, and a pair passes the two filters and the rest iff the condition holds on it, read as a filter |
| JoinConditions.PairSplits | sql/analyzer/optimization_rules.go:211-256 | a pair satisfies the join condition iff its sides pass their filters and the pair the rest, exactly unless the condition gives a number other than 0, and then it has no operator |
| JoinConditions.MoveAtKeepsRowsIff | sql/analyzer/optimization_rules.go:204-260 | one rewritten join keeps its schema, and its exact rows iff no pair of rows makes the condition a number other than 0 |
| JoinConditions.MoveReadsTruth | sql/analyzer/optimization_rules.go:198-262 | the rewrite of any plan succeeds and keeps its schema; the rows are those of the plan with every join condition read like a filter |
| JoinConditions.MovePreservesRows | sql/analyzer/optimization_rules.go:198-262 | the rewrite of a whole plan keeps its exact row sequence if no join has such a pair |
| JoinConditions.MoveKeepsRowsIff | sql/analyzer/optimization_rules.go:198-262 | at a join above plans without such a pair the rewrite keeps the rows iff the join has none either |
| JoinConditions.JudgedHasNoNumbers | sql/plan/indexed_join.go:226-234 | conditions with an operator never have such a pair |
| JoinConditions.MoveSettles | sql/analyzer/optimization_rules.go:198-262 | afterwards every conjunct of every join needs both sides |
| FilterFolding.FoldAgrees | sql/analyzer/optimization_rules.go:347-400 | folding keeps the value or the class of an expression as far as its shape allows, its truth in a positive position and its falsity in a negative one |
| FilterFolding.FoldingKeepsRows | sql/analyzer/optimization_rules.go:335-415 | a filter keeps exactly its rows, also when it becomes a constant, if no OR below an odd number of NOTs has an operand that folds to FALSE, and no AND or OR inside a comparison, IN or BETWEEN has one that takes its place |
| FilterFolding.FoldIsFolded | sql/analyzer/optimization_rules.go:335-415 | one pass folds all there is: no AND or OR is left with TRUE or FALSE for an operand, no other operator with constant operands only |
| FilterFolding.FoldedStays | sql/analyzer/optimization_rules.go:335-415 | a folded filter is left as it is |
| FilterFolding.NegatedOrFolds | sql/analyzer/optimization_rules.go:350-368 | beneath NOT the OR rule is right iff the other operand is not NULL |
| FilterFolding.ComparedAndFolds | sql/analyzer/optimization_rules.go:369-387 | inside a comparison with a number n the AND rule is right iff the operand is NULL, 0 or 1, or n is neither the operand nor 1 |
| Exchange.EveryRunKeeps | sql/plan/exchange.go:106-272 | in every state of every interleaving tokens are conserved, every row is sent once and in the order of its partition, and the phases agree |
| Exchange.TokensKept | sql/plan/exchange.go:106-137 | free tokens, the feeder's token and those of unreleased workers always add up to the parallelism |
| Exchange.ReleaseNeverBlocks | sql/plan/exchange.go:106-113 | giving a token back never waits while holding the mutex |
| Exchange.DeliveredInOrder | sql/plan/exchange.go:207-254 | at any time the consumer has a prefix of the rows of every partition |
| Exchange.EofMeansAllRows | sql/plan/exchange.go:256-272 | the end is reported only after all rows of all partitions, which are a permutation of the sequential rows |
| Exchange.RunsAreBounded | sql/plan/exchange.go:139-174 | every step is counted at the start: no run is longer |
| Exchange.StuckMeansEof | sql/plan/exchange.go:129-174 | every run that cannot go on has reported the end, iff there is at least one token |
| Exchange.MaximalRunsDeliver | sql/plan/exchange.go:139-272 | every run that cannot go on has delivered everything |
| Exchange.EveryRunCanEnd | sql/plan/exchange.go:139-272 | with a token, every run can be continued to an end at which everything is delivered |
| Parallel.ParallelizableIff | sql/analyzer/parallelize.go:74-109 | the flags of the traversal accept exactly the row-local operators above one table |
| Parallel.ParallelizeIsSettled | sql/analyzer/parallelize.go:27-72 | the rewrite adds exchanges and nothing else, none below another |
| Parallel.ParallelizeIsMaximal | sql/analyzer/parallelize.go:27-72 | it puts exactly one exchange above every maximal row-local subplan, wherever it is in the plan |
| Parallel.FilterRowsMean | sql/plan/filter.go:87-103 | filtering fails iff the condition fails on a row; otherwise it gives the rows on which the condition holds |
| Parallel.ProjectRowsMean | sql/plan/project.go:124-138 | projecting fails iff an expression fails on a row; otherwise it gives the values of the expressions, in order, for every row |
| Parallel.SequentialRowsMean | sql/plan/filter.go:87-103 | so the sequential run of any row-local plan gives the rows that its operators stand for |
| Parallel.RowsConcat | sql/plan/filter.go:87-103 | row-local plans distribute over concatenation, errors included |
| Parallel.PartitionsConcat | sql/table_iter.go:22-65 | working partition by partition fails iff the sequential plan fails, and gives the same rows |
| Parallel.ParallelRowsArePermuted | sql/plan/exchange.go:207-254 | an accepted plan under an exchange yields a permutation of the rows its operators stand for, in every interleaving |
| Registry.StepKeeps | sql/index.go:591-691 | every careful step keeps: counts are what clients hold, what they hold exists, a queued deletion has a user and will be woken, `done` is signalled once |
| Registry.CarefulRunsAreSafe | sql/index.go:591-691 | under the lock the code takes, in every run of careful steps no client holds a removed index, and every queued deletion will be woken |
| Registry.CarelessMarkIsUnsafe | sql/index.go:632-646 | without a deadlock, marking an index that a lookup has found, beside another use of it, has an unsafe continuation of careful steps |
| Registry.CarelessCheckIsUnsafe | sql/index.go:632-646 | without a deadlock, checking an index that another deletion has checked has an unsafe continuation of careful steps |
| Registry.StepIsSafeIff | sql/index.go:624-646 | from a state that keeps this, all careful continuations of a step are safe iff the step is careful or the registry is deadlocked |
| Registry.RemovedWhileHeld | sql/index.go:446-458 | a run in which an index is removed while a client holds it |
| Registry.QueuePlaceTaken | sql/index.go:676-688 | a run in which a queued deletion loses its place and its wake-up |
| Registry.StepDeadlocksIff | sql/index.go:655-659 | a step enters a deadlock iff it settles a deletion of an unused index while a lookup is in progress, or begins a lookup while a deletion keeps rcmut |
| Registry.RunDeadlocksIff | sql/index.go:655-659 | a run ends in a deadlock iff one of its steps was such a collision |
| Registry.DeadlockIsReachable | sql/index.go:655-659 | a run of careful steps in which a deletion and a lookup wait for each other |
| Registry.DeadlockIsForever | sql/index.go:332-337 | from then on nobody obtains or releases an index, no deletion ends, no index is added or finishes its creation |
| Registry.PendingCanEnd | sql/index.go:653-688 | without a deadlock every pending deletion can be brought to its end, and without any release if nobody uses its index |
| Registry.PendingCanEndIff | sql/index.go:653-688 | a pending deletion can end iff there is no deadlock |
| Registry.EmptyStaysEmpty | sql/index.go:625-630 | after a deletion from an empty registry no index can be added ever again |
| RegistryObject.IndexRegistry.constructor | sql/index.go:184-194 | an empty registry is the initial state |
| RegistryObject.IndexRegistry.IndexByExpression | sql/index.go:446-461 | the first usable index of the database whose expressions are among the given ones, retained |
| RegistryObject.IndexRegistry.ReleaseIndex | sql/index.go:371-384 | the step of the machine; wakes the waiting deletion iff this was the last release |
| RegistryObject.IndexRegistry.AddIndex | sql/index.go:526-607 | refuses iff the database has an index with this id or these expressions; otherwise the step of the machine |
| RegistryObject.IndexRegistry.MarkForDeletion | sql/index.go:632-646 | marks an index with this id, in any database, if its status allows it |
| RegistryObject.IndexRegistry.DeleteOrQueue | sql/index.go:653-678 | removes an unused index from the map and its first place in the order, queues the deletion otherwise |
| RegistryObject.IndexRegistry.FinishDelete | sql/index.go:680-688 | the woken deletion removes the index |
| GroupBy.FirstKeysAreTheKeys | sql/plan/group_by.go:264-277 | the keys are those of the rows, each once |
| GroupBy.GroupsPartitionRows | sql/plan/group_by.go:249-289 | every row is in exactly one group: the groups together are the rows |
| GroupBy.CountMeans | sql/expression/function/aggregation/count.go:58-79 | COUNT counts the rows on which its argument is not NULL |
| GroupBy.ExtremeMeans | sql/expression/function/aggregation/max.go:55-78 | MAX and MIN give the greatest and least value, or NULL if there is none |
| GroupBy.PlainMeans | sql/plan/group_by.go:382-398 | a plain expression has its value on the last row of the group |
| GroupBy.UpdateBuffers | sql/plan/group_by.go:327-362 | the buffers become those of one more row; fails only if an expression fails |
| GroupBy.GroupByIter.Absorb | sql/plan/group_by.go:258-285 | a row goes into the group of its key and no other |
| GroupBy.GroupByIter.Compute | sql/plan/group_by.go:249-289 | after all rows the cache holds the folds of every group |
| GroupBy.GroupByIter.Next | sql/plan/group_by.go:229-247 | one output row per distinct key, in first-appearance order, with the folds over exactly its rows |
| GroupBy.GroupAll | sql/plan/group_by.go:172-198 | without grouping, one output row for all rows, even for none |
| Aggregations.FixAggregations | sql/analyzer/aggregations.go:35-72 | the loop builds the projection and the aggregate list of `FixAll` |
| Aggregations.HiddenIffBelow | sql/analyzer/aggregations.go:91-119 | an aggregation is hidden iff it occurs below an operator of the expression |
| Aggregations.FixAllLists | sql/analyzer/aggregations.go:35-72 | the new GROUP BY computes exactly the aggregations that occur in the projection, from left to right, and the expressions without any |
| Aggregations.HoistMeans | sql/analyzer/aggregations.go:41-52 | a hoisted expression on the output row has the value of the expression on the last row with each aggregation worth its value, whenever its parts outside aggregations have one value on the two rows |
| Aggregations.ColumnsInsideAgree | sql/analyzer/aggregations.go:41-52 | they do if all columns are inside aggregations |
| Aggregations.HoistingIsCorrect | sql/analyzer/aggregations.go:35-72 | every new projection on the output row of the new GROUP BY is what the query means, under that condition |
| Aggregations.UnhiddenNeedsNoHoisting | sql/analyzer/aggregations.go:19-31 | a GROUP BY without hidden aggregations, which is left alone, already computes what the query means |
| Aggregations.ColumnBesideIsRightIff | sql/analyzer/aggregations.go:41-52 | all comparisons of a column with an aggregation are right iff the output at the place of the column compares with the aggregation like the column on the last row |
| Aggregations.ColumnEqualsCountIff | sql/analyzer/aggregations.go:41-52 | `c = COUNT(x)` alone is right iff c is the first column and equals the count, or another one that does not exist |
| Aggregations.ColumnIsRightIff | sql/analyzer/aggregations.go:41-52 | a column outside aggregations is right in every group iff the GROUP BY has that column as its output at that place |
| DistinctRows.FirstOccurrencesAreTheRows | sql/plan/distinct.go:75-96 | the first occurrences are the rows, each once |
| DistinctRows.OrderedIsDistinctIff | sql/plan/distinct.go:168-189 | the two iterators emit the same rows iff equal rows stand together |
| DistinctRows.DistinctIter.Next | sql/plan/distinct.go:75-96 | emits the first occurrences in order |
| DistinctRows.OrderedDistinctIter.Next | sql/plan/distinct.go:168-189 | emits the rows that differ from the row before them |
| SetTypes.CreateSetType | sql/settype.go:44-87 | succeeds iff there are 1 to 64 members, none with a comma and no two that compare equal; the maps are those of the members |
| SetTypes.ConvertBitFieldToString | sql/settype.go:295-316 | the members of the set bits in ascending order; fails iff a bit has no member |
| SetTypes.ConvertStringToBitField | sql/settype.go:318-339 | the bits of the members named; fails iff a part is no member |
| SetTypes.BitFieldRoundTrip | sql/settype.go:295-339 | a bit field comes back from its string iff it does not select only an empty member |
| SetTypes.StringRoundTrip | sql/settype.go:157-164 | an accepted string becomes its members in declaration order, each once, and converting again changes nothing |
| SetTypes.NumberAcceptedIff | sql/settype.go:342-344 | a 64-bit number is accepted iff its bits have members and there are fewer than 64 members |
| SetTypes.CollationsAreLawful | sql/settype.go:62-79 | storing a member changes nothing that is compared |
| SetTypes.KeysAgreeIff | sql/settype.go:62-79 | with a binary collation values agree iff they are equal; with every other one iff they are equal without trailing spaces and but for the case |
| BitFields.SetBitSets | sql/settype.go:333-333 | setting a bit sets that bit and no other |
| BitFields.BelowPow2 | sql/settype.go:342-344 | a number is below a power of two iff all its bits are |
| CommaLists.SplitJoin | sql/settype.go:318-323 | splitting undoes joining for parts without commas |
| SimilarText.FillRow | internal/similartext/similartext.go:35-46 | one row of the matrix from the row before it |
| SimilarText.DistanceForStrings | internal/similartext/similartext.go:21-49 | two rolling rows compute the recursive distance |
| SimilarText.DistanceIsLcs | internal/similartext/similartext.go:21-49 | the distance is the number of characters outside a longest common subsequence |
| SimilarText.LcsIsBound | internal/similartext/similartext.go:21-49 | no common subsequence is longer than the recursive length |
| SimilarText.LcsIsReached | internal/similartext/similartext.go:21-49 | some common subsequence has that length |
| SimilarText.Symmetric | internal/similartext/similartext.go:21-49 | the distance is symmetric |
| SimilarText.ZeroIffEqual | internal/similartext/similartext.go:21-49 | the distance is zero iff the strings are equal |
| SimilarText.Triangle | internal/similartext/similartext.go:21-49 | the distance satisfies the triangle inequality |
| SimilarText.Find | internal/similartext/similartext.go:57-84 | the names at the least distance below three, in their order; nothing for an empty name |

## Left out

- Values: only integers, booleans and NULL; no floats, decimals, strings, dates or JSON, no conversion between types, no 64-bit overflow.
- Expressions: comparisons, IN, BETWEEN, NOT, AND, OR, IS NULL, fields, literals and uncorrelated subqueries given by their value; strings of expressions are compared as trees without field positions, and aliases are not resolved.
- IndexPlanning: retaining and releasing indexes while planning is not modelled, nor the lookup of a negated comparison inside a multi-column group, which the code never builds.
- IndexPrecision: the lookup of a filter of which only a part meets an index accepts more rows than the filter; that none is lost is `IndexSoundness.LookupKeepsRow`.
- Lookups: a range lookup on several columns is an error in the model where the code panics.
- Pushdown: one-table plans; the projection keeps the columns the filter needs.
- Joins: errors of the iterators below the join, and closing them; what is proved about `Next` supposes that no evaluation fails.
- IndexedJoins: a failing lookup or evaluation ends the iteration; what is emitted is compared for runs that do not fail.
- JoinKeys: keys that are no plain columns, and equalities hidden by other conjuncts, have the exact condition of `IndexedJoins.AgreesIffFound` only.
- JoinConditions: plans of filters, inner joins and cross joins; the sides of a join must have different sources.
- FilterFolding: literals of the boolean type with an int8 value, tuples and intervals; errors while folding.
- Exchange: errors, a cancelled context, panics and `Close`; the model has no claim about prompt termination after `Close`.
- Parallel: opaque nodes; the order of rows above an exchange, so nothing is said about operators that depend on it.
- Registry: forced deletion, outdated indexes, loading indexes from drivers, the lookup by id (which counts a reference even if there is no index), the recursive read lock of `DeleteIndex`, and the race between the validation and the insertion of two added indexes.
- RegistryObject: a deferred deletion leaves its key in the order, as in the code; no claim is made about the order.
- GroupBy: COUNT, MAX and MIN only; hashes of keys are taken to be injective and the cache never to fail.
- Aggregations: NOT, IS NULL, comparisons, AND and OR above aggregations, but no IN or BETWEEN; aggregations do not nest, and names and types of the new fields are not modelled.
- DistinctRows: hashes of rows are taken to be injective.
- SetTypes: case folding is ASCII; conversion from floats and negative numbers is not modelled.
- SimilarText: the wording of the message around the suggestions.
- Server, authentication, parser, information schema, views, sessions, process list, TIME and interval arithmetic: not part of this model.
