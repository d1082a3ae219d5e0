# Verified model of the query engine's core

This project models the parts of the columnar SQL engine whose correctness is
hardest to see from reading them, and proves that they do what they are for:
the query rewriter and join planner, dictionary encoding by several workers,
string columns that move between memory and a file, sorted indexes, the
statistics kernel, constraint enforcement, the expression parser and calendar
and decimal text. `dafny verify dfyconfig.toml` checks everything.

## How to read it

Every file is one module. A module that models in-place code has methods and
classes with the fields of the C structures, proved against functions; the
lemmas about those functions carry the results.

- **Query rewriting.** `Predicates` gives conditions SQL three-valued logic
  (ISO/IEC 9075:1992, sections 8.2, 8.4, 8.6 and 8.12) and `Plans` gives join
  trees and join pipelines their rows (sections 7.5 and 7.6). `Refinement` says
  when one pipeline may replace another without changing a row, `Reordering`
  that inner joins commute. `Conjuncts`, `Rewriting` and `RewriteSound` cover
  flattening, folding, left join conversion and destinations, `ColumnClasses`
  and `Propagation` the equality classes, `Equalities` which written conditions join
  and pin columns, `Contradiction` the bounds check and `SharedNames` when it is right,
  `JoinSearch`, `JoinGraphs` and `GroupOrder` the join order, `Conservation`
  and `Placement` where every condition of the query ends up. `RewritePasses` holds
  the in-place passes and `Rewriter` the whole rewrite. `PushDown` says of the written
  query alone which plan it gets.
- **Dictionary encoding.** `DictionaryClaim` is the step system of the claim
  workers, `DictionaryProgress` why it ends, `Dictionary` the dictionary built from
  what the workers leave behind.
- **String columns.** `FileBytes`, `StringLists`, `StringFile`, `StringColumn`.
- **Rows and indexes.** `SortedIndex`, `TableRows`.
- **Statistics.** `RadixSort`, `FloatKeys`, `CommonValues`, `StatsRecord`, and
  `RecordLayout`, which says what the bytes of a record mean.
- **Constraints.** `Declarations` says what the clauses of CREATE TABLE promise,
  `Constraints` and `Statements` that the stored rows keep it.
- **Text.** `SqlLexicon` and `SqlGrammar` say which texts are which tokens and which
  tokens denote which expression, without the tokenizer and the parser. `SqlTokens` is
  the tokenizer, `SqlOperands` and `SqlParser` are the parser and the printer,
  `SqlParses` and `SqlDenotes` show that they find exactly what is denoted, `SqlOperandTrip` and `SqlRoundTrip` the round trips over tokens,
  `SqlOperandText` and `SqlText` those over text, `SqlContext` the parse functions as
  they move through the tokens. `Calendar`, `IsoText`, `DecimalText`, `Digits`.

## Decisions

- The repository's README says there is no query optimizer yet; the code has one
  and the model follows the code.
- Column names are resolved already: a column is a relation number and a column
  number, or a loose name. FROM items are numbered in textual order. An ON
  condition of step k reads relations up to k.
- The key table and the join graph are modelled for tables without two columns whose
  names differ in case only. The optimizer takes such columns for one, although CREATE
  TABLE accepts them; see below. The bounds check is modelled for all tables.
- A row has one slot per FROM item; a slot is empty before its join and where a
  left join filled it up. Loose columns and subqueries are functions of the row
  that nothing is known about, so no result rests on them.
- A cross join reads no condition (`src/planner/planner.c:103-110`).
- Numbers in conditions are reals. Estimates, selectivities and the cost of a
  hash join are unknown functions; the search only adds and compares them.
- Strings of a column are byte sequences, and a file is one byte sequence with
  positioned reads and writes that reads zeros behind its end. All strings of a
  column together stay below 2^60 bytes, so no file address wraps around. A row
  number stays below 2^32 - 1 during dictionary encoding, the mark of an empty
  slot.
- A float is its bit pattern. Arena pushes are fresh arrays.
- Signed overflow has no meaning in C. Where the code has wider values than its
  types, `IsoText.CivilFitsIff`, `IsoText.DaysFitIff` and `IsoText.SplitFitsIff` say
  for which inputs none of them overflows. Casts and unsigned sums that cut a value
  are modelled, and the sign change of the smallest 64-bit decimal wraps around.
- An INSERT receives rows whose literals have been converted, or the mark of a
  group of values that could not be. Foreign and referenced columns have the
  same type.

## What turned out not to hold everywhere

- A string column without rows can be sent to disk by an append. The conversion
  takes the end of the last row for its size, and without a row that is the word
  before the array of ends (`src/cql/cql.c:3868`), which can be anything. Appending
  keeps the list if and only if this does not happen or that word is 0
  (`StringColumn.StringColumn.AddData`); otherwise the string comes back with as
  many bytes before it as the word says. It happens exactly when the column holds no
  row and `StringColumn.GoesToDiskIff` says so of its size. With the default settings
  a fresh column is safe up to 64 MB (`StringColumn.FreshGoesToDiskIff`), but one that
  has been emptied by removals is not: `StringColumn.AppendToEmptied` is a run that
  stores a string of little more than 32 MB wrongly.
- Columns are found by their exact names but compared without regard to case in the
  bounds table, the key table and the join graph (`src/optimizer/optimizer.c:985`,
  `1198`, `3438-3441`). `ColumnClasses.KeysAreColumnsIff` says exactly when this tells
  all columns apart. The bounds check pools the comparisons of all columns with one
  key, strings and numbers apart (`Contradiction.DetectContradiction`). It reports only
  lists that no row satisfies if and only if no table has two text columns or two
  number columns whose names differ in case only (`SharedNames.ReportsAreRealIff`);
  any other pair of columns never meets. For a table with columns id and ID the
  condition id = 1 AND ID = 2 is called impossible although a row satisfies it
  (`SharedNames.SharedNameCounterexample`).
- The day number of a timestamp is cut to 32 bits before it is printed
  (`src/base/base_date.c:102`). Printing and parsing a timestamp is the identity if and
  only if its own year is 0 to 9999 (`IsoText.TimestampKeptIff`);
  `IsoText.TimestampChangedIff` says exactly which timestamps come back as other ones
  and `IsoText.ChangedTimestamp` names one. All others are refused.
- DELETE does not look at foreign keys of the table itself
  (`src/application.c:333`). `Constraints.SelfReferenceCounterexample` is a
  table where this leaves a row without its parent, and
  `Constraints.DeleteKeepsKeysIff` says exactly when it does not. CREATE TABLE
  never declares such a key, since it looks up the referenced table before the
  new one exists; over runs of CREATE TABLE, INSERT and DELETE all constraints
  hold (`Statements.Database`).
- The date parser accepts day 31 in every month; `IsoText.AcceptedDate` says
  what day number it then gives.

## Model

| member | source | states |
|---|---|---|
| Predicates.RejectsNullSound | src/optimizer/optimizer.c:236-303 | by induction on AND/OR trees: an expression that rejects NULL for a relation is never TRUE in a row where that relation is all NULL, also for IN, NOT IN and comparisons |
| Predicates.RejectsNullReads | src/optimizer/optimizer.c:236-303 | a rejecting expression mentions a column of the relation |
| Predicates.RejectsNullIff | src/optimizer/optimizer.c:236-303 | exactly these conditions reject: AND when a side rejects, OR when both do, otherwise a test of a column of the relation that NULL fails |
| Predicates.EvalReadsOnlyRefs | src/optimizer/optimizer.c:167-204 | the relation mask is complete: a resolved condition has the same value on rows that agree on the relations of its mask |
| Predicates.RefsIff | src/optimizer/optimizer.c:167-204 | a relation is in the mask exactly when one of its columns occurs in the condition |
| Predicates.UnresolvedIff | src/optimizer/optimizer.c:167-204 | a condition is unresolved exactly when a loose column or a node that is not read occurs in it |
| Predicates.ConjunctsHold | src/optimizer/optimizer.c:37-58 | a condition is TRUE exactly when all collected conjuncts are |
| Predicates.AndChainHolds | src/optimizer/optimizer.c:62-79 | the chain built from conjuncts is TRUE exactly when all of them are, and is missing only for none |
| Plans.PlanRunsPipeline | src/optimizer/optimizer.c:671-747 | the plan tree built join by join returns the rows of the step-by-step pipeline, in the same order |
| Refinement.RefinementKeepsRows | src/optimizer/optimizer.c:455-544 | testing conditions early, dropping ones that are always true and turning left joins into inner joins keeps the sequence of rows, when every condition tested early is true in all result rows and every converted join has a rejecting WHERE conjunct |
| Refinement.Survivor | src/optimizer/optimizer.c:455-544 | a result row satisfies WHERE and the ON condition of every join that is not a left join |
| Refinement.ConvertedLeftJoin | src/optimizer/optimizer.c:427-452 | rows a left join fills with NULLs do not survive a WHERE conjunct that rejects NULL on its right side |
| Reordering.CrossPermutes | src/optimizer/optimizer.c:3846-3857 | the filtered cross product of the group is the same multiset in any order of its relations |
| Reordering.ReorderingKeepsRows | src/optimizer/optimizer.c:656-726 | two orders of the inner group, each testing its conditions once their relations are joined, return the same rows equally often through all later steps |
| Conjuncts.FlattenShape | src/optimizer/optimizer.c:317-368 | flattening lists all FROM items in textual order, the base first |
| Conjuncts.FlattenIff | src/optimizer/optimizer.c:317-368 | exactly the left-deep trees of at most 32 tables are flattened |
| Conjuncts.FlattenedRows | src/optimizer/optimizer.c:317-368 | a flattened FROM tree returns the rows of its list of steps |
| Conjuncts.WrittenRows | src/optimizer/optimizer.c:592-623 | FROM and WHERE together return the rows of the written pipeline |
| Conjuncts.LoadedShape | src/optimizer/optimizer.c:372-423 | the loaded list holds every leaf of WHERE and ON with its mask and origin, and nothing else |
| Conjuncts.FoldComparisonIff | src/optimizer/optimizer.c:809-848 | exactly the comparisons of two written numbers, or by = and != of two written strings, are folded, to the value they have |
| Conjuncts.FoldComparisonSound | src/optimizer/optimizer.c:809-848 | a folded comparison of two literals has the folded value in every row |
| Conjuncts.DestinedHasItsPlace | src/optimizer/optimizer.c:455-544 | a resolved WHERE conjunct that reads a relation is residual if and only if its last relation is null supplying, and goes to that relation otherwise, as a filter exactly when it reads no other; an ON conjunct is a filter if and only if its own relation, or an earlier one that is all it reads, can be tested before the join |
| Rewriting.WhereGoes | src/optimizer/optimizer.c:469-506 | a WHERE conjunct goes to a filter or ON clause only where no row is filled with NULLs and all its relations are joined |
| Rewriting.OnGoes | src/optimizer/optimizer.c:508-543 | an ON conjunct stays at its step or becomes a filter of a relation whose rows are all kept |
| Rewriting.RewrittenKeepsRows | src/optimizer/optimizer.c:592-751 | for every database and query: the rewritten query returns the same rows in the same order |
| ColumnClasses.SameRootIffConnected | src/optimizer/optimizer.c:1219-1227 | two columns have the same root exactly when the joined equalities connect them |
| ColumnClasses.ConnectedMatch | src/optimizer/optimizer.c:1339-1467 | columns connected by equalities have equal values in every row that satisfies those equalities |
| ColumnClasses.RootAfterLink | src/optimizer/optimizer.c:1364-1369 | hanging one root below another merges exactly the two classes |
| ColumnClasses.KeysAreColumnsIff | src/optimizer/optimizer.c:1193-1202 | the optimizer's comparison of names tells all columns apart exactly when no table has two names that differ in case only |
| ColumnClasses.SameUpToCaseIff | src/optimizer/optimizer.c:1193-1202 | names are the same exactly when they differ at most between the small and the capital form of a letter |
| ColumnClasses.ColumnKeys.KeyIndex | src/optimizer/optimizer.c:1193-1216 | finds the first key whose name is the column's up to case, or adds one, up to 128 keys, and changes no other key |
| ColumnClasses.ColumnKeys.KeyRoot | src/optimizer/optimizer.c:1219-1227 | chasing parents ends at the root of the class |
| ColumnClasses.ColumnKeys.Link | src/optimizer/optimizer.c:1364-1369 | parent links stay a forest and the classes of both roots become one |
| ColumnClasses.ColumnKeys.Join | src/optimizer/optimizer.c:1357-1369 | after one more equality the classes are those of all equalities so far |
| Equalities.PinsIff | src/optimizer/optimizer.c:1272-1312 | over all node shapes: a conjunct pins a column to a literal if and only if it is a resolved WHERE equality of the two, in either order, of one kind, on a relation that keeps its rows |
| Equalities.JoinsIff | src/optimizer/optimizer.c:1230-1268 | over all node shapes: a conjunct is a join key if and only if it is a resolved equality of comparable columns of two relations that keep their rows, in WHERE or in an ON clause of no left join |
| Equalities.FirstConstantIff | src/optimizer/optimizer.c:1377-1408 | the constant of a column is the literal of the first conjunct that pins it |
| Propagation.DerivedIsImplied | src/optimizer/optimizer.c:1423-1464 | a derived conjunct is TRUE in every row that satisfies the existing conjuncts |
| Propagation.ConflictMeansEmpty | src/optimizer/optimizer.c:1410-1421 | a conflict means that no row satisfies the conjuncts |
| Propagation.DerivedShape | src/optimizer/optimizer.c:1423-1464 | a derived conjunct reads one relation of a join key, whose rows are all kept |
| Propagation.ConflictsFound | src/optimizer/optimizer.c:1410-1421 | the loop reports a conflict exactly when two connected columns are pinned to different constants |
| Propagation.ConflictIff | src/optimizer/optimizer.c:1410-1421 | a conflict is two columns that written join equalities connect, pinned to different literals by the first conjuncts that pin them |
| Propagation.DerivedIff | src/optimizer/optimizer.c:1423-1464 | a derived conjunct equates a column that nothing pins with the literal that the first conjunct pinning a connected column gives |
| Propagation.PropagateConstants | src/optimizer/optimizer.c:1339-1467 | of the written conjuncts: reports a conflict exactly when two connected columns are pinned apart, appends only equalities of unpinned columns with the literal of a connected column, each column once, and one for every such column while there is room, and keeps the list |
| Contradiction.BoundsAreExact | src/optimizer/optimizer.c:1047-1119 | the folded bounds allow exactly the values that satisfy all comparisons |
| Contradiction.ImpossibleIffUnsatisfiable | src/optimizer/optimizer.c:1004-1119 | folding reports impossible if and only if no value satisfies all comparisons, in any arrival order |
| Contradiction.ContradictionMeansEmpty | src/optimizer/optimizer.c:1122-1188 | a contradiction means that no row satisfies the conjuncts |
| Contradiction.FindBounds | src/optimizer/optimizer.c:979-1001 | finds the first bounds entry whose name is the column's up to case, or adds one |
| Contradiction.ComparedIff | src/optimizer/optimizer.c:1122-1165 | a conjunct bounds a column if and only if it is a resolved WHERE comparison of the column with a literal of its kind, mirrored when the literal comes first |
| Contradiction.KeyContradictoryIff | src/optimizer/optimizer.c:1122-1188 | the list is contradictory exactly when, for some name up to case and one of the two kinds, no value passes every written comparison |
| Contradiction.DetectContradiction | src/optimizer/optimizer.c:1122-1188 | for every table: reports exactly when, for some name up to case, the string comparisons or the number comparisons of all its columns cannot be satisfied together |
| Contradiction.EntryStep | src/optimizer/optimizer.c:1047-1119 | an entry holds the folds of the string and of the number comparisons side by side, each comparison changes the part of its kind only |
| SharedNames.ContradictoryIsReported | src/optimizer/optimizer.c:1122-1188 | for every table: the comparisons of a single column that no value satisfies are always reported |
| SharedNames.ClearReports | src/optimizer/optimizer.c:1122-1188 | when no two columns of one kind share a name up to case, a report is about a single column whose comparisons no value satisfies |
| SharedNames.ReportsAreRealIff | src/optimizer/optimizer.c:979-1001 | only lists that no stored row satisfies are reported, for every list and database, exactly when no table has two text columns or two number columns whose names are equal up to case |
| SharedNames.SharedMisleads | src/optimizer/optimizer.c:985 | for any two such columns: a list that is reported, a database and a stored row that satisfies it |
| SharedNames.SharedEntry | src/optimizer/optimizer.c:979-1001 | two columns with one name up to case, pinned to different constants of one kind, are called impossible |
| SharedNames.SharedNameCounterexample | src/optimizer/optimizer.c:985 | a table with columns id and ID, and a row that satisfies id = 1 AND ID = 2 |
| JoinSearch.ExtendIffTied | src/optimizer/optimizer.c:3596-3630 | a relation can be added exactly when an edge ties it to the set |
| JoinSearch.ExtendedRowsAre | src/optimizer/optimizer.c:3596-3630 | the estimate is the product of both sides and the combined selectivities of the first 16 edges between them, each told the rows behind its own two ends |
| JoinSearch.ExtendRows | src/optimizer/optimizer.c:3596-3630 | the loop over the edges computes it |
| JoinSearch.CostOfOrder | src/optimizer/optimizer.c:3633-3654 | the loop over the positions adds up the costs, and gives none where an edge is missing |
| JoinSearch.CostIffTied | src/optimizer/optimizer.c:3633-3654 | an order has a cost exactly when each relation is tied to those before it |
| JoinSearch.TiedOrderMeansConnected | src/optimizer/optimizer.c:3660-3727 | an order with tied prefixes exists only in a connected graph |
| JoinSearch.ConnectedReachesAll | src/optimizer/optimizer.c:3660-3727 | in a connected graph the table reaches the full set |
| JoinSearch.PathFits | src/optimizer/optimizer.c:3711-3724 | following previous masks gives each relation of the set once, at the cost and rows of the state |
| JoinSearch.FillStates | src/optimizer/optimizer.c:3667-3708 | after the loops every state extends a smaller valid one and satisfies the Bellman inequality against every extension |
| JoinSearch.JoinOrderDp | src/optimizer/optimizer.c:3660-3727 | succeeds exactly on a connected graph of 2 to 10 relations, with a permutation of tied prefixes whose order cost is the reported cost |
| JoinSearch.TableIsMinimal | src/optimizer/optimizer.c:3660-3727 | no tied order of a set is cheaper than its state, when estimates depend on the set only |
| JoinSearch.DpIsMinimal | src/optimizer/optimizer.c:3660-3727 | under the same assumption the returned cost is minimal over all orders |
| JoinSearch.GreedyNext | src/optimizer/optimizer.c:3758-3784 | picks the first of the tied relations that keep the result smallest, or none is tied |
| JoinSearch.JoinOrderGreedy | src/optimizer/optimizer.c:3731-3794 | succeeds exactly on a connected graph, with the greedy order: a smallest tied start, then each time the tied relation that keeps the result smallest, the first one among equals |
| JoinSearch.GreedyIsOne | src/optimizer/optimizer.c:3731-3794 | there is only one greedy order |
| JoinSearch.ChooseJoinOrder | src/optimizer/optimizer.c:3797-3841 | says when the order changes: up to 10 relations, with estimates that depend on the set only, a changed order is the cheapest of all, and an order that stays meets no possible order that costs less than 0.9 of it; above 10 the greedy order is taken exactly when the written one is impossible or it costs less than 0.9; a connected graph whose written order is impossible is always changed |
| JoinGraphs.AddEdge | src/optimizer/optimizer.c:3432-3462 | appends an edge unless it is there in either direction or the list is full |
| JoinGraphs.EdgeIff | src/optimizer/optimizer.c:3466-3511 | a conjunct is an edge if and only if it is a resolved ON equality of comparable columns of two relations of the group |
| JoinGraphs.CollectEdges | src/optimizer/optimizer.c:3466-3511 | the edges are exactly the written equalities of the group, each once |
| JoinGraphs.AddDerivedEdges | src/optimizer/optimizer.c:3515-3555 | adds exactly the pairs of columns of different relations that the written edges connect, while there is room |
| JoinGraphs.EdgeIsImplied | src/optimizer/optimizer.c:3515-3555 | every edge, derived or not, is TRUE where the written ON equalities are |
| JoinGraphs.FindEdgeBetween | src/optimizer/optimizer.c:3558-3580 | the first edge between two relations, written ones only if asked |
| GroupOrder.LastPositionIs | src/optimizer/optimizer.c:4021-4038 | the step of a conjunct is the last position of a relation it reads |
| GroupOrder.JoinEqualityIff | src/optimizer/optimizer.c:690-711 | a relation gets a derived equality if and only if no written edge and some derived one ties it to earlier relations, and it is the first edge to the earliest of them |
| GroupOrder.OnIsReady | src/optimizer/optimizer.c:4021-4038 | a condition of the group is placed after the first position and reads only relations joined by then |
| GroupOrder.OrderedRunsGroup | src/optimizer/optimizer.c:656-726 | in any order of the group every placed condition, derived ones included, reads only joined relations and is implied by the written ones, and none is lost |
| GroupOrder.OrderKeepsRows | src/optimizer/optimizer.c:656-726 | the plan of any order of the group returns the same multiset of rows as the written order |
| Conservation.EveryConjunctLandsOnce | src/optimizer/optimizer.c:455-751 | all conditions of the plan are the conjuncts that are not dropped, each once, and the derived equalities |
| Placement.PlanConditions | src/optimizer/optimizer.c:62-79 | the AND chains of the plan tree hold exactly the conditions of the pipeline it is built from, each as often |
| Placement.AllAreAdded | src/optimizer/optimizer.c:3515-3555 | everything that is added is an equality of a column that is TRUE in every row of the query, or the false comparison of a query without rows |
| Placement.ReadyConditions | src/optimizer/optimizer.c:592-751 | as multisets, the conditions of the plan are the written ones without those folded to true, and the added ones |
| RewritePasses.CollectConjuncts | src/optimizer/optimizer.c:37-58 | stores the leaves in order and returns the real count also when it exceeds the capacity |
| RewritePasses.LoadConjuncts | src/optimizer/optimizer.c:372-423 | the list is WHERE then every ON, or empty when there are more than 64 conjuncts |
| RewritePasses.FoldConstants | src/optimizer/optimizer.c:884-913 | drops exactly the conjuncts folded to true and reports exactly the false ones that empty the result |
| RewritePasses.ConvertLeftJoins | src/optimizer/optimizer.c:427-452 | clears the mark of exactly the left joins that some usable WHERE conjunct rejects |
| RewritePasses.AssignDestinations | src/optimizer/optimizer.c:455-544 | gives every conjunct its place: a resolved WHERE conjunct that reads a relation is residual if and only if its last relation is null supplying, and goes exactly there otherwise; the same for ON conjuncts; the rest of the array is as it was |
| RewriteSound.EmptyIsEmpty | src/optimizer/optimizer.c:625-631 | a query called always empty returns no row |
| RewriteSound.FalseConditionIff | src/optimizer/optimizer.c:884-913 | folding finds an empty query exactly when a false comparison is written in WHERE or in an ON clause of no left join |
| RewriteSound.PinsAreNeverMissed | src/optimizer/optimizer.c:1339-1467 | whichever conjuncts pin two connected columns to different literals, the query is called always empty |
| RewriteSound.ListIsSound | src/optimizer/optimizer.c:625-634 | after folding and propagation only true conjuncts are dropped and only implied ones added |
| RewriteSound.FinalIsPlaceable | src/optimizer/optimizer.c:3935-3947 | when the guard allows it, the group's conditions can be moved |
| PushDown.PlanReadsBack | src/optimizer/optimizer.c:547-573 | a plan of two or more tables shows the pipeline it was built from |
| PushDown.PlanIsPushedDown | src/optimizer/optimizer.c:455-747 | for every query: which leaves of WHERE and ON each scan filters, each join tests and what stays behind all joins, in which order, and the kind of each join, said of the written conditions; what stays is unresolved, reads no relation or has a last relation that stays null supplying |
| PushDown.ReorderIsAllowedIff | src/optimizer/optimizer.c:3846-3947 | the group reaches up to the first left join that stays, and may be reordered if and only if its ON conditions are resolved and no written left join in it tests a single earlier relation |
| Rewriter.FindStepPosition | src/optimizer/optimizer.c:4021-4038 | computes the step of a conjunct's last relation, behind the group its written step |
| Rewriter.DeriveEquality | src/optimizer/optimizer.c:690-711 | finds the equality that `GroupOrder.JoinEqualityIff` describes |
| Rewriter.BuildPlan | src/optimizer/optimizer.c:664-747 | builds the plan of the ordered pipeline |
| Rewriter.PlanJoinOrder | src/optimizer/optimizer.c:3982-4017 | gives the written order when reordering is off, not allowed or pointless, and otherwise the order that the search chooses for the estimated rows and the edges of the group |
| Rewriter.SearchOrder | src/optimizer/optimizer.c:3982-4008 | asks the search with the estimated rows of the filters and exactly the written and implied edges, and passes on the order and whether it changed |
| Rewriter.ChosenKeepsRows | src/optimizer/optimizer.c:592-751 | the plan of the chosen order returns the rows of the query |
| Rewriter.ChosenPlacesOnce | src/optimizer/optimizer.c:592-751 | in the plan that is built every conjunct that is not dropped is in exactly one filter, ON clause or residual |
| Rewriter.ChosenKeepsConditions | src/optimizer/optimizer.c:592-751 | the plan of the chosen order has every written condition that is not always true exactly as often as FROM and WHERE, and otherwise only added ones |
| Rewriter.RewriteFromWhere | src/optimizer/optimizer.c:592-751 | for every database: the same multiset of rows as FROM and WHERE, the same sequence when the order is not changed, every written condition that is not always true exactly as often; the plan is the one that the written query determines, place by place, with the order that the search chooses; and no plan exactly for unsupported or too large queries |
| DictionaryClaim.DivideWorkCovers | src/thread_pool/thread_pool.c:236-249 | every row is in exactly one worker's share |
| DictionaryClaim.StepKeepsInvariant | src/cql/cql.c:3504-3543 | every step of every worker keeps owners on their probe paths, behind other strings only |
| DictionaryClaim.SlotsOwnDistinctStrings | src/cql/cql.c:3504-3543 | in every reachable state no two slots own equal strings |
| DictionaryClaim.EveryRunCompletes | src/cql/cql.c:3504-3543 | under every interleaving that ends without overflow each string of the column is found on its probe path |
| DictionaryClaim.OverflowMeansFullPath | src/cql/cql.c:3537-3541 | the overflow flag goes up only for a string whose 256 slots belong to other strings |
| DictionaryProgress.EveryRunEnds | src/cql/cql.c:3504-3543 | under every interleaving the workers stop after a bounded number of steps, and where no step changes anything all are finished |
| DictionaryProgress.FlagStopsWorkers | src/cql/cql.c:3512-3515 | once the overflow flag is up it stays up and no worker begins another row |
| Dictionary.OwnedIsDistinct | src/cql/cql.c:3611-3624 | as many owned slots as different strings |
| Dictionary.ValuesDiffer | src/cql/cql.c:3641-3656 | different codes stand for different strings |
| Dictionary.ValuesAreStrings | src/cql/cql.c:3641-3656 | the dictionary holds exactly the strings of the column |
| Dictionary.BuildDict | src/cql/cql.c:3641-3656 | codes are given in slot order |
| Dictionary.CodeFromValue | src/cql/cql.c:3464-3483 | the lookup returns the value's code, and none exactly for a string the column does not hold |
| Dictionary.FillCodes | src/cql/cql.c:3545-3557 | values[codes[row]] is the row's string for every row |
| Dictionary.CountDistinct | src/cql/cql.c:3611-3624 | stops exactly when there are more owned slots than allowed |
| Dictionary.CapacityIs | src/cql/cql.c:3595 | the table has the smallest power of two slots that is four times the limit of different strings |
| Dictionary.DictColumn.EnsureStringDict | src/cql/cql.c:3560-3684 | builds a dictionary exactly for columns within all limits, keeps a current one, and what it keeps encodes the column |
| StringFile.ConvertedLayout | src/cql/cql.c:3861-3869 | the three writes of a conversion give a file that holds the rows |
| StringFile.GrownLayout | src/cql/cql.c:2480-2523 | growth keeps all data and ends, also when old and new places overlap |
| StringFile.AppendedLayout | src/cql/cql.c:2525-2532 | the pending data and ends complete the file |
| StringColumn.GoesToDiskIff | src/cql/cql.c:2632-2651 | for every size of the buffer: a column goes to disk exactly when every doubling that holds the needed bytes is above the threshold |
| StringColumn.FreshGoesToDiskIff | src/cql/cql.c:2632-2651 | by default a first string sends a fresh column to disk exactly when it has more than 64 MB |
| StringColumn.EmptiedGoesToDisk | src/cql/cql.c:2632-2651 | two columns emptied by removals that smaller strings send to disk |
| StringColumn.AppendToEmptied | src/cql/cql.c:3868 | a run that appends to an emptied column: the string that is read back is the appended one exactly when the word before the array of ends is 0 |
| StringColumn.StringColumn.FlushPending | src/cql/cql.c:2454-2544 | writes the buffer out without changing the list |
| StringColumn.StringColumn.AddDiskBacked | src/cql/cql.c:2547-2598 | appends to the list; the buffer is flushed first if and only if rows or bytes run out; a wrong size goes on into the recorded end |
| StringColumn.StringColumn.AddData | src/cql/cql.c:2601-2738 | appends in every mode and goes to disk exactly when `StringColumn.GoesToDiskIff` says so; the list is kept exactly unless a column without rows goes to disk and the word before its ends is not 0 |
| StringColumn.StringColumn.ConvertToDiskBacked | src/cql/cql.c:3851-3886 | moves a column to disk without changing the list; without a row its size becomes the word before the array of ends |
| StringColumn.StringColumn.MaterializeToMemory | src/cql/cql.c:3889-3957 | moves it back without changing the list |
| StringColumn.StringColumn.RemoveData | src/cql/cql.c:3045-3090 | removes one string from the list, and a column on disk comes back to memory for it |
| StringColumn.StringColumn.GetString | src/cql/cql.c:3127-3195 | returns the i-th string, the empty one beyond the end, and for a misplaced row everything up to its recorded end |
| SortedIndex.LessIsTotal | src/cql/cql.c:2085-2093 | keys are totally ordered, texts byte by byte |
| SortedIndex.LessIff | src/cql/cql.c:2085-2093 | keys ascend: at the first differing byte the smaller one comes first, and a prefix before what it is a prefix of |
| SortedIndex.NewRowKeepsIndex | src/cql/cql.c:2211-2249 | the order stays a permutation of all rows sorted by the current keys after an insert |
| SortedIndex.OldRowKeepsIndex | src/cql/cql.c:2252-2270 | and after a removal with renumbering |
| SortedIndex.Index.LowerBound | src/cql/cql.c:2222-2243 | the binary search finds the first key not less than the new one |
| SortedIndex.Index.InsertRow | src/cql/cql.c:2211-2249 | shifts in place and keeps the index |
| SortedIndex.Index.RemoveRow | src/cql/cql.c:2252-2270 | takes the row out in place and renumbers the rows behind it |
| TableRows.Column.AddMaybeNull | src/cql/cql.c:3020-3036 | appends value and NULL mark, with flags allocated at the first NULL only |
| TableRows.Column.RemoveData | src/cql/cql.c:3045-3090 | removes value and NULL mark |
| TableRows.Table.AddRow | src/cql/cql.c:547-561 | extends every column object and keeps every index object, none of which share storage |
| TableRows.Table.RemoveRow | src/cql/cql.c:574-593 | removes the row from every column object and keeps every index object |
| TableRows.Table.DeleteRows | src/application.c:1401-1406 | leaves exactly the unselected rows in their order, in every column and NULL flag array, and keeps every index |
| TableRows.RemoveBelow | src/application.c:1401-1406 | removing in descending order never moves a row that is still to be removed |
| RadixSort.EightPassesSort | src/cql/cql_stats.c:377-420 | eight stable passes give the sorted permutation |
| RadixSort.BucketsSorted | src/cql/cql_stats.c:399-412 | one pass sorts by its byte on top of the order it finds |
| RadixSort.OneBucket | src/cql/cql_stats.c:395-398 | a pass over a constant byte changes nothing and may be skipped |
| RadixSort.Scatter | src/cql/cql_stats.c:406-409 | the scatter loop fills every bucket in order |
| RadixSort.RadixSort | src/cql/cql_stats.c:377-420 | the array ends sorted and a permutation, with any passes skipped and the result in either buffer |
| FloatKeys.KeyRoundTrip | src/cql/cql_stats.c:423-437 | the key map is invertible |
| FloatKeys.KeysKeepOrder | src/cql/cql_stats.c:423-428 | keys order exactly like totalOrder (IEEE 754-2008, section 5.10) |
| FloatKeys.KeysKeepValues | src/cql/cql_stats.c:423-428 | and like the numeric values, the two zeros apart |
| FloatKeys.SortF64 | src/cql/cql_stats.c:440-454 | floats that are not NaN end sorted and a permutation |
| CommonValues.InsertedIsTop | src/cql/cql_stats.c:318-341 | inserting a run keeps exactly the eight best runs, ties to the smaller key |
| CommonValues.BuildMcv | src/cql/cql_stats.c:300-348 | the exact number of different keys and exactly the best runs of two or more with their fractions |
| StatsRecord.RecordRoundTrip | src/cql/cql_stats.c:684-817 | a written record is read back exactly, whatever follows it |
| StatsRecord.RecordsRoundTrip | src/cql/cql_stats.c:684-817 | concatenated records decode back to all of them |
| StatsRecord.TruncatedIsRefused | src/cql/cql_stats.c:733-817 | every strict prefix of a record is refused |
| StatsRecord.SizeIsExact | src/cql/cql_stats.c:667-681 | the computed size is the written size |
| StatsRecord.WriteRecord | src/cql/cql_stats.c:684-729 | writes exactly the encoding and nothing around it |
| StatsRecord.ReadRecord | src/cql/cql_stats.c:733-817 | reads exactly what decodes, with every length checked |
| RecordLayout.DecodeIff | src/cql/cql_stats.c:733-817 | which byte holds which field: the reader returns a record and a rest if and only if the first bytes are that record, lowest byte first, with at most 64 buckets and 8 common values |
| RecordLayout.EncodedIsRecord | src/cql/cql_stats.c:684-729 | a written record has every field in these bytes |
| Constraints.InsertKeepsConstraints | src/application.c:260-325 | a row that passes validation keeps every constraint of every table |
| Constraints.InsertableIff | src/application.c:260-325 | a row is accepted if and only if all constraints of all tables hold with it |
| Constraints.RemoveKeepsConstraints | src/application.c:328-353 | removing a row that no other table references keeps them, in a table that does not reference itself |
| Constraints.RestrictedIff | src/application.c:328-353 | a DELETE is refused if and only if a row of another table references a row that would go |
| Constraints.RestrictedLosesParent | src/application.c:328-353 | and that row would lose its parent when the referenced column is unique |
| Declarations.DeclaredAre | src/application.c:857-899 | every column of a new table is what its clauses say, in any order: NOT NULL exactly when NOT NULL or PRIMARY KEY is written, UNIQUE likewise, the last CHECK, and the last foreign key that names an existing column |
| Declarations.ConstraintsKeepWritten | src/application.c:260-325 | rows that keep the constraints of such a table keep what was written: no NULL, no repeated value, every CHECK and a stored parent |
| Constraints.DeleteKeepsKeysIff | src/application.c:1380-1406 | a DELETE that passes the check keeps FOREIGN KEY exactly when what the remaining rows reference in their own table remains |
| Constraints.SelfReferenceCounterexample | src/application.c:331-333 | a table that references itself can lose a referenced row |
| Statements.Database.CreateTable | src/application.c:806-909 | adds an empty table under a new name whose columns are what is written, clause by clause |
| Statements.Database.DeclareColumn | src/application.c:857-899 | the loop over the clauses of a column |
| Statements.Database.StoredKeepWritten | src/application.c:1046-1208 | over all runs of CREATE TABLE, INSERT and DELETE: no NULL is stored in a column written NOT NULL, no value twice in one written UNIQUE, and CHECK and REFERENCES hold |
| Statements.Database.ValidateRow | src/application.c:260-325 | accepts exactly the rows that keep NOT NULL, CHECK, UNIQUE and FOREIGN KEY |
| Statements.Database.Insert | src/application.c:1046-1208 | inserts the rows up to the first refused one; all constraints hold, also when partly applied |
| Statements.Database.HasChildren | src/application.c:328-353 | finds a row of another table that references the row, if there is one |
| Statements.Database.Delete | src/application.c:1380-1406 | removes all selected rows, or none when one is referenced; all constraints hold |
| SqlTokens.SliceTokens | src/ir_gen/sql_parser.c:41-205 | the slice of a text from one token to another tokenizes to exactly the tokens in between |
| SqlTokens.LexCut | src/ir_gen/sql_parser.c:41-205 | no token depends on the text behind it |
| SqlTokens.Tokenize | src/ir_gen/sql_parser.c:41-205 | the loop finds the tokens of the text with their ranges |
| SqlLexicon.LexIff | src/ir_gen/sql_parser.c:41-205 | a text starts with a token if and only if the tokenizer finds it: words, numbers and runs reach as far as they can, a string to a quote that is not doubled, keywords in any case |
| SqlLexicon.TokensAre | src/ir_gen/sql_parser.c:41-205 | the tokens of a text are the only ones it can be read as, with any spaces between them |
| SqlOperandTrip.OperandTrip | src/ir_gen/sql_parser.c:2814-2871 | the tokens of every operand, function calls with their windows included, parse back to it, whatever follows that cannot belong to it |
| SqlOperandTrip.CallTrip | src/ir_gen/sql_parser.c:853-929 | a call with any arguments, PARTITION BY columns and sort keys that are calls again parses back to the same tree |
| SqlOperandTrip.OperandCut | src/ir_gen/sql_parser.c:2814-2871 | an operand parses the same when the tokens behind it are gone |
| SqlDenotes.OperandIff | src/ir_gen/sql_parser.c:2814-2871 | tokens parse to an operand if and only if they denote it, TRUE as 1 and FALSE as 0 in any case |
| SqlDenotes.ExpressionIff | src/ir_gen/sql_parser.c:1290-1545 | tokens parse to an expression if and only if they denote it, with any redundant parentheses |
| SqlDenotes.TextIff | src/ir_gen/sql_parser.c:1290-1545 | the same of every text |
| SqlDenotes.DenotesOne | src/ir_gen/sql_parser.c:1290-1545 | tokens denote at most one expression |
| SqlOperandText.ParsedOperandFound | src/ir_gen/sql_parser.c:2814-2871 | what an operand parses to is printed with tokens like those it came from, and behind a call without a window there is no OVER |
| SqlRoundTrip.PrintedParsesBack | src/ir_gen/sql_parser.c:1290-1545 | the tokens of every expression printed with parentheses only where precedence asks for them parse back to the same tree |
| SqlText.TextTokens | src/ir_gen/sql_parser.c:41-205 | tokens written with quotes doubled and spaces between them tokenize to themselves |
| SqlText.TextParsesBack | src/ir_gen/sql_parser.c:1290-1545 | the text of every expression whose names are names tokenizes and parses back to the same tree |
| SqlText.ParsedPrintsBack | src/ir_gen/sql_parser.c:1290-1545 | whatever a text parses to is printed as a text that parses to the same tree |
| SqlRoundTrip.OrCut | src/ir_gen/sql_parser.c:1510-1545 | an expression parses the same when the tokens behind it are gone |
| SqlRoundTrip.CheckTextParsesBack | src/ir_gen/sql_parser.c:2100-2107 | the captured source slice of CHECK re-tokenizes to exactly the consumed tokens and re-parses to the same tree |
| SqlContext.ParseCtx.ParseComparisonAt | src/ir_gen/sql_parser.c:1290-1473 | moves the position exactly behind the comparison or group it returns |
| SqlContext.ParseCtx.ParseAndAt | src/ir_gen/sql_parser.c:1476-1507 | the AND loop builds the left associative tree |
| SqlContext.ParseCtx.ParseOrAt | src/ir_gen/sql_parser.c:1510-1545 | the OR loop builds the left associative tree over AND chains |
| SqlContext.ParseCtx.ParseOperandAt | src/ir_gen/sql_parser.c:2814-2871 | moves the position exactly behind the operand it returns |
| SqlContext.ParseCtx.ParseCallAt | src/ir_gen/sql_parser.c:853-929 | parses the name, the arguments, the closing parenthesis and the window of a call |
| SqlContext.ParseCtx.ParseListAt | src/ir_gen/sql_parser.c:864-903 | the loop over arguments, or over PARTITION BY columns, collects them in order up to the last comma |
| SqlContext.ParseCtx.ParseWindowAt | src/ir_gen/sql_parser.c:1129-1185 | parses the optional PARTITION BY and the optional ORDER BY of a window |
| SqlContext.ParseCtx.ParseKeysAt | src/ir_gen/sql_parser.c:2697-2750 | the loop over sort keys collects columns or calls with their directions |
| SqlContext.ParseCtx.ParseCheck | src/ir_gen/sql_parser.c:2089-2124 | succeeds if and only if the tokens are a parenthesis, tokens that denote a condition, and a closing one; keeps the source in between, a text that alone parses to the condition |
| SqlContext.ParseCtx.Capture | src/ir_gen/sql_parser.c:2089-2107 | keeps the slice of the source whenever a condition parses |
| SqlContext.ParseCheckText | src/cql/cql.c:1089-1105 | parses the kept text from its first token |
| SqlContext.CheckSurvivesReload | src/cql/cql.c:1089-1105 | what CREATE TABLE kept is what loading the table gives back, and something was kept if and only if a condition was written |
| Calendar.CivilRoundTrip | src/base/base_date.c:2-29 | every Gregorian date comes back from its day number |
| Calendar.DaysRoundTrip | src/base/base_date.c:2-29 | every day number gives a Gregorian date with that number |
| Calendar.NextDayCounts | src/base/base_date.c:2-10 | the next day of the calendar has the next number |
| Calendar.EpochIsZero | src/base/base_date.c:2-10 | 1970-01-01 is day 0 |
| Calendar.StrictlyMonotone | src/base/base_date.c:2-10 | later dates and only they have larger numbers |
| IsoText.CivilFitsIff | src/base/base_date.c:13-29 | no 32-bit value overflows, exactly for the day numbers up to 2^31 - 1 - 719468 |
| IsoText.DaysFitIff | src/base/base_date.c:2-10 | no 32-bit value overflows, exactly for the dates from -5877641-06-23 to 5879610-09-09 |
| IsoText.DateTextRoundTrip | src/base/base_date.c:31-89 | printing then parsing a date is the identity exactly for years 0 to 9999 (ISO 8601:2004, section 4.1.2.2), other text is refused |
| IsoText.AcceptedDate | src/base/base_date.c:31-49 | what day an accepted text stands for, also beyond the end of its month |
| IsoText.DateIff | src/base/base_date.c:31-49 | a text is a date if and only if it is yyyy-mm-dd with month 1 to 12 and day 1 to 31, and stands for that day counted from the first of the month |
| IsoText.TimestampIff | src/base/base_date.c:51-89 | a text is a timestamp if and only if it is a date, or a date, a space or T, and hh:mm:ss, and stands for that second |
| IsoText.PrintedTimestamp | src/base/base_date.c:91-107 | a timestamp of the years 0 to 9999 is printed as its date, a space and its time of day |
| IsoText.PrintedYear | src/base/base_date.c:84-89 | a year has its sign and at least four characters, and no needless zeros |
| IsoText.WholeDaysIsFloor | src/base/base_date.c:95-98 | days are rounded down before 1970 too |
| IsoText.SplitFitsIff | src/base/base_date.c:95-97 | no 64-bit value overflows, but for the 86400 smallest timestamps |
| IsoText.TimestampTextRoundTrip | src/base/base_date.c:51-107 | for every timestamp (RFC 3339, section 5.6), also before 1970: what comes back is its second of the day on the day left after the cut to 32 bits, if that is a day of the years 0 to 9999, and nothing otherwise |
| IsoText.TimestampKeptIff | src/base/base_date.c:51-107 | printing then parsing is the identity exactly for timestamps of the years 0 to 9999 |
| IsoText.TimestampChangedIff | src/base/base_date.c:99-102 | a timestamp comes back as another one exactly when its day number does not fit 32 bits and the cut leaves a day of the years 0 to 9999 |
| IsoText.ChangedTimestamp | src/base/base_date.c:99-102 | second 371085174374400 comes back as 0 |
| IsoText.OverflowIsRefused | src/base/base_date.c:15 | where the shift of the day number overflows, the text is refused whether the shifted value wraps around or not |
| DecimalText.DecimalRoundTrip | src/cql/cql.c:4074-4132 | parsing what was printed gives the raw value for every scale up to 18 and every 64-bit value |
| DecimalText.AcceptedIff | src/cql/cql.c:4074-4093 | a text is accepted if and only if it is an optional sign and digits before or behind an optional point |
| DecimalText.PrintedForm | src/cql/cql.c:4117-4132 | a minus sign for negative values only, no leading zeros, and as many digits behind the point as the scale |
| DecimalText.FitsExactly | src/cql/cql.c:4108-4114 | the parsed value is exact when a signed 64-bit value can hold it |
| DecimalText.RoundsToNearest | src/cql/cql.c:4095-4111 | dropped digits are rounded to the nearest unit, halves away from zero |
| DecimalText.ExactWhenKept | src/cql/cql.c:4095-4111 | nothing is lost when the scale keeps all digits |

## Left out

- The GPU layer, the executor, the shaders, sockets, the Postgres protocol, the client, logging, CSV import and export, DESCRIBE and EXPLAIN: calls into code that is not part of this model, or printing.
- CTE and derived table inlining and semi-join extraction: they rest on name resolution and executor behaviour that is not part of this model.
- Zone maps and HyperLogLog: estimates, or valid for append-only histories only.
- Cost constants, selectivity formulas, scan strategies and sizing hints: the join search is proved for any such functions.
- Column name resolution, the check for ambiguous columns in SELECT and the optimizer switches: the rewriter receives resolved columns and one flag that says whether it may reorder.
- The histogram builder and the sampling scan: they choose rows at a fixed stride and read bounds off the sorted sample, for estimates only.
- `quick_sort` of the base layer, so also building an index over existing rows: an index is modelled from the empty table on, and DELETE receives its selected rows in descending order.
- NaN ordering and the rounding of 64-bit integers to floats in index keys: keys are totally ordered values.
- Join steps, conjunct lists and the DP table are arrays that are updated in place; the join graph and the plan under construction are values, so aliasing between them is not modelled.
- Number columns in a file: a value is stored at its row number times its size, so there is no region to grow and no ends to move; their appends, flushes and conversions are not modelled.
- Reading the dictionary's chunk through a mapped file, and closing handles and mappings: the claim phase sees the strings of the column.
- Storing codes in parallel after the dictionary is built: every row writes its own cell, so one loop stands for the workers.
- ALTER, DROP and IMPORT: the constraint results are about CREATE TABLE, INSERT and DELETE.
- Rewriter.RewriteFromWhere: does not model the column qualifiers that are stripped from pushed filters, because columns are resolved, and does not cover tables with names that differ in case only.
- SqlContext.ParseCtx.ParseOperandAt: refuses subqueries, since the grammar of SELECT is not part of this model.
- SqlContext.ParseCtx.ParseComparisonAt: refuses EXISTS and IN with a subquery for the same reason.
- SqlRoundTrip.PrintedParsesBack: says nothing about trees with subqueries, for the same reason.
- ColumnClasses.ColumnKeys.Join: does not cover tables with names that differ in case only, whose columns share a key whatever their types are.
- Propagation.PropagateConstants: does not cover such tables either.
- JoinGraphs.AddEdge: does not cover such tables either.
- JoinGraphs.CollectEdges: does not cover such tables either.
- JoinGraphs.AddDerivedEdges: does not cover such tables either.
- Rewriter.PlanJoinOrder: does not cover such tables either.
- StringColumn.StringColumn.GetString: a misplaced row is read only while its recorded end stays below 2^60, where no file address wraps around.
- StringColumn.StringColumn.AddDiskBacked: appends to a column whose first row is misplaced are not modelled.
- SqlText.TextParsesBack: needs names of columns and functions that are names and no keywords, since there are no quoted names; trees with subqueries are not covered.
- Constraints.InsertKeepsConstraints: compares values of equal type; how a literal becomes a value is not modelled, except for dates and decimals in `IsoText` and `DecimalText`.
