# Leading join hints and JDBC column-type checks

This project models two pieces of Apache Doris in Dafny.

**The leading hint of the Nereids optimizer** (`LeadingHint.java`). A hint
such as `leading(t1 {t2 t3} shuffle t4)` fixes the order in which the
optimizer joins tables. The model covers:

- the constructor's token parser, which builds the table list, the level list
  and the distribute directives;
- the registry of relation ids and table names, and the relation bitmaps built
  from it;
- the join-constraint resolver `getJoinConstraint` and `computeJoinType`, which
  decide whether two sub-plans may be joined, and with which join kind;
- the extraction of pending filters whose tables are all covered by a plan;
- the stack machine `generateLeadingJoinPlan`, which folds tables of the same
  level into joins, proved to build exactly the join tree that a reference
  assembler derives from the level list;
- `getExplainString`.

Relation bitmaps are sets of relation ids. Plans are an abstract datatype of
relations, projections, filters and joins that record their bitmap. Java
exceptions are outcomes of the operation (`Assembly.Thrown`, `Option.None`).

**The column-type check of the backend's JDBC connector**
(`vjdbc_connector.cpp`). The model covers:

- the table of Java type names that each Doris slot type accepts;
- the cast-index registries filled for JSONB, HLL and BITMAP columns;
- the pairing of the k-th materialized slot with the k-th column type reported
  by the executor;
- the four parameter strings handed to the Java scanner, together with the
  proof that they split back into their entries.

Files:

- `wrappers.dfy`: the `Option` datatype;
- `join_types.dfy`: join kinds, hint status and distribute hints;
- `plans.dfy`: bitmaps and plans;
- `relation_registry.dfy`: the relation-id/name list;
- `filter_scope.dfy`: filter extraction;
- `join_constraints.dfy`: the resolver as a specification function over the constraint list;
- `hint_parser.dfy`: the token parser;
- `join_shapes.dfy`: the join tree that the level list prescribes, as the stack machine run on tree skeletons;
- `leading_hint.dfy`: the `LeadingHint` class, whose methods are proved against the functions above;
- `separators.dfy`: separator-joined strings and their splitting;
- `jdbc_connector.dfy`: the `JdbcConnector` class and the type table.

In the table below, `LeadingHint.java` stands for
`fe/fe-core/src/main/java/org/apache/doris/nereids/hint/LeadingHint.java` and
`vjdbc_connector.cpp` stands for `be/src/vec/exec/vjdbc_connector.cpp`. The
source column always gives the full path.

## Model

| member | source | states |
|---|---|---|
| JoinTypes.Swap | fe/fe-core/src/main/java/org/apache/doris/nereids/hint/LeadingHint.java:441-445 | swapping the children turns a left kind into a right kind and back |
| JoinTypes.SwapInvolution | fe/fe-core/src/main/java/org/apache/doris/nereids/hint/LeadingHint.java:441-445 | swap is an involution; it keeps the semi, anti, one-side-outer and full-outer families; it fixes exactly inner, cross and full outer joins |
| JoinTypes.CompatibleUnderSwap | fe/fe-core/src/main/java/org/apache/doris/nereids/hint/LeadingHint.java:260-263 | the compatibility relation of isConditionJoinTypeMatched is symmetric and ignores orientation on either side |
| Plans.BitmapOfAppend | fe/fe-core/src/main/java/org/apache/doris/nereids/hint/LeadingHint.java:508 | the bitmap of concatenated plan lists is the union of their bitmaps |
| Plans.UnitsOfAppend | fe/fe-core/src/main/java/org/apache/doris/nereids/hint/LeadingHint.java:500-506 | the units of concatenated plan lists are the concatenated units |
| Plans.BitmapCoversUnits | fe/fe-core/src/main/java/org/apache/doris/nereids/hint/LeadingHint.java:594-611 | in a well-formed plan, getBitmap of the root is the union of the bitmaps of the leaves it joins |
| Plans.FilterIsTransparent | fe/fe-core/src/main/java/org/apache/doris/nereids/hint/LeadingHint.java:600-601 | getBitmap looks through a filter; a filter changes neither the joined units nor well-formedness |
| Plans.GetBitmap | fe/fe-core/src/main/java/org/apache/doris/nereids/hint/LeadingHint.java:594-608 | a well-formed plan has a non-empty bitmap |
| RelationRegistry.FindSpec | fe/fe-core/src/main/java/org/apache/doris/nereids/hint/LeadingHint.java:220-227 | the lookup is null iff no pair has the name; otherwise it is the id of the first pair with that name |
| RelationRegistry.Find | fe/fe-core/src/main/java/org/apache/doris/nereids/hint/LeadingHint.java:220-227 | a found id is paired with the name; null only when no pair has the name |
| RelationRegistry.PutById | fe/fe-core/src/main/java/org/apache/doris/nereids/hint/LeadingHint.java:185-197 | the list grows by at most one pair; pairs with another id are untouched; every pair with the id carries the new name |
| RelationRegistry.UpdateByName | fe/fe-core/src/main/java/org/apache/doris/nereids/hint/LeadingHint.java:202-213 | the list grows by at most one pair; pairs with another name are untouched; every pair with the name carries the new id |
| RelationRegistry.UpdateByNameNames | fe/fe-core/src/main/java/org/apache/doris/nereids/hint/LeadingHint.java:202-213 | an update by name adds that name to the table names and no other |
| RelationRegistry.PutByIdRegisters | fe/fe-core/src/main/java/org/apache/doris/nereids/hint/LeadingHint.java:185-197 | after a put the ids are the old ids plus the new one; every pair with that id carries the new name; other pairs are untouched; unique ids stay unique |
| RelationRegistry.UpdateByNameThenFind | fe/fe-core/src/main/java/org/apache/doris/nereids/hint/LeadingHint.java:202-213 | after an update by name, finding that name gives the new id; the set of names grows by that name only |
| RelationRegistry.FirstMissing | fe/fe-core/src/main/java/org/apache/doris/nereids/hint/LeadingHint.java:621-627 | None iff every listed name is registered; otherwise the position of the first unregistered name |
| RelationRegistry.FoundIdsAppend | fe/fe-core/src/main/java/org/apache/doris/nereids/hint/LeadingHint.java:628 | setting the bit of one more found name adds exactly its id |
| RelationRegistry.FindInjective | fe/fe-core/src/main/java/org/apache/doris/nereids/hint/LeadingHint.java:215-219 | with unique relation ids, two different registered names resolve to different ids |
| RelationRegistry.FoundIdsSize | fe/fe-core/src/main/java/org/apache/doris/nereids/hint/LeadingHint.java:614-631 | with unique ids, no duplicate name and every name registered, the bitmap has one bit per table |
| FilterScope.Remaining | fe/fe-core/src/main/java/org/apache/doris/nereids/hint/LeadingHint.java:553-566 | no remaining filter is covered by the bitmap, and none is added |
| FilterScope.JoinConditions | fe/fe-core/src/main/java/org/apache/doris/nereids/hint/LeadingHint.java:553-566 | extracted plus remaining filters number exactly the original filters |
| FilterScope.Conjuncts | fe/fe-core/src/main/java/org/apache/doris/nereids/hint/LeadingHint.java:588-592 | the conjunct set is empty iff no predicate was extracted, the case in which no filter node is made |
| FilterScope.ConjunctsSnoc | fe/fe-core/src/main/java/org/apache/doris/nereids/hint/LeadingHint.java:584 | adding one predicate adds exactly it to the conjunct set |
| FilterScope.ConjunctsMembers | fe/fe-core/src/main/java/org/apache/doris/nereids/hint/LeadingHint.java:578-592 | the filter node holds exactly the extracted predicates |
| FilterScope.ExtractionConserves | fe/fe-core/src/main/java/org/apache/doris/nereids/hint/LeadingHint.java:553-566 | the returned predicates plus the remaining ones are, as a multiset, the original predicates |
| FilterScope.ExtractionStep | fe/fe-core/src/main/java/org/apache/doris/nereids/hint/LeadingHint.java:558-563 | a covered filter goes to the extracted predicates; an uncovered filter stays pending |
| FilterScope.RemainingMembers | fe/fe-core/src/main/java/org/apache/doris/nereids/hint/LeadingHint.java:558-563 | a filter stays pending iff it was pending and its bitmap is not a subset of the covered bitmap |
| FilterScope.RemainingAppend | fe/fe-core/src/main/java/org/apache/doris/nereids/hint/LeadingHint.java:555-563 | removal keeps the relative order of the remaining filters |
| FilterScope.ExtractionExhausts | fe/fe-core/src/main/java/org/apache/doris/nereids/hint/LeadingHint.java:553-566 | a second extraction with the same or a smaller bitmap removes and returns nothing |
| FilterScope.ExtractAt | fe/fe-core/src/main/java/org/apache/doris/nereids/hint/LeadingHint.java:555-563 | one backward step at index i removes filter i exactly when it is covered, and then adds its predicate after those of the later filters |
| FilterScope.RemainingAllStep | fe/fe-core/src/main/java/org/apache/doris/nereids/hint/LeadingHint.java:553-566 | successive extractions compose: the pending filters are those covered by no bitmap used so far |
| FilterScope.RemainingAllEmpty | fe/fe-core/src/main/java/org/apache/doris/nereids/hint/LeadingHint.java:69 | before any extraction every filter is pending |
| FilterScope.RemainingAllExcludes | fe/fe-core/src/main/java/org/apache/doris/nereids/hint/LeadingHint.java:553-566 | no pending filter is covered by a bitmap already used for an extraction |
| JoinConstraints.JoinConstraint.constructor | fe/fe-core/src/main/java/org/apache/doris/nereids/hint/LeadingHint.java:73 | a constraint holds its discovered edge and starts unreversed |
| JoinConstraints.EdgesOf | fe/fe-core/src/main/java/org/apache/doris/nereids/hint/LeadingHint.java:323 | the edges of the constraint list, position by position |
| JoinConstraints.ResolveFrom | fe/fe-core/src/main/java/org/apache/doris/nereids/hint/LeadingHint.java:323-421 | a match the scan reports is a position in the list |
| JoinConstraints.Classify | fe/fe-core/src/main/java/org/apache/doris/nereids/hint/LeadingHint.java:323-411 | a full-outer match has exactly the constraint's two sides; a direct match covers the minimal left and right hands, a swapped match the same crosswise; a semi-join match has the constraint's right hand on the right, or reversed on the left |
| JoinConstraints.Finish | fe/fe-core/src/main/java/org/apache/doris/nereids/hint/LeadingHint.java:412-420 | after the scan the result is (null, true) iff nothing matched and no left join was demanded; a match is the recorded constraint with the recorded orientation |
| JoinConstraints.Resolve | fe/fe-core/src/main/java/org/apache/doris/nereids/hint/LeadingHint.java:315-421 | a match getJoinConstraint reports is a constraint of the list |
| JoinConstraints.ResolveFromKeepsMatch | fe/fe-core/src/main/java/org/apache/doris/nereids/hint/LeadingHint.java:368-421 | once a match is recorded, the result keeps it and its orientation; every later constraint is skipped; a must-be-left constraint forces a strict left join |
| JoinConstraints.ResolveFromFindsMatch | fe/fe-core/src/main/java/org/apache/doris/nereids/hint/LeadingHint.java:323-421 | the reported match is the first matching constraint; reversed is true exactly for the swapped subset test and the reversed semi-join test; only a full-outer match stops the scan |
| JoinConstraints.ResolveMatched | fe/fe-core/src/main/java/org/apache/doris/nereids/hint/LeadingHint.java:323-421 | (c, true): c is the unique matching constraint, every other is skipped, a full-outer match is never reversed, and a must-be-left violation forces a strict left join |
| JoinConstraints.ResolveFromNoMatch | fe/fe-core/src/main/java/org/apache/doris/nereids/hint/LeadingHint.java:398-421 | the scan ends with (null, true) iff every remaining constraint is skipped and none asks for a left join |
| JoinConstraints.ResolveNoMatch | fe/fe-core/src/main/java/org/apache/doris/nereids/hint/LeadingHint.java:398-421 | (null, true), an inner or cross join, iff every constraint is skipped without a must-be-left verdict |
| JoinConstraints.ResolveFails | fe/fe-core/src/main/java/org/apache/doris/nereids/hint/LeadingHint.java:323-418 | (null, false) when two constraints match with no full-outer break before the second, when a violation precedes any full-outer break, or when a must-be-left verdict meets no strict left match |
| JoinConstraints.ClassifySymmetric | fe/fe-core/src/main/java/org/apache/doris/nereids/hint/LeadingHint.java:323-411 | for disjoint sides and a non-semi constraint, exchanging left and right mirrors the verdict |
| JoinConstraints.ResolveFromSymmetric | fe/fe-core/src/main/java/org/apache/doris/nereids/hint/LeadingHint.java:323-421 | for disjoint sides and no semi join, the scan with the sides exchanged gives the mirrored outcome |
| JoinConstraints.ResolveSymmetric | fe/fe-core/src/main/java/org/apache/doris/nereids/hint/LeadingHint.java:429-431 | for disjoint sides and no semi join, computeJoinType(left, right) and computeJoinType(right, left) fail together, find nothing together, or find the same constraint with join kinds that are each other's swap |
| JoinConstraints.SemiJoinAsymmetric | fe/fe-core/src/main/java/org/apache/doris/nereids/hint/LeadingHint.java:358-397 | semi joins break that symmetry: a concrete left-semi edge matches one orientation only |
| HintParser.ParseParameters | fe/fe-core/src/main/java/org/apache/doris/nereids/hint/LeadingHint.java:92-127 | the constructor's loop fails iff a "}" meets an empty brace stack; otherwise it yields the lists of the prefix fold |
| HintParser.Parse | fe/fe-core/src/main/java/org/apache/doris/nereids/hint/LeadingHint.java:95-127 | a successful parse keeps the table and level lists of equal length |
| HintParser.Weight | fe/fe-core/src/main/java/org/apache/doris/nereids/hint/LeadingHint.java:96-109 | the level a brace stack stands for is at least its depth |
| HintParser.ParseFailureIsFinal | fe/fe-core/src/main/java/org/apache/doris/nereids/hint/LeadingHint.java:104-105 | once the brace stack underflows, the constructor throws whatever follows |
| HintParser.ParseInvariant | fe/fe-core/src/main/java/org/apache/doris/nereids/hint/LeadingHint.java:95-127 | the table and level lists have equal length; the tables are the non-keyword tokens; level is the stack weight and never negative; directive keys never exceed the table count |
| HintParser.ParseTables | fe/fe-core/src/main/java/org/apache/doris/nereids/hint/LeadingHint.java:110-125 | the table list is the non-keyword tokens in order, parallel to the level list; every directive key is at most the table count |
| HintParser.ParseLevels | fe/fe-core/src/main/java/org/apache/doris/nereids/hint/LeadingHint.java:96-109 | level is 2 per true and 1 per false brace entry; the stack holds one entry per unmatched "{"; every recorded level is non-negative |
| HintParser.ParseFailsIffUnderflow | fe/fe-core/src/main/java/org/apache/doris/nereids/hint/LeadingHint.java:104-109 | the constructor throws iff some prefix closes more braces than it opens |
| HintParser.BalancedLevelIsZero | fe/fe-core/src/main/java/org/apache/doris/nereids/hint/LeadingHint.java:96-109 | when the braces balance, the level is back to 0 and the stack is empty |
| HintParser.DirectivesAreLastAtEachCount | fe/fe-core/src/main/java/org/apache/doris/nereids/hint/LeadingHint.java:110-121 | a directive is stored under the table count at which it was read; the last directive at a count wins; no other key exists |
| HintParser.BracketPrefix | fe/fe-core/src/main/java/org/apache/doris/nereids/hint/LeadingHint.java:95-127 | "t1 [" is read as two tables, both at level 0 |
| HintParser.BracketIsTable | fe/fe-core/src/main/java/org/apache/doris/nereids/hint/LeadingHint.java:95-127 | the constructor takes "[" for a table name: "t1 [ shuffle t2" gives the tables t1, "[" and t2 and keys the shuffle directive by 2 |
| LeadingHints.ConditionsMatchedSpec | fe/fe-core/src/main/java/org/apache/doris/nereids/hint/LeadingHint.java:257-269 | the check is true iff every condition's recorded kind is compatible; it throws iff an unrecorded condition precedes any incompatible one |
| LeadingHints.ConditionsMatched | fe/fe-core/src/main/java/org/apache/doris/nereids/hint/LeadingHint.java:257-269 | true only when every condition has a recorded kind; the throw happens only when some condition has none |
| LeadingHints.LeavesSplit | fe/fe-core/src/main/java/org/apache/doris/nereids/hint/LeadingHint.java:468-470 | the scans of a table range split at any midpoint |
| LeadingHints.SpanUnitsSplit | fe/fe-core/src/main/java/org/apache/doris/nereids/hint/LeadingHint.java:468-470 | the units of a table range split at any midpoint |
| LeadingHints.SpanUnitsOne | fe/fe-core/src/main/java/org/apache/doris/nereids/hint/LeadingHint.java:171-180 | a one-table range joins the units of that table's scan |
| LeadingHints.PopFrame | fe/fe-core/src/main/java/org/apache/doris/nereids/hint/LeadingHint.java:481 | the popped frame joins the tables from its start to the current end, in hint order; the frames below cover the tables before it |
| LeadingHints.PushFrame | fe/fe-core/src/main/java/org/apache/doris/nereids/hint/LeadingHint.java:523 | pushing a plan that joins the next table range keeps the frames covering the table list in order |
| LeadingHints.ScanForWellFormed | fe/fe-core/src/main/java/org/apache/doris/nereids/hint/LeadingHint.java:171-180 | the scan returned for a registered name is well formed when every scan is |
| LeadingHints.PopStack | fe/fe-core/src/main/java/org/apache/doris/nereids/hint/LeadingHint.java:536 | the top frame joins its table range in order, its bitmap was used for filter extraction, and it is well formed; the rest keeps the stack invariant |
| LeadingHints.PushStack | fe/fe-core/src/main/java/org/apache/doris/nereids/hint/LeadingHint.java:531 | a pushed frame for the next table range keeps the stack invariant |
| LeadingHints.StackUsedGrows | fe/fe-core/src/main/java/org/apache/doris/nereids/hint/LeadingHint.java:481-483 | further filter extractions keep the stack invariant |
| LeadingHints.DirectiveAtExtends | fe/fe-core/src/main/java/org/apache/doris/nereids/hint/LeadingHint.java:110-121 | a directive key recorded for a prefix of the tokens stays recorded |
| LeadingHints.ExplainTotal | fe/fe-core/src/main/java/org/apache/doris/nereids/hint/LeadingHint.java:143-163 | for parameters that the constructor parsed and that contain no "[" or "]", getExplainString never meets a missing directive, and its table index counts the table names |
| LeadingHints.Explain | fe/fe-core/src/main/java/org/apache/doris/nereids/hint/LeadingHint.java:143-163 | the table index never exceeds the number of parameters read |
| LeadingHints.ExplainBracketThrows | fe/fe-core/src/main/java/org/apache/doris/nereids/hint/LeadingHint.java:95-163 | for "t1 [ shuffle t2" the constructor succeeds, with tables t1, "[" and t2 and the directive keyed by 2, but getExplainString does not count "[" as a table, looks the directive up at 1 and throws a NullPointerException |
| LeadingHints.HintForEvolved | fe/fe-core/src/main/java/org/apache/doris/nereids/hint/LeadingHint.java:545-551 | getJoinHint gives the same directive before and after other directives were marked successInLeading |
| LeadingHints.ExpectedJoinShaped | fe/fe-core/src/main/java/org/apache/doris/nereids/hint/LeadingHint.java:480-508 | joining plans with skeletons l and r builds a plan with skeleton Node(d, l, r) |
| LeadingHints.StackShapedPop | fe/fe-core/src/main/java/org/apache/doris/nereids/hint/LeadingHint.java:481 | popping a frame keeps the correspondence of the frames below and gives the top frame's level, distribute index and skeleton |
| LeadingHints.StackShapedPush | fe/fe-core/src/main/java/org/apache/doris/nereids/hint/LeadingHint.java:523-531 | pushing corresponding frames keeps the stack's correspondence with the reference machine |
| LeadingHints.LeadingHint.constructor | fe/fe-core/src/main/java/org/apache/doris/nereids/hint/LeadingHint.java:88-128 | a new hint holds the parsed lists, status SUCCESS and empty registries, filters and constraints |
| LeadingHints.LeadingHint.GetExplainString | fe/fe-core/src/main/java/org/apache/doris/nereids/hint/LeadingHint.java:143-163 | an unsuccessful hint explains as its original text; otherwise "leading(" + the tokens, without failed directives, + ")" |
| LeadingHints.LeadingHint.ExplainFailureIsFinal | fe/fe-core/src/main/java/org/apache/doris/nereids/hint/LeadingHint.java:153-156 | once a directive has no entry, getExplainString throws |
| LeadingHints.LeadingHint.GetLogicalPlanByName | fe/fe-core/src/main/java/org/apache/doris/nereids/hint/LeadingHint.java:171-180 | an unregistered name sets SYNTAX_ERROR "can not find table: name" and gives null; a registered name whose id has no scan plan gives null and changes nothing; otherwise the scan of its id, changing nothing |
| LeadingHints.LeadingHint.PutRelationIdAndTableName | fe/fe-core/src/main/java/org/apache/doris/nereids/hint/LeadingHint.java:185-197 | renames every pair with the id, or appends the pair; nothing else changes |
| LeadingHints.LeadingHint.UpdateRelationIdByTableName | fe/fe-core/src/main/java/org/apache/doris/nereids/hint/LeadingHint.java:202-213 | re-ids every pair with the name, or appends the pair; nothing else changes |
| LeadingHints.LeadingHint.FindRelationIdAndTableName | fe/fe-core/src/main/java/org/apache/doris/nereids/hint/LeadingHint.java:220-227 | the id of the first pair with the name, or null |
| LeadingHints.LeadingHint.HasSameName | fe/fe-core/src/main/java/org/apache/doris/nereids/hint/LeadingHint.java:229-237 | true iff some table is named twice in the hint |
| LeadingHints.LeadingHint.CollectTableBitmap | fe/fe-core/src/main/java/org/apache/doris/nereids/hint/LeadingHint.java:296-304 | the loop stops at the first unregistered name, having set the bits of the names before it |
| LeadingHints.LeadingHint.SetTotalBitmap | fe/fe-core/src/main/java/org/apache/doris/nereids/hint/LeadingHint.java:290-305 | an unregistered name sets SYNTAX_ERROR and leaves totalBitmap; a duplicate sets SYNTAX_ERROR and still stores the bitmap; otherwise the bitmap of all ids |
| LeadingHints.LeadingHint.GetLeadingTableBitmap | fe/fe-core/src/main/java/org/apache/doris/nereids/hint/LeadingHint.java:614-631 | a duplicate gives {} with "duplicated table"; an unregistered name gives the ids before it with "can not find table"; otherwise exactly the found ids, changing nothing |
| LeadingHints.LeadingHint.GetJoinConstraint | fe/fe-core/src/main/java/org/apache/doris/nereids/hint/LeadingHint.java:315-421 | (null, false), (null, true) or (c, true) as the resolver decides; only the matched constraint's reversed flag changes, to the matched orientation |
| LeadingHints.LeadingHint.ComputeJoinType | fe/fe-core/src/main/java/org/apache/doris/nereids/hint/LeadingHint.java:429-451 | the swapped or own kind of the match; CROSS or INNER without one; on failure it sets UNUSED and still returns CROSS or INNER |
| LeadingHints.LeadingHint.IsConditionJoinTypeMatched | fe/fe-core/src/main/java/org/apache/doris/nereids/hint/LeadingHint.java:257-269 | the loop computes the check whose meaning ConditionsMatchedSpec states |
| LeadingHints.LeadingHint.GetJoinHint | fe/fe-core/src/main/java/org/apache/doris/nereids/hint/LeadingHint.java:545-551 | a fresh NONE directive when none is stored; otherwise the stored one, now marked successInLeading |
| LeadingHints.LeadingHint.GetJoinConditions | fe/fe-core/src/main/java/org/apache/doris/nereids/hint/LeadingHint.java:553-566 | returns the predicates covered by the two children's bitmaps and removes exactly those filters |
| LeadingHints.LeadingHint.MakeFilterPlanIfExist | fe/fe-core/src/main/java/org/apache/doris/nereids/hint/LeadingHint.java:578-592 | removes the filters covered by the scan; wraps it in a filter of their predicates, or returns the scan unchanged if there are none |
| LeadingHints.LeadingHint.LoadLeaf | fe/fe-core/src/main/java/org/apache/doris/nereids/hint/LeadingHint.java:472-477 | an unregistered table sets SYNTAX_ERROR and gives null; a table without a scan plan gives null and changes nothing; otherwise the scan, bare or under a filter, with the scan's units, bitmap and well-formedness, and exactly the filters the scan covers are removed |
| LeadingHints.LeadingHint.ReadLeaf | fe/fe-core/src/main/java/org/apache/doris/nereids/hint/LeadingHint.java:472-477 | on success the leaf has skeleton Leaf(index): the table's scan, possibly filtered, with the status unchanged; null only when the status is not SUCCESS or the table has no scan plan |
| LeadingHints.LeadingHint.CheckJoinType | fe/fe-core/src/main/java/org/apache/doris/nereids/hint/LeadingHint.java:487-498 | the join type is the kind computeJoinType derives from the resolver's outcome; a condition without a recorded kind throws; a kind mismatch gives null with UNUSED and "condition does not matched joinType"; otherwise, and on the throw, the status is set to UNUSED when resolution failed and kept when it did not, the message is kept, and the reduction goes on iff the status is still SUCCESS |
| LeadingHints.LeadingHint.JoinTop | fe/fe-core/src/main/java/org/apache/doris/nereids/hint/LeadingHint.java:480-510 | on success the join is the reference join of the two plans: the resolver's kind, the extracted conditions, the directive at distributeIndex marked successInLeading, the popped plan on the left and the union bitmap; only the directive at distributeIndex changes and only the covered filters are removed; on a throw or null the directives are unchanged |
| LeadingHints.LeadingHint.JoinWithTop | fe/fe-core/src/main/java/org/apache/doris/nereids/hint/LeadingHint.java:481-508 | joining the top frame with the current plan gives the reference join, with the top frame's skeleton on the left and the current skeleton on the right, reading the directive at distributeIndex, which alone changes; the join covers the popped frame's tables through the current one; the frames below keep their levels, distribute indices and skeletons |
| LeadingHints.LeadingHint.ReducePass | fe/fe-core/src/main/java/org/apache/doris/nereids/hint/LeadingHint.java:479-522 | one pass of the inner loop takes the reference reduction one frame further: the remaining reduction from the new state equals the one from the old state |
| LeadingHints.LeadingHint.LowerLevel | fe/fe-core/src/main/java/org/apache/doris/nereids/hint/LeadingHint.java:509-517 | stackTopLevel after a join is JoinShapes.Lowered: it drops by one, never below 0, at the end of the list or before a lower-level table |
| LeadingHints.LeadingHint.ReduceFrames | fe/fe-core/src/main/java/org/apache/doris/nereids/hint/LeadingHint.java:478-523 | the inner loop and the push after it run the reference reduction: the frames afterwards carry exactly the levels, distribute indices and skeletons of JoinShapes.Reduce, and stackTopLevel is its level |
| LeadingHints.LeadingHint.ReadTable | fe/fe-core/src/main/java/org/apache/doris/nereids/hint/LeadingHint.java:469-533 | one outer iteration reduces or pushes exactly as JoinShapes.ReadStep does, frame by frame; it stops early only by the kind check's NullPointerException, or with null when the status is not SUCCESS or the table has no scan plan |
| LeadingHints.LeadingHint.FirstFrame | fe/fe-core/src/main/java/org/apache/doris/nereids/hint/LeadingHint.java:458-467 | the first table's scan, possibly filtered, is the only frame, at the first table's level with distribute index 0; null only when the status is not SUCCESS or that table has no scan plan |
| LeadingHints.LeadingHint.ReadTables | fe/fe-core/src/main/java/org/apache/doris/nereids/hint/LeadingHint.java:468-534 | the outer loop leaves exactly the frames of the reference machine after all tables; it stops early only by the kind check's NullPointerException, or with null on a failed status or a table without a scan plan |
| LeadingHints.LeadingHint.FinishPlan | fe/fe-core/src/main/java/org/apache/doris/nereids/hint/LeadingHint.java:536-543 | the final cast throws only when the top frame's skeleton is a single table; otherwise the plan is that frame's join, with the frame's skeleton and status SUCCESS |
| LeadingHints.LeadingHint.GenerateLeadingJoinPlan | fe/fe-core/src/main/java/org/apache/doris/nereids/hint/LeadingHint.java:457-543 | an empty table list, and only it, throws IndexOutOfBoundsException; a built plan is a join with status SUCCESS whose tree is exactly JoinShapes.AssembledShape of the level list, each join with the resolver's kind, the union bitmap and the directive its skeleton names; the cast throws only when that skeleton is a single table; null only after a failed status or for a table without a scan plan; bitmaps are well formed; only covered filters are removed; directives only gain successInLeading |
| LeadingHints.NewLeadingHint | fe/fe-core/src/main/java/org/apache/doris/nereids/hint/LeadingHint.java:88-128 | the constructor throws iff the parse fails; otherwise the hint holds the parsed lists with status SUCCESS |
| JoinShapes.Lowered | fe/fe-core/src/main/java/org/apache/doris/nereids/hint/LeadingHint.java:509-517 | stackTopLevel after a join stays or drops by one, and only from a positive level |
| JoinShapes.Reduce | fe/fe-core/src/main/java/org/apache/doris/nereids/hint/LeadingHint.java:478-523 | the inner loop followed by the push leaves a non-empty stack with at most one frame more |
| JoinShapes.ReduceUnfold | fe/fe-core/src/main/java/org/apache/doris/nereids/hint/LeadingHint.java:479-521 | when the top frame has the current level it is popped and joined on the left of the current tree, reading the current distribute index; the next join reads the popped frame's |
| JoinShapes.ReadStep | fe/fe-core/src/main/java/org/apache/doris/nereids/hint/LeadingHint.java:469-533 | reading a table reduces or pushes, and leaves a non-empty stack |
| JoinShapes.MachineAt | fe/fe-core/src/main/java/org/apache/doris/nereids/hint/LeadingHint.java:458-534 | after any number of tables the stack is non-empty |
| JoinShapes.FlatMachine | fe/fe-core/src/main/java/org/apache/doris/nereids/hint/LeadingHint.java:468-534 | with every table at level 0 the stack holds a single frame: the left-deep chain of the tables read |
| JoinShapes.FlatLevelsBuildLeftDeep | fe/fe-core/src/main/java/org/apache/doris/nereids/hint/LeadingHint.java:457-543 | "t1 t2 ... tn" builds ((t1 ⋈ t2) ⋈ ...) ⋈ tn, the join adding table k reading directive k |
| JoinShapes.BracedMachine | fe/fe-core/src/main/java/org/apache/doris/nereids/hint/LeadingHint.java:468-534 | inside "t1 {t2 ... tn}" the stack holds t1's frame and the left-deep chain of the braced tables read so far |
| JoinShapes.BracedTailBuildsRightJoin | fe/fe-core/src/main/java/org/apache/doris/nereids/hint/LeadingHint.java:457-543 | "t1 {t2 ... tn}" with n >= 3 builds t1 ⋈ ((t2 ⋈ t3) ⋈ ... ⋈ tn), the outer join reading directive 2 |
| JoinShapes.SingleBracedTableIsLeaf | fe/fe-core/src/main/java/org/apache/doris/nereids/hint/LeadingHint.java:536 | "t1 {t2}" leaves the single table t2 on top of the stack, so the final cast to a join fails |
| Separators.CleanMeans | be/src/vec/exec/vjdbc_connector.cpp:569-580 | the recursive separator-free test means the separator does not occur |
| Separators.FreeMeans | be/src/vec/exec/vjdbc_connector.cpp:569-580 | a list is separator-free iff no entry contains the separator |
| Separators.SplitFront | be/src/vec/exec/vjdbc_connector.cpp:569-580 | a clean field followed by the separator splits off as the first field |
| Separators.SplitNoSeparator | be/src/vec/exec/vjdbc_connector.cpp:600-603 | a clean string is one field |
| Separators.SplitTerminated | be/src/vec/exec/vjdbc_connector.cpp:569-580 | a list of comma-terminated entries, then anything, splits into the entries and then the fields of the rest |
| Separators.SplitTerminatedStep | be/src/vec/exec/vjdbc_connector.cpp:569-580 | the inductive step of that read-back, for one more entry |
| Separators.TerminatedLast | be/src/vec/exec/vjdbc_connector.cpp:569-580 | a terminated list ends with its last entry and the separator |
| Separators.Terminated | be/src/vec/exec/vjdbc_connector.cpp:569-579 | a non-empty terminated list ends with the separator |
| Separators.TerminatedRoundTrip | be/src/vec/exec/vjdbc_connector.cpp:569-580 | a terminated list reads back as its entries plus one empty trailing field |
| Separators.JoinIsTerminatedInit | be/src/vec/exec/vjdbc_connector.cpp:600-603 | a joined list is its initial entries each terminated, then the last entry |
| Separators.JoinRoundTrip | be/src/vec/exec/vjdbc_connector.cpp:600-603 | a joined non-empty separator-free list reads back as the list |
| JdbcConnectors.BooleanRow | be/src/vec/exec/vjdbc_connector.cpp:412-418 | BOOLEAN accepts exactly Boolean, Byte and Integer |
| JdbcConnectors.DecimalRows | be/src/vec/exec/vjdbc_connector.cpp:470-479 | the decimal types accept exactly java.math.BigDecimal |
| JdbcConnectors.CharRows | be/src/vec/exec/vjdbc_connector.cpp:452-457 | CHAR, VARCHAR and STRING accept every type string |
| JdbcConnectors.DefaultRow | be/src/vec/exec/vjdbc_connector.cpp:537-539 | an unlisted slot type rejects every type string |
| JdbcConnectors.AcceptsEverythingIffCharType | be/src/vec/exec/vjdbc_connector.cpp:411-539 | exactly the character types accept every Java type |
| JdbcConnectors.JavaStringFills | be/src/vec/exec/vjdbc_connector.cpp:411-539 | the slot types a java.lang.String column may fill, listed exactly |
| JdbcConnectors.Accepts | be/src/vec/exec/vjdbc_connector.cpp:411-539 | the character types accept every Java type |
| JdbcConnectors.ErrorMessage | be/src/vec/exec/vjdbc_connector.cpp:407-410 | the message starts with "Fail to convert jdbc type of " and the type string, and is longer than its three substituted parts together |
| JdbcConnectors.Register | be/src/vec/exec/vjdbc_connector.cpp:492-500 | the column maps to the old type count; types and columns grow by the slot's nullability; other columns keep their index |
| JdbcConnectors.Apply | be/src/vec/exec/vjdbc_connector.cpp:487-534 | the registry of the slot's cast kind registers the column; the other registries are unchanged |
| JdbcConnectors.RegisterSpec | be/src/vec/exec/vjdbc_connector.cpp:492-500 | registration maps the column to the old type count; types and columns grow by one entry of the slot's nullability; other columns keep their index; consistency is kept |
| JdbcConnectors.ApplyOtherKinds | be/src/vec/exec/vjdbc_connector.cpp:487-536 | an accepted slot registers in the registry of its own cast kind only |
| JdbcConnectors.Materialized | be/src/vec/exec/vjdbc_connector.cpp:177-182 | at most one position per slot, each a valid slot position |
| JdbcConnectors.MaterializedSpec | be/src/vec/exec/vjdbc_connector.cpp:177-182 | the positions are strictly increasing, all materialized, and include every materialized slot |
| JdbcConnectors.MaterializedPrefix | be/src/vec/exec/vjdbc_connector.cpp:367-372 | a prefix of the slots has no more materialized slots than all of them |
| JdbcConnectors.ChecksStep | be/src/vec/exec/vjdbc_connector.cpp:367-380 | a materialized slot adds one check with the next reported type; a non-materialized slot adds none |
| JdbcConnectors.ChecksPairing | be/src/vec/exec/vjdbc_connector.cpp:367-380 | the k-th check is the k-th materialized slot, at its own column index, with the k-th reported type |
| JdbcConnectors.Checks | be/src/vec/exec/vjdbc_connector.cpp:367-380 | one check per materialized slot |
| JdbcConnectors.CheckOne | be/src/vec/exec/vjdbc_connector.cpp:405-542 | an OK check registers the slot's cast kind; a failed one leaves the registries and gives the column's error message |
| JdbcConnectors.RunStep | be/src/vec/exec/vjdbc_connector.cpp:377 | after an error no further check runs; otherwise the next check runs on the current registries |
| JdbcConnectors.RunSlotStep | be/src/vec/exec/vjdbc_connector.cpp:367-380 | one more slot, after successful checks, runs _check_type iff the slot is materialized |
| JdbcConnectors.RunStatus | be/src/vec/exec/vjdbc_connector.cpp:377 | the check is OK iff every column is accepted; otherwise the error names the first rejected column |
| JdbcConnectors.FirstRejectedExtends | be/src/vec/exec/vjdbc_connector.cpp:377 | a first rejection stays first when more checks follow |
| JdbcConnectors.AllAcceptedExtends | be/src/vec/exec/vjdbc_connector.cpp:377 | all accepted plus one more accepted is all accepted |
| JdbcConnectors.RunRegisters | be/src/vec/exec/vjdbc_connector.cpp:487-536 | after a successful check each registry is consistent, has one type per checked column of its kind, and maps each such column to a type of its nullability |
| JdbcConnectors.ApplyRegisters | be/src/vec/exec/vjdbc_connector.cpp:492-533 | the inductive step of that statement for one more check |
| JdbcConnectors.RunFailureIsFinal | be/src/vec/exec/vjdbc_connector.cpp:377 | once a check fails, the remaining slots change neither the status nor the registries |
| JdbcConnectors.ReaderStep | be/src/vec/exec/vjdbc_connector.cpp:564-603 | one more slot appends its entries: terminated entries only for materialized slots, joined entries for every slot |
| JdbcConnectors.TerminatedStep | be/src/vec/exec/vjdbc_connector.cpp:566-580 | a materialized slot appends its nullable flag and replace type, each with a comma; another slot appends nothing |
| JdbcConnectors.JoinedStep | be/src/vec/exec/vjdbc_connector.cpp:601-602 | every slot appends its name and JNI type, after a separator unless it is the first |
| JdbcConnectors.MaterializedEntries | be/src/vec/exec/vjdbc_connector.cpp:566-580 | is_nullable and replace_string hold one entry per materialized slot, the k-th for the k-th materialized slot |
| JdbcConnectors.NullableEntries | be/src/vec/exec/vjdbc_connector.cpp:566-569 | the k-th nullable entry is the k-th materialized slot's flag |
| JdbcConnectors.ReplaceEntries | be/src/vec/exec/vjdbc_connector.cpp:570-580 | the k-th replace entry is the k-th materialized slot's cast kind |
| JdbcConnectors.EntriesAreCommaFree | be/src/vec/exec/vjdbc_connector.cpp:569-580 | no nullable or replace entry contains a comma |
| JdbcConnectors.EntryIsCommaFree | be/src/vec/exec/vjdbc_connector.cpp:569-580 | "true", "false", "bitmap", "hll", "jsonb" and "not_replace" contain no comma |
| JdbcConnectors.ReaderParamsReadBack | be/src/vec/exec/vjdbc_connector.cpp:566-580 | splitting is_nullable and replace_string at commas gives the materialized slots' entries, then one empty field |
| JdbcConnectors.JoinedParamsReadBack | be/src/vec/exec/vjdbc_connector.cpp:600-603 | required_fields and columns_types split back into the names and JNI types of all slots, when no entry contains the separator |
| JdbcConnectors.JdbcConnector.constructor | be/src/vec/exec/vjdbc_connector.cpp:60-64 | a new connector holds its slots and table type, is not open, and has empty cast registries |
| JdbcConnectors.JdbcConnector.Open | be/src/vec/exec/vjdbc_connector.cpp:166 | open marks the connector open and leaves the registries alone |
| JdbcConnectors.JdbcConnector.CountMaterialized | be/src/vec/exec/vjdbc_connector.cpp:176-182 | the loop counts exactly the materialized slots |
| JdbcConnectors.JdbcConnector.CheckType | be/src/vec/exec/vjdbc_connector.cpp:405-542 | an accepted column gives OK and registers a cast kind; a rejected one gives the column's error and leaves the registries unchanged |
| JdbcConnectors.JdbcConnector.CheckColumnType | be/src/vec/exec/vjdbc_connector.cpp:360-383 | the k-th materialized slot is checked against the k-th reported type, stopping at the first error |
| JdbcConnectors.JdbcConnector.CheckSlot | be/src/vec/exec/vjdbc_connector.cpp:367-380 | one loop iteration: the registries and status are those of the reference run over one more slot, and the materialized count grows iff the slot is materialized |
| JdbcConnectors.JdbcConnector.Query | be/src/vec/exec/vjdbc_connector.cpp:172-204 | a closed connector errors; a column-count mismatch errors; NEBULA skips the type check; other tables run it |
| JdbcConnectors.JdbcConnector.GetReaderParams | be/src/vec/exec/vjdbc_connector.cpp:558-610 | the four strings are the terminated per-materialized-slot entries and the joined per-slot entries |

## Left out

- `LongBitmap` is not part of this model. Bitmaps are unbounded sets of relation ids. The 64-bit width, and what `LongBitmap.set` does with an id of 64 or more, are not modelled.
- `JoinType`, `DistributeHint`, `JoinConstraint` and the `Hint` base class are not part of this model.
  - Their assumed behaviour: `isLeftJoin` holds for left outer, left semi and left anti joins; `swap` exchanges left and right kinds.
  - A hint starts with status SUCCESS.
  - The `NULL_AWARE_LEFT_ANTI_JOIN` join kind is not modelled.
- The constructor's registration of distribute hints in the `ConnectContext` statement context (lines 113-120) is global session state and is left out. So is the one-argument constructor (line 79).
- `JoinUtils.extractExpressionForHashTable` and `getOutput()` are foreign helpers. A join keeps its extracted conditions as one list; the split into hash and other conjuncts is not modelled.
- The getters and setters (`getTablelist`, `putConditionJoinType`, `setInnerJoinBitmap` and the like) are field reads and writes. They are not modelled as members.
- The unused `getLastConditions` is not modelled.
- The `exprIdToTableNameMap` field is not modelled.
- Aliasing is not modelled. The Java code hands out its internal lists (`getFilters()` is the same list that `getJoinConditions` mutates). The model edits the class's own `filters` field.
- Java `assert` statements are treated as disabled, as in production: `assert (filters.isEmpty())` at line 538 is not checked.
- The null checks on the result of `computeJoinType` (line 489) are dead code, because the method never returns null. The model omits that branch.
- getLeadingTableBitmap: the `tables` argument is never read by the source, so the model has no such parameter.
- GenerateLeadingJoinPlan: only the top frame is returned; frames left below it are dropped, as in the source. The model states that the returned plan joins a suffix of the hint's tables, from the start of the top frame, and not that it joins all of them.
- `getBitmap` returns null for node kinds the plan datatype does not have. With the model's closed datatype that case cannot arise.
- The following `vjdbc_connector.cpp` parts are JNI calls, global references and block I/O, and are not modelled:
  - `open` (apart from the open flag), `close`, `get_next`, `append`, `exec_stmt_write` and the transaction methods;
  - `_register_func_id` and `_jobject_to_string`;
  - the `_cast_string_to_*` cast wrappers;
  - the block column replacement inside `_get_reader_params` (lines 580-590).
- A slot's `type().debug_string()` and `JniConnector::get_jni_type` are not part of this model. They are carried as fields of the slot descriptor.
- The JNI failure paths of `query` and `_check_column_type` (`GetJNIEnv`, `GetJniExceptionMsg`) are left out. The column count and the column types reported by the executor are parameters.
- CheckColumnType: requires at least as many reported types as materialized slots. `query` only reaches it after checking that the counts are equal. A shorter list would be an out-of-range JNI list access, which is not modelled.
- `columns_types` joins the JNI types of the slots with "#" (line 602), not the slot names. The model follows the code.
- The column-type check's error message is modelled with its three substituted parts (type string, type debug string, column name) in the source's order. `fmt::format` itself is not modelled.
- A registered table whose relation id has no scan plan makes `getLogicalPlanByName` return null without changing the status, and `generateLeadingJoinPlan` then returns null. The model follows that path.
- The Java scanner that reads the four parameter strings is not part of this model. `Separators.Split` is the plain reading of a separator-joined string and keeps trailing empty fields, which Java's `String.split` drops: the empty field after the last comma of `is_nullable` and `replace_string` is not seen on the Java side.
- getExplainString throws a NullPointerException for parameters such as `t1 [ shuffle t2`, because the constructor counts "[" and "]" as tables and the explain loop does not (`LeadingHints.ExplainBracketThrows`). The model keeps that behaviour; whether the parser ever hands such tokens to the constructor is outside this model.
