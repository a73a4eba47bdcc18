# Structural matcher of the rsbox updater, in Dafny

The updater lines up the classes, methods and fields of two obfuscated builds of one
program (snapshot A and snapshot B). Its classifier utilities hold the matching logic. This
project models that logic and proves properties about it:

- a cheap potential-equality filter over classes, methods and fields, honouring matches
  already made, with shape-only "maybe-equal" checks on types and signatures;
- a weighted ranking of candidates that abandons a candidate once its running mismatch
  reaches a budget, then sorts the survivors by descending score;
- similarity measures in [0, 1] over counts, plain sets, sets of matchable entities (a
  three-pass greedy comparison), and ordered lists (an edit distance with two rolling rows);
- an alignment of two lists, built from the full edit-distance table and a backtrace;
- a per-instruction comparator for method bodies, and the similarity and alignment of two
  bodies built on it;
- extraction of string and numeric literals from a body;
- a cache of pairwise results keyed by a computation token and the two entities.

Entities are values here. Each one carries a handle (`id`) and the handle of its
counterpart, if it has one (`matchId`). "a.match == b" becomes `a.matchId == Some(b.id)`.
Types are (array dimensions, element type). The global environment becomes an `Env` value
of lookup functions: class by name in A or B, class by id in B, and field and method
resolution. Scores are reals.

Modules, one file each: `Wrappers`, `Arithmetic` (arith.dfy), `JvmTypes` (jtypes.dfy), `Bytecode`, `Entries`,
`PotentialEquality` (equality.dfy), `Ranking`, `SetSimilarity` (sets.dfy),
`SequenceSimilarity` (editdistance.dfy), `MatchCaches` (cache.dfy), `InsnComparison`
(insncompare.dfy) and `Literals`.

Where the code differs from a plain reading of its intent, the model follows the code:

- A candidate is rejected as soon as the running mismatch is at least the budget; equality
  rejects.
- Pass 2 of the matchable-set comparison only checks that some compatible partner exists;
  it does not consume partners.
- A matched A element whose counterpart is not in B counts as one miss.
- Lookup switches compare their key lists, not key sets.
- A field instruction resolves both fields with B's descriptor.
- An LDC of an array or object type looks up A's class by name and B's class by id.
- On a tie between deleting and inserting, the backtrace inserts: it deletes only when the
  deletion is strictly cheaper.

## Model

All source paths are under `toolbox/updater/src/main/kotlin/io/rsbox/toolbox/updater/classifier/`,
written out in full in the table.

| member | source | states |
|---|---|---|
| JvmTypes.IsMaybeEqualType | toolbox/updater/src/main/kotlin/io/rsbox/toolbox/updater/classifier/ClassifierUtil.kt:69-85 | The loop that strips array dimensions answers TypesMaybeEqual: equal dimensions, and identical element types when either element type is primitive (sort <= 8). A true answer implies equal dimensions. |
| JvmTypes.MaybeEqualIffSameShape | toolbox/updater/src/main/kotlin/io/rsbox/toolbox/updater/classifier/ClassifierUtil.kt:69-85 | Two types are maybe-equal exactly when they have the same shape: dimensions, plus the element type when it is primitive. |
| JvmTypes.TypesMaybeEqualIsEquivalence | toolbox/updater/src/main/kotlin/io/rsbox/toolbox/updater/classifier/ClassifierUtil.kt:69-85 | Type maybe-equality is reflexive, symmetric and transitive. |
| JvmTypes.ElementType | toolbox/updater/src/main/kotlin/io/rsbox/toolbox/updater/classifier/ClassifierUtil.kt:76-77 | The element type has no dimensions and keeps the element. |
| PotentialEquality.ClassMaybeEqual | toolbox/updater/src/main/kotlin/io/rsbox/toolbox/updater/classifier/ClassifierUtil.kt:110-115 | Null/null is true and null/non-null is false. A true answer on present classes needs equal interface counts, and recurses up the superclass chain. |
| PotentialEquality.ClassMaybeEqualIffSameProfile | toolbox/updater/src/main/kotlin/io/rsbox/toolbox/updater/classifier/ClassifierUtil.kt:110-115 | Class maybe-equality holds exactly when both superclass chains have the same length and the same interface count at each level. |
| PotentialEquality.ClassMaybeEqualIsEquivalence | toolbox/updater/src/main/kotlin/io/rsbox/toolbox/updater/classifier/ClassifierUtil.kt:110-115 | Class maybe-equality is reflexive, symmetric and transitive. |
| PotentialEquality.MethodMaybeEqual | toolbox/updater/src/main/kotlin/io/rsbox/toolbox/updater/classifier/ClassifierUtil.kt:87-101 | True exactly when the signature sizes are equal, the return types are maybe-equal, and the argument types are maybe-equal at every index below the size. |
| PotentialEquality.ArgsMaybeEqual | toolbox/updater/src/main/kotlin/io/rsbox/toolbox/updater/classifier/ClassifierUtil.kt:94-98 | The argument loop from index i succeeds exactly when every argument pair from i up to the size is maybe-equal. |
| PotentialEquality.MethodMaybeEqualIsEquivalence | toolbox/updater/src/main/kotlin/io/rsbox/toolbox/updater/classifier/ClassifierUtil.kt:87-101 | Method maybe-equality is reflexive, symmetric and transitive. |
| PotentialEquality.FieldMaybeEqual | toolbox/updater/src/main/kotlin/io/rsbox/toolbox/updater/classifier/ClassifierUtil.kt:103-108 | Null/null is true and null/non-null is false. A true answer needs equal static flags. With equal flags the answer is the maybe-equality of the field types. |
| PotentialEquality.ClassPotentiallyEqual | toolbox/updater/src/main/kotlin/io/rsbox/toolbox/updater/classifier/ClassifierUtil.kt:21-28 | The check is reflexive. A matched class is equal exactly to its match (A's match first, then B's). Without matches, it is true exactly when array-ness agrees, the element classes of arrays are potentially equal, and the classes are maybe-equal. |
| PotentialEquality.MethodPotentiallyEqual | toolbox/updater/src/main/kotlin/io/rsbox/toolbox/updater/classifier/ClassifierUtil.kt:30-39 | Reflexive, with the same match rule. Without matches, true exactly when the owners are potentially equal unless a method is static, the names are equal when either starts with '<', and the methods are maybe-equal. |
| PotentialEquality.FieldPotentiallyEqual | toolbox/updater/src/main/kotlin/io/rsbox/toolbox/updater/classifier/ClassifierUtil.kt:41-49 | Reflexive, with the same match rule. Without matches, true exactly when the owners are potentially equal unless a field is static, the static flags agree, and the types are maybe-equal. |
| PotentialEquality.ClassPotentiallyEqualNullable | toolbox/updater/src/main/kotlin/io/rsbox/toolbox/updater/classifier/ClassifierUtil.kt:51-55 | Null/null is true, exactly one null is false, otherwise the non-null check decides. |
| PotentialEquality.MethodPotentiallyEqualNullable | toolbox/updater/src/main/kotlin/io/rsbox/toolbox/updater/classifier/ClassifierUtil.kt:57-61 | Null/null is true, exactly one null is false, otherwise the non-null check decides. |
| PotentialEquality.FieldPotentiallyEqualNullable | toolbox/updater/src/main/kotlin/io/rsbox/toolbox/updater/classifier/ClassifierUtil.kt:63-67 | Null/null is true, exactly one null is false, otherwise the non-null check decides. |
| PotentialEquality.ClassPotentiallyEqualSymmetric | toolbox/updater/src/main/kotlin/io/rsbox/toolbox/updater/classifier/ClassifierUtil.kt:21-28 | When matches point both ways, the class check is symmetric. This also covers element classes. |
| PotentialEquality.MethodPotentiallyEqualSymmetric | toolbox/updater/src/main/kotlin/io/rsbox/toolbox/updater/classifier/ClassifierUtil.kt:30-39 | When neither method's match points at the other while the other points elsewhere, and the owners' matches agree, the method check is symmetric. A one-sided match against an unmatched method is allowed. |
| PotentialEquality.FieldPotentiallyEqualSymmetric | toolbox/updater/src/main/kotlin/io/rsbox/toolbox/updater/classifier/ClassifierUtil.kt:41-49 | When neither field's match points at the other while the other points elsewhere, and the owners' matches agree, the field check is symmetric. A one-sided match against an unmatched field is allowed. |
| Ranking.AnalyzerResults | toolbox/updater/src/main/kotlin/io/rsbox/toolbox/updater/classifier/ClassifierUtil.kt:135-147 | There is one result per analyzer, in analyzer order, each holding that analyzer's raw score. |
| Ranking.RankCandidate | toolbox/updater/src/main/kotlin/io/rsbox/toolbox/updater/classifier/ClassifierUtil.kt:130-151 | The loop with early return answers CandidateRank. That is none when the pre-filter fails or some running mismatch reaches the budget; otherwise the full weighted score and all analyzer results. |
| Ranking.MismatchStep | toolbox/updater/src/main/kotlin/io/rsbox/toolbox/updater/classifier/ClassifierUtil.kt:143 | With weights >= 0 and scores <= 1, one analyzer never lowers the mismatch. |
| Ranking.MismatchMonotone | toolbox/updater/src/main/kotlin/io/rsbox/toolbox/updater/classifier/ClassifierUtil.kt:137-148 | Under the same conditions, the running mismatch never decreases. |
| Ranking.EarlyExitIsBruteForce | toolbox/updater/src/main/kotlin/io/rsbox/toolbox/updater/classifier/ClassifierUtil.kt:130-151 | With non-negative weights, scores in [0, 1] and at least one analyzer, early rejection is the same as rejecting when the total mismatch reaches the budget. The analyzer count matters: with none, a budget of 0 or less leaves candidates the loop keeps but the brute-force rule drops. |
| Ranking.MismatchAndScoreBounds | toolbox/updater/src/main/kotlin/io/rsbox/toolbox/updater/classifier/ClassifierUtil.kt:137-148 | Mismatch and score each lie between 0 and the total weight seen, and they add up to it. |
| Ranking.GenerousBudgetKeepsAll | toolbox/updater/src/main/kotlin/io/rsbox/toolbox/updater/classifier/ClassifierUtil.kt:130-151 | With a budget above the total weight, a candidate survives exactly when it passes the pre-filter. |
| Ranking.SurvivorsMembership | toolbox/updater/src/main/kotlin/io/rsbox/toolbox/updater/classifier/ClassifierUtil.kt:117-123 | A result is collected exactly when some candidate ranks to it. Rejected candidates leave nothing behind. |
| Ranking.InsertByScore | toolbox/updater/src/main/kotlin/io/rsbox/toolbox/updater/classifier/ClassifierUtil.kt:125 | Insertion into the sorted results adds exactly one element. |
| Ranking.InsertByScorePermutes | toolbox/updater/src/main/kotlin/io/rsbox/toolbox/updater/classifier/ClassifierUtil.kt:125 | Insertion adds exactly the inserted element to the multiset. |
| Ranking.InsertByScoreAtMost | toolbox/updater/src/main/kotlin/io/rsbox/toolbox/updater/classifier/ClassifierUtil.kt:125 | Insertion keeps every score under a common bound. |
| Ranking.InsertByScoreSorted | toolbox/updater/src/main/kotlin/io/rsbox/toolbox/updater/classifier/ClassifierUtil.kt:125 | Insertion keeps the results in descending score order. |
| Ranking.SortByScore | toolbox/updater/src/main/kotlin/io/rsbox/toolbox/updater/classifier/ClassifierUtil.kt:125 | Sorting keeps the length. |
| Ranking.SortByScoreCorrect | toolbox/updater/src/main/kotlin/io/rsbox/toolbox/updater/classifier/ClassifierUtil.kt:125 | The sort yields a permutation in descending score order. |
| Ranking.InsertByScoreStable | toolbox/updater/src/main/kotlin/io/rsbox/toolbox/updater/classifier/ClassifierUtil.kt:125 | Insertion places the new element ahead of the existing elements of equal score. The sort inserts each element into the already sorted elements behind it, so equal-score results keep their collection order. |
| Ranking.SortByScoreStable | toolbox/updater/src/main/kotlin/io/rsbox/toolbox/updater/classifier/ClassifierUtil.kt:125 | The sort is stable: results of equal score keep their collection order. |
| Ranking.Rank | toolbox/updater/src/main/kotlin/io/rsbox/toolbox/updater/classifier/ClassifierUtil.kt:117-128 | The output is the sorted survivors. It is in descending score order and is a permutation of the survivors. |
| SetSimilarity.CompareCounts | toolbox/updater/src/main/kotlin/io/rsbox/toolbox/updater/classifier/ClassifierUtil.kt:153-157 | The result lies in [0, 1] and is 1 exactly for equal counts. Otherwise it is the smaller count over the larger. |
| SetSimilarity.CompareCountsSymmetric | toolbox/updater/src/main/kotlin/io/rsbox/toolbox/updater/classifier/ClassifierUtil.kt:153-157 | Count similarity does not depend on argument order. |
| SetSimilarity.CompareSets | toolbox/updater/src/main/kotlin/io/rsbox/toolbox/updater/classifier/ClassifierUtil.kt:159-170 | The result is \|A∩B\|/\|A∪B\|, or 1 for two empty sets. It lies in [0, 1] and is 1 exactly for equal sets. |
| SetSimilarity.IdentityPassLoop | toolbox/updater/src/main/kotlin/io/rsbox/toolbox/updater/classifier/ClassifierUtil.kt:195-206 | Pass 1, in iteration order: an A element also in B leaves both sets. A matched element removes its match from B, counts one miss when the match is absent, and leaves A. All other elements stay. |
| SetSimilarity.IdentityPassAccounting | toolbox/updater/src/main/kotlin/io/rsbox/toolbox/updater/classifier/ClassifierUtil.kt:195-206 | Each A element is kept or counted at most once, and B only shrinks. |
| SetSimilarity.SomePartnerInB | toolbox/updater/src/main/kotlin/io/rsbox/toolbox/updater/classifier/ClassifierUtil.kt:211-217 | The inner search reports whether some B element is compatible. |
| SetSimilarity.PartnerPassA | toolbox/updater/src/main/kotlin/io/rsbox/toolbox/updater/classifier/ClassifierUtil.kt:208-222 | Pass 2 keeps the A elements that have some compatible partner, without consuming partners. It counts one miss per dropped element. |
| SetSimilarity.SomePartnerInA | toolbox/updater/src/main/kotlin/io/rsbox/toolbox/updater/classifier/ClassifierUtil.kt:225-231 | The inner search reports whether some kept A element is compatible. |
| SetSimilarity.PartnerPassB | toolbox/updater/src/main/kotlin/io/rsbox/toolbox/updater/classifier/ClassifierUtil.kt:224-235 | Pass 3 counts the remaining B elements that have no compatible kept A element. |
| SetSimilarity.MissesBounded | toolbox/updater/src/main/kotlin/io/rsbox/toolbox/updater/classifier/ClassifierUtil.kt:192-235 | The three passes together miss at most \|a\| + \|b\| elements. |
| SetSimilarity.MatchableSetsSimilarityBounds | toolbox/updater/src/main/kotlin/io/rsbox/toolbox/updater/classifier/ClassifierUtil.kt:184-237 | Matchable-set similarity lies in [0, 1]. |
| SetSimilarity.CompareMatchableSets | toolbox/updater/src/main/kotlin/io/rsbox/toolbox/updater/classifier/ClassifierUtil.kt:184-237 | The result is 1 for two empty sets and 0 when exactly one is empty. Otherwise it is (total − misses)/total with total = \|a\| + \|b\|. It lies in [0, 1]. |
| SetSimilarity.CompareClassSets | toolbox/updater/src/main/kotlin/io/rsbox/toolbox/updater/classifier/ClassifierUtil.kt:172-174 | Matchable-set similarity under the class filter, in [0, 1]. |
| SetSimilarity.CompareMethodSets | toolbox/updater/src/main/kotlin/io/rsbox/toolbox/updater/classifier/ClassifierUtil.kt:176-178 | Matchable-set similarity under the method filter, in [0, 1]. |
| SetSimilarity.CompareFieldSets | toolbox/updater/src/main/kotlin/io/rsbox/toolbox/updater/classifier/ClassifierUtil.kt:180-182 | Matchable-set similarity under the field filter, in [0, 1]. |
| SequenceSimilarity.DistLowerBound | toolbox/updater/src/main/kotlin/io/rsbox/toolbox/updater/classifier/ClassifierUtil.kt:273-286 | With non-negative costs, the distance is at least DISTINCT times the length difference. |
| SequenceSimilarity.DistUpperBound | toolbox/updater/src/main/kotlin/io/rsbox/toolbox/updater/classifier/ClassifierUtil.kt:273-292 | With costs at most DISTINCT, the distance is at most DISTINCT times the longer length, the upper bound the source divides by. |
| SequenceSimilarity.DistSymmetric | toolbox/updater/src/main/kotlin/io/rsbox/toolbox/updater/classifier/ClassifierUtil.kt:273-286 | Swapping the lists, with a comparator that answers the same for swapped arguments, keeps the distance. |
| SequenceSimilarity.AllPositionsSimilar | toolbox/updater/src/main/kotlin/io/rsbox/toolbox/updater/classifier/ClassifierUtil.kt:260-269 | The fast-path scan reports whether every position compares SIMILAR. |
| SequenceSimilarity.DiagonalDistZero | toolbox/updater/src/main/kotlin/io/rsbox/toolbox/updater/classifier/ClassifierUtil.kt:259-270 | When the fast path applies and costs are non-negative, every diagonal distance is 0. |
| SequenceSimilarity.NextRow | toolbox/updater/src/main/kotlin/io/rsbox/toolbox/updater/classifier/ClassifierUtil.kt:279-284 | The inner loop turns row i of the distance table into row i + 1. |
| SequenceSimilarity.CopyRow | toolbox/updater/src/main/kotlin/io/rsbox/toolbox/updater/classifier/ClassifierUtil.kt:286-288 | The copy loop makes v0 equal to v1. |
| SequenceSimilarity.CompareLists | toolbox/updater/src/main/kotlin/io/rsbox/toolbox/updater/classifier/ClassifierUtil.kt:252-295 | The result answers CompareListsSpec: 1 for two empty lists, 0 when exactly one is empty, 1 on the fast path, otherwise 1 − Dist(n, m)/(DISTINCT·max(n, m)). |
| SequenceSimilarity.CompareListsIsEditSimilarity | toolbox/updater/src/main/kotlin/io/rsbox/toolbox/updater/classifier/ClassifierUtil.kt:252-295 | With non-negative costs, the empty-list answers and the fast path agree with the edit similarity itself. |
| SequenceSimilarity.EditSimilarityBounds | toolbox/updater/src/main/kotlin/io/rsbox/toolbox/updater/classifier/ClassifierUtil.kt:290-294 | With costs in [0, DISTINCT], edit similarity lies in [0, 1]. It is 1 exactly at distance 0, which needs equal lengths. |
| SequenceSimilarity.CompareListsBounds | toolbox/updater/src/main/kotlin/io/rsbox/toolbox/updater/classifier/ClassifierUtil.kt:252-295 | With costs in [0, DISTINCT], list similarity lies in [0, 1]. A 1 for non-empty lists needs equal lengths. |
| SequenceSimilarity.CompareListsSymmetric | toolbox/updater/src/main/kotlin/io/rsbox/toolbox/updater/classifier/ClassifierUtil.kt:252-295 | With a symmetric, non-negative comparator, list similarity is symmetric. |
| SequenceSimilarity.CompareClassLists | toolbox/updater/src/main/kotlin/io/rsbox/toolbox/updater/classifier/ClassifierUtil.kt:240-244 | List similarity under the class filter (SIMILAR or DISTINCT), in [0, 1]. |
| SequenceSimilarity.CompareFieldLists | toolbox/updater/src/main/kotlin/io/rsbox/toolbox/updater/classifier/ClassifierUtil.kt:246-250 | List similarity under the field filter, in [0, 1]. |
| SequenceSimilarity.Align | toolbox/updater/src/main/kotlin/io/rsbox/toolbox/updater/classifier/ClassifierUtil.kt:349-370 | The backtrace from cell (i, j) writes exactly i entries. |
| SequenceSimilarity.AlignMonotone | toolbox/updater/src/main/kotlin/io/rsbox/toolbox/updater/classifier/ClassifierUtil.kt:349-370 | Every entry is −1 or in [0, j), and the mapped entries strictly increase. |
| SequenceSimilarity.AlignMapsOnlyNonDistinct | toolbox/updater/src/main/kotlin/io/rsbox/toolbox/updater/classifier/ClassifierUtil.kt:356-361 | Entry i is mapped to a position k only when the comparator rates element i and element k of B below DISTINCT. |
| SequenceSimilarity.AlignAgainstEmpty | toolbox/updater/src/main/kotlin/io/rsbox/toolbox/updater/classifier/ClassifierUtil.kt:305-308 | Against an empty list the backtrace leaves every entry unmapped, matching the early answer. |
| SequenceSimilarity.AlignDiagonal | toolbox/updater/src/main/kotlin/io/rsbox/toolbox/updater/classifier/ClassifierUtil.kt:310-325 | When the fast path applies, the backtrace is the identity map, matching the early answer. |
| SequenceSimilarity.Backtrack | toolbox/updater/src/main/kotlin/io/rsbox/toolbox/updater/classifier/ClassifierUtil.kt:350-370 | Walking back from cell (i, j) of any cost table writes one entry per element of the first list it passes. |
| SequenceSimilarity.BacktrackShape | toolbox/updater/src/main/kotlin/io/rsbox/toolbox/updater/classifier/ClassifierUtil.kt:356-369 | Each step away from the origin is one of the loop's moves, under the guard the loop tests. The diagonal maps j − 1 when the cost rises by less than DISTINCT and writes −1 otherwise. The move up writes −1, and the move left writes nothing. |
| SequenceSimilarity.BacktrackMonotone | toolbox/updater/src/main/kotlin/io/rsbox/toolbox/updater/classifier/ClassifierUtil.kt:350-370 | Whatever the table holds, every written entry is −1 or in [0, j), and the mapped entries strictly increase. |
| SequenceSimilarity.DistTableKeepIsCheap | toolbox/updater/src/main/kotlin/io/rsbox/toolbox/updater/classifier/ClassifierUtil.kt:338-345 | In the filled table, a diagonal step whose cost rises by less than DISTINCT passes a pair the comparator rates below DISTINCT. |
| SequenceSimilarity.BacktrackMapsOnlyNonDistinct | toolbox/updater/src/main/kotlin/io/rsbox/toolbox/updater/classifier/ClassifierUtil.kt:356-361 | Over a table where cheap diagonal steps pass non-distinct pairs, the backtrace maps only non-distinct pairs. |
| SequenceSimilarity.BacktrackAgainstEmpty | toolbox/updater/src/main/kotlin/io/rsbox/toolbox/updater/classifier/ClassifierUtil.kt:350-370 | From a cell on row 0 or column 0 the backtrace writes −1 for every element it passes. |
| SequenceSimilarity.DiagonalStep | toolbox/updater/src/main/kotlin/io/rsbox/toolbox/updater/classifier/ClassifierUtil.kt:356-362 | On the fast path the backtrace from (k, k) takes the diagonal and maps k − 1 to k − 1. |
| SequenceSimilarity.FillBorders | toolbox/updater/src/main/kotlin/io/rsbox/toolbox/updater/classifier/ClassifierUtil.kt:327-336 | The new table has (sizeA + 1)·(sizeB + 1) cells, and row 0 and column 0 hold DISTINCT times the index, as the distance does there. |
| SequenceSimilarity.BacktraceStep | toolbox/updater/src/main/kotlin/io/rsbox/toolbox/updater/classifier/ClassifierUtil.kt:351-369 | One turn moves toward the origin. The entries still to be walked, followed by those written, stay Align(sizeA, sizeB). |
| SequenceSimilarity.MapListsIsAlign | toolbox/updater/src/main/kotlin/io/rsbox/toolbox/updater/classifier/ClassifierUtil.kt:297-373 | With non-negative costs, every early answer equals the full backtrace. |
| SequenceSimilarity.MapListsProperties | toolbox/updater/src/main/kotlin/io/rsbox/toolbox/updater/classifier/ClassifierUtil.kt:297-373 | The mapping has length sizeA and maps into [0, sizeB) or −1. Mapped entries strictly increase, and only non-distinct pairs are mapped. |
| SequenceSimilarity.FillTable | toolbox/updater/src/main/kotlin/io/rsbox/toolbox/updater/classifier/ClassifierUtil.kt:328-345 | The flat table holds Dist(i, j) at position i + j·(sizeA + 1) for every cell. |
| SequenceSimilarity.Backtrace | toolbox/updater/src/main/kotlin/io/rsbox/toolbox/updater/classifier/ClassifierUtil.kt:347-372 | The backtrace loop terminates, since i + j decreases each step, and its array holds Align(sizeA, sizeB). |
| SequenceSimilarity.MapLists | toolbox/updater/src/main/kotlin/io/rsbox/toolbox/updater/classifier/ClassifierUtil.kt:297-373 | The result answers MapListsSpec: empty for two empty lists, all −1 when exactly one is empty, the identity on the fast path, otherwise the backtrace. |
| InsnComparison.CompareMethods | toolbox/updater/src/main/kotlin/io/rsbox/toolbox/updater/classifier/ClassifierUtil.kt:505-521 | Two unknown owners compare equal and exactly one unknown owner compares unequal. Otherwise the answer is nullable method potential equality of the two resolved methods. |
| InsnComparison.CompareConstants | toolbox/updater/src/main/kotlin/io/rsbox/toolbox/updater/classifier/ClassifierUtil.kt:445-466 | Results are only SIMILAR or DISTINCT. Different runtime classes are DISTINCT. Non-type constants are SIMILAR exactly when equal. Types of different sorts are DISTINCT. Types of a sort other than array or object fall through to SIMILAR. |
| InsnComparison.CompareInsn | toolbox/updater/src/main/kotlin/io/rsbox/toolbox/updater/classifier/ClassifierUtil.kt:387-503 | Results are only SIMILAR or DISTINCT, and different opcodes are DISTINCT. Jumps are SIMILAR exactly when the signs of (label − own position) agree. IINC, table switch, lookup switch and int operands compare increment, min/max, key list and operand. LDC defers to the constant comparison. Type instructions compare their classes. Field instructions apply the owner null rules, then compare the fields resolved with B's descriptor. Method instructions defer to the method-reference comparison. Multi-dimensional array creation compares dimensions and classes. Unhandled kinds are SIMILAR. |
| InsnComparison.FieldInsnIgnoresOwnDescriptor | toolbox/updater/src/main/kotlin/io/rsbox/toolbox/updater/classifier/ClassifierUtil.kt:410-423 | A field instruction's verdict does not depend on A's own descriptor, since both fields resolve with B's. |
| InsnComparison.CompareInsnReflexive | toolbox/updater/src/main/kotlin/io/rsbox/toolbox/updater/classifier/ClassifierUtil.kt:387-503 | When both snapshots share the lookups by name and by id, every instruction at its own position is SIMILAR to itself. |
| InsnComparison.InsnCostsWithin | toolbox/updater/src/main/kotlin/io/rsbox/toolbox/updater/classifier/ClassifierUtil.kt:387-503 | Instruction costs lie in [0, DISTINCT], the range the list bounds need. |
| InsnComparison.CompareInsns | toolbox/updater/src/main/kotlin/io/rsbox/toolbox/updater/classifier/ClassifierUtil.kt:375-385 | Instruction-list similarity is list similarity of the positioned instructions, and lies in [0, 1]. |
| InsnComparison.InsnMappingProperties | toolbox/updater/src/main/kotlin/io/rsbox/toolbox/updater/classifier/ClassifierUtil.kt:536-540 | An instruction alignment has one entry per A instruction. Entries are −1 or indices into B in increasing order, and a mapped pair always compares SIMILAR. |
| InsnComparison.MapInsnLists | toolbox/updater/src/main/kotlin/io/rsbox/toolbox/updater/classifier/ClassifierUtil.kt:536-540 | The list alignment of the positioned instructions. |
| InsnComparison.MapInsns | toolbox/updater/src/main/kotlin/io/rsbox/toolbox/updater/classifier/ClassifierUtil.kt:523-534 | The result is none exactly when a body is empty, and otherwise the instruction alignment, whether computed directly (fewer than 1000 cells) or through the cache. The cache stays coherent. The direct path leaves it unchanged. After the cached path, the map is the old map with this pair's key set to the result. No other key changes. |
| Literals.LiteralsInMembership | toolbox/updater/src/main/kotlin/io/rsbox/toolbox/updater/classifier/ClassifierUtil.kt:550-558 | A value is collected exactly when the selector picks it out of some instruction of the list (the selector for strings keeps the string constants a load-constant pushes). |
| Literals.ExtractStrings | toolbox/updater/src/main/kotlin/io/rsbox/toolbox/updater/classifier/ClassifierUtil.kt:542-558 | The output set grows by exactly the loaded strings. |
| Literals.AddValue | toolbox/updater/src/main/kotlin/io/rsbox/toolbox/updater/classifier/ClassifierUtil.kt:572-581 | Null and non-numeric values leave the number sets unchanged. |
| Literals.NumbersInLiterals | toolbox/updater/src/main/kotlin/io/rsbox/toolbox/updater/classifier/ClassifierUtil.kt:560-581 | The four number sets are each the collection of the literals of one kind, so the int set gathers int constants and int operands and the others their own constants. |
| Literals.NumbersInMembership | toolbox/updater/src/main/kotlin/io/rsbox/toolbox/updater/classifier/ClassifierUtil.kt:560-581 | Each number set holds exactly the literals of its kind: int constants and int operands, longs, and float and double bit patterns. |
| Literals.HandleNumberValue | toolbox/updater/src/main/kotlin/io/rsbox/toolbox/updater/classifier/ClassifierUtil.kt:572-581 | The new sets are the old ones plus the value in its own set; nothing else changes. |
| Literals.ExtractNumbers | toolbox/updater/src/main/kotlin/io/rsbox/toolbox/updater/classifier/ClassifierUtil.kt:560-570 | The new sets are the old ones united with the body's numeric literals. |
| Literals.Numbers.constructor | toolbox/updater/src/main/kotlin/io/rsbox/toolbox/updater/classifier/ClassifierUtil.kt:583-588 | A new holder starts with four empty sets. |
| MatchCaches.MatchCache.constructor | toolbox/updater/src/main/kotlin/io/rsbox/toolbox/updater/classifier/ClassifierUtil.kt:604 | A new cache is empty. |
| MatchCaches.MatchCache.Clear | toolbox/updater/src/main/kotlin/io/rsbox/toolbox/updater/classifier/ClassifierUtil.kt:606 | Clear empties the map. |
| MatchCaches.MatchCache.Get | toolbox/updater/src/main/kotlin/io/rsbox/toolbox/updater/classifier/ClassifierUtil.kt:608-610 | Get answers the stored value for (token, a, b), or nothing when the key is absent. |
| MatchCaches.MatchCache.Compute | toolbox/updater/src/main/kotlin/io/rsbox/toolbox/updater/classifier/ClassifierUtil.kt:612-614 | Compute-if-absent: a present key returns the stored value and leaves the map unchanged. An absent key stores and returns f(a, b), and no other key changes. Get afterwards returns the result, and a cache that memoizes f keeps doing so and answers f(a, b). |

## Left out

- Concurrency: the cache's `ConcurrentHashMap.computeIfAbsent` is modelled as a sequential map. Atomicity is not modelled.
- Floating point: scores, weights and ratios are reals, so IEEE-754 rounding is not modelled. Float and double constants are bit patterns. Their equality is bit equality, which differs from `Float.equals` only for NaN payloads, which that method collapses.
- SetSimilarity.CompareCounts: restricted to natural numbers, because the callers pass sizes; with negative arguments the source's `max(a, b)` could be zero or negative.
- Integer overflow: the 32-bit distance and table arithmetic of the list algorithms is unbounded here.
- InsnComparison.MapInsns: the size threshold is `insnsA.size() * insnsB.size() < 1000` in 32-bit arithmetic. For very long bodies that product can wrap negative and choose the direct path; here it is unbounded. Both paths return the same alignment, so only whether the cache is filled differs.
- SequenceSimilarity.Backtrace: the `Int.MAX_VALUE` stand-in for a missing neighbour on a border is replaced by explicit border tests. They agree while table values stay below 2^31 − 1.
- SequenceSimilarity.MapLists: the result array is returned as its contents, and each branch allocates its own result array.
- Entries.ClassEntry: `isArray()` belongs to a class outside this model. It is taken to mean "has an element class", so the `elementClass!!` dereference never fails here. An array class whose element class is unresolved, which would throw there, is not modelled.
- Entries.Signature: a signature's size may not exceed its argument count. Where it did, the source would index past the argument array and throw.
- InsnComparison.CompareInsn: a handled instruction kind in A paired with a different kind in B under the same opcode answers DISTINCT. In the source an opcode fixes the node kind, so this pairing cannot occur (it would be a failed cast).
- InsnComparison.CompareInsns: the two entry points (a plain list and an instruction list) share one model. The unused method parameters `mthA`/`mthB` are dropped.
- InsnComparison.Env: the global `Updater.env` and ASM's class lookup, `resolveField` and `resolveMethod` are abstract functions. `Integer.signum` of positions is modelled over instruction indices, standing in for `indexOf`.
- InsnComparison.MapInsns: the cache's values are fixed to alignments (`seq<int>`) rather than any object. The cached computation is the alignment specification, which `MapInsnLists` is proved to compute.
- SetSimilarity.CompareMatchableSets: the A hash set's iteration order is an arbitrary duplicate-free sequence. `setB.remove(entryA.match)` removes by handle.
- Literals.ExtractStrings: the caller's output set is passed in and its new value returned; aliasing of that set is not modelled.
- Ranking.Rank: the analyzer collection is a sequence; an `AnalyzerResult` names its analyzer by position.
- MatchCaches.MatchCache.Get: the source casts a missing entry (null) to the value type; the model answers an absent option instead.
- Decompiler.kt is not part of this model: it wraps a foreign decompiler with file I/O. Neither is the rest of the repository (game client, server engine, build scripts).
