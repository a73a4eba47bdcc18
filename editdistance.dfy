/**
 * Ordered-list similarity (ClassifierUtil.kt lines 240-373): a weighted edit distance over
 * two lists, where inserting or deleting an element costs COMPARED_DISTINCT and keeping a
 * pair costs whatever the element comparator answers. `CompareLists` turns the distance into
 * a similarity; `MapLists` backtraces the full table into an alignment of list A onto list B.
 */
module SequenceSimilarity {

  import opened Entries
  import opened PotentialEquality
  import opened Arithmetic

  /** The three answers of an element comparator. */
  const COMPARED_SIMILAR: int := 0
  const COMPARED_POSSIBLE: int := 1
  const COMPARED_DISTINCT: int := 2

  // ---------------------------------------------------------------------------------------
  // The recurrence both algorithms fill in.

  /**
   * Edit distance between the first `i` elements of `a` and the first `j` elements of `b`.
   */
  function Dist<U>(a: seq<U>, b: seq<U>, cmp: (U, U) -> int, i: nat, j: nat): int
    requires i <= |a| && j <= |b|
    decreases i + j
  {
    if i == 0 then j * COMPARED_DISTINCT
    else if j == 0 then i * COMPARED_DISTINCT
    else Min(Min(Dist(a, b, cmp, i, j - 1) + COMPARED_DISTINCT,
                 Dist(a, b, cmp, i - 1, j) + COMPARED_DISTINCT),
             Dist(a, b, cmp, i - 1, j - 1) + cmp(a[i - 1], b[j - 1]))
  }

  /** Every pair the comparator can be asked about answers within [lo, hi]. */
  predicate CostsWithin<U>(a: seq<U>, b: seq<U>, cmp: (U, U) -> int, lo: int, hi: int) {
    forall x, y :: 0 <= x < |a| && 0 <= y < |b| ==> lo <= cmp(a[x], b[y]) <= hi
  }

  predicate NonNegativeCosts<U>(a: seq<U>, b: seq<U>, cmp: (U, U) -> int) {
    forall x, y :: 0 <= x < |a| && 0 <= y < |b| ==> 0 <= cmp(a[x], b[y])
  }

  function AbsDiff(i: int, j: int): nat { if i >= j then i - j else j - i }

  /** With non-negative costs, each length difference costs at least one insertion or deletion. */
  lemma {:induction false} DistLowerBound<U>(a: seq<U>, b: seq<U>, cmp: (U, U) -> int, i: nat, j: nat)
    requires i <= |a| && j <= |b|
    requires NonNegativeCosts(a, b, cmp)
    ensures Dist(a, b, cmp, i, j) >= AbsDiff(i, j) * COMPARED_DISTINCT
    decreases i + j
  {
    if i > 0 && j > 0 {
      DistLowerBound(a, b, cmp, i, j - 1);
      DistLowerBound(a, b, cmp, i - 1, j);
      DistLowerBound(a, b, cmp, i - 1, j - 1);
      assert 0 <= cmp(a[i - 1], b[j - 1]);
    }
  }

  /** With costs at most COMPARED_DISTINCT, the distance never exceeds a full rewrite. */
  lemma {:induction false} DistUpperBound<U>(a: seq<U>, b: seq<U>, cmp: (U, U) -> int, i: nat, j: nat)
    requires i <= |a| && j <= |b|
    requires CostsWithin(a, b, cmp, 0, COMPARED_DISTINCT)
    ensures Dist(a, b, cmp, i, j) <= Max(i, j) * COMPARED_DISTINCT
    decreases i + j
  {
    if i > 0 && j > 0 {
      DistUpperBound(a, b, cmp, i - 1, j - 1);
      assert cmp(a[i - 1], b[j - 1]) <= COMPARED_DISTINCT;
    }
  }

  /**
   * Swapping the lists does not change the distance, given a comparator `cmp2` that answers
   * for (y, x) what `cmp` answers for (x, y).
   */
  lemma {:induction false} DistSymmetric<U>(a: seq<U>, b: seq<U>, cmp: (U, U) -> int, cmp2: (U, U) -> int, i: nat, j: nat)
    requires i <= |a| && j <= |b|
    requires forall x, y :: 0 <= x < |a| && 0 <= y < |b| ==> cmp2(b[y], a[x]) == cmp(a[x], b[y])
    ensures Dist(a, b, cmp, i, j) == Dist(b, a, cmp2, j, i)
    decreases i + j
  {
    if i > 0 && j > 0 {
      DistSymmetric(a, b, cmp, cmp2, i, j - 1);
      DistSymmetric(a, b, cmp, cmp2, i - 1, j);
      DistSymmetric(a, b, cmp, cmp2, i - 1, j - 1);
      assert cmp2(b[j - 1], a[i - 1]) == cmp(a[i - 1], b[j - 1]);
    }
  }

  /** The fast path of both algorithms: equal positions all compare similar. */
  predicate AllSimilar<U>(a: seq<U>, b: seq<U>, cmp: (U, U) -> int)
    requires |a| == |b|
  {
    forall k :: 0 <= k < |a| ==> cmp(a[k], b[k]) == COMPARED_SIMILAR
  }

  /** When the fast path applies, every diagonal cell of the table is zero. */
  lemma {:induction false} DiagonalDistZero<U>(a: seq<U>, b: seq<U>, cmp: (U, U) -> int, k: nat)
    requires |a| == |b| && k <= |a|
    requires NonNegativeCosts(a, b, cmp) && AllSimilar(a, b, cmp)
    ensures Dist(a, b, cmp, k, k) == 0
  {
    if k > 0 {
      DiagonalDistZero(a, b, cmp, k - 1);
      DistLowerBound(a, b, cmp, k, k);
      assert cmp(a[k - 1], b[k - 1]) == COMPARED_SIMILAR;
    }
  }

  /** The fast-path scan: stops at the first position whose pair is not similar. */
  method AllPositionsSimilar<U>(a: seq<U>, b: seq<U>, cmp: (U, U) -> int) returns (same: bool)
    requires |a| == |b|
    ensures same == AllSimilar(a, b, cmp)
  {
    same := true;
    var i := 0;
    while i < |a|
      invariant 0 <= i <= |a|
      invariant same ==> forall k :: 0 <= k < i ==> cmp(a[k], b[k]) == COMPARED_SIMILAR
      invariant !same ==> !AllSimilar(a, b, cmp)
      decreases if same then |a| - i else 0
    {
      if cmp(a[i], b[i]) != COMPARED_SIMILAR {
        same := false;
        break;
      }
      i := i + 1;
    }
  }

  // ---------------------------------------------------------------------------------------
  // Similarity of two lists.

  /** One minus the distance relative to rewriting the longer list outright. */
  function EditSimilarity<U>(a: seq<U>, b: seq<U>, cmp: (U, U) -> int): real
    requires |a| > 0 || |b| > 0
  {
    1.0 - Dist(a, b, cmp, |a|, |b|) as real / (Max(|a|, |b|) * COMPARED_DISTINCT) as real
  }

  /** What `compareLists` answers, branch by branch. */
  function CompareListsSpec<U>(a: seq<U>, b: seq<U>, cmp: (U, U) -> int): real {
    if |a| == 0 && |b| == 0 then 1.0
    else if |a| == 0 || |b| == 0 then 0.0
    else if |a| == |b| && AllSimilar(a, b, cmp) then 1.0
    else EditSimilarity(a, b, cmp)
  }

  /**
   * The empty-list answers and the fast path are shortcuts: with non-negative costs the
   * answer is the edit similarity whenever some list is non-empty.
   */
  lemma CompareListsIsEditSimilarity<U>(a: seq<U>, b: seq<U>, cmp: (U, U) -> int)
    requires |a| > 0 || |b| > 0
    requires NonNegativeCosts(a, b, cmp)
    ensures CompareListsSpec(a, b, cmp) == EditSimilarity(a, b, cmp)
  {
    if |a| == 0 || |b| == 0 {
      var m := (Max(|a|, |b|) * COMPARED_DISTINCT) as real;
      assert Dist(a, b, cmp, |a|, |b|) as real == m;
    } else if |a| == |b| && AllSimilar(a, b, cmp) {
      DiagonalDistZero(a, b, cmp, |a|);
    }
  }

  /**
   * With costs in [0, COMPARED_DISTINCT] the edit similarity lies in [0, 1], and it is 1
   * exactly when the distance is zero, which needs lists of equal length.
   */
  lemma EditSimilarityBounds<U>(a: seq<U>, b: seq<U>, cmp: (U, U) -> int)
    requires |a| > 0 || |b| > 0
    requires CostsWithin(a, b, cmp, 0, COMPARED_DISTINCT)
    ensures 0.0 <= EditSimilarity(a, b, cmp) <= 1.0
    ensures EditSimilarity(a, b, cmp) == 1.0 <==> Dist(a, b, cmp, |a|, |b|) == 0
    ensures EditSimilarity(a, b, cmp) == 1.0 ==> |a| == |b|
  {
    var d := Dist(a, b, cmp, |a|, |b|);
    var m := Max(|a|, |b|) * COMPARED_DISTINCT;
    DistLowerBound(a, b, cmp, |a|, |b|);
    DistUpperBound(a, b, cmp, |a|, |b|);
    assert 0 < m;
    OneMinusRatioBounds(d, m);
    assert d == 0 ==> AbsDiff(|a|, |b|) == 0;
  }

  /** One minus a ratio of a non-negative integer to a larger positive one lies in [0, 1]. */
  lemma OneMinusRatioBounds(d: int, m: int)
    requires 0 <= d <= m && 0 < m
    ensures 0.0 <= 1.0 - d as real / m as real <= 1.0
    ensures 1.0 - d as real / m as real == 1.0 <==> d == 0
  {
    RatioBounds(d as real, m as real);
    assert d as real / m as real * m as real == d as real;
  }

  /** List similarity with comparator costs in [0, COMPARED_DISTINCT] lies in [0, 1]. */
  lemma CompareListsBounds<U>(a: seq<U>, b: seq<U>, cmp: (U, U) -> int)
    requires CostsWithin(a, b, cmp, 0, COMPARED_DISTINCT)
    ensures 0.0 <= CompareListsSpec(a, b, cmp) <= 1.0
    ensures CompareListsSpec(a, b, cmp) == 1.0 && (|a| > 0 || |b| > 0) ==> |a| == |b|
  {
    if |a| > 0 || |b| > 0 {
      CompareListsIsEditSimilarity(a, b, cmp);
      EditSimilarityBounds(a, b, cmp);
    }
  }

  /** List similarity is symmetric when the comparator is. */
  lemma CompareListsSymmetric<U>(a: seq<U>, b: seq<U>, cmp: (U, U) -> int)
    requires NonNegativeCosts(a, b, cmp)
    requires forall x: U, y: U :: cmp(x, y) == cmp(y, x)
    ensures CompareListsSpec(a, b, cmp) == CompareListsSpec(b, a, cmp)
  {
    if |a| > 0 || |b| > 0 {
      assert NonNegativeCosts(b, a, cmp) by {
        forall x, y | 0 <= x < |b| && 0 <= y < |a| ensures 0 <= cmp(b[x], a[y]) {
          assert cmp(b[x], a[y]) == cmp(a[y], b[x]);
        }
      }
      CompareListsIsEditSimilarity(a, b, cmp);
      CompareListsIsEditSimilarity(b, a, cmp);
      DistSymmetric(a, b, cmp, cmp, |a|, |b|);
    }
  }

  /** `row` holds row `i` of the table: the distances from a's first `i` elements. */
  predicate IsRow<U>(a: seq<U>, b: seq<U>, cmp: (U, U) -> int, row: seq<int>, i: nat)
    requires i <= |a|
  {
    |row| == |b| + 1 && forall t :: 0 <= t <= |b| ==> row[t] == Dist(a, b, cmp, i, t)
  }

  /** The inner loop of `compareLists`: computes row i + 1 into `v1` from row i in `v0`. */
  method NextRow<U>(a: seq<U>, b: seq<U>, cmp: (U, U) -> int, i: nat, v0: array<int>, v1: array<int>)
    requires i < |a| && v0 != v1 && v1.Length == |b| + 1
    requires IsRow(a, b, cmp, v0[..], i)
    modifies v1
    ensures IsRow(a, b, cmp, v1[..], i + 1)
  {
    v1[0] := (i + 1) * COMPARED_DISTINCT;
    for j := 0 to |b|
      invariant forall t :: 0 <= t <= j ==> v1[t] == Dist(a, b, cmp, i + 1, t)
    {
      assert v0[j] == Dist(a, b, cmp, i, j) && v0[j + 1] == Dist(a, b, cmp, i, j + 1);
      var cost := cmp(a[i], b[j]);
      v1[j + 1] := Min(Min(v1[j] + COMPARED_DISTINCT, v0[j + 1] + COMPARED_DISTINCT), v0[j] + cost);
    }
  }

  /** Copies `v1` over `v0`, element by element. */
  method CopyRow(v0: array<int>, v1: array<int>)
    requires v0 != v1 && v0.Length == v1.Length
    modifies v0
    ensures v0[..] == v1[..]
  {
    for j := 0 to v0.Length
      invariant forall t :: 0 <= t < j ==> v0[t] == v1[t]
    {
      v0[j] := v1[j];
    }
  }

  /**
   * Two rows of the table, `v0` holding row i and `v1` row i + 1; the last cell filled is the
   * distance between the whole lists.
   */
  method CompareLists<U>(a: seq<U>, b: seq<U>, cmp: (U, U) -> int) returns (r: real)
    ensures r == CompareListsSpec(a, b, cmp)
  {
    var sizeA, sizeB := |a|, |b|;
    if sizeA == 0 && sizeB == 0 { return 1.0; }
    if sizeA == 0 || sizeB == 0 { return 0.0; }
    if sizeA == sizeB {
      var same := AllPositionsSimilar(a, b, cmp);
      if same { return 1.0; }
    }

    var v0 := new int[sizeB + 1](_ => 0);
    var v1 := new int[sizeB + 1](_ => 0);
    for k := 1 to sizeB + 1
      invariant forall t :: 0 <= t < k ==> v0[t] == t * COMPARED_DISTINCT
    {
      v0[k] := k * COMPARED_DISTINCT;
    }
    assert IsRow(a, b, cmp, v0[..], 0);

    for i := 0 to sizeA
      invariant IsRow(a, b, cmp, v0[..], i)
      invariant i > 0 ==> IsRow(a, b, cmp, v1[..], i)
    {
      NextRow(a, b, cmp, i, v0, v1);
      CopyRow(v0, v1);
    }

    var distance := v1[sizeB];
    var upperBound := Max(sizeA, sizeB) * COMPARED_DISTINCT;
    r := 1.0 - distance as real / upperBound as real;
  }

  /** Class and field lists compare their elements with the potential-equality filter. */
  function ClassComparator(): (ClassEntry, ClassEntry) -> int {
    (x: ClassEntry, y: ClassEntry) => if ClassPotentiallyEqual(x, y) then COMPARED_SIMILAR else COMPARED_DISTINCT
  }

  function FieldComparator(): (FieldEntry, FieldEntry) -> int {
    (x: FieldEntry, y: FieldEntry) => if FieldPotentiallyEqual(x, y) then COMPARED_SIMILAR else COMPARED_DISTINCT
  }

  method CompareClassLists(a: seq<ClassEntry>, b: seq<ClassEntry>) returns (r: real)
    ensures r == CompareListsSpec(a, b, ClassComparator())
    ensures 0.0 <= r <= 1.0
  {
    r := CompareLists(a, b, ClassComparator());
    CompareListsBounds(a, b, ClassComparator());
  }

  method CompareFieldLists(a: seq<FieldEntry>, b: seq<FieldEntry>) returns (r: real)
    ensures r == CompareListsSpec(a, b, FieldComparator())
    ensures 0.0 <= r <= 1.0
  {
    r := CompareLists(a, b, FieldComparator());
    CompareListsBounds(a, b, FieldComparator());
  }

  // ---------------------------------------------------------------------------------------
  // Alignment of two lists.

  /** The distance table as a total function of (i, j); cells outside the table read as 0. */
  function DistTable<U>(a: seq<U>, b: seq<U>, cmp: (U, U) -> int): (int, int) -> int {
    (i: int, j: int) => if 0 <= i <= |a| && 0 <= j <= |b| then Dist(a, b, cmp, i, j) else 0
  }

  /**
   * The backtrace of `mapLists` over a filled table `d`, from cell (i, j), as the entries it
   * writes for the first `i` elements of A: an index into B, or -1 for an element left
   * unmapped. It keeps the diagonal pair when that is no dearer than a deletion or an
   * insertion (but maps it only when keeping cost less than COMPARED_DISTINCT), deletes when
   * that is strictly cheaper than an insertion, and otherwise inserts; a neighbour outside the
   * table is never chosen.
   */
  function Backtrack(d: (int, int) -> int, i: nat, j: nat): (r: seq<int>)
    ensures |r| == i
    decreases i + j
  {
    if i == 0 && j == 0 then []
    else if i > 0 && j > 0 && d(i - 1, j - 1) <= d(i - 1, j) && d(i - 1, j - 1) <= d(i, j - 1) then
      var entry := if d(i, j) - d(i - 1, j - 1) >= COMPARED_DISTINCT then -1 else j - 1;
      Backtrack(d, i - 1, j - 1) + [entry]
    else if i > 0 && (j == 0 || d(i - 1, j) < d(i, j - 1)) then
      Backtrack(d, i - 1, j) + [-1]
    else
      Backtrack(d, i, j - 1)
  }

  /** The backtrace over the edit-distance table of `a` and `b`. */
  function Align<U>(a: seq<U>, b: seq<U>, cmp: (U, U) -> int, i: nat, j: nat): (r: seq<int>)
    requires i <= |a| && j <= |b|
    ensures |r| == i
  {
    Backtrack(DistTable(a, b, cmp), i, j)
  }

  /** The four ways a backtrace step can go. */
  datatype Step = KeepMapped | KeepUnmapped | Delete | Insert

  /** The diagonal guard of the backtrace loop: both neighbours cost at least the diagonal. */
  predicate KeepGuard(d: (int, int) -> int, i: nat, j: nat) {
    0 < i && 0 < j && d(i - 1, j - 1) <= d(i - 1, j) && d(i - 1, j - 1) <= d(i, j - 1)
  }

  /** Which step the backtrace takes at cell (i, j), and the alignment it leaves. */
  lemma BacktrackShape(d: (int, int) -> int, i: nat, j: nat) returns (s: Step)
    requires 0 < i + j
    ensures s.KeepMapped? ==>
              KeepGuard(d, i, j) && d(i, j) - d(i - 1, j - 1) < COMPARED_DISTINCT
              && Backtrack(d, i, j) == Backtrack(d, i - 1, j - 1) + [j - 1]
    ensures s.KeepUnmapped? ==>
              KeepGuard(d, i, j) && d(i, j) - d(i - 1, j - 1) >= COMPARED_DISTINCT
              && Backtrack(d, i, j) == Backtrack(d, i - 1, j - 1) + [-1]
    ensures s.Delete? ==>
              !KeepGuard(d, i, j) && 0 < i && (j == 0 || d(i - 1, j) < d(i, j - 1))
              && Backtrack(d, i, j) == Backtrack(d, i - 1, j) + [-1]
    ensures s.Insert? ==>
              !KeepGuard(d, i, j) && 0 < j && (i == 0 || d(i - 1, j) >= d(i, j - 1))
              && Backtrack(d, i, j) == Backtrack(d, i, j - 1)
  {
    if i > 0 && j > 0 && d(i - 1, j - 1) <= d(i - 1, j) && d(i - 1, j - 1) <= d(i, j - 1) {
      s := if d(i, j) - d(i - 1, j - 1) >= COMPARED_DISTINCT then KeepUnmapped else KeepMapped;
    } else if i > 0 && (j == 0 || d(i - 1, j) < d(i, j - 1)) {
      s := Delete;
    } else {
      s := Insert;
    }
  }

  /** An alignment maps into B's first `bound` positions, in strictly increasing order. */
  predicate MonotoneMapping(r: seq<int>, bound: int) {
    (forall k :: 0 <= k < |r| ==> -1 <= r[k] < bound)
    && (forall p, q :: 0 <= p < q < |r| && r[p] != -1 && r[q] != -1 ==> r[p] < r[q])
  }

  /**
   * Whatever the table holds, the backtrace `r` from (i, j) maps into B's first `j` positions
   * and never maps backwards or twice onto one element.
   */
  lemma {:induction false} BacktrackMonotone(d: (int, int) -> int, i: nat, j: nat, r: seq<int>)
    requires r == Backtrack(d, i, j)
    ensures MonotoneMapping(r, j)
    decreases i + j
  {
    if 0 < i + j {
      var s := BacktrackShape(d, i, j);
      match s
      case KeepMapped =>
        var prev := Backtrack(d, i - 1, j - 1);
        BacktrackMonotone(d, i - 1, j - 1, prev);
        MonotoneSnoc(prev, j - 1, j - 1, j);
      case KeepUnmapped =>
        var prev := Backtrack(d, i - 1, j - 1);
        BacktrackMonotone(d, i - 1, j - 1, prev);
        MonotoneSnoc(prev, j - 1, -1, j);
      case Delete =>
        var prev := Backtrack(d, i - 1, j);
        BacktrackMonotone(d, i - 1, j, prev);
        MonotoneSnoc(prev, j, -1, j);
      case Insert =>
        var prev := Backtrack(d, i, j - 1);
        BacktrackMonotone(d, i, j - 1, prev);
        MonotoneWiden(prev, j - 1, j);
    }
  }

  /** Appending -1 or a position at least `bound` keeps a mapping monotone, into `newBound`. */
  lemma MonotoneSnoc(r: seq<int>, bound: int, e: int, newBound: int)
    requires MonotoneMapping(r, bound) && 0 <= bound <= newBound
    requires e == -1 || bound <= e < newBound
    ensures MonotoneMapping(r + [e], newBound)
  {
    var r2 := r + [e];
    assert forall k :: 0 <= k < |r| ==> r2[k] == r[k];
    assert r2[|r|] == e;
    forall p, q | 0 <= p < q < |r2| && r2[p] != -1 && r2[q] != -1
      ensures r2[p] < r2[q]
    {
      if q == |r| {
        assert r2[p] == r[p] < bound <= e;
      }
    }
  }

  lemma MonotoneWiden(r: seq<int>, bound: int, newBound: int)
    requires MonotoneMapping(r, bound) && bound <= newBound
    ensures MonotoneMapping(r, newBound)
  {
  }

  lemma AlignMonotone<U>(a: seq<U>, b: seq<U>, cmp: (U, U) -> int, i: nat, j: nat)
    requires i <= |a| && j <= |b|
    ensures MonotoneMapping(Align(a, b, cmp, i, j), j)
  {
    BacktrackMonotone(DistTable(a, b, cmp), i, j, Align(a, b, cmp, i, j));
  }

  /** Every pair the alignment maps compares better than COMPARED_DISTINCT. */
  predicate MappedPairsNotDistinct<U>(a: seq<U>, b: seq<U>, cmp: (U, U) -> int, r: seq<int>) {
    forall k :: 0 <= k < |r| && k < |a| && 0 <= r[k] < |b| ==> cmp(a[k], b[r[k]]) < COMPARED_DISTINCT
  }

  /**
   * At cell (i, j) of `d`, a diagonal step whose cost increase stays below COMPARED_DISTINCT
   * is only taken over a pair that is not distinct.
   */
  predicate KeepIsCheap<U>(d: (int, int) -> int, a: seq<U>, b: seq<U>, cmp: (U, U) -> int, i: nat, j: nat)
    requires 0 < i <= |a| && 0 < j <= |b|
  {
    d(i - 1, j - 1) <= d(i - 1, j) && d(i - 1, j - 1) <= d(i, j - 1)
      && d(i, j) - d(i - 1, j - 1) < COMPARED_DISTINCT
    ==> cmp(a[i - 1], b[j - 1]) < COMPARED_DISTINCT
  }

  /** The edit-distance table has that property at every inner cell. */
  lemma DistTableKeepIsCheap<U>(a: seq<U>, b: seq<U>, cmp: (U, U) -> int)
    ensures forall i: nat, j: nat :: 0 < i <= |a| && 0 < j <= |b| ==> KeepIsCheap(DistTable(a, b, cmp), a, b, cmp, i, j)
  {
    var d := DistTable(a, b, cmp);
    forall i: nat, j: nat | 0 < i <= |a| && 0 < j <= |b|
      ensures KeepIsCheap(d, a, b, cmp, i, j)
    {
      assert d(i, j) == Dist(a, b, cmp, i, j);
      assert d(i - 1, j) == Dist(a, b, cmp, i - 1, j) && d(i, j - 1) == Dist(a, b, cmp, i, j - 1);
      assert d(i - 1, j - 1) == Dist(a, b, cmp, i - 1, j - 1);
    }
  }

  lemma {:induction false} BacktrackMapsOnlyNonDistinct<U>(d: (int, int) -> int, a: seq<U>, b: seq<U>, cmp: (U, U) -> int,
                                                           i: nat, j: nat, r: seq<int>)
    requires i <= |a| && j <= |b| && r == Backtrack(d, i, j)
    requires forall i: nat, j: nat :: 0 < i <= |a| && 0 < j <= |b| ==> KeepIsCheap(d, a, b, cmp, i, j)
    ensures MappedPairsNotDistinct(a, b, cmp, r)
    decreases i + j
  {
    if 0 < i + j {
      var s := BacktrackShape(d, i, j);
      match s
      case KeepMapped =>
        var prev := Backtrack(d, i - 1, j - 1);
        BacktrackMapsOnlyNonDistinct(d, a, b, cmp, i - 1, j - 1, prev);
        assert KeepIsCheap(d, a, b, cmp, i, j);
        MappedSnoc(a, b, cmp, prev, j - 1);
      case KeepUnmapped =>
        var prev := Backtrack(d, i - 1, j - 1);
        BacktrackMapsOnlyNonDistinct(d, a, b, cmp, i - 1, j - 1, prev);
        MappedSnoc(a, b, cmp, prev, -1);
      case Delete =>
        var prev := Backtrack(d, i - 1, j);
        BacktrackMapsOnlyNonDistinct(d, a, b, cmp, i - 1, j, prev);
        MappedSnoc(a, b, cmp, prev, -1);
      case Insert =>
        var prev := Backtrack(d, i, j - 1);
        BacktrackMapsOnlyNonDistinct(d, a, b, cmp, i, j - 1, prev);
    }
  }

  /** Appending an unmapped entry, or a pair that is not distinct, keeps the property. */
  lemma MappedSnoc<U>(a: seq<U>, b: seq<U>, cmp: (U, U) -> int, r: seq<int>, e: int)
    requires MappedPairsNotDistinct(a, b, cmp, r) && |r| < |a|
    requires 0 <= e < |b| ==> cmp(a[|r|], b[e]) < COMPARED_DISTINCT
    ensures MappedPairsNotDistinct(a, b, cmp, r + [e])
  {
    var r2 := r + [e];
    assert forall k :: 0 <= k < |r| ==> r2[k] == r[k];
  }

  lemma AlignMapsOnlyNonDistinct<U>(a: seq<U>, b: seq<U>, cmp: (U, U) -> int, i: nat, j: nat)
    requires i <= |a| && j <= |b|
    ensures MappedPairsNotDistinct(a, b, cmp, Align(a, b, cmp, i, j))
  {
    DistTableKeepIsCheap(a, b, cmp);
    BacktrackMapsOnlyNonDistinct(DistTable(a, b, cmp), a, b, cmp, i, j, Align(a, b, cmp, i, j));
  }

  function AllUnmapped(n: nat): (r: seq<int>)
    ensures |r| == n && forall k :: 0 <= k < n ==> r[k] == -1
  {
    seq(n, _ => -1)
  }

  function Identity(n: nat): (r: seq<int>)
    ensures |r| == n && forall k :: 0 <= k < n ==> r[k] == k
  {
    seq(n, k => k)
  }

  /** What `mapLists` answers, branch by branch. */
  function MapListsSpec<U>(a: seq<U>, b: seq<U>, cmp: (U, U) -> int): seq<int> {
    if |a| == 0 && |b| == 0 then []
    else if |a| == 0 || |b| == 0 then AllUnmapped(|a|)
    else if |a| == |b| && AllSimilar(a, b, cmp) then Identity(|a|)
    else Align(a, b, cmp, |a|, |b|)
  }

  /** Against an empty list the backtrace only deletes (or only inserts). */
  lemma {:induction false} BacktrackAgainstEmpty(d: (int, int) -> int, i: nat, j: nat)
    requires i == 0 || j == 0
    ensures Backtrack(d, i, j) == AllUnmapped(i)
    decreases i + j
  {
    if i == 0 && j > 0 {
      BacktrackAgainstEmpty(d, i, j - 1);
    } else if i > 0 {
      BacktrackAgainstEmpty(d, i - 1, j);
      assert AllUnmapped(i) == AllUnmapped(i - 1) + [-1];
    }
  }

  lemma AlignAgainstEmpty<U>(a: seq<U>, b: seq<U>, cmp: (U, U) -> int, i: nat, j: nat)
    requires i <= |a| && j <= |b| && (i == 0 || j == 0)
    ensures Align(a, b, cmp, i, j) == AllUnmapped(i)
  {
    BacktrackAgainstEmpty(DistTable(a, b, cmp), i, j);
  }

  lemma {:induction false} AlignDiagonal<U>(a: seq<U>, b: seq<U>, cmp: (U, U) -> int, k: nat)
    requires |a| == |b| && k <= |a|
    requires NonNegativeCosts(a, b, cmp) && AllSimilar(a, b, cmp)
    ensures Align(a, b, cmp, k, k) == Identity(k)
  {
    if k > 0 {
      AlignDiagonal(a, b, cmp, k - 1);
      DiagonalStep(a, b, cmp, k);
      assert Identity(k) == Identity(k - 1) + [k - 1];
    }
  }

  /** On the fast path the backtrace keeps and maps each diagonal pair. */
  lemma DiagonalStep<U>(a: seq<U>, b: seq<U>, cmp: (U, U) -> int, k: nat)
    requires |a| == |b| && 0 < k <= |a|
    requires NonNegativeCosts(a, b, cmp) && AllSimilar(a, b, cmp)
    ensures Align(a, b, cmp, k, k) == Align(a, b, cmp, k - 1, k - 1) + [k - 1]
  {
    var d := DistTable(a, b, cmp);
    DiagonalDistZero(a, b, cmp, k - 1);
    DiagonalDistZero(a, b, cmp, k);
    DistLowerBound(a, b, cmp, k - 1, k);
    DistLowerBound(a, b, cmp, k, k - 1);
    assert d(k - 1, k - 1) == 0 && d(k, k) == 0;
    assert d(k - 1, k) >= 0 && d(k, k - 1) >= 0;
    assert KeepGuard(d, k, k);
    var s := BacktrackShape(d, k, k);
    assert s.KeepMapped?;
  }

  /**
   * The empty-list answers and the fast path are shortcuts: with non-negative costs the
   * answer is always the backtrace of the full table.
   */
  lemma MapListsIsAlign<U>(a: seq<U>, b: seq<U>, cmp: (U, U) -> int)
    requires NonNegativeCosts(a, b, cmp)
    ensures MapListsSpec(a, b, cmp) == Align(a, b, cmp, |a|, |b|)
  {
    if |a| == 0 || |b| == 0 {
      AlignAgainstEmpty(a, b, cmp, |a|, |b|);
    } else if |a| == |b| && AllSimilar(a, b, cmp) {
      AlignDiagonal(a, b, cmp, |a|);
    }
  }

  /**
   * The mapping has one entry per element of `a`, maps into `b` in increasing order (so no
   * element of `b` is used twice), and pairs only elements that are not distinct.
   */
  lemma MapListsProperties<U>(a: seq<U>, b: seq<U>, cmp: (U, U) -> int)
    requires NonNegativeCosts(a, b, cmp)
    ensures |MapListsSpec(a, b, cmp)| == |a|
    ensures MonotoneMapping(MapListsSpec(a, b, cmp), |b|)
    ensures MappedPairsNotDistinct(a, b, cmp, MapListsSpec(a, b, cmp))
  {
    MapListsIsAlign(a, b, cmp);
    AlignMonotone(a, b, cmp, |a|, |b|);
    AlignMapsOnlyNonDistinct(a, b, cmp, |a|, |b|);
  }

  /** Position of cell (i, j) in the flat table whose columns are `size` cells long. */
  function Cell(i: nat, j: nat, size: nat): nat { i + j * size }

  lemma {:induction false} MulMonotone(x: nat, y: nat, s: nat)
    requires x <= y
    ensures x * s <= y * s
    decreases y - x
  {
    if x < y {
      MulMonotone(x, y - 1, s);
      assert y * s == (y - 1) * s + s;
    }
  }

  lemma CellInRange(i: nat, j: nat, size: nat, cols: nat)
    requires i < size && j < cols
    ensures Cell(i, j, size) < size * cols
  {
    MulMonotone(j, cols - 1, size);
    assert (cols - 1) * size + size == size * cols;
  }

  lemma CellInjective(i: nat, j: nat, i2: nat, j2: nat, size: nat)
    requires i < size && i2 < size
    requires Cell(i, j, size) == Cell(i2, j2, size)
    ensures i == i2 && j == j2
  {
    if j < j2 {
      MulMonotone(j + 1, j2, size);
    } else if j2 < j {
      MulMonotone(j2 + 1, j, size);
    }
  }

  /**
   * `v` holds the distance at every cell of the columns before `j`, of row 0, and of column `j`
   * above row `i`.
   */
  predicate TableMatches<U>(a: seq<U>, b: seq<U>, cmp: (U, U) -> int, v: seq<int>, size: nat, i: nat, j: nat)
    requires size == |a| + 1
  {
    forall ii: nat, jj: nat :: ii <= |a| && jj <= |b| && (jj < j || (jj == j && ii < i) || ii == 0)
      ==> Cell(ii, jj, size) < |v| && v[Cell(ii, jj, size)] == Dist(a, b, cmp, ii, jj)
  }

  lemma ReadCell<U>(a: seq<U>, b: seq<U>, cmp: (U, U) -> int, v: seq<int>, size: nat, ii: nat, jj: nat)
    requires size == |a| + 1 && ii <= |a| && jj <= |b|
    requires TableMatches(a, b, cmp, v, size, 1, |b| + 1)
    ensures Cell(ii, jj, size) < |v| && v[Cell(ii, jj, size)] == Dist(a, b, cmp, ii, jj)
  {
  }

  lemma NextColumn<U>(a: seq<U>, b: seq<U>, cmp: (U, U) -> int, v: seq<int>, size: nat, j: nat)
    requires size == |a| + 1
    requires TableMatches(a, b, cmp, v, size, |a| + 1, j)
    ensures TableMatches(a, b, cmp, v, size, 1, j + 1)
  {
  }

  /** The first two loops of `mapLists`: row 0 and column 0 of the table. */
  method FillBorders<U>(a: seq<U>, b: seq<U>, cmp: (U, U) -> int, size: nat) returns (v: array<int>)
    requires size == |a| + 1
    ensures fresh(v) && v.Length == size * (|b| + 1)
    ensures TableMatches(a, b, cmp, v[..], size, 1, 1)
  {
    v := new int[size * (|b| + 1)](_ => 0);
    CellInRange(|a|, |b|, size, |b| + 1);
    FillRowZero(v, size);
    FillColumnZero(v, size, |b|);
    BordersMatch(a, b, cmp, v[..], size);
  }

  /** Row 0: cell (i, 0), at position i, holds i deletions. */
  method FillRowZero(v: array<int>, size: nat)
    requires 0 < size <= v.Length && v[0] == 0
    modifies v
    ensures forall t :: 0 <= t < size ==> v[t] == t * COMPARED_DISTINCT
  {
    for i := 1 to size
      invariant forall t :: 0 <= t < i ==> v[t] == t * COMPARED_DISTINCT
    {
      v[i + 0] := i * COMPARED_DISTINCT;
    }
  }

  /** Column 0: cell (0, j), at position j * size, holds j insertions; row 0 is kept. */
  method FillColumnZero(v: array<int>, size: nat, sizeB: nat)
    requires 0 < size && v.Length == size * (sizeB + 1)
    requires forall t :: 0 <= t < size ==> v[t] == t * COMPARED_DISTINCT
    modifies v
    ensures forall t :: 0 <= t < size ==> v[t] == t * COMPARED_DISTINCT
    ensures forall jj: nat :: 1 <= jj <= sizeB ==> Cell(0, jj, size) < v.Length && v[Cell(0, jj, size)] == jj * COMPARED_DISTINCT
  {
    for j := 1 to sizeB + 1
      invariant forall t :: 0 <= t < size ==> v[t] == t * COMPARED_DISTINCT
      invariant forall jj: nat :: 1 <= jj < j ==> Cell(0, jj, size) < v.Length && v[Cell(0, jj, size)] == jj * COMPARED_DISTINCT
    {
      CellInRange(0, j, size, sizeB + 1);
      MulMonotone(1, j, size);
      var idx := Cell(0, j, size);
      assert size <= idx;
      forall jj: nat | 1 <= jj < j ensures Cell(0, jj, size) != idx {
        if Cell(0, jj, size) == idx { CellInjective(0, jj, 0, j, size); }
      }
      v[idx] := j * COMPARED_DISTINCT;
    }
  }

  lemma BordersMatch<U>(a: seq<U>, b: seq<U>, cmp: (U, U) -> int, v: seq<int>, size: nat)
    requires size == |a| + 1 && |v| == size * (|b| + 1)
    requires forall t :: 0 <= t < size ==> v[t] == t * COMPARED_DISTINCT
    requires forall jj: nat :: 1 <= jj <= |b| ==> v[Cell(0, jj, size)] == jj * COMPARED_DISTINCT
    ensures TableMatches(a, b, cmp, v, size, 1, 1)
  {
    forall ii: nat, jj: nat | ii <= |a| && jj <= |b| && (jj < 1 || (jj == 1 && ii < 1) || ii == 0)
      ensures Cell(ii, jj, size) < |v| && v[Cell(ii, jj, size)] == Dist(a, b, cmp, ii, jj)
    {
      CellInRange(ii, jj, size, |b| + 1);
      if jj == 0 {
        assert Cell(ii, jj, size) == ii;
      }
    }
  }

  /** Writing cell (i, j) with its distance extends the filled region by that one cell. */
  method WriteCell<U>(a: seq<U>, b: seq<U>, cmp: (U, U) -> int, v: array<int>, size: nat, i: nat, j: nat, x: int)
    requires size == |a| + 1 && 1 <= i <= |a| && 1 <= j <= |b|
    requires v.Length == size * (|b| + 1)
    requires TableMatches(a, b, cmp, v[..], size, i, j)
    requires x == Dist(a, b, cmp, i, j)
    modifies v
    ensures TableMatches(a, b, cmp, v[..], size, i + 1, j)
  {
    CellInRange(i, j, size, |b| + 1);
    v[Cell(i, j, size)] := x;
    forall ii: nat, jj: nat | ii <= |a| && jj <= |b| && (jj < j || (jj == j && ii < i + 1) || ii == 0)
      ensures Cell(ii, jj, size) < v.Length && v[Cell(ii, jj, size)] == Dist(a, b, cmp, ii, jj)
    {
      CellInRange(ii, jj, size, |b| + 1);
      if (ii, jj) != (i, j) && Cell(ii, jj, size) == Cell(i, j, size) {
        CellInjective(ii, jj, i, j, size);
      }
    }
  }

  /** One column of the third loop of `mapLists`, top to bottom. */
  method FillColumn<U>(a: seq<U>, b: seq<U>, cmp: (U, U) -> int, v: array<int>, size: nat, j: nat)
    requires size == |a| + 1 && 1 <= j <= |b|
    requires v.Length == size * (|b| + 1)
    requires TableMatches(a, b, cmp, v[..], size, 1, j)
    modifies v
    ensures TableMatches(a, b, cmp, v[..], size, 1, j + 1)
  {
    for i := 1 to |a| + 1
      invariant TableMatches(a, b, cmp, v[..], size, i, j)
    {
      CellInRange(i - 1, j, size, |b| + 1);
      CellInRange(i, j - 1, size, |b| + 1);
      CellInRange(i - 1, j - 1, size, |b| + 1);
      assert v[i - 1 + j * size] == Dist(a, b, cmp, i - 1, j);
      assert v[i + (j - 1) * size] == Dist(a, b, cmp, i, j - 1);
      assert v[i - 1 + (j - 1) * size] == Dist(a, b, cmp, i - 1, j - 1);
      var cost := cmp(a[i - 1], b[j - 1]);
      WriteCell(a, b, cmp, v, size, i, j,
        Min(Min(v[i - 1 + j * size] + COMPARED_DISTINCT,
                v[i + (j - 1) * size] + COMPARED_DISTINCT),
            v[i - 1 + (j - 1) * size] + cost));
    }
    NextColumn(a, b, cmp, v[..], size, j);
  }

  /** The whole table, cell (i, j) at position i + j * size. */
  method FillTable<U>(a: seq<U>, b: seq<U>, cmp: (U, U) -> int, size: nat) returns (v: array<int>)
    requires size == |a| + 1
    ensures fresh(v) && v.Length == size * (|b| + 1)
    ensures TableMatches(a, b, cmp, v[..], size, 1, |b| + 1)
  {
    v := FillBorders(a, b, cmp, size);
    for j := 1 to |b| + 1
      invariant TableMatches(a, b, cmp, v[..], size, 1, j)
    {
      FillColumn(a, b, cmp, v, size, j);
    }
  }

  /** The three steps of the backtrace, one lemma each. */
  lemma AlignKeep<U>(a: seq<U>, b: seq<U>, cmp: (U, U) -> int, i: nat, j: nat)
    requires 0 < i <= |a| && 0 < j <= |b|
    requires Dist(a, b, cmp, i - 1, j - 1) <= Dist(a, b, cmp, i - 1, j)
    requires Dist(a, b, cmp, i - 1, j - 1) <= Dist(a, b, cmp, i, j - 1)
    ensures Align(a, b, cmp, i, j) == Align(a, b, cmp, i - 1, j - 1)
      + [if Dist(a, b, cmp, i, j) - Dist(a, b, cmp, i - 1, j - 1) >= COMPARED_DISTINCT then -1 else j - 1]
  {
  }

  lemma AlignDelete<U>(a: seq<U>, b: seq<U>, cmp: (U, U) -> int, i: nat, j: nat)
    requires 0 < i <= |a| && j <= |b|
    requires j == 0 || (!(Dist(a, b, cmp, i - 1, j - 1) <= Dist(a, b, cmp, i - 1, j)
                          && Dist(a, b, cmp, i - 1, j - 1) <= Dist(a, b, cmp, i, j - 1))
                        && Dist(a, b, cmp, i - 1, j) < Dist(a, b, cmp, i, j - 1))
    ensures Align(a, b, cmp, i, j) == Align(a, b, cmp, i - 1, j) + [-1]
  {
  }

  lemma AlignInsert<U>(a: seq<U>, b: seq<U>, cmp: (U, U) -> int, i: nat, j: nat)
    requires i <= |a| && 0 < j <= |b|
    requires i == 0 || (!(Dist(a, b, cmp, i - 1, j - 1) <= Dist(a, b, cmp, i - 1, j)
                          && Dist(a, b, cmp, i - 1, j - 1) <= Dist(a, b, cmp, i, j - 1))
                        && !(Dist(a, b, cmp, i - 1, j) < Dist(a, b, cmp, i, j - 1)))
    ensures Align(a, b, cmp, i, j) == Align(a, b, cmp, i, j - 1)
  {
  }

  /** Reads cell (i, j) and its three neighbours toward the origin. */
  method ReadCosts<U>(a: seq<U>, b: seq<U>, cmp: (U, U) -> int, v: array<int>, size: nat, i: nat, j: nat)
    returns (c: int, delCost: int, insCost: int, keepCost: int)
    requires size == |a| + 1 && 0 < i <= |a| && 0 < j <= |b|
    requires TableMatches(a, b, cmp, v[..], size, 1, |b| + 1)
    ensures c == Dist(a, b, cmp, i, j)
    ensures delCost == Dist(a, b, cmp, i - 1, j) && insCost == Dist(a, b, cmp, i, j - 1)
    ensures keepCost == Dist(a, b, cmp, i - 1, j - 1)
  {
    ReadCell(a, b, cmp, v[..], size, i, j);
    ReadCell(a, b, cmp, v[..], size, i - 1, j);
    ReadCell(a, b, cmp, v[..], size, i, j - 1);
    ReadCell(a, b, cmp, v[..], size, i - 1, j - 1);
    c := v[Cell(i, j, size)];
    delCost := v[Cell(i - 1, j, size)];
    insCost := v[Cell(i, j - 1, size)];
    keepCost := v[Cell(i - 1, j - 1, size)];
  }

  /**
   * Writes the entry for element i - 1 in front of the entries already written. When the
   * alignment up to (i, j) is the one before it plus `e`, the alignment still to be walked
   * together with what is written stays the same.
   */
  method WriteEntry(ret: array<int>, i: nat, e: int, ghost whole: seq<int>, ghost front: seq<int>)
    requires 0 < i <= ret.Length && whole == front + [e]
    modifies ret
    ensures ret[i - 1..] == [e] + old(ret[i..])
    ensures whole + old(ret[i..]) == front + ret[i - 1..]
  {
    ghost var tail := ret[i..];
    ret[i - 1] := e;
    assert ret[i - 1..] == [ret[i - 1]] + tail;
  }

  /** One turn of the last loop of `mapLists` away from the table's borders. */
  method InnerStep<U>(a: seq<U>, b: seq<U>, cmp: (U, U) -> int, ret: array<int>, i: nat, j: nat,
                      c: int, delCost: int, insCost: int, keepCost: int) returns (i2: nat, j2: nat)
    requires ret.Length == |a| && 0 < i <= |a| && 0 < j <= |b|
    requires c == Dist(a, b, cmp, i, j)
    requires delCost == Dist(a, b, cmp, i - 1, j) && insCost == Dist(a, b, cmp, i, j - 1)
    requires keepCost == Dist(a, b, cmp, i - 1, j - 1)
    modifies ret
    ensures i2 <= i && j2 <= j && i2 + j2 < i + j
    ensures Align(a, b, cmp, i, j) + old(ret[i..]) == Align(a, b, cmp, i2, j2) + ret[i2..]
  {
    if keepCost <= delCost && keepCost <= insCost {
      AlignKeep(a, b, cmp, i, j);
      var e := if c - keepCost >= COMPARED_DISTINCT then -1 else j - 1;
      WriteEntry(ret, i, e, Align(a, b, cmp, i, j), Align(a, b, cmp, i - 1, j - 1));
      i2, j2 := i - 1, j - 1;
    } else if delCost < insCost {
      AlignDelete(a, b, cmp, i, j);
      WriteEntry(ret, i, -1, Align(a, b, cmp, i, j), Align(a, b, cmp, i - 1, j));
      i2, j2 := i - 1, j;
    } else {
      AlignInsert(a, b, cmp, i, j);
      i2, j2 := i, j - 1;
    }
  }

  /**
   * One turn of the last loop of `mapLists`. On a border the source's Int.MAX_VALUE stand-in
   * for a missing neighbour leaves one move: delete along column 0, insert along row 0.
   */
  method BacktraceStep<U>(a: seq<U>, b: seq<U>, cmp: (U, U) -> int, v: array<int>, size: nat,
                          ret: array<int>, i: nat, j: nat) returns (i2: nat, j2: nat)
    requires size == |a| + 1 && ret.Length == |a| && ret != v
    requires TableMatches(a, b, cmp, v[..], size, 1, |b| + 1)
    requires i <= |a| && j <= |b| && (i > 0 || j > 0)
    modifies ret
    ensures i2 <= i && j2 <= j && i2 + j2 < i + j
    ensures Align(a, b, cmp, i, j) + old(ret[i..]) == Align(a, b, cmp, i2, j2) + ret[i2..]
  {
    if i > 0 && j > 0 {
      var c, delCost, insCost, keepCost := ReadCosts(a, b, cmp, v, size, i, j);
      i2, j2 := InnerStep(a, b, cmp, ret, i, j, c, delCost, insCost, keepCost);
    } else if i > 0 {
      AlignDelete(a, b, cmp, i, j);
      WriteEntry(ret, i, -1, Align(a, b, cmp, i, j), Align(a, b, cmp, i - 1, j));
      i2, j2 := i - 1, j;
    } else {
      AlignInsert(a, b, cmp, i, j);
      i2, j2 := i, j - 1;
    }
  }

  /**
   * The last loop of `mapLists`: walks back from the last cell, writing one entry per element
   * of `a` it passes.
   */
  method Backtrace<U>(a: seq<U>, b: seq<U>, cmp: (U, U) -> int, v: array<int>, size: nat) returns (r: seq<int>)
    requires size == |a| + 1
    requires TableMatches(a, b, cmp, v[..], size, 1, |b| + 1)
    ensures r == Align(a, b, cmp, |a|, |b|)
  {
    var ret := new int[|a|](_ => 0);
    var i: nat, j: nat := |a|, |b|;
    assert ret[|a|..] == [];
    while i > 0 || j > 0
      invariant i <= |a| && j <= |b|
      invariant TableMatches(a, b, cmp, v[..], size, 1, |b| + 1)
      invariant Align(a, b, cmp, |a|, |b|) == Align(a, b, cmp, i, j) + ret[i..]
      decreases i + j
    {
      i, j := BacktraceStep(a, b, cmp, v, size, ret, i, j);
    }
    r := ret[..];
  }

  /**
   * The empty-list and fast-path answers first; otherwise the full table and its backtrace.
   * The result array is returned as its contents.
   */
  method MapLists<U>(a: seq<U>, b: seq<U>, cmp: (U, U) -> int) returns (r: seq<int>)
    ensures r == MapListsSpec(a, b, cmp)
  {
    var sizeA, sizeB := |a|, |b|;
    if sizeA == 0 && sizeB == 0 { return []; }
    var ret := new int[sizeA](_ => 0);
    if sizeA == 0 || sizeB == 0 {
      for k := 0 to sizeA
        invariant forall t :: 0 <= t < k ==> ret[t] == -1
      {
        ret[k] := -1;
      }
      return ret[..];
    }
    if sizeA == sizeB {
      var same := AllPositionsSimilar(a, b, cmp);
      if same {
        for k := 0 to sizeA
          invariant forall t :: 0 <= t < k ==> ret[t] == t
        {
          ret[k] := k;
        }
        return ret[..];
      }
    }
    var v := FillTable(a, b, cmp, sizeA + 1);
    r := Backtrace(a, b, cmp, v, sizeA + 1);
  }
}
