/**
 * Bag similarity (ClassifierUtil.kt lines 153-238): counts, plain sets (a Jaccard ratio)
 * and sets of matchable entities compared by a three-pass greedy scheme.
 */
module SetSimilarity {

  import opened Wrappers
  import opened Entries
  import opened PotentialEquality
  import opened Arithmetic

  lemma OneMinusRatio(d: real, m: real)
    requires m != 0.0
    ensures 1.0 - d / m == (m - d) / m
  {
    var x, y := 1.0 - d / m, (m - d) / m;
    assert y * m == m - d;
    assert x * m == m - d / m * m;
    assert d / m * m == d;
    assert (x - y) * m == 0.0;
    if x != y {
      assert false;
    }
  }

  /**
   * Similarity of two counts: 1 when equal, otherwise one minus their difference relative to
   * the larger, which is the ratio of the smaller to the larger.
   */
  function CompareCounts(a: nat, b: nat): (r: real)
    ensures 0.0 <= r <= 1.0
    ensures r == 1.0 <==> a == b
    ensures a != b ==> r == Min(a, b) as real / Max(a, b) as real
  {
    var delta := if a >= b then a - b else b - a;
    if delta == 0 then 1.0
    else
      var m := Max(a, b) as real;
      RatioBounds(delta as real, m);
      RatioBounds(Min(a, b) as real, m);
      OneMinusRatio(delta as real, m);
      1.0 - delta as real / m
  }

  /** Count similarity does not depend on the order of its arguments. */
  lemma CompareCountsSymmetric(a: nat, b: nat)
    ensures CompareCounts(a, b) == CompareCounts(b, a)
  {
  }

  // ---------------------------------------------------------------------------------------
  // Plain sets.

  /** |b| splits into the elements shared with `a` and the rest. */
  lemma CardinalitySplit<T>(a: set<T>, b: set<T>)
    ensures |b| == |b - a| + |a * b|
    ensures |a + b| == |a| + |b - a|
  {
    assert b == (b - a) + (a * b);
    assert (b - a) !! (a * b);
    assert a + b == a + (b - a);
    assert a !! (b - a);
  }

  /**
   * Copies both sets, removes `a` from the copy of `b`, and divides what was removed by
   * the size of the union: the Jaccard index, or 1 for two empty sets.
   */
  method CompareSets<T>(a: set<T>, b: set<T>) returns (r: real)
    ensures r == if a + b == {} then 1.0 else |a * b| as real / |a + b| as real
    ensures 0.0 <= r <= 1.0
    ensures r == 1.0 <==> a == b
  {
    var setA := a;
    var setB := b;
    var oldSize := |setB|;
    setB := setB - setA;
    var matched := oldSize - |setB|;
    var total := |setA| - matched + oldSize;
    CardinalitySplit(a, b);
    assert matched == |a * b| && total == |a + b|;
    if total == 0 {
      return 1.0;
    }
    r := matched as real / total as real;
    RatioBounds(matched as real, total as real);
    assert |a * b| <= |a + b| by { SubsetCardinality(a * b, a + b); }
    if matched == total {
      SubsetSameCardinality(a * b, a + b);
      assert a == b by {
        forall z | z in a + b ensures z in a && z in b {
          assert z in a * b;
        }
      }
    }
  }

  lemma SubsetCardinality<T>(s: set<T>, t: set<T>)
    requires s <= t
    ensures |s| <= |t|
  {
    assert t == s + (t - s);
  }

  /** A subset as large as its superset is the superset. */
  lemma SubsetSameCardinality<T>(s: set<T>, t: set<T>)
    requires s <= t && |s| == |t|
    ensures s == t
  {
    assert t == s + (t - s);
    assert |t - s| == 0;
  }

  // ---------------------------------------------------------------------------------------
  // Sets of matchable entities.

  /** The sequence is duplicate-free, as the iteration order of a hash set is. */
  predicate Distinct<T(==)>(s: seq<T>) {
    forall i, j :: 0 <= i < j < |s| ==> s[i] != s[j]
  }

  /** The elements of `bs` that are the entity with handle `id`. */
  function WithHandle<T>(bs: set<T>, idOf: T -> nat, id: nat): (w: set<T>)
    ensures w <= bs
  {
    set y | y in bs && idOf(y) == id
  }

  /** The state of the first pass: the A elements kept, the B elements left, the misses. */
  datatype PassState<T> = PassState(keptA: seq<T>, setB: set<T>, unmatched: nat)

  /**
   * One step of the first pass on the A element `x`: an element also in B leaves both sets;
   * an element with a match removes that match from B, counts a miss when the match is not
   * there, and leaves A; any other element stays in A.
   */
  function IdentityStep<T(==)>(st: PassState<T>, x: T, idOf: T -> nat, matchOf: T -> Option<nat>): PassState<T> {
    if x in st.setB then PassState(st.keptA, st.setB - {x}, st.unmatched)
    else if matchOf(x).Some? then
      var partner := WithHandle(st.setB, idOf, matchOf(x).value);
      PassState(st.keptA, st.setB - partner, if partner == {} then st.unmatched + 1 else st.unmatched)
    else PassState(st.keptA + [x], st.setB, st.unmatched)
  }

  /** The first pass over the remaining A elements `xs`, in iteration order. */
  function IdentityPass<T(==)>(xs: seq<T>, st: PassState<T>, idOf: T -> nat, matchOf: T -> Option<nat>): PassState<T>
    decreases |xs|
  {
    if xs == [] then st else IdentityPass(xs[1..], IdentityStep(st, xs[0], idOf, matchOf), idOf, matchOf)
  }

  /** Some element of `bs` is compatible with the A element `x`. */
  predicate HasPartnerInB<T>(x: T, bs: set<T>, compare: (T, T) -> bool) {
    exists y :: y in bs && compare(x, y)
  }

  /** Some element of `xs` is compatible with the B element `y`. */
  predicate HasPartnerInA<T>(xs: seq<T>, y: T, compare: (T, T) -> bool) {
    exists i :: 0 <= i < |xs| && compare(xs[i], y)
  }

  /** The second pass: the kept A elements that have a compatible B element, in order. */
  function WithPartner<T>(xs: seq<T>, bs: set<T>, compare: (T, T) -> bool): (r: seq<T>)
    ensures |r| <= |xs|
  {
    if xs == [] then []
    else (if HasPartnerInB(xs[0], bs, compare) then [xs[0]] else []) + WithPartner(xs[1..], bs, compare)
  }

  /** The third pass: the remaining B elements without a compatible kept A element. */
  function Unpartnered<T>(bs: set<T>, xs: seq<T>, compare: (T, T) -> bool): (u: set<T>)
    ensures u <= bs
  {
    set y | y in bs && !HasPartnerInA(xs, y, compare)
  }

  /** The number of misses of all three passes. */
  function Misses<T(==)>(a: seq<T>, b: set<T>, compare: (T, T) -> bool,
                         idOf: T -> nat, matchOf: T -> Option<nat>): nat
  {
    var p1 := IdentityPass(a, PassState([], b, 0), idOf, matchOf);
    var kept := WithPartner(p1.keptA, p1.setB, compare);
    p1.unmatched + (|p1.keptA| - |kept|) + |Unpartnered(p1.setB, kept, compare)|
  }

  /**
   * The similarity of two entity sets: 1 for two empty sets, 0 when exactly one is empty,
   * otherwise the fraction of the elements of both sets that were not missed.
   */
  function MatchableSetsSimilarity<T(==)>(a: seq<T>, b: set<T>, compare: (T, T) -> bool,
                                          idOf: T -> nat, matchOf: T -> Option<nat>): real
  {
    if |a| == 0 || |b| == 0 then (if |a| == 0 && |b| == 0 then 1.0 else 0.0)
    else
      var total := |a| + |b|;
      (total - Misses(a, b, compare, idOf, matchOf)) as real / total as real
  }

  /** Each A element is kept or counted at most once in the first pass, and B only shrinks. */
  lemma {:induction false} IdentityPassAccounting<T>(xs: seq<T>, st: PassState<T>, idOf: T -> nat, matchOf: T -> Option<nat>)
    ensures var r := IdentityPass(xs, st, idOf, matchOf);
      && r.unmatched + |r.keptA| <= st.unmatched + |st.keptA| + |xs|
      && r.setB <= st.setB
    decreases |xs|
  {
    if xs != [] {
      IdentityPassAccounting(xs[1..], IdentityStep(st, xs[0], idOf, matchOf), idOf, matchOf);
    }
  }

  /** Every element of either set is missed at most once, so the misses never exceed the total. */
  lemma MissesBounded<T>(a: seq<T>, b: set<T>, compare: (T, T) -> bool,
                             idOf: T -> nat, matchOf: T -> Option<nat>)
    ensures Misses(a, b, compare, idOf, matchOf) <= |a| + |b|
  {
    var p1 := IdentityPass(a, PassState([], b, 0), idOf, matchOf);
    IdentityPassAccounting(a, PassState([], b, 0), idOf, matchOf);
    var kept := WithPartner(p1.keptA, p1.setB, compare);
    var u := Unpartnered(p1.setB, kept, compare);
    assert |u| <= |p1.setB| by { SubsetCardinality(u, p1.setB); }
    assert |p1.setB| <= |b| by { SubsetCardinality(p1.setB, b); }
  }

  /** The similarity of two entity sets always lies in [0, 1]. */
  lemma MatchableSetsSimilarityBounds<T>(a: seq<T>, b: set<T>, compare: (T, T) -> bool,
                                             idOf: T -> nat, matchOf: T -> Option<nat>)
    ensures 0.0 <= MatchableSetsSimilarity(a, b, compare, idOf, matchOf) <= 1.0
  {
    if |a| != 0 && |b| != 0 {
      var total := |a| + |b|;
      var misses := Misses(a, b, compare, idOf, matchOf);
      MissesBounded(a, b, compare, idOf, matchOf);
      RatioBounds((total - misses) as real, total as real);
    }
  }

  /** The inner loop of the second pass: is some B element compatible with `x`? */
  method SomePartnerInB<T>(x: T, bs: set<T>, compare: (T, T) -> bool) returns (found: bool)
    ensures found == HasPartnerInB(x, bs, compare)
  {
    var rest := bs;
    found := false;
    while rest != {}
      invariant rest <= bs
      invariant !found
      invariant HasPartnerInB(x, bs, compare) <==> HasPartnerInB(x, rest, compare)
      decreases |rest|
    {
      var y :| y in rest;
      if compare(x, y) {
        return true;
      }
      rest := rest - {y};
    }
  }

  /** The inner loop of the third pass: is some kept A element compatible with `y`? */
  method SomePartnerInA<T>(xs: seq<T>, y: T, compare: (T, T) -> bool) returns (found: bool)
    ensures found == HasPartnerInA(xs, y, compare)
  {
    for i := 0 to |xs|
      invariant forall k :: 0 <= k < i ==> !compare(xs[k], y)
    {
      if compare(xs[i], y) {
        return true;
      }
    }
    return false;
  }

  /** Pass 1 of the source: the loop over the first set that removes identical and matched elements. */
  method IdentityPassLoop<T(==)>(a: seq<T>, b: set<T>, idOf: T -> nat, matchOf: T -> Option<nat>)
    returns (keptA: seq<T>, setB: set<T>, unmatched: nat)
    ensures PassState(keptA, setB, unmatched) == IdentityPass(a, PassState([], b, 0), idOf, matchOf)
  {
    keptA, setB, unmatched := [], b, 0;
    for i := 0 to |a|
      invariant IdentityPass(a[i..], PassState(keptA, setB, unmatched), idOf, matchOf)
             == IdentityPass(a, PassState([], b, 0), idOf, matchOf)
    {
      var entryA := a[i];
      assert a[i..][0] == entryA && a[i..][1..] == a[i + 1..];
      if entryA in setB {
        setB := setB - {entryA};
      } else if matchOf(entryA).Some? {
        var partner := WithHandle(setB, idOf, matchOf(entryA).value);
        if partner == {} {
          unmatched := unmatched + 1;
        }
        setB := setB - partner;
      } else {
        keptA := keptA + [entryA];
      }
    }
    assert a[|a|..] == [];
  }

  /** Pass 2 of the source: drop and count the kept A elements without a compatible B element. */
  method PartnerPassA<T>(keptA: seq<T>, setB: set<T>, compare: (T, T) -> bool)
    returns (withPartner: seq<T>, misses: nat)
    ensures withPartner == WithPartner(keptA, setB, compare)
    ensures misses == |keptA| - |withPartner|
  {
    withPartner, misses := [], 0;
    for i := 0 to |keptA|
      invariant withPartner + WithPartner(keptA[i..], setB, compare) == WithPartner(keptA, setB, compare)
      invariant misses + |withPartner| == i
    {
      assert keptA[i..][0] == keptA[i] && keptA[i..][1..] == keptA[i + 1..];
      var found := SomePartnerInB(keptA[i], setB, compare);
      if !found {
        misses := misses + 1;
      } else {
        withPartner := withPartner + [keptA[i]];
      }
    }
    assert keptA[|keptA|..] == [];
  }

  /** Pass 3 of the source: count the B elements without a compatible kept A element. */
  method PartnerPassB<T>(setB: set<T>, kept: seq<T>, compare: (T, T) -> bool) returns (misses: nat)
    ensures misses == |Unpartnered(setB, kept, compare)|
  {
    misses := 0;
    var rest := setB;
    ghost var done: set<T> := {};
    while rest != {}
      invariant rest <= setB && done == setB - rest
      invariant misses == |Unpartnered(done, kept, compare)|
      decreases |rest|
    {
      var entryB :| entryB in rest;
      var found := SomePartnerInA(kept, entryB, compare);
      assert Unpartnered(done + {entryB}, kept, compare)
          == Unpartnered(done, kept, compare) + (if found then {} else {entryB});
      if !found {
        misses := misses + 1;
      }
      rest := rest - {entryB};
      done := done + {entryB};
    }
    assert done == setB;
  }

  /**
   * The three passes of the source. `a` is the first set in its iteration order, `b` the
   * second set. Pass 1 removes identical and already matched elements; pass 2 drops, and
   * counts, kept A elements without a compatible B element (partners are not consumed);
   * pass 3 counts B elements without a compatible kept A element.
   */
  method CompareMatchableSets<T(==)>(a: seq<T>, b: set<T>, compare: (T, T) -> bool,
                                     idOf: T -> nat, matchOf: T -> Option<nat>) returns (r: real)
    requires Distinct(a)
    ensures r == MatchableSetsSimilarity(a, b, compare, idOf, matchOf)
    ensures 0.0 <= r <= 1.0
  {
    MatchableSetsSimilarityBounds(a, b, compare, idOf, matchOf);
    if |a| == 0 || |b| == 0 {
      return if |a| == 0 && |b| == 0 then 1.0 else 0.0;
    }
    var total := |a| + |b|;
    var keptA, setB, unmatched := IdentityPassLoop(a, b, idOf, matchOf);
    var withPartner, misses2 := PartnerPassA(keptA, setB, compare);
    var misses3 := PartnerPassB(setB, withPartner, compare);
    unmatched := unmatched + misses2 + misses3;
    return (total - unmatched) as real / total as real;
  }

  /** Class, method and field sets are compared with the matching potential-equality check. */
  method CompareClassSets(a: seq<ClassEntry>, b: set<ClassEntry>) returns (r: real)
    requires Distinct(a)
    ensures r == MatchableSetsSimilarity(a, b, ClassPotentiallyEqual, (c: ClassEntry) => c.id, (c: ClassEntry) => c.matchId)
    ensures 0.0 <= r <= 1.0
  {
    r := CompareMatchableSets(a, b, ClassPotentiallyEqual, (c: ClassEntry) => c.id, (c: ClassEntry) => c.matchId);
  }

  method CompareMethodSets(a: seq<MethodEntry>, b: set<MethodEntry>) returns (r: real)
    requires Distinct(a)
    ensures r == MatchableSetsSimilarity(a, b, MethodPotentiallyEqual, (m: MethodEntry) => m.id, (m: MethodEntry) => m.matchId)
    ensures 0.0 <= r <= 1.0
  {
    r := CompareMatchableSets(a, b, MethodPotentiallyEqual, (m: MethodEntry) => m.id, (m: MethodEntry) => m.matchId);
  }

  method CompareFieldSets(a: seq<FieldEntry>, b: set<FieldEntry>) returns (r: real)
    requires Distinct(a)
    ensures r == MatchableSetsSimilarity(a, b, FieldPotentiallyEqual, (f: FieldEntry) => f.id, (f: FieldEntry) => f.matchId)
    ensures 0.0 <= r <= 1.0
  {
    r := CompareMatchableSets(a, b, FieldPotentiallyEqual, (f: FieldEntry) => f.id, (f: FieldEntry) => f.matchId);
  }

}
