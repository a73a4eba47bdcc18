/**
 * The cheap pre-filter of the matcher: potential equality of classes, methods and fields
 * and the shape checks ("maybe equal") it falls back on (ClassifierUtil.kt lines 21-115).
 */
module PotentialEquality {

  import opened Wrappers
  import opened JvmTypes
  import opened Entries

  // ---------------------------------------------------------------------------------------
  // Maybe-equality: shape checks that ignore names.

  /**
   * Two (possibly absent) classes have the same shape: both absent, or both present with
   * same-shaped superclasses and equally many interfaces.
   */
  function ClassMaybeEqual(a: Option<ClassEntry>, b: Option<ClassEntry>): (r: bool)
    ensures a.None? && b.None? ==> r
    ensures a.None? != b.None? ==> !r
    ensures r && a.Some? ==> |a.value.interfaces| == |b.value.interfaces|
    decreases a
  {
    match (a, b)
    case (None, None) => true
    case (Some(x), Some(y)) =>
      ClassMaybeEqual(x.superClass, y.superClass) && |x.interfaces| == |y.interfaces|
    case _ => false
  }

  /** The interface counts along a superclass chain, starting at the class itself. */
  function InterfaceProfile(c: Option<ClassEntry>): (p: seq<nat>)
    decreases c
  {
    match c
    case None => []
    case Some(x) => [|x.interfaces|] + InterfaceProfile(x.superClass)
  }

  /**
   * Class maybe-equality compares exactly the superclass chains' lengths and their
   * interface counts, level by level.
   */
  lemma {:induction false} ClassMaybeEqualIffSameProfile(a: Option<ClassEntry>, b: Option<ClassEntry>)
    ensures ClassMaybeEqual(a, b) <==> InterfaceProfile(a) == InterfaceProfile(b)
    decreases a
  {
    match (a, b)
    case (None, None) =>
    case (Some(x), Some(y)) =>
      ClassMaybeEqualIffSameProfile(x.superClass, y.superClass);
      var px, py := InterfaceProfile(x.superClass), InterfaceProfile(y.superClass);
      assert InterfaceProfile(a) == [|x.interfaces|] + px;
      assert InterfaceProfile(b) == [|y.interfaces|] + py;
      if InterfaceProfile(a) == InterfaceProfile(b) {
        assert InterfaceProfile(a)[0] == InterfaceProfile(b)[0];
        assert InterfaceProfile(a)[1..] == px && InterfaceProfile(b)[1..] == py;
      }
    case (None, Some(y)) =>
      assert |InterfaceProfile(b)| > 0;
    case (Some(x), None) =>
      assert |InterfaceProfile(a)| > 0;
  }

  /** Class maybe-equality is therefore an equivalence relation. */
  lemma ClassMaybeEqualIsEquivalence(a: Option<ClassEntry>, b: Option<ClassEntry>, c: Option<ClassEntry>)
    ensures ClassMaybeEqual(a, a)
    ensures ClassMaybeEqual(a, b) ==> ClassMaybeEqual(b, a)
    ensures ClassMaybeEqual(a, b) && ClassMaybeEqual(b, c) ==> ClassMaybeEqual(a, c)
  {
    ClassMaybeEqualIffSameProfile(a, a);
    ClassMaybeEqualIffSameProfile(a, b);
    ClassMaybeEqualIffSameProfile(b, a);
    ClassMaybeEqualIffSameProfile(b, c);
    ClassMaybeEqualIffSameProfile(a, c);
  }

  /**
   * Two methods have the same shape: signatures of equal size, maybe-equal return types and
   * maybe-equal argument types at every index below that size.
   */
  function MethodMaybeEqual(a: MethodEntry, b: MethodEntry): (r: bool)
    ensures r <==> && a.sig.size == b.sig.size
                   && TypesMaybeEqual(a.sig.ret, b.sig.ret)
                   && forall i :: 0 <= i < a.sig.size ==> TypesMaybeEqual(a.sig.args[i], b.sig.args[i])
  {
    var sa, sb := a.sig, b.sig;
    sa.size == sb.size
    && TypesMaybeEqual(sa.ret, sb.ret)
    && ArgsMaybeEqual(sa, sb, 0)
  }

  /** The argument loop, from index `i` up to the signature size. */
  function ArgsMaybeEqual(sa: Signature, sb: Signature, i: nat): (r: bool)
    requires sa.size == sb.size
    ensures r <==> forall k :: i <= k < sa.size ==> TypesMaybeEqual(sa.args[k], sb.args[k])
    decreases sa.size - i
  {
    if i >= sa.size then true
    else TypesMaybeEqual(sa.args[i], sb.args[i]) && ArgsMaybeEqual(sa, sb, i + 1)
  }

  /** Method maybe-equality is an equivalence relation, inherited from the type check. */
  lemma MethodMaybeEqualIsEquivalence(a: MethodEntry, b: MethodEntry, c: MethodEntry)
    ensures MethodMaybeEqual(a, a)
    ensures MethodMaybeEqual(a, b) ==> MethodMaybeEqual(b, a)
    ensures MethodMaybeEqual(a, b) && MethodMaybeEqual(b, c) ==> MethodMaybeEqual(a, c)
  {
    TypesMaybeEqualIsEquivalence(a.sig.ret, b.sig.ret, c.sig.ret);
    forall i | 0 <= i < a.sig.size
      ensures TypesMaybeEqual(a.sig.args[i], a.sig.args[i])
    {
      TypesMaybeEqualIsEquivalence(a.sig.args[i], a.sig.args[i], a.sig.args[i]);
    }
    if MethodMaybeEqual(a, b) {
      forall i | 0 <= i < b.sig.size
        ensures TypesMaybeEqual(b.sig.args[i], a.sig.args[i])
      {
        TypesMaybeEqualIsEquivalence(a.sig.args[i], b.sig.args[i], a.sig.args[i]);
      }
      if MethodMaybeEqual(b, c) {
        forall i | 0 <= i < a.sig.size
          ensures TypesMaybeEqual(a.sig.args[i], c.sig.args[i])
        {
          TypesMaybeEqualIsEquivalence(a.sig.args[i], b.sig.args[i], c.sig.args[i]);
        }
      }
    }
  }

  /**
   * Two (possibly absent) fields have the same shape: both absent, or both present with the
   * same static flag and maybe-equal types.
   */
  function FieldMaybeEqual(a: Option<FieldEntry>, b: Option<FieldEntry>): (r: bool)
    ensures a.None? && b.None? ==> r
    ensures a.None? != b.None? ==> !r
    ensures r && a.Some? ==> a.value.isStatic == b.value.isStatic
    ensures a.Some? && b.Some? && a.value.isStatic == b.value.isStatic ==>
              (r <==> TypesMaybeEqual(a.value.ty, b.value.ty))
  {
    match (a, b)
    case (None, None) => true
    case (Some(x), Some(y)) => x.isStatic == y.isStatic && TypesMaybeEqual(x.ty, y.ty)
    case _ => false
  }

  // ---------------------------------------------------------------------------------------
  // Potential equality.

  /**
   * A class of one snapshot may correspond to a class of the other. An existing match
   * decides on its own; otherwise array-ness must agree, array element classes must be
   * potentially equal, and the shapes must be maybe-equal.
   */
  function ClassPotentiallyEqual(a: ClassEntry, b: ClassEntry): (r: bool)
    ensures a == b ==> r
    ensures a != b && a.HasMatch() ==> (r <==> a.matchId == Some(b.id))
    ensures a != b && !a.HasMatch() && b.HasMatch() ==> (r <==> b.matchId == Some(a.id))
    ensures a != b && !a.HasMatch() && !b.HasMatch() ==>
              (r <==> && a.IsArray() == b.IsArray()
                      && (a.IsArray() ==> ClassPotentiallyEqual(a.elementClass.value, b.elementClass.value))
                      && ClassMaybeEqual(Some(a), Some(b)))
    decreases a
  {
    if a == b then true
    else if a.HasMatch() then a.matchId == Some(b.id)
    else if b.HasMatch() then b.matchId == Some(a.id)
    else if a.IsArray() != b.IsArray() then false
    else if a.IsArray() && !ClassPotentiallyEqual(a.elementClass.value, b.elementClass.value) then false
    else ClassMaybeEqual(Some(a), Some(b))
  }

  /**
   * A method of one snapshot may correspond to a method of the other. Without a match:
   * owners must be potentially equal unless one method is static, initializer names must
   * agree exactly, and the signatures must be maybe-equal.
   */
  function MethodPotentiallyEqual(a: MethodEntry, b: MethodEntry): (r: bool)
    ensures a == b ==> r
    ensures a != b && a.HasMatch() ==> (r <==> a.matchId == Some(b.id))
    ensures a != b && !a.HasMatch() && b.HasMatch() ==> (r <==> b.matchId == Some(a.id))
    ensures a != b && !a.HasMatch() && !b.HasMatch() ==>
              (r <==> && (!a.isStatic && !b.isStatic ==> ClassPotentiallyEqual(a.cls, b.cls))
                      && (IsInitializerName(a.name) || IsInitializerName(b.name) ==> a.name == b.name)
                      && MethodMaybeEqual(a, b))
  {
    if a == b then true
    else if a.HasMatch() then a.matchId == Some(b.id)
    else if b.HasMatch() then b.matchId == Some(a.id)
    else if !a.isStatic && !b.isStatic && !ClassPotentiallyEqual(a.cls, b.cls) then false
    else if (IsInitializerName(a.name) || IsInitializerName(b.name)) && a.name != b.name then false
    else MethodMaybeEqual(a, b)
  }

  /**
   * A field of one snapshot may correspond to a field of the other. Without a match:
   * owners must be potentially equal unless one field is static, and the fields must be
   * maybe-equal (same static flag, maybe-equal types).
   */
  function FieldPotentiallyEqual(a: FieldEntry, b: FieldEntry): (r: bool)
    ensures a == b ==> r
    ensures a != b && a.HasMatch() ==> (r <==> a.matchId == Some(b.id))
    ensures a != b && !a.HasMatch() && b.HasMatch() ==> (r <==> b.matchId == Some(a.id))
    ensures a != b && !a.HasMatch() && !b.HasMatch() ==>
              (r <==> && (!a.isStatic && !b.isStatic ==> ClassPotentiallyEqual(a.cls, b.cls))
                      && a.isStatic == b.isStatic && TypesMaybeEqual(a.ty, b.ty))
  {
    if a == b then true
    else if a.HasMatch() then a.matchId == Some(b.id)
    else if b.HasMatch() then b.matchId == Some(a.id)
    else if !a.isStatic && !b.isStatic && !ClassPotentiallyEqual(a.cls, b.cls) then false
    else FieldMaybeEqual(Some(a), Some(b))
  }

  /** Nullable variants: two absent references are equal, one absent reference never is. */
  function ClassPotentiallyEqualNullable(a: Option<ClassEntry>, b: Option<ClassEntry>): (r: bool)
    ensures a.None? && b.None? ==> r
    ensures a.None? != b.None? ==> !r
    ensures a.Some? && b.Some? ==> r == ClassPotentiallyEqual(a.value, b.value)
  {
    if a.None? && b.None? then true
    else if a.None? || b.None? then false
    else ClassPotentiallyEqual(a.value, b.value)
  }

  function MethodPotentiallyEqualNullable(a: Option<MethodEntry>, b: Option<MethodEntry>): (r: bool)
    ensures a.None? && b.None? ==> r
    ensures a.None? != b.None? ==> !r
    ensures a.Some? && b.Some? ==> r == MethodPotentiallyEqual(a.value, b.value)
  {
    if a.None? && b.None? then true
    else if a.None? || b.None? then false
    else MethodPotentiallyEqual(a.value, b.value)
  }

  function FieldPotentiallyEqualNullable(a: Option<FieldEntry>, b: Option<FieldEntry>): (r: bool)
    ensures a.None? && b.None? ==> r
    ensures a.None? != b.None? ==> !r
    ensures a.Some? && b.Some? ==> r == FieldPotentiallyEqual(a.value, b.value)
  {
    if a.None? && b.None? then true
    else if a.None? || b.None? then false
    else FieldPotentiallyEqual(a.value, b.value)
  }

  // ---------------------------------------------------------------------------------------
  // Symmetry under a consistent match relation.

  /**
   * The match relation is consistent on a pair of classes: one points at the other exactly
   * when the other points back, and likewise for their element classes.
   */
  predicate MatchesAgree(a: ClassEntry, b: ClassEntry)
    decreases a
  {
    && (a.matchId == Some(b.id) <==> b.matchId == Some(a.id))
    && (a.IsArray() && b.IsArray() ==> MatchesAgree(a.elementClass.value, b.elementClass.value))
  }

  /** Under a consistent match relation, class potential equality is symmetric. */
  lemma {:induction false} ClassPotentiallyEqualSymmetric(a: ClassEntry, b: ClassEntry)
    requires MatchesAgree(a, b)
    ensures ClassPotentiallyEqual(a, b) == ClassPotentiallyEqual(b, a)
    decreases a
  {
    ClassMaybeEqualIsEquivalence(Some(a), Some(b), Some(b));
    ClassMaybeEqualIsEquivalence(Some(b), Some(a), Some(a));
    if a != b && !a.HasMatch() && !b.HasMatch() && a.IsArray() && b.IsArray() {
      ClassPotentiallyEqualSymmetric(a.elementClass.value, b.elementClass.value);
    }
  }

  /**
   * The method filter is symmetric when no match of one method points at the other while the
   * other points elsewhere, and the owners' matches agree.
   */
  lemma MethodPotentiallyEqualSymmetric(a: MethodEntry, b: MethodEntry)
    requires a.matchId == Some(b.id) ==> b.matchId.None? || b.matchId == Some(a.id)
    requires b.matchId == Some(a.id) ==> a.matchId.None? || a.matchId == Some(b.id)
    requires MatchesAgree(a.cls, b.cls)
    ensures MethodPotentiallyEqual(a, b) == MethodPotentiallyEqual(b, a)
  {
    ClassPotentiallyEqualSymmetric(a.cls, b.cls);
    MethodMaybeEqualIsEquivalence(a, b, a);
    MethodMaybeEqualIsEquivalence(b, a, b);
  }

  /**
   * The field filter is symmetric when no match of one field points at the other while the
   * other points elsewhere, and the owners' matches agree.
   */
  lemma FieldPotentiallyEqualSymmetric(a: FieldEntry, b: FieldEntry)
    requires a.matchId == Some(b.id) ==> b.matchId.None? || b.matchId == Some(a.id)
    requires b.matchId == Some(a.id) ==> a.matchId.None? || a.matchId == Some(b.id)
    requires MatchesAgree(a.cls, b.cls)
    ensures FieldPotentiallyEqual(a, b) == FieldPotentiallyEqual(b, a)
  {
    ClassPotentiallyEqualSymmetric(a.cls, b.cls);
    TypesMaybeEqualIsEquivalence(a.ty, b.ty, a.ty);
  }

}
