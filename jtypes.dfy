/**
 * JVM type descriptors, reduced to what the shape check of the classifier looks at:
 * the number of array dimensions and the element type that is left once they are
 * stripped (lines 69-85 and 596 of ClassifierUtil.kt).
 */
module JvmTypes {

  import opened Wrappers

  /** Sorts 0 (void) to 8 (double) are the primitive sorts of an ASM type. */
  const MAX_PRIMITIVE_SORT: nat := 8

  /** An element type: its ASM sort and its descriptor. */
  datatype Elem = Elem(sort: nat, descriptor: string)

  /** A type is its array dimension count applied to an element type. */
  datatype JType = JType(dims: nat, elem: Elem)

  /** The primitive test of the classifier: an ASM sort of at most 8 (arrays have sort 9). */
  predicate IsPrimitive(t: JType) {
    t.dims == 0 && t.elem.sort <= MAX_PRIMITIVE_SORT
  }

  /** ASM's element type: every dimension stripped at once. */
  function ElementType(t: JType): (e: JType)
    ensures e.dims == 0 && e.elem == t.elem
  {
    JType(0, t.elem)
  }

  /**
   * Two types may be the same type under renaming: equal dimensions, and identical
   * element types as soon as one of the two elements is primitive.
   */
  predicate TypesMaybeEqual(a: JType, b: JType) {
    && a.dims == b.dims
    && (IsPrimitive(ElementType(a)) || IsPrimitive(ElementType(b)) ==> a.elem == b.elem)
  }

  /**
   * The loop of the source: both types are replaced by their element types while the first
   * still has dimensions, then primitives must be equal and references always pass.
   */
  method IsMaybeEqualType(a: JType, b: JType) returns (r: bool)
    ensures r == TypesMaybeEqual(a, b)
    ensures r ==> a.dims == b.dims
  {
    if a.dims != b.dims {
      return false;
    }
    var ta := a;
    var tb := b;
    while ta.dims > 0
      invariant ta.dims == tb.dims
      invariant ta.elem == a.elem && tb.elem == b.elem
      invariant ta.dims == 0 ==> ta == ElementType(a) && tb == ElementType(b)
      decreases ta.dims
    {
      ta := ElementType(ta);
      tb := ElementType(tb);
    }
    if IsPrimitive(ta) || IsPrimitive(tb) {
      return ta == tb;
    }
    return true;
  }

  /**
   * What the shape check can see of a type: its dimensions, and the element itself
   * only when that element is primitive.
   */
  function Shape(t: JType): (nat, Option<Elem>) {
    (t.dims, if t.elem.sort <= MAX_PRIMITIVE_SORT then Some(t.elem) else None)
  }

  /** Maybe-equality is exactly equality of shapes. */
  lemma MaybeEqualIffSameShape(a: JType, b: JType)
    ensures TypesMaybeEqual(a, b) <==> Shape(a) == Shape(b)
  {
  }

  /** Hence maybe-equality of types is an equivalence relation. */
  lemma TypesMaybeEqualIsEquivalence(a: JType, b: JType, c: JType)
    ensures TypesMaybeEqual(a, a)
    ensures TypesMaybeEqual(a, b) ==> TypesMaybeEqual(b, a)
    ensures TypesMaybeEqual(a, b) && TypesMaybeEqual(b, c) ==> TypesMaybeEqual(a, c)
  {
    MaybeEqualIffSameShape(a, b);
    MaybeEqualIffSameShape(b, a);
    MaybeEqualIffSameShape(b, c);
    MaybeEqualIffSameShape(a, c);
  }

}
