/**
 * Instruction similarity (ClassifierUtil.kt lines 375-540): a per-instruction comparator that
 * dispatches on the node kind, and the list similarity and alignment of two method bodies
 * built on it.
 */
module InsnComparison {

  import opened Wrappers
  import opened Bytecode
  import opened Entries
  import opened PotentialEquality
  import opened SequenceSimilarity
  import opened MatchCaches

  /**
   * The lookups the comparator makes through the global environment: class by internal name
   * in either snapshot, class by id in snapshot B, and member resolution in a class by name,
   * descriptor (and, for methods, whether the owner is an interface).
   */
  datatype Env = Env(
    classA: string -> Option<ClassEntry>,
    classB: string -> Option<ClassEntry>,
    classByIdB: string -> Option<ClassEntry>,
    resolveField: (ClassEntry, string, string) -> Option<FieldEntry>,
    resolveMethod: (ClassEntry, string, string, bool) -> Option<MethodEntry>)

  /** An instruction together with its index in the list it belongs to. */
  datatype Node = Node(pos: int, insn: Insn)

  function Nodes(insns: seq<Insn>): (ns: seq<Node>)
    ensures |ns| == |insns|
    ensures forall k :: 0 <= k < |ns| ==> ns[k] == Node(k, insns[k])
  {
    seq(|insns|, k requires 0 <= k < |insns| => Node(k, insns[k]))
  }

  /** Integer.signum. */
  function Sign(x: int): int { if x > 0 then 1 else if x < 0 then -1 else 0 }

  function Verdict(similar: bool): int { if similar then COMPARED_SIMILAR else COMPARED_DISTINCT }

  /**
   * Two method references compare equal when neither owner is known, never when exactly one
   * is, and otherwise when both resolve to nothing or to potentially equal methods.
   */
  function CompareMethods(env: Env, ownerA: string, nameA: string, descA: string, itfA: bool,
                          ownerB: string, nameB: string, descB: string, itfB: bool): (r: bool)
    ensures env.classA(ownerA).None? && env.classB(ownerB).None? ==> r
    ensures env.classA(ownerA).None? != env.classB(ownerB).None? ==> !r
    ensures env.classA(ownerA).Some? && env.classB(ownerB).Some? ==>
      (r <==> MethodPotentiallyEqualNullable(
                env.resolveMethod(env.classA(ownerA).value, nameA, descA, itfA),
                env.resolveMethod(env.classB(ownerB).value, nameB, descB, itfB)))
  {
    var clsA, clsB := env.classA(ownerA), env.classB(ownerB);
    if clsA.None? && clsB.None? then true
    else if clsA.None? || clsB.None? then false
    else
      var methodA := env.resolveMethod(clsA.value, nameA, descA, itfA);
      var methodB := env.resolveMethod(clsB.value, nameB, descB, itfB);
      if methodA.None? && methodB.None? then true
      else if methodA.None? || methodB.None? then false
      else MethodPotentiallyEqual(methodA.value, methodB.value)
  }

  /** Load-constant comparison, once the opcodes agree. */
  function CompareConstants(env: Env, x: Constant, y: Constant): (r: int)
    ensures r == COMPARED_SIMILAR || r == COMPARED_DISTINCT
    ensures !SameConstantClass(x, y) ==> r == COMPARED_DISTINCT
    ensures SameConstantClass(x, y) && !x.TypeConst? ==> (r == COMPARED_SIMILAR <==> x == y)
    ensures x.TypeConst? && y.TypeConst? && x.sort != y.sort ==> r == COMPARED_DISTINCT
    ensures x.TypeConst? && y.TypeConst? && x.sort == y.sort ==>
      (x.sort != SORT_ARRAY && x.sort != SORT_OBJECT ==> r == COMPARED_SIMILAR)
    ensures x.TypeConst? && y.TypeConst? && x.sort == y.sort && (x.sort == SORT_ARRAY || x.sort == SORT_OBJECT) ==>
      (r == COMPARED_SIMILAR <==> ClassPotentiallyEqualNullable(env.classA(x.descriptor), env.classByIdB(y.descriptor)))
  {
    if !SameConstantClass(x, y) then COMPARED_DISTINCT
    else if x.TypeConst? then
      if x.sort != y.sort then COMPARED_DISTINCT
      else if x.sort == SORT_ARRAY || x.sort == SORT_OBJECT then
        Verdict(ClassPotentiallyEqualNullable(env.classA(x.descriptor), env.classByIdB(y.descriptor)))
      else COMPARED_SIMILAR
    else Verdict(x == y)
  }

  /**
   * Compares two instructions of lists A and B. Different opcodes are distinct; otherwise the
   * kind of `a` picks the rule, and a kind with no rule of its own is similar.
   */
  function CompareInsn(env: Env, a: Node, b: Node): (r: int)
    ensures r == COMPARED_SIMILAR || r == COMPARED_DISTINCT
    ensures a.insn.opcode != b.insn.opcode ==> r == COMPARED_DISTINCT
    ensures a.insn.opcode == b.insn.opcode && a.insn.JumpInsn? && b.insn.JumpInsn? ==>
      (r == COMPARED_SIMILAR <==> Sign(a.insn.labelPos - a.pos) == Sign(b.insn.labelPos - b.pos))
    ensures a.insn.opcode == b.insn.opcode && a.insn.IincInsn? && b.insn.IincInsn? ==>
      (r == COMPARED_SIMILAR <==> a.insn.incr == b.insn.incr)
    ensures a.insn.opcode == b.insn.opcode && a.insn.TableSwitchInsn? && b.insn.TableSwitchInsn? ==>
      (r == COMPARED_SIMILAR <==> a.insn.min == b.insn.min && a.insn.max == b.insn.max)
    ensures a.insn.opcode == b.insn.opcode && a.insn.LookupSwitchInsn? && b.insn.LookupSwitchInsn? ==>
      (r == COMPARED_SIMILAR <==> a.insn.keys == b.insn.keys)
    ensures a.insn.opcode == b.insn.opcode && a.insn.IntInsn? && b.insn.IntInsn? ==>
      (r == COMPARED_SIMILAR <==> a.insn.operand == b.insn.operand)
    ensures a.insn.opcode == b.insn.opcode && a.insn.LdcInsn? && b.insn.LdcInsn? ==>
      r == CompareConstants(env, a.insn.cst, b.insn.cst)
    ensures a.insn.opcode == b.insn.opcode && a.insn.TypeInsn? && b.insn.TypeInsn? ==>
      (r == COMPARED_SIMILAR <==> ClassPotentiallyEqualNullable(env.classA(a.insn.desc), env.classB(b.insn.desc)))
    ensures a.insn.opcode == b.insn.opcode && a.insn.FieldInsn? && b.insn.FieldInsn? ==>
      (r == COMPARED_SIMILAR <==>
         if env.classA(a.insn.owner).None? || env.classB(b.insn.owner).None? then
           env.classA(a.insn.owner).None? && env.classB(b.insn.owner).None?
         else
           FieldPotentiallyEqualNullable(env.resolveField(env.classA(a.insn.owner).value, a.insn.name, b.insn.desc),
                                         env.resolveField(env.classB(b.insn.owner).value, b.insn.name, b.insn.desc)))
    ensures a.insn.opcode == b.insn.opcode && a.insn.MethodInsn? && b.insn.MethodInsn? ==>
      (r == COMPARED_SIMILAR <==> CompareMethods(env, a.insn.owner, a.insn.name, a.insn.desc, a.insn.itf,
                                                 b.insn.owner, b.insn.name, b.insn.desc, b.insn.itf))
    ensures a.insn.opcode == b.insn.opcode && a.insn.MultiANewArrayInsn? && b.insn.MultiANewArrayInsn? ==>
      (r == COMPARED_SIMILAR <==> a.insn.dims == b.insn.dims
                                  && ClassPotentiallyEqualNullable(env.classA(a.insn.desc), env.classB(b.insn.desc)))
    ensures a.insn.opcode == b.insn.opcode && a.insn.OtherInsn? ==> r == COMPARED_SIMILAR
  {
    var x, y := a.insn, b.insn;
    if x.opcode != y.opcode then COMPARED_DISTINCT
    else match x
      case IntInsn(_, operand) =>
        if y.IntInsn? then Verdict(operand == y.operand) else COMPARED_DISTINCT
      case TypeInsn(_, desc) =>
        if y.TypeInsn? then Verdict(ClassPotentiallyEqualNullable(env.classA(desc), env.classB(y.desc)))
        else COMPARED_DISTINCT
      case FieldInsn(_, owner, name, _) =>
        if y.FieldInsn? then
          var ownerA, ownerB := env.classA(owner), env.classB(y.owner);
          if ownerA.None? && ownerB.None? then COMPARED_SIMILAR
          else if ownerA.None? || ownerB.None? then COMPARED_DISTINCT
          else
            // Both fields are resolved with B's descriptor.
            var fieldA := env.resolveField(ownerA.value, name, y.desc);
            var fieldB := env.resolveField(ownerB.value, y.name, y.desc);
            Verdict(FieldPotentiallyEqualNullable(fieldA, fieldB))
        else COMPARED_DISTINCT
      case MethodInsn(_, owner, name, desc, itf) =>
        if y.MethodInsn? then Verdict(CompareMethods(env, owner, name, desc, itf, y.owner, y.name, y.desc, y.itf))
        else COMPARED_DISTINCT
      case JumpInsn(_, labelPos) =>
        if y.JumpInsn? then Verdict(Sign(labelPos - a.pos) == Sign(y.labelPos - b.pos))
        else COMPARED_DISTINCT
      case LdcInsn(_, cst) =>
        if y.LdcInsn? then CompareConstants(env, cst, y.cst) else COMPARED_DISTINCT
      case IincInsn(_, _, incr) =>
        if y.IincInsn? then Verdict(incr == y.incr) else COMPARED_DISTINCT
      case TableSwitchInsn(_, min, max) =>
        if y.TableSwitchInsn? then Verdict(min == y.min && max == y.max) else COMPARED_DISTINCT
      case LookupSwitchInsn(_, keys) =>
        if y.LookupSwitchInsn? then Verdict(keys == y.keys) else COMPARED_DISTINCT
      case MultiANewArrayInsn(_, desc, dims) =>
        if y.MultiANewArrayInsn? then
          if dims != y.dims then COMPARED_DISTINCT
          else Verdict(ClassPotentiallyEqualNullable(env.classA(desc), env.classB(y.desc)))
        else COMPARED_DISTINCT
      case OtherInsn(_, _) => COMPARED_SIMILAR
  }

  /** A field access is judged by B's descriptor alone: A's own descriptor is never consulted. */
  lemma FieldInsnIgnoresOwnDescriptor(env: Env, a: Node, b: Node, descA2: string)
    requires a.insn.FieldInsn?
    ensures CompareInsn(env, a, b)
      == CompareInsn(env, Node(a.pos, FieldInsn(a.insn.opcode, a.insn.owner, a.insn.name, descA2)), b)
  {
  }

  /**
   * Under one environment for both snapshots (the same lookups by name and by id), every
   * instruction at its own position is similar to itself.
   */
  lemma CompareInsnReflexive(env: Env, n: Node)
    requires forall s :: env.classA(s) == env.classB(s)
    requires forall s :: env.classA(s) == env.classByIdB(s)
    ensures CompareInsn(env, n, n) == COMPARED_SIMILAR
  {
    match n.insn
    case FieldInsn(_, owner, name, desc) =>
      if env.classA(owner).Some? {
        var f := env.resolveField(env.classA(owner).value, name, desc);
        assert FieldPotentiallyEqualNullable(f, f);
      }
    case MethodInsn(_, owner, name, desc, itf) =>
      if env.classA(owner).Some? {
        var m := env.resolveMethod(env.classA(owner).value, name, desc, itf);
        assert MethodPotentiallyEqualNullable(m, m);
      }
    case LdcInsn(_, cst) =>
      if cst.TypeConst? && (cst.sort == SORT_ARRAY || cst.sort == SORT_OBJECT) {
        assert env.classA(cst.descriptor) == env.classByIdB(cst.descriptor);
      }
    case _ =>
  }

  /** The comparator handed to the list algorithms. */
  function InsnComparator(env: Env): (Node, Node) -> int {
    (x: Node, y: Node) => CompareInsn(env, x, y)
  }

  lemma InsnCostsWithin(env: Env, a: seq<Node>, b: seq<Node>)
    ensures CostsWithin(a, b, InsnComparator(env), 0, COMPARED_DISTINCT)
    ensures NonNegativeCosts(a, b, InsnComparator(env))
  {
  }

  /** Similarity of two instruction lists, in [0, 1]. */
  method CompareInsns(env: Env, la: seq<Insn>, lb: seq<Insn>) returns (r: real)
    ensures r == CompareListsSpec(Nodes(la), Nodes(lb), InsnComparator(env))
    ensures 0.0 <= r <= 1.0
  {
    r := CompareLists(Nodes(la), Nodes(lb), InsnComparator(env));
    InsnCostsWithin(env, Nodes(la), Nodes(lb));
    CompareListsBounds(Nodes(la), Nodes(lb), InsnComparator(env));
  }

  /** The instruction alignment `mapInsns` computes for two lists. */
  function InsnMapping(env: Env, la: seq<Insn>, lb: seq<Insn>): seq<int> {
    MapListsSpec(Nodes(la), Nodes(lb), InsnComparator(env))
  }

  /**
   * An instruction alignment maps each instruction of A to -1 or to an instruction of B, in
   * increasing order, and only ever to a similar instruction.
   */
  lemma InsnMappingProperties(env: Env, la: seq<Insn>, lb: seq<Insn>)
    ensures |InsnMapping(env, la, lb)| == |la|
    ensures MonotoneMapping(InsnMapping(env, la, lb), |lb|)
    ensures forall k :: 0 <= k < |la| && InsnMapping(env, la, lb)[k] != -1 ==>
      CompareInsn(env, Node(k, la[k]), Node(InsnMapping(env, la, lb)[k], lb[InsnMapping(env, la, lb)[k]])) == COMPARED_SIMILAR
  {
    var a, b, cmp := Nodes(la), Nodes(lb), InsnComparator(env);
    InsnCostsWithin(env, a, b);
    MapListsProperties(a, b, cmp);
    var r := InsnMapping(env, la, lb);
    forall k | 0 <= k < |la| && r[k] != -1
      ensures CompareInsn(env, Node(k, la[k]), Node(r[k], lb[r[k]])) == COMPARED_SIMILAR
    {
      assert cmp(a[k], b[r[k]]) < COMPARED_DISTINCT;
    }
  }

  method MapInsnLists(env: Env, la: seq<Insn>, lb: seq<Insn>) returns (r: seq<int>)
    ensures r == InsnMapping(env, la, lb)
  {
    r := MapLists(Nodes(la), Nodes(lb), InsnComparator(env));
  }

  /** The alignment of two methods' bodies, the function the cache memoizes. */
  function MethodInsnMapping(env: Env): (MethodEntry, MethodEntry) -> seq<int> {
    (x: MethodEntry, y: MethodEntry) => InsnMapping(env, x.insns, y.insns)
  }

  /** Bodies whose table has at least this many cells are aligned through the cache. */
  const CACHE_THRESHOLD: int := 1000

  /**
   * No alignment when either body is empty; small bodies are aligned directly, large ones
   * through the match cache. As long as the cache holds only alignments under this
   * environment, the answer is the same either way.
   */
  method MapInsns(cache: MatchCache<MethodEntry, seq<int>>, env: Env, a: MethodEntry, b: MethodEntry)
    returns (r: Option<seq<int>>)
    requires cache.Memoizes(INSN_MAP_CACHE, MethodInsnMapping(env))
    modifies cache
    ensures r.None? <==> |a.insns| == 0 || |b.insns| == 0
    ensures r.Some? ==> r.value == InsnMapping(env, a.insns, b.insns)
    ensures cache.Memoizes(INSN_MAP_CACHE, MethodInsnMapping(env))
    ensures |a.insns| * |b.insns| < CACHE_THRESHOLD ==> cache.entries == old(cache.entries)
    ensures r.Some? && |a.insns| * |b.insns| >= CACHE_THRESHOLD ==>
              cache.entries == old(cache.entries)[CacheKey(INSN_MAP_CACHE, a, b) := r.value]
  {
    if |a.insns| == 0 || |b.insns| == 0 {
      return None;
    }
    if |a.insns| * |b.insns| < CACHE_THRESHOLD {
      var m := MapInsnLists(env, a.insns, b.insns);
      r := Some(m);
    } else {
      var m := cache.Compute(INSN_MAP_CACHE, a, b, MethodInsnMapping(env));
      r := Some(m);
    }
  }
}
