/**
 * Literal extraction (ClassifierUtil.kt lines 542-588): the string constants and the numeric
 * constants an instruction list loads, collected into caller-supplied sets.
 */
module Literals {

  import opened Wrappers
  import opened Bytecode

  // ---------------------------------------------------------------------------------------
  // Strings.

  /** The string a load-constant instruction pushes, if it pushes one. */
  function StringLiteral(insn: Insn): Option<string> {
    if insn.LdcInsn? && insn.cst.StringConst? then Some(insn.cst.text) else None
  }

  /** The values `lit` picks out of a list of instructions, collected front to back. */
  function LiteralsIn<X>(insns: seq<Insn>, lit: Insn -> Option<X>): set<X>
  {
    if |insns| == 0 then {}
    else
      var last := lit(insns[|insns| - 1]);
      LiteralsIn(insns[..|insns| - 1], lit) + (if last.Some? then {last.value} else {})
  }

  /** A value is collected exactly when `lit` picks it out of some instruction of the list. */
  lemma {:induction false} LiteralsInMembership<X>(insns: seq<Insn>, lit: Insn -> Option<X>, x: X)
    ensures x in LiteralsIn(insns, lit) <==> exists k :: 0 <= k < |insns| && lit(insns[k]) == Some(x)
  {
    if |insns| > 0 {
      var init := insns[..|insns| - 1];
      LiteralsInMembership(init, lit, x);
      if x in LiteralsIn(init, lit) {
        var k :| 0 <= k < |init| && lit(init[k]) == Some(x);
        assert insns[k] == init[k];
      }
      if k :| 0 <= k < |insns| && lit(insns[k]) == Some(x) {
        if k < |init| {
          assert init[k] == insns[k];
        }
      }
    }
  }

  /**
   * Adds to `out` the string of every string-loading instruction. The caller's set is passed
   * in and its new value returned.
   */
  method ExtractStrings(insns: seq<Insn>, out: set<string>) returns (result: set<string>)
    ensures result == out + LiteralsIn(insns, StringLiteral)
  {
    result := out;
    for i := 0 to |insns|
      invariant result == out + LiteralsIn(insns[..i], StringLiteral)
    {
      var insn := insns[i];
      assert insns[..i + 1][..i] == insns[..i];
      if insn.LdcInsn? && insn.cst.StringConst? {
        result := result + {insn.cst.text};
      }
    }
    assert insns[..|insns|] == insns;
  }

  // ---------------------------------------------------------------------------------------
  // Numbers.

  /** The contents of the four number sets: ints, longs, and float and double bit patterns. */
  datatype NumberSets = NumberSets(ints: set<int>, longs: set<int>, floats: set<bv32>, doubles: set<bv64>)

  const NoNumbers := NumberSets({}, {}, {}, {})

  function Union(x: NumberSets, y: NumberSets): NumberSets {
    NumberSets(x.ints + y.ints, x.longs + y.longs, x.floats + y.floats, x.doubles + y.doubles)
  }

  predicate IsNumber(c: Constant) {
    c.IntConst? || c.LongConst? || c.FloatConst? || c.DoubleConst?
  }

  /** What `handleNumberValue` adds for one value: numbers go to their set, anything else is ignored. */
  function AddValue(ns: NumberSets, number: Option<Constant>): (r: NumberSets)
    ensures (number.None? || !IsNumber(number.value)) ==> r == ns
  {
    if number.None? then ns
    else match number.value
      case IntConst(v) => ns.(ints := ns.ints + {v})
      case LongConst(v) => ns.(longs := ns.longs + {v})
      case FloatConst(v) => ns.(floats := ns.floats + {v})
      case DoubleConst(v) => ns.(doubles := ns.doubles + {v})
      case _ => ns
  }

  /** One instruction: a load-constant hands its constant over, an int-operand instruction its operand. */
  function AddInsn(ns: NumberSets, insn: Insn): NumberSets {
    if insn.LdcInsn? then AddValue(ns, Some(insn.cst))
    else if insn.IntInsn? then ns.(ints := ns.ints + {insn.operand})
    else ns
  }

  function NumbersIn(insns: seq<Insn>): NumberSets {
    if |insns| == 0 then NoNumbers
    else AddInsn(NumbersIn(insns[..|insns| - 1]), insns[|insns| - 1])
  }

  /** The int an instruction contributes: an int constant it loads or its int operand. */
  function IntLiteral(insn: Insn): Option<int> {
    if insn.LdcInsn? && insn.cst.IntConst? then Some(insn.cst.intValue)
    else if insn.IntInsn? then Some(insn.operand)
    else None
  }

  function LongLiteral(insn: Insn): Option<int> {
    if insn.LdcInsn? && insn.cst.LongConst? then Some(insn.cst.longValue) else None
  }

  function FloatLiteral(insn: Insn): Option<bv32> {
    if insn.LdcInsn? && insn.cst.FloatConst? then Some(insn.cst.floatBits) else None
  }

  function DoubleLiteral(insn: Insn): Option<bv64> {
    if insn.LdcInsn? && insn.cst.DoubleConst? then Some(insn.cst.doubleBits) else None
  }

  /** Each number set collects the literals of its kind. */
  lemma {:induction false} NumbersInLiterals(insns: seq<Insn>)
    ensures NumbersIn(insns) == NumberSets(LiteralsIn(insns, IntLiteral), LiteralsIn(insns, LongLiteral),
                                           LiteralsIn(insns, FloatLiteral), LiteralsIn(insns, DoubleLiteral))
  {
    if |insns| > 0 {
      NumbersInLiterals(insns[..|insns| - 1]);
    }
  }

  /** Each number set holds exactly the literals of its kind that some instruction contributes. */
  lemma NumbersInMembership(insns: seq<Insn>)
    ensures forall x :: x in NumbersIn(insns).ints <==> exists k :: 0 <= k < |insns| && IntLiteral(insns[k]) == Some(x)
    ensures forall x :: x in NumbersIn(insns).longs <==> exists k :: 0 <= k < |insns| && LongLiteral(insns[k]) == Some(x)
    ensures forall x :: x in NumbersIn(insns).floats <==> exists k :: 0 <= k < |insns| && FloatLiteral(insns[k]) == Some(x)
    ensures forall x :: x in NumbersIn(insns).doubles <==> exists k :: 0 <= k < |insns| && DoubleLiteral(insns[k]) == Some(x)
  {
    NumbersInLiterals(insns);
    forall x: int
      ensures x in LiteralsIn(insns, IntLiteral) <==> exists k :: 0 <= k < |insns| && IntLiteral(insns[k]) == Some(x)
      ensures x in LiteralsIn(insns, LongLiteral) <==> exists k :: 0 <= k < |insns| && LongLiteral(insns[k]) == Some(x)
    {
      LiteralsInMembership(insns, IntLiteral, x);
      LiteralsInMembership(insns, LongLiteral, x);
    }
    forall x: bv32
      ensures x in LiteralsIn(insns, FloatLiteral) <==> exists k :: 0 <= k < |insns| && FloatLiteral(insns[k]) == Some(x)
    {
      LiteralsInMembership(insns, FloatLiteral, x);
    }
    forall x: bv64
      ensures x in LiteralsIn(insns, DoubleLiteral) <==> exists k :: 0 <= k < |insns| && DoubleLiteral(insns[k]) == Some(x)
    {
      LiteralsInMembership(insns, DoubleLiteral, x);
    }
  }

  /** The four sets a caller hands to `extractNumbers`, filled in place. */
  class Numbers {
    var ints: set<int>
    var longs: set<int>
    var floats: set<bv32>
    var doubles: set<bv64>

    constructor ()
      ensures Contents() == NoNumbers
    {
      ints, longs, floats, doubles := {}, {}, {}, {};
    }

    function Contents(): NumberSets
      reads this
    {
      NumberSets(ints, longs, floats, doubles)
    }
  }

  /** Adds one value to its set; null and non-numeric values leave the sets alone. */
  method HandleNumberValue(number: Option<Constant>, numbers: Numbers)
    modifies numbers
    ensures numbers.Contents() == AddValue(old(numbers.Contents()), number)
  {
    if number.None? {
      return;
    }
    match number.value {
      case IntConst(v) => numbers.ints := numbers.ints + {v};
      case LongConst(v) => numbers.longs := numbers.longs + {v};
      case FloatConst(v) => numbers.floats := numbers.floats + {v};
      case DoubleConst(v) => numbers.doubles := numbers.doubles + {v};
      case _ =>
    }
  }

  lemma AddInsnUnion(ns: NumberSets, base: NumberSets, insn: Insn)
    ensures AddInsn(Union(base, ns), insn) == Union(base, AddInsn(ns, insn))
  {
  }

  /** Adds every numeric literal of the list to the caller's sets. */
  method ExtractNumbers(insns: seq<Insn>, numbers: Numbers)
    modifies numbers
    ensures numbers.Contents() == Union(old(numbers.Contents()), NumbersIn(insns))
  {
    ghost var start := numbers.Contents();
    assert Union(start, NoNumbers) == start;
    for i := 0 to |insns|
      invariant numbers.Contents() == Union(start, NumbersIn(insns[..i]))
    {
      var insn := insns[i];
      assert insns[..i + 1][..i] == insns[..i];
      AddInsnUnion(NumbersIn(insns[..i]), start, insn);
      if insn.LdcInsn? {
        HandleNumberValue(Some(insn.cst), numbers);
      } else if insn.IntInsn? {
        numbers.ints := numbers.ints + {insn.operand};
      }
    }
    assert insns[..|insns|] == insns;
  }
}
