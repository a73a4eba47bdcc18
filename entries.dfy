/**
 * The matchable entities of one program snapshot. An entity's `matchId` is the handle (the
 * synthetic id) of its counterpart in the other snapshot, set by the matching driver.
 */
module Entries {

  import opened Wrappers
  import opened JvmTypes
  import opened Bytecode

  /**
   * A class. It is an array class exactly when it has an element class; its interfaces
   * are known by their handles, since only their number is ever compared.
   */
  datatype ClassEntry = ClassEntry(
    id: nat,
    name: string,
    superClass: Option<ClassEntry>,
    interfaces: set<nat>,
    elementClass: Option<ClassEntry>,
    matchId: Option<nat>)
  {
    predicate IsArray() { elementClass.Some? }
    predicate HasMatch() { matchId.Some? }
  }

  /**
   * A method type. `size` is the count the signature type reports, which the argument loop
   * runs up to; it is not assumed to be the number of arguments.
   */
  datatype RawSignature = RawSignature(size: nat, args: seq<JType>, ret: JType)

  /** Signatures whose argument loop stays inside the argument array. */
  type Signature = s: RawSignature | s.size <= |s.args|
    witness RawSignature(0, [], JType(0, Elem(0, "V")))

  datatype MethodEntry = MethodEntry(
    id: nat,
    cls: ClassEntry,
    isStatic: bool,
    name: string,
    sig: Signature,
    insns: seq<Insn>,
    matchId: Option<nat>)
  {
    predicate HasMatch() { matchId.Some? }
  }

  datatype FieldEntry = FieldEntry(
    id: nat,
    cls: ClassEntry,
    isStatic: bool,
    name: string,
    ty: JType,
    matchId: Option<nat>)
  {
    predicate HasMatch() { matchId.Some? }
  }

  /** Constructor and static-initializer names start with '<'. */
  predicate IsInitializerName(name: string) {
    |name| > 0 && name[0] == '<'
  }

}
