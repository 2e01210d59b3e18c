/**
 * The constant pool of a class file (section 4.4 of the Java Virtual Machine
 * Specification, Java SE 8 edition): the entry kinds, and the 1-based table that
 * the reader fills slot by slot and the assembler grows with get-or-append.
 *
 * ConstantPool.java and ClassFileUtils.java are not part of this model; the table
 * follows these stated assumptions:
 *  - a pool declared with count c has c - 1 slots, and `setEntry(i, e)` writes the
 *    0-based slot i, which is the entry with JVM index i + 1;
 *  - `getEntry(k)` yields the entry in slot k - 1, and nothing for 0, for an index
 *    past the table and for the hole behind a Long or Double entry;
 *  - `getOrAppend*` searches the table from index 1 upwards for an equal entry and
 *    returns the first index holding one, or appends the entry and returns its index.
 */
module ConstantPool {
  import opened Wrappers
  import opened Bytes

  // Tag bytes of table 4.4-A of the Java Virtual Machine Specification.
  const TagUtf8: Byte := 1
  const TagInteger: Byte := 3
  const TagFloat: Byte := 4
  const TagLong: Byte := 5
  const TagDouble: Byte := 6
  const TagClass: Byte := 7
  const TagString: Byte := 8
  const TagFieldRef: Byte := 9
  const TagMethodRef: Byte := 10
  const TagInterfaceMethodRef: Byte := 11
  const TagNameAndType: Byte := 12
  const TagMethodHandle: Byte := 15
  const TagMethodType: Byte := 16
  const TagInvokeDynamic: Byte := 18

  /**
   * One constant-pool entry. References to other entries are pool indices.
   * Float and Double keep their IEEE 754 bit patterns as raw bytes; UTF8 keeps
   * its bytes undecoded.
   */
  datatype Entry =
    | Class(nameIndex: nat)
    | FieldRef(classIndex: nat, nameAndTypeIndex: nat)
    | MethodRef(classIndex: nat, nameAndTypeIndex: nat)
    | InterfaceMethodRef(classIndex: nat, nameAndTypeIndex: nat)
    | StringConst(stringIndex: nat)
    | IntegerConst(value: int)
    | FloatConst(bits: seq<Byte>)
    | LongConst(value: int)
    | DoubleConst(bits: seq<Byte>)
    | NameAndType(nameIndex: nat, descriptorIndex: nat)
    | Utf8(bytes: seq<Byte>)
    | MethodHandle(referenceKind: nat, referenceIndex: nat)
    | MethodType(descriptorIndex: nat)
    | InvokeDynamic(bootstrapMethodAttrIndex: nat, nameAndTypeIndex: nat)
  {
    /** Long and Double take two slots (section 4.4.5 of the Java Virtual Machine Specification). */
    predicate IsDoubleEntry() {
      LongConst? || DoubleConst?
    }

    /** The tag byte that introduces this kind of entry in a class file. */
    function Tag(): Byte {
      match this
      case Class(_) => TagClass
      case FieldRef(_, _) => TagFieldRef
      case MethodRef(_, _) => TagMethodRef
      case InterfaceMethodRef(_, _) => TagInterfaceMethodRef
      case StringConst(_) => TagString
      case IntegerConst(_) => TagInteger
      case FloatConst(_) => TagFloat
      case LongConst(_) => TagLong
      case DoubleConst(_) => TagDouble
      case NameAndType(_, _) => TagNameAndType
      case Utf8(_) => TagUtf8
      case MethodHandle(_, _) => TagMethodHandle
      case MethodType(_) => TagMethodType
      case InvokeDynamic(_, _) => TagInvokeDynamic
    }
  }

  /** The table behind a pool: slot k - 1 holds the entry with JVM index k, None a hole. */
  type Slots = seq<Option<Entry>>

  /** getEntry(index): the entry at a 1-based index, None for 0, past the end or a hole. */
  function Lookup(slots: Slots, index: int): (e: Option<Entry>)
    ensures e.Some? <==> 1 <= index <= |slots| && slots[index - 1].Some?
    ensures e.Some? ==> slots[index - 1] == e
  {
    if 1 <= index <= |slots| then slots[index - 1] else None
  }

  /** The smallest 1-based index whose slot holds `e`, if any. */
  function IndexOf(slots: Slots, e: Entry): (k: Option<nat>)
    ensures k.Some? ==> 1 <= k.value <= |slots| && slots[k.value - 1] == Some(e)
    ensures k.Some? ==> forall j :: 0 <= j < k.value - 1 ==> slots[j] != Some(e)
    ensures k.None? <==> Some(e) !in slots
  {
    if |slots| == 0 then None
    else if slots[0] == Some(e) then Some(1)
    else match IndexOf(slots[1..], e)
      case Some(k) => Some(k + 1)
      case None => None
  }

  /**
   * The slots one entry fills: itself, and a hole behind a Long or Double. Both
   * appending to a pool and reading one place an entry this way.
   */
  function EntrySlots(e: Entry): Slots {
    if e.IsDoubleEntry() then [Some(e), None] else [Some(e)]
  }

  /** The table and the index after get-or-append of `e`. */
  function GetOrAppended(slots: Slots, e: Entry): (Slots, nat) {
    match IndexOf(slots, e)
    case Some(k) => (slots, k)
    case None => (slots + EntrySlots(e), |slots| + 1)
  }

  /** Get-or-append returns an index at which `e` can be looked up, and never moves an entry. */
  lemma GetOrAppendFinds(slots: Slots, e: Entry)
    ensures var (slots', k) := GetOrAppended(slots, e);
      Lookup(slots', k) == Some(e) && slots'[..|slots|] == slots
  {
  }

  /** A second get-or-append of the same entry returns the same index and leaves the table alone. */
  lemma {:induction false} GetOrAppendIdempotent(slots: Slots, e: Entry)
    ensures var (slots', k) := GetOrAppended(slots, e);
      GetOrAppended(slots', e) == (slots', k)
  {
    if IndexOf(slots, e).None? {
      var slots' := slots + EntrySlots(e);
      assert slots'[|slots|] == Some(e);
      var k' := IndexOf(slots', e);
      assert k'.Some?;
    }
  }

  /** A table whose holes are exactly the slots behind Long and Double entries (section 4.4.5 of the Java Virtual Machine Specification). */
  ghost predicate WellFormedSlots(slots: Slots) {
    forall k {:trigger slots[k]} :: 0 <= k < |slots| ==>
      (slots[k].None? <==> k > 0 && slots[k - 1].Some? && slots[k - 1].value.IsDoubleEntry())
  }

  /** The mutable pool of one class file. */
  class ConstantPool {
    var slots: Slots

    /** `new ConstantPool(count)`: count - 1 empty slots (none when count is 0). */
    constructor (count: nat)
      ensures |slots| == if count == 0 then 0 else count - 1
      ensures forall k :: 0 <= k < |slots| ==> slots[k].None?
    {
      slots := seq(if count == 0 then 0 else count - 1, _ => None);
    }

    /** setEntry(i, e) on the 0-based slot i; a write past the table fails. */
    method SetEntry(i: nat, e: Option<Entry>) returns (ok: bool)
      modifies this
      ensures ok == (i < |old(slots)|)
      ensures slots == if ok then old(slots)[i := e] else old(slots)
    {
      ok := i < |slots|;
      if ok {
        slots := slots[i := e];
      }
    }

    /** getEntry(index), on the current table. */
    function GetEntry(index: int): Option<Entry>
      reads this
    {
      Lookup(slots, index)
    }

    /** Get-or-append: a linear search from index 1, then an append when nothing matched. */
    method GetOrAppend(e: Entry) returns (index: nat)
      modifies this
      ensures (slots, index) == GetOrAppended(old(slots), e)
    {
      var k := 0;
      while k < |slots|
        invariant 0 <= k <= |slots|
        invariant forall j :: 0 <= j < k ==> slots[j] != Some(e)
      {
        if slots[k] == Some(e) {
          index := k + 1;
          return;
        }
        k := k + 1;
      }
      index := |slots| + 1;
      slots := slots + EntrySlots(e);
    }
  }
}
