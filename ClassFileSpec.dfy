/**
 * The whole container of section 4.1 of the JVM specification, decoded in the order
 * of ClassFile(InputStream): magic and versions, the constant pool, access flags
 * and class references, interfaces, fields, methods and attributes. Every
 * attribute is read as name index, u4 length and raw bytes (section 4.7 of the JVM
 * specification); only an attribute named "Code" is decoded further (section 4.7.3
 * of the JVM specification).
 */
module ClassFileSpec {
  import opened Wrappers
  import opened Bytes
  import opened ConstantPool
  import opened ClassFormat

  /** The values of `acc` followed by those of a successful parse; errors pass through. */
  function Prepend<T>(acc: seq<T>, r: Parse<seq<T>>): Parse<seq<T>> {
    match r
    case Ok(p) => Ok(Parsed(acc + p.value, p.next))
    case Err(e) => Err(e)
  }

  lemma PrependNothing<T>(r: Parse<seq<T>>)
    ensures Prepend([], r) == r
  {
    if r.Ok? {
      assert [] + r.value.value == r.value.value;
    }
  }

  lemma PrependPrepend<T>(a: seq<T>, b: seq<T>, r: Parse<seq<T>>)
    ensures Prepend(a, Prepend(b, r)) == Prepend(a + b, r)
  {
    assert forall s: seq<T> :: a + (b + s) == (a + b) + s;
  }

  // ---------------------------------------------------------------------
  // The constant pool

  /** The slots of a pool declared with `count`: count - 1, or none for 0. */
  function PoolSize(count: nat): nat {
    if count == 0 then 0 else count - 1
  }

  /**
   * The pool loop from slot `i` of `n`: an entry per slot, and after a Long or
   * Double an empty slot that is skipped. A double-width entry read into the last
   * slot would put its hole past the table, which fails.
   */
  function ParsePool(data: seq<Byte>, pos: nat, i: nat, n: nat): (r: Parse<Slots>)
    ensures r.Ok? && pos <= |data| ==> pos <= r.value.next <= |data|
    decreases n - i
  {
    ParseEntryConsumes(data, pos);
    if i >= n then Ok(Parsed([], pos))
    else match ParseEntry(data, pos)
      case Err(e) => Err(e)
      case Ok(en) =>
        if en.value.IsDoubleEntry() then
          if i + 1 < n then Prepend([Some(en.value), None], ParsePool(data, en.next, i + 2, n))
          else Err(PoolOverrun)
        else Prepend([Some(en.value)], ParsePool(data, en.next, i + 1, n))
  }

  function CountEntries(slots: Slots): nat {
    if |slots| == 0 then 0 else (if slots[0].Some? then 1 else 0) + CountEntries(slots[1..])
  }

  function CountDoubleEntries(slots: Slots): nat {
    if |slots| == 0 then 0
    else (if slots[0].Some? && slots[0].value.IsDoubleEntry() then 1 else 0) + CountDoubleEntries(slots[1..])
  }

  /**
   * The layout a decoded pool has: the empty slots are exactly those behind a Long
   * or Double, each of which has one behind it; so the entries read number the
   * slots minus the double-width entries.
   */
  ghost predicate PoolShaped(slots: Slots) {
    && WellFormedSlots(slots)
    && (forall k :: 0 <= k < |slots| && slots[k].Some? && slots[k].value.IsDoubleEntry() ==> k + 1 < |slots|)
    && CountEntries(slots) == |slots| - CountDoubleEntries(slots)
  }

  /** A decoded pool fills exactly the n - i slots, laid out as PoolShaped says. */
  lemma {:induction false} PoolShape(data: seq<Byte>, pos: nat, i: nat, n: nat)
    requires ParsePool(data, pos, i, n).Ok?
    ensures var slots := ParsePool(data, pos, i, n).value.value;
      |slots| == (if i >= n then 0 else n - i) && PoolShaped(slots)
    decreases n - i
  {
    if i < n {
      var en := ParseEntry(data, pos).value;
      if en.value.IsDoubleEntry() {
        PoolShape(data, en.next, i + 2, n);
        ShapedCons(en.value, ParsePool(data, en.next, i + 2, n).value.value);
      } else {
        PoolShape(data, en.next, i + 1, n);
        ShapedCons(en.value, ParsePool(data, en.next, i + 1, n).value.value);
      }
    }
  }

  /**
   * In a decoded pool, getEntry finds nothing at a valid index exactly when the
   * index is the one behind a Long or Double, and such an entry always has that index.
   */
  lemma PoolLookupHole(data: seq<Byte>, pos: nat, n: nat, i: int)
    requires ParsePool(data, pos, 0, n).Ok?
    ensures var slots := ParsePool(data, pos, 0, n).value.value;
      Lookup(slots, i).Some? && Lookup(slots, i).value.IsDoubleEntry() ==> i + 1 <= |slots| && Lookup(slots, i + 1).None?
    ensures var slots := ParsePool(data, pos, 0, n).value.value;
      1 <= i <= |slots| && Lookup(slots, i).None? ==>
        i > 1 && Lookup(slots, i - 1).Some? && Lookup(slots, i - 1).value.IsDoubleEntry()
  {
    var slots := ParsePool(data, pos, 0, n).value.value;
    PoolShape(data, pos, 0, n);
    if 1 <= i < |slots| {
      assert slots[i].None? <==> slots[i - 1].Some? && slots[i - 1].value.IsDoubleEntry();
    }
    if 1 <= i <= |slots| {
      assert slots[i - 1].None? <==> i > 1 && slots[i - 2].Some? && slots[i - 2].value.IsDoubleEntry();
    }
  }

  /** Putting one entry's slots in front of a shaped table keeps it shaped. */
  lemma ShapedCons(e: Entry, rest: Slots)
    requires PoolShaped(rest)
    ensures PoolShaped(EntrySlots(e) + rest)
  {
    HolesCons(e, rest);
    WidthsCons(e, rest);
    CountsCons(e, rest);
  }

  /** The holes stay exactly behind the double-width entries. */
  lemma HolesCons(e: Entry, rest: Slots)
    requires WellFormedSlots(rest)
    ensures WellFormedSlots(EntrySlots(e) + rest)
  {
    var slots := EntrySlots(e) + rest;
    var d := |EntrySlots(e)|;
    forall k | 0 <= k < |slots|
      ensures slots[k].None? <==> k > 0 && slots[k - 1].Some? && slots[k - 1].value.IsDoubleEntry()
    {
      if k >= d {
        assert slots[k] == rest[k - d];
        if k > d {
          assert slots[k - 1] == rest[k - d - 1];
        } else {
          assert slots[k - 1] == EntrySlots(e)[d - 1];
        }
      }
    }
  }

  /** Every double-width entry still has a slot behind it. */
  lemma WidthsCons(e: Entry, rest: Slots)
    requires forall k :: 0 <= k < |rest| && rest[k].Some? && rest[k].value.IsDoubleEntry() ==> k + 1 < |rest|
    ensures var slots := EntrySlots(e) + rest;
      forall k :: 0 <= k < |slots| && slots[k].Some? && slots[k].value.IsDoubleEntry() ==> k + 1 < |slots|
  {
    var slots := EntrySlots(e) + rest;
    var d := |EntrySlots(e)|;
    forall k | 0 <= k < |slots| && slots[k].Some? && slots[k].value.IsDoubleEntry()
      ensures k + 1 < |slots|
    {
      if k >= d {
        assert slots[k] == rest[k - d];
      }
    }
  }

  /** The entries still number the slots minus the double-width entries. */
  lemma CountsCons(e: Entry, rest: Slots)
    requires CountEntries(rest) == |rest| - CountDoubleEntries(rest)
    ensures var slots := EntrySlots(e) + rest;
      CountEntries(slots) == |slots| - CountDoubleEntries(slots)
  {
    var slots := EntrySlots(e) + rest;
    if e.IsDoubleEntry() {
      assert slots[1..] == [None] + rest;
      assert slots[1..][1..] == rest;
    } else {
      assert slots[1..] == rest;
    }
  }

  /** Every entry of the table fits the format's widths. */
  ghost predicate EntriesWellFormed(slots: Slots) {
    forall k :: 0 <= k < |slots| && slots[k].Some? ==> WellFormedEntry(slots[k].value)
  }

  /** The entries of a table in order, each as section 4.4 of the Java Virtual Machine Specification lays it out; holes take no bytes. */
  function EncodePool(slots: Slots): seq<Byte> {
    if |slots| == 0 then []
    else EncodeSlot(slots[0]) + EncodePool(slots[1..])
  }

  /** A slot's bytes: its entry's layout; a hole, or an entry too wide for the format, gives none. */
  function EncodeSlot(slot: Option<Entry>): seq<Byte> {
    if slot.Some? && WellFormedEntry(slot.value) then EncodeEntry(slot.value) else []
  }

  /** One turn of the pool loop, from the outcome of reading its entry. */
  lemma PoolTurn(data: seq<Byte>, pos: nat, i: nat, n: nat)
    requires i < n
    ensures ParseEntry(data, pos).Err? ==> ParsePool(data, pos, i, n) == Err(ParseEntry(data, pos).error)
    ensures ParseEntry(data, pos).Ok? ==>
      var en := ParseEntry(data, pos).value;
      ParsePool(data, pos, i, n) ==
        if en.value.IsDoubleEntry() && i + 1 >= n then Err(PoolOverrun)
        else Prepend(EntrySlots(en.value), ParsePool(data, en.next, i + |EntrySlots(en.value)|, n))
  {
  }

  lemma EncodePoolEntry(e: Entry, rest: Slots)
    requires WellFormedEntry(e)
    ensures EncodePool(EntrySlots(e) + rest) == EncodeEntry(e) + EncodePool(rest)
  {
    var slots := EntrySlots(e) + rest;
    if e.IsDoubleEntry() {
      assert slots[1..] == [None] + rest;
      assert slots[1..][1..] == rest;
      assert EncodePool(slots[1..]) == EncodePool(rest);
    } else {
      assert slots[1..] == rest;
    }
  }

  /** A decoded entry's bytes followed by a table's bytes are the bytes of both. */
  lemma EncodeJoin(data: seq<Byte>, pos: nat, en: Parsed<Entry>, rest: Parsed<Slots>, slots: Slots)
    requires ParseEntry(data, pos) == Ok(en) && en.next <= rest.next <= |data|
    requires EncodePool(rest.value) == data[en.next..rest.next]
    requires slots == EntrySlots(en.value) + rest.value
    ensures EncodePool(slots) == data[pos..rest.next]
  {
    ParseEntryReencodes(data, pos);
    ParseEntryConsumes(data, pos);
    EncodePoolEntry(en.value, rest.value);
    SliceSplit(data, pos, en.next, rest.next);
  }

  lemma SliceSplit(data: seq<Byte>, a: nat, b: nat, c: nat)
    requires a <= b <= c <= |data|
    ensures data[a..c] == data[a..b] + data[b..c]
  {
  }

  /** The pool loop reads its entries back to back, in stream order: re-encoding gives the bytes read. */
  lemma {:induction false} PoolReencodes(data: seq<Byte>, pos: nat, i: nat, n: nat, r: Parsed<Slots>)
    requires pos <= |data| && ParsePool(data, pos, i, n) == Ok(r)
    ensures pos <= r.next <= |data| && EncodePool(r.value) == data[pos..r.next]
    decreases n - i
  {
    if i < n {
      var en := ParseEntry(data, pos).value;
      ParseEntryConsumes(data, pos);
      if en.value.IsDoubleEntry() {
        var rest := ParsePool(data, en.next, i + 2, n).value;
        PoolReencodes(data, en.next, i + 2, n, rest);
        EncodeJoin(data, pos, en, rest, r.value);
      } else {
        var rest := ParsePool(data, en.next, i + 1, n).value;
        PoolReencodes(data, en.next, i + 1, n, rest);
        EncodeJoin(data, pos, en, rest, r.value);
      }
    }
  }

  /** Every entry the pool loop decodes fits the format's widths, so EncodePool drops none. */
  lemma {:induction false} PoolWellFormed(data: seq<Byte>, pos: nat, i: nat, n: nat, r: Parsed<Slots>)
    requires ParsePool(data, pos, i, n) == Ok(r)
    ensures EntriesWellFormed(r.value)
    decreases n - i
  {
    if i < n {
      var en := ParseEntry(data, pos).value;
      ParseEntryReencodes(data, pos);
      if en.value.IsDoubleEntry() {
        var rest := ParsePool(data, en.next, i + 2, n).value;
        PoolWellFormed(data, en.next, i + 2, n, rest);
        WellFormedCons(en.value, rest.value);
      } else {
        var rest := ParsePool(data, en.next, i + 1, n).value;
        PoolWellFormed(data, en.next, i + 1, n, rest);
        WellFormedCons(en.value, rest.value);
      }
    }
  }

  lemma WellFormedCons(e: Entry, rest: Slots)
    requires WellFormedEntry(e) && EntriesWellFormed(rest)
    ensures EntriesWellFormed(EntrySlots(e) + rest)
  {
  }

  // ---------------------------------------------------------------------
  // Attributes

  /** One row of the exception table of a Code attribute. */
  datatype ExceptionHandler = ExceptionHandler(startPc: nat, endPc: nat, handlerPc: nat, catchType: nat)

  /**
   * An attribute keeps its name index and its info bytes verbatim; `body` is its
   * decoded form: Raw for every name but "Code".
   */
  datatype Attribute = Attribute(nameIndex: nat, info: seq<Byte>, body: AttributeBody)

  datatype AttributeBody =
    | Raw
    | Code(maxStack: nat, maxLocals: nat, code: seq<Byte>, exceptionTable: seq<ExceptionHandler>,
           attributes: seq<Attribute>)

  /** "Code" in UTF-8. */
  const CodeName: seq<Byte> := [0x43, 0x6F, 0x64, 0x65]

  /** The bytes of the UTF8 entry at `index` (getEntry(index).as(UTF8).getValue()). */
  function Utf8At(pool: Slots, index: nat): Result<seq<Byte>, Error> {
    match Lookup(pool, index)
    case Some(Utf8(b)) => Ok(b)
    case _ => Err(BadPoolReference(index))
  }

  /** getEntry(index).as(ConstantPoolClassEntry): the index of a Class entry. */
  function ClassAt(pool: Slots, index: nat): Result<nat, Error> {
    match Lookup(pool, index)
    case Some(Class(_)) => Ok(index)
    case _ => Err(BadPoolReference(index))
  }

  /** readAttribute: u2 name index, a length read as a Java int, that many bytes, then parseAttribute. */
  function ParseAttribute(pool: Slots, data: seq<Byte>, pos: nat): (r: Parse<Attribute>)
    requires pos <= |data|
    ensures r.Ok? ==> pos + 6 <= r.value.next <= |data|
    ensures r.Ok? ==> Utf8At(pool, r.value.value.nameIndex).Ok?
    decreases |data| - pos, 0, 0
  {
    var name :- U2(data, pos);
    var len :- SInt(data, name.next, 4);
    if len.value < 0 then Err(NegativeArraySize(len.value))
    else
      var info :- Take(data, len.next, len.value);
      var a :- ParseAttributeInfo(pool, name.value, info.value);
      Ok(Parsed(a, info.next))
  }

  /** parseAttribute: a "Code" attribute is decoded; any other name stays raw. */
  function ParseAttributeInfo(pool: Slots, nameIndex: nat, info: seq<Byte>): (r: Result<Attribute, Error>)
    ensures r.Ok? ==> r.value.nameIndex == nameIndex && r.value.info == info
    ensures r.Ok? ==> Utf8At(pool, nameIndex).Ok?
    ensures r.Ok? ==> (r.value.body.Code? <==> Utf8At(pool, nameIndex) == Ok(CodeName))
    decreases |info|, 2, 0
  {
    var name :- Utf8At(pool, nameIndex);
    if name == CodeName then
      var body :- ParseCode(pool, info);
      Ok(Attribute(nameIndex, info, body))
    else
      Ok(Attribute(nameIndex, info, Raw))
  }

  /**
   * The Code layout of section 4.7.3 of the Java Virtual Machine Specification. AttributeCode.java is not part of this model;
   * bytes after the nested attributes are taken to be ignored.
   */
  function ParseCode(pool: Slots, info: seq<Byte>): (r: Result<AttributeBody, Error>)
    ensures r.Ok? ==> r.value.Code?
    ensures r.Ok? ==> forall a :: a in r.value.attributes ==> Utf8At(pool, a.nameIndex).Ok?
    decreases |info|, 1, 0
  {
    var maxStack :- U2(info, 0);
    var maxLocals :- U2(info, maxStack.next);
    var length :- U4(info, maxLocals.next);
    var code :- Take(info, length.next, length.value);
    var handlerCount :- U2(info, code.next);
    var handlers :- ParseHandlers(info, handlerCount.next, handlerCount.value);
    var attributeCount :- U2(info, handlers.next);
    var attributes :- ParseAttributes(pool, info, attributeCount.next, attributeCount.value);
    Ok(Code(maxStack.value, maxLocals.value, code.value, handlers.value, attributes.value))
  }

  function ParseHandlers(data: seq<Byte>, pos: nat, count: nat): (r: Parse<seq<ExceptionHandler>>)
    requires pos <= |data|
    ensures r.Ok? ==> pos <= r.value.next <= |data| && |r.value.value| == count
    decreases count
  {
    if count == 0 then Ok(Parsed([], pos))
    else
      var start :- U2(data, pos);
      var end :- U2(data, start.next);
      var handler :- U2(data, end.next);
      var catchType :- U2(data, handler.next);
      Prepend([ExceptionHandler(start.value, end.value, handler.value, catchType.value)],
              ParseHandlers(data, catchType.next, count - 1))
  }

  /** `count` attributes back to back. */
  function ParseAttributes(pool: Slots, data: seq<Byte>, pos: nat, count: nat): (r: Parse<seq<Attribute>>)
    requires pos <= |data|
    ensures r.Ok? ==> pos <= r.value.next <= |data| && |r.value.value| == count
    ensures r.Ok? ==> forall a :: a in r.value.value ==> Utf8At(pool, a.nameIndex).Ok?
    decreases |data| - pos, 1, count
  {
    if count == 0 then Ok(Parsed([], pos))
    else match ParseAttribute(pool, data, pos)
      case Err(e) => Err(e)
      case Ok(a) => Prepend([a.value], ParseAttributes(pool, data, a.next, count - 1))
  }

  // ---------------------------------------------------------------------
  // Fields, methods and the class

  /** A field or method record: access flags, name and descriptor indices, attributes. */
  datatype Member = Member(accessFlags: nat, nameIndex: nat, descriptorIndex: nat, attributes: seq<Attribute>)

  function ParseMember(pool: Slots, data: seq<Byte>, pos: nat): (r: Parse<Member>)
    requires pos <= |data|
    ensures r.Ok? ==> pos + 8 <= r.value.next <= |data|
  {
    var flags :- U2(data, pos);
    var name :- U2(data, flags.next);
    var descriptor :- U2(data, name.next);
    var count :- U2(data, descriptor.next);
    var attributes :- ParseAttributes(pool, data, count.next, count.value);
    Ok(Parsed(Member(flags.value, name.value, descriptor.value, attributes.value), attributes.next))
  }

  function ParseMembers(pool: Slots, data: seq<Byte>, pos: nat, count: nat): (r: Parse<seq<Member>>)
    requires pos <= |data|
    ensures r.Ok? ==> pos <= r.value.next <= |data| && |r.value.value| == count
    decreases count
  {
    if count == 0 then Ok(Parsed([], pos))
    else match ParseMember(pool, data, pos)
      case Err(e) => Err(e)
      case Ok(m) => Prepend([m.value], ParseMembers(pool, data, m.next, count - 1))
  }

  /** `count` u2 indices, each of which must name a Class entry. */
  function ParseInterfaces(pool: Slots, data: seq<Byte>, pos: nat, count: nat): (r: Parse<seq<nat>>)
    requires pos <= |data|
    ensures r.Ok? ==> pos <= r.value.next <= |data| && |r.value.value| == count
    ensures r.Ok? ==> forall k :: 0 <= k < count ==> ClassAt(pool, r.value.value[k]).Ok?
    decreases count
  {
    if count == 0 then Ok(Parsed([], pos))
    else
      var index :- U2(data, pos);
      var c :- ClassAt(pool, index.value);
      Prepend([c], ParseInterfaces(pool, data, index.next, count - 1))
  }

  const Magic: nat := 0xCAFE_BABE

  datatype Header = Header(minorVersion: nat, majorVersion: nat, poolCount: nat)

  /** Magic number (checked before anything else is read), minor and major version, pool count. */
  function ParseHeader(data: seq<Byte>): Parse<Header> {
    var magic :- U4(data, 0);
    if magic.value != Magic then Err(BadMagic)
    else
      var minor :- U2(data, magic.next);
      var major :- U2(data, minor.next);
      var count :- U2(data, major.next);
      Ok(Parsed(Header(minor.value, major.value, count.value), count.next))
  }

  /** What follows the pool. */
  datatype Body = Body(accessFlags: nat, thisClass: nat, superClass: nat, interfaces: seq<nat>,
                       fields: seq<Member>, methods: seq<Member>, attributes: seq<Attribute>)

  /**
   * Access flags, this and super class (each must be a Class entry), interfaces,
   * fields and methods (their counts read as signed shorts, so a count of 0x8000 or
   * more is a negative array size), and the class attributes.
   */
  function ParseBody(pool: Slots, data: seq<Byte>, pos: nat): (r: Parse<Body>)
    requires pos <= |data|
    ensures r.Ok? ==> pos <= r.value.next <= |data|
  {
    var flags :- U2(data, pos);
    var thisIndex :- U2(data, flags.next);
    var thisClass :- ClassAt(pool, thisIndex.value);
    var superIndex :- U2(data, thisIndex.next);
    var superClass :- ClassAt(pool, superIndex.value);
    var interfaceCount :- U2(data, superIndex.next);
    var interfaces :- ParseInterfaces(pool, data, interfaceCount.next, interfaceCount.value);
    var fieldCount :- SInt(data, interfaces.next, 2);
    if fieldCount.value < 0 then Err(NegativeArraySize(fieldCount.value)) else
    var fields :- ParseMembers(pool, data, fieldCount.next, fieldCount.value);
    var methodCount :- SInt(data, fields.next, 2);
    if methodCount.value < 0 then Err(NegativeArraySize(methodCount.value)) else
    var methods :- ParseMembers(pool, data, methodCount.next, methodCount.value);
    var attributeCount :- U2(data, methods.next);
    var attributes :- ParseAttributes(pool, data, attributeCount.next, attributeCount.value);
    Ok(Parsed(Body(flags.value, thisClass, superClass, interfaces.value, fields.value, methods.value,
                   attributes.value), attributes.next))
  }

  /** The decoded class file. */
  datatype ClassData = ClassData(
    minorVersion: nat, majorVersion: nat, pool: Slots, accessFlags: nat,
    thisClass: nat, superClass: nat, interfaces: seq<nat>,
    fields: seq<Member>, methods: seq<Member>, attributes: seq<Attribute>)

  /** ClassFile(InputStream): header, pool, body. Bytes after the last attribute are not read. */
  function ParseClassFile(data: seq<Byte>): Result<ClassData, Error> {
    var header :- ParseHeader(data);
    var pool :- ParsePool(data, header.next, 0, PoolSize(header.value.poolCount));
    var body :- ParseBody(pool.value, data, pool.next);
    var h, b := header.value, body.value;
    Ok(ClassData(h.minorVersion, h.majorVersion, pool.value, b.accessFlags, b.thisClass, b.superClass,
                 b.interfaces, b.fields, b.methods, b.attributes))
  }

  // ---------------------------------------------------------------------
  // Properties of the decoder

  /** A four-byte prefix other than 0xCAFEBABE is rejected before any further byte is read. */
  lemma MagicChecked(data: seq<Byte>)
    ensures |data| < 4 ==> ParseClassFile(data) == Err(Truncated)
    ensures |data| >= 4 && data[..4] != [0xCA, 0xFE, 0xBA, 0xBE] ==> ParseClassFile(data) == Err(BadMagic)
  {
    HeaderMagic(data);
  }

  lemma HeaderMagic(data: seq<Byte>)
    ensures |data| < 4 ==> ParseHeader(data) == Err(Truncated)
    ensures |data| >= 4 && data[..4] != [0xCA, 0xFE, 0xBA, 0xBE] ==> ParseHeader(data) == Err(BadMagic)
  {
    if |data| >= 4 && data[..4] != [0xCA, 0xFE, 0xBA, 0xBE] {
      UIntEncodes(data, 0, 4);
      MagicBytes();
      assert data[0..4] == data[..4];
    }
  }

  /** The four bytes of the magic number. */
  lemma MagicBytes()
    ensures ToBigEndian(Magic, 4) == [0xCA, 0xFE, 0xBA, 0xBE]
  {
    calc {
      ToBigEndian(Magic, 4);
      ToBigEndian(0xCAFEBA, 3) + [0xBE];
      ToBigEndian(0xCAFE, 2) + [0xBA] + [0xBE];
      ToBigEndian(0xCA, 1) + [0xFE] + [0xBA] + [0xBE];
      ToBigEndian(0, 0) + [0xCA] + [0xFE] + [0xBA] + [0xBE];
    }
  }

  /** A Java int read as `n` bytes that came out non-negative, with the bytes it came from. */
  lemma LengthEncodes(data: seq<Byte>, pos: nat, n: nat)
    requires n > 0 && SInt(data, pos, n).Ok? && SInt(data, pos, n).value.value >= 0
    ensures var r := SInt(data, pos, n).value;
      r.next == pos + n && r.value < Pow256(n) / 2 && ToBigEndian(r.value, n) == data[pos..pos + n]
  {
    ToBigEndianOfBigEndian(data[pos..pos + n]);
  }

  /** An attribute the format can hold: a u2 name index and an info length that fits a non-negative int. */
  predicate AttributeFits(a: Attribute) {
    a.nameIndex < 0x1_0000 && |a.info| < 0x8000_0000
  }

  /** attribute_info of section 4.7 of the Java Virtual Machine Specification: name index, length, info. */
  function EncodeAttribute(a: Attribute): (bs: seq<Byte>)
    requires AttributeFits(a)
    ensures |bs| == 6 + |a.info|
  {
    ToBigEndian(a.nameIndex, 2) + ToBigEndian(|a.info|, 4) + a.info
  }

  function EncodeAttributes(attrs: seq<Attribute>): seq<Byte>
    requires forall a :: a in attrs ==> AttributeFits(a)
  {
    if |attrs| == 0 then [] else EncodeAttribute(attrs[0]) + EncodeAttributes(attrs[1..])
  }

  /**
   * readAttribute consumes exactly 2 + 4 + length bytes and keeps the info verbatim;
   * the name decides the body: "Code" is decoded, every other name stays raw.
   */
  lemma AttributeReencodes(pool: Slots, data: seq<Byte>, pos: nat)
    requires pos <= |data| && ParseAttribute(pool, data, pos).Ok?
    ensures var r := ParseAttribute(pool, data, pos).value;
      && AttributeFits(r.value)
      && r.next == pos + 6 + |r.value.info|
      && data[pos..r.next] == EncodeAttribute(r.value)
      && (r.value.body.Code? <==> Utf8At(pool, r.value.nameIndex) == Ok(CodeName))
  {
    var name := U2(data, pos).value;
    UIntEncodes(data, pos, 2);
    var len := SInt(data, name.next, 4).value;
    LengthEncodes(data, name.next, 4);
    var r := ParseAttribute(pool, data, pos).value;
    SliceSplit(data, pos, pos + 2, pos + 6);
    SliceSplit(data, pos, pos + 6, r.next);
  }

  /** The attribute loop reads `count` attributes back to back, in stream order. */
  lemma {:induction false} AttributesReencode(pool: Slots, data: seq<Byte>, pos: nat, count: nat)
    requires pos <= |data| && ParseAttributes(pool, data, pos, count).Ok?
    ensures var r := ParseAttributes(pool, data, pos, count).value;
      (forall a :: a in r.value ==> AttributeFits(a)) && EncodeAttributes(r.value) == data[pos..r.next]
    decreases count
  {
    if count > 0 {
      var a := ParseAttribute(pool, data, pos).value;
      AttributeReencodes(pool, data, pos);
      AttributesReencode(pool, data, a.next, count - 1);
      var rest := ParseAttributes(pool, data, a.next, count - 1).value;
      var attrs := [a.value] + rest.value;
      assert attrs[1..] == rest.value;
      SliceSplit(data, pos, a.next, rest.next);
    }
  }

  predicate MemberFits(m: Member) {
    m.accessFlags < 0x1_0000 && m.nameIndex < 0x1_0000 && m.descriptorIndex < 0x1_0000
    && |m.attributes| < 0x1_0000 && forall a :: a in m.attributes ==> AttributeFits(a)
  }

  /** field_info and method_info of sections 4.5 and 4.6 of the Java Virtual Machine Specification. */
  function EncodeMember(m: Member): seq<Byte>
    requires MemberFits(m)
  {
    ToBigEndian(m.accessFlags, 2) + ToBigEndian(m.nameIndex, 2) + ToBigEndian(m.descriptorIndex, 2)
    + ToBigEndian(|m.attributes|, 2) + EncodeAttributes(m.attributes)
  }

  function EncodeMembers(ms: seq<Member>): seq<Byte>
    requires forall m :: m in ms ==> MemberFits(m)
  {
    if |ms| == 0 then [] else EncodeMember(ms[0]) + EncodeMembers(ms[1..])
  }

  lemma MemberReencodes(pool: Slots, data: seq<Byte>, pos: nat)
    requires pos <= |data| && ParseMember(pool, data, pos).Ok?
    ensures var r := ParseMember(pool, data, pos).value;
      MemberFits(r.value) && EncodeMember(r.value) == data[pos..r.next]
  {
    var r := ParseMember(pool, data, pos).value;
    MemberHeader(data, pos);
    var count := U2(data, pos + 6).value.value;
    AttributesReencode(pool, data, pos + 8, count);
    SliceSplit(data, pos, pos + 8, r.next);
  }

  /** The four u2 values that open a field or method, with the eight bytes they came from. */
  lemma MemberHeader(data: seq<Byte>, pos: nat)
    requires pos + 8 <= |data|
    ensures
      && U2(data, pos).value.value < 0x1_0000 && U2(data, pos + 2).value.value < 0x1_0000
      && U2(data, pos + 4).value.value < 0x1_0000 && U2(data, pos + 6).value.value < 0x1_0000
      && ToBigEndian(U2(data, pos).value.value, 2) + ToBigEndian(U2(data, pos + 2).value.value, 2)
         + ToBigEndian(U2(data, pos + 4).value.value, 2) + ToBigEndian(U2(data, pos + 6).value.value, 2)
         == data[pos..pos + 8]
  {
    UIntEncodes(data, pos, 2);
    UIntEncodes(data, pos + 2, 2);
    UIntEncodes(data, pos + 4, 2);
    UIntEncodes(data, pos + 6, 2);
    SliceSplit(data, pos, pos + 6, pos + 8);
    SliceSplit(data, pos, pos + 4, pos + 6);
    SliceSplit(data, pos, pos + 2, pos + 4);
  }

  /** The field and method loops read `count` records back to back, in stream order. */
  lemma {:induction false} MembersReencode(pool: Slots, data: seq<Byte>, pos: nat, count: nat)
    requires pos <= |data| && ParseMembers(pool, data, pos, count).Ok?
    ensures var r := ParseMembers(pool, data, pos, count).value;
      (forall m :: m in r.value ==> MemberFits(m)) && EncodeMembers(r.value) == data[pos..r.next]
    decreases count
  {
    if count > 0 {
      var m := ParseMember(pool, data, pos).value;
      MemberReencodes(pool, data, pos);
      MembersReencode(pool, data, m.next, count - 1);
      var rest := ParseMembers(pool, data, m.next, count - 1).value;
      var ms := [m.value] + rest.value;
      assert ms[1..] == rest.value;
      SliceSplit(data, pos, m.next, rest.next);
    }
  }

  function EncodeIndices(xs: seq<nat>): seq<Byte>
    requires forall k :: 0 <= k < |xs| ==> xs[k] < 0x1_0000
  {
    if |xs| == 0 then [] else ToBigEndian(xs[0], 2) + EncodeIndices(xs[1..])
  }

  /** The interface loop reads `count` u2 indices back to back, in stream order. */
  lemma {:induction false} InterfacesReencode(pool: Slots, data: seq<Byte>, pos: nat, count: nat)
    requires pos <= |data| && ParseInterfaces(pool, data, pos, count).Ok?
    ensures var r := ParseInterfaces(pool, data, pos, count).value;
      (forall k :: 0 <= k < |r.value| ==> r.value[k] < 0x1_0000) && EncodeIndices(r.value) == data[pos..r.next]
    decreases count
  {
    if count > 0 {
      UIntEncodes(data, pos, 2);
      InterfacesReencode(pool, data, pos + 2, count - 1);
      var x := U2(data, pos).value.value;
      var rest := ParseInterfaces(pool, data, pos + 2, count - 1).value;
      var xs := [x] + rest.value;
      assert xs[1..] == rest.value;
      SliceSplit(data, pos, pos + 2, rest.next);
    }
  }

  /**
   * The field and method counts are Java shorts: a count field of 0x8000 or more
   * fails with a negative array size instead of being read as a large count.
   */
  lemma SignedCountRejected(data: seq<Byte>, pos: nat)
    requires pos + 2 <= |data| && BigEndian(data[pos..pos + 2]) >= 0x8000
    ensures SInt(data, pos, 2).Ok? && SInt(data, pos, 2).value.value < 0
  {
  }

  // ---------------------------------------------------------------------
  // Queries on a decoded class

  /**
   * getMethods(name): the methods whose name entry holds `name`, in their original
   * order. Names are compared as UTF-8 bytes. The filter looks up every method's
   * name, so a name index that is not a UTF8 entry fails the whole query.
   */
  function MethodsNamed(pool: Slots, methods: seq<Member>, name: seq<Byte>): (r: Result<seq<Member>, Error>)
    ensures r.Ok? <==> forall k :: 0 <= k < |methods| ==> Utf8At(pool, methods[k].nameIndex).Ok?
    ensures r.Ok? ==> |r.value| <= |methods|
  {
    if |methods| == 0 then Ok([])
    else
      var first :- Utf8At(pool, methods[0].nameIndex);
      var rest :- MethodsNamed(pool, methods[1..], name);
      if first == name then Ok([methods[0]] + rest) else Ok(rest)
  }

  /** The result holds exactly the methods with that name. */
  lemma {:induction false} MethodsNamedExact(pool: Slots, methods: seq<Member>, name: seq<Byte>)
    requires MethodsNamed(pool, methods, name).Ok?
    ensures forall m :: m in MethodsNamed(pool, methods, name).value <==>
      m in methods && Utf8At(pool, m.nameIndex) == Ok(name)
  {
    if |methods| > 0 {
      MethodsNamedExact(pool, methods[1..], name);
      assert forall m :: m in methods <==> m == methods[0] || m in methods[1..];
    }
  }

  /** The filter works method by method: filtering a concatenation concatenates the filtered parts. */
  lemma {:induction false} MethodsNamedAppend(pool: Slots, a: seq<Member>, b: seq<Member>, name: seq<Byte>)
    requires MethodsNamed(pool, a, name).Ok? && MethodsNamed(pool, b, name).Ok?
    ensures MethodsNamed(pool, a + b, name) == Ok(MethodsNamed(pool, a, name).value + MethodsNamed(pool, b, name).value)
  {
    var rb := MethodsNamed(pool, b, name).value;
    if |a| == 0 {
      assert a + b == b;
      assert [] + rb == rb;
    } else {
      var first := Utf8At(pool, a[0].nameIndex).value;
      assert MethodsNamed(pool, a[1..], name).Ok?;
      var ra := MethodsNamed(pool, a[1..], name).value;
      MethodsNamedAppend(pool, a[1..], b, name);
      assert (a + b)[0] == a[0] && (a + b)[1..] == a[1..] + b;
      if first == name {
        assert MethodsNamed(pool, a, name) == Ok([a[0]] + ra);
        assert MethodsNamed(pool, a + b, name) == Ok([a[0]] + (ra + rb));
        assert [a[0]] + (ra + rb) == ([a[0]] + ra) + rb;
      } else {
        assert MethodsNamed(pool, a, name) == Ok(ra);
        assert MethodsNamed(pool, a + b, name) == Ok(ra + rb);
      }
    }
  }

  /**
   * getAttribute(name): the first attribute whose name entry holds `name`, or None.
   * The stream stops at the first match, so names after it are never looked up.
   */
  function AttributeNamed(pool: Slots, attributes: seq<Attribute>, name: seq<Byte>): (r: Result<Option<Attribute>, Error>)
    ensures r.Ok? && r.value.Some? ==> r.value.value in attributes && Utf8At(pool, r.value.value.nameIndex) == Ok(name)
    ensures r.Ok? && r.value.None? ==> forall a :: a in attributes ==> Utf8At(pool, a.nameIndex) != Ok(name)
  {
    if |attributes| == 0 then Ok(None)
    else
      var first :- Utf8At(pool, attributes[0].nameIndex);
      if first == name then Ok(Some(attributes[0]))
      else
        var r := AttributeNamed(pool, attributes[1..], name);
        assert forall a :: a in attributes ==> a == attributes[0] || a in attributes[1..];
        r
  }

  /**
   * On attributes whose names all resolve, as every decoded attribute's do, the
   * query cannot fail, and it returns the attribute at the first matching position.
   */
  lemma {:induction false} AttributeNamedFindsFirst(pool: Slots, attributes: seq<Attribute>, name: seq<Byte>, k: nat)
    requires forall a :: a in attributes ==> Utf8At(pool, a.nameIndex).Ok?
    requires k < |attributes| && Utf8At(pool, attributes[k].nameIndex) == Ok(name)
    requires forall j :: 0 <= j < k ==> Utf8At(pool, attributes[j].nameIndex) != Ok(name)
    ensures AttributeNamed(pool, attributes, name) == Ok(Some(attributes[k]))
  {
    if k > 0 {
      assert Utf8At(pool, attributes[0].nameIndex) != Ok(name);
      var tail := attributes[1..];
      assert forall a :: a in tail ==> a in attributes;
      assert forall j :: 0 <= j < k - 1 ==> tail[j] == attributes[j + 1];
      AttributeNamedFindsFirst(pool, tail, name, k - 1);
    }
  }

  lemma {:induction false} AttributeNamedTotal(pool: Slots, attributes: seq<Attribute>, name: seq<Byte>)
    requires forall a :: a in attributes ==> Utf8At(pool, a.nameIndex).Ok?
    ensures AttributeNamed(pool, attributes, name).Ok?
  {
    if |attributes| > 0 {
      assert forall a :: a in attributes[1..] ==> a in attributes;
      AttributeNamedTotal(pool, attributes[1..], name);
    }
  }
}
