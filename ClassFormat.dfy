/**
 * The class-file container (chapter 4 of the Java Virtual Machine Specification,
 * Java SE 8 edition) as a functional, big-endian, forward-only decoder: the
 * specification that the cursor-based reader in module ClassFileReader is proved
 * against. Each `Parse*` function takes the input and a position and yields the
 * decoded value with the position just after it, or the error the Java reader
 * raises there.
 */
module ClassFormat {
  import opened Wrappers
  import opened Bytes
  import opened ConstantPool

  /** What the reader raises. */
  datatype Error =
    | BadMagic                        // IllegalArgumentException("Not a valid .class file")
    | Truncated                       // EOFException from DataInputStream
    | InvalidTag(tag: Byte)           // IllegalArgumentException("Invalid constant pool (Invalid type: 0x..)")
    | PoolOverrun                     // the hole of a Long/Double in the last slot lies past the table
    | BadPoolReference(index: nat)    // getEntry(i).as(...) finds no entry of the expected kind
    | NegativeArraySize(size: int)    // an array allocated with a negative length

  datatype Parsed<+T> = Parsed(value: T, next: nat)

  type Parse<+T> = Result<Parsed<T>, Error>

  /** `n` raw bytes, as DataInputStream.readFully would read them. */
  function Take(data: seq<Byte>, pos: nat, n: nat): Parse<seq<Byte>> {
    if pos + n <= |data| then Ok(Parsed(data[pos..pos + n], pos + n)) else Err(Truncated)
  }

  /** An unsigned big-endian `n`-byte value (readUnsignedByte, readUnsignedShort). */
  function UInt(data: seq<Byte>, pos: nat, n: nat): Parse<nat> {
    var b :- Take(data, pos, n);
    Ok(Parsed(BigEndian(b.value), b.next))
  }

  /** A two's-complement big-endian `n`-byte value (readShort, readInt, readLong). */
  function SInt(data: seq<Byte>, pos: nat, n: nat): Parse<int>
    requires n > 0
  {
    var b :- Take(data, pos, n);
    Ok(Parsed(Signed(BigEndian(b.value), n), b.next))
  }

  function U1(data: seq<Byte>, pos: nat): Parse<nat> { UInt(data, pos, 1) }
  function U2(data: seq<Byte>, pos: nat): Parse<nat> { UInt(data, pos, 2) }
  function U4(data: seq<Byte>, pos: nat): Parse<nat> { UInt(data, pos, 4) }

  /** The error message of an unknown tag: the tag in lower-case hexadecimal. */
  function Message(e: Error): string {
    match e
    case BadMagic => "Not a valid .class file"
    case InvalidTag(t) => "Invalid constant pool (Invalid type: 0x" + Hex(t) + ")"
    case _ => ""
  }

  const InvalidTagPrefix: string := "Invalid constant pool (Invalid type: 0x"

  /** Recovers the tag byte from the message of an InvalidTag error. */
  function TagInMessage(msg: string): Option<nat> {
    if |msg| > |InvalidTagPrefix| && msg[..|InvalidTagPrefix|] == InvalidTagPrefix && msg[|msg| - 1] == ')'
    then HexValue(msg[|InvalidTagPrefix|..|msg| - 1])
    else None
  }

  /** The message of an unknown tag carries the offending byte. */
  lemma InvalidTagMessageCarriesTag(t: Byte)
    ensures TagInMessage(Message(InvalidTag(t))) == Some(t as nat)
  {
    var msg := Message(InvalidTag(t));
    assert msg[..|InvalidTagPrefix|] == InvalidTagPrefix;
    assert msg[|InvalidTagPrefix|..|msg| - 1] == Hex(t);
    HexRoundTrip(t);
  }

  // ---------------------------------------------------------------------
  // Constant-pool entries (readConstantPoolEntry)

  /** Two consecutive u2 values, the payload of the two-index entry kinds. */
  function TwoU2(data: seq<Byte>, pos: nat): Parse<(nat, nat)> {
    var a :- U2(data, pos);
    var b :- U2(data, a.next);
    Ok(Parsed((a.value, b.value), b.next))
  }

  /** One entry: a tag byte, then the payload that the tag prescribes. */
  function ParseEntry(data: seq<Byte>, pos: nat): Parse<Entry> {
    var tag :- U1(data, pos);
    var p := tag.next;
    var t := tag.value;
    if t == TagClass as nat then
      var i :- U2(data, p); Ok(Parsed(Class(i.value), i.next))
    else if t == TagFieldRef as nat then
      var r :- TwoU2(data, p); Ok(Parsed(FieldRef(r.value.0, r.value.1), r.next))
    else if t == TagMethodRef as nat then
      var r :- TwoU2(data, p); Ok(Parsed(MethodRef(r.value.0, r.value.1), r.next))
    else if t == TagInterfaceMethodRef as nat then
      var r :- TwoU2(data, p); Ok(Parsed(InterfaceMethodRef(r.value.0, r.value.1), r.next))
    else if t == TagString as nat then
      var i :- U2(data, p); Ok(Parsed(StringConst(i.value), i.next))
    else if t == TagInteger as nat then
      var v :- SInt(data, p, 4); Ok(Parsed(IntegerConst(v.value), v.next))
    else if t == TagFloat as nat then
      var b :- Take(data, p, 4); Ok(Parsed(FloatConst(b.value), b.next))
    else if t == TagLong as nat then
      var v :- SInt(data, p, 8); Ok(Parsed(LongConst(v.value), v.next))
    else if t == TagDouble as nat then
      var b :- Take(data, p, 8); Ok(Parsed(DoubleConst(b.value), b.next))
    else if t == TagNameAndType as nat then
      var r :- TwoU2(data, p); Ok(Parsed(NameAndType(r.value.0, r.value.1), r.next))
    else if t == TagUtf8 as nat then
      var len :- U2(data, p);
      var b :- Take(data, len.next, len.value);
      Ok(Parsed(Utf8(b.value), b.next))
    else if t == TagMethodHandle as nat then
      var k :- U1(data, p);
      var i :- U2(data, k.next);
      Ok(Parsed(MethodHandle(k.value, i.value), i.next))
    else if t == TagMethodType as nat then
      var i :- U2(data, p); Ok(Parsed(MethodType(i.value), i.next))
    else if t == TagInvokeDynamic as nat then
      var r :- TwoU2(data, p); Ok(Parsed(InvokeDynamic(r.value.0, r.value.1), r.next))
    else
      Err(InvalidTag(t))
  }

  /** The tags of the fourteen entry kinds. */
  predicate KnownTag(t: nat) {
    t in {TagUtf8 as nat, TagInteger as nat, TagFloat as nat, TagLong as nat, TagDouble as nat,
          TagClass as nat, TagString as nat, TagFieldRef as nat, TagMethodRef as nat,
          TagInterfaceMethodRef as nat, TagNameAndType as nat, TagMethodHandle as nat,
          TagMethodType as nat, TagInvokeDynamic as nat}
  }

  /** The bytes an entry occupies after its tag byte. */
  function PayloadSize(e: Entry): nat {
    match e
    case Class(_) => 2
    case StringConst(_) => 2
    case MethodType(_) => 2
    case FieldRef(_, _) => 4
    case MethodRef(_, _) => 4
    case InterfaceMethodRef(_, _) => 4
    case NameAndType(_, _) => 4
    case InvokeDynamic(_, _) => 4
    case IntegerConst(_) => 4
    case FloatConst(_) => 4
    case LongConst(_) => 8
    case DoubleConst(_) => 8
    case MethodHandle(_, _) => 3
    case Utf8(b) => 2 + |b|
  }

  /** Entries whose fields fit the widths of the class-file format. */
  predicate WellFormedEntry(e: Entry) {
    match e
    case Class(i) => i < 0x1_0000
    case StringConst(i) => i < 0x1_0000
    case MethodType(i) => i < 0x1_0000
    case FieldRef(a, b) => a < 0x1_0000 && b < 0x1_0000
    case MethodRef(a, b) => a < 0x1_0000 && b < 0x1_0000
    case InterfaceMethodRef(a, b) => a < 0x1_0000 && b < 0x1_0000
    case NameAndType(a, b) => a < 0x1_0000 && b < 0x1_0000
    case InvokeDynamic(a, b) => a < 0x1_0000 && b < 0x1_0000
    case IntegerConst(v) => -(Pow256(4) as int) / 2 <= v < Pow256(4) / 2
    case LongConst(v) => -(Pow256(8) as int) / 2 <= v < Pow256(8) / 2
    case FloatConst(b) => |b| == 4
    case DoubleConst(b) => |b| == 8
    case MethodHandle(k, i) => k < 0x100 && i < 0x1_0000
    case Utf8(b) => |b| < 0x1_0000
  }

  /**
   * The bytes of an entry in a class file: the inverse of ParseEntry. The code base
   * writes no class files; this is the reference layout of section 4.4 of the Java
   * Virtual Machine Specification.
   */
  function EncodeEntry(e: Entry): (bs: seq<Byte>)
    requires WellFormedEntry(e)
    ensures |bs| == 1 + PayloadSize(e) && bs[0] == e.Tag()
  {
    [e.Tag()] +
    match e
    case Class(i) => ToBigEndian(i, 2)
    case StringConst(i) => ToBigEndian(i, 2)
    case MethodType(i) => ToBigEndian(i, 2)
    case FieldRef(a, b) => ToBigEndian(a, 2) + ToBigEndian(b, 2)
    case MethodRef(a, b) => ToBigEndian(a, 2) + ToBigEndian(b, 2)
    case InterfaceMethodRef(a, b) => ToBigEndian(a, 2) + ToBigEndian(b, 2)
    case NameAndType(a, b) => ToBigEndian(a, 2) + ToBigEndian(b, 2)
    case InvokeDynamic(a, b) => ToBigEndian(a, 2) + ToBigEndian(b, 2)
    case IntegerConst(v) => ToBigEndian(Unsigned(v, 4), 4)
    case LongConst(v) => ToBigEndian(Unsigned(v, 8), 8)
    case FloatConst(b) => b
    case DoubleConst(b) => b
    case MethodHandle(k, i) => [k] + ToBigEndian(i, 2)
    case Utf8(b) => ToBigEndian(|b|, 2) + b
  }

  lemma UIntAt(data: seq<Byte>, pos: nat, n: nat, v: nat)
    requires pos + n <= |data| && v < Pow256(n) && data[pos..pos + n] == ToBigEndian(v, n)
    ensures UInt(data, pos, n) == Ok(Parsed(v, pos + n))
  {
    BigEndianOfToBigEndian(v, n);
  }

  lemma UIntEncodes(data: seq<Byte>, pos: nat, n: nat)
    requires UInt(data, pos, n).Ok?
    ensures var r := UInt(data, pos, n).value;
      r.next == pos + n && r.value < Pow256(n) && ToBigEndian(r.value, n) == data[pos..pos + n]
  {
    ToBigEndianOfBigEndian(data[pos..pos + n]);
  }

  /** The tag byte at `pos`, read as an unsigned byte. */
  lemma TagRead(data: seq<Byte>, pos: nat)
    requires pos < |data|
    ensures U1(data, pos) == Ok(Parsed(data[pos] as nat, pos + 1))
  {
    assert data[pos..pos + 1] == [data[pos]];
    assert BigEndian([data[pos]]) == data[pos] as nat by {
      assert [data[pos]][..0] == [];
    }
  }

  /**
   * ParseEntry: an unknown tag fails with that tag before any payload is read, a
   * missing tag byte is a truncation, and a decoded entry has the tag it was
   * introduced by and occupies exactly 1 + PayloadSize bytes.
   */
  lemma ParseEntryConsumes(data: seq<Byte>, pos: nat)
    ensures pos >= |data| ==> ParseEntry(data, pos) == Err(Truncated)
    ensures pos < |data| && !KnownTag(data[pos]) ==> ParseEntry(data, pos) == Err(InvalidTag(data[pos]))
    ensures ParseEntry(data, pos).Ok? ==>
      var r := ParseEntry(data, pos).value;
      pos < |data| && r.value.Tag() == data[pos] && r.next == pos + 1 + PayloadSize(r.value) && r.next <= |data|
  {
    if pos < |data| {
      TagRead(data, pos);
      var t := data[pos];
      if ParseEntry(data, pos).Ok? {
        if t == TagClass || t == TagString || t == TagMethodType {
          ConsumesIndex(data, pos);
        } else if t == TagFieldRef || t == TagMethodRef || t == TagInterfaceMethodRef
          || t == TagNameAndType || t == TagInvokeDynamic {
          ConsumesPair(data, pos);
        } else if t == TagInteger || t == TagFloat || t == TagLong || t == TagDouble {
          ConsumesNumber(data, pos);
        } else {
          ConsumesVariable(data, pos);
        }
      }
    }
  }

  lemma ConsumesIndex(data: seq<Byte>, pos: nat)
    requires pos < |data| && ParseEntry(data, pos).Ok?
    requires data[pos] == TagClass || data[pos] == TagString || data[pos] == TagMethodType
    ensures var r := ParseEntry(data, pos).value;
      r.value.Tag() == data[pos] && r.next == pos + 1 + PayloadSize(r.value) && r.next <= |data|
  {
    TagRead(data, pos);
  }

  lemma ConsumesPair(data: seq<Byte>, pos: nat)
    requires pos < |data| && ParseEntry(data, pos).Ok?
    requires data[pos] == TagFieldRef || data[pos] == TagMethodRef || data[pos] == TagInterfaceMethodRef
      || data[pos] == TagNameAndType || data[pos] == TagInvokeDynamic
    ensures var r := ParseEntry(data, pos).value;
      r.value.Tag() == data[pos] && r.next == pos + 1 + PayloadSize(r.value) && r.next <= |data|
  {
    TagRead(data, pos);
  }

  lemma ConsumesNumber(data: seq<Byte>, pos: nat)
    requires pos < |data| && ParseEntry(data, pos).Ok?
    requires data[pos] == TagInteger || data[pos] == TagFloat || data[pos] == TagLong || data[pos] == TagDouble
    ensures var r := ParseEntry(data, pos).value;
      r.value.Tag() == data[pos] && r.next == pos + 1 + PayloadSize(r.value) && r.next <= |data|
  {
    TagRead(data, pos);
  }

  lemma ConsumesVariable(data: seq<Byte>, pos: nat)
    requires pos < |data| && ParseEntry(data, pos).Ok?
    requires data[pos] == TagUtf8 || data[pos] == TagMethodHandle
    ensures var r := ParseEntry(data, pos).value;
      r.value.Tag() == data[pos] && r.next == pos + 1 + PayloadSize(r.value) && r.next <= |data|
  {
    TagRead(data, pos);
  }

  /** Decoding then encoding an entry reproduces its bytes exactly. */
  lemma ParseEntryReencodes(data: seq<Byte>, pos: nat)
    requires ParseEntry(data, pos).Ok?
    ensures var r := ParseEntry(data, pos).value;
      r.next <= |data| && WellFormedEntry(r.value) && EncodeEntry(r.value) == data[pos..r.next]
  {
    var e := ParseEntry(data, pos).value.value;
    if e.Class? || e.StringConst? || e.MethodType? {
      ReencodesSingle(data, pos);
    } else if e.FieldRef? || e.MethodRef? {
      ReencodesRef(data, pos);
    } else if e.InterfaceMethodRef? || e.NameAndType? {
      ReencodesPair(data, pos);
    } else if e.InvokeDynamic? {
      ReencodesDynamic(data, pos);
    } else if e.IntegerConst? || e.LongConst? {
      ReencodesNumber(data, pos);
    } else if e.FloatConst? || e.DoubleConst? {
      ReencodesBits(data, pos);
    } else {
      ReencodesOther(data, pos);
    }
  }

  /** An entry whose tag and payload bytes both match occupies exactly those bytes. */
  lemma Reassemble(data: seq<Byte>, pos: nat, next: nat, e: Entry)
    requires pos < next <= |data| && WellFormedEntry(e) && data[pos] == e.Tag()
    requires EncodeEntry(e)[1..] == data[pos + 1..next]
    ensures EncodeEntry(e) == data[pos..next]
  {
    assert EncodeEntry(e) == [EncodeEntry(e)[0]] + EncodeEntry(e)[1..];
    assert data[pos..next] == [data[pos]] + data[pos + 1..next];
  }

  lemma ReencodesSingle(data: seq<Byte>, pos: nat)
    requires ParseEntry(data, pos).Ok?
    requires var e := ParseEntry(data, pos).value.value; e.Class? || e.StringConst? || e.MethodType?
    ensures var r := ParseEntry(data, pos).value;
      r.next <= |data| && WellFormedEntry(r.value) && EncodeEntry(r.value) == data[pos..r.next]
  {
    ParseEntryConsumes(data, pos);
    TagRead(data, pos);
    var r := ParseEntry(data, pos).value;
    var i := U2(data, pos + 1).value;
    UIntEncodes(data, pos + 1, 2);
    assert r == Parsed(r.value, i.next);
    assert EncodeEntry(r.value)[1..] == ToBigEndian(i.value, 2);
    Reassemble(data, pos, r.next, r.value);
  }

  /** The two indices of a two-index entry, with the four bytes they came from. */
  lemma TwoU2Encodes(data: seq<Byte>, pos: nat)
    requires TwoU2(data, pos).Ok?
    ensures var r := TwoU2(data, pos).value;
      && r.next == pos + 4 && r.value.0 < 0x1_0000 && r.value.1 < 0x1_0000
      && ToBigEndian(r.value.0, 2) + ToBigEndian(r.value.1, 2) == data[pos..pos + 4]
  {
    UIntEncodes(data, pos, 2);
    UIntEncodes(data, pos + 2, 2);
    assert data[pos..pos + 4] == data[pos..pos + 2] + data[pos + 2..pos + 4];
  }

  lemma ReencodesRef(data: seq<Byte>, pos: nat)
    requires ParseEntry(data, pos).Ok?
    requires var e := ParseEntry(data, pos).value.value; e.FieldRef? || e.MethodRef?
    ensures var r := ParseEntry(data, pos).value;
      r.next <= |data| && WellFormedEntry(r.value) && EncodeEntry(r.value) == data[pos..r.next]
  {
    ParseEntryConsumes(data, pos);
    TagRead(data, pos);
    var r := ParseEntry(data, pos).value;
    var two := TwoU2(data, pos + 1).value;
    TwoU2Encodes(data, pos + 1);
    assert EncodeEntry(r.value)[1..] == ToBigEndian(two.value.0, 2) + ToBigEndian(two.value.1, 2);
    Reassemble(data, pos, r.next, r.value);
  }

  lemma ReencodesPair(data: seq<Byte>, pos: nat)
    requires ParseEntry(data, pos).Ok?
    requires var e := ParseEntry(data, pos).value.value; e.InterfaceMethodRef? || e.NameAndType?
    ensures var r := ParseEntry(data, pos).value;
      r.next <= |data| && WellFormedEntry(r.value) && EncodeEntry(r.value) == data[pos..r.next]
  {
    ParseEntryConsumes(data, pos);
    TagRead(data, pos);
    var r := ParseEntry(data, pos).value;
    var two := TwoU2(data, pos + 1).value;
    TwoU2Encodes(data, pos + 1);
    assert EncodeEntry(r.value)[1..] == ToBigEndian(two.value.0, 2) + ToBigEndian(two.value.1, 2);
    Reassemble(data, pos, r.next, r.value);
  }

  lemma ReencodesDynamic(data: seq<Byte>, pos: nat)
    requires ParseEntry(data, pos).Ok? && ParseEntry(data, pos).value.value.InvokeDynamic?
    ensures var r := ParseEntry(data, pos).value;
      r.next <= |data| && WellFormedEntry(r.value) && EncodeEntry(r.value) == data[pos..r.next]
  {
    ParseEntryConsumes(data, pos);
    TagRead(data, pos);
    var r := ParseEntry(data, pos).value;
    var two := TwoU2(data, pos + 1).value;
    TwoU2Encodes(data, pos + 1);
    assert EncodeEntry(r.value)[1..] == ToBigEndian(two.value.0, 2) + ToBigEndian(two.value.1, 2);
    Reassemble(data, pos, r.next, r.value);
  }

  lemma ReencodesNumber(data: seq<Byte>, pos: nat)
    requires ParseEntry(data, pos).Ok?
    requires var e := ParseEntry(data, pos).value.value; e.IntegerConst? || e.LongConst?
    ensures var r := ParseEntry(data, pos).value;
      r.next <= |data| && WellFormedEntry(r.value) && EncodeEntry(r.value) == data[pos..r.next]
  {
    ParseEntryConsumes(data, pos);
    if ParseEntry(data, pos).value.value.IntegerConst? {
      ReencodesSigned(data, pos, 4);
    } else {
      ReencodesSigned(data, pos, 8);
    }
  }

  /** An Integer (n = 4) or Long (n = 8) entry re-encodes to its bytes. */
  lemma ReencodesSigned(data: seq<Byte>, pos: nat, n: nat)
    requires ParseEntry(data, pos).Ok? && pos < |data|
    requires n == 4 ==> data[pos] == TagInteger
    requires n == 8 ==> data[pos] == TagLong
    requires n == 4 || n == 8
    ensures var r := ParseEntry(data, pos).value;
      r.next <= |data| && WellFormedEntry(r.value) && EncodeEntry(r.value) == data[pos..r.next]
  {
    TagRead(data, pos);
    var r := ParseEntry(data, pos).value;
    var v := SInt(data, pos + 1, n).value;
    assert r.next == v.next;
    SIntEncodes(data, pos + 1, n);
    assert EncodeEntry(r.value)[1..] == ToBigEndian(Unsigned(v.value, n), n);
    Reassemble(data, pos, r.next, r.value);
  }

  /** A two's-complement value read by SInt, with the bytes it came from. */
  lemma SIntEncodes(data: seq<Byte>, pos: nat, n: nat)
    requires 0 < n && SInt(data, pos, n).Ok?
    ensures var r := SInt(data, pos, n).value;
      && r.next == pos + n && -(Pow256(n) as int) / 2 <= r.value < Pow256(n) / 2
      && ToBigEndian(Unsigned(r.value, n), n) == data[pos..pos + n]
  {
    var b := data[pos..pos + n];
    UnsignedOfSigned(BigEndian(b), n);
    ToBigEndianOfBigEndian(b);
  }

  lemma ReencodesBits(data: seq<Byte>, pos: nat)
    requires ParseEntry(data, pos).Ok?
    requires var e := ParseEntry(data, pos).value.value; e.FloatConst? || e.DoubleConst?
    ensures var r := ParseEntry(data, pos).value;
      r.next <= |data| && WellFormedEntry(r.value) && EncodeEntry(r.value) == data[pos..r.next]
  {
    ParseEntryConsumes(data, pos);
    TagRead(data, pos);
    var r := ParseEntry(data, pos).value;
    assert EncodeEntry(r.value)[1..] == data[pos + 1..r.next];
    Reassemble(data, pos, r.next, r.value);
  }

  lemma ReencodesOther(data: seq<Byte>, pos: nat)
    requires ParseEntry(data, pos).Ok?
    requires var e := ParseEntry(data, pos).value.value; e.MethodHandle? || e.Utf8?
    ensures var r := ParseEntry(data, pos).value;
      r.next <= |data| && WellFormedEntry(r.value) && EncodeEntry(r.value) == data[pos..r.next]
  {
    if ParseEntry(data, pos).value.value.MethodHandle? {
      ReencodesHandle(data, pos);
    } else {
      ReencodesUtf8(data, pos);
    }
  }

  lemma ReencodesHandle(data: seq<Byte>, pos: nat)
    requires ParseEntry(data, pos).Ok? && ParseEntry(data, pos).value.value.MethodHandle?
    ensures var r := ParseEntry(data, pos).value;
      r.next <= |data| && WellFormedEntry(r.value) && EncodeEntry(r.value) == data[pos..r.next]
  {
    ParseEntryConsumes(data, pos);
    TagRead(data, pos);
    var r := ParseEntry(data, pos).value;
    HandleEncodes(data, pos + 1);
    var k := U1(data, pos + 1).value;
    var i := U2(data, pos + 2).value;
    assert EncodeEntry(r.value)[1..] == [k.value] + ToBigEndian(i.value, 2);
    Reassemble(data, pos, r.next, r.value);
  }

  /** The kind byte and index of a method handle, with the three bytes they came from. */
  lemma HandleEncodes(data: seq<Byte>, pos: nat)
    requires pos + 3 <= |data|
    ensures var k := U1(data, pos).value; var i := U2(data, pos + 1).value;
      && U1(data, pos).Ok? && U2(data, pos + 1).Ok? && k.next == pos + 1 && i.next == pos + 3
      && k.value < 0x100 && i.value < 0x1_0000 && [k.value] + ToBigEndian(i.value, 2) == data[pos..pos + 3]
  {
    UIntEncodes(data, pos, 1);
    UIntEncodes(data, pos + 1, 2);
    assert data[pos..pos + 1] == [data[pos]];
    assert data[pos..pos + 3] == data[pos..pos + 1] + data[pos + 1..pos + 3];
  }

  lemma ReencodesUtf8(data: seq<Byte>, pos: nat)
    requires ParseEntry(data, pos).Ok? && ParseEntry(data, pos).value.value.Utf8?
    ensures var r := ParseEntry(data, pos).value;
      r.next <= |data| && WellFormedEntry(r.value) && EncodeEntry(r.value) == data[pos..r.next]
  {
    ParseEntryConsumes(data, pos);
    Utf8Parsed(data, pos);
    Utf8Bytes(data, pos);
  }

  /** The bytes of a Utf8 entry as its length prefix announces them. */
  lemma Utf8Bytes(data: seq<Byte>, pos: nat)
    requires pos + 3 <= |data| && data[pos] == TagUtf8
    requires pos + 3 + BigEndian(data[pos + 1..pos + 3]) <= |data|
    ensures var len := BigEndian(data[pos + 1..pos + 3]);
      len < 0x1_0000 && EncodeEntry(Utf8(data[pos + 3..pos + 3 + len])) == data[pos..pos + 3 + len]
  {
    var len := BigEndian(data[pos + 1..pos + 3]);
    var bytes := data[pos + 3..pos + 3 + len];
    ToBigEndianOfBigEndian(data[pos + 1..pos + 3]);
    assert EncodeEntry(Utf8(bytes))[1..] == ToBigEndian(len, 2) + bytes;
    assert data[pos + 1..pos + 3 + len] == data[pos + 1..pos + 3] + bytes;
    Reassemble(data, pos, pos + 3 + len, Utf8(bytes));
  }

  /** A Utf8 entry: a two-byte length, then that many bytes. */
  lemma Utf8Parsed(data: seq<Byte>, pos: nat)
    requires pos < |data| && data[pos] == TagUtf8 && ParseEntry(data, pos).Ok?
    ensures pos + 3 <= |data|
    ensures var len := BigEndian(data[pos + 1..pos + 3]);
      pos + 3 + len <= |data| && len < 0x1_0000 &&
      ParseEntry(data, pos) == Ok(Parsed(Utf8(data[pos + 3..pos + 3 + len]), pos + 3 + len))
  {
    TagRead(data, pos);
  }

  lemma TagAt(data: seq<Byte>, e: Entry)
    requires |data| >= 1 && data[0] == e.Tag()
    ensures U1(data, 0) == Ok(Parsed(e.Tag() as nat, 1))
  {
    assert data[0..1] == [e.Tag()];
    assert [e.Tag()][..0] == [];
  }

  /** Encoding then decoding an entry gives it back and consumes exactly its bytes. */
  lemma EntryRoundTrip(e: Entry, rest: seq<Byte>)
    requires WellFormedEntry(e)
    ensures ParseEntry(EncodeEntry(e) + rest, 0) == Ok(Parsed(e, |EncodeEntry(e)|))
  {
    if e.Class? || e.StringConst? || e.MethodType? {
      RoundTripSingle(e, rest);
    } else if e.FieldRef? || e.MethodRef? || e.InterfaceMethodRef? {
      RoundTripRef(e, rest);
    } else if e.NameAndType? || e.InvokeDynamic? {
      RoundTripPair(e, rest);
    } else if e.IntegerConst? || e.LongConst? {
      RoundTripInteger(e, rest);
    } else {
      RoundTripOther(e, rest);
    }
  }

  lemma RoundTripSingle(e: Entry, rest: seq<Byte>)
    requires WellFormedEntry(e) && (e.Class? || e.StringConst? || e.MethodType?)
    ensures ParseEntry(EncodeEntry(e) + rest, 0) == Ok(Parsed(e, |EncodeEntry(e)|))
  {
    var data := EncodeEntry(e) + rest;
    TagAt(data, e);
    match e
    case Class(i) => UIntAt(data, 1, 2, i);
    case StringConst(i) => UIntAt(data, 1, 2, i);
    case MethodType(i) => UIntAt(data, 1, 2, i);
  }

  lemma RoundTripRef(e: Entry, rest: seq<Byte>)
    requires WellFormedEntry(e) && (e.FieldRef? || e.MethodRef? || e.InterfaceMethodRef?)
    ensures ParseEntry(EncodeEntry(e) + rest, 0) == Ok(Parsed(e, |EncodeEntry(e)|))
  {
    var data := EncodeEntry(e) + rest;
    TagAt(data, e);
    TwoFieldsAt(data, e.Tag(), e.classIndex, e.nameAndTypeIndex, rest);
    UIntAt(data, 1, 2, e.classIndex);
    UIntAt(data, 3, 2, e.nameAndTypeIndex);
  }

  /** Where the two indices of a two-index entry lie in its encoding. */
  lemma TwoFieldsAt(data: seq<Byte>, tag: Byte, a: nat, b: nat, rest: seq<Byte>)
    requires a < 0x1_0000 && b < 0x1_0000
    requires data == [tag] + (ToBigEndian(a, 2) + ToBigEndian(b, 2)) + rest
    ensures |data| >= 5 && data[1..3] == ToBigEndian(a, 2) && data[3..5] == ToBigEndian(b, 2)
  {
    var x, y := ToBigEndian(a, 2), ToBigEndian(b, 2);
    assert data == [tag] + x + y + rest;
    assert data[1..3] == x;
    assert data[3..5] == y;
  }

  lemma RoundTripPair(e: Entry, rest: seq<Byte>)
    requires WellFormedEntry(e) && (e.NameAndType? || e.InvokeDynamic?)
    ensures ParseEntry(EncodeEntry(e) + rest, 0) == Ok(Parsed(e, |EncodeEntry(e)|))
  {
    var data := EncodeEntry(e) + rest;
    TagAt(data, e);
    match e
    case NameAndType(a, b) =>
      TwoFieldsAt(data, e.Tag(), a, b, rest);
      UIntAt(data, 1, 2, a);
      UIntAt(data, 3, 2, b);
    case InvokeDynamic(a, b) =>
      TwoFieldsAt(data, e.Tag(), a, b, rest);
      UIntAt(data, 1, 2, a);
      UIntAt(data, 3, 2, b);
  }

  lemma RoundTripInteger(e: Entry, rest: seq<Byte>)
    requires WellFormedEntry(e) && (e.IntegerConst? || e.LongConst?)
    ensures ParseEntry(EncodeEntry(e) + rest, 0) == Ok(Parsed(e, |EncodeEntry(e)|))
  {
    var n := if e.IntegerConst? then 4 else 8;
    var data := EncodeEntry(e) + rest;
    TagAt(data, e);
    SIntAt(data, 1, n, e.value);
  }

  /** A two's-complement value laid out at `pos` is read back by SInt. */
  lemma SIntAt(data: seq<Byte>, pos: nat, n: nat, v: int)
    requires 0 < n && -(Pow256(n) as int) / 2 <= v < Pow256(n) / 2
    requires pos + n <= |data| && data[pos..pos + n] == ToBigEndian(Unsigned(v, n), n)
    ensures SInt(data, pos, n) == Ok(Parsed(v, pos + n))
  {
    BigEndianOfToBigEndian(Unsigned(v, n), n);
    SignedRoundTrip(v, n);
  }

  lemma RoundTripOther(e: Entry, rest: seq<Byte>)
    requires WellFormedEntry(e) && (e.FloatConst? || e.DoubleConst? || e.MethodHandle? || e.Utf8?)
    ensures ParseEntry(EncodeEntry(e) + rest, 0) == Ok(Parsed(e, |EncodeEntry(e)|))
  {
    if e.FloatConst? || e.DoubleConst? {
      RoundTripBits(e, rest);
    } else {
      RoundTripVariable(e, rest);
    }
  }

  lemma RoundTripBits(e: Entry, rest: seq<Byte>)
    requires WellFormedEntry(e) && (e.FloatConst? || e.DoubleConst?)
    ensures ParseEntry(EncodeEntry(e) + rest, 0) == Ok(Parsed(e, |EncodeEntry(e)|))
  {
    var data := EncodeEntry(e) + rest;
    TagAt(data, e);
    assert data[1..1 + |e.bits|] == e.bits;
  }

  lemma RoundTripVariable(e: Entry, rest: seq<Byte>)
    requires WellFormedEntry(e) && (e.MethodHandle? || e.Utf8?)
    ensures ParseEntry(EncodeEntry(e) + rest, 0) == Ok(Parsed(e, |EncodeEntry(e)|))
  {
    var data := EncodeEntry(e) + rest;
    TagAt(data, e);
    if e.MethodHandle? {
      assert EncodeEntry(e) == [e.Tag()] + [e.referenceKind] + ToBigEndian(e.referenceIndex, 2);
      UIntAt(data, 1, 1, e.referenceKind);
      UIntAt(data, 2, 2, e.referenceIndex);
    } else {
      assert EncodeEntry(e) == [e.Tag()] + ToBigEndian(|e.bytes|, 2) + e.bytes;
      UIntAt(data, 1, 2, |e.bytes|);
      assert data[3..3 + |e.bytes|] == e.bytes;
    }
  }
}
