/**
 * The stream side of the class-file reader: a cursor over the input bytes and the
 * reading methods of ClassFile, each proved to do what the decoder of
 * ClassFileSpec says at the cursor's position.
 */
module ClassFileReader {
  import opened Wrappers
  import opened Bytes
  import opened ConstantPool
  import opened ClassFormat
  import opened ClassFileSpec

  /**
   * A reading method agrees with the decoder: it returns the decoded value and
   * leaves the cursor where the decoder stops, or fails with the decoder's error.
   */
  predicate Tracks<T(==)>(r: Result<T, Error>, spec: Parse<T>, pos: nat) {
    match spec
    case Ok(p) => r == Ok(p.value) && pos == p.next
    case Err(e) => r == Err(e)
  }

  /** A DataInputStream over bytes that are all in memory; `pos` counts the bytes consumed. */
  class Reader {
    const data: seq<Byte>
    var pos: nat

    ghost predicate Valid()
      reads this
    {
      pos <= |data|
    }

    constructor (data: seq<Byte>)
      ensures this.data == data && pos == 0 && Valid()
    {
      this.data := data;
      pos := 0;
    }

    /** readUnsignedByte / readUnsignedShort: `n` bytes, most significant first. */
    method ReadUnsigned(n: nat) returns (r: Result<nat, Error>)
      requires Valid()
      modifies this
      ensures Valid()
      ensures Tracks(r, UInt(data, old(pos), n), pos)
    {
      if pos + n > |data| {
        return Err(Truncated);
      }
      var v: nat := 0;
      var k := 0;
      while k < n
        invariant 0 <= k <= n
        invariant v == BigEndian(data[pos..pos + k])
      {
        assert data[pos..pos + k + 1][..k] == data[pos..pos + k];
        v := v * 256 + data[pos + k];
        k := k + 1;
      }
      pos := pos + n;
      return Ok(v);
    }

    /** readShort / readInt / readLong: `n` bytes read as a two's-complement value. */
    method ReadSigned(n: nat) returns (r: Result<int, Error>)
      requires Valid() && n > 0
      modifies this
      ensures Valid()
      ensures Tracks(r, SInt(data, old(pos), n), pos)
    {
      var u :- ReadUnsigned(n);
      return Ok(Signed(u, n));
    }

    /** readFully into a new array of `n` bytes. */
    method ReadFully(n: nat) returns (r: Result<seq<Byte>, Error>)
      requires Valid()
      modifies this
      ensures Valid()
      ensures Tracks(r, Take(data, old(pos), n), pos)
    {
      if pos + n > |data| {
        return Err(Truncated);
      }
      r := Ok(data[pos..pos + n]);
      pos := pos + n;
    }
  }

  /** readConstantPoolEntry: the tag byte, then the payload its kind prescribes. */
  method ReadConstantPoolEntry(input: Reader) returns (r: Result<Entry, Error>)
    requires input.Valid()
    modifies input
    ensures input.Valid()
    ensures Tracks(r, ParseEntry(input.data, old(input.pos)), input.pos)
  {
    var t :- input.ReadUnsigned(1);
    if t == TagClass as nat {
      var i :- input.ReadUnsigned(2);
      return Ok(Class(i));
    } else if t == TagFieldRef as nat {
      var c :- input.ReadUnsigned(2);
      var n :- input.ReadUnsigned(2);
      return Ok(FieldRef(c, n));
    } else if t == TagMethodRef as nat {
      var c :- input.ReadUnsigned(2);
      var n :- input.ReadUnsigned(2);
      return Ok(MethodRef(c, n));
    } else if t == TagInterfaceMethodRef as nat {
      var c :- input.ReadUnsigned(2);
      var n :- input.ReadUnsigned(2);
      return Ok(InterfaceMethodRef(c, n));
    } else if t == TagString as nat {
      var i :- input.ReadUnsigned(2);
      return Ok(StringConst(i));
    } else if t == TagInteger as nat {
      var v :- input.ReadSigned(4);
      return Ok(IntegerConst(v));
    } else if t == TagFloat as nat {
      var b :- input.ReadFully(4);
      return Ok(FloatConst(b));
    } else if t == TagLong as nat {
      var v :- input.ReadSigned(8);
      return Ok(LongConst(v));
    } else if t == TagDouble as nat {
      var b :- input.ReadFully(8);
      return Ok(DoubleConst(b));
    } else if t == TagNameAndType as nat {
      var n :- input.ReadUnsigned(2);
      var d :- input.ReadUnsigned(2);
      return Ok(NameAndType(n, d));
    } else if t == TagUtf8 as nat {
      var length :- input.ReadUnsigned(2);
      var b :- input.ReadFully(length);
      return Ok(Utf8(b));
    } else if t == TagMethodHandle as nat {
      var k :- input.ReadUnsigned(1);
      var i :- input.ReadUnsigned(2);
      return Ok(MethodHandle(k, i));
    } else if t == TagMethodType as nat {
      var i :- input.ReadUnsigned(2);
      return Ok(MethodType(i));
    } else if t == TagInvokeDynamic as nat {
      var b :- input.ReadUnsigned(2);
      var n :- input.ReadUnsigned(2);
      return Ok(InvokeDynamic(b, n));
    } else {
      return Err(InvalidTag(t));
    }
  }

  /**
   * The pool loop of the constructor: slot after slot of a new pool of `count`,
   * with the `++i` that leaves an empty slot behind a Long or Double.
   */
  method ReadPool(input: Reader, count: nat) returns (r: Result<ConstantPool, Error>)
    requires input.Valid()
    modifies input
    ensures input.Valid()
    ensures match ParsePool(input.data, old(input.pos), 0, PoolSize(count))
      case Ok(p) => r.Ok? && fresh(r.value) && r.value.slots == p.value && input.pos == p.next
      case Err(e) => r == Err(e)
  {
    ghost var start := input.pos;
    var n := PoolSize(count);
    var pool := new ConstantPool(count);
    var i := 0;
    PrependNothing(ParsePool(input.data, start, 0, n));
    while i < n
      invariant input.Valid() && fresh(pool)
      invariant i <= n && |pool.slots| == n
      invariant ParsePool(input.data, start, 0, n) == Prepend(pool.slots[..i], ParsePool(input.data, input.pos, i, n))
      decreases n - i
    {
      i :- ReadPoolTurn(pool, input, i, n);
    }
    assert pool.slots[..i] == pool.slots;
    assert pool.slots + [] == pool.slots;
    return Ok(pool);
  }

  /**
   * One turn of the pool loop at slot `i`: read an entry into it and, for a Long or
   * Double, write the empty slot after it; the result is the next slot to fill.
   */
  method ReadPoolTurn(pool: ConstantPool, input: Reader, i: nat, n: nat) returns (r: Result<nat, Error>)
    requires input.Valid() && i < n && |pool.slots| == n
    modifies pool, input
    ensures input.Valid() && |pool.slots| == n
    ensures match r
      case Ok(j) =>
        && i < j <= n
        && Prepend(old(pool.slots[..i]), ParsePool(input.data, old(input.pos), i, n))
           == Prepend(pool.slots[..j], ParsePool(input.data, input.pos, j, n))
      case Err(e) => ParsePool(input.data, old(input.pos), i, n) == Err(e)
  {
    ghost var before := pool.slots[..i];
    PoolTurn(input.data, input.pos, i, n);
    var en :- ReadConstantPoolEntry(input);
    var j :- StoreEntry(pool, i, n, en);
    PrependPrepend(before, EntrySlots(en), ParsePool(input.data, input.pos, j, n));
    return Ok(j);
  }

  /**
   * setEntry(i, en), then setEntry(++i, null) behind a Long or Double; the result is
   * the next slot to fill, or the overrun of a hole past the table.
   */
  method StoreEntry(pool: ConstantPool, i: nat, n: nat, en: Entry) returns (r: Result<nat, Error>)
    requires i < n && |pool.slots| == n
    modifies pool
    ensures |pool.slots| == n
    ensures match r
      case Ok(j) =>
        && j == i + |EntrySlots(en)| <= n
        && pool.slots[..j] == old(pool.slots[..i]) + EntrySlots(en)
      case Err(e) => e == PoolOverrun && en.IsDoubleEntry() && i + 1 >= n
  {
    ghost var before := pool.slots[..i];
    var ok := pool.SetEntry(i, Some(en));
    var j := i;
    if en.IsDoubleEntry() {
      j := j + 1;
      ok := pool.SetEntry(j, None);
      if !ok {
        return Err(PoolOverrun);
      }
    }
    j := j + 1;
    assert pool.slots[..j] == before + EntrySlots(en);
    return Ok(j);
  }

  /** readAttribute: name index, length (a Java int), the info bytes, then parseAttribute on them. */
  method ReadAttribute(pool: ConstantPool, input: Reader) returns (r: Result<Attribute, Error>)
    requires input.Valid()
    modifies input
    ensures input.Valid()
    ensures Tracks(r, ParseAttribute(pool.slots, input.data, old(input.pos)), input.pos)
  {
    var nameIndex :- input.ReadUnsigned(2);
    var length :- input.ReadSigned(4);
    if length < 0 {
      return Err(NegativeArraySize(length));
    }
    var info :- input.ReadFully(length);
    var a :- ParseAttributeInfo(pool.slots, nameIndex, info);
    return Ok(a);
  }

  /** An attribute table of `count` entries, filled in stream order. */
  method ReadAttributes(pool: ConstantPool, input: Reader, count: nat) returns (r: Result<seq<Attribute>, Error>)
    requires input.Valid()
    modifies input
    ensures input.Valid()
    ensures Tracks(r, ParseAttributes(pool.slots, input.data, old(input.pos), count), input.pos)
  {
    ghost var start := input.pos;
    var attributes: seq<Attribute> := [];
    var k := 0;
    PrependNothing(ParseAttributes(pool.slots, input.data, start, count));
    while k < count
      invariant input.Valid() && k <= count
      invariant ParseAttributes(pool.slots, input.data, start, count)
             == Prepend(attributes, ParseAttributes(pool.slots, input.data, input.pos, count - k))
    {
      var a :- ReadAttribute(pool, input);
      PrependPrepend(attributes, [a], ParseAttributes(pool.slots, input.data, input.pos, count - k - 1));
      attributes := attributes + [a];
      k := k + 1;
    }
    assert attributes + [] == attributes;
    return Ok(attributes);
  }

  /** One field or method record: flags, name index, descriptor index, attribute table. */
  method ReadMember(pool: ConstantPool, input: Reader) returns (r: Result<Member, Error>)
    requires input.Valid()
    modifies input
    ensures input.Valid()
    ensures Tracks(r, ParseMember(pool.slots, input.data, old(input.pos)), input.pos)
  {
    var flags :- input.ReadUnsigned(2);
    var nameIndex :- input.ReadUnsigned(2);
    var descriptorIndex :- input.ReadUnsigned(2);
    var count :- input.ReadUnsigned(2);
    var attributes :- ReadAttributes(pool, input, count);
    return Ok(Member(flags, nameIndex, descriptorIndex, attributes));
  }

  /** The fields or methods array of `count` records, filled in stream order. */
  method ReadMembers(pool: ConstantPool, input: Reader, count: nat) returns (r: Result<seq<Member>, Error>)
    requires input.Valid()
    modifies input
    ensures input.Valid()
    ensures Tracks(r, ParseMembers(pool.slots, input.data, old(input.pos), count), input.pos)
  {
    ghost var start := input.pos;
    var members: seq<Member> := [];
    var k := 0;
    PrependNothing(ParseMembers(pool.slots, input.data, start, count));
    while k < count
      invariant input.Valid() && k <= count
      invariant ParseMembers(pool.slots, input.data, start, count)
             == Prepend(members, ParseMembers(pool.slots, input.data, input.pos, count - k))
    {
      var m :- ReadMember(pool, input);
      PrependPrepend(members, [m], ParseMembers(pool.slots, input.data, input.pos, count - k - 1));
      members := members + [m];
      k := k + 1;
    }
    assert members + [] == members;
    return Ok(members);
  }

  /** getEntry(index).as(ConstantPoolClassEntry). */
  method ClassEntry(pool: ConstantPool, index: nat) returns (r: Result<nat, Error>)
    ensures r == ClassAt(pool.slots, index)
  {
    var e := pool.GetEntry(index);
    if e.Some? && e.value.Class? {
      return Ok(index);
    }
    return Err(BadPoolReference(index));
  }

  /** The interfaces array: `count` indices, each resolved to a Class entry. */
  method ReadInterfaces(pool: ConstantPool, input: Reader, count: nat) returns (r: Result<seq<nat>, Error>)
    requires input.Valid()
    modifies input
    ensures input.Valid()
    ensures Tracks(r, ParseInterfaces(pool.slots, input.data, old(input.pos), count), input.pos)
  {
    ghost var start := input.pos;
    var interfaces: seq<nat> := [];
    var k := 0;
    PrependNothing(ParseInterfaces(pool.slots, input.data, start, count));
    while k < count
      invariant input.Valid() && k <= count
      invariant ParseInterfaces(pool.slots, input.data, start, count)
             == Prepend(interfaces, ParseInterfaces(pool.slots, input.data, input.pos, count - k))
    {
      var index :- input.ReadUnsigned(2);
      var c :- ClassEntry(pool, index);
      PrependPrepend(interfaces, [c], ParseInterfaces(pool.slots, input.data, input.pos, count - k - 1));
      interfaces := interfaces + [c];
      k := k + 1;
    }
    assert interfaces + [] == interfaces;
    return Ok(interfaces);
  }

  /** The magic number, compared before anything else is read, then the versions and the pool count. */
  method ReadHeader(input: Reader) returns (r: Result<Header, Error>)
    requires input.Valid() && input.pos == 0
    modifies input
    ensures input.Valid()
    ensures Tracks(r, ParseHeader(input.data), input.pos)
    ensures r == Err(BadMagic) ==> input.pos == 4
  {
    var magic :- input.ReadUnsigned(4);
    if magic != Magic {
      return Err(BadMagic);
    }
    var minor :- input.ReadUnsigned(2);
    var major :- input.ReadUnsigned(2);
    var count :- input.ReadUnsigned(2);
    return Ok(Header(minor, major, count));
  }

  /**
   * What follows the pool: access flags, this and super class, interfaces, then
   * fields and methods (their counts read with readShort), then the class attributes.
   */
  method ReadBody(pool: ConstantPool, input: Reader) returns (r: Result<Body, Error>)
    requires input.Valid()
    modifies input
    ensures input.Valid()
    ensures Tracks(r, ParseBody(pool.slots, input.data, old(input.pos)), input.pos)
  {
    var flags :- input.ReadUnsigned(2);
    var thisIndex :- input.ReadUnsigned(2);
    var thisClass :- ClassEntry(pool, thisIndex);
    var superIndex :- input.ReadUnsigned(2);
    var superClass :- ClassEntry(pool, superIndex);
    var interfaceCount :- input.ReadUnsigned(2);
    var interfaces :- ReadInterfaces(pool, input, interfaceCount);
    var fieldCount :- input.ReadSigned(2);
    if fieldCount < 0 {
      return Err(NegativeArraySize(fieldCount));
    }
    var fields :- ReadMembers(pool, input, fieldCount);
    var methodCount :- input.ReadSigned(2);
    if methodCount < 0 {
      return Err(NegativeArraySize(methodCount));
    }
    var methods :- ReadMembers(pool, input, methodCount);
    var attributeCount :- input.ReadUnsigned(2);
    var attributes :- ReadAttributes(pool, input, attributeCount);
    return Ok(Body(flags, thisClass, superClass, interfaces, fields, methods, attributes));
  }

  /** A decoded class file: what the constructor stores in its fields. */
  class ClassFile {
    const minorVersion: nat
    const majorVersion: nat
    const constantPool: ConstantPool
    const accessFlags: nat
    const thisClass: nat
    const superClass: nat
    const interfaces: seq<nat>
    const fields: seq<Member>
    const methods: seq<Member>
    const attributes: seq<Attribute>

    constructor (header: Header, pool: ConstantPool, body: Body)
      ensures minorVersion == header.minorVersion && majorVersion == header.majorVersion
      ensures constantPool == pool && accessFlags == body.accessFlags
      ensures thisClass == body.thisClass && superClass == body.superClass
      ensures interfaces == body.interfaces && fields == body.fields
      ensures methods == body.methods && attributes == body.attributes
    {
      minorVersion, majorVersion := header.minorVersion, header.majorVersion;
      constantPool := pool;
      accessFlags := body.accessFlags;
      thisClass, superClass := body.thisClass, body.superClass;
      interfaces, fields, methods, attributes := body.interfaces, body.fields, body.methods, body.attributes;
    }

    /** The object's state as a value: the pool as it is now. */
    function Data(): ClassData
      reads constantPool
    {
      ClassData(minorVersion, majorVersion, constantPool.slots, accessFlags, thisClass, superClass,
                interfaces, fields, methods, attributes)
    }
  }

  /**
   * new ClassFile(InputStream) over the bytes `input`: it succeeds exactly when the
   * decoder does, with the same class, and fails with the decoder's error otherwise.
   */
  method ReadClassFile(input: seq<Byte>) returns (r: Result<ClassFile, Error>)
    ensures r.Ok? ==> fresh(r.value) && fresh(r.value.constantPool)
    ensures r.Ok? ==> ParseClassFile(input) == Ok(r.value.Data())
    ensures r.Err? ==> ParseClassFile(input) == Err(r.error)
  {
    var stream := new Reader(input);
    var header :- ReadHeader(stream);
    var pool :- ReadPool(stream, header.poolCount);
    var body :- ReadBody(pool, stream);
    var classFile := new ClassFile(header, pool, body);
    return Ok(classFile);
  }
}
