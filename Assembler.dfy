/**
 * ByteCodeUtils.parse: one line of assembler text becomes an instruction and its
 * operand bytes. Symbolic class, field and method names are resolved into
 * constant-pool indices with get-or-append, which grows the class file's pool;
 * every other argument is a literal byte.
 *
 * Instruction.java, InstructionInformation.java, ByteCode.java and
 * ClassFileUtils.java are not part of this model. They are taken as follows:
 *  - the Instruction constants are the mnemonics of chapter 6 of the Java Virtual
 *    Machine Specification (Java SE 8 edition), upper-cased, in opcode order;
 *  - getOrAppendUTF8 stores the UTF-8 bytes of the string, and the other
 *    getOrAppend* build the entry from the indices they are given (see module
 *    ConstantPool for the search-then-append behaviour);
 *  - an InstructionInformation is the instruction with its operand bytes, and
 *    ByteCode.of keeps the list it is given.
 * Operand bytes are kept as their unsigned values (a Java byte b as b & 0xFF).
 */
module Assembler {
  import opened Wrappers
  import opened Bytes
  import opened ConstantPool
  import opened Descriptors
  import opened Text
  import ClassFileReader

  // ---------------------------------------------------------------------
  // String.split(" ")

  /** The text cut at every space: n spaces give n + 1 pieces, empty ones included. */
  function Pieces(s: string): (ps: seq<string>)
    ensures |ps| >= 1
    decreases |s|
  {
    match IndexOfChar(s, ' ', 0)
    case None => [s]
    case Some(i) => [s[..i]] + Pieces(s[i + 1..])
  }

  function DropTrailingEmpty(ps: seq<string>): (r: seq<string>)
    ensures |r| <= |ps| && r == ps[..|r|]
    ensures |r| > 0 ==> r[|r| - 1] != ""
  {
    if |ps| > 0 && ps[|ps| - 1] == "" then DropTrailingEmpty(ps[..|ps| - 1]) else ps
  }

  /**
   * code.split(" "): the text itself when it holds no space; otherwise its pieces
   * without the empty ones at the end (so a text of spaces only gives none).
   */
  function Split(s: string): seq<string> {
    if IndexOfChar(s, ' ', 0).None? then [s] else DropTrailingEmpty(Pieces(s))
  }

  /** The pieces put back together with one space between neighbours. */
  function Join(ps: seq<string>): string {
    if |ps| == 0 then "" else if |ps| == 1 then ps[0] else ps[0] + " " + Join(ps[1..])
  }

  function Spaces(n: nat): (s: string)
    ensures |s| == n && forall k :: 0 <= k < n ==> s[k] == ' '
  {
    seq(n, _ => ' ')
  }

  predicate NoSpaces(ps: seq<string>) {
    forall k :: 0 <= k < |ps| ==> ' ' !in ps[k]
  }

  lemma {:induction false} JoinSnoc(ps: seq<string>, x: string)
    requires |ps| >= 1
    ensures Join(ps + [x]) == Join(ps) + " " + x
    decreases |ps|
  {
    if |ps| > 1 {
      assert (ps + [x])[1..] == ps[1..] + [x];
      JoinSnoc(ps[1..], x);
    } else {
      assert (ps + [x])[1..] == [x];
    }
  }

  lemma {:induction false} PiecesJoin(s: string)
    ensures Join(Pieces(s)) == s && NoSpaces(Pieces(s))
    decreases |s|
  {
    match IndexOfChar(s, ' ', 0)
    case None =>
      assert ' ' !in s by {
        forall k | 0 <= k < |s| ensures s[k] != ' ' { }
      }
    case Some(i) =>
      var rest := Pieces(s[i + 1..]);
      PiecesJoin(s[i + 1..]);
      assert Pieces(s) == [s[..i]] + rest;
      assert (Pieces(s))[1..] == rest;
      assert s == s[..i] + " " + s[i + 1..];
      assert ' ' !in s[..i] by {
        forall k | 0 <= k < i ensures s[..i][k] != ' ' { }
      }
  }

  lemma {:induction false} DropJoin(ps: seq<string>)
    ensures |Join(DropTrailingEmpty(ps))| <= |Join(ps)|
    ensures Join(ps) == Join(DropTrailingEmpty(ps)) + Spaces(|Join(ps)| - |Join(DropTrailingEmpty(ps))|)
    decreases |ps|
  {
    if |ps| > 0 && ps[|ps| - 1] == "" {
      var q := ps[..|ps| - 1];
      assert ps == q + [""];
      DropJoin(q);
      var d := Join(DropTrailingEmpty(q));
      assert DropTrailingEmpty(ps) == DropTrailingEmpty(q);
      if |q| >= 1 {
        JoinSnoc(q, "");
        var gap := |Join(q)| - |d|;
        SpacesSnoc(gap);
        calc {
          Join(ps);
          Join(q) + " " + "";
          d + Spaces(gap) + " ";
          d + (Spaces(gap) + " ");
          d + Spaces(gap + 1);
        }
      } else {
        assert ps == [""];
      }
    } else {
      assert Join(ps) + Spaces(0) == Join(ps);
    }
  }

  lemma SpacesSnoc(n: nat)
    ensures Spaces(n) + " " == Spaces(n + 1)
  {
  }

  /**
   * What split keeps: pieces without spaces which, joined by single spaces, give
   * the text up to its trailing spaces; a last piece is empty only for the empty text.
   */
  lemma SplitJoin(s: string)
    ensures NoSpaces(Split(s))
    ensures |Join(Split(s))| <= |s| && s == Join(Split(s)) + Spaces(|s| - |Join(Split(s))|)
    ensures |Split(s)| > 0 && Split(s)[|Split(s)| - 1] == "" ==> s == ""
  {
    if IndexOfChar(s, ' ', 0).None? {
      assert ' ' !in s by {
        forall k | 0 <= k < |s| ensures s[k] != ' ' { }
      }
      assert s + Spaces(0) == s;
    } else {
      PiecesJoin(s);
      DropJoin(Pieces(s));
      var ps := Pieces(s);
      var d := DropTrailingEmpty(ps);
      forall k | 0 <= k < |d| ensures ' ' !in d[k] {
        assert d[k] == ps[k];
      }
    }
  }

  // ---------------------------------------------------------------------
  // Instruction.valueOf(spl[0].toUpperCase())

  /** The mnemonics of chapter 6, upper-cased; the index of each is its opcode. */
  const Mnemonics: seq<string> := [
    "NOP", "ACONST_NULL", "ICONST_M1", "ICONST_0", "ICONST_1", "ICONST_2", "ICONST_3", "ICONST_4",
    "ICONST_5", "LCONST_0", "LCONST_1", "FCONST_0", "FCONST_1", "FCONST_2", "DCONST_0", "DCONST_1",
    "BIPUSH", "SIPUSH", "LDC", "LDC_W", "LDC2_W", "ILOAD", "LLOAD", "FLOAD",
    "DLOAD", "ALOAD", "ILOAD_0", "ILOAD_1", "ILOAD_2", "ILOAD_3", "LLOAD_0", "LLOAD_1",
    "LLOAD_2", "LLOAD_3", "FLOAD_0", "FLOAD_1", "FLOAD_2", "FLOAD_3", "DLOAD_0", "DLOAD_1",
    "DLOAD_2", "DLOAD_3", "ALOAD_0", "ALOAD_1", "ALOAD_2", "ALOAD_3", "IALOAD", "LALOAD",
    "FALOAD", "DALOAD", "AALOAD", "BALOAD", "CALOAD", "SALOAD", "ISTORE", "LSTORE",
    "FSTORE", "DSTORE", "ASTORE", "ISTORE_0", "ISTORE_1", "ISTORE_2", "ISTORE_3", "LSTORE_0",
    "LSTORE_1", "LSTORE_2", "LSTORE_3", "FSTORE_0", "FSTORE_1", "FSTORE_2", "FSTORE_3", "DSTORE_0",
    "DSTORE_1", "DSTORE_2", "DSTORE_3", "ASTORE_0", "ASTORE_1", "ASTORE_2", "ASTORE_3", "IASTORE",
    "LASTORE", "FASTORE", "DASTORE", "AASTORE", "BASTORE", "CASTORE", "SASTORE", "POP",
    "POP2", "DUP", "DUP_X1", "DUP_X2", "DUP2", "DUP2_X1", "DUP2_X2", "SWAP",
    "IADD", "LADD", "FADD", "DADD", "ISUB", "LSUB", "FSUB", "DSUB",
    "IMUL", "LMUL", "FMUL", "DMUL", "IDIV", "LDIV", "FDIV", "DDIV",
    "IREM", "LREM", "FREM", "DREM", "INEG", "LNEG", "FNEG", "DNEG",
    "ISHL", "LSHL", "ISHR", "LSHR", "IUSHR", "LUSHR", "IAND", "LAND",
    "IOR", "LOR", "IXOR", "LXOR", "IINC", "I2L", "I2F", "I2D",
    "L2I", "L2F", "L2D", "F2I", "F2L", "F2D", "D2I", "D2L",
    "D2F", "I2B", "I2C", "I2S", "LCMP", "FCMPL", "FCMPG", "DCMPL",
    "DCMPG", "IFEQ", "IFNE", "IFLT", "IFGE", "IFGT", "IFLE", "IF_ICMPEQ",
    "IF_ICMPNE", "IF_ICMPLT", "IF_ICMPGE", "IF_ICMPGT", "IF_ICMPLE", "IF_ACMPEQ", "IF_ACMPNE", "GOTO",
    "JSR", "RET", "TABLESWITCH", "LOOKUPSWITCH", "IRETURN", "LRETURN", "FRETURN", "DRETURN",
    "ARETURN", "RETURN", "GETSTATIC", "PUTSTATIC", "GETFIELD", "PUTFIELD", "INVOKEVIRTUAL", "INVOKESPECIAL",
    "INVOKESTATIC", "INVOKEINTERFACE", "INVOKEDYNAMIC", "NEW", "NEWARRAY", "ANEWARRAY", "ARRAYLENGTH", "ATHROW",
    "CHECKCAST", "INSTANCEOF", "MONITORENTER", "MONITOREXIT", "WIDE", "MULTIANEWARRAY", "IFNULL", "IFNONNULL",
    "GOTO_W", "JSR_W"
  ]

  /** The opcode of a mnemonic: its first position in the table. */
  function OpcodeFrom(name: string, op: nat): (r: Option<nat>)
    requires op <= |Mnemonics|
    ensures r.Some? ==> op <= r.value < |Mnemonics| && Mnemonics[r.value] == name
    ensures r.None? ==> forall k :: op <= k < |Mnemonics| ==> Mnemonics[k] != name
    decreases |Mnemonics| - op
  {
    if op == |Mnemonics| then None
    else if Mnemonics[op] == name then Some(op)
    else OpcodeFrom(name, op + 1)
  }

  /** Instruction.valueOf succeeds. */
  predicate IsInstruction(name: string) {
    OpcodeFrom(name, 0).Some?
  }

  // ---------------------------------------------------------------------
  // Byte.valueOf(String)

  function DigitOf(c: char): Option<nat> {
    if '0' <= c <= '9' then Some(c as int - '0' as int) else None
  }

  /** The value of a non-empty run of decimal digits. */
  function DigitsValue(ds: string): Option<nat> {
    if |ds| == 0 then None
    else if |ds| == 1 then DigitOf(ds[0])
    else match (DigitsValue(ds[..|ds| - 1]), DigitOf(ds[|ds| - 1]))
      case (Some(hi), Some(lo)) => Some(hi * 10 + lo)
      case _ => None
  }

  /** Byte.valueOf(s): an optional sign and decimal digits, whose value lies in -128..127. */
  function ByteValueOf(s: string): (r: Option<int>)
    ensures r.Some? ==> -128 <= r.value <= 127
  {
    if |s| == 0 then None
    else
      var digits := if s[0] == '-' || s[0] == '+' then s[1..] else s;
      match DigitsValue(digits)
      case None => None
      case Some(n) =>
        var v := if s[0] == '-' then -(n as int) else n as int;
        if -128 <= v <= 127 then Some(v) else None
  }

  /** Integer.toString for a non-negative value. */
  function Decimal(n: nat): (s: string)
    ensures |s| >= 1 && '0' <= s[0] <= '9'
  {
    if n < 10 then [('0' as int + n) as char] else Decimal(n / 10) + [('0' as int + n % 10) as char]
  }

  /** Byte.toString. */
  function ByteToString(v: int): string
    requires -128 <= v <= 127
  {
    if v < 0 then "-" + Decimal(-v) else Decimal(v)
  }

  lemma {:induction false} DecimalRoundTrip(n: nat)
    ensures DigitsValue(Decimal(n)) == Some(n)
    decreases n
  {
    if n >= 10 {
      DecimalRoundTrip(n / 10);
      var s := Decimal(n);
      assert s[..|s| - 1] == Decimal(n / 10);
    }
  }

  /** Every byte value written out by Byte.toString is read back by Byte.valueOf. */
  lemma ByteValueOfToString(v: int)
    requires -128 <= v <= 127
    ensures ByteValueOf(ByteToString(v)) == Some(v)
  {
    var s := ByteToString(v);
    if v < 0 {
      DecimalRoundTrip(-v);
      assert s[1..] == Decimal(-v);
    } else {
      DecimalRoundTrip(v);
    }
  }

  /** The literal operands, in order; the first argument that is not a byte is the error. */
  function ByteArgs(args: seq<string>): Result<seq<Byte>, string> {
    if |args| == 0 then Ok([])
    else match ByteArgs(args[..|args| - 1])
      case Err(a) => Err(a)
      case Ok(bs) =>
        match ByteValueOf(args[|args| - 1])
        case None => Err(args[|args| - 1])
        case Some(v) => Ok(bs + [Unsigned(v, 1)])
  }

  /** ByteArgs keeps one byte per argument, each the argument's value. */
  lemma {:induction false} ByteArgsValues(args: seq<string>)
    ensures ByteArgs(args).Ok? <==> forall k :: 0 <= k < |args| ==> ByteValueOf(args[k]).Some?
    ensures ByteArgs(args).Ok? ==>
      |ByteArgs(args).value| == |args| &&
      forall k :: 0 <= k < |args| ==> ByteArgs(args).value[k] == Unsigned(ByteValueOf(args[k]).value, 1)
    ensures ByteArgs(args).Err? ==>
      exists k :: 0 <= k < |args| && ByteArgs(args).error == args[k] && ByteValueOf(args[k]).None? &&
        forall j :: 0 <= j < k ==> ByteValueOf(args[j]).Some?
    decreases |args|
  {
    if |args| > 0 {
      var init := args[..|args| - 1];
      ByteArgsValues(init);
      assert forall k :: 0 <= k < |init| ==> init[k] == args[k];
      if ByteArgs(init).Err? {
        var k :| 0 <= k < |init| && ByteArgs(init).error == init[k] && ByteValueOf(init[k]).None? &&
          forall j :: 0 <= j < k ==> ByteValueOf(init[j]).Some?;
        assert args[k] == init[k];
      }
    }
  }

  lemma {:induction false} ByteArgsFailureStays(args: seq<string>, i: nat)
    requires i <= |args| && ByteArgs(args[..i]).Err?
    ensures ByteArgs(args) == ByteArgs(args[..i])
    decreases |args| - i
  {
    if i < |args| {
      assert args[..i + 1][..i] == args[..i];
      ByteArgsFailureStays(args, i + 1);
    } else {
      assert args[..i] == args;
    }
  }

  // ---------------------------------------------------------------------
  // The invokeinterface count byte (section 6.5 of the JVM specification, "invokeinterface")

  /** Computational type category (section 2.11.1 of the JVM specification): long and double take two argument slots. */
  function Category(t: FieldType): nat {
    if t == Base('J') || t == Base('D') then 2 else 1
  }

  /** The argument slots a parameter list takes. */
  function ArgumentSlots(ps: seq<FieldType>): nat {
    if |ps| == 0 then 0 else Category(ps[0]) + ArgumentSlots(ps[1..])
  }

  /** The size the source gives a parameter: both operands of its test compare with DOUBLE. */
  function ParameterSizeAsWritten(t: FieldType): nat {
    if t == Base('D') || t == Base('D') then 2 else 1
  }

  function ArgumentSlotsAsWritten(ps: seq<FieldType>): nat {
    if |ps| == 0 then 0 else ParameterSizeAsWritten(ps[0]) + ArgumentSlotsAsWritten(ps[1..])
  }

  function LongCount(ps: seq<FieldType>): nat {
    if |ps| == 0 then 0 else (if ps[0] == Base('J') then 1 else 0) + LongCount(ps[1..])
  }

  /** The count as written falls short by one for every long parameter, and only for those. */
  lemma {:induction false} AsWrittenMissesLongs(ps: seq<FieldType>)
    ensures ArgumentSlotsAsWritten(ps) + LongCount(ps) == ArgumentSlots(ps)
    ensures ArgumentSlotsAsWritten(ps) == ArgumentSlots(ps) <==> LongCount(ps) == 0
    decreases |ps|
  {
    if |ps| > 0 {
      AsWrittenMissesLongs(ps[1..]);
    }
  }

  /** The count byte as the source computes it: (byte) (count + 1). */
  function InterfaceCountAsWritten(desc: string): Option<Byte> {
    match ParameterTypes(desc)
    case None => None
    case Some(ps) => Some((ArgumentSlotsAsWritten(ps) + 1) % 256)
  }

  /** The count byte of section 6.5 of the JVM specification: one for the receiver plus the argument slots. */
  function InterfaceCount(desc: string): Option<Byte> {
    match ParameterTypes(desc)
    case None => None
    case Some(ps) => Some((ArgumentSlots(ps) + 1) % 256)
  }

  /** For (IJ)V the source writes 3 where the receiver, the int and the long need 4. */
  lemma LongParameterCountedOnce()
    ensures InterfaceCountAsWritten("(IJ)V") == Some(3)
    ensures InterfaceCount("(IJ)V") == Some(4)
  {
    var ps := [Base('I'), Base('J')];
    assert PrintTypes(ps[1..]) == "J";
    assert PrintMethod(ps, None) == "(IJ)V";
    MethodRoundTrip(ps, None);
    assert ArgumentSlots(ps[1..]) == 2;
    assert ArgumentSlotsAsWritten(ps[1..]) == 1;
  }

  /** The corrected count byte of a written descriptor is one plus its parameters' slots. */
  lemma InterfaceCountOfDescriptor(ps: seq<FieldType>, ret: Option<FieldType>)
    requires WellFormedTypes(ps) && (ret.Some? ==> WellFormedType(ret.value))
    ensures InterfaceCount(PrintMethod(ps, ret)) == Some((1 + ArgumentSlots(ps)) % 256)
  {
    MethodRoundTrip(ps, ret);
  }

  /** As written, the count byte leaves out one slot per long parameter. */
  lemma InterfaceCountAsWrittenOfDescriptor(ps: seq<FieldType>, ret: Option<FieldType>)
    requires WellFormedTypes(ps) && (ret.Some? ==> WellFormedType(ret.value))
    ensures InterfaceCountAsWritten(PrintMethod(ps, ret)) == Some((1 + ArgumentSlots(ps) - LongCount(ps)) % 256)
  {
    MethodRoundTrip(ps, ret);
    AsWrittenMissesLongs(ps);
  }

  // ---------------------------------------------------------------------
  // Get-or-append chains (ClassFileUtils.getOrAppend*)

  datatype RefKind = FieldKind | MethodKind | InterfaceMethodKind

  function RefEntry(kind: RefKind, classIndex: nat, nameAndTypeIndex: nat): Entry {
    match kind
    case FieldKind => FieldRef(classIndex, nameAndTypeIndex)
    case MethodKind => MethodRef(classIndex, nameAndTypeIndex)
    case InterfaceMethodKind => InterfaceMethodRef(classIndex, nameAndTypeIndex)
  }

  function Utf8Of(s: string): Entry {
    Utf8(Utf8Encode(s))
  }

  /** getOrAppendClass(cf, getOrAppendUTF8(cf, name)): the table after, and the Class index. */
  function ClassRefOf(slots: Slots, name: string): (Slots, nat) {
    var utf := GetOrAppended(slots, Utf8Of(name));
    GetOrAppended(utf.0, Class(utf.1))
  }

  /**
   * getOrAppend{Field,Method,InterfaceMethod}Ref(cf, getOrAppendClass(...owner),
   * getOrAppendNameAndType(cf, getOrAppendUTF8(...name), getOrAppendUTF8(...descriptor))),
   * in Java's left-to-right evaluation order.
   */
  function MemberRefOf(slots: Slots, kind: RefKind, owner: string, name: string, desc: string): (Slots, nat) {
    var cls := ClassRefOf(slots, owner);
    var n := GetOrAppended(cls.0, Utf8Of(name));
    var d := GetOrAppended(n.0, Utf8Of(desc));
    var nt := GetOrAppended(d.0, NameAndType(n.1, d.1));
    GetOrAppended(nt.0, RefEntry(kind, cls.1, nt.1))
  }

  // Reading the pool back: what an index names.

  function Utf8Text(slots: Slots, k: int): Option<seq<Byte>> {
    match Lookup(slots, k)
    case Some(Utf8(b)) => Some(b)
    case _ => None
  }

  function ClassNameAt(slots: Slots, k: int): Option<seq<Byte>> {
    match Lookup(slots, k)
    case Some(Class(u)) => Utf8Text(slots, u)
    case _ => None
  }

  datatype MemberName = MemberName(kind: RefKind, owner: seq<Byte>, name: seq<Byte>, descriptor: seq<Byte>)

  function RefParts(e: Entry): Option<(RefKind, nat, nat)> {
    match e
    case FieldRef(c, nt) => Some((FieldKind, c, nt))
    case MethodRef(c, nt) => Some((MethodKind, c, nt))
    case InterfaceMethodRef(c, nt) => Some((InterfaceMethodKind, c, nt))
    case _ => None
  }

  /** The kind, owner, name and descriptor a member reference at `k` spells out. */
  function MemberAt(slots: Slots, k: int): Option<MemberName> {
    match Lookup(slots, k)
    case None => None
    case Some(e) =>
      match RefParts(e)
      case None => None
      case Some((kind, c, nt)) =>
        match (ClassNameAt(slots, c), Lookup(slots, nt))
        case (Some(owner), Some(NameAndType(n, d))) =>
          (match (Utf8Text(slots, n), Utf8Text(slots, d))
           case (Some(name), Some(desc)) => Some(MemberName(kind, owner, name, desc))
           case _ => None)
        case _ => None
  }

  /** The old table is the start of the new one: nothing moved, nothing removed. */
  predicate Extends(before: Slots, after: Slots) {
    |before| <= |after| && after[..|before|] == before
  }

  /** Every entry of `before` is still at its index in `after`. */
  ghost predicate Keeps(before: Slots, after: Slots) {
    forall k :: Lookup(before, k).Some? ==> Lookup(after, k) == Lookup(before, k)
  }

  /** Get-or-append finds or adds `e`, and the table only grows. */
  lemma GetOrAppendExtends(slots: Slots, e: Entry)
    ensures Extends(slots, GetOrAppended(slots, e).0)
    ensures Lookup(GetOrAppended(slots, e).0, GetOrAppended(slots, e).1) == Some(e)
  {
    GetOrAppendFinds(slots, e);
  }

  /** An entry of a table is still there once the table has grown. */
  lemma ExtendsLookup(before: Slots, after: Slots, k: int)
    requires Extends(before, after) && Lookup(before, k).Some?
    ensures Lookup(after, k) == Lookup(before, k)
  {
    assert after[k - 1] == after[..|before|][k - 1];
  }

  /** Get-or-append finds or adds `e`, and keeps every entry already there. */
  lemma GetOrAppendKeeps(slots: Slots, e: Entry)
    ensures Extends(slots, GetOrAppended(slots, e).0)
    ensures Lookup(GetOrAppended(slots, e).0, GetOrAppended(slots, e).1) == Some(e)
    ensures Keeps(slots, GetOrAppended(slots, e).0)
  {
    GetOrAppendFinds(slots, e);
  }

  lemma ExtendsTrans(a: Slots, b: Slots, c: Slots)
    requires Extends(a, b) && Extends(b, c)
    ensures Extends(a, c)
  {
    assert c[..|a|] == c[..|b|][..|a|];
  }

  /** The Class index the chain returns names the class, and the table only grew. */
  lemma ClassRefResolves(slots: Slots, name: string)
    ensures Extends(slots, ClassRefOf(slots, name).0)
    ensures ClassNameAt(ClassRefOf(slots, name).0, ClassRefOf(slots, name).1) == Some(Utf8Encode(name))
    ensures Keeps(slots, ClassRefOf(slots, name).0)
  {
    var utf := GetOrAppended(slots, Utf8Of(name));
    var cls := GetOrAppended(utf.0, Class(utf.1));
    GetOrAppendKeeps(slots, Utf8Of(name));
    GetOrAppendKeeps(utf.0, Class(utf.1));
    ExtendsTrans(slots, utf.0, cls.0);
    KeepsTrans(slots, utf.0, cls.0);
    assert Lookup(cls.0, utf.1) == Some(Utf8Of(name));
  }

  lemma KeepsTrans(a: Slots, b: Slots, c: Slots)
    requires Keeps(a, b) && Keeps(b, c)
    ensures Keeps(a, c)
  {
  }

  /** MemberAt reads the four entries a member reference is made of. */
  lemma MemberAtParts(slots: Slots, k: nat, kind: RefKind, c: nat, nt: nat, n: nat, d: nat,
                      owner: seq<Byte>, name: seq<Byte>, desc: seq<Byte>)
    requires Lookup(slots, k) == Some(RefEntry(kind, c, nt)) && ClassNameAt(slots, c) == Some(owner)
    requires Lookup(slots, nt) == Some(NameAndType(n, d))
    requires Utf8Text(slots, n) == Some(name) && Utf8Text(slots, d) == Some(desc)
    ensures MemberAt(slots, k) == Some(MemberName(kind, owner, name, desc))
  {
    assert RefParts(RefEntry(kind, c, nt)) == Some((kind, c, nt));
  }

  /** The reference index the chain returns spells out the owner, name and descriptor given. */
  lemma MemberRefResolves(slots: Slots, kind: RefKind, owner: string, name: string, desc: string)
    ensures Extends(slots, MemberRefOf(slots, kind, owner, name, desc).0)
    ensures MemberAt(MemberRefOf(slots, kind, owner, name, desc).0, MemberRefOf(slots, kind, owner, name, desc).1)
      == Some(MemberName(kind, Utf8Encode(owner), Utf8Encode(name), Utf8Encode(desc)))
  {
    MemberRefExtends(slots, kind, owner, name, desc);
    MemberRefNames(slots, kind, owner, name, desc);
  }

  lemma MemberRefExtends(slots: Slots, kind: RefKind, owner: string, name: string, desc: string)
    ensures Extends(slots, MemberRefOf(slots, kind, owner, name, desc).0)
  {
    var cls := ClassRefOf(slots, owner);
    ClassRefResolves(slots, owner);
    var n := GetOrAppended(cls.0, Utf8Of(name));
    GetOrAppendKeeps(cls.0, Utf8Of(name));
    var d := GetOrAppended(n.0, Utf8Of(desc));
    GetOrAppendKeeps(n.0, Utf8Of(desc));
    var nt := GetOrAppended(d.0, NameAndType(n.1, d.1));
    GetOrAppendKeeps(d.0, NameAndType(n.1, d.1));
    var r := GetOrAppended(nt.0, RefEntry(kind, cls.1, nt.1));
    GetOrAppendKeeps(nt.0, RefEntry(kind, cls.1, nt.1));
    ExtendsTrans(slots, cls.0, n.0);
    ExtendsTrans(slots, n.0, d.0);
    ExtendsTrans(slots, d.0, nt.0);
    ExtendsTrans(slots, nt.0, r.0);
  }

  lemma MemberRefNames(slots: Slots, kind: RefKind, owner: string, name: string, desc: string)
    ensures MemberAt(MemberRefOf(slots, kind, owner, name, desc).0, MemberRefOf(slots, kind, owner, name, desc).1)
      == Some(MemberName(kind, Utf8Encode(owner), Utf8Encode(name), Utf8Encode(desc)))
  {
    var cls := ClassRefOf(slots, owner);
    ClassRefResolves(slots, owner);
    var n := GetOrAppended(cls.0, Utf8Of(name));
    GetOrAppendExtends(cls.0, Utf8Of(name));
    var d := GetOrAppended(n.0, Utf8Of(desc));
    GetOrAppendExtends(n.0, Utf8Of(desc));
    var nt := GetOrAppended(d.0, NameAndType(n.1, d.1));
    GetOrAppendExtends(d.0, NameAndType(n.1, d.1));
    var r := GetOrAppended(nt.0, RefEntry(kind, cls.1, nt.1));
    GetOrAppendExtends(nt.0, RefEntry(kind, cls.1, nt.1));
    ExtendsTrans(d.0, nt.0, r.0);
    ExtendsTrans(n.0, d.0, r.0);
    ExtendsTrans(cls.0, n.0, r.0);
    var u := Lookup(cls.0, cls.1).value.nameIndex;
    ExtendsLookup(cls.0, r.0, cls.1);
    ExtendsLookup(cls.0, r.0, u);
    ExtendsLookup(n.0, r.0, n.1);
    ExtendsLookup(d.0, r.0, d.1);
    ExtendsLookup(nt.0, r.0, nt.1);
    MemberAtParts(r.0, r.1, kind, cls.1, nt.1, n.1, d.1, Utf8Encode(owner), Utf8Encode(name), Utf8Encode(desc));
  }

  // ---------------------------------------------------------------------
  // One line

  datatype InstructionInformation = InstructionInformation(instruction: string, operands: seq<Byte>)

  /** What parse raises. */
  datatype AsmError =
    | MissingMnemonic                                  // spl[0] of a line of spaces only
    | UnknownInstruction(name: string)                  // Instruction.valueOf
    | WrongArgumentCount(instruction: string, expected: nat)  // "Need n args for ..."
    | BadDescriptor(descriptor: string)                 // new MethodDescriptor(...)
    | BadByte(argument: string)                         // Byte.valueOf

  /** The case of the switch an instruction falls in. */
  datatype Form = MemberRow(kind: RefKind) | InterfaceRow | ClassRow | PlainRow

  function FormOf(name: string): Form {
    if name == "INVOKESTATIC" || name == "INVOKESPECIAL" || name == "INVOKEVIRTUAL" then MemberRow(MethodKind)
    else if name == "INVOKEINTERFACE" then InterfaceRow
    else if name == "NEW" || name == "CHECKCAST" then ClassRow
    else if name == "PUTFIELD" || name == "PUTSTATIC" || name == "GETFIELD" || name == "GETSTATIC" then MemberRow(FieldKind)
    else PlainRow
  }

  /** The table after, and the outcome of, parse(classFile, code). */
  function Assemble(slots: Slots, code: string): (Slots, Result<InstructionInformation, AsmError>) {
    var spl := Split(code);
    if |spl| == 0 then (slots, Err(MissingMnemonic))
    else
      var name := ToUpperCase(spl[0]);
      if !IsInstruction(name) then (slots, Err(UnknownInstruction(name)))
      else AssembleForm(slots, name, FormOf(name), spl[1..])
  }

  /** The switch on the instruction, with the arguments after the mnemonic. */
  function AssembleForm(slots: Slots, name: string, form: Form, args: seq<string>)
    : (Slots, Result<InstructionInformation, AsmError>)
  {
    match form
    case PlainRow =>
      (slots, match ByteArgs(args)
              case Ok(bs) => Ok(InstructionInformation(name, bs))
              case Err(a) => Err(BadByte(a)))
    case ClassRow =>
      if |args| != 1 then (slots, Err(WrongArgumentCount(name, 1)))
      else
        var ref := ClassRefOf(slots, args[0]);
        (ref.0, Ok(InstructionInformation(name, ShortBytes(ref.1))))
    case MemberRow(kind) =>
      if |args| != 3 then (slots, Err(WrongArgumentCount(name, 3)))
      else
        var ref := MemberRefOf(slots, kind, args[0], args[1], args[2]);
        (ref.0, Ok(InstructionInformation(name, ShortBytes(ref.1))))
    case InterfaceRow =>
      if |args| != 3 then (slots, Err(WrongArgumentCount(name, 3)))
      else
        var ref := MemberRefOf(slots, InterfaceMethodKind, args[0], args[1], args[2]);
        match InterfaceCount(args[2])
        case None => (ref.0, Err(BadDescriptor(args[2])))
        case Some(count) => (ref.0, Ok(InstructionInformation(name, ShortBytes(ref.1) + [count, 0])))
  }

  /** getOrAppendClass(cf, getOrAppendUTF8(cf, name)) on the class file's pool. */
  method AppendClass(pool: ConstantPool, name: string) returns (index: nat)
    modifies pool
    ensures (pool.slots, index) == ClassRefOf(old(pool.slots), name)
  {
    var utf := pool.GetOrAppend(Utf8Of(name));
    index := pool.GetOrAppend(Class(utf));
  }

  /** The nested getOrAppend calls of a field or method reference, innermost first. */
  method AppendMemberRef(pool: ConstantPool, kind: RefKind, owner: string, name: string, desc: string)
    returns (index: nat)
    modifies pool
    ensures (pool.slots, index) == MemberRefOf(old(pool.slots), kind, owner, name, desc)
  {
    var cls := AppendClass(pool, owner);
    var n := pool.GetOrAppend(Utf8Of(name));
    var d := pool.GetOrAppend(Utf8Of(desc));
    var nt := pool.GetOrAppend(NameAndType(n, d));
    index := pool.GetOrAppend(RefEntry(kind, cls, nt));
  }

  /**
   * parse(classFile, code): the instruction of one line. The class file's pool
   * changes exactly as Assemble says, including on the one error raised after
   * the pool has grown (a bad invokeinterface descriptor).
   */
  method Parse(classFile: ClassFileReader.ClassFile, code: string)
    returns (r: Result<InstructionInformation, AsmError>)
    modifies classFile.constantPool
    ensures (classFile.constantPool.slots, r) == Assemble(old(classFile.constantPool.slots), code)
  {
    var spl := Split(code);
    if |spl| == 0 {
      return Err(MissingMnemonic);
    }
    var instr := ToUpperCase(spl[0]);
    if !IsInstruction(instr) {
      return Err(UnknownInstruction(instr));
    }
    r := ParseOperands(classFile.constantPool, instr, FormOf(instr), spl[1..]);
  }

  /** The switch of parse and what follows it, once the instruction is known. */
  method ParseOperands(pool: ConstantPool, instr: string, form: Form, args0: seq<string>)
    returns (r: Result<InstructionInformation, AsmError>)
    modifies pool
    ensures (pool.slots, r) == AssembleForm(old(pool.slots), instr, form, args0)
  {
    var args := args0;
    var info: seq<Byte> := [];
    if form.MemberRow? {
      if |args| != 3 {
        return Err(WrongArgumentCount(instr, 3));
      }
      var ref := AppendMemberRef(pool, form.kind, args[0], args[1], args[2]);
      args := args[3..];
      info := AddAll(info, ShortBytes(ref));
      assert info == ShortBytes(ref);
    } else if form.InterfaceRow? {
      if |args| != 3 {
        return Err(WrongArgumentCount(instr, 3));
      }
      var className, mthName, mthSig := args[0], args[1], args[2];
      args := args[3..];
      var ref := AppendMemberRef(pool, InterfaceMethodKind, className, mthName, mthSig);
      info := AddAll(info, ShortBytes(ref));
      var count := InterfaceCount(mthSig);
      if count.None? {
        return Err(BadDescriptor(mthSig));
      }
      info := info + [count.value, 0];
      assert info == ShortBytes(ref) + [count.value, 0];
    } else if form.ClassRow? {
      if |args| != 1 {
        return Err(WrongArgumentCount(instr, 1));
      }
      var ref := AppendClass(pool, args[0]);
      args := args[1..];
      info := AddAll(info, ShortBytes(ref));
      assert info == ShortBytes(ref);
    }
    // args.forEach(a -> info.add(Byte.valueOf(a))): no argument is left unless the row is plain
    if !form.PlainRow? {
      assert args == [] && ByteArgs(args) == Ok([]) && info + [] == info;
    } else {
      assert args == args0 && info == [] && pool.slots == old(pool.slots);
      assert ByteArgs(args).Ok? ==> info + ByteArgs(args).value == ByteArgs(args).value;
    }
    r := Finish(instr, info, args);
  }

  /** The arguments left over become literal bytes, and the bytes the instruction's operands. */
  method Finish(instr: string, info: seq<Byte>, args: seq<string>) returns (r: Result<InstructionInformation, AsmError>)
    ensures r == match ByteArgs(args)
      case Ok(bs) => Ok(InstructionInformation(instr, info + bs))
      case Err(a) => Err(BadByte(a))
  {
    var all := AddLiterals(info, args);
    if all.Err? {
      return Err(BadByte(all.error));
    }
    var bs := ToArray(all.value);
    r := Ok(InstructionInformation(instr, bs[..]));
  }

  /** args.forEach(a -> info.add(Byte.valueOf(a))); the first argument that is not a byte stops it. */
  method AddLiterals(info: seq<Byte>, args: seq<string>) returns (r: Result<seq<Byte>, string>)
    ensures r == match ByteArgs(args) case Ok(bs) => Ok(info + bs) case Err(a) => Err(a)
  {
    var out := info;
    for i := 0 to |args|
      invariant ByteArgs(args[..i]).Ok? && out == info + ByteArgs(args[..i]).value
    {
      var v := ByteValueOf(args[i]);
      assert args[..i + 1][..i] == args[..i];
      if v.None? {
        ByteArgsFailureStays(args, i + 1);
        return Err(args[i]);
      }
      out := out + [Unsigned(v.value, 1)];
    }
    assert args[..|args|] == args;
    r := Ok(out);
  }

  /** byte[] bs = new byte[info.size()], filled element by element. */
  method ToArray(info: seq<Byte>) returns (bs: array<Byte>)
    ensures fresh(bs) && bs[..] == info
  {
    bs := new Byte[|info|];
    for i := 0 to bs.Length
      invariant bs[..i] == info[..i]
    {
      bs[i] := info[i];
    }
  }

  // ---------------------------------------------------------------------
  // What one line produces

  /** A table that only grew keeps every entry it had. */
  lemma ExtendsKeeps(before: Slots, after: Slots)
    requires Extends(before, after)
    ensures Keeps(before, after)
  {
    forall k | Lookup(before, k).Some?
      ensures Lookup(after, k) == Lookup(before, k)
    {
      assert after[k - 1] == after[..|before|][k - 1];
    }
  }

  /** Whatever the line, the pool only grows. */
  lemma AssembleExtends(slots: Slots, code: string)
    ensures Extends(slots, Assemble(slots, code).0)
    ensures Keeps(slots, Assemble(slots, code).0)
  {
    var spl := Split(code);
    if |spl| > 0 && IsInstruction(ToUpperCase(spl[0])) {
      var args := spl[1..];
      match FormOf(ToUpperCase(spl[0]))
      case ClassRow =>
        if |args| == 1 {
          ClassRefResolves(slots, args[0]);
        }
      case MemberRow(kind) =>
        if |args| == 3 {
          MemberRefExtends(slots, kind, args[0], args[1], args[2]);
        }
      case InterfaceRow =>
        if |args| == 3 {
          MemberRefExtends(slots, InterfaceMethodKind, args[0], args[1], args[2]);
        }
      case PlainRow =>
    }
    ExtendsKeeps(slots, Assemble(slots, code).0);
  }

  /**
   * A line fails with the pool untouched, except for an invokeinterface whose
   * descriptor cannot be read: its references were added before the descriptor was.
   */
  lemma AssembleFailureKeepsPool(slots: Slots, code: string)
    requires Assemble(slots, code).1.Err? && !Assemble(slots, code).1.error.BadDescriptor?
    ensures Assemble(slots, code).0 == slots
  {
  }

  /** An instruction comes out only for a known mnemonic, written in any case. */
  lemma AssembleMnemonic(slots: Slots, code: string)
    requires Assemble(slots, code).1.Ok?
    ensures |Split(code)| > 0
    ensures Assemble(slots, code).1.value.instruction == ToUpperCase(Split(code)[0])
    ensures Assemble(slots, code).1.value.instruction in Mnemonics
  {
    var spl := Split(code);
    var name := ToUpperCase(spl[0]);
    FormKeepsName(slots, name, FormOf(name), spl[1..]);
  }

  lemma FormKeepsName(slots: Slots, name: string, form: Form, args: seq<string>)
    requires AssembleForm(slots, name, form, args).1.Ok?
    ensures AssembleForm(slots, name, form, args).1.value.instruction == name
  {
  }

  /** The two errors raised before the switch: no mnemonic, and an unknown one. */
  lemma AssembleRejects(slots: Slots, code: string)
    ensures |Split(code)| == 0 <==> Assemble(slots, code) == (slots, Err(MissingMnemonic))
    ensures |Split(code)| > 0 && !IsInstruction(ToUpperCase(Split(code)[0])) ==>
      Assemble(slots, code) == (slots, Err(UnknownInstruction(ToUpperCase(Split(code)[0]))))
  {
    var spl := Split(code);
    if |spl| > 0 && IsInstruction(ToUpperCase(spl[0])) {
      var name := ToUpperCase(spl[0]);
      FormNeverMissing(slots, name, FormOf(name), spl[1..]);
    }
  }

  lemma FormNeverMissing(slots: Slots, name: string, form: Form, args: seq<string>)
    ensures AssembleForm(slots, name, form, args).1 != Err(MissingMnemonic)
  {
  }

  /** A field or method instruction takes exactly three arguments. */
  lemma ArityChecked(slots: Slots, name: string, form: Form, args: seq<string>)
    requires !form.PlainRow?
    ensures AssembleForm(slots, name, form, args).1.Ok? ==> |args| == (if form.ClassRow? then 1 else 3)
    ensures |args| != (if form.ClassRow? then 1 else 3) ==>
      AssembleForm(slots, name, form, args) == (slots, Err(WrongArgumentCount(name, if form.ClassRow? then 1 else 3)))
  {
  }

  /** new and checkcast: two operand bytes, the index of a Class entry naming the argument. */
  lemma ClassOperands(slots: Slots, name: string, args: seq<string>)
    requires |args| == 1
    ensures AssembleForm(slots, name, ClassRow, args).1.Ok?
    ensures Extends(slots, AssembleForm(slots, name, ClassRow, args).0)
    ensures var (s, r) := AssembleForm(slots, name, ClassRow, args);
      |r.value.operands| == 2 &&
      (|s| < 0x1_0000 ==> ClassNameAt(s, BigEndian(r.value.operands)) == Some(Utf8Encode(args[0])))
  {
    ClassRefResolves(slots, args[0]);
  }

  /** Field and method instructions: two operand bytes indexing a reference to the member named. */
  lemma MemberOperands(slots: Slots, name: string, kind: RefKind, args: seq<string>)
    requires |args| == 3
    ensures AssembleForm(slots, name, MemberRow(kind), args).1.Ok?
    ensures Extends(slots, AssembleForm(slots, name, MemberRow(kind), args).0)
    ensures var (s, r) := AssembleForm(slots, name, MemberRow(kind), args);
      |r.value.operands| == 2 &&
      (|s| < 0x1_0000 ==> (MemberAt(s, BigEndian(r.value.operands)) ==
        Some(MemberName(kind, Utf8Encode(args[0]), Utf8Encode(args[1]), Utf8Encode(args[2])))))
  {
    MemberRefResolves(slots, kind, args[0], args[1], args[2]);
  }

  /**
   * invokeinterface: the interface method reference, then the count byte of
   * section 6.5 of the JVM specification and a zero; it succeeds exactly when the descriptor can be read.
   */
  lemma InterfaceOperands(slots: Slots, name: string, args: seq<string>)
    requires |args| == 3
    ensures Extends(slots, AssembleForm(slots, name, InterfaceRow, args).0)
    ensures AssembleForm(slots, name, InterfaceRow, args).1.Ok? <==> ParameterTypes(args[2]).Some?
    ensures var (s, r) := AssembleForm(slots, name, InterfaceRow, args);
      r.Ok? ==> (
        |r.value.operands| == 4 && r.value.operands[2] == InterfaceCount(args[2]).value && r.value.operands[3] == 0 &&
        (|s| < 0x1_0000 ==> (MemberAt(s, BigEndian(r.value.operands[..2])) ==
          Some(MemberName(InterfaceMethodKind, Utf8Encode(args[0]), Utf8Encode(args[1]), Utf8Encode(args[2]))))))
  {
    var ref := MemberRefOf(slots, InterfaceMethodKind, args[0], args[1], args[2]);
    MemberRefResolves(slots, InterfaceMethodKind, args[0], args[1], args[2]);
    if InterfaceCount(args[2]).Some? {
      assert (ShortBytes(ref.1) + [InterfaceCount(args[2]).value, 0])[..2] == ShortBytes(ref.1);
    }
  }

  /** Any other instruction: the pool is untouched and each argument is one literal byte. */
  lemma PlainOperands(slots: Slots, name: string, args: seq<string>)
    ensures AssembleForm(slots, name, PlainRow, args).0 == slots
    ensures AssembleForm(slots, name, PlainRow, args).1.Ok? <==>
      forall k :: 0 <= k < |args| ==> ByteValueOf(args[k]).Some?
    ensures var r := AssembleForm(slots, name, PlainRow, args).1;
      r.Ok? ==> (|r.value.operands| == |args| &&
        forall k :: 0 <= k < |args| ==> r.value.operands[k] == Unsigned(ByteValueOf(args[k]).value, 1))
    ensures var r := AssembleForm(slots, name, PlainRow, args).1;
      r.Err? ==> r.error.BadByte? && r.error.argument in args && ByteValueOf(r.error.argument).None?
  {
    ByteArgsValues(args);
  }

  // ---------------------------------------------------------------------
  // Several lines: parse(classFile, String... code)

  /** The lines assembled in order against the growing pool; the first failure stops it. */
  function AssembleAll(slots: Slots, code: seq<string>): (Slots, Result<seq<InstructionInformation>, AsmError>)
    decreases |code|
  {
    if |code| == 0 then (slots, Ok([]))
    else
      var init := AssembleAll(slots, code[..|code| - 1]);
      match init.1
      case Err(e) => (init.0, Err(e))
      case Ok(done) =>
        var last := Assemble(init.0, code[|code| - 1]);
        (last.0, match last.1 case Ok(i) => Ok(done + [i]) case Err(e) => Err(e))
  }

  method ParseAll(classFile: ClassFileReader.ClassFile, code: seq<string>)
    returns (r: Result<seq<InstructionInformation>, AsmError>)
    modifies classFile.constantPool
    ensures (classFile.constantPool.slots, r) == AssembleAll(old(classFile.constantPool.slots), code)
  {
    var inf: seq<InstructionInformation> := [];
    for i := 0 to |code|
      invariant (classFile.constantPool.slots, Ok(inf)) == AssembleAll(old(classFile.constantPool.slots), code[..i])
    {
      assert code[..i + 1][..i] == code[..i];
      var one := Parse(classFile, code[i]);
      if one.Err? {
        AssembleAllFailureStays(old(classFile.constantPool.slots), code, i + 1);
        return Err(one.error);
      }
      inf := inf + [one.value];
    }
    assert code[..|code|] == code;
    r := Ok(inf);
  }

  /** The lines after a failing one are never looked at. */
  lemma {:induction false} AssembleAllFailureStays(slots: Slots, code: seq<string>, i: nat)
    requires i <= |code| && AssembleAll(slots, code[..i]).1.Err?
    ensures AssembleAll(slots, code) == AssembleAll(slots, code[..i])
    decreases |code| - i
  {
    if i < |code| {
      assert code[..i + 1][..i] == code[..i];
      AssembleAllFailureStays(slots, code, i + 1);
    } else {
      assert code[..i] == code;
    }
  }

  /** The pool only grows over several lines. */
  lemma {:induction false} AssembleAllExtends(slots: Slots, code: seq<string>)
    ensures Extends(slots, AssembleAll(slots, code).0)
    decreases |code|
  {
    if |code| > 0 {
      var n := |code| - 1;
      var init := AssembleAll(slots, code[..n]);
      AssembleAllExtends(slots, code[..n]);
      if init.1.Ok? {
        AssembleExtends(init.0, code[n]);
        ExtendsTrans(slots, init.0, AssembleAll(slots, code).0);
      }
    }
  }

  /** A successful run yields one instruction per line. */
  lemma {:induction false} AssembleAllLength(slots: Slots, code: seq<string>)
    requires AssembleAll(slots, code).1.Ok?
    ensures |AssembleAll(slots, code).1.value| == |code|
    decreases |code|
  {
    if |code| > 0 {
      AssembleAllLength(slots, code[..|code| - 1]);
    }
  }

  /** Line k of a successful run is what that line gives against the pool the lines before it left. */
  lemma {:induction false} AssembleAllLine(slots: Slots, code: seq<string>, k: nat)
    requires AssembleAll(slots, code).1.Ok? && k < |code|
    ensures |AssembleAll(slots, code).1.value| == |code|
    ensures Assemble(AssembleAll(slots, code[..k]).0, code[k]).1 == Ok(AssembleAll(slots, code).1.value[k])
    decreases |code|
  {
    AssembleAllLength(slots, code);
    var n := |code| - 1;
    var init := AssembleAll(slots, code[..n]);
    var last := Assemble(init.0, code[n]);
    var whole := AssembleAll(slots, code);
    assert init.1.Ok? && last.1.Ok? && whole.1.value == init.1.value + [last.1.value];
    if k < n {
      AssembleAllLine(slots, code[..n], k);
      assert code[..n][..k] == code[..k];
      assert whole.1.value[k] == init.1.value[k];
    } else {
      assert code[..k] == code[..n];
    }
  }

  /**
   * One instruction per line, in order, each what its line gives against the
   * pool the lines before it left.
   */
  lemma AssembleAllLines(slots: Slots, code: seq<string>)
    requires AssembleAll(slots, code).1.Ok?
    ensures |AssembleAll(slots, code).1.value| == |code|
    ensures forall k :: 0 <= k < |code| ==>
      Assemble(AssembleAll(slots, code[..k]).0, code[k]).1 == Ok(AssembleAll(slots, code).1.value[k])
  {
    AssembleAllLength(slots, code);
    forall k | 0 <= k < |code|
      ensures Assemble(AssembleAll(slots, code[..k]).0, code[k]).1 == Ok(AssembleAll(slots, code).1.value[k])
    {
      AssembleAllLine(slots, code, k);
    }
  }

  /** for (byte b : bs) info.add(b) */
  method AddAll(info: seq<Byte>, bs: seq<Byte>) returns (r: seq<Byte>)
    ensures r == info + bs
  {
    r := info;
    for j := 0 to |bs|
      invariant r == info + bs[..j]
    {
      r := r + [bs[j]];
    }
  }
}
