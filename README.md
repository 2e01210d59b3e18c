# MrCore core, modelled in Dafny

This project models the parts of MrCore (a utility library for Bukkit plugins) that
decide something on their own, without a server around them:

- **the class-file reader** (`ClassFile`): the magic number, the version header,
  the constant pool (one entry per tag, with the empty slot behind every
  `Long`/`Double` entry), the access flags, this and super class, the interfaces,
  the fields and methods with their attributes, and the recognised attribute
  bodies (`Code`), plus the `getMethods(name)` and `getAttribute(name)` lookups;
- **the one-line bytecode assembler** (`ByteCodeUtils.parse`): splitting a line at
  spaces, finding the mnemonic, the operand rows for `invoke*`, `new`/`checkcast`
  and the field instructions (each appends its constant-pool references with
  get-or-append), the `invokeinterface` argument count, and the trailing byte
  literals;
- **type arguments of generic signatures** (`TypeArgument`): the two
  constructors, the wildcard predicates, `getWildcard` and `read`;
- **the extension load order** (`ExtensionLoader.loadExtensions`): registering the
  descriptions (restricted names, soft dependencies, `loadbefore`, `depend`), the
  repeated passes that load every extension whose dependencies are loaded, and the
  fallback for a round without progress;
- **paged inventories** (`GUIUtils`): the builder's size and elements, page slots
  given one by one or as a range, which items a page shows and where, and the
  click action of an inventory event;
- **reading a configuration property** (`ConfigProperty`): the undefined/null/type
  checks and the conversion into JSON-compliant values.

Each Java method that works step by step on mutable state (a stream, a pool,
a builder, a load state) is a Dafny `method` on a class or on values, proved
against a specification function. The properties are stated as lemmas about
those functions: reading after writing gives back the bytes, each part of a
parsed class file (a constant, the constant pool, an attribute, a field or
method, the interface list) re-encodes to exactly the bytes it was read from,
an assembled instruction
names the pool entries it was given, every extension is loaded after the
extensions it depends on, and, when the page slots are distinct, every item
appears on exactly the page and slot it should.

Modules, in dependency order: `Wrappers` (Option/Result), `Bytes` (big-endian
numbers, two's complement, hex, UTF-8), `Text`, `ConstantPool`, `ClassFormat`
(one constant-pool entry), `ClassFileSpec` (the whole format as functions),
`ClassFileReader` (the reader as methods over a stream), `Descriptors` (method
descriptors), `Assembler`, `Signatures`, `ExtensionLoader`, `GUI`,
`ConfigProperty`.

## Model

| member | source | states |
|---|---|---|
| Bytes.BigEndianOfToBigEndian | src/me/mrletsplay/mrcore/misc/classfile/ClassFile.java:54-56 | an unsigned value below 256^n written as n big-endian bytes reads back as itself |
| Bytes.ToBigEndianOfBigEndian | src/me/mrletsplay/mrcore/misc/classfile/ClassFile.java:54-56 | any n bytes read as an unsigned big-endian number write back to the same bytes |
| Bytes.Signed | src/me/mrletsplay/mrcore/misc/classfile/ClassFile.java:70 | readShort/readInt: the signed value lies in the two's-complement range, equals the unsigned value when non-negative and is 256^n less otherwise |
| Bytes.UnsignedOfSigned | src/me/mrletsplay/mrcore/misc/classfile/ClassFile.java:115-116 | the bit pattern of a signed read gives back the unsigned value |
| Bytes.SignedRoundTrip | src/me/mrletsplay/mrcore/misc/classfile/ClassFile.java:115-116 | a signed value in range survives being written as its bit pattern and read signed |
| Bytes.ShortBytes | src/me/mrletsplay/mrcore/misc/classfile/util/ByteCodeUtils.java:38 | getShortBytes gives two bytes that read back as the index when the index fits in 16 bits |
| Bytes.HexRoundTrip | src/me/mrletsplay/mrcore/misc/classfile/ClassFile.java:102 | the hexadecimal numeral of the error message reads back as the number |
| Bytes.Utf8EncodeAscii | src/me/mrletsplay/mrcore/misc/classfile/util/ByteCodeUtils.java:38 | an ASCII name is stored in a Utf8 entry byte for byte |
| Text.ToUpperCase | src/me/mrletsplay/mrcore/misc/classfile/util/ByteCodeUtils.java:27 | toUpperCase keeps the length of the mnemonic |
| Text.UpperCaseLetters | src/me/mrletsplay/mrcore/misc/classfile/util/ByteCodeUtils.java:27 | toUpperCase turns each small ASCII letter into its capital, keeps every other character, and leaves no small letter |
| Text.UpperCaseIdempotent | src/me/mrletsplay/mrcore/misc/classfile/util/ByteCodeUtils.java:27 | upper-casing an upper-cased mnemonic changes nothing |
| Text.EqualsIgnoreCaseCharwise | src/me/mrletsplay/mrcore/extensions/ExtensionLoader.java:82 | equalsIgnoreCase holds exactly when the names have the same length and agree at each position up to the case of an ASCII letter |
| ConstantPool.IndexOf | src/me/mrletsplay/mrcore/misc/classfile/util/ByteCodeUtils.java:38 | the lookup half of get-or-append finds the first slot holding an equal entry, and fails only when none does |
| ConstantPool.GetOrAppendFinds | src/me/mrletsplay/mrcore/misc/classfile/util/ByteCodeUtils.java:38 | get-or-append returns an index holding the entry and leaves every earlier slot as it was |
| ConstantPool.GetOrAppendIdempotent | src/me/mrletsplay/mrcore/misc/classfile/util/ByteCodeUtils.java:38 | asking again for the same entry returns the same index and adds nothing |
| ConstantPool.ConstantPool.constructor | src/me/mrletsplay/mrcore/misc/classfile/ClassFile.java:57 | a pool for count c has c - 1 slots, all empty |
| ConstantPool.ConstantPool.SetEntry | src/me/mrletsplay/mrcore/misc/classfile/ClassFile.java:60-61 | setEntry writes one slot inside the table, fails past its end and changes no other slot |
| ConstantPool.ConstantPool.GetOrAppend | src/me/mrletsplay/mrcore/misc/classfile/util/ByteCodeUtils.java:38 | the pool's new slots and the index are those of get-or-append on the old slots |
| ClassFormat.InvalidTagMessageCarriesTag | src/me/mrletsplay/mrcore/misc/classfile/ClassFile.java:99-103 | the "invalid tag" error message carries the offending tag, in hexadecimal |
| ClassFormat.EncodeEntry | src/me/mrletsplay/mrcore/misc/classfile/ClassFile.java:104-134 | an entry's bytes are its tag followed by exactly its tag's payload size |
| ClassFormat.ParseEntryConsumes | src/me/mrletsplay/mrcore/misc/classfile/ClassFile.java:98-137 | reading past the end fails as truncated, an unknown tag fails with that tag, and a read entry has the tag it was read from and consumes exactly tag plus payload |
| ClassFormat.ParseEntryReencodes | src/me/mrletsplay/mrcore/misc/classfile/ClassFile.java:104-134 | every entry read is well-formed and encodes back to exactly the bytes it was read from |
| ClassFormat.EntryRoundTrip | src/me/mrletsplay/mrcore/misc/classfile/ClassFile.java:104-134 | reading the encoding of a well-formed entry, whatever follows it, gives the entry and stops after it |
| ClassFileSpec.ParsePool | src/me/mrletsplay/mrcore/misc/classfile/ClassFile.java:58-62 | reading the pool never moves backwards or past the end of the input |
| ClassFileSpec.PoolTurn | src/me/mrletsplay/mrcore/misc/classfile/ClassFile.java:58-62 | one loop turn: a failed entry fails the pool; a Long/Double in the last slot overruns; otherwise the entry (and its hole) precede the rest of the pool |
| ClassFileSpec.PoolShape | src/me/mrletsplay/mrcore/misc/classfile/ClassFile.java:58-62 | the pool fills count - 1 slots, and a slot is empty exactly when it follows a Long or Double entry |
| ClassFileSpec.PoolLookupHole | src/me/mrletsplay/mrcore/misc/classfile/ClassFile.java:58-62 | in a decoded pool, getEntry finds nothing at a valid index exactly when that index is the one behind a Long or Double, and every Long or Double has that index inside the table |
| ClassFileSpec.PoolReencodes | src/me/mrletsplay/mrcore/misc/classfile/ClassFile.java:58-62 | the entries read encode back, in order, to exactly the bytes the pool was read from |
| ClassFileSpec.PoolWellFormed | src/me/mrletsplay/mrcore/misc/classfile/ClassFile.java:58-62 | every entry of a read pool is well-formed |
| ClassFileSpec.ParseAttribute | src/me/mrletsplay/mrcore/misc/classfile/ClassFile.java:139-144 | readAttribute consumes the 6-byte header and the length it announces, and its name index is a Utf8 entry |
| ClassFileSpec.ParseAttributeInfo | src/me/mrletsplay/mrcore/misc/classfile/ClassFile.java:146-192 | parseAttribute keeps name and raw info, and gives a Code body exactly when the name is "Code" |
| ClassFileSpec.ParseCode | src/me/mrletsplay/mrcore/misc/classfile/ClassFile.java:154-155 | a Code body's nested attributes all have Utf8 names |
| ClassFileSpec.AttributeReencodes | src/me/mrletsplay/mrcore/misc/classfile/ClassFile.java:139-144 | an attribute read encodes back to exactly its bytes |
| ClassFileSpec.ParseAttributes | src/me/mrletsplay/mrcore/misc/classfile/ClassFile.java:92-95 | reading count attributes gives count attributes with Utf8 names, within the input |
| ClassFileSpec.AttributesReencode | src/me/mrletsplay/mrcore/misc/classfile/ClassFile.java:92-95 | a sequence of attributes read encodes back to exactly its bytes |
| ClassFileSpec.ParseMember | src/me/mrletsplay/mrcore/misc/classfile/ClassFile.java:71-79 | a field or method consumes at least its 8-byte header, within the input |
| ClassFileSpec.MemberReencodes | src/me/mrletsplay/mrcore/misc/classfile/ClassFile.java:71-79 | a field or method read encodes back to exactly its bytes |
| ClassFileSpec.ParseMembers | src/me/mrletsplay/mrcore/misc/classfile/ClassFile.java:70-91 | reading count members gives count members, within the input |
| ClassFileSpec.MembersReencode | src/me/mrletsplay/mrcore/misc/classfile/ClassFile.java:70-91 | the fields (or methods) read encode back to exactly their bytes |
| ClassFileSpec.ParseInterfaces | src/me/mrletsplay/mrcore/misc/classfile/ClassFile.java:66-69 | reading count interfaces gives count indices, each naming a Class entry |
| ClassFileSpec.InterfacesReencode | src/me/mrletsplay/mrcore/misc/classfile/ClassFile.java:66-69 | the interface indices read encode back to exactly their bytes |
| ClassFileSpec.ParseBody | src/me/mrletsplay/mrcore/misc/classfile/ClassFile.java:63-95 | reading everything after the pool stays within the input |
| ClassFileSpec.SignedCountRejected | src/me/mrletsplay/mrcore/misc/classfile/ClassFile.java:70 | a field or method count of 0x8000 or more is read as a negative number (the array allocation then fails) |
| ClassFileSpec.HeaderMagic | src/me/mrletsplay/mrcore/misc/classfile/ClassFile.java:53-56 | a header shorter than four bytes is truncated, and one not starting CA FE BA BE is rejected |
| ClassFileSpec.MagicChecked | src/me/mrletsplay/mrcore/misc/classfile/ClassFile.java:53 | the same two rejections for the whole class file |
| ClassFileSpec.MagicBytes | src/me/mrletsplay/mrcore/misc/classfile/ClassFile.java:53 | 0xCAFEBABE is the byte sequence CA FE BA BE |
| ClassFileSpec.MethodsNamed | src/me/mrletsplay/mrcore/misc/classfile/ClassFile.java:230-232 | getMethods(name) fails exactly when some method's name is not a Utf8 entry, and never returns more methods than there are |
| ClassFileSpec.MethodsNamedExact | src/me/mrletsplay/mrcore/misc/classfile/ClassFile.java:230-232 | getMethods(name) returns exactly the methods with that name |
| ClassFileSpec.MethodsNamedAppend | src/me/mrletsplay/mrcore/misc/classfile/ClassFile.java:230-232 | the filter keeps the methods' order: filtering a concatenation concatenates the filtered parts |
| ClassFileSpec.AttributeNamed | src/me/mrletsplay/mrcore/misc/classfile/ClassFile.java:238-240 | getAttribute(name) returns an attribute with that name, or null when none has it |
| ClassFileSpec.AttributeNamedFindsFirst | src/me/mrletsplay/mrcore/misc/classfile/ClassFile.java:238-240 | getAttribute(name) returns the first attribute with that name |
| ClassFileSpec.AttributeNamedTotal | src/me/mrletsplay/mrcore/misc/classfile/ClassFile.java:238-240 | getAttribute never fails on attributes read from a class file |
| ClassFileReader.Reader.constructor | src/me/mrletsplay/mrcore/misc/classfile/ClassFile.java:52 | a stream over the bytes starts at position 0 |
| ClassFileReader.Reader.ReadUnsigned | src/me/mrletsplay/mrcore/misc/classfile/ClassFile.java:54-56 | readUnsignedShort/readInt read n bytes as the specification says and advance past them, or fail as truncated |
| ClassFileReader.Reader.ReadSigned | src/me/mrletsplay/mrcore/misc/classfile/ClassFile.java:70 | readShort reads n bytes as a signed number and advances past them |
| ClassFileReader.Reader.ReadFully | src/me/mrletsplay/mrcore/misc/classfile/ClassFile.java:140-142 | readFully takes exactly n bytes, or fails as truncated |
| ClassFileReader.ReadConstantPoolEntry | src/me/mrletsplay/mrcore/misc/classfile/ClassFile.java:98-137 | readConstantPoolEntry returns the entry the specification reads at the stream's position and leaves the stream after it |
| ClassFileReader.ReadPoolTurn | src/me/mrletsplay/mrcore/misc/classfile/ClassFile.java:59-61 | one loop turn stores one entry (and the hole behind a Long/Double) and keeps the pool read so far plus the rest equal to the specified pool |
| ClassFileReader.StoreEntry | src/me/mrletsplay/mrcore/misc/classfile/ClassFile.java:60-61 | the entry goes into slot i and, behind a Long or Double, a hole into slot i + 1; the slots before i are kept, and a hole that would fall past the table is reported as an overrun |
| ClassFileReader.ReadPool | src/me/mrletsplay/mrcore/misc/classfile/ClassFile.java:56-62 | the pool loop builds a fresh pool whose slots are the specified ones, or fails as the specification does |
| ClassFileReader.ReadAttribute | src/me/mrletsplay/mrcore/misc/classfile/ClassFile.java:139-144 | readAttribute returns the specified attribute and leaves the stream after it |
| ClassFileReader.ReadAttributes | src/me/mrletsplay/mrcore/misc/classfile/ClassFile.java:92-95 | the attribute loop returns the specified attributes |
| ClassFileReader.ReadMember | src/me/mrletsplay/mrcore/misc/classfile/ClassFile.java:71-79 | one field or method is read as specified |
| ClassFileReader.ReadMembers | src/me/mrletsplay/mrcore/misc/classfile/ClassFile.java:70-91 | the field (method) loop returns the specified members |
| ClassFileReader.ClassEntry | src/me/mrletsplay/mrcore/misc/classfile/ClassFile.java:64-65 | getEntry(i).as(Class) succeeds exactly on a Class entry |
| ClassFileReader.ReadInterfaces | src/me/mrletsplay/mrcore/misc/classfile/ClassFile.java:66-69 | the interface loop returns the specified Class indices |
| ClassFileReader.ReadHeader | src/me/mrletsplay/mrcore/misc/classfile/ClassFile.java:53-56 | the magic number and versions are read as specified; a bad magic fails after four bytes |
| ClassFileReader.ReadBody | src/me/mrletsplay/mrcore/misc/classfile/ClassFile.java:63-95 | everything after the pool is read as specified |
| ClassFileReader.ClassFile.constructor | src/me/mrletsplay/mrcore/misc/classfile/ClassFile.java:51-96 | the class file keeps the header, pool and body it was given |
| ClassFileReader.ReadClassFile | src/me/mrletsplay/mrcore/misc/classfile/ClassFile.java:51-96 | new ClassFile(in) succeeds exactly when the specification reads a class file, with the same contents, and fails with the same error otherwise |
| Descriptors.TypeRoundTrip | src/me/mrletsplay/mrcore/misc/classfile/util/ByteCodeUtils.java:61 | a printed field type reads back as itself and stops after it |
| Descriptors.ParamsRoundTrip | src/me/mrletsplay/mrcore/misc/classfile/util/ByteCodeUtils.java:61 | a printed parameter list reads back as itself |
| Descriptors.MethodRoundTrip | src/me/mrletsplay/mrcore/misc/classfile/util/ByteCodeUtils.java:61 | the parameter descriptors of a printed method descriptor are its parameters |
| Assembler.SplitJoin | src/me/mrletsplay/mrcore/misc/classfile/util/ByteCodeUtils.java:26 | split(" ") gives pieces without spaces that, joined with single spaces, are the line without its trailing spaces; an empty last piece only for the empty line |
| Assembler.PiecesJoin | src/me/mrletsplay/mrcore/misc/classfile/util/ByteCodeUtils.java:26 | cutting at every space and joining again gives the line back |
| Assembler.OpcodeFrom | src/me/mrletsplay/mrcore/misc/classfile/util/ByteCodeUtils.java:27 | Instruction.valueOf finds the mnemonic's position in the instruction table, or proves it absent |
| Assembler.ByteValueOf | src/me/mrletsplay/mrcore/misc/classfile/util/ByteCodeUtils.java:104 | Byte.valueOf accepts only values from -128 to 127 |
| Assembler.ByteValueOfToString | src/me/mrletsplay/mrcore/misc/classfile/util/ByteCodeUtils.java:104 | every byte value's decimal form is accepted as that value |
| Assembler.ByteArgsValues | src/me/mrletsplay/mrcore/misc/classfile/util/ByteCodeUtils.java:104 | the trailing literals succeed exactly when each is a byte, give one two's-complement byte per literal in order, and otherwise fail on the first bad literal |
| Assembler.AsWrittenMissesLongs | src/me/mrletsplay/mrcore/misc/classfile/util/ByteCodeUtils.java:61-63 | the count as written is short by exactly the number of long parameters |
| Assembler.LongParameterCountedOnce | src/me/mrletsplay/mrcore/misc/classfile/util/ByteCodeUtils.java:61-65 | for "(IJ)V" the count as written is 3 where the argument slots give 4 |
| Assembler.InterfaceCountAsWrittenOfDescriptor | src/me/mrletsplay/mrcore/misc/classfile/util/ByteCodeUtils.java:61-65 | the count as written is 1 plus the argument slots minus the long parameters, modulo 256 |
| Assembler.InterfaceCountOfDescriptor | src/me/mrletsplay/mrcore/misc/classfile/util/ByteCodeUtils.java:61-65 | the corrected count is 1 plus the argument slots (2 for long and double), modulo 256 |
| Assembler.ClassRefResolves | src/me/mrletsplay/mrcore/misc/classfile/util/ByteCodeUtils.java:73 | getOrAppendClass(getOrAppendUTF8(name)) only appends, and the index names a Class entry whose name is the class name |
| Assembler.MemberRefResolves | src/me/mrletsplay/mrcore/misc/classfile/util/ByteCodeUtils.java:38 | the member reference chain only appends, and the index names a reference with the given kind, owner, name and descriptor |
| Assembler.MemberRefNames | src/me/mrletsplay/mrcore/misc/classfile/util/ByteCodeUtils.java:38 | the member reference resolves to the given owner, name and descriptor |
| Assembler.AppendClass | src/me/mrletsplay/mrcore/misc/classfile/util/ByteCodeUtils.java:73 | the pool afterwards and the index are those of the class reference chain |
| Assembler.AppendMemberRef | src/me/mrletsplay/mrcore/misc/classfile/util/ByteCodeUtils.java:38 | the pool afterwards and the index are those of the member reference chain |
| Assembler.Parse | src/me/mrletsplay/mrcore/misc/classfile/util/ByteCodeUtils.java:25-109 | parse(classFile, code) changes the pool and returns what the one-line assembler specifies, with the corrected invokeinterface count |
| Assembler.ParseOperands | src/me/mrletsplay/mrcore/misc/classfile/util/ByteCodeUtils.java:32-108 | the switch and the literals leave the pool and result that the operand row specifies, with the corrected invokeinterface count |
| Assembler.Finish | src/me/mrletsplay/mrcore/misc/classfile/util/ByteCodeUtils.java:104-108 | the trailing literals are appended after the reference bytes, or the first bad one is reported |
| Assembler.AddLiterals | src/me/mrletsplay/mrcore/misc/classfile/util/ByteCodeUtils.java:104 | the literal loop appends the literals' bytes or stops on the first bad one |
| Assembler.ToArray | src/me/mrletsplay/mrcore/misc/classfile/util/ByteCodeUtils.java:106-107 | the copy into a new array holds the same bytes in the same order |
| Assembler.AddAll | src/me/mrletsplay/mrcore/misc/classfile/util/ByteCodeUtils.java:39 | the loop over getShortBytes appends both bytes in order |
| Assembler.AssembleRejects | src/me/mrletsplay/mrcore/misc/classfile/util/ByteCodeUtils.java:26-27 | a line without pieces has no mnemonic, and an unknown mnemonic is rejected; neither touches the pool |
| Assembler.AssembleMnemonic | src/me/mrletsplay/mrcore/misc/classfile/util/ByteCodeUtils.java:27 | an assembled instruction is the upper-cased first piece, and it is in the instruction table |
| Assembler.FormKeepsName | src/me/mrletsplay/mrcore/misc/classfile/util/ByteCodeUtils.java:108 | the result carries the instruction it was assembled for |
| Assembler.FormNeverMissing | src/me/mrletsplay/mrcore/misc/classfile/util/ByteCodeUtils.java:32-104 | once an instruction is found, the failure is never a missing mnemonic |
| Assembler.ArityChecked | src/me/mrletsplay/mrcore/misc/classfile/util/ByteCodeUtils.java:37-95 | the reference rows accept exactly 1 (class) or 3 (member) arguments and reject any other count before touching the pool |
| Assembler.ClassOperands | src/me/mrletsplay/mrcore/misc/classfile/util/ByteCodeUtils.java:70-83 | new/checkcast give two bytes naming a Class entry with the argument's name |
| Assembler.MemberOperands | src/me/mrletsplay/mrcore/misc/classfile/util/ByteCodeUtils.java:33-40 | invoke and field rows give two bytes naming a reference to the given owner, name and descriptor |
| Assembler.InterfaceOperands | src/me/mrletsplay/mrcore/misc/classfile/util/ByteCodeUtils.java:51-69 | invokeinterface succeeds exactly for a readable descriptor, and gives the reference, the corrected count and a zero byte |
| Assembler.PlainOperands | src/me/mrletsplay/mrcore/misc/classfile/util/ByteCodeUtils.java:100-104 | any other instruction leaves the pool alone and takes only byte literals, reporting a bad one |
| Assembler.AssembleExtends | src/me/mrletsplay/mrcore/misc/classfile/util/ByteCodeUtils.java:32-102 | assembling a line only appends to the pool: every existing entry keeps its index |
| Assembler.AssembleFailureKeepsPool | src/me/mrletsplay/mrcore/misc/classfile/util/ByteCodeUtils.java:26-53 | a line rejected before any pool call leaves the pool unchanged |
| Assembler.ParseAll | src/me/mrletsplay/mrcore/misc/classfile/util/ByteCodeUtils.java:19-23 | the varargs loop assembles the lines in order against the growing pool, stopping at the first failure |
| Assembler.AssembleAllFailureStays | src/me/mrletsplay/mrcore/misc/classfile/util/ByteCodeUtils.java:21 | once a line fails, later lines change nothing |
| Assembler.AssembleAllExtends | src/me/mrletsplay/mrcore/misc/classfile/util/ByteCodeUtils.java:19-23 | assembling many lines only appends to the pool |
| Assembler.AssembleAllLength | src/me/mrletsplay/mrcore/misc/classfile/util/ByteCodeUtils.java:19-23 | a successful run gives one instruction per line |
| Assembler.AssembleAllLine | src/me/mrletsplay/mrcore/misc/classfile/util/ByteCodeUtils.java:21 | instruction k is line k assembled against the pool the first k lines left |
| Assembler.AssembleAllLines | src/me/mrletsplay/mrcore/misc/classfile/util/ByteCodeUtils.java:19-23 | the same for every line at once |
| Signatures.AnyArgument | src/me/mrletsplay/mrcore/misc/classfile/signature/TypeArgument.java:11-13 | the no-argument constructor makes the unbounded argument: any, no indicator, no signature |
| Signatures.BoundedArgument | src/me/mrletsplay/mrcore/misc/classfile/signature/TypeArgument.java:15-19 | the two-argument constructor keeps the indicator and the signature and is not any |
| Signatures.TypeArgument.GetWildcard | src/me/mrletsplay/mrcore/misc/classfile/signature/TypeArgument.java:45-49 | ANY exactly when any, NONE exactly for no indicator, EXTENDS exactly for '+', SUPER for any other indicator |
| Signatures.WildcardMatchesPredicates | src/me/mrletsplay/mrcore/misc/classfile/signature/TypeArgument.java:21-49 | on a type argument read from a signature, getWildcard agrees with isAny, isExact, isExtends and isSuper |
| Signatures.ReadClassifiesOnce | src/me/mrletsplay/mrcore/misc/classfile/signature/TypeArgument.java:21-57 | a read type argument satisfies exactly one of isAny, isExact, isExtends, isSuper |
| Signatures.ParseTypeArgument | src/me/mrletsplay/mrcore/misc/classfile/signature/TypeArgument.java:51-57 | read consumes at least one character and stays within the text |
| Signatures.CharReader.constructor | src/me/mrletsplay/mrcore/misc/classfile/signature/TypeArgument.java:51 | a reader over a text starts at its first character |
| Signatures.CharReader.Next | src/me/mrletsplay/mrcore/misc/classfile/signature/TypeArgument.java:52 | next returns the current character and advances, or fails at the end |
| Signatures.CharReader.Revert | src/me/mrletsplay/mrcore/misc/classfile/signature/TypeArgument.java:55 | revert steps back one character |
| Signatures.ReadReferenceTypeSignature | src/me/mrletsplay/mrcore/misc/classfile/signature/TypeArgument.java:56 | reading a reference type signature from the reader gives what the signature grammar specifies and leaves the reader after it |
| Signatures.ReadTypeArgument | src/me/mrletsplay/mrcore/misc/classfile/signature/TypeArgument.java:51-57 | read(reader) gives the specified type argument and leaves the reader after it |
| Signatures.TypeArgumentRoundTrip | src/me/mrletsplay/mrcore/misc/classfile/signature/TypeArgument.java:51-57 | a printed type argument reads back as itself and stops after it |
| Signatures.AnyRoundTrip | src/me/mrletsplay/mrcore/misc/classfile/signature/TypeArgument.java:53 | '*' reads as the unbounded argument |
| Signatures.BoundedRoundTrip | src/me/mrletsplay/mrcore/misc/classfile/signature/TypeArgument.java:54-56 | '+' or '-' followed by a signature reads as that bounded argument |
| Signatures.ExactRoundTrip | src/me/mrletsplay/mrcore/misc/classfile/signature/TypeArgument.java:55-56 | a bare signature is read after reverting the first character, as the exact argument |
| Signatures.RefSigRoundTrip | src/me/mrletsplay/mrcore/misc/classfile/signature/TypeArgument.java:56 | a printed reference type signature reads back as itself |
| ExtensionLoader.AddSoft | src/me/mrletsplay/mrcore/extensions/ExtensionLoader.java:98-106 | merging soft dependencies adds the new ones under the key and loses none |
| ExtensionLoader.Register | src/me/mrletsplay/mrcore/extensions/ExtensionLoader.java:76-126 | the registration loop builds the registry the specification describes |
| ExtensionLoader.RegisterFile | src/me/mrletsplay/mrcore/extensions/ExtensionLoader.java:81-125 | one turn of the loop gives exactly RegisterOne: a restricted name changes nothing; otherwise the file replaces any earlier one of its name, and its soft dependencies, hard dependencies and loadbefore targets are recorded |
| ExtensionLoader.AddLoadBefore | src/me/mrletsplay/mrcore/extensions/ExtensionLoader.java:113-124 | the loadbefore loop appends the extension's name to each target's soft list, in order, creating a list for a target without one |
| ExtensionLoader.RegisteredNames | src/me/mrletsplay/mrcore/extensions/ExtensionLoader.java:81-87 | the pending extensions are exactly the described names that are not restricted, each under its own name |
| ExtensionLoader.RestrictedNeverPending | src/me/mrletsplay/mrcore/extensions/ExtensionLoader.java:82-85 | a restricted name is never registered |
| ExtensionLoader.LastFileWins | src/me/mrletsplay/mrcore/extensions/ExtensionLoader.java:87 | of two descriptions with the same name, the later one is kept |
| ExtensionLoader.SoftDependenciesKept | src/me/mrletsplay/mrcore/extensions/ExtensionLoader.java:98-125 | every soft dependency is recorded, and every loadbefore target gets the extension as a soft dependency |
| ExtensionLoader.LoadBeforeWithin | src/me/mrletsplay/mrcore/extensions/ExtensionLoader.java:113-125 | loadbefore adds the extension to every target's soft dependencies and removes none |
| ExtensionLoader.LastDependWins | src/me/mrletsplay/mrcore/extensions/ExtensionLoader.java:108-111 | a non-empty depend list replaces the earlier one; the last such description wins |
| ExtensionLoader.DependenciesOfPending | src/me/mrletsplay/mrcore/extensions/ExtensionLoader.java:108-111 | only registered extensions have dependency lists, and none is empty |
| ExtensionLoader.Keep | src/me/mrletsplay/mrcore/extensions/ExtensionLoader.java:171-178 | keeping the soft dependencies still pending keeps exactly those |
| ExtensionLoader.Without | src/me/mrletsplay/mrcore/extensions/ExtensionLoader.java:141-147 | removing the loaded dependencies removes exactly those |
| ExtensionLoader.StartInv | src/me/mrletsplay/mrcore/extensions/ExtensionLoader.java:72 | the start state (only the core counts as loaded) satisfies the load invariant |
| ExtensionLoader.PruneDependencies | src/me/mrletsplay/mrcore/extensions/ExtensionLoader.java:139-162 | the dependency loop finds an unknown dependency exactly when one is neither loaded nor pending, and otherwise keeps the unloaded ones |
| ExtensionLoader.PruneSoft | src/me/mrletsplay/mrcore/extensions/ExtensionLoader.java:169-178 | the soft-dependency loop keeps the pending ones |
| ExtensionLoader.DropKeepsInv | src/me/mrletsplay/mrcore/extensions/ExtensionLoader.java:149-160 | dropping an extension with an unknown dependency keeps the invariant |
| ExtensionLoader.PruneDepsKeepsInv | src/me/mrletsplay/mrcore/extensions/ExtensionLoader.java:164-166 | pruning loaded dependencies, and removing an emptied list, keeps the invariant |
| ExtensionLoader.PruneSoftKeepsInv | src/me/mrletsplay/mrcore/extensions/ExtensionLoader.java:180-182 | pruning soft dependencies, and removing an emptied list, keeps the invariant |
| ExtensionLoader.LoadKeepsInv | src/me/mrletsplay/mrcore/extensions/ExtensionLoader.java:184-192 | loading an extension without remaining dependencies keeps the invariant |
| ExtensionLoader.ClearToLoad | src/me/mrletsplay/mrcore/extensions/ExtensionLoader.java:184-193 | an extension without remaining soft dependencies has none of its soft dependencies pending |
| ExtensionLoader.VisitDependencies | src/me/mrletsplay/mrcore/extensions/ExtensionLoader.java:138-167 | an extension is dropped only for a dependency that is neither loaded nor pending |
| ExtensionLoader.VisitSoftDependencies | src/me/mrletsplay/mrcore/extensions/ExtensionLoader.java:168-183 | the soft step changes only soft-dependency lists and keeps the invariant |
| ExtensionLoader.LoadIfClear | src/me/mrletsplay/mrcore/extensions/ExtensionLoader.java:184-193 | an extension is loaded, and appended to the extensions, only when nothing holds it back |
| ExtensionLoader.Visit | src/me/mrletsplay/mrcore/extensions/ExtensionLoader.java:136-193 | one turn of the pass removes the extension exactly when it made progress, by dropping or loading it |
| ExtensionLoader.Pass | src/me/mrletsplay/mrcore/extensions/ExtensionLoader.java:132-194 | a pass keeps the invariant, only removes pending extensions and only appends loaded ones; with progress fewer extensions are pending, without it the pending and loaded extensions are unchanged (their dependency lists may still shrink); each extension it loads had no soft dependency pending |
| ExtensionLoader.FirstFree | src/me/mrletsplay/mrcore/extensions/ExtensionLoader.java:199-214 | the fallback finds the first pending extension without hard dependencies, or proves there is none |
| ExtensionLoader.CircularKeepsInv | src/me/mrletsplay/mrcore/extensions/ExtensionLoader.java:216-226 | giving up on a circular remainder keeps the invariant |
| ExtensionLoader.Fallback | src/me/mrletsplay/mrcore/extensions/ExtensionLoader.java:196-227 | the fallback loads the first extension without hard dependencies, or clears everything that is left |
| ExtensionLoader.Round | src/me/mrletsplay/mrcore/extensions/ExtensionLoader.java:131-228 | each round of the outer loop removes at least one pending extension |
| ExtensionLoader.LoadOrder | src/me/mrletsplay/mrcore/extensions/ExtensionLoader.java:131-228 | the loop ends with each extension loaded at most once, as registered, after all its hard dependencies, and every extension without hard dependencies loaded |
| ExtensionLoader.LoadExtensions | src/me/mrletsplay/mrcore/extensions/ExtensionLoader.java:72-228 | the same for the whole method, starting from the descriptions |
| ExtensionLoader.UnknownDependencyNeverLoaded | src/me/mrletsplay/mrcore/extensions/ExtensionLoader.java:145-160 | an extension with a dependency that is not registered is never loaded |
| GUI.Wrap | src/me/mrletsplay/mrcore/bukkitimpl/GUIUtils.java:46 | Java int arithmetic: the result is the true value modulo 2^32, and the value itself when it fits |
| GUI.GUIBuilder.constructor | src/me/mrletsplay/mrcore/bukkitimpl/GUIUtils.java:44-49 | the inventory size is rows * 9 (in Java int arithmetic) and there are no elements |
| GUI.GUIBuilder.AddElement | src/me/mrletsplay/mrcore/bukkitimpl/GUIUtils.java:71-74 | addElement puts the element at the slot, replacing any earlier one, and leaves other slots and the size alone |
| GUI.GUIBuilderMultiPage.constructor | src/me/mrletsplay/mrcore/bukkitimpl/GUIUtils.java:148-151 | a paged builder starts like a builder, with no page slots |
| GUI.GUIBuilderMultiPage.AddElement | src/me/mrletsplay/mrcore/bukkitimpl/GUIUtils.java:71-74 | the inherited addElement on a paged builder |
| GUI.GUIBuilderMultiPage.AddPageSlots | src/me/mrletsplay/mrcore/bukkitimpl/GUIUtils.java:168-171 | addPageSlots appends the slots in the order given |
| GUI.GUIBuilderMultiPage.AddPageSlotsInRange | src/me/mrletsplay/mrcore/bukkitimpl/GUIUtils.java:181-189 | addPageSlotsInRange appends from, from + 1, ..., to (nothing when from > to) |
| GUI.SlotRange | src/me/mrletsplay/mrcore/bukkitimpl/GUIUtils.java:181-189 | the range from..to has to - from + 1 slots, the k-th being from + k |
| GUI.SlotRangeMembers | src/me/mrletsplay/mrcore/bukkitimpl/GUIUtils.java:181-189 | a slot is in the range exactly when from <= slot <= to, and the range is strictly increasing |
| GUI.NextAsWritten | src/me/mrletsplay/mrcore/bukkitimpl/GUIUtils.java:185 | from++ on a Java int: one more, except that the largest int wraps to the smallest |
| GUI.RangeToMaxNeverEnds | src/me/mrletsplay/mrcore/bukkitimpl/GUIUtils.java:183-186 | with to the largest int the loop condition never fails: every number of steps adds as many slots |
| GUI.RangeToMaxWraps | src/me/mrletsplay/mrcore/bukkitimpl/GUIUtils.java:183-186 | the slot after the largest int is the smallest int |
| GUI.RangeAsWrittenBelowMax | src/me/mrletsplay/mrcore/bukkitimpl/GUIUtils.java:181-189 | for every other to, the loop as written adds exactly the range from..to |
| GUI.PageEnd | src/me/mrletsplay/mrcore/bukkitimpl/GUIUtils.java:694 | a page ends after nSlots items or at the last item, whichever comes first |
| GUI.PageFor | src/me/mrletsplay/mrcore/bukkitimpl/GUIUtils.java:681-705 | without page slots the division fails; otherwise there is a page exactly for 0 <= page <= items / slots |
| GUI.GUIMultiPage.constructor | src/me/mrletsplay/mrcore/bukkitimpl/GUIUtils.java:662-665 | a paged GUI keeps its builder |
| GUI.GUIMultiPage.GetForPlayer | src/me/mrletsplay/mrcore/bukkitimpl/GUIUtils.java:681-705 | the loop fills the page as specified |
| GUI.PageShowsItems | src/me/mrletsplay/mrcore/bukkitimpl/GUIUtils.java:691-701 | with distinct page slots, the page shows the items start..end in slots 0..end-start, one each, and nothing else |
| GUI.PlacedValues | src/me/mrletsplay/mrcore/bukkitimpl/GUIUtils.java:694-698 | the k-th item of a page is shown in its page slot whenever no later item of the page uses the same slot, so with repeated slots the last item put there wins |
| GUI.PageContents | src/me/mrletsplay/mrcore/bukkitimpl/GUIUtils.java:682-698 | the inventory holds the builder's elements with the page's items over them |
| GUI.EveryItemShown | src/me/mrletsplay/mrcore/bukkitimpl/GUIUtils.java:691-701 | with distinct page slots, item i appears on page i / slots, in page slot i % slots |
| GUI.LastPageEmpty | src/me/mrletsplay/mrcore/bukkitimpl/GUIUtils.java:691-694 | when the items fill the pages exactly, the page after the last full one still exists and is empty |
| GUI.FromEvent | src/me/mrletsplay/mrcore/bukkitimpl/GUIUtils.java:553-568 | a left click is (shift) left whatever the right button says, a right click otherwise, and neither is null |
| ConfigProperty.GetValue | src/me/mrletsplay/mrcore/config/v2/ConfigProperty.java:27-32 | an undefined value fails, a null value is null for any class, another class fails as incompatible, the value class gives the value |
| ConfigProperty.GetJSONValue | src/me/mrletsplay/mrcore/config/v2/ConfigProperty.java:34-38 | the same undefined and null checks, then the conversion of the value |
| ConfigProperty.ToJSONCompliant | src/me/mrletsplay/mrcore/config/v2/ConfigProperty.java:40-53 | the conversion keeps null, list lengths and section keys, turns a character into its one-character string, returns strings and other objects as they are, and fails only with a null pointer |
| ConfigProperty.ConversionFails | src/me/mrletsplay/mrcore/config/v2/ConfigProperty.java:43-44 | the conversion fails exactly when a section, at any depth, holds a null entry |
| ConfigProperty.ConversionCompliant | src/me/mrletsplay/mrcore/config/v2/ConfigProperty.java:40-53 | a converted value holds no character and no section |
| ConfigProperty.CompliantUnchanged | src/me/mrletsplay/mrcore/config/v2/ConfigProperty.java:40-53 | a value without characters and sections converts to itself |
| ConfigProperty.ConversionIdempotent | src/me/mrletsplay/mrcore/config/v2/ConfigProperty.java:40-53 | converting twice is converting once |
| ConfigProperty.ConversionElementwise | src/me/mrletsplay/mrcore/config/v2/ConfigProperty.java:43-48 | each list element and each section entry is converted on its own, in place |

## Left out

- Streams are byte sequences with a position; a short read (an `EOFException`, or `in.read` filling less than the array) is the `Truncated` error. Java arrays of entries, fields and methods are sequences.
- No class-file writer exists in the source. The encoders here (`EncodeEntry`, `EncodePool`, ...) only state what the reader consumes.
- Float and Double constants are kept as their raw bits. Utf8 constants are kept as their bytes. ClassFile.java:128 decodes them with standard UTF-8 (`new String(b, StandardCharsets.UTF_8)`), which replaces every malformed sequence with U+FFFD, including the `C0 80` and surrogate-pair forms of modified UTF-8. That decoding is not modelled.
- ClassFileSpec.MethodsNamed and ClassFileSpec.AttributeNamed: compare names as bytes, where `getMethods(name)` and `getAttribute(name)` (ClassFile.java:230-240) compare the decoded strings. The two agree on well-formed UTF-8 names. On malformed ones they differ: methods named by the bytes `FF` and `FE` both match `getMethods("\uFFFD")` in Java, while no byte name matches both here.
- `toString`, `equals` and the other accessors are not modelled. Neither is the commented-out `invokedynamic` row of the assembler, which is dead code.
- Text.UpperCaseLetters: maps only the ASCII letters; Java's locale-dependent case mapping of other characters is not modelled.
- Assembler.ByteValueOf: accepts only the ASCII digits '0'..'9'. `Byte.valueOf` goes through `Character.digit`, which also accepts the other Unicode decimal digits (`bipush \u0665` gives 5 in Java and `BadByte` here); the Unicode digit table is not modelled.
- ExtensionLoader.RestrictedNeverPending: a name is restricted when it equals "bukkit", "minecraft" or "mojang" up to the case of ASCII letters. `String.equalsIgnoreCase` also folds non-ASCII characters, so Java refuses names such as "bukk\u0131t" or "bu\u212A\u212Ait" that this model registers; the Unicode case tables are not modelled.
- Assembler.Parse: assembles `invokeinterface` with the corrected count byte (long and double parameters both take two slots), not the count of ByteCodeUtils.java:61-65, which counts a long as one slot. The count as written is `InterfaceCountAsWritten`; see Findings.
- Assembler.ParseOperands: writes the corrected count byte for `invokeinterface`, as `Assembler.Parse` does (through `AssembleForm`), not the one of ByteCodeUtils.java:61-65.
- `Instruction`, `MethodDescriptor`, `AttributeRaw`, `DefaultAttributeType`, `ClassFileUtils`, `ConstantPool`, `ByteCode`, `AttributeCode`, `CharReader`, `ReferenceTypeSignature`, `ConfigValueType`, `ConfigSection` and the JSON classes are not part of this model. They are modelled from how the modelled code uses them:
  - the instruction table is a list of mnemonics;
  - a method descriptor is read by the field-descriptor grammar;
  - get-or-append finds the first equal entry or appends one;
  - a pool declared with count c has c - 1 slots, `setEntry(i, e)` writes the 0-based slot i (the entry with index i + 1), and a write past the table fails (the reader reports it as `PoolOverrun`);
  - `getEntry(k)` yields the entry in slot k - 1, and nothing for 0, for an index past the table, or for the hole behind a Long or Double;
  - a signature is read by the signature grammar.
  - `AttributeRaw.getNameString` resolves the name index through the pool to a Utf8 entry and fails on any other entry (ClassFileSpec.ParseAttribute fails the same way), and `DefaultAttributeType.getByName` maps the case-sensitive name "Code", and no other name, to `CODE` (ClassFileSpec.ParseAttributeInfo decodes a Code body exactly then; every other attribute type returns the raw attribute, as the switch at ClassFile.java:149-190 does).
- The extension loader iterates a `HashMap`; its order is the `order` parameter. Reading the jar files, logging, and constructing and enabling the extensions are not modelled. A missing `depend`, `softdepend` or `loadbefore` list is the empty list.
- The `InventoryType` constructors of the builders, listeners, callbacks and `getItem` are not modelled. Neither is Bukkit's `setItem` range check: a page slot outside the inventory is recorded like any other.
- GUI.PageFor: `start + nSlots` is computed without Java int wrap-around. The page check at GUIUtils.java:692 comes before `page*nSlots`, so a page that exists has `start` at most the item count and that product cannot wrap. Only `start + nSlots` can wrap, when it exceeds 2^31 - 1 (which needs the item count plus the slot count to exceed it). Java's `end` is then negative and the page shows no items, where the model shows items `start` to the last.
- GUI.EveryItemShown: holds only when the page slots are distinct. `addPageSlots` accepts repeated slots, and then a later item overwrites an earlier one in the same slot: with page slots 10, 10 and items a, b, the page shows only b. `GUI.PlacedValues` states that case: a slot shows the last item put there.
- GUI.GUIMultiPage.GetForPlayer: the `page` property is written to the holder even when null is returned. This is not observable in the result and is not modelled.
- ConfigProperty.ToJSONCompliant: a section with a null entry fails with a NullPointerException, as `Collectors.toMap` does. The model keeps that behaviour.

## Findings

| source | as written | input that shows it | evidently intended | confidence | as-written member | corrected member |
|---|---|---|---|---|---|---|
| src/me/mrletsplay/mrcore/misc/classfile/util/ByteCodeUtils.java:62 | the count compares the parameter type with DOUBLE twice, so a `long` parameter counts one slot | `invokeinterface A m (IJ)V` gives count byte 3 | long and double both take two slots, giving 4, as the JVM requires | high, not executed | Assembler.LongParameterCountedOnce, Assembler.InterfaceCountAsWrittenOfDescriptor | Assembler.InterfaceCountOfDescriptor, Assembler.InterfaceOperands, Assembler.Parse, Assembler.ParseOperands |
| src/me/mrletsplay/mrcore/bukkitimpl/GUIUtils.java:183-186 | `while(from <= to) { ...; from++; }` never ends when `to` is the largest int: `from` wraps to the smallest int | `addPageSlotsInRange(2147483647, 2147483647)` | the slots from..to, here the one slot 2147483647 | high, not executed | GUI.RangeToMaxNeverEnds, GUI.RangeToMaxWraps | GUI.GUIBuilderMultiPage.AddPageSlotsInRange, GUI.RangeAsWrittenBelowMax |
