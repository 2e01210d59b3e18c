/**
 * Generic signatures of section 4.7.9.1 of the JVM specification (Java SE 8
 * edition), and TypeArgument: its value form, its wildcard classification and its
 * `read` step over a backtrackable character reader.
 *
 * ReferenceTypeSignature.read and CharReader are not part of this model; the
 * nested signature is read here by the grammar of section 4.7.9.1 of the JVM
 * specification, and the reader is a cursor over the whole text.
 */
module Signatures {
  import opened Wrappers
  import opened Text

  /** Where and why a signature could not be read. */
  datatype SigError = EndOfInput | Unexpected(position: nat)

  datatype Parsed<+T> = Parsed(value: T, next: nat)

  type Parse<+T> = Result<Parsed<T>, SigError>

  /** ReferenceTypeSignature: a class type, a type variable or an array type. */
  datatype RefSig =
    | ClassType(packages: seq<string>, classes: seq<SimpleClass>)
    | TypeVariable(name: string)
    | ArrayType(component: JavaType)

  /** SimpleClassTypeSignature: an identifier and its type arguments (none when the list is empty). */
  datatype SimpleClass = SimpleClass(name: string, arguments: seq<TypeArgument>)

  /** JavaTypeSignature: a base type code or a reference type signature. */
  datatype JavaType = BaseType(code: char) | Reference(signature: RefSig)

  /** The four wildcard kinds of TypeArgument.Wildcard. */
  datatype Wildcard = ANY | EXTENDS | SUPER | NONE

  /**
   * A TypeArgument object: `any` for `*`; otherwise a wildcard indicator (absent,
   * or the character the object was built with) and a nested signature.
   */
  datatype TypeArgument = TypeArgument(any: bool, wildcardIndicator: Option<char>, typeSignature: Option<RefSig>)
  {
    predicate IsAny() { any }

    predicate IsExtends() { wildcardIndicator == Some('+') }

    predicate IsSuper() { wildcardIndicator == Some('-') }

    predicate IsExact() { !any && wildcardIndicator.None? }

    /** getWildcard: ANY first, then NONE for no indicator, then EXTENDS for '+' and SUPER for any other indicator. */
    function GetWildcard(): (w: Wildcard)
      ensures w == ANY <==> any
      ensures w == NONE <==> !any && wildcardIndicator.None?
      ensures w == EXTENDS <==> !any && IsExtends()
      ensures w == SUPER <==> !any && wildcardIndicator.Some? && !IsExtends()
    {
      if any then ANY
      else if wildcardIndicator.None? then NONE
      else if IsExtends() then EXTENDS
      else SUPER
    }
  }

  /** new TypeArgument(): `*`, with neither indicator nor signature. */
  function AnyArgument(): (t: TypeArgument)
    ensures t.IsAny() && t.wildcardIndicator.None? && t.typeSignature.None?
  {
    TypeArgument(true, None, None)
  }

  /** new TypeArgument(wildcardIndicator, typeSignature). */
  function BoundedArgument(wildcardIndicator: Option<char>, typeSignature: RefSig): (t: TypeArgument)
    ensures !t.IsAny() && t.wildcardIndicator == wildcardIndicator && t.typeSignature == Some(typeSignature)
  {
    TypeArgument(false, wildcardIndicator, Some(typeSignature))
  }

  // ---------------------------------------------------------------------
  // The grammar

  /** The characters an Identifier may not contain (section 4.7.9.1 of the JVM specification). */
  predicate IsIdentifierChar(c: char) {
    c != '.' && c != ';' && c != '[' && c != '/' && c != '<' && c != '>' && c != ':'
  }

  predicate IsBaseCode(c: char) {
    c == 'B' || c == 'C' || c == 'D' || c == 'F' || c == 'I' || c == 'J' || c == 'S' || c == 'Z'
  }

  /** The error for an unexpected character at `pos`, or for running out of input. */
  function Fail<T>(s: string, pos: nat): Parse<T> {
    if pos < |s| then Err(Unexpected(pos)) else Err(EndOfInput)
  }

  /** The end of the longest run of identifier characters from `pos`. */
  function IdentifierEnd(s: string, pos: nat): (e: nat)
    requires pos <= |s|
    ensures pos <= e <= |s|
    decreases |s| - pos
  {
    if pos < |s| && IsIdentifierChar(s[pos]) then IdentifierEnd(s, pos + 1) else pos
  }

  /** A non-empty identifier. */
  function ParseIdentifier(s: string, pos: nat): (r: Parse<string>)
    requires pos <= |s|
    ensures r.Ok? ==> pos < r.value.next <= |s| && r.value.value == s[pos..r.value.next]
  {
    var e := IdentifierEnd(s, pos);
    if e == pos then Fail(s, pos) else Ok(Parsed(s[pos..e], e))
  }

  /** ReferenceTypeSignature, chosen by its first character: 'L', 'T' or '['. */
  function ParseRefSig(s: string, pos: nat): (r: Parse<RefSig>)
    requires pos <= |s|
    ensures r.Ok? ==> pos < r.value.next <= |s|
    decreases |s| - pos, 0
  {
    if pos == |s| then Err(EndOfInput)
    else if s[pos] == 'L' then ParseClassType(s, pos + 1, [])
    else if s[pos] == 'T' then
      var name :- ParseIdentifier(s, pos + 1);
      if name.next < |s| && s[name.next] == ';' then Ok(Parsed(TypeVariable(name.value), name.next + 1))
      else Fail(s, name.next)
    else if s[pos] == '[' then
      var component :- ParseJavaType(s, pos + 1);
      Ok(Parsed(ArrayType(component.value), component.next))
    else Err(Unexpected(pos))
  }

  /** JavaTypeSignature: a base type code, or else a reference type signature. */
  function ParseJavaType(s: string, pos: nat): (r: Parse<JavaType>)
    requires pos <= |s|
    ensures r.Ok? ==> pos < r.value.next <= |s|
    decreases |s| - pos, 1
  {
    if pos < |s| && IsBaseCode(s[pos]) then Ok(Parsed(BaseType(s[pos]), pos + 1))
    else
      var signature :- ParseRefSig(s, pos);
      Ok(Parsed(Reference(signature.value), signature.next))
  }

  /**
   * A class type after its 'L', with the package identifiers read so far: an
   * identifier followed by '/' is one more package, any other is the class name.
   */
  function ParseClassType(s: string, pos: nat, packages: seq<string>): (r: Parse<RefSig>)
    requires pos <= |s|
    ensures r.Ok? ==> pos < r.value.next <= |s|
    decreases |s| - pos, 0
  {
    var name :- ParseIdentifier(s, pos);
    if name.next < |s| && s[name.next] == '/' then ParseClassType(s, name.next + 1, packages + [name.value])
    else
      var first :- ParseClassArguments(s, name.next, name.value);
      var rest :- ParseClassSuffixes(s, first.next);
      Ok(Parsed(ClassType(packages, [first.value] + rest.value), rest.next))
  }

  /** The optional `<...>` after a class name. */
  function ParseClassArguments(s: string, pos: nat, name: string): (r: Parse<SimpleClass>)
    requires pos <= |s|
    ensures r.Ok? ==> pos <= r.value.next <= |s| && r.value.value.name == name
    decreases |s| - pos, 1
  {
    if pos < |s| && s[pos] == '<' then
      var arguments :- ParseTypeArguments(s, pos + 1);
      Ok(Parsed(SimpleClass(name, arguments.value), arguments.next))
    else Ok(Parsed(SimpleClass(name, []), pos))
  }

  /** The `.Inner<...>` suffixes of a class type, up to and including its ';'. */
  function ParseClassSuffixes(s: string, pos: nat): (r: Parse<seq<SimpleClass>>)
    requires pos <= |s|
    ensures r.Ok? ==> pos < r.value.next <= |s|
    decreases |s| - pos, 0
  {
    if pos == |s| then Err(EndOfInput)
    else if s[pos] == ';' then Ok(Parsed([], pos + 1))
    else if s[pos] == '.' then
      var name :- ParseIdentifier(s, pos + 1);
      var inner :- ParseClassArguments(s, name.next, name.value);
      var rest :- ParseClassSuffixes(s, inner.next);
      Ok(Parsed([inner.value] + rest.value, rest.next))
    else Err(Unexpected(pos))
  }

  /** TypeArguments after its '<': one or more type arguments, then '>'. */
  function ParseTypeArguments(s: string, pos: nat): (r: Parse<seq<TypeArgument>>)
    requires pos <= |s|
    ensures r.Ok? ==> pos < r.value.next <= |s| && |r.value.value| >= 1
    decreases |s| - pos, 3
  {
    var argument :- ParseTypeArgument(s, pos);
    if argument.next < |s| && s[argument.next] == '>' then Ok(Parsed([argument.value], argument.next + 1))
    else
      var rest :- ParseTypeArguments(s, argument.next);
      Ok(Parsed([argument.value] + rest.value, rest.next))
  }

  /**
   * TypeArgument.read: '*' is the any-argument and takes one character; '+' or '-'
   * is kept as the indicator and the signature starts after it; any other
   * character is pushed back, so the signature starts at it and has no indicator.
   */
  function ParseTypeArgument(s: string, pos: nat): (r: Parse<TypeArgument>)
    requires pos <= |s|
    ensures r.Ok? ==> pos < r.value.next <= |s|
    decreases |s| - pos, 2
  {
    if pos == |s| then Err(EndOfInput)
    else if s[pos] == '*' then Ok(Parsed(AnyArgument(), pos + 1))
    else if s[pos] == '+' || s[pos] == '-' then
      var signature :- ParseRefSig(s, pos + 1);
      Ok(Parsed(BoundedArgument(Some(s[pos]), signature.value), signature.next))
    else
      var signature :- ParseRefSig(s, pos);
      Ok(Parsed(BoundedArgument(None, signature.value), signature.next))
  }

  // ---------------------------------------------------------------------
  // Classification of what `read` produces

  /** An argument `read` can produce: `*`, or a signature with no indicator, '+' or '-'. */
  predicate Readable(t: TypeArgument) {
    if t.any then t.wildcardIndicator.None? && t.typeSignature.None?
    else t.typeSignature.Some? && t.wildcardIndicator in {None, Some('+'), Some('-')}
  }

  /** For values produced by `read`, exactly one of isAny, isExact, isExtends and isSuper holds. */
  lemma ReadClassifiesOnce(s: string, pos: nat)
    requires pos <= |s| && ParseTypeArgument(s, pos).Ok?
    ensures var t := ParseTypeArgument(s, pos).value.value;
      && Readable(t)
      && (if t.IsAny() then 1 else 0) + (if t.IsExact() then 1 else 0)
         + (if t.IsExtends() then 1 else 0) + (if t.IsSuper() then 1 else 0) == 1
  {
  }

  /** The classification of any readable argument agrees with getWildcard. */
  lemma WildcardMatchesPredicates(t: TypeArgument)
    requires Readable(t)
    ensures t.GetWildcard() == ANY <==> t.IsAny()
    ensures t.GetWildcard() == NONE <==> t.IsExact()
    ensures t.GetWildcard() == EXTENDS <==> t.IsExtends()
    ensures t.GetWildcard() == SUPER <==> t.IsSuper()
  {
  }

  // ---------------------------------------------------------------------
  // The reader

  /** A reading method agrees with the grammar at the reader's position. */
  predicate Tracks<T(==)>(r: Result<T, SigError>, spec: Parse<T>, index: nat) {
    match spec
    case Ok(p) => r == Ok(p.value) && index == p.next
    case Err(e) => r == Err(e)
  }

  /** CharReader: a cursor over a text, with one character of push-back. */
  class CharReader {
    const text: string
    var index: nat

    ghost predicate Valid()
      reads this
    {
      index <= |text|
    }

    constructor (text: string)
      ensures this.text == text && index == 0 && Valid()
    {
      this.text := text;
      index := 0;
    }

    /** next(): the character at the cursor, which is then passed; at the end, an error. */
    method Next() returns (r: Result<char, SigError>)
      requires Valid()
      modifies this
      ensures Valid()
      ensures old(index) < |text| ==> r == Ok(text[old(index)]) && index == old(index) + 1
      ensures old(index) == |text| ==> r == Err(EndOfInput) && index == old(index)
    {
      if index == |text| {
        return Err(EndOfInput);
      }
      r := Ok(text[index]);
      index := index + 1;
    }

    /** revert(): step back over the character just read. */
    method Revert()
      requires Valid() && index > 0
      modifies this
      ensures Valid() && index == old(index) - 1
    {
      index := index - 1;
    }
  }

  /** ReferenceTypeSignature.read, by the grammar: the cursor moves past the signature. */
  method ReadReferenceTypeSignature(reader: CharReader) returns (r: Result<RefSig, SigError>)
    requires reader.Valid()
    modifies reader
    ensures reader.Valid()
    ensures Tracks(r, ParseRefSig(reader.text, old(reader.index)), reader.index)
  {
    match ParseRefSig(reader.text, reader.index)
    case Ok(p) =>
      reader.index := p.next;
      return Ok(p.value);
    case Err(e) =>
      return Err(e);
  }

  /** TypeArgument.read: one character decides; anything but '*', '+' and '-' is pushed back. */
  method ReadTypeArgument(reader: CharReader) returns (r: Result<TypeArgument, SigError>)
    requires reader.Valid()
    modifies reader
    ensures reader.Valid()
    ensures Tracks(r, ParseTypeArgument(reader.text, old(reader.index)), reader.index)
  {
    var c :- reader.Next();
    if c == '*' {
      return Ok(AnyArgument());
    }
    var wildcardIndicator := if c == '+' || c == '-' then Some(c) else None;
    if wildcardIndicator.None? {
      reader.Revert();
    }
    var signature :- ReadReferenceTypeSignature(reader);
    return Ok(BoundedArgument(wildcardIndicator, signature));
  }

  // ---------------------------------------------------------------------
  // Writing a signature back, and the round trip

  function PrintRefSig(r: RefSig): string {
    match r
    case ClassType(packages, classes) =>
      "L" + PrintPackages(packages) + (if |classes| == 0 then ";" else ClassTail(classes))
    case TypeVariable(name) => "T" + name + ";"
    case ArrayType(component) => "[" + PrintJavaType(component)
  }

  function PrintJavaType(j: JavaType): string {
    match j
    case BaseType(code) => [code]
    case Reference(signature) => PrintRefSig(signature)
  }

  function PrintPackages(packages: seq<string>): string {
    if |packages| == 0 then "" else packages[0] + "/" + PrintPackages(packages[1..])
  }

  /** What follows the packages of a class type: its classes and the closing ';'. */
  function ClassTail(classes: seq<SimpleClass>): string
    requires |classes| > 0
  {
    PrintClass(classes[0]) + (PrintSuffixes(classes[1..]) + ";")
  }

  function PrintClass(c: SimpleClass): string {
    c.name + PrintClassArguments(c.arguments)
  }

  function PrintClassArguments(arguments: seq<TypeArgument>): string
    decreases arguments, 1
  {
    if |arguments| == 0 then "" else "<" + (PrintArguments(arguments) + ">")
  }

  function PrintSuffixes(classes: seq<SimpleClass>): string {
    if |classes| == 0 then "" else "." + PrintClass(classes[0]) + PrintSuffixes(classes[1..])
  }

  function PrintArguments(arguments: seq<TypeArgument>): string
    decreases arguments, 0
  {
    if |arguments| == 0 then "" else PrintTypeArgument(arguments[0]) + PrintArguments(arguments[1..])
  }

  function PrintTypeArgument(t: TypeArgument): string {
    if t.any then "*"
    else
      var signature := if t.typeSignature.Some? then PrintRefSig(t.typeSignature.value) else "";
      if t.wildcardIndicator.Some? then [t.wildcardIndicator.value] + signature else signature
  }

  predicate ValidIdentifier(name: string) {
    |name| > 0 && forall k :: 0 <= k < |name| ==> IsIdentifierChar(name[k])
  }

  /** Signatures the grammar can express: identifiers non-empty, a class named, arguments readable. */
  predicate WellFormedRefSig(r: RefSig) {
    match r
    case ClassType(packages, classes) =>
      && PackagesValid(packages)
      && |classes| > 0
      && ClassesWellFormed(classes)
    case TypeVariable(name) => ValidIdentifier(name)
    case ArrayType(component) => WellFormedJavaType(component)
  }

  predicate WellFormedJavaType(j: JavaType) {
    match j
    case BaseType(code) => IsBaseCode(code)
    case Reference(signature) => WellFormedRefSig(signature)
  }

  predicate WellFormedClass(c: SimpleClass) {
    ValidIdentifier(c.name) && ArgumentsWellFormed(c.arguments)
  }

  predicate PackagesValid(packages: seq<string>) {
    forall k :: 0 <= k < |packages| ==> ValidIdentifier(packages[k])
  }

  predicate ClassesWellFormed(classes: seq<SimpleClass>) {
    forall k :: 0 <= k < |classes| ==> WellFormedClass(classes[k])
  }

  predicate ArgumentsWellFormed(arguments: seq<TypeArgument>) {
    forall k :: 0 <= k < |arguments| ==> WellFormedArgument(arguments[k])
  }

  predicate WellFormedArgument(t: TypeArgument) {
    Readable(t) && (t.typeSignature.Some? ==> WellFormedRefSig(t.typeSignature.value))
  }

  /** An identifier followed by a character that cannot continue it is read whole. */
  lemma IdentifierRead(s: string, pos: nat, name: string)
    requires ValidIdentifier(name) && At(s, pos, name) && pos + |name| < |s| && !IsIdentifierChar(s[pos + |name|])
    ensures ParseIdentifier(s, pos) == Ok(Parsed(name, pos + |name|))
  {
    AtSlice(s, pos, name);
    IdentifierEndAt(s, pos, name, 0);
  }

  lemma {:induction false} IdentifierEndAt(s: string, pos: nat, name: string, k: nat)
    requires ValidIdentifier(name) && pos + |name| < |s| && s[pos..pos + |name|] == name
    requires !IsIdentifierChar(s[pos + |name|]) && k <= |name|
    ensures IdentifierEnd(s, pos + k) == pos + |name|
    decreases |name| - k
  {
    if k < |name| {
      assert s[pos + k] == name[k];
      IdentifierEndAt(s, pos, name, k + 1);
    }
  }

  predicate IsSignatureStart(c: char) {
    c == 'L' || c == 'T' || c == '['
  }

  /** A printed reference type signature starts with 'L', 'T' or '['. */
  lemma RefSigStart(r: RefSig)
    ensures |PrintRefSig(r)| > 0 && IsSignatureStart(PrintRefSig(r)[0])
  {
  }

  /** No printed type argument starts with the '>' that closes an argument list. */
  lemma ArgumentStart(t: TypeArgument)
    requires WellFormedArgument(t)
    ensures |PrintTypeArgument(t)| > 0 && PrintTypeArgument(t)[0] != '>'
  {
    if !t.any && t.wildcardIndicator.None? {
      RefSigStart(t.typeSignature.value);
    }
  }

  // How each printed form splits into the parts read one after the other.

  lemma PrintClassTypeShape(packages: seq<string>, classes: seq<SimpleClass>)
    requires |classes| > 0
    ensures PrintRefSig(ClassType(packages, classes)) == ['L'] + (PrintPackages(packages) + ClassTail(classes))
  {
  }

  lemma PrintTypeVariableShape(name: string)
    ensures PrintRefSig(TypeVariable(name)) == ['T'] + (name + ";")
  {
  }

  lemma PrintArrayShape(component: JavaType)
    ensures PrintRefSig(ArrayType(component)) == ['['] + PrintJavaType(component)
  {
  }

  lemma PackagesShape(packages: seq<string>, tail: string)
    requires |packages| > 0
    ensures PrintPackages(packages) + tail == packages[0] + (['/'] + (PrintPackages(packages[1..]) + tail))
  {
  }

  lemma ClassShape(c: SimpleClass, after: string)
    ensures PrintClass(c) + after == c.name + (PrintClassArguments(c.arguments) + after)
  {
  }

  lemma SuffixesShape(classes: seq<SimpleClass>)
    requires |classes| > 0
    ensures PrintSuffixes(classes) + ";" == ['.'] + (PrintClass(classes[0]) + (PrintSuffixes(classes[1..]) + ";"))
  {
  }

  lemma ArgumentsShape(arguments: seq<TypeArgument>)
    requires |arguments| > 0
    ensures PrintArguments(arguments) + ">" == PrintTypeArgument(arguments[0]) + (PrintArguments(arguments[1..]) + ">")
  {
  }

  lemma BoundedShape(t: TypeArgument)
    requires !t.any && t.wildcardIndicator.Some? && t.typeSignature.Some?
    ensures PrintTypeArgument(t) == [t.wildcardIndicator.value] + PrintRefSig(t.typeSignature.value)
  {
  }

  // One step of each reading function, from what its parts read.

  lemma ClassTypeStep(s: string, pos: nat, done: seq<string>, id: Parsed<string>)
    requires pos <= |s| && ParseIdentifier(s, pos) == Ok(id)
    requires id.next < |s| && s[id.next] == '/'
    ensures ParseClassType(s, pos, done) == ParseClassType(s, id.next + 1, done + [id.value])
  {
  }

  lemma ClassNamedStep(s: string, pos: nat, done: seq<string>, id: Parsed<string>,
                       first: Parsed<SimpleClass>, rest: Parsed<seq<SimpleClass>>)
    requires pos <= |s| && ParseIdentifier(s, pos) == Ok(id)
    requires id.next < |s| && s[id.next] != '/'
    requires ParseClassArguments(s, id.next, id.value) == Ok(first)
    requires first.next <= |s| && ParseClassSuffixes(s, first.next) == Ok(rest)
    ensures ParseClassType(s, pos, done) == Ok(Parsed(ClassType(done, [first.value] + rest.value), rest.next))
  {
  }

  lemma SuffixesEndStep(s: string, pos: nat)
    requires pos < |s| && s[pos] == ';'
    ensures ParseClassSuffixes(s, pos) == Ok(Parsed([], pos + 1))
  {
  }

  lemma SuffixesStep(s: string, pos: nat, id: Parsed<string>, inner: Parsed<SimpleClass>, rest: Parsed<seq<SimpleClass>>)
    requires pos < |s| && s[pos] == '.'
    requires ParseIdentifier(s, pos + 1) == Ok(id)
    requires ParseClassArguments(s, id.next, id.value) == Ok(inner)
    requires inner.next <= |s| && ParseClassSuffixes(s, inner.next) == Ok(rest)
    ensures ParseClassSuffixes(s, pos) == Ok(Parsed([inner.value] + rest.value, rest.next))
  {
  }

  lemma ArgumentsLastStep(s: string, pos: nat, argument: Parsed<TypeArgument>)
    requires pos <= |s| && ParseTypeArgument(s, pos) == Ok(argument)
    requires argument.next < |s| && s[argument.next] == '>'
    ensures ParseTypeArguments(s, pos) == Ok(Parsed([argument.value], argument.next + 1))
  {
  }

  lemma ArgumentsMoreStep(s: string, pos: nat, argument: Parsed<TypeArgument>, rest: Parsed<seq<TypeArgument>>)
    requires pos <= |s| && ParseTypeArgument(s, pos) == Ok(argument)
    requires argument.next < |s| && s[argument.next] != '>'
    requires ParseTypeArguments(s, argument.next) == Ok(rest)
    ensures ParseTypeArguments(s, pos) == Ok(Parsed([argument.value] + rest.value, rest.next))
  {
  }

  lemma IndicatorStep(s: string, pos: nat, c: char, signature: Parsed<RefSig>)
    requires pos < |s| && s[pos] == c && (c == '+' || c == '-')
    requires ParseRefSig(s, pos + 1) == Ok(signature)
    ensures ParseTypeArgument(s, pos) == Ok(Parsed(BoundedArgument(Some(c), signature.value), signature.next))
  {
  }

  lemma ExactStep(s: string, pos: nat, signature: Parsed<RefSig>)
    requires pos < |s| && IsSignatureStart(s[pos])
    requires ParseRefSig(s, pos) == Ok(signature)
    ensures ParseTypeArgument(s, pos) == Ok(Parsed(BoundedArgument(None, signature.value), signature.next))
  {
  }

  // The round trip, part by part.

  /** Reading a printed signature gives it back and stops right after it. */
  lemma RefSigRoundTrip(s: string, pos: nat, r: RefSig)
    requires WellFormedRefSig(r) && At(s, pos, PrintRefSig(r))
    ensures ParseRefSig(s, pos) == Ok(Parsed(r, pos + |PrintRefSig(r)|))
    decreases r, 2
  {
    match r
    case ClassType(packages, classes) =>
      PrintClassTypeShape(packages, classes);
      ClassTypeSigRoundTrip(s, pos, packages, classes);
    case TypeVariable(_) => TypeVariableRoundTrip(s, pos, r);
    case ArrayType(_) => ArrayRoundTrip(s, pos, r);
  }

  lemma ClassTypeSigRoundTrip(s: string, pos: nat, packages: seq<string>, classes: seq<SimpleClass>)
    requires PackagesValid(packages)
    requires |classes| > 0 && ClassesWellFormed(classes)
    requires At(s, pos, ['L'] + (PrintPackages(packages) + ClassTail(classes)))
    ensures ParseRefSig(s, pos) == Ok(Parsed(ClassType(packages, classes), pos + 1 + |PrintPackages(packages) + ClassTail(classes)|))
    decreases classes, |packages| + 1, 2
  {
    AtChar(s, pos, 'L', PrintPackages(packages) + ClassTail(classes));
    RefSigClassStep(s, pos);
    var next := ClassTypeRoundTrip(s, pos + 1, [], packages, classes);
    assert [] + packages == packages;
  }

  lemma RefSigClassStep(s: string, pos: nat)
    requires pos < |s| && s[pos] == 'L'
    ensures ParseRefSig(s, pos) == ParseClassType(s, pos + 1, [])
  {
  }

  lemma TypeVariableRoundTrip(s: string, pos: nat, r: RefSig)
    requires r.TypeVariable? && WellFormedRefSig(r) && At(s, pos, PrintRefSig(r))
    ensures ParseRefSig(s, pos) == Ok(Parsed(r, pos + |PrintRefSig(r)|))
  {
    var name := r.name;
    PrintTypeVariableShape(name);
    AtChar(s, pos, 'T', name + ";");
    AtSplit(s, pos + 1, name, ";");
    AtFirst(s, pos + 1 + |name|, ";");
    IdentifierRead(s, pos + 1, name);
  }

  lemma {:induction false} ArrayRoundTrip(s: string, pos: nat, r: RefSig)
    requires r.ArrayType? && WellFormedRefSig(r) && At(s, pos, PrintRefSig(r))
    ensures ParseRefSig(s, pos) == Ok(Parsed(r, pos + |PrintRefSig(r)|))
    decreases r, 1
  {
    PrintArrayShape(r.component);
    AtChar(s, pos, '[', PrintJavaType(r.component));
    JavaTypeRoundTrip(s, pos + 1, r.component);
  }

  lemma {:induction false} JavaTypeRoundTrip(s: string, pos: nat, j: JavaType)
    requires WellFormedJavaType(j) && At(s, pos, PrintJavaType(j))
    ensures ParseJavaType(s, pos) == Ok(Parsed(j, pos + |PrintJavaType(j)|))
    decreases j, 1
  {
    match j
    case BaseType(code) =>
      AtChar(s, pos, code, "");
    case Reference(signature) =>
      RefSigRoundTrip(s, pos, signature);
      RefSigStart(signature);
      AtFirst(s, pos, PrintRefSig(signature));
  }

  lemma ClassTypeRoundTrip(s: string, pos: nat, done: seq<string>, packages: seq<string>, classes: seq<SimpleClass>)
    returns (next: nat)
    requires PackagesValid(packages)
    requires |classes| > 0 && ClassesWellFormed(classes)
    requires At(s, pos, PrintPackages(packages) + ClassTail(classes))
    ensures next == pos + |PrintPackages(packages) + ClassTail(classes)|
    ensures ParseClassType(s, pos, done) == Ok(Parsed(ClassType(done + packages, classes), next))
    decreases classes, |packages|, 1
  {
    if |packages| > 0 {
      next := PackageRoundTrip(s, pos, done, packages, classes);
    } else {
      NoPackages(done, packages, ClassTail(classes));
      next := ClassNamedRoundTrip(s, pos, done, classes);
    }
  }

  lemma NoPackages(done: seq<string>, packages: seq<string>, tail: string)
    requires |packages| == 0
    ensures PrintPackages(packages) + tail == tail && done + packages == done
  {
  }

  lemma PackagesJoin(done: seq<string>, packages: seq<string>)
    requires |packages| > 0
    ensures done + [packages[0]] + packages[1..] == done + packages
  {
  }

  /** A printed package name is read whole and its '/' follows it. */
  lemma PackageRead(s: string, pos: nat, packages: seq<string>, tail: string)
    requires |packages| > 0 && ValidIdentifier(packages[0])
    requires At(s, pos, PrintPackages(packages) + tail)
    ensures var p := packages[0];
      && ParseIdentifier(s, pos) == Ok(Parsed(p, pos + |p|))
      && pos + |p| < |s| && s[pos + |p|] == '/'
      && At(s, pos + |p| + 1, PrintPackages(packages[1..]) + tail)
      && |PrintPackages(packages) + tail| == |p| + 1 + |PrintPackages(packages[1..]) + tail|
  {
    var p := packages[0];
    var rest := PrintPackages(packages[1..]) + tail;
    PackagesShape(packages, tail);
    AtSplit(s, pos, p, ['/'] + rest);
    AtChar(s, pos + |p|, '/', rest);
    IdentifierRead(s, pos, p);
  }

  /** One package name and its '/', then the rest of the class type. */
  lemma {:induction false} PackageRoundTrip(s: string, pos: nat, done: seq<string>, packages: seq<string>, classes: seq<SimpleClass>)
    returns (next: nat)
    requires |packages| > 0 && PackagesValid(packages)
    requires |classes| > 0 && ClassesWellFormed(classes)
    requires At(s, pos, PrintPackages(packages) + ClassTail(classes))
    ensures next == pos + |PrintPackages(packages) + ClassTail(classes)|
    ensures ParseClassType(s, pos, done) == Ok(Parsed(ClassType(done + packages, classes), next))
    decreases classes, |packages|, 0
  {
    var p := packages[0];
    PackageRead(s, pos, packages, ClassTail(classes));
    ClassTypeStep(s, pos, done, Parsed(p, pos + |p|));
    next := ClassTypeRoundTrip(s, pos + |p| + 1, done + [p], packages[1..], classes);
    PackagesJoin(done, packages);
  }

  /** The class name after the packages, its arguments and the suffixes. */
  lemma ClassNamedRoundTrip(s: string, pos: nat, done: seq<string>, classes: seq<SimpleClass>) returns (next: nat)
    requires |classes| > 0 && ClassesWellFormed(classes)
    requires At(s, pos, ClassTail(classes))
    ensures next == pos + |ClassTail(classes)|
    ensures ParseClassType(s, pos, done) == Ok(Parsed(ClassType(done, classes), next))
    decreases classes, 0, 0
  {
    var c := classes[0];
    ClassesSplit(classes);
    var after := PrintSuffixes(classes[1..]) + ";";
    assert ClassTail(classes) == PrintClass(c) + after;
    SuffixesStart(classes[1..]);
    var id, first := SimpleClassRoundTrip(s, pos, c, after);
    next := SuffixesRoundTrip(s, first.next, classes[1..]);
    ClassNamedStep(s, pos, done, id, first, Parsed(classes[1..], next));
  }

  /** The first class and the rest of a well-formed list. */
  lemma ClassesSplit(classes: seq<SimpleClass>)
    requires |classes| > 0 && ClassesWellFormed(classes)
    ensures WellFormedClass(classes[0]) && ClassesWellFormed(classes[1..])
    ensures [classes[0]] + classes[1..] == classes
  {
    assert forall k :: 0 <= k < |classes[1..]| ==> classes[1..][k] == classes[k + 1];
  }

  /** Printed suffixes with their ';' start with '.' or ';'. */
  lemma SuffixesStart(classes: seq<SimpleClass>)
    ensures var p := PrintSuffixes(classes) + ";"; |p| > 0 && (p[0] == '.' || p[0] == ';')
  {
  }

  /** A class name and its optional arguments, followed by '.' or ';'. */
  lemma SimpleClassRoundTrip(s: string, pos: nat, c: SimpleClass, after: string)
    returns (id: Parsed<string>, first: Parsed<SimpleClass>)
    requires WellFormedClass(c) && |after| > 0 && (after[0] == '.' || after[0] == ';')
    requires At(s, pos, PrintClass(c) + after)
    ensures id == Parsed(c.name, pos + |c.name|) && ParseIdentifier(s, pos) == Ok(id)
    ensures id.next < |s| && s[id.next] != '/'
    ensures first.value == c && first.next == pos + |PrintClass(c)| && At(s, first.next, after)
    ensures ParseClassArguments(s, id.next, id.value) == Ok(first)
    decreases c, 1
  {
    ClassNameRead(s, pos, c, after);
    id := Parsed(c.name, pos + |c.name|);
    var next := ClassArgumentsRoundTrip(s, id.next, c);
    first := Parsed(c, next);
  }

  /** The name of a printed class is read whole, and its arguments follow it. */
  lemma ClassNameRead(s: string, pos: nat, c: SimpleClass, after: string)
    requires WellFormedClass(c) && |after| > 0 && (after[0] == '.' || after[0] == ';')
    requires At(s, pos, PrintClass(c) + after)
    ensures ParseIdentifier(s, pos) == Ok(Parsed(c.name, pos + |c.name|))
    ensures pos + |c.name| < |s| && s[pos + |c.name|] != '/'
    ensures At(s, pos + |c.name|, PrintClassArguments(c.arguments))
    ensures At(s, pos + |c.name| + |PrintClassArguments(c.arguments)|, after)
    ensures |c.arguments| == 0 ==> s[pos + |c.name|] != '<'
  {
    var args := PrintClassArguments(c.arguments);
    ClassShape(c, after);
    AtSplit(s, pos, c.name, args + after);
    AtSplit(s, pos + |c.name|, args, after);
    if |c.arguments| == 0 {
      assert |args| == 0;
      AtFirst(s, pos + |c.name|, after);
    } else {
      AtFirst(s, pos + |c.name|, args);
    }
    IdentifierRead(s, pos, c.name);
  }

  lemma {:induction false} ClassArgumentsRoundTrip(s: string, pos: nat, c: SimpleClass) returns (next: nat)
    requires WellFormedClass(c)
    requires At(s, pos, PrintClassArguments(c.arguments)) && (|c.arguments| == 0 ==> pos < |s| && s[pos] != '<')
    ensures next == pos + |PrintClassArguments(c.arguments)|
    ensures ParseClassArguments(s, pos, c.name) == Ok(Parsed(c, next))
    decreases c, 0
  {
    if |c.arguments| > 0 {
      AtChar(s, pos, '<', PrintArguments(c.arguments) + ">");
      next := ArgumentsRoundTrip(s, pos + 1, c.arguments);
    } else {
      next := pos;
    }
  }

  lemma {:induction false} SuffixesRoundTrip(s: string, pos: nat, classes: seq<SimpleClass>) returns (next: nat)
    requires ClassesWellFormed(classes)
    requires At(s, pos, PrintSuffixes(classes) + ";")
    ensures next == pos + |PrintSuffixes(classes) + ";"|
    ensures ParseClassSuffixes(s, pos) == Ok(Parsed(classes, next))
    decreases classes
  {
    if |classes| == 0 {
      AtFirst(s, pos, PrintSuffixes(classes) + ";");
      SuffixesEndStep(s, pos);
      next := pos + 1;
    } else {
      var c := classes[0];
      ClassesSplit(classes);
      var after := PrintSuffixes(classes[1..]) + ";";
      SuffixesShape(classes);
      AtChar(s, pos, '.', PrintClass(c) + after);
      SuffixesStart(classes[1..]);
      var id, inner := SimpleClassRoundTrip(s, pos + 1, c, after);
      next := SuffixesRoundTrip(s, inner.next, classes[1..]);
      SuffixesStep(s, pos, id, inner, Parsed(classes[1..], next));
    }
  }

  lemma {:induction false} ArgumentsRoundTrip(s: string, pos: nat, arguments: seq<TypeArgument>) returns (next: nat)
    requires |arguments| > 0 && ArgumentsWellFormed(arguments)
    requires At(s, pos, PrintArguments(arguments) + ">")
    ensures next == pos + |PrintArguments(arguments) + ">"|
    ensures ParseTypeArguments(s, pos) == Ok(Parsed(arguments, next))
    decreases arguments
  {
    var t := arguments[0];
    var rest := PrintArguments(arguments[1..]) + ">";
    ArgumentsShape(arguments);
    AtSplit(s, pos, PrintTypeArgument(t), rest);
    var e := TypeArgumentRoundTrip(s, pos, t);
    AtFirst(s, e, rest);
    if |arguments| == 1 {
      ArgumentsLastStep(s, pos, Parsed(t, e));
      assert [t] == arguments;
      next := e + 1;
    } else {
      ArgumentStart(arguments[1]);
      assert rest[0] == PrintTypeArgument(arguments[1])[0];
      next := ArgumentsRoundTrip(s, e, arguments[1..]);
      ArgumentsMoreStep(s, pos, Parsed(t, e), Parsed(arguments[1..], next));
      assert [t] + arguments[1..] == arguments;
    }
  }

  /** Reading a printed type argument gives it back: the inverse of TypeArgument.read. */
  lemma TypeArgumentRoundTrip(s: string, pos: nat, t: TypeArgument) returns (next: nat)
    requires WellFormedArgument(t) && At(s, pos, PrintTypeArgument(t))
    ensures next == pos + |PrintTypeArgument(t)|
    ensures ParseTypeArgument(s, pos) == Ok(Parsed(t, next))
    decreases t, 1
  {
    next := pos + |PrintTypeArgument(t)|;
    if t.any {
      AnyRoundTrip(s, pos, t);
    } else if t.wildcardIndicator.Some? {
      BoundedRoundTrip(s, pos, t);
    } else {
      ExactRoundTrip(s, pos, t);
    }
  }

  lemma AnyRoundTrip(s: string, pos: nat, t: TypeArgument)
    requires WellFormedArgument(t) && t.any && At(s, pos, PrintTypeArgument(t))
    ensures ParseTypeArgument(s, pos) == Ok(Parsed(t, pos + |PrintTypeArgument(t)|))
  {
    assert t == AnyArgument();
    AtChar(s, pos, '*', "");
  }

  lemma {:induction false} BoundedRoundTrip(s: string, pos: nat, t: TypeArgument)
    requires WellFormedArgument(t) && !t.any && t.wildcardIndicator.Some? && At(s, pos, PrintTypeArgument(t))
    ensures ParseTypeArgument(s, pos) == Ok(Parsed(t, pos + |PrintTypeArgument(t)|))
    decreases t, 0
  {
    var r := t.typeSignature.value;
    var c := t.wildcardIndicator.value;
    BoundedShape(t);
    AtChar(s, pos, c, PrintRefSig(r));
    RefSigRoundTrip(s, pos + 1, r);
    IndicatorStep(s, pos, c, Parsed(r, pos + 1 + |PrintRefSig(r)|));
  }

  lemma {:induction false} ExactRoundTrip(s: string, pos: nat, t: TypeArgument)
    requires WellFormedArgument(t) && !t.any && t.wildcardIndicator.None? && At(s, pos, PrintTypeArgument(t))
    ensures ParseTypeArgument(s, pos) == Ok(Parsed(t, pos + |PrintTypeArgument(t)|))
    decreases t, 0
  {
    var r := t.typeSignature.value;
    assert PrintTypeArgument(t) == PrintRefSig(r);
    RefSigRoundTrip(s, pos, r);
    RefSigStart(r);
    AtFirst(s, pos, PrintRefSig(r));
    ExactStep(s, pos, Parsed(r, pos + |PrintRefSig(r)|));
  }
}
