/**
 * Field and method descriptors (sections 4.3.2 and 4.3.3 of the Java Virtual
 * Machine Specification, Java SE 8 edition), as the assembler reads the parameter
 * list of an invokeinterface signature.
 *
 * MethodDescriptor.java is not part of this model; it is taken to read the grammar
 * of section 4.3.3 of the JVM specification exactly and to fail on any other text.
 */
module Descriptors {
  import opened Wrappers
  import opened Text

  /** A FieldType: a base type letter, an object type by class name, or an array. */
  datatype FieldType =
    | Base(code: char)
    | Object(className: string)
    | Array(component: FieldType)

  /** The BaseType letters of table 4.3-A of the Java Virtual Machine Specification. */
  predicate IsBaseCode(c: char) {
    c == 'B' || c == 'C' || c == 'D' || c == 'F' || c == 'I' || c == 'J' || c == 'S' || c == 'Z'
  }

  /** A type a descriptor can spell: a known letter, a non-empty class name without ';'. */
  predicate WellFormedType(t: FieldType) {
    match t
    case Base(c) => IsBaseCode(c)
    case Object(n) => |n| > 0 && ';' !in n
    case Array(c) => WellFormedType(c)
  }

  predicate WellFormedTypes(ts: seq<FieldType>) {
    forall k :: 0 <= k < |ts| ==> WellFormedType(ts[k])
  }

  // ---------------------------------------------------------------------
  // Writing descriptors: the reference the reader is checked against

  function PrintType(t: FieldType): (s: string)
    ensures |s| >= 1
  {
    match t
    case Base(c) => [c]
    case Object(n) => "L" + n + ";"
    case Array(c) => "[" + PrintType(c)
  }

  function PrintTypes(ts: seq<FieldType>): string {
    if |ts| == 0 then "" else PrintType(ts[0]) + PrintTypes(ts[1..])
  }

  /** A method descriptor with the given parameters; None stands for the return type V. */
  function PrintMethod(params: seq<FieldType>, ret: Option<FieldType>): string {
    "(" + PrintTypes(params) + ")" + PrintReturn(ret)
  }

  // ---------------------------------------------------------------------
  // Reading descriptors

  /** One FieldType at `pos`, with the position after it. */
  function ParseType(s: string, pos: nat): (r: Option<(FieldType, nat)>)
    ensures r.Some? ==> pos < r.value.1 <= |s|
    decreases |s| - pos
  {
    if pos >= |s| then None
    else if IsBaseCode(s[pos]) then Some((Base(s[pos]), pos + 1))
    else if s[pos] == 'L' then
      match IndexOfChar(s, ';', pos + 1)
      case Some(e) => if e > pos + 1 then Some((Object(s[pos + 1..e]), e + 1)) else None
      case None => None
    else if s[pos] == '[' then
      match ParseType(s, pos + 1)
      case Some((c, next)) => Some((Array(c), next))
      case None => None
    else None
  }

  /** The parameter descriptors from `pos` up to and including the closing ')'. */
  function ParseParams(s: string, pos: nat): (r: Option<(seq<FieldType>, nat)>)
    ensures r.Some? ==> pos < r.value.1 <= |s|
    decreases |s| - pos
  {
    if pos >= |s| then None
    else if s[pos] == ')' then Some(([], pos + 1))
    else match ParseType(s, pos)
      case None => None
      case Some((t, next)) =>
        match ParseParams(s, next)
        case None => None
        case Some((ts, end)) => Some(([t] + ts, end))
  }

  /** The return descriptor fills the text from `pos` to its end: V or one FieldType. */
  predicate ReturnsAt(s: string, pos: nat) {
    (pos + 1 == |s| && s[pos] == 'V') ||
    (match ParseType(s, pos) case Some((_, next)) => next == |s| case None => false)
  }

  /** getParameterDescriptors of a method descriptor; None when the text is not one. */
  function ParameterTypes(desc: string): Option<seq<FieldType>> {
    if |desc| == 0 || desc[0] != '(' then None
    else match ParseParams(desc, 1)
      case None => None
      case Some((ps, next)) => if ReturnsAt(desc, next) then Some(ps) else None
  }

  // ---------------------------------------------------------------------
  // Reading what was written

  /** A descriptor text never starts with the ')' that closes a parameter list. */
  lemma PrintTypeStart(t: FieldType)
    requires WellFormedType(t)
    ensures PrintType(t)[0] != ')'
  {
  }

  lemma {:induction false} TypeRoundTrip(s: string, pos: nat, t: FieldType)
    requires WellFormedType(t) && At(s, pos, PrintType(t))
    ensures ParseType(s, pos) == Some((t, pos + |PrintType(t)|))
    decreases t
  {
    match t
    case Base(c) =>
      AtFirst(s, pos, PrintType(t));
    case Object(n) =>
      assert PrintType(t) == ['L'] + (n + [';']);
      AtChar(s, pos, 'L', n + [';']);
      AtSplit(s, pos + 1, n, [';']);
      AtFirst(s, pos + 1 + |n|, [';']);
      AtSlice(s, pos + 1, n);
      forall k | pos + 1 <= k < pos + 1 + |n|
        ensures s[k] != ';'
      {
        assert s[k] == n[k - pos - 1];
      }
    case Array(c) =>
      assert PrintType(t) == ['['] + PrintType(c);
      AtChar(s, pos, '[', PrintType(c));
      TypeRoundTrip(s, pos + 1, c);
  }

  lemma {:induction false} ParamsRoundTrip(s: string, pos: nat, ts: seq<FieldType>)
    requires WellFormedTypes(ts) && At(s, pos, PrintTypes(ts) + ")")
    ensures ParseParams(s, pos) == Some((ts, pos + |PrintTypes(ts)| + 1))
    decreases |ts|
  {
    if |ts| == 0 {
      assert PrintTypes(ts) + ")" == ")";
      AtFirst(s, pos, ")");
    } else {
      var p := PrintType(ts[0]);
      var rest := PrintTypes(ts[1..]);
      PrintTypesCons(ts);
      ParamsHead(s, pos, ts[0], rest + ")");
      WellFormedTail(ts);
      ParamsRoundTrip(s, pos + |p|, ts[1..]);
      ParamsStep(s, pos, ts[0], pos + |p|, ts[1..], pos + |p| + |rest| + 1);
    }
  }

  /** The first parameter of a list is read, and the rest of the text follows it. */
  lemma ParamsHead(s: string, pos: nat, t: FieldType, rest: string)
    requires WellFormedType(t) && At(s, pos, PrintType(t) + rest)
    ensures pos < |s| && s[pos] != ')'
    ensures ParseType(s, pos) == Some((t, pos + |PrintType(t)|))
    ensures At(s, pos + |PrintType(t)|, rest)
  {
    AtSplit(s, pos, PrintType(t), rest);
    AtFirst(s, pos, PrintType(t));
    PrintTypeStart(t);
    TypeRoundTrip(s, pos, t);
  }

  lemma PrintTypesCons(ts: seq<FieldType>)
    requires |ts| > 0
    ensures PrintTypes(ts) + ")" == PrintType(ts[0]) + (PrintTypes(ts[1..]) + ")")
    ensures |PrintTypes(ts)| == |PrintType(ts[0])| + |PrintTypes(ts[1..])|
    ensures [ts[0]] + ts[1..] == ts
  {
  }

  lemma WellFormedTail(ts: seq<FieldType>)
    requires WellFormedTypes(ts) && |ts| > 0
    ensures WellFormedType(ts[0]) && WellFormedTypes(ts[1..])
  {
    forall k | 0 <= k < |ts[1..]|
      ensures WellFormedType(ts[1..][k])
    {
      assert ts[1..][k] == ts[k + 1];
    }
  }

  /** One turn of the parameter loop: a type, then the rest of the list. */
  lemma ParamsStep(s: string, pos: nat, t: FieldType, next: nat, ts: seq<FieldType>, end: nat)
    requires pos < |s| && s[pos] != ')'
    requires ParseType(s, pos) == Some((t, next)) && ParseParams(s, next) == Some((ts, end))
    ensures ParseParams(s, pos) == Some(([t] + ts, end))
  {
  }

  /** A descriptor written from well-formed parameter types reads back as those types. */
  lemma MethodRoundTrip(params: seq<FieldType>, ret: Option<FieldType>)
    requires WellFormedTypes(params) && (ret.Some? ==> WellFormedType(ret.value))
    ensures ParameterTypes(PrintMethod(params, ret)) == Some(params)
  {
    var d := PrintMethod(params, ret);
    var body := PrintTypes(params) + ")";
    assert d == ['('] + (body + PrintReturn(ret));
    MethodParams(d, params, PrintReturn(ret));
    MethodReturn(d, body, ret);
    ParameterTypesOf(d, params, 1 + |body|);
  }

  /** A '(' , a parameter list ending at `next`, and a return type there make a method descriptor. */
  lemma ParameterTypesOf(d: string, params: seq<FieldType>, next: nat)
    requires |d| > 0 && d[0] == '(' && ParseParams(d, 1) == Some((params, next)) && ReturnsAt(d, next)
    ensures ParameterTypes(d) == Some(params)
  {
  }

  /** The parameter list of "(" + list + ")" + rest reads back from position 1. */
  lemma MethodParams(d: string, params: seq<FieldType>, rest: string)
    requires WellFormedTypes(params) && d == ['('] + ((PrintTypes(params) + ")") + rest)
    ensures ParseParams(d, 1) == Some((params, 2 + |PrintTypes(params)|))
  {
    var body := PrintTypes(params) + ")";
    assert d[1..1 + |body|] == body;
    SliceAt(d, 1, body);
    ParamsRoundTrip(d, 1, params);
  }

  /** The return type that ends "(" + body + its text is read there. */
  lemma MethodReturn(d: string, body: string, ret: Option<FieldType>)
    requires (ret.Some? ==> WellFormedType(ret.value)) && d == ['('] + (body + PrintReturn(ret))
    ensures ReturnsAt(d, 1 + |body|)
  {
    var rest := PrintReturn(ret);
    assert d[1 + |body|..1 + |body| + |rest|] == rest;
    SliceAt(d, 1 + |body|, rest);
    ReturnRoundTrip(d, 1 + |body|, ret);
  }

  function PrintReturn(ret: Option<FieldType>): string {
    if ret.None? then "V" else PrintType(ret.value)
  }

  lemma ReturnRoundTrip(s: string, pos: nat, ret: Option<FieldType>)
    requires (ret.Some? ==> WellFormedType(ret.value)) && At(s, pos, PrintReturn(ret)) && pos + |PrintReturn(ret)| == |s|
    ensures ReturnsAt(s, pos)
  {
    if ret.Some? {
      TypeRoundTrip(s, pos, ret.value);
    } else {
      AtFirst(s, pos, "V");
    }
  }
}
