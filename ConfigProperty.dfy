/**
 * Reading a configuration property (MrCore's config v2 ConfigProperty): the
 * undefined / null / type checks of getValue and getJSONValue, and the recursive
 * conversion of a value into what the JSON writer accepts.
 *
 * ConfigValueType.java, ConfigSection.java and the JSON classes are not part of
 * this model. A value type is NULL, UNDEFINED or a type with a value class (named
 * by a string); a section is its toMap() view, a map from key to value; a JSONArray
 * is a java.util.List and is modelled as one.
 */
module ConfigProperty {
  import opened Wrappers

  /** The Java objects a property value can be. */
  datatype Obj =
    | Null
    | Character(c: char)
    | Text(s: string)
    /** Any other object (a number, a boolean, ...), identified by an opaque code. */
    | Plain(code: int)
    /** A java.util.List, JSONArray included. */
    | ListOf(elems: seq<Obj>)
    /** A ConfigSection, seen through toMap(). */
    | Section(entries: map<string, Obj>)
    | JSONObject(members: map<string, Obj>)

  datatype ValueType = NullType | Undefined | Typed(valueClass: string)

  datatype ConfigError =
    | ConfigException(message: string)
    | IncompatibleTypeException(message: string)
    | NullPointerException

  datatype Property = Property(valueType: ValueType, value: Obj)

  predicate IsNull(p: Property) {
    p.valueType == NullType
  }

  predicate IsUndefined(p: Property) {
    p.valueType == Undefined
  }

  /**
   * getValue(asType): an undefined value fails first, a null value is null for any
   * requested class, and otherwise the requested class must be the value class itself.
   */
  function GetValue(p: Property, asType: string): (r: Result<Obj, ConfigError>)
    ensures IsUndefined(p) <==> r == Err(ConfigException("Value is not defined"))
    ensures IsNull(p) ==> r == Ok(Null)
    ensures r.Err? && r.error.IncompatibleTypeException? <==>
      !IsUndefined(p) && !IsNull(p) && p.valueType.valueClass != asType
    ensures r.Ok? && !IsNull(p) ==> r.value == p.value && p.valueType.valueClass == asType
  {
    if IsUndefined(p) then Err(ConfigException("Value is not defined"))
    else if IsNull(p) then Ok(Null)
    else if p.valueType.valueClass != asType then
      Err(IncompatibleTypeException("Invalid class provided, must be " + p.valueType.valueClass))
    else Ok(p.value)
  }

  /**
   * toJSONCompliant: null stays null, a character becomes its one-character string,
   * a list becomes a list of the converted elements in order, a section becomes a
   * JSON object of its converted entries, and anything else is returned as it is.
   * Collectors.toMap rejects a null value, so a section with a null entry fails with
   * a NullPointerException.
   */
  function ToJSONCompliant(o: Obj): (r: Result<Obj, ConfigError>)
    ensures r.Err? ==> r.error == NullPointerException
    ensures r.Ok? ==> (r.value == Null <==> o == Null)
    ensures r.Ok? && o.ListOf? ==> r.value.ListOf? && |r.value.elems| == |o.elems|
    ensures r.Ok? && o.Section? ==> r.value.JSONObject? && r.value.members.Keys == o.entries.Keys
    ensures o.Character? ==> r == Ok(Text([o.c]))
    ensures o.Text? || o.Plain? || o.JSONObject? ==> r == Ok(o)
    decreases o
  {
    match o
    case Null => Ok(Null)
    case Section(m) =>
      if forall k :: k in m ==> ToJSONCompliant(m[k]).Ok? && m[k] != Null then
        Ok(JSONObject(map k | k in m :: ToJSONCompliant(m[k]).value))
      else Err(NullPointerException)
    case ListOf(es) =>
      if forall i :: 0 <= i < |es| ==> ToJSONCompliant(es[i]).Ok? then
        Ok(ListOf(seq(|es|, i requires 0 <= i < |es| => ToJSONCompliant(es[i]).value)))
      else Err(NullPointerException)
    case Character(c) => Ok(Text([c]))
    case _ => Ok(o)
  }

  /** getJSONValue: the same undefined and null checks, then toJSONCompliant of the value. */
  function GetJSONValue(p: Property): (r: Result<Obj, ConfigError>)
    ensures IsUndefined(p) <==> r == Err(ConfigException("Value is not defined"))
    ensures IsNull(p) ==> r == Ok(Null)
    ensures !IsUndefined(p) && !IsNull(p) ==> r == ToJSONCompliant(p.value)
  {
    if IsUndefined(p) then Err(ConfigException("Value is not defined"))
    else if IsNull(p) then Ok(Null)
    else ToJSONCompliant(p.value)
  }

  // ---------------------------------------------------------------------
  // What the conversion guarantees

  /** A value the JSON writer accepts: no character and no section outside a JSON object. */
  predicate Compliant(o: Obj)
    decreases o
  {
    match o
    case Character(_) => false
    case Section(_) => false
    case ListOf(es) => forall i :: 0 <= i < |es| ==> Compliant(es[i])
    case _ => true
  }

  /** A null entry of a section, reached through lists and sections. */
  predicate NullInSection(o: Obj)
    decreases o
  {
    match o
    case Section(m) => exists k :: k in m && (m[k] == Null || NullInSection(m[k]))
    case ListOf(es) => exists i :: 0 <= i < |es| && NullInSection(es[i])
    case _ => false
  }

  /** The conversion fails exactly when some section holds a null entry. */
  lemma {:induction false} ConversionFails(o: Obj)
    ensures ToJSONCompliant(o).Err? <==> NullInSection(o)
    decreases o
  {
    match o
    case Section(m) =>
      forall k | k in m {
        ConversionFails(m[k]);
      }
    case ListOf(es) =>
      forall i | 0 <= i < |es| {
        ConversionFails(es[i]);
      }
    case _ =>
  }

  /** What the conversion returns is compliant. */
  lemma {:induction false} ConversionCompliant(o: Obj)
    requires ToJSONCompliant(o).Ok?
    ensures Compliant(ToJSONCompliant(o).value)
    decreases o
  {
    match o
    case ListOf(es) =>
      forall i | 0 <= i < |es| {
        ConversionCompliant(es[i]);
      }
    case _ =>
  }

  /** A compliant value converts to itself; so converting twice is converting once. */
  lemma {:induction false} CompliantUnchanged(o: Obj)
    requires Compliant(o)
    ensures ToJSONCompliant(o) == Ok(o)
    decreases o
  {
    match o
    case ListOf(es) =>
      forall i | 0 <= i < |es| {
        CompliantUnchanged(es[i]);
      }
      assert seq(|es|, i requires 0 <= i < |es| => ToJSONCompliant(es[i]).value) == es;
    case _ =>
  }

  lemma ConversionIdempotent(o: Obj)
    requires ToJSONCompliant(o).Ok?
    ensures ToJSONCompliant(ToJSONCompliant(o).value) == ToJSONCompliant(o)
  {
    ConversionCompliant(o);
    CompliantUnchanged(ToJSONCompliant(o).value);
  }

  /** Each list element and each section entry is converted in place. */
  lemma ConversionElementwise(o: Obj)
    requires ToJSONCompliant(o).Ok?
    ensures o.ListOf? ==> forall i :: 0 <= i < |o.elems| ==>
      ToJSONCompliant(o.elems[i]) == Ok(ToJSONCompliant(o).value.elems[i])
    ensures o.Section? ==> forall k :: k in o.entries ==>
      ToJSONCompliant(o.entries[k]) == Ok(ToJSONCompliant(o).value.members[k])
  {
  }
}
