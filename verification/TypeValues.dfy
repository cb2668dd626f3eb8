/** Lists of allowed values, compiled for a primitive type into membership tests. */
module TypeValues {
  import opened Text
  import opened Bounds
  import opened GoValues

  // ----- Value sets -----

  const VALUE_INDEX_THRESHOLD := 16

  /** The values in order and, for long lists, an index of them. Floats are finite, so equality is that of numbers. */
  datatype ValueSet<T(==)> = ValueSet(values: seq<T>, index: Option<set<T>>)

  predicate Configured<T>(s: ValueSet<T>) {
    s.values != []
  }

  function Contains<T(==)>(s: ValueSet<T>, v: T): bool {
    if s.index.Some? then v in s.index.value else v in s.values
  }

  /** The two layouts: short lists are searched, long ones indexed. */
  predicate LaidOut<T(==)>(s: ValueSet<T>, values: seq<T>) {
    && s.values == values
    && s.index == if |values| < VALUE_INDEX_THRESHOLD then None else Some(set v | v in values)
  }

  /** In either layout membership is membership in the list. */
  lemma LayoutsAgree<T>(s: ValueSet<T>, values: seq<T>, v: T)
    requires LaidOut(s, values)
    ensures Contains(s, v) <==> v in values
  {
  }

  method BuildIndex<T(==)>(values: seq<T>) returns (s: ValueSet<T>)
    ensures LaidOut(s, values)
  {
    if |values| < VALUE_INDEX_THRESHOLD {
      return ValueSet(values, None);
    }
    var index: set<T> := {};
    for i := 0 to |values|
      invariant index == set v | v in values[..i]
    {
      index := index + {values[i]};
      assert values[..i + 1] == values[..i] + [values[i]];
    }
    assert values[..|values|] == values;
    return ValueSet(values, Some(index));
  }

  // ----- Compiled constraints -----

  /** One set for each primitive; at most one of them is configured. */
  datatype ValueConstraint = ValueConstraint(
    ints: ValueSet<int64>,
    floats: ValueSet<Float>,
    strings: ValueSet<string>,
    bools: ValueSet<bool>)

  type Convert<T> = GoValue -> Option<T>

  function Integers(p: Platform): Convert<int64> {
    v => ReadInteger(p, v)
  }

  /** Allowed floats are finite. */
  function SchemaFloats(p: Platform): Convert<Float> {
    v => if ReadFloat(p, v).Some? && ReadFloat(p, v).value.Finite? then ReadFloat(p, v) else None
  }

  function Strings(): Convert<string> {
    v => ReadString(v)
  }

  function Booleans(): Convert<bool> {
    v => ReadBoolean(v)
  }

  predicate AllConvert<T>(values: seq<GoValue>, convert: Convert<T>) {
    forall v | v in values :: convert(v).Some?
  }

  function Normalized<T>(values: seq<GoValue>, convert: Convert<T>): (r: seq<T>)
    requires AllConvert(values, convert)
    ensures |r| == |values|
  {
    seq(|values|, i requires 0 <= i < |values| => convert(values[i]).value)
  }

  /** The list's values, if this is the set for its primitive and all convert; nothing otherwise. */
  predicate Filled<T(==)>(s: ValueSet<T>, own: bool, values: seq<GoValue>, convert: Convert<T>) {
    if own then AllConvert(values, convert) && LaidOut(s, Normalized(values, convert)) else LaidOut(s, [])
  }

  predicate IsIntegral(primitive: string) {
    primitive == "integer_t" || primitive == "long_t"
  }

  predicate CompiledFor(p: Platform, primitive: string, values: seq<GoValue>, c: ValueConstraint) {
    && (IsIntegral(primitive) || primitive in {"float_t", "string_t", "boolean_t"})
    && Filled(c.ints, IsIntegral(primitive), values, Integers(p))
    && Filled(c.floats, primitive == "float_t", values, SchemaFloats(p))
    && Filled(c.strings, primitive == "string_t", values, Strings())
    && Filled(c.bools, primitive == "boolean_t", values, Booleans())
  }

  /** The primitive has values and every listed value is one. */
  predicate Convertible(p: Platform, primitive: string, values: seq<GoValue>) {
    (IsIntegral(primitive) && AllConvert(values, Integers(p)))
    || (primitive == "float_t" && AllConvert(values, SchemaFloats(p)))
    || (primitive == "string_t" && AllConvert(values, Strings()))
    || (primitive == "boolean_t" && AllConvert(values, Booleans()))
  }

  method AppendConstraintValue<T>(values: seq<T>, value: GoValue, convert: Convert<T>, ghost own: bool,
                                  ghost all: seq<GoValue>, ghost i: nat)
    returns (r: seq<T>, ok: bool)
    requires i < |all| && all[i] == value && own && SoFar(values, own, all, i, convert)
    ensures ok <==> convert(value).Some?
    ensures ok ==> SoFar(r, own, all, i + 1, convert)
  {
    var normalized := convert(value);
    if normalized == None {
      return values, false;
    }
    assert all[..i + 1] == all[..i] + [value];
    return values + [normalized.value], true;
  }

  /** What a list holds after the first i allowed values. */
  ghost predicate SoFar<T>(values: seq<T>, own: bool, all: seq<GoValue>, i: nat, convert: Convert<T>)
    requires i <= |all|
  {
    if own then AllConvert(all[..i], convert) && values == Normalized(all[..i], convert) else values == []
  }

  method CompileValueConstraint(p: Platform, primitive: string,
                                values: seq<GoValue>) returns (r: Option<ValueConstraint>)
    requires values != []
    ensures r.Some? <==> Convertible(p, primitive, values)
    ensures r.Some? ==> CompiledFor(p, primitive, values, r.value)
  {
    hide ReadInteger, ReadFloat, ReadString, ReadBoolean, Integers, SchemaFloats, Strings, Booleans;
    var ints: seq<int64>, floats: seq<Float>, strings: seq<string>, bools: seq<bool> := [], [], [], [];
    for index := 0 to |values|
      invariant index > 0 ==> IsIntegral(primitive) || primitive in {"float_t", "string_t", "boolean_t"}
      invariant SoFar(ints, IsIntegral(primitive), values, index, Integers(p))
      invariant SoFar(floats, primitive == "float_t", values, index, SchemaFloats(p))
      invariant SoFar(strings, primitive == "string_t", values, index, Strings())
      invariant SoFar(bools, primitive == "boolean_t", values, index, Booleans())
    {
      var value := values[index];
      var ok;
      match primitive {
        case "integer_t" => ints, ok := AppendConstraintValue(ints, value, Integers(p), true, values, index);
        case "long_t" => ints, ok := AppendConstraintValue(ints, value, Integers(p), true, values, index);
        case "float_t" => floats, ok := AppendConstraintValue(floats, value, SchemaFloats(p), true, values, index);
        case "string_t" => strings, ok := AppendConstraintValue(strings, value, Strings(), true, values, index);
        case "boolean_t" => bools, ok := AppendConstraintValue(bools, value, Booleans(), true, values, index);
        case _ => ok := false;
      }
      if !ok {
        assert value in values;
        return None;
      }
    }
    assert values[..|values|] == values;
    var intValues := BuildIndex(ints);
    var floatValues := BuildIndex(floats);
    var stringValues := BuildIndex(strings);
    var boolValues := BuildIndex(bools);
    return Some(ValueConstraint(intValues, floatValues, stringValues, boolValues));
  }

  // ----- Membership -----

  /** Reads a boxed value as whichever set is configured demands. */
  function ContainsValue(p: Platform, c: ValueConstraint, v: GoValue): bool {
    if Configured(c.ints) then
      var candidate := ReadInteger(p, v); candidate.Some? && Contains(c.ints, candidate.value)
    else if Configured(c.floats) then
      var candidate := ReadFloat(p, v); candidate.Some? && Contains(c.floats, candidate.value)
    else if Configured(c.strings) then
      var candidate := ReadString(v); candidate.Some? && Contains(c.strings, candidate.value)
    else
      var candidate := ReadBoolean(v); candidate.Some? && Contains(c.bools, candidate.value)
  }

  /** The two values are read, as the primitive, as one. */
  predicate SameReading(p: Platform, primitive: string, v: GoValue, w: GoValue) {
    match primitive
    case "float_t" => ReadFloat(p, v).Some? && ReadFloat(p, v).value.Finite? && ReadFloat(p, v) == ReadFloat(p, w)
    case "string_t" => ReadString(v).Some? && ReadString(v) == ReadString(w)
    case "boolean_t" => ReadBoolean(v).Some? && ReadBoolean(v) == ReadBoolean(w)
    case _ => ReadInteger(p, v).Some? && ReadInteger(p, v) == ReadInteger(p, w)
  }

  /** Some listed value is, as the primitive, the value. */
  predicate Listed(p: Platform, primitive: string, values: seq<GoValue>, v: GoValue) {
    exists w | w in values :: SameReading(p, primitive, w, v)
  }

  lemma NormalizedMember<T>(values: seq<GoValue>, convert: Convert<T>, x: T)
    requires AllConvert(values, convert)
    ensures x in Normalized(values, convert) <==> exists w | w in values :: convert(w) == Some(x)
  {
    var all := Normalized(values, convert);
    if x in all {
      var i :| 0 <= i < |all| && all[i] == x;
      assert values[i] in values && convert(values[i]) == Some(x);
    }
    if w :| w in values && convert(w) == Some(x) {
      var i :| 0 <= i < |values| && values[i] == w;
      assert all[i] == x;
    }
  }

  /** Compiled for the primitive a value is read as, the boxed test and the test of the reading both say whether the
      value is listed: whichever set is configured is the one for that primitive. */
  lemma ContainsIsListed(p: Platform, primitive: string, values: seq<GoValue>, c: ValueConstraint, v: GoValue)
    requires values != [] && CompiledFor(p, primitive, values, c)
    ensures ContainsValue(p, c, v) <==> Listed(p, primitive, values, v)
    ensures IsIntegral(primitive) && ReadInteger(p, v).Some? ==>
      (Contains(c.ints, ReadInteger(p, v).value) <==> Listed(p, primitive, values, v))
    ensures primitive == "float_t" && ReadFloat(p, v).Some? ==>
      (Contains(c.floats, ReadFloat(p, v).value) <==> Listed(p, primitive, values, v))
    ensures primitive == "string_t" && ReadString(v).Some? ==>
      (Contains(c.strings, ReadString(v).value) <==> Listed(p, primitive, values, v))
    ensures primitive == "boolean_t" && ReadBoolean(v).Some? ==>
      (Contains(c.bools, ReadBoolean(v).value) <==> Listed(p, primitive, values, v))
  {
    hide ReadInteger, ReadFloat, ReadString, ReadBoolean;
    if IsIntegral(primitive) {
      if ReadInteger(p, v).Some? {
        NormalizedMember(values, Integers(p), ReadInteger(p, v).value);
      }
    } else if primitive == "float_t" {
      if ReadFloat(p, v).Some? {
        NormalizedMember(values, SchemaFloats(p), ReadFloat(p, v).value);
      }
    } else if primitive == "string_t" {
      if ReadString(v).Some? {
        NormalizedMember(values, Strings(), ReadString(v).value);
      }
    } else if ReadBoolean(v).Some? {
      NormalizedMember(values, Booleans(), ReadBoolean(v).value);
    }
  }
}
