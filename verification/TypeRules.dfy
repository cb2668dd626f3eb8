/** The findings a scalar deserves, type by type and constraint by constraint. */
module TypeRules {
  import opened Text
  import opened Values
  import opened Bounds
  import opened GoValues
  import opened TypeInheritance
  import opened PrimitiveValidation
  import TV = TypeValues

  // ----- What values are -----

  /** The integer a value is: a Go integer, a float without a fraction, or a spelling that reads as one. */
  predicate IntegerIs(p: Platform, v: GoValue, i: int64) {
    match v
    case Signed(_, j) => j == i
    case Floating(_, Finite(x)) => x == i as real
    case JSONNumber(spelling) => AsInteger(p.decimal, Number(spelling)) == Some(i)
    case _ => false
  }

  /** The float64 a value is: a float, the nearest one to a Go integer, or the one its spelling parses to. */
  predicate FloatIs(p: Platform, v: GoValue, f: Float) {
    match v
    case Signed(_, i) => f == Finite(p.round(i))
    case Floating(_, g) => f == g
    case JSONNumber(spelling) => p.parse(spelling) == Some(f)
    case _ => false
  }

  ghost predicate OfType(p: Platform, primitive: string, v: GoValue) {
    match primitive
    case "boolean_t" => v.Truth?
    case "string_t" => v.Textual?
    case "float_t" => exists f :: FloatIs(p, v, f)
    case "integer_t" => exists i: int64 :: IntegerIs(p, v, i)
    case "long_t" => exists i: int64 :: IntegerIs(p, v, i)
    case _ => false
  }

  /** The two are the same value of the type; floats are so when finite. */
  ghost predicate SameOfType(p: Platform, primitive: string, v: GoValue, w: GoValue) {
    match primitive
    case "boolean_t" => v.Truth? && v == w
    case "string_t" => v.Textual? && v == w
    case "float_t" => exists x: real :: FloatIs(p, v, Finite(x)) && FloatIs(p, w, Finite(x))
    case _ => exists i: int64 :: IntegerIs(p, v, i) && IntegerIs(p, w, i)
  }

  lemma IntegersRead(p: Platform, v: GoValue)
    ensures forall i: int64 :: ReadInteger(p, v) == Some(i) <==> IntegerIs(p, v, i)
  {
    hide Double;
    if v.Floating? && v.f.Finite? {
      WholeReads(v.f.x);
    }
  }

  lemma WholeReads(x: real)
    ensures forall i: int64 :: IntegralFloat64(Finite(x)) == Some(i) <==> x == i as real
  {
    forall i: int64 ensures IntegralFloat64(Finite(x)) == Some(i) <==> x == i as real {
      if x == i as real {
        WholeTruncates(x);
      }
    }
  }

  lemma FloatsRead(p: Platform, v: GoValue)
    ensures forall f :: ReadFloat(p, v) == Some(f) <==> FloatIs(p, v, f)
  {
  }

  lemma TypesRead(p: Platform, primitive: string, v: GoValue)
    requires ScalarPrimitive(primitive)
    ensures Accepts(p, primitive, v) <==> OfType(p, primitive, v)
  {
    IntegersRead(p, v);
    FloatsRead(p, v);
    hide ReadInteger, ReadFloat, IntegerIs, FloatIs;
  }

  lemma SameRead(p: Platform, primitive: string, v: GoValue, w: GoValue)
    requires ScalarPrimitive(primitive)
    ensures TV.SameReading(p, primitive, v, w) <==> SameOfType(p, primitive, v, w)
  {
    IntegersRead(p, v);
    IntegersRead(p, w);
    FloatsRead(p, v);
    FloatsRead(p, w);
    hide ReadInteger, ReadFloat, IntegerIs, FloatIs;
  }

  // ----- Findings -----

  /** The declaring type, named when it is not the value's own. */
  function Super(declaredBy: string, typeName: string): Option<string> {
    if declaredBy == typeName then None else Some(declaredBy)
  }

  /** A value that is not of its type, of a type that is not known or whose primitive is none, gets that finding alone. */
  lemma WrongTypeFound(p: Platform, types: Types, cache: Cache, typeName: string, v: GoValue)
    requires Resolved(p, types, cache)
    ensures var found := Findings(p, types, cache, typeName, v);
      && (typeName !in types ==> found == [SchemaBugTypeMissing(typeName)])
      && (typeName in types ==>
            var primitive := cache[typeName].primitive;
            && (primitive == "json_t" ==> found == [])
            && (primitive !in {"json_t", "boolean_t", "float_t", "integer_t", "long_t", "string_t"} ==>
                  found == [SchemaBugPrimitiveTypeUnknown(primitive)])
            && (primitive in {"boolean_t", "float_t", "integer_t", "long_t", "string_t"} && !OfType(p, primitive, v) ==>
                  found == [AttributeWrongType(v, typeName, primitive)]))
  {
    hide Describes, AcceptedFindings, Accepts, OfType;
    if typeName in types && ScalarPrimitive(cache[typeName].primitive) {
      TypesRead(p, cache[typeName].primitive, v);
    }
  }

  /** Some value that the type declaring the list has in it is the same, as the primitive. */
  ghost predicate InList(p: Platform, types: Types, r: TypeValidation, v: GoValue)
    requires r.values.Some? && r.values.value.typeName in types
  {
    exists w | w in types[r.values.value.typeName].values :: SameOfType(p, r.primitive, w, v)
  }

  lemma ListedMeans(p: Platform, types: Types, r: TypeValidation, v: GoValue)
    requires ScalarPrimitive(r.primitive) && r.values.Some? && r.values.value.typeName in types
    ensures TV.Listed(p, r.primitive, types[r.values.value.typeName].values, v) <==> InList(p, types, r, v)
  {
    forall w ensures TV.SameReading(p, r.primitive, w, v) <==> SameOfType(p, r.primitive, w, v) {
      SameRead(p, r.primitive, w, v);
    }
    hide TV.SameReading, SameOfType;
  }

  lemma EntryDescribes(p: Platform, types: Types, cache: Cache, typeName: string)
    requires Resolved(p, types, cache) && typeName in types
    ensures typeName in cache && ContentFaithful(p, types, cache[typeName])
  {
    hide ContentFaithful, Nearest;
  }

  /** A text of a string type is too long, does not match, and is not listed, each on its own and in this order; a
      pattern that does not compile is a flaw of the schema. */
  lemma TextFound(p: Platform, types: Types, cache: Cache, typeName: string, text: string)
    requires Resolved(p, types, cache) && typeName in types && cache[typeName].primitive == "string_t"
    ensures var r := cache[typeName];
      && (r.values.Some? ==> r.values.value.typeName in types)
      && Findings(p, types, cache, typeName, Textual(text)) ==
           (if r.maxLen.Some? && |text| > r.maxLen.value.content
            then [AttributeValueExceedsMaxLen(Super(r.maxLen.value.typeName, typeName), |text|, r.maxLen.value.content)]
            else [])
           + (if r.regex.Some? && p.compile(r.regex.value.content) == None
              then [SchemaBugTypeRegexInvalid(r.regex.value.typeName)]
              else if r.regex.Some? && !p.compile(r.regex.value.content).value(text)
              then [AttributeValueRegexNotMatched(Super(r.regex.value.typeName, typeName), r.regex.value.content)]
              else [])
           + (if r.values.Some? && !InList(p, types, r, Textual(text))
              then [AttributeValueNotInTypeValues(Super(r.values.value.typeName, typeName))] else [])
  {
    hide Describes, InList, TV.Listed, ContentFaithful;
    EntryDescribes(p, types, cache, typeName);
    ValuesDeclared(p, types, cache[typeName]);
    if cache[typeName].values.Some? {
      ListedMeans(p, types, cache[typeName], Textual(text));
    }
  }

  lemma ValuesDeclared(p: Platform, types: Types, r: TypeValidation)
    requires ContentFaithful(p, types, r)
    ensures r.values.Some? ==> r.values.value.typeName in types
    ensures r.range.Some? ==> |r.range.value.content| == 2
  {
    hide TV.CompiledFor;
  }

  /** A truth value of a boolean type is not listed, or nothing. */
  lemma TruthFound(p: Platform, types: Types, cache: Cache, typeName: string, b: bool)
    requires Resolved(p, types, cache) && typeName in types && cache[typeName].primitive == "boolean_t"
    ensures var r := cache[typeName];
      && (r.values.Some? ==> r.values.value.typeName in types)
      && Findings(p, types, cache, typeName, Truth(b)) ==
           if r.values.Some? && !InList(p, types, r, Truth(b))
           then [AttributeValueNotInTypeValues(Super(r.values.value.typeName, typeName))] else []
  {
    hide Describes, InList, TV.Listed, ContentFaithful;
    EntryDescribes(p, types, cache, typeName);
    ValuesDeclared(p, types, cache[typeName]);
    if cache[typeName].values.Some? {
      ListedMeans(p, types, cache[typeName], Truth(b));
    }
  }

  /** The number between the limits: exactly when the value is an integer, else as a float64. */
  ghost predicate Between(p: Platform, v: GoValue, low: int64, high: int64) {
    if exists i: int64 :: IntegerIs(p, v, i) then exists i: int64 :: IntegerIs(p, v, i) && low <= i <= high
    else exists x: real :: FloatIs(p, v, Finite(x)) && low as real <= x <= high as real
  }

  /** A number of an integer or a float type is outside the range, and not listed, each on its own and in this order. */
  lemma NumberFound(p: Platform, types: Types, cache: Cache, typeName: string, v: GoValue)
    requires Resolved(p, types, cache) && typeName in types
    requires cache[typeName].primitive in {"integer_t", "long_t", "float_t"} && OfType(p, cache[typeName].primitive, v)
    ensures var r := cache[typeName];
      && (r.range.Some? ==> |r.range.value.content| == 2)
      && (r.values.Some? ==> r.values.value.typeName in types)
      && Findings(p, types, cache, typeName, v) ==
           (if r.range.Some? && !Between(p, v, r.range.value.content[0], r.range.value.content[1])
            then [AttributeValueExceedsRange(Super(r.range.value.typeName, typeName), r.range.value.content)] else [])
           + (if r.values.Some? && !InList(p, types, r, v)
              then [AttributeValueNotInTypeValues(Super(r.values.value.typeName, typeName))] else [])
  {
    hide Describes, InList, TV.Listed, ContentFaithful, Accepts, OfType, NumberOf, Between;
    var r := cache[typeName];
    EntryDescribes(p, types, cache, typeName);
    ValuesDeclared(p, types, r);
    TypesRead(p, r.primitive, v);
    if r.values.Some? {
      ListedMeans(p, types, r, v);
    }
    if r.range.Some? {
      WithinMeans(p, v, r.range.value.content[0], r.range.value.content[1], r.range.value.content);
    }
  }

  lemma WithinMeans(p: Platform, v: GoValue, low: int64, high: int64, range: seq<int64>)
    requires range == [low, high]
    ensures WithinRange(NumberOf(p, v), range) <==> Between(p, v, low, high)
  {
    IntegersRead(p, v);
    FloatsRead(p, v);
    hide ReadInteger, ReadFloat, IntegerIs, FloatIs;
  }

  /** An element is judged as its value is, except that a scalar seen through a reflected interface is of the wrong type. */
  lemma ElementFound(p: Platform, types: Types, cache: Cache, typeName: string, a: ArrayView, i: nat)
    requires Resolved(p, types, cache) && i < Len(a)
    ensures ElementFindings(p, types, cache, typeName, a, i) ==
      if a.Reflected? && a.element == Interface && typeName in types
         && cache[typeName].primitive in {"boolean_t", "float_t", "integer_t", "long_t", "string_t"}
      then [AttributeWrongType(BoxedAt(a, i), typeName, cache[typeName].primitive)]
      else Findings(p, types, cache, typeName, BoxedAt(a, i))
  {
    hide Findings;
  }

  /** Lists of allowed values compile when each value is of the primitive, a finite number if it is a float. */
  lemma ListsCompile(p: Platform, primitive: string, values: seq<GoValue>)
    ensures TV.Convertible(p, primitive, values) <==>
      && primitive in {"boolean_t", "float_t", "integer_t", "long_t", "string_t"}
      && forall v | v in values ::
           OfType(p, primitive, v) && (primitive == "float_t" ==> exists x: real :: FloatIs(p, v, Finite(x)))
  {
    forall v | v in values
      ensures TV.Integers(p)(v).Some? <==> exists i: int64 :: IntegerIs(p, v, i)
      ensures TV.SchemaFloats(p)(v).Some? <==> exists x: real :: FloatIs(p, v, Finite(x))
      ensures (TV.Strings()(v).Some? <==> v.Textual?) && (TV.Booleans()(v).Some? <==> v.Truth?)
    {
      Converts(p, v);
    }
    hide IntegerIs, FloatIs, TV.Integers, TV.SchemaFloats, TV.Strings, TV.Booleans;
    if primitive == "float_t" && forall v | v in values :: exists x: real :: FloatIs(p, v, Finite(x)) {
      forall v | v in values ensures OfType(p, primitive, v) {
        var x: real :| FloatIs(p, v, Finite(x));
      }
    }
  }

  lemma Converts(p: Platform, v: GoValue)
    ensures TV.Integers(p)(v).Some? <==> exists i: int64 :: IntegerIs(p, v, i)
    ensures TV.SchemaFloats(p)(v).Some? <==> exists x: real :: FloatIs(p, v, Finite(x))
    ensures (TV.Strings()(v).Some? <==> v.Textual?) && (TV.Booleans()(v).Some? <==> v.Truth?)
  {
    IntegersRead(p, v);
    FloatsRead(p, v);
    hide ReadInteger, ReadFloat, IntegerIs, FloatIs;
  }
}
