/** Validating scalars against their dictionary types: one value at a time, and elements of arrays without boxing them. */
module PrimitiveValidation {
  import opened Text
  import opened Bounds
  import opened GoValues
  import opened TypeInheritance
  import TV = TypeValues

  /** A finding with the details that tell findings apart; `superType` is the declaring type when it is not the
      attribute's own, and makes the difference between the two codes of each constraint. */
  datatype TypeFinding =
    | SchemaBugTypeMissing(typeName: string)
    | SchemaBugPrimitiveTypeUnknown(primitive: string)
    | SchemaBugTypeRegexInvalid(declaredBy: string)
    | AttributeWrongType(value: GoValue, typeName: string, primitive: string)
    | AttributeValueExceedsRange(superType: Option<string>, range: seq<int64>)
    | AttributeValueExceedsMaxLen(superType: Option<string>, length: nat, maxLen: int64)
    | AttributeValueRegexNotMatched(superType: Option<string>, regex: string)
    | AttributeValueNotInTypeValues(superType: Option<string>)

  type Cache = map<string, TypeValidation>

  /** The cache that resolving every type of the dictionary leaves. */
  ghost predicate Resolved(p: Platform, types: Types, cache: Cache) {
    cache.Keys == types.Keys && forall n | n in cache :: Describes(p, types, n, cache[n])
  }

  // ----- What a value deserves -----

  predicate ScalarPrimitive(primitive: string) {
    primitive in {"boolean_t", "float_t", "integer_t", "long_t", "string_t"}
  }

  predicate Accepts(p: Platform, primitive: string, v: GoValue) {
    match primitive
    case "boolean_t" => ReadBoolean(v).Some?
    case "float_t" => ReadFloat(p, v).Some?
    case "string_t" => ReadString(v).Some?
    case _ => ReadInteger(p, v).Some?
  }

  /** The number a value is: exactly, when it is an integer, else as a float64. */
  function NumberOf(p: Platform, v: GoValue): Option<real> {
    match ReadInteger(p, v)
    case Some(i) => Some(i as real)
    case None =>
      match ReadFloat(p, v)
      case Some(Finite(x)) => Some(x)
      case _ => None
  }

  predicate WithinRange(number: Option<real>, range: seq<int64>) {
    |range| == 2 && number.Some? && range[0] as real <= number.value <= range[1] as real
  }

  function SuperType(declaredBy: string, typeName: string): Option<string> {
    if declaredBy != typeName then Some(declaredBy) else None
  }

  function RangeFindings(number: Option<real>, typeName: string, r: TypeValidation): seq<TypeFinding> {
    if r.range == None || WithinRange(number, r.range.value.content) then []
    else [AttributeValueExceedsRange(SuperType(r.range.value.typeName, typeName), r.range.value.content)]
  }

  function MaxLenFindings(text: string, typeName: string, r: TypeValidation): seq<TypeFinding> {
    if r.maxLen == None || |text| <= r.maxLen.value.content then []
    else [AttributeValueExceedsMaxLen(SuperType(r.maxLen.value.typeName, typeName), |text|, r.maxLen.value.content)]
  }

  function RegexFindings(p: Platform, text: string, typeName: string, r: TypeValidation): seq<TypeFinding> {
    if r.regex == None then []
    else
      match p.compile(r.regex.value.content)
      case None => [SchemaBugTypeRegexInvalid(r.regex.value.typeName)]
      case Some(matches) =>
        if matches(text) then []
        else [AttributeValueRegexNotMatched(SuperType(r.regex.value.typeName, typeName), r.regex.value.content)]
  }

  /** Whether the value is one of those the declaring type lists, whatever sets they were compiled into. */
  function ValuesFindings(p: Platform, types: Types, v: GoValue, typeName: string, r: TypeValidation): seq<TypeFinding>
    requires r.values.Some? ==> r.values.value.typeName in types
  {
    if r.values == None || TV.Listed(p, r.primitive, types[r.values.value.typeName].values, v) then []
    else [AttributeValueNotInTypeValues(SuperType(r.values.value.typeName, typeName))]
  }

  /** The constraints a value of the right type breaks, in order. */
  function AcceptedFindings(p: Platform, types: Types, v: GoValue, typeName: string,
                            r: TypeValidation): seq<TypeFinding>
    requires Accepts(p, r.primitive, v) && (r.values.Some? ==> r.values.value.typeName in types)
  {
    (match r.primitive
     case "boolean_t" => []
     case "string_t" => MaxLenFindings(v.text, typeName, r) + RegexFindings(p, v.text, typeName, r)
     case _ => RangeFindings(NumberOf(p, v), typeName, r))
    + ValuesFindings(p, types, v, typeName, r)
  }

  /** The findings of one value, in order. */
  ghost function Findings(p: Platform, types: Types, cache: Cache, typeName: string, v: GoValue): seq<TypeFinding>
    requires Resolved(p, types, cache)
  {
    if typeName !in cache then [SchemaBugTypeMissing(typeName)]
    else
      var r := cache[typeName];
      if r.primitive == "json_t" then []
      else if !ScalarPrimitive(r.primitive) then [SchemaBugPrimitiveTypeUnknown(r.primitive)]
      else if !Accepts(p, r.primitive, v) then [AttributeWrongType(v, typeName, r.primitive)]
      else AcceptedFindings(p, types, v, typeName, r)
  }

  /** An element is judged as its value is, except that reflection does not read scalars out of interfaces. */
  ghost function ElementFindings(p: Platform, types: Types, cache: Cache, typeName: string, a: ArrayView, i: nat): seq<TypeFinding>
    requires Resolved(p, types, cache) && i < Len(a)
  {
    if typeName in cache && ScalarPrimitive(cache[typeName].primitive) && Interfaced(a) then
      [AttributeWrongType(BoxedAt(a, i), typeName, cache[typeName].primitive)]
    else Findings(p, types, cache, typeName, BoxedAt(a, i))
  }

  /** Judging an element without boxing it finds what judging the boxed value finds, unless the container is seen by
      reflection, holds interfaces and the value would have been accepted. */
  lemma FastPathAgrees(p: Platform, types: Types, cache: Cache, typeName: string, a: ArrayView, i: nat)
    requires Resolved(p, types, cache) && i < Len(a)
    ensures ElementFindings(p, types, cache, typeName, a, i) == Findings(p, types, cache, typeName, BoxedAt(a, i))
      <==> !(Interfaced(a) && typeName in cache && ScalarPrimitive(cache[typeName].primitive)
             && Accepts(p, cache[typeName].primitive, BoxedAt(a, i)))
  {
    hide Accepts, RangeFindings, MaxLenFindings, RegexFindings, ValuesFindings, NumberOf;
    if typeName in cache && ScalarPrimitive(cache[typeName].primitive) {
      var r, v := cache[typeName], BoxedAt(a, i);
      if Accepts(p, r.primitive, v) {
        NoWrongType(p, types, cache, typeName, v);
        assert AttributeWrongType(v, typeName, r.primitive) !in Findings(p, types, cache, typeName, v);
      }
    }
  }

  lemma NoWrongType(p: Platform, types: Types, cache: Cache, typeName: string, v: GoValue)
    requires Resolved(p, types, cache) && typeName in cache
    requires ScalarPrimitive(cache[typeName].primitive) && Accepts(p, cache[typeName].primitive, v)
    ensures forall f | f in Findings(p, types, cache, typeName, v) :: !f.AttributeWrongType?
  {
    hide NumberOf, WithinRange, TV.Listed, ReadInteger, ReadFloat;
  }

  // ----- The processor -----

  datatype Number = AnInteger(i: int64) | AFloat(f: Float)

  function RealOf(n: Number): Option<real> {
    match n
    case AnInteger(i) => Some(i as real)
    case AFloat(f) => if f.Finite? then Some(f.x) else None
  }

  class ValidationProcessor {
    const p: Platform
    const types: Types
    const cache: Cache
    var findings: seq<TypeFinding>

    constructor (p: Platform, types: Types, cache: Cache)
      requires Faithful(p) && Resolved(p, types, cache)
      ensures Valid() && findings == []
      ensures this.p == p && this.types == types && this.cache == cache
    {
      this.p := p;
      this.types := types;
      this.cache := cache;
      findings := [];
    }

    ghost predicate Valid() {
      Faithful(p) && Resolved(p, types, cache)
    }

    /** The resolved entry of a type. */
    ghost predicate EntryOf(typeName: string, r: TypeValidation) {
      typeName in cache && r == cache[typeName]
    }

    method AddFinding(finding: TypeFinding)
      modifies this
      ensures findings == old(findings) + [finding]
    {
      findings := findings + [finding];
    }

    method ValidateTypeValues(v: GoValue, typeName: string, r: TypeValidation)
      requires Valid() && EntryOf(typeName, r)
      modifies this
      ensures r.values.Some? ==> r.values.value.typeName in types
      ensures findings == old(findings) + ValuesFindings(p, types, v, typeName, r)
    {
      hide TV.ContainsValue, TV.Listed, TV.CompiledFor, Faithful;
      assert Describes(p, types, typeName, r);
      if r.values == None {
        return;
      }
      var constraint := r.values.value;
      TV.ContainsIsListed(p, r.primitive, types[constraint.typeName].values, constraint.content, v);
      if TV.ContainsValue(p, constraint.content, v) {
        return;
      }
      AddFinding(AttributeValueNotInTypeValues(SuperType(constraint.typeName, typeName)));
    }

    method ValidateNumberRange(numeric: Number, typeName: string, r: TypeValidation)
      requires Valid() && EntryOf(typeName, r) && (numeric.AFloat? ==> IsFloat(numeric.f))
      modifies this
      ensures findings == old(findings) + RangeFindings(RealOf(numeric), typeName, r)
    {
      hide Converted, IsFloat, Nearest;
      assert Describes(p, types, typeName, r);
      if r.range == None {
        return;
      }
      var constraint := r.range.value;
      var low, high := constraint.content[0], constraint.content[1];
      assert constraint.content == [low, high];
      var outside;
      match numeric {
        case AnInteger(i) => outside := i < low || i > high;
        case AFloat(f) => outside := FloatOutsideRange(f, low, high, p.round(low), p.round(high));
      }
      if !outside {
        return;
      }
      AddFinding(AttributeValueExceedsRange(SuperType(constraint.typeName, typeName), [low, high]));
    }

    method ValidateFloatRange(v: GoValue, f: Float, typeName: string, r: TypeValidation)
      requires Valid() && EntryOf(typeName, r) && IsFloat(f) && ReadFloat(p, v) == Some(f)
      modifies this
      ensures findings == old(findings) + RangeFindings(NumberOf(p, v), typeName, r)
    {
      hide ReadInteger, ReadFloat, WithinRange, Valid, IsFloat;
      if r.range == None {
        return;
      }
      var integer := ReadInteger(p, v);
      if integer.Some? {
        ValidateNumberRange(AnInteger(integer.value), typeName, r);
        return;
      }
      ValidateNumberRange(AFloat(f), typeName, r);
    }

    method ValidateStringMaxLen(text: string, typeName: string, r: TypeValidation)
      modifies this
      ensures findings == old(findings) + MaxLenFindings(text, typeName, r)
    {
      if r.maxLen == None {
        return;
      }
      var constraint := r.maxLen.value;
      if |text| <= constraint.content {
        return;
      }
      AddFinding(AttributeValueExceedsMaxLen(SuperType(constraint.typeName, typeName), |text|, constraint.content));
    }

    method ValidateStringRegex(text: string, typeName: string, r: TypeValidation)
      modifies this
      ensures findings == old(findings) + RegexFindings(p, text, typeName, r)
    {
      if r.regex == None {
        return;
      }
      var constraint := r.regex.value;
      var compiled := p.compile(constraint.content);
      if compiled == None {
        AddFinding(SchemaBugTypeRegexInvalid(constraint.typeName));
        return;
      }
      var matches := compiled.value;
      if matches(text) {
        return;
      }
      AddFinding(AttributeValueRegexNotMatched(SuperType(constraint.typeName, typeName), constraint.content));
    }

    method ValidatePrimitiveValue(v: GoValue, typeName: string)
      requires Valid() && IsValue(v)
      modifies this
      ensures findings == old(findings) + Findings(p, types, cache, typeName, v)
    {
      hide Resolved, AcceptedFindings, Accepts, IsValue;
      if typeName !in cache {
        AddFinding(SchemaBugTypeMissing(typeName));
        return;
      }
      var r := cache[typeName];
      match r.primitive {
        case "json_t" =>
        case "boolean_t" => ValidateBoolean(v, typeName, r);
        case "float_t" => ValidateFloat(v, typeName, r);
        case "string_t" => ValidateString(v, typeName, r);
        case _ =>
          if r.primitive != "integer_t" && r.primitive != "long_t" {
            AddFinding(SchemaBugPrimitiveTypeUnknown(r.primitive));
            return;
          }
          ValidateInteger(v, typeName, r);
      }
    }

    method ValidateBoolean(v: GoValue, typeName: string, r: TypeValidation)
      requires Valid() && EntryOf(typeName, r) && r.primitive == "boolean_t"
      modifies this
      ensures findings == old(findings) + Findings(p, types, cache, typeName, v)
    {
      hide Resolved, ValuesFindings;
      if ReadBoolean(v) == None {
        AddFinding(AttributeWrongType(v, typeName, r.primitive));
        return;
      }
      ValidateTypeValues(v, typeName, r);
    }

    method ValidateFloat(v: GoValue, typeName: string, r: TypeValidation)
      requires Valid() && EntryOf(typeName, r) && r.primitive == "float_t" && IsValue(v)
      modifies this
      ensures findings == old(findings) + Findings(p, types, cache, typeName, v)
    {
      hide Resolved, RangeFindings, ValuesFindings, NumberOf, IsFloat, IsValue;
      var f := ReadFloat(p, v);
      if f == None {
        AddFinding(AttributeWrongType(v, typeName, r.primitive));
        return;
      }
      FloatsAreFloats(p, v);
      ValidateFloatRange(v, f.value, typeName, r);
      ValidateTypeValues(v, typeName, r);
    }

    method ValidateString(v: GoValue, typeName: string, r: TypeValidation)
      requires Valid() && EntryOf(typeName, r) && r.primitive == "string_t"
      modifies this
      ensures findings == old(findings) + Findings(p, types, cache, typeName, v)
    {
      hide Resolved, MaxLenFindings, RegexFindings, ValuesFindings;
      var text := ReadString(v);
      if text == None {
        AddFinding(AttributeWrongType(v, typeName, r.primitive));
        return;
      }
      ValidateStringMaxLen(text.value, typeName, r);
      ValidateStringRegex(text.value, typeName, r);
      ValidateTypeValues(v, typeName, r);
    }

    method ValidateInteger(v: GoValue, typeName: string, r: TypeValidation)
      requires Valid() && EntryOf(typeName, r) && TV.IsIntegral(r.primitive)
      modifies this
      ensures findings == old(findings) + Findings(p, types, cache, typeName, v)
    {
      hide Resolved, RangeFindings, ValuesFindings, NumberOf, ReadInteger;
      var i := ReadInteger(p, v);
      if i == None {
        AddFinding(AttributeWrongType(v, typeName, r.primitive));
        return;
      }
      IntegersAreNumbers(p, v);
      ValidateNumberRange(AnInteger(i.value), typeName, r);
      ValidateTypeValues(v, typeName, r);
    }

    /** The same for one element of an array; the membership and range tests come first, and only a value that fails
        one is boxed and judged in full. */
    method ValidateArrayPrimitiveValue(a: ArrayView, i: nat, typeName: string)
      requires Valid() && i < Len(a) && Typed(a) && IsValue(BoxedAt(a, i))
      modifies this
      ensures findings == old(findings) + ElementFindings(p, types, cache, typeName, a, i)
    {
      hide Resolved, Accepts, IsValue, BoxedAt, Typed, Interfaced, AcceptedFindings;
      if typeName !in cache {
        ValidatePrimitiveValue(BoxedAt(a, i), typeName);
        return;
      }
      var r := cache[typeName];
      match r.primitive {
        case "json_t" =>
        case "boolean_t" => ValidateBooleanAt(a, i, typeName, r);
        case "float_t" => ValidateFloatAt(a, i, typeName, r);
        case "string_t" => ValidateStringAt(a, i, typeName, r);
        case _ =>
          if r.primitive != "integer_t" && r.primitive != "long_t" {
            ValidatePrimitiveValue(BoxedAt(a, i), typeName);
            return;
          }
          ValidateIntegerAt(a, i, typeName, r);
      }
    }

    method ValidateBooleanAt(a: ArrayView, i: nat, typeName: string, r: TypeValidation)
      requires Valid() && EntryOf(typeName, r) && r.primitive == "boolean_t" && i < Len(a) && Typed(a)
      modifies this
      ensures findings == old(findings) + ElementFindings(p, types, cache, typeName, a, i)
    {
      hide Resolved, ValuesFindings, ReadBoolean, BoxedAt, AsBooleanAt, TV.Contains, Typed, Interfaced;
      AccessorsAgree(p, a, i);
      ValuesShortcut(BoxedAt(a, i), typeName, r);
      var value := AsBooleanAt(a, i);
      if value == None {
        AddFinding(AttributeWrongType(BoxedAt(a, i), typeName, r.primitive));
        return;
      }
      if r.values.Some? && !TV.Contains(r.values.value.content.bools, value.value) {
        ValidateTypeValues(BoxedAt(a, i), typeName, r);
      }
    }

    method ValidateFloatAt(a: ArrayView, i: nat, typeName: string, r: TypeValidation)
      requires Valid() && EntryOf(typeName, r) && r.primitive == "float_t" && i < Len(a) && Typed(a) && IsValue(BoxedAt(a, i))
      modifies this
      ensures findings == old(findings) + ElementFindings(p, types, cache, typeName, a, i)
    {
      hide Resolved, RangeFindings, ValuesFindings, NumberOf, ReadFloat, BoxedAt, AsFloatAt, TV.Contains, Typed, IsValue, Interfaced;
      AccessorsAgree(p, a, i);
      ValuesShortcut(BoxedAt(a, i), typeName, r);
      var value := AsFloatAt(p, a, i);
      if value == None {
        AddFinding(AttributeWrongType(BoxedAt(a, i), typeName, r.primitive));
        return;
      }
      ValidateFloatRangeAt(a, i, value.value, typeName, r);
      if r.values.Some? && !TV.Contains(r.values.value.content.floats, value.value) {
        ValidateTypeValues(BoxedAt(a, i), typeName, r);
      }
    }

    method ValidateStringAt(a: ArrayView, i: nat, typeName: string, r: TypeValidation)
      requires Valid() && EntryOf(typeName, r) && r.primitive == "string_t" && i < Len(a) && Typed(a)
      modifies this
      ensures findings == old(findings) + ElementFindings(p, types, cache, typeName, a, i)
    {
      hide Resolved, MaxLenFindings, RegexFindings, ValuesFindings, BoxedAt, AsStringAt, TV.Contains, Typed, Interfaced;
      AccessorsAgree(p, a, i);
      ValuesShortcut(BoxedAt(a, i), typeName, r);
      var value := AsStringAt(a, i);
      if value == None {
        AddFinding(AttributeWrongType(BoxedAt(a, i), typeName, r.primitive));
        return;
      }
      ValidateStringMaxLen(value.value, typeName, r);
      ValidateStringRegex(value.value, typeName, r);
      if r.values.Some? && !TV.Contains(r.values.value.content.strings, value.value) {
        ValidateTypeValues(BoxedAt(a, i), typeName, r);
      }
    }

    method ValidateIntegerAt(a: ArrayView, i: nat, typeName: string, r: TypeValidation)
      requires Valid() && EntryOf(typeName, r) && TV.IsIntegral(r.primitive) && i < Len(a) && Typed(a)
      modifies this
      ensures findings == old(findings) + ElementFindings(p, types, cache, typeName, a, i)
    {
      hide Resolved, RangeFindings, ValuesFindings, NumberOf, ReadInteger, BoxedAt, AsIntegerAt, TV.Contains, Typed, Interfaced;
      AccessorsAgree(p, a, i);
      ValuesShortcut(BoxedAt(a, i), typeName, r);
      var value := AsIntegerAt(p, a, i);
      if value == None {
        AddFinding(AttributeWrongType(BoxedAt(a, i), typeName, r.primitive));
        return;
      }
      IntegersAreNumbers(p, BoxedAt(a, i));
      ValidateIntegerRangeAt(value.value, typeName, r);
      if r.values.Some? && !TV.Contains(r.values.value.content.ints, value.value) {
        ValidateTypeValues(BoxedAt(a, i), typeName, r);
      }
    }

    method ValidateIntegerRangeAt(value: int64, typeName: string, r: TypeValidation)
      requires Valid() && EntryOf(typeName, r)
      modifies this
      ensures findings == old(findings) + RangeFindings(Some(value as real), typeName, r)
    {
      hide Nearest;
      assert Describes(p, types, typeName, r);
      if r.range.Some? && (value < r.range.value.content[0] || value > r.range.value.content[1]) {
        ValidateNumberRange(AnInteger(value), typeName, r);
      }
    }

    method ValidateFloatRangeAt(a: ArrayView, i: nat, value: Float, typeName: string, r: TypeValidation)
      requires Valid() && EntryOf(typeName, r) && i < Len(a) && Typed(a) && IsValue(BoxedAt(a, i))
      requires AsFloatAt(p, a, i) == Some(value)
      modifies this
      ensures findings == old(findings) + RangeFindings(NumberOf(p, BoxedAt(a, i)), typeName, r)
    {
      hide ReadInteger, ReadFloat, IsFloat, IsValue, BoxedAt, AsFloatAt, AsIntegerAt, Converted, Nearest, Typed;
      assert Describes(p, types, typeName, r);
      AccessorsAgree(p, a, i);
      FloatsAreFloats(p, BoxedAt(a, i));
      if r.range.Some? {
        var low, high := r.range.value.content[0], r.range.value.content[1];
        var integer := AsIntegerAt(p, a, i);
        if integer.Some? {
          ValidateIntegerRangeAt(integer.value, typeName, r);
        } else if FloatOutsideRange(value, low, high, p.round(low), p.round(high)) {
          ValidateNumberRange(AFloat(value), typeName, r);
        }
      }
    }

    /** The value's reading is in the set for its primitive. */
    predicate FoundIn(v: GoValue, primitive: string, c: TV.ValueConstraint) {
      match primitive
      case "boolean_t" => ReadBoolean(v).Some? && TV.Contains(c.bools, ReadBoolean(v).value)
      case "float_t" => ReadFloat(p, v).Some? && TV.Contains(c.floats, ReadFloat(p, v).value)
      case "string_t" => ReadString(v).Some? && TV.Contains(c.strings, ReadString(v).value)
      case _ => TV.IsIntegral(primitive) && ReadInteger(p, v).Some? && TV.Contains(c.ints, ReadInteger(p, v).value)
    }

    /** A reading found in its own set is listed, and then there is nothing to find. */
    lemma ValuesShortcut(v: GoValue, typeName: string, r: TypeValidation)
      requires Valid() && EntryOf(typeName, r)
      ensures r.values.Some? ==> r.values.value.typeName in types
      ensures var none := ValuesFindings(p, types, v, typeName, r) == [];
        && (r.values == None ==> none)
        && (r.values.Some? && FoundIn(v, r.primitive, r.values.value.content) ==> none)
    {
      hide ReadInteger, ReadFloat, ReadString, ReadBoolean, TV.Contains, TV.Listed, TV.CompiledFor, Faithful, Nearest;
      assert Describes(p, types, typeName, r);
      if r.values.Some? {
        var constraint := r.values.value;
        TV.ContainsIsListed(p, r.primitive, types[constraint.typeName].values, constraint.content, v);
      }
    }
  }

  lemma FloatsAreFloats(p: Platform, v: GoValue)
    requires Faithful(p) && IsValue(v) && ReadFloat(p, v).Some?
    ensures IsFloat(ReadFloat(p, v).value)
  {
    hide Double;
    if v.Signed? {
      assert Converted(v.i, p.round(v.i));
    }
  }

  lemma IntegersAreNumbers(p: Platform, v: GoValue)
    requires ReadInteger(p, v).Some?
    ensures NumberOf(p, v) == RealOf(AnInteger(ReadInteger(p, v).value))
  {
    hide ReadInteger;
  }
}
