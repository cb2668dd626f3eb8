/** Scalars as Go holds them, the readings of the scalar types, and views of Go slices and arrays. */
module GoValues {
  import opened Text
  import opened Values
  import opened Bounds

  datatype IntType = PlainInt | Int8 | Int16 | Int32 | Int64

  datatype FloatType = Float32 | Float64

  /** The dynamic type of a value, or the static type of an array's elements; interfaces are only the latter. */
  datatype GoType =
    | StringType | BoolType | NumberType | MapType | Interface
    | IntOf(width: IntType)
    | FloatOf(precision: FloatType)
    | Other(name: string)

  /** A boxed value. A float32 is held as the float64 it converts to, which loses nothing. */
  datatype GoValue =
    | Textual(text: string)
    | Truth(b: bool)
    | Signed(width: IntType, i: int64)
    | Floating(precision: FloatType, f: Float)
    | JSONNumber(spelling: string)
    | Structured(fields: string)
    | Unsupported(name: string)

  function TypeOf(v: GoValue): GoType {
    match v
    case Textual(_) => StringType
    case Truth(_) => BoolType
    case Signed(width, _) => IntOf(width)
    case Floating(precision, _) => FloatOf(precision)
    case JSONNumber(_) => NumberType
    case Structured(_) => MapType
    case Unsupported(name) => Other(name)
  }

  /** What Go's libraries answer: the exact integer and the float64 of a number's spelling, the float64 of an integer,
      and the compilation of a regular expression. */
  datatype Platform = Platform(
    decimal: Decimal,
    parse: string -> Option<Float>,
    round: int64 -> real,
    compile: string -> Option<string -> bool>)

  /** The floats are float64 values, and integers become nearest ones. */
  ghost predicate Faithful(p: Platform) {
    && (forall s | p.parse(s).Some? :: IsFloat(p.parse(s).value))
    && (forall i: int64 :: Converted(i, p.round(i)))
  }

  ghost predicate IsValue(v: GoValue) {
    v.Floating? ==> IsFloat(v.f)
  }

  // ----- Readings of boxed values -----

  function ReadBoolean(v: GoValue): Option<bool> {
    if v.Truth? then Some(v.b) else None
  }

  function ReadString(v: GoValue): Option<string> {
    if v.Textual? then Some(v.text) else None
  }

  function IntegralFloat64(f: Float): Option<int64> {
    if !f.Finite? || Truncated(f.x) as real != f.x || f.x < MIN_INT64 as real || f.x >= TWO_63 then None
    else Some(Truncated(f.x))
  }

  function ReadInteger(p: Platform, v: GoValue): Option<int64> {
    match v
    case JSONNumber(spelling) => NumberToInt64(p.decimal, spelling)
    case Signed(_, i) => Some(i)
    case Floating(_, f) => IntegralFloat64(f)
    case _ => None
  }

  function ReadFloat(p: Platform, v: GoValue): Option<Float> {
    match v
    case JSONNumber(spelling) => p.parse(spelling)
    case Floating(_, f) => Some(f)
    case Signed(_, i) => Some(Finite(p.round(i)))
    case _ => None
  }

  // ----- Array views -----

  /** The non-reflective forms, and everything else by reflection: fixed arrays and defined container types. */
  datatype ArrayView =
    | Anys(boxed: seq<GoValue>)
    | Maps(maps: seq<string>)
    | Strings(texts: seq<string>)
    | Bools(truths: seq<bool>)
    | Ints(width: IntType, ints: seq<int64>)
    | Floats(precision: FloatType, floats: seq<Float>)
    | Numbers(spellings: seq<string>)
    | Reflected(element: GoType, values: seq<GoValue>)

  function Len(a: ArrayView): nat {
    match a
    case Anys(s) => |s|
    case Maps(s) => |s|
    case Strings(s) => |s|
    case Bools(s) => |s|
    case Ints(_, s) => |s|
    case Floats(_, s) => |s|
    case Numbers(s) => |s|
    case Reflected(_, s) => |s|
  }

  /** Elements of a reflected container have its element type, unless that is an interface. */
  predicate Typed(a: ArrayView) {
    a.Reflected? && a.element != Interface ==> forall v | v in a.values :: TypeOf(v) == a.element
  }

  /** The static element type reflection sees. */
  function ElementType(a: ArrayView): GoType {
    match a
    case Anys(_) => Interface
    case Maps(_) => MapType
    case Strings(_) => StringType
    case Bools(_) => BoolType
    case Ints(width, _) => IntOf(width)
    case Floats(precision, _) => FloatOf(precision)
    case Numbers(_) => NumberType
    case Reflected(element, _) => element
  }

  function BoxedAt(a: ArrayView, i: nat): (v: GoValue)
    requires i < Len(a)
    ensures Typed(a) && ElementType(a) != Interface ==> TypeOf(v) == ElementType(a)
  {
    match a
    case Anys(s) => s[i]
    case Maps(s) => Structured(s[i])
    case Strings(s) => Textual(s[i])
    case Bools(s) => Truth(s[i])
    case Ints(width, s) => Signed(width, s[i])
    case Floats(precision, s) => Floating(precision, s[i])
    case Numbers(s) => JSONNumber(s[i])
    case Reflected(_, s) => s[i]
  }

  function AsStringAt(a: ArrayView, i: nat): Option<string>
    requires i < Len(a) && Typed(a)
  {
    match a
    case Strings(s) => Some(s[i])
    case Anys(s) => ReadString(s[i])
    case _ => StringAtReflected(a, i)
  }

  function StringAtReflected(a: ArrayView, i: nat): Option<string>
    requires i < Len(a) && Typed(a)
  {
    if ElementType(a) != StringType then None else Some(BoxedAt(a, i).text)
  }

  function AsBooleanAt(a: ArrayView, i: nat): Option<bool>
    requires i < Len(a) && Typed(a)
  {
    match a
    case Bools(s) => Some(s[i])
    case Anys(s) => ReadBoolean(s[i])
    case _ => BoolAtReflected(a, i)
  }

  function BoolAtReflected(a: ArrayView, i: nat): Option<bool>
    requires i < Len(a) && Typed(a)
  {
    if ElementType(a) != BoolType then None else Some(BoxedAt(a, i).b)
  }

  function AsIntegerAt(p: Platform, a: ArrayView, i: nat): Option<int64>
    requires i < Len(a) && Typed(a)
  {
    match a
    case Anys(s) => ReadInteger(p, s[i])
    case Ints(_, s) => Some(s[i])
    case Floats(_, s) => IntegralFloat64(s[i])
    case Numbers(s) => NumberToInt64(p.decimal, s[i])
    case _ => SignedIntegerAtReflected(p, a, i)
  }

  function SignedIntegerAtReflected(p: Platform, a: ArrayView, i: nat): Option<int64>
    requires i < Len(a) && Typed(a)
  {
    match ElementType(a)
    case NumberType => NumberToInt64(p.decimal, BoxedAt(a, i).spelling)
    case IntOf(_) => Some(BoxedAt(a, i).i)
    case FloatOf(_) => IntegralFloat64(BoxedAt(a, i).f)
    case _ => None
  }

  function AsFloatAt(p: Platform, a: ArrayView, i: nat): Option<Float>
    requires i < Len(a) && Typed(a)
  {
    match a
    case Anys(s) => ReadFloat(p, s[i])
    case Ints(_, s) => Some(Finite(p.round(s[i])))
    case Floats(_, s) => Some(s[i])
    case Numbers(s) => p.parse(s[i])
    case _ => Float64AtReflected(p, a, i)
  }

  function Float64AtReflected(p: Platform, a: ArrayView, i: nat): Option<Float>
    requires i < Len(a) && Typed(a)
  {
    match ElementType(a)
    case NumberType => p.parse(BoxedAt(a, i).spelling)
    case IntOf(_) => Some(Finite(p.round(BoxedAt(a, i).i)))
    case FloatOf(_) => Some(BoxedAt(a, i).f)
    case _ => None
  }

  /** Reflection sees an interface where `BoxedAt` sees what it holds. */
  predicate Interfaced(a: ArrayView) {
    a.Reflected? && a.element == Interface
  }

  /** The typed accessors read an element as its boxed value is read; of interfaces seen by reflection they read
      nothing. */
  lemma AccessorsAgree(p: Platform, a: ArrayView, i: nat)
    requires i < Len(a) && Typed(a)
    ensures AsStringAt(a, i) == if Interfaced(a) then None else ReadString(BoxedAt(a, i))
    ensures AsBooleanAt(a, i) == if Interfaced(a) then None else ReadBoolean(BoxedAt(a, i))
    ensures AsIntegerAt(p, a, i) == if Interfaced(a) then None else ReadInteger(p, BoxedAt(a, i))
    ensures AsFloatAt(p, a, i) == if Interfaced(a) then None else ReadFloat(p, BoxedAt(a, i))
  {
    hide NumberToInt64, IntegralFloat64;
    if a.Reflected? {
      assert BoxedAt(a, i) in a.values;
    }
  }
}
