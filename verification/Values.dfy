/** JSON-like event values and the scalar readings the processors share. */
module Values {
  import opened Text

  /** An event value. `Number` keeps a JSON number's spelling; `Int` is a Go signed integer. */
  datatype Value =
    | Null
    | Bool(b: bool)
    | Str(text: string)
    | Number(spelling: string)
    | Int(number: int64)
    | Arr(elems: seq<Value>)
    | Obj(fields: Item)

  type Item = map<string, Value>

  /** Exact integer value of a spelling with a fraction or an exponent, when it has one. */
  type Decimal = string -> Option<int64>

  /** A null attribute counts as absent. */
  function Attribute(item: Item, name: string): Option<Value> {
    if name in item && item[name] != Null then Some(item[name]) else None
  }

  /** What a key holds, telling an explicit null from an absent key. */
  function Slot(item: Item, name: string): Option<Value> {
    if name in item then Some(item[name]) else None
  }

  predicate FloatSyntax(s: string) {
    '.' in s || 'e' in s || 'E' in s
  }

  function NumberToInt64(decimal: Decimal, spelling: string): Option<int64> {
    match ParseInt64(spelling)
    case Some(i) => Some(i)
    case None => if FloatSyntax(spelling) then decimal(spelling) else None
  }

  function AsInteger(decimal: Decimal, v: Value): Option<int64> {
    match v
    case Int(i) => Some(i)
    case Number(spelling) => NumberToInt64(decimal, spelling)
    case _ => None
  }

  function AsString(v: Value): Option<string> {
    if v.Str? then Some(v.text) else None
  }

  predicate IsOther(decimal: Decimal, v: Value) {
    AsInteger(decimal, v) == Some(99)
  }

  /** The stable text of a scalar; null, arrays and objects have none. */
  function FormatScalar(v: Value): Option<string> {
    match v
    case Str(text) => Some(text)
    case Number(spelling) => Some(spelling)
    case Int(i) => Some(FormatInt(i))
    case Bool(b) => Some(if b then "true" else "false")
    case _ => None
  }
}
