/** What an observable name selects in an event value: the declarative meaning of resolving a path. */
module Resolution {
  import opened Text
  import opened Values
  import opened ObservablePath

  datatype Resolution = Resolution(found: bool, matched: bool, missing: bool)

  type Matcher = Value -> bool

  /** The non-array values inside nested arrays; a value that is no array is its own leaf. */
  function Leaves(v: Value): set<Value> {
    if v.Arr? then set i, x | 0 <= i < |v.elems| && x in Leaves(v.elems[i]) :: x else {v}
  }

  /** An empty array stands somewhere inside nested arrays. */
  predicate HoldsEmptyArray(v: Value) {
    v.Arr? && (v.elems == [] || exists i :: 0 <= i < |v.elems| && HoldsEmptyArray(v.elems[i]))
  }

  /** What one selector offers from a value: one element, or all of them. */
  function Offered(v: Value, selector: Selector): seq<Value> {
    if !v.Arr? then []
    else if selector.At? then (if selector.index < |v.elems| then [v.elems[selector.index]] else [])
    else v.elems
  }

  /** The values array selectors pick, one selector at a time. */
  function Picked(v: Value, selectors: seq<Selector>): set<Value>
    decreases |selectors|
  {
    if selectors == [] then {v}
    else set m, x | m in Offered(v, selectors[0]) && x in Picked(m, selectors[1..]) :: x
  }

  /** An empty or out-of-range array stops a selector; a value that is no array just offers nothing. */
  predicate PickMissing(v: Value, selectors: seq<Selector>)
    decreases |selectors|
  {
    selectors != [] &&
    ((v.Arr? && Offered(v, selectors[0]) == [])
     || exists m | m in Offered(v, selectors[0]) :: PickMissing(m, selectors[1..]))
  }

  /** The values one segment leads to from a leaf. */
  function Entered(leaf: Value, segment: Segment): set<Value> {
    if leaf.Obj? && segment.attribute in leaf.fields then Picked(leaf.fields[segment.attribute], segment.selectors) else {}
  }

  function Stepped(v: Value, segment: Segment): set<Value> {
    set leaf, w | leaf in Leaves(v) && w in Entered(leaf, segment) :: w
  }

  predicate LeafMissing(leaf: Value, segment: Segment) {
    || leaf == Null
    || (leaf.Obj? && (segment.attribute !in leaf.fields || PickMissing(leaf.fields[segment.attribute], segment.selectors)))
  }

  predicate StepMissing(v: Value, segment: Segment) {
    HoldsEmptyArray(v) || exists leaf | leaf in Leaves(v) :: LeafMissing(leaf, segment)
  }

  function Selected(v: Value, segments: seq<Segment>): set<Value>
    decreases |segments|
  {
    if segments == [] then Leaves(v)
    else set w, x | w in Stepped(v, segments[0]) && x in Selected(w, segments[1..]) :: x
  }

  predicate SelectionMissing(v: Value, segments: seq<Segment>)
    decreases |segments|
  {
    segments != [] &&
    (StepMissing(v, segments[0]) || exists w | w in Stepped(v, segments[0]) :: SelectionMissing(w, segments[1..]))
  }

  function Resolve(event: Item, segments: seq<Segment>, matches: Matcher): Resolution {
    var selected := Selected(Obj(event), segments);
    Resolution(selected != {}, exists x | x in selected :: matches(x), SelectionMissing(Obj(event), segments))
  }

  predicate IsObject(v: Value) {
    v.Obj?
  }

  predicate IsNull(v: Value) {
    v == Null
  }

  function ScalarMatches(expected: string): Matcher {
    v => FormatScalar(v) == Some(expected)
  }
}
