/** What the schema-guided walk does to an event, as a function of the event: the new item and, in order,
    everything the walk reports. */
module Walk {
  import opened Text
  import opened Values
  import opened NumericEnum
  import opened TypeInheritance
  import opened Schema
  import opened Observability
  import EP = EventPath

  type Elems = EP.Elems

  datatype Action = NoAction | Add | Remove | ForceRemove

  datatype ClassDef = ClassDef(uid: int64, item: ItemDef, observables: map<string, int64>)

  datatype IssueCode =
    | EventTraversalLimited
    | ObservableNotAddedWrongType | ObservableNotAddedJSONType
    | EnumSiblingNotAdded | EnumSiblingOtherAdded
    | ObservablesNotAddedWrongType | ObservableDuplicateSkipped
    | EnumSiblingNotRemoved
    | ObservableArrayWrongType | ObservableElementWrongType
    | ObservableNameMissing | ObservableNameWrongType | ObservableNameInvalidSyntax | ObservableNameInvalidReference
    | ObservablePathNotFound | ObservablePathNotObject
    | ObservableValueWrongType | ObservableValueNotFound
    | ClassUIDMissing | ClassUIDWrongType | ClassUIDUnknown

  /** A validation code, by its position in the code table. */
  type Code = nat

  datatype Hook =
    | OnClass | OnInactive | OnPair(sibling: string) | OnMissing | OnPresent | OnArrayWrongType
    | OnEnum | OnPrimitive | OnElementEnum | OnElementPrimitive
    | OnObject | OnObjectWrongType | OnSchemaMissing | OnObjectDone | OnClassDone | OnEventDone

  /** The findings a read-only validation hook makes: any function of the hook, the path, the item and the value. */
  type Judging = (Hook, Elems, Item, Value) -> seq<Code>

  /** One event's processing: the compiled schema, the resolved class, the active profiles and the configuration
      that decides what happens to the event. How issues and findings are reported is not part of it. */
  datatype Ctx = Ctx(
    cat: Catalog,
    cls: ClassDef,
    profiles: set<string>,
    enums: Action,
    observables: Action,
    style: EP.Style,
    allowed: TypeSelector,
    validating: bool,
    decimal: Decimal,
    judge: Judging)

  datatype Effect =
    | Observe(path: Elems, typeID: int64, text: Option<string>)
    | Raise(issue: IssueCode)
    | ReachLimit
    | Find(code: Code)
    | SiblingAdded | SiblingRemoved | SiblingRetained
    | ObservablesAdded(count: nat) | ObservablesRemoved(count: nat) | ObservablesRetained(count: nat)

  datatype Outcome = Outcome(item: Item, trace: seq<Effect>)
  datatype ValueOutcome = ValueOutcome(value: Value, trace: seq<Effect>)
  datatype ElemsOutcome = ElemsOutcome(elems: seq<Value>, trace: seq<Effect>)

  /** An item as schema initialization leaves it. */
  ghost predicate Initialized(types: Types, def: ItemDef) {
    Cached(def) && forall n | n in def.attributes :: def.attributes[n].primitive == PrimitiveOf(types, def.attributes[n].typ)
  }

  /** Every item of the schema has its traversal cache. */
  ghost predicate Ready(c: Ctx) {
    && Initialized(c.cat.types, c.cls.item)
    && forall o | o in c.cat.objects :: Initialized(c.cat.types, c.cat.objects[o].item)
  }

  /** What building the cache of an accepted item establishes is what the walk needs of it. */
  lemma CacheInitializes(types: Types, raw: map<string, AttrDef>, def: ItemDef)
    requires PrimitivesResolved(types, raw, def.attributes) && Cached(def)
    ensures Initialized(types, def)
  {
    hide Cached, PrimitiveOf;
  }

  /** Every attribute name of the schema: what bounds the recursion. */
  ghost function Names(c: Ctx): set<string> {
    c.cls.item.attributes.Keys
    + set o, n | o in c.cat.objects && n in c.cat.objects[o].item.attributes :: n
  }

  /** The attribute names a path has not used yet. */
  ghost function Unused(c: Ctx, path: Elems): set<string> {
    Names(c) - (set n | n in EP.AttributeNames(path))
  }

  ghost predicate Known(c: Ctx, def: ItemDef) {
    Initialized(c.cat.types, def) && def.attributes.Keys <= Names(c)
  }

  /** Linked enums are integral: their direct type is a primitive name, which resolves to itself. */
  lemma LinkedIsIntegral(c: Ctx, def: ItemDef, e: string)
    requires Known(c, def) && e in def.links
    ensures e in def.attributes && Integral(def.attributes[e])
  {
    hide Compiled;
    LinkEnds(def.attributes, e);
    var typ := def.attributes[e].typ;
    TerminalIs(c.cat.types, typ, 0, typ);
  }

  lemma ClassKnown(c: Ctx)
    requires Ready(c)
    ensures Known(c, c.cls.item)
  {
  }

  /** The cached order holds each attribute once. */
  lemma KnownOrder(c: Ctx, def: ItemDef)
    requires Known(c, def)
    ensures Ascending(def.ordered) && forall n :: n in def.ordered <==> n in def.attributes
  {
  }

  lemma KnownName(c: Ctx, def: ItemDef, name: string)
    requires Known(c, def) && name in def.attributes
    ensures name in Names(c)
  {
  }

  /** A pair's sibling is an attribute too. */
  lemma PairKnown(c: Ctx, def: ItemDef, name: string)
    requires Known(c, def) && name in def.attributes && DispatchOf(def, c.profiles, name).Pair?
    ensures DispatchOf(def, c.profiles, name).sibling in def.attributes
  {
    hide PrimitiveOf, Compiled, NeedsIndex;
    LinkEnds(def.attributes, name);
  }

  lemma ObjectKnown(c: Ctx, o: string)
    requires Ready(c) && o in c.cat.objects
    ensures Known(c, c.cat.objects[o].item)
  {
  }

  function Judged(c: Ctx, hook: Hook, path: Elems, item: Item, value: Value): seq<Effect> {
    if c.validating then
      var codes := c.judge(hook, path, item, value);
      seq(|codes|, i requires 0 <= i < |codes| => Find(codes[i]))
    else []
  }

  // ----- Enum lookups -----

  datatype Lookup = Found(def: EnumDef) | Unusable | Missing

  function EnumOf(attr: AttrDef): map<string, EnumDef> {
    if attr.enum.Some? then attr.enum.value else map[]
  }

  function LookupKey(enum: map<string, EnumDef>, key: string): Lookup {
    if key in enum then Found(enum[key]) else Missing
  }

  predicate Integral(attr: AttrDef) {
    attr.primitive == "integer_t" || attr.primitive == "long_t"
  }

  /** The definition of an enum value, by its canonical key. */
  function LookupEnum(c: Ctx, attr: AttrDef, v: Value): Lookup {
    if attr.primitive == "string_t" then
      match AsString(v) case None => Unusable case Some(text) => LookupKey(EnumOf(attr), text)
    else if Integral(attr) then
      match AsInteger(c.decimal, v) case None => Unusable case Some(i) => LookupKey(EnumOf(attr), FormatInt(i))
    else
      match FormatScalar(v) case None => Unusable case Some(text) => LookupKey(EnumOf(attr), text)
  }

  predicate UsableCaption(l: Lookup) {
    l.Found? && l.def.caption != ""
  }

  // ----- Observables -----

  /** The class's own declaration for a path, array indexes left out. */
  function ClassDeclared(c: Ctx, path: Elems): Option<int64> {
    var names := EP.AttributeNames(path);
    if names == [] then None
    else
      var key := Join(names, '.');
      if key in c.cls.observables && Split(key, '.') == names && Allows(c.allowed, c.cls.observables[key])
      then Some(c.cls.observables[key]) else None
  }

  predicate DeclaredAtOrBelow(c: Ctx, path: Elems) {
    exists d | d in c.cls.observables ::
      Allows(c.allowed, c.cls.observables[d]) && EP.AttributeNames(path) <= Split(d, '.')
  }

  /** The selected observable type of an attribute; the schema's own declaration hides the class's. */
  function ObservableType(c: Ctx, path: Elems, name: string, attr: AttrDef): Option<int64> {
    match TypeID(c.cat, name, attr)
    case Some(id) => if Allows(c.allowed, id) then Some(id) else None
    case None => ClassDeclared(c, path)
  }

  ghost predicate MayGenerateAt(c: Ctx, path: Elems, name: string, attr: AttrDef) {
    DeclaredAtOrBelow(c, path) || AttributeMayGenerate(c.cat, c.allowed, name, attr)
  }

  ghost function ScalarObservable(c: Ctx, path: Elems, name: string, attr: AttrDef, v: Value): seq<Effect> {
    match ObservableType(c, path, name, attr)
    case None => []
    case Some(id) =>
      if DerivedFrom(c.cat.types, attr.typ, "json_t") then [Raise(ObservableNotAddedJSONType)]
      else
        var text := FormatScalar(v);
        if text == None || (text.value == "" && !v.Str?) then [Raise(ObservableNotAddedWrongType)]
        else [Observe(path, id, text)]
  }

  ghost function ArrayObservables(c: Ctx, path: Elems, name: string, attr: AttrDef, elems: seq<Value>, i: nat): seq<Effect>
    requires i <= |elems|
    decreases |elems| - i
  {
    if i == |elems| then []
    else ScalarObservable(c, path + [EP.ArrayIndex(i)], name, attr, elems[i])
         + ArrayObservables(c, path, name, attr, elems, i + 1)
  }

  /** The observables of a sibling attribute, after its pair has settled. */
  ghost function SiblingObservables(c: Ctx, path: Elems, name: string, attr: AttrDef, v: Value): seq<Effect> {
    if !attr.isArray then ScalarObservable(c, path, name, attr, v)
    else if v.Arr? then ArrayObservables(c, path, name, attr, v.elems, 0)
    else if ObservableType(c, path, name, attr).Some? then [Raise(ObservableNotAddedWrongType)]
    else []
  }

  ghost function ObjectObservable(c: Ctx, path: Elems, name: string, attr: AttrDef, def: ObjectDef): seq<Effect> {
    if def.observable.Some? then
      if Allows(c.allowed, def.observable.value) then [Observe(path, def.observable.value, None)] else []
    else
      match ObservableType(c, path, name, attr)
      case None => []
      case Some(id) => [Observe(path, id, None)]
  }

  // ----- Enum pairs -----

  ghost function AddScalarSibling(c: Ctx, item: Item, attr: AttrDef, s: string, v: Value): Outcome {
    var l := LookupEnum(c, attr, v);
    if Attribute(item, s).Some? then Outcome(item, [])
    else if !UsableCaption(l) then Outcome(item, [Raise(EnumSiblingNotAdded)])
    else Outcome(item[s := Str(l.def.caption)],
                 [SiblingAdded] + if IsOther(c.decimal, v) then [Raise(EnumSiblingOtherAdded)] else [])
  }

  ghost predicate ArrayOther(c: Ctx, attr: AttrDef, v: Value) {
    !DerivedFrom(c.cat.types, attr.typ, "string_t") && IsOther(c.decimal, v)
  }

  /** Every element has a usable caption. */
  predicate Captioned(c: Ctx, attr: AttrDef, elems: seq<Value>) {
    forall i | 0 <= i < |elems| :: UsableCaption(LookupEnum(c, attr, elems[i]))
  }

  function Captions(c: Ctx, attr: AttrDef, elems: seq<Value>): (captions: seq<Value>)
    requires Captioned(c, attr, elems)
    ensures |captions| == |elems|
  {
    seq(|elems|, i requires 0 <= i < |elems| => Str(LookupEnum(c, attr, elems[i]).def.caption))
  }

  ghost function AddArraySibling(c: Ctx, item: Item, attr: AttrDef, s: string, v: Value): Outcome {
    if Attribute(item, s).Some? || !v.Arr? then Outcome(item, [])
    else if !Captioned(c, attr, v.elems) then Outcome(item, [Raise(EnumSiblingNotAdded)])
    else Outcome(item[s := Arr(Captions(c, attr, v.elems))],
                 [SiblingAdded] +
                 if exists i :: 0 <= i < |v.elems| && ArrayOther(c, attr, v.elems[i])
                 then [Raise(EnumSiblingOtherAdded)] else [])
  }

  function Retain(item: Item): Outcome {
    Outcome(item, [SiblingRetained, Raise(EnumSiblingNotRemoved)])
  }

  function Without(item: Item, s: string): Item {
    map k | k in item && k != s :: item[k]
  }

  function Removed(item: Item, s: string): Outcome {
    Outcome(Without(item, s), [SiblingRemoved])
  }

  /** Whether an element is the source-specific value 99 of an integral enum. */
  predicate ElementOther(c: Ctx, attr: AttrDef, v: Value) {
    Integral(attr) && IsOther(c.decimal, v)
  }

  /** Compares an enum array with its sibling array from index i on. */
  function RemoveArray(c: Ctx, item: Item, attr: AttrDef, s: string, elems: seq<Value>, siblings: seq<Value>,
                       force: bool, i: nat): Outcome
    requires i <= |elems| && (force || |elems| == |siblings|)
    decreases |elems| - i
  {
    if i == |elems| then Removed(item, s)
    else
      var l := LookupEnum(c, attr, elems[i]);
      if l == Unusable then Retain(item)
      else if ElementOther(c, attr, elems[i]) then Outcome(item, [SiblingRetained])
      else if force then RemoveArray(c, item, attr, s, elems, siblings, force, i + 1)
      else if l == Missing || siblings[i] != Str(l.def.caption) then Retain(item)
      else RemoveArray(c, item, attr, s, elems, siblings, force, i + 1)
  }

  function RemovePair(c: Ctx, item: Item, e: string, attr: AttrDef, s: string, force: bool): Outcome {
    if s !in item then Outcome(item, [])
    else if item[s] == Null then Removed(item, s)
    else if attr.isArray then
      if !item[s].Arr? || Attribute(item, e) == None || !item[e].Arr? then Retain(item)
      else if !force && |item[e].elems| != |item[s].elems| then Retain(item)
      else RemoveArray(c, item, attr, s, item[e].elems, item[s].elems, force, 0)
    else if !item[s].Str? || Attribute(item, e) == None then Retain(item)
    else
      var l := LookupEnum(c, attr, item[e]);
      if l == Unusable then Retain(item)
      else if Integral(attr) && IsOther(c.decimal, item[e]) then Outcome(item, [SiblingRetained])
      else if !force && (l == Missing || item[s].text != l.def.caption) then Retain(item)
      else Removed(item, s)
  }

  ghost function EnumStep(c: Ctx, item: Item, e: string, attr: AttrDef, s: string): Outcome {
    match c.enums
    case NoAction => Outcome(item, [])
    case Add =>
      if Attribute(item, e) == None then Outcome(item, [])
      else if attr.isArray then AddArraySibling(c, item, attr, s, item[e])
      else AddScalarSibling(c, item, attr, s, item[e])
    case Remove => RemovePair(c, item, e, attr, s, false)
    case ForceRemove => RemovePair(c, item, e, attr, s, true)
  }

  ghost function VisitPair(c: Ctx, item: Item, def: ItemDef, e: string, s: string, path: Elems): Outcome
    requires e in def.attributes && s in def.attributes
  {
    var step := EnumStep(c, item, e, def.attributes[e], s);
    var observed :=
      if c.observables == Add && Attribute(step.item, s).Some?
      then SiblingObservables(c, path + [EP.Attribute(s)], s, def.attributes[s], step.item[s]) else [];
    Outcome(step.item, step.trace + observed + Judged(c, OnPair(s), path + [EP.Attribute(e)], step.item, Null))
  }

  /** A present enum whose declared sibling is not supported keeps it, unless it is null. */
  function RetainUnsupported(c: Ctx, item: Item, def: ItemDef, name: string): Outcome
    requires name in def.attributes
  {
    var attr := def.attributes[name];
    if !(c.enums == Remove || c.enums == ForceRemove) || attr.enum == None || attr.sibling == None || name in def.links
       || attr.sibling.value !in item then Outcome(item, [])
    else if item[attr.sibling.value] == Null then Removed(item, attr.sibling.value)
    else Outcome(item, [SiblingRetained])
  }

  // ----- The walk -----

  predicate ScalarArray(attr: AttrDef) {
    attr.primitive in {"boolean_t", "float_t", "integer_t", "long_t", "string_t"}
  }

  ghost function PrimitiveStep(c: Ctx, item: Item, v: Value, name: string, attr: AttrDef, path: Elems, hook: Hook): seq<Effect> {
    (if c.observables == Add && attr.enum == None then ScalarObservable(c, path, name, attr, v) else [])
    + Judged(c, hook, path, item, v)
  }

  ghost function VisitScalarElems(c: Ctx, item: Item, elems: seq<Value>, name: string, attr: AttrDef, path: Elems, i: nat): seq<Effect>
    requires i <= |elems|
    decreases |elems| - i
  {
    if i == |elems| then []
    else
      var at := path + [EP.ArrayIndex(i)];
      (if attr.enum.Some? then Judged(c, OnElementEnum, at, item, elems[i]) else [])
      + PrimitiveStep(c, item, elems[i], name, attr, at, OnElementPrimitive)
      + VisitScalarElems(c, item, elems, name, attr, path, i + 1)
  }

  ghost function ArrayWrongType(c: Ctx, item: Item, v: Value, name: string, attr: AttrDef, path: Elems): seq<Effect> {
    (if c.observables == Add
        && (ObservableType(c, path, name, attr).Some?
            || (attr.typ == "object_t" && MayGenerateAt(c, path, name, attr)))
     then [Raise(ObservableNotAddedWrongType)] else [])
    + Judged(c, OnArrayWrongType, path, item, v)
  }

  /** Visits the attributes `names` of an item in order. */
  ghost function VisitFrom(c: Ctx, item: Item, def: ItemDef, names: seq<string>, path: Elems): Outcome
    requires Ready(c) && Known(c, def) && forall n | n in names :: n in def.attributes
    decreases Unused(c, path), 4, |names|
  {
    if names == [] then Outcome(item, [])
    else
      var first := VisitOne(c, item, def, names[0], path);
      var rest := VisitFrom(c, first.item, def, names[1..], path);
      Outcome(rest.item, first.trace + rest.trace)
  }

  ghost function VisitItem(c: Ctx, item: Item, def: ItemDef, path: Elems): Outcome
    requires Ready(c) && Known(c, def)
    decreases Unused(c, path), 5
  {
    VisitFrom(c, item, def, def.ordered, path)
  }

  ghost function VisitOne(c: Ctx, item: Item, def: ItemDef, name: string, path: Elems): Outcome
    requires Ready(c) && Known(c, def) && name in def.attributes
    decreases Unused(c, path), 3
  {
    var at := path + [EP.Attribute(name)];
    match DispatchOf(def, c.profiles, name)
    case Inactive =>
      Outcome(item, if Attribute(item, name).Some? then Judged(c, OnInactive, at, item, item[name]) else [])
    case Owned => Outcome(item, [])
    case Pair(s) =>
      PairKnown(c, def, name);
      VisitPair(c, item, def, name, s, path)
    case Single =>
      match Attribute(item, name)
      case None => Outcome(item, Judged(c, OnMissing, at, item, Null))
      case Some(v) =>
        var kept := RetainUnsupported(c, item, def, name);
        KnownName(c, def, name);
        var visited := VisitPresent(c, kept.item, v, name, def.attributes[name], path);
        Outcome(kept.item[name := visited.value],
                kept.trace + Judged(c, OnPresent, at, kept.item, v) + visited.trace)
  }

  ghost function VisitPresent(c: Ctx, item: Item, v: Value, name: string, attr: AttrDef, path: Elems): ValueOutcome
    requires Ready(c) && name in Names(c)
    decreases Unused(c, path), 2
  {
    var at := path + [EP.Attribute(name)];
    if !attr.isArray then VisitValue(c, item, v, name, attr, path, [])
    else if !v.Arr? then ValueOutcome(v, ArrayWrongType(c, item, v, name, attr, at))
    else if ScalarArray(attr) then ValueOutcome(v, VisitScalarElems(c, item, v.elems, name, attr, at, 0))
    else
      var r := VisitElems(c, item, v.elems, name, attr, path, 0);
      ValueOutcome(Arr(r.elems), r.trace)
  }

  ghost function VisitElems(c: Ctx, item: Item, elems: seq<Value>, name: string, attr: AttrDef, path: Elems, i: nat): (r: ElemsOutcome)
    requires Ready(c) && name in Names(c) && i <= |elems|
    ensures |r.elems| == |elems| - i
    decreases Unused(c, path), 1, |elems| - i
  {
    if i == |elems| then ElemsOutcome([], [])
    else
      var first := VisitValue(c, item, elems[i], name, attr, path, [EP.ArrayIndex(i)]);
      var rest := VisitElems(c, item, elems, name, attr, path, i + 1);
      ElemsOutcome([first.value] + rest.elems, first.trace + rest.trace)
  }

  /** One value of an attribute; `index` is empty or the array index it stands at. */
  ghost function VisitValue(c: Ctx, item: Item, v: Value, name: string, attr: AttrDef, path: Elems, index: Elems): ValueOutcome
    requires Ready(c) && name in Names(c)
    requires |index| <= 1 && forall i | 0 <= i < |index| :: index[i].ArrayIndex?
    decreases Unused(c, path), 0
  {
    var at := path + [EP.Attribute(name)] + index;
    var enumFindings := if attr.enum.Some? then Judged(c, OnEnum, at, item, v) else [];
    if attr.typ != "object_t" then
      ValueOutcome(v, enumFindings + PrimitiveStep(c, item, v, name, attr, at, OnPrimitive))
    else if !v.Obj? then
      ValueOutcome(v, enumFindings
        + (if c.observables == Add && MayGenerateAt(c, at, name, attr) then [Raise(ObservableNotAddedWrongType)] else [])
        + Judged(c, OnObjectWrongType, at, item, v))
    else if attr.objectType == None then ValueOutcome(v, enumFindings)
    else if attr.objectType.value !in c.cat.objects then
      ValueOutcome(v, enumFindings + Judged(c, OnSchemaMissing, at, item, v))
    else if EP.PriorAttribute(at, name) then ValueOutcome(v, enumFindings + [ReachLimit])
    else
      var objectDef := c.cat.objects[attr.objectType.value];
      UnusedShrinks(c, path, name, index);
      ObjectKnown(c, attr.objectType.value);
      var inner := VisitItem(c, v.fields, objectDef.item, at);
      ValueOutcome(Obj(inner.item),
        enumFindings
        + (if c.observables == Add then ObjectObservable(c, at, name, attr, objectDef) else [])
        + Judged(c, OnObject, at, v.fields, v)
        + inner.trace
        + Judged(c, OnObjectDone, at, inner.item, Null))
  }

  lemma NamesAt(path: Elems, name: string, index: Elems)
    requires |index| <= 1 && forall i | 0 <= i < |index| :: index[i].ArrayIndex?
    ensures EP.AttributeNames(path + [EP.Attribute(name)] + index) == EP.AttributeNames(path) + [name]
    ensures EP.PriorAttribute(path + [EP.Attribute(name)] + index, name) <==> name in EP.AttributeNames(path)
  {
    var at := path + [EP.Attribute(name)];
    EP.AttributeNamesAppend(path, [EP.Attribute(name)]);
    assert [EP.Attribute(name)][..0] == [];
    assert EP.AttributeNames([EP.Attribute(name)]) == [name];
    EP.AttributeNamesAppend(at, index);
    EP.NoNames(index);
    var names := EP.AttributeNames(path) + [name];
    assert names[..|names| - 1] == EP.AttributeNames(path);
  }

  /** Entering an object takes its attribute's name out of the unused ones: the recursion's measure. */
  lemma UnusedShrinks(c: Ctx, path: Elems, name: string, index: Elems)
    requires name in Names(c)
    requires |index| <= 1 && forall i | 0 <= i < |index| :: index[i].ArrayIndex?
    requires !EP.PriorAttribute(path + [EP.Attribute(name)] + index, name)
    ensures Unused(c, path + [EP.Attribute(name)] + index) < Unused(c, path)
  {
    NamesAt(path, name, index);
    assert name in Unused(c, path);
    assert name !in Unused(c, path + [EP.Attribute(name)] + index);
  }
}
