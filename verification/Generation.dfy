/** Which observables a walk generates: exactly those the schema calls for in the item the walk leaves, each with the
    path, the type and the text of what it describes. */
module Generation {
  import opened Text
  import opened Values
  import TI = TypeInheritance
  import opened Schema
  import opened Observability
  import opened Walk
  import opened Settling
  import NE = NumericEnum
  import EP = EventPath

  // ----- What the schema calls for -----

  /** The attribute's values are scalars, whatever else its type allows. */
  predicate Primitive(attr: AttrDef) {
    attr.typ != "object_t" || (attr.isArray && ScalarArray(attr))
  }

  /** A key the walk looks at: dispatched alone, or the sibling of an active pair. */
  predicate Visited(c: Ctx, def: ItemDef, key: string) {
    key in def.attributes && (SingleKey(c, def, key) || PairKey(c, def, key))
  }

  /** A scalar of an observable type, none of whose values is ambiguous, with a text. */
  ghost predicate ScalarCalls(c: Ctx, name: string, attr: AttrDef, v: Value, e: Effect)
    requires e.Observe?
  {
    && ObservableType(c, e.path, name, attr) == Some(e.typeID) && !TI.DerivedFrom(c.cat.types, attr.typ, "json_t")
    && e.text.Some? && FormatScalar(v) == e.text && (e.text.value != "" || v.Str?)
  }

  /** An object whose own type, else whose attribute, is observable. */
  predicate ObjectCalls(c: Ctx, name: string, attr: AttrDef, def: ObjectDef, e: Effect)
    requires e.Observe?
  {
    && e.text == None
    && if def.observable.Some? then def.observable == Some(e.typeID) && Allows(c.allowed, e.typeID)
       else ObservableType(c, e.path, name, attr) == Some(e.typeID)
  }

  function Left(at: Elems, e: Effect): nat {
    if e.Observe? && |at| <= |e.path| then |e.path| - |at| else 0
  }

  /** The schema calls for an observation below an item that stands at `path`. */
  ghost predicate Calls(c: Ctx, def: ItemDef, item: Item, path: Elems, e: Effect)
    requires e.Observe?
    decreases Left(path, e), 0
  {
    && path < e.path && e.path[|path|].Attribute?
    && Visited(c, def, e.path[|path|].name) && KeyCalls(c, def, item, path, e.path[|path|].name, e)
  }

  ghost predicate KeyCalls(c: Ctx, def: ItemDef, item: Item, path: Elems, key: string, e: Effect)
    requires e.Observe? && key in def.attributes
    decreases Left(path + [EP.Attribute(key)], e), 3
  {
    && Attribute(item, key).Some?
    && CallsFor(c, key, def.attributes[key], item[key], path + [EP.Attribute(key)], Used(path), e)
  }

  /** The same below an attribute's value at `at`. */
  ghost predicate CallsFor(c: Ctx, name: string, attr: AttrDef, v: Value, at: Elems, used: set<string>, e: Effect)
    requires e.Observe?
    decreases Left(at, e), 2
  {
    if attr.isArray then v.Arr? && ElementCalls(c, name, attr, v.elems, 0, at, used, e)
    else CallsAt(c, name, attr, v, at, used, e)
  }

  /** The same below some element of an array, from index i on. */
  ghost predicate ElementCalls(c: Ctx, name: string, attr: AttrDef, elems: seq<Value>, i: nat, at: Elems,
                               used: set<string>, e: Effect)
    requires e.Observe?
    decreases Left(at, e), 1
  {
    && at < e.path && e.path[|at|].ArrayIndex? && i <= e.path[|at|].index < |elems|
    && CallsAt(c, name, attr, elems[e.path[|at|].index], at + [EP.ArrayIndex(e.path[|at|].index)], used, e)
  }

  /** The same at or below one value. */
  ghost predicate CallsAt(c: Ctx, name: string, attr: AttrDef, v: Value, at: Elems, used: set<string>, e: Effect)
    requires e.Observe?
    decreases Left(at, e), 1
  {
    && c.observables == Add && at <= e.path
    && if Primitive(attr) then e.path == at && attr.enum == None && ScalarCalls(c, name, attr, v, e)
       else
         && Enters(c, v, name, attr, used)
         && var def := c.cat.objects[attr.objectType.value];
           if e.path == at then ObjectCalls(c, name, attr, def, e) else Calls(c, def.item, v.fields, at, e)
  }

  // ----- Effects that observe nothing -----

  predicate Quiet(trace: seq<Effect>) {
    forall e | e in trace :: !e.Observe?
  }

  lemma JudgedQuiet(c: Ctx, hook: Hook, path: Elems, item: Item, v: Value)
    ensures Quiet(Judged(c, hook, path, item, v))
  {
  }

  lemma {:induction false} RemoveArrayQuiet(c: Ctx, item: Item, attr: AttrDef, s: string, elems: seq<Value>,
                                            siblings: seq<Value>, force: bool, i: nat)
    requires i <= |elems| && (force || |elems| == |siblings|)
    ensures Quiet(RemoveArray(c, item, attr, s, elems, siblings, force, i).trace)
    decreases |elems| - i
  {
    hide LookupEnum;
    if i < |elems| {
      RemoveArrayQuiet(c, item, attr, s, elems, siblings, force, i + 1);
    }
  }

  lemma StepQuiet(c: Ctx, item: Item, e: string, attr: AttrDef, s: string)
    ensures Quiet(EnumStep(c, item, e, attr, s).trace)
  {
    if Removing(c) && s in item && attr.isArray && item[s].Arr? && Attribute(item, e).Some? && item[e].Arr?
       && (c.enums == ForceRemove || |item[e].elems| == |item[s].elems|) {
      RemoveArrayQuiet(c, item, attr, s, item[e].elems, item[s].elems, c.enums == ForceRemove, 0);
    }
  }

  lemma RetainQuiet(c: Ctx, item: Item, def: ItemDef, name: string)
    requires name in def.attributes
    ensures Quiet(RetainUnsupported(c, item, def, name).trace)
  {
  }

  lemma WrongTypeQuiet(c: Ctx, item: Item, v: Value, name: string, attr: AttrDef, at: Elems)
    ensures Quiet(ArrayWrongType(c, item, v, name, attr, at))
  {
    JudgedQuiet(c, OnArrayWrongType, at, item, v);
    hide Judged;
  }

  // ----- Scalars and arrays of scalars -----

  lemma ScalarExact(c: Ctx, at: Elems, name: string, attr: AttrDef, v: Value, e: Effect)
    requires e.Observe?
    ensures e in ScalarObservable(c, at, name, attr, v) <==> e.path == at && ScalarCalls(c, name, attr, v, e)
  {
    hide TI.DerivedFrom, ObservableType;
  }

  lemma PrimitiveExact(c: Ctx, item: Item, v: Value, name: string, attr: AttrDef, at: Elems, hook: Hook,
                       used: set<string>, e: Effect)
    requires e.Observe? && Primitive(attr)
    ensures e in PrimitiveStep(c, item, v, name, attr, at, hook) <==> CallsAt(c, name, attr, v, at, used, e)
  {
    ScalarExact(c, at, name, attr, v, e);
    JudgedQuiet(c, hook, at, item, v);
    hide ScalarObservable, Judged, ScalarCalls, Primitive;
  }

  lemma SiblingScalarExact(c: Ctx, at: Elems, name: string, attr: AttrDef, v: Value, used: set<string>, e: Effect)
    requires e.Observe? && c.observables == Add && Primitive(attr) && attr.enum == None
    ensures e in ScalarObservable(c, at, name, attr, v) <==> CallsAt(c, name, attr, v, at, used, e)
  {
    ScalarExact(c, at, name, attr, v, e);
    hide ScalarObservable, ScalarCalls, Primitive;
  }

  /** Calls below an array from index i on: at index i, or after it. */
  lemma ElementStep(c: Ctx, name: string, attr: AttrDef, elems: seq<Value>, i: nat, at: Elems, used: set<string>,
                    e: Effect)
    requires e.Observe? && i < |elems|
    ensures ElementCalls(c, name, attr, elems, i, at, used, e) <==>
      CallsAt(c, name, attr, elems[i], at + [EP.ArrayIndex(i)], used, e)
      || ElementCalls(c, name, attr, elems, i + 1, at, used, e)
  {
    CallsFrom(c, name, attr, elems[i], at + [EP.ArrayIndex(i)], used, e);
    hide CallsAt;
    if at + [EP.ArrayIndex(i)] <= e.path {
      assert e.path[|at|] == EP.ArrayIndex(i);
    }
  }

  lemma CallsFrom(c: Ctx, name: string, attr: AttrDef, v: Value, at: Elems, used: set<string>, e: Effect)
    requires e.Observe?
    ensures CallsAt(c, name, attr, v, at, used, e) ==> at <= e.path && c.observables == Add
  {
  }

  lemma CallsForFrom(c: Ctx, name: string, attr: AttrDef, v: Value, at: Elems, used: set<string>, e: Effect)
    requires e.Observe?
    ensures CallsFor(c, name, attr, v, at, used, e) ==> at <= e.path && c.observables == Add
  {
    if CallsFor(c, name, attr, v, at, used, e) {
      if attr.isArray {
        ElementFrom(c, name, attr, v.elems, at, used, e);
      } else {
        CallsFrom(c, name, attr, v, at, used, e);
      }
    }
    hide CallsAt, ElementCalls;
  }

  lemma ElementFrom(c: Ctx, name: string, attr: AttrDef, elems: seq<Value>, at: Elems, used: set<string>, e: Effect)
    requires e.Observe?
    ensures ElementCalls(c, name, attr, elems, 0, at, used, e) ==> at <= e.path && c.observables == Add
  {
    if ElementCalls(c, name, attr, elems, 0, at, used, e) {
      var i := e.path[|at|].index;
      CallsFrom(c, name, attr, elems[i], at + [EP.ArrayIndex(i)], used, e);
    }
  }

  lemma NoElement(c: Ctx, name: string, attr: AttrDef, elems: seq<Value>, at: Elems, used: set<string>, e: Effect)
    requires e.Observe?
    ensures !ElementCalls(c, name, attr, elems, |elems|, at, used, e)
  {
  }

  lemma {:induction false} SiblingArrayExact(c: Ctx, at: Elems, name: string, attr: AttrDef, elems: seq<Value>,
                                             used: set<string>, i: nat, e: Effect)
    requires e.Observe? && c.observables == Add && Primitive(attr) && attr.enum == None && i <= |elems|
    ensures e in ArrayObservables(c, at, name, attr, elems, i) <==> ElementCalls(c, name, attr, elems, i, at, used, e)
    decreases |elems| - i
  {
    hide ElementCalls, CallsAt, ScalarObservable, Primitive;
    if i == |elems| {
      NoElement(c, name, attr, elems, at, used, e);
    } else {
      SiblingScalarExact(c, at + [EP.ArrayIndex(i)], name, attr, elems[i], used, e);
      SiblingArrayExact(c, at, name, attr, elems, used, i + 1, e);
      ElementStep(c, name, attr, elems, i, at, used, e);
    }
  }

  lemma {:induction false} ScalarElemsExact(c: Ctx, item: Item, elems: seq<Value>, name: string, attr: AttrDef,
                                            at: Elems,
                                            used: set<string>, i: nat, e: Effect)
    requires e.Observe? && Primitive(attr) && i <= |elems|
    ensures e in VisitScalarElems(c, item, elems, name, attr, at, i) <==> ElementCalls(c, name, attr, elems, i, at, used, e)
    decreases |elems| - i
  {
    hide ElementCalls, CallsAt, PrimitiveStep, Judged, Primitive;
    if i == |elems| {
      NoElement(c, name, attr, elems, at, used, e);
    } else {
      var here := at + [EP.ArrayIndex(i)];
      PrimitiveExact(c, item, elems[i], name, attr, here, OnElementPrimitive, used, e);
      JudgedQuiet(c, OnElementEnum, here, item, elems[i]);
      ScalarElemsExact(c, item, elems, name, attr, at, used, i + 1, e);
      ElementStep(c, name, attr, elems, i, at, used, e);
    }
  }

  // ----- The walk -----

  /** What a slot of the walk is called on for: the attribute it dispatches alone, or its pair's sibling. */
  ghost predicate SlotCalls(c: Ctx, def: ItemDef, item: Item, path: Elems, slot: string, e: Effect)
    requires e.Observe? && Known(c, def) && slot in def.attributes
  {
    match DispatchOf(def, c.profiles, slot)
    case Single => KeyCalls(c, def, item, path, slot, e)
    case Pair(s) => s in def.attributes && KeyCalls(c, def, item, path, s, e)
    case _ => false
  }

  /** The walk generates an observable if and only if the schema calls for it in the item the walk leaves. */
  lemma {:induction false} WalkExact(c: Ctx, item: Item, def: ItemDef, path: Elems, e: Effect)
    requires Ready(c) && Known(c, def) && e.Observe?
    ensures e in VisitItem(c, item, def, path).trace <==> Calls(c, def, VisitItem(c, item, def, path).item, path, e)
    decreases Unused(c, path), 5
  {
    hide Ready, Known, Stage, Calls, VisitFrom, SettledItem;
    StageStart(c, item, def, Used(path));
    VisitSettles(c, item, def, path);
    KnownOrder(c, def);
    FromExact(c, item, item, def, def.ordered, {}, path, e);
    SlotsCall(c, def, SettledItem(c, item, def, Used(path)), path, e);
  }

  lemma KeyIsNext(c: Ctx, def: ItemDef, item: Item, path: Elems, key: string, e: Effect)
    requires e.Observe? && key in def.attributes && KeyCalls(c, def, item, path, key, e)
    ensures path < e.path && e.path[|path|] == EP.Attribute(key) && c.observables == Add
  {
    var at := path + [EP.Attribute(key)];
    CallsForFrom(c, key, def.attributes[key], item[key], at, Used(path), e);
    assert e.path[|path|] == at[|path|];
  }

  /** The slots together are called on for exactly what the item is called on for: each visited key has its slot. */
  lemma SlotsCall(c: Ctx, def: ItemDef, item: Item, path: Elems, e: Effect)
    requires e.Observe? && Known(c, def) && forall n :: n in def.ordered <==> n in def.attributes
    ensures (exists n | n in def.ordered :: SlotCalls(c, def, item, path, n, e)) <==> Calls(c, def, item, path, e)
  {
    hide Known, Active, KeyCalls;
    if n :| n in def.ordered && SlotCalls(c, def, item, path, n, e) {
      Ends(c, def, n);
      var key := if DispatchOf(def, c.profiles, n) == Single then n else def.links[n];
      KeyIsNext(c, def, item, path, key, e);
    }
    if Calls(c, def, item, path, e) {
      var key := e.path[|path|].name;
      Ends(c, def, key);
      assert SlotCalls(c, def, item, path, if SingleKey(c, def, key) then key else def.owners[key], e);
    }
  }

  lemma {:induction false} FromExact(c: Ctx, orig: Item, cur: Item, def: ItemDef, names: seq<string>,
                                     done: set<string>, path: Elems, e: Effect)
    requires Ready(c) && Known(c, def) && Stage(c, orig, cur, def, Used(path), done) && e.Observe?
    requires Ascending(names) && forall n | n in names :: n in def.attributes && n !in done
    ensures e in VisitFrom(c, cur, def, names, path).trace <==>
      exists n | n in names :: SlotCalls(c, def, SettledItem(c, orig, def, Used(path)), path, n, e)
    decreases Unused(c, path), 4, |names|
  {
    hide Ready, Known, Stage, VisitOne, SlotCalls, SettledItem;
    if names != [] {
      OneExact(c, orig, cur, def, names[0], done, path, e);
      OneSettles(c, orig, cur, def, names[0], done, path);
      AscendingTail(names);
      HeadAndTail(names);
      hide Ascending;
      FromExact(c, orig, VisitOne(c, cur, def, names[0], path).item, def, names[1..], done + {names[0]}, path, e);
    }
  }

  lemma {:induction false} OneExact(c: Ctx, orig: Item, cur: Item, def: ItemDef, name: string, done: set<string>,
                                    path: Elems, e: Effect)
    requires Ready(c) && Known(c, def) && Stage(c, orig, cur, def, Used(path), done) && e.Observe?
    requires name in def.attributes && name !in done
    ensures e in VisitOne(c, cur, def, name, path).trace <==>
      SlotCalls(c, def, SettledItem(c, orig, def, Used(path)), path, name, e)
    decreases Unused(c, path), 3
  {
    hide Ready, Known, Stage, KeyCalls, SettledItem, Judged, VisitPair, VisitPresent, RetainUnsupported, DispatchOf;
    var at := path + [EP.Attribute(name)];
    match DispatchOf(def, c.profiles, name)
    case Inactive =>
      if Attribute(cur, name).Some? {
        JudgedQuiet(c, OnInactive, at, cur, cur[name]);
      }
    case Owned =>
    case Pair(s) =>
      PairExact(c, orig, cur, def, name, s, done, path, e);
    case Single =>
      StageAttribute(c, orig, cur, def, Used(path), done, name);
      if Attribute(orig, name).Some? {
        SingleExact(c, orig, cur, def, name, path, e);
      } else {
        JudgedQuiet(c, OnMissing, at, cur, Null);
        AbsentCalls(c, orig, def, name, path, e);
      }
  }

  lemma AbsentCalls(c: Ctx, orig: Item, def: ItemDef, name: string, path: Elems, e: Effect)
    requires Ready(c) && Known(c, def) && e.Observe?
    requires name in def.attributes && DispatchOf(def, c.profiles, name) == Single && Attribute(orig, name) == None
    ensures !KeyCalls(c, def, SettledItem(c, orig, def, Used(path)), path, name, e)
  {
    hide Ready, Known, SettledItem, CallsFor, Active;
    SettledSingle(c, orig, def, Used(path), name);
  }

  lemma {:induction false} SingleExact(c: Ctx, orig: Item, cur: Item, def: ItemDef, name: string, path: Elems,
                                       e: Effect)
    requires Ready(c) && Known(c, def) && e.Observe?
    requires name in def.attributes && DispatchOf(def, c.profiles, name) == Single
    requires Attribute(cur, name) == Attribute(orig, name) && Attribute(orig, name).Some?
    ensures e in VisitOne(c, cur, def, name, path).trace <==>
      KeyCalls(c, def, SettledItem(c, orig, def, Used(path)), path, name, e)
    decreases Unused(c, path), 2, 1
  {
    hide Ready, Known, Stage, CallsFor, SettledItem, Judged, VisitPresent, RetainUnsupported, SettledValue, DispatchOf;
    var attr, v, at := def.attributes[name], orig[name], path + [EP.Attribute(name)];
    var kept := RetainUnsupported(c, cur, def, name);
    KnownName(c, def, name);
    PresentSettles(c, kept.item, v, name, attr, path);
    PresentExact(c, kept.item, v, name, attr, path, e);
    SettledSingle(c, orig, def, Used(path), name);
    JudgedQuiet(c, OnPresent, at, kept.item, v);
    RetainQuiet(c, cur, def, name);
  }

  lemma {:induction false} PresentExact(c: Ctx, item: Item, v: Value, name: string, attr: AttrDef, path: Elems,
                                        e: Effect)
    requires Ready(c) && name in Names(c) && e.Observe?
    ensures e in VisitPresent(c, item, v, name, attr, path).trace <==>
      CallsFor(c, name, attr, VisitPresent(c, item, v, name, attr, path).value, path + [EP.Attribute(name)], Used(path), e)
    decreases Unused(c, path), 2, 0
  {
    hide Ready, Names, VisitValue, VisitScalarElems, ArrayWrongType, ElementCalls, CallsAt, ScalarArray;
    var at := path + [EP.Attribute(name)];
    if !attr.isArray {
      ValueExact(c, item, v, name, attr, path, [], e);
      assert at + [] == at;
    } else if !v.Arr? {
      WrongTypeQuiet(c, item, v, name, attr, at);
    } else if ScalarArray(attr) {
      ScalarElemsExact(c, item, v.elems, name, attr, at, Used(path), 0, e);
    } else {
      ElemsExact(c, item, v.elems, name, attr, path, 0, VisitElems(c, item, v.elems, name, attr, path, 0).elems, e);
    }
  }

  lemma {:induction false} ElemsExact(c: Ctx, item: Item, elems: seq<Value>, name: string, attr: AttrDef, path: Elems,
                                      i: nat, final: seq<Value>, e: Effect)
    requires Ready(c) && name in Names(c) && !(attr.isArray && ScalarArray(attr)) && i <= |elems| == |final| && e.Observe?
    requires VisitElems(c, item, elems, name, attr, path, i).elems == final[i..]
    ensures e in VisitElems(c, item, elems, name, attr, path, i).trace <==>
      ElementCalls(c, name, attr, final, i, path + [EP.Attribute(name)], Used(path), e)
    decreases Unused(c, path), 1, |elems| - i
  {
    hide Ready, Names, VisitValue, ElementCalls, CallsAt, ScalarArray;
    var at := path + [EP.Attribute(name)];
    if i == |elems| {
      NoElement(c, name, attr, final, at, Used(path), e);
    } else {
      ValueExact(c, item, elems[i], name, attr, path, [EP.ArrayIndex(i)], e);
      assert final[i] == final[i..][0] && final[i..][1..] == final[i + 1..];
      ElemsExact(c, item, elems, name, attr, path, i + 1, final, e);
      ElementStep(c, name, attr, final, i, at, Used(path), e);
    }
  }

  lemma {:induction false} ValueExact(c: Ctx, item: Item, v: Value, name: string, attr: AttrDef, path: Elems,
                                      index: Elems, e: Effect)
    requires Ready(c) && name in Names(c) && !(attr.isArray && ScalarArray(attr)) && e.Observe?
    requires |index| <= 1 && forall i | 0 <= i < |index| :: index[i].ArrayIndex?
    ensures e in VisitValue(c, item, v, name, attr, path, index).trace <==>
      CallsAt(c, name, attr, VisitValue(c, item, v, name, attr, path, index).value,
              path + [EP.Attribute(name)] + index, Used(path), e)
    decreases Unused(c, path), 0
  {
    if Enters(c, v, name, attr, Used(path)) {
      EnteredExact(c, item, v, name, attr, path, index, e);
    } else {
      UnenteredExact(c, item, v, name, attr, path, index, e);
    }
  }

  lemma UnenteredExact(c: Ctx, item: Item, v: Value, name: string, attr: AttrDef, path: Elems, index: Elems, e: Effect)
    requires Ready(c) && name in Names(c) && !(attr.isArray && ScalarArray(attr)) && e.Observe?
    requires !Enters(c, v, name, attr, Used(path))
    requires |index| <= 1 && forall i | 0 <= i < |index| :: index[i].ArrayIndex?
    ensures e in VisitValue(c, item, v, name, attr, path, index).trace <==>
      CallsAt(c, name, attr, VisitValue(c, item, v, name, attr, path, index).value,
              path + [EP.Attribute(name)] + index, Used(path), e)
  {
    hide Ready, Names, Judged, MayGenerateAt, Used, EP.PriorAttribute, VisitItem, PrimitiveStep, ScalarCalls, ScalarArray;
    var at := path + [EP.Attribute(name)] + index;
    UsedAt(path, name, index);
    JudgedQuiet(c, OnEnum, at, item, v);
    JudgedQuiet(c, OnObjectWrongType, at, item, v);
    JudgedQuiet(c, OnSchemaMissing, at, item, v);
    if attr.typ != "object_t" {
      PrimitiveExact(c, item, v, name, attr, at, OnPrimitive, Used(path), e);
    }
  }

  lemma ObjectExact(c: Ctx, at: Elems, name: string, attr: AttrDef, def: ObjectDef, e: Effect)
    requires e.Observe?
    ensures e in ObjectObservable(c, at, name, attr, def) <==> e.path == at && ObjectCalls(c, name, attr, def, e)
  {
    hide ObservableType;
  }

  lemma CallsBelow(c: Ctx, def: ItemDef, item: Item, path: Elems, e: Effect)
    requires e.Observe?
    ensures Calls(c, def, item, path, e) ==> c.observables == Add && path < e.path
  {
    if Calls(c, def, item, path, e) {
      KeyIsNext(c, def, item, path, e.path[|path|].name, e);
    }
  }

  lemma {:induction false} EnteredExact(c: Ctx, item: Item, v: Value, name: string, attr: AttrDef, path: Elems,
                                        index: Elems, e: Effect)
    requires Ready(c) && name in Names(c) && !(attr.isArray && ScalarArray(attr)) && e.Observe?
    requires Enters(c, v, name, attr, Used(path))
    requires |index| <= 1 && forall i | 0 <= i < |index| :: index[i].ArrayIndex?
    ensures e in VisitValue(c, item, v, name, attr, path, index).trace <==>
      CallsAt(c, name, attr, VisitValue(c, item, v, name, attr, path, index).value,
              path + [EP.Attribute(name)] + index, Used(path), e)
    decreases Unused(c, path), 0, 0
  {
    var at := path + [EP.Attribute(name)] + index;
    UsedAt(path, name, index);
    UnusedShrinks(c, path, name, index);
    ObjectKnown(c, attr.objectType.value);
    var def := c.cat.objects[attr.objectType.value];
    var inner := VisitItem(c, v.fields, def.item, at);
    WalkExact(c, v.fields, def.item, at, e);
    CallsBelow(c, def.item, inner.item, at, e);
    hide Ready, Names, Judged, Used, EP.PriorAttribute, VisitItem, ObjectObservable, Calls, ObjectCalls, ScalarArray;
    JudgedQuiet(c, OnEnum, at, item, v);
    JudgedQuiet(c, OnObject, at, v.fields, v);
    JudgedQuiet(c, OnObjectDone, at, inner.item, Null);
    ObjectExact(c, at, name, attr, def, e);
  }

  // ----- Pairs -----

  lemma SiblingExact(c: Ctx, at: Elems, name: string, attr: AttrDef, v: Value, used: set<string>, e: Effect)
    requires e.Observe? && c.observables == Add && Primitive(attr) && attr.enum == None
    ensures e in SiblingObservables(c, at, name, attr, v) <==> CallsFor(c, name, attr, v, at, used, e)
  {
    hide ScalarObservable, ArrayObservables, CallsAt, ElementCalls, Primitive;
    if !attr.isArray {
      SiblingScalarExact(c, at, name, attr, v, used, e);
    } else if v.Arr? {
      SiblingArrayExact(c, at, name, attr, v.elems, used, 0, e);
    }
  }

  lemma SiblingPlain(c: Ctx, def: ItemDef, e: string, s: string)
    requires Known(c, def) && e in def.attributes && DispatchOf(def, c.profiles, e) == Pair(s)
    ensures s in def.attributes && Primitive(def.attributes[s]) && def.attributes[s].enum == None
  {
    LinkEnds(def.attributes, e);
    hide NE.Compiled, ScalarArray;
  }

  lemma ObservingOnly(c: Ctx, name: string, attr: AttrDef, v: Value, at: Elems, used: set<string>, e: Effect)
    requires e.Observe? && c.observables != Add
    ensures !CallsFor(c, name, attr, v, at, used, e)
  {
    CallsForFrom(c, name, attr, v, at, used, e);
    hide CallsFor;
  }

  /** A pair observes its sibling as the pair leaves it, which no later step touches. */
  lemma PairExact(c: Ctx, orig: Item, cur: Item, def: ItemDef, e: string, s: string, done: set<string>, path: Elems,
                  x: Effect)
    requires Ready(c) && Known(c, def) && Stage(c, orig, cur, def, Used(path), done) && x.Observe?
    requires e in def.attributes && e !in done && DispatchOf(def, c.profiles, e) == Pair(s)
    ensures s in def.attributes
    ensures x in VisitPair(c, cur, def, e, s, path).trace <==>
      KeyCalls(c, def, SettledItem(c, orig, def, Used(path)), path, s, x)
  {
    hide Ready, Known, Stage, KeyCalls, SettledItem, Judged, EnumStep, Active, SiblingObservables, DispatchOf, Primitive;
    SiblingPlain(c, def, e, s);
    var step := EnumStep(c, cur, e, def.attributes[e], s);
    PairFinal(c, orig, cur, def, e, s, done, path);
    StepQuiet(c, cur, e, def.attributes[e], s);
    JudgedQuiet(c, OnPair(s), path + [EP.Attribute(e)], step.item, Null);
    KeyExact(c, def, step.item, SettledItem(c, orig, def, Used(path)), s, path, x);
  }

  lemma KeyExact(c: Ctx, def: ItemDef, stepped: Item, final: Item, s: string, path: Elems, x: Effect)
    requires x.Observe? && s in def.attributes && Primitive(def.attributes[s]) && def.attributes[s].enum == None
    requires Slot(final, s) == Slot(stepped, s)
    ensures KeyCalls(c, def, final, path, s, x) <==>
      c.observables == Add && Attribute(stepped, s).Some?
      && x in SiblingObservables(c, path + [EP.Attribute(s)], s, def.attributes[s], stepped[s])
  {
    hide CallsFor, SiblingObservables, Primitive;
    if Attribute(stepped, s).Some? {
      var v, at := stepped[s], path + [EP.Attribute(s)];
      if c.observables == Add {
        SiblingExact(c, at, s, def.attributes[s], v, Used(path), x);
      } else {
        ObservingOnly(c, s, def.attributes[s], v, at, Used(path), x);
      }
    }
  }

  lemma PairFinal(c: Ctx, orig: Item, cur: Item, def: ItemDef, e: string, s: string, done: set<string>, path: Elems)
    requires Ready(c) && Known(c, def) && Stage(c, orig, cur, def, Used(path), done)
    requires e in def.attributes && e !in done && DispatchOf(def, c.profiles, e) == Pair(s)
    ensures Slot(SettledItem(c, orig, def, Used(path)), s) == Slot(EnumStep(c, cur, e, def.attributes[e], s).item, s)
  {
    var next := EnumStep(c, cur, e, def.attributes[e], s).item;
    StageAfterPair(c, orig, cur, def, Used(path), done, e, s);
    assert Slot(next, s) == StageSlot(c, orig, def, Used(path), done + {e}, s);
    Ends(c, def, e);
    Ends(c, def, s);
    SettledPair(c, orig, def, Used(path), s);
    hide Ready, Known, Stage, SettledItem, EnumStep, PairSlot, Active, SettledValue;
  }

  // ----- What being called for means of a path -----

  /** What stands at a structural path below a value. */
  function ValueAt(v: Value, path: Elems): Option<Value>
    decreases |path|
  {
    if path == [] then Some(v)
    else
      match path[0]
      case Attribute(name) => if v.Obj? && name in v.fields then ValueAt(v.fields[name], path[1..]) else None
      case ArrayIndex(i) => if v.Arr? && i < |v.elems| then ValueAt(v.elems[i], path[1..]) else None
  }

  /** The path leads to an object, or to a scalar spelled `text`. */
  predicate Holds(v: Value, path: Elems, text: Option<string>) {
    var x := ValueAt(v, path);
    x.Some? && if text.Some? then FormatScalar(x.value) == text else x.value.Obj?
  }

  /** The schema admits a path relative to an item; `used` are the names entered above it. */
  predicate Admits(c: Ctx, def: ItemDef, path: Elems, used: set<string>)
    decreases |path|, 0
  {
    && path != [] && path[0].Attribute? && ActiveName(def, c.profiles, path[0].name)
    && Fits(c, path[0].name, def.attributes[path[0].name], path[1..], used)
  }

  /** What may follow an attribute on a path: an index exactly when it is an array, then a path of its object. */
  predicate Fits(c: Ctx, name: string, attr: AttrDef, path: Elems, used: set<string>)
    decreases |path|, 2
  {
    if attr.isArray then path != [] && path[0].ArrayIndex? && (path[1..] == [] || Below(c, name, attr, path[1..], used))
    else path == [] || Below(c, name, attr, path, used)
  }

  predicate Below(c: Ctx, name: string, attr: AttrDef, path: Elems, used: set<string>)
    decreases |path|, 1
  {
    Nested(c.cat, attr).Some? && name !in used && Admits(c, c.cat.objects[Nested(c.cat, attr).value].item, path, used + {name})
  }

  /** An observation relative to an item at `path`: the schema admits its path, which leads to what it describes. */
  ghost predicate Sound(c: Ctx, def: ItemDef, item: Item, path: Elems, e: Effect) {
    e.Observe? ==>
      path <= e.path && Admits(c, def, e.path[|path|..], Used(path)) && Holds(Obj(item), e.path[|path|..], e.text)
  }

  lemma TailAfter(path: Elems, x: EP.Elem, longer: Elems)
    requires path + [x] <= longer
    ensures path < longer && longer[|path|] == x
    ensures longer[|path|..] == [x] + longer[|path + [x]|..]
    ensures longer[|path|..][1..] == longer[|path + [x]|..]
  {
    assert longer[|path|] == (path + [x])[|path|];
  }

  /** Whatever is called for is sound. */
  lemma {:induction false} CalledIsSound(c: Ctx, def: ItemDef, item: Item, path: Elems, e: Effect)
    requires e.Observe? && Calls(c, def, item, path, e)
    ensures Sound(c, def, item, path, e)
    decreases Left(path, e), 0
  {
    var key := e.path[|path|].name;
    var at := path + [EP.Attribute(key)];
    KeyIsNext(c, def, item, path, key, e);
    assert at <= e.path;
    TailAfter(path, EP.Attribute(key), e.path);
    CalledFor(c, key, def.attributes[key], item[key], at, Used(path), e, path);
    VisitedActive(c, def, key);
    hide Visited, CallsFor, Active, Fits;
  }

  lemma VisitedActive(c: Ctx, def: ItemDef, key: string)
    requires Visited(c, def, key)
    ensures ActiveName(def, c.profiles, key)
  {
  }

  lemma {:induction false} CalledFor(c: Ctx, name: string, attr: AttrDef, v: Value, at: Elems, used: set<string>,
                                     e: Effect, outer: Elems)
    requires e.Observe? && CallsFor(c, name, attr, v, at, used, e)
    requires at == outer + [EP.Attribute(name)] && used == Used(outer)
    ensures at <= e.path && Fits(c, name, attr, e.path[|at|..], used) && Holds(v, e.path[|at|..], e.text)
    decreases Left(at, e), 2
  {
    if attr.isArray {
      var i := e.path[|at|].index;
      var here := at + [EP.ArrayIndex(i)];
      CallsFrom(c, name, attr, v.elems[i], here, used, e);
      TailAfter(at, EP.ArrayIndex(i), e.path);
      UsedAt(outer, name, [EP.ArrayIndex(i)]);
      CalledAt(c, name, attr, v.elems[i], here, used, e);
      hide CallsFor, CallsAt, Below, Used;
    } else {
      assert at + [] == at;
      UsedAt(outer, name, []);
      CalledAt(c, name, attr, v, at, used, e);
      hide CallsFor, CallsAt, Below, Used;
    }
  }

  lemma {:induction false} CalledAt(c: Ctx, name: string, attr: AttrDef, v: Value, at: Elems, used: set<string>,
                                    e: Effect)
    requires e.Observe? && CallsAt(c, name, attr, v, at, used, e) && Used(at) == used + {name}
    ensures at <= e.path && Holds(v, e.path[|at|..], e.text)
    ensures e.path[|at|..] == [] || Below(c, name, attr, e.path[|at|..], used)
    decreases Left(at, e), 1
  {
    if e.path != at {
      var def := c.cat.objects[attr.objectType.value];
      CalledIsSound(c, def.item, v.fields, at, e);
      hide Calls, ScalarCalls, ObjectCalls, Primitive, Admits;
    } else {
      assert e.path[|at|..] == [];
    }
  }

  /** Whatever the walk observes, it observes soundly. */
  lemma WalkSound(c: Ctx, item: Item, def: ItemDef, path: Elems)
    requires Ready(c) && Known(c, def)
    ensures forall e | e in VisitItem(c, item, def, path).trace :: Sound(c, def, VisitItem(c, item, def, path).item, path, e)
  {
    hide Ready, Known, Calls, Sound, VisitItem;
    forall e | e in VisitItem(c, item, def, path).trace
      ensures Sound(c, def, VisitItem(c, item, def, path).item, path, e)
    {
      if e.Observe? {
        WalkExact(c, item, def, path, e);
        CalledIsSound(c, def, VisitItem(c, item, def, path).item, path, e);
      } else {
        NotObserved(c, def, VisitItem(c, item, def, path).item, path, e);
      }
    }
  }

  lemma NotObserved(c: Ctx, def: ItemDef, item: Item, path: Elems, e: Effect)
    requires !e.Observe?
    ensures Sound(c, def, item, path, e)
  {
  }
}
