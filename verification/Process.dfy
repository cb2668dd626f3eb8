/** Processing an event: the recursive walk with its callbacks, step by step over the mutable context, against the walk
    and the run as functions of the event. */
module Process {
  import opened Text
  import opened Values
  import opened NumericEnum
  import opened Schema
  import opened Walk
  import opened Run
  import opened Reporting
  import opened Context
  import opened Dispatch
  import EP = EventPath

  lemma KnownLinks(c: Ctx, def: ItemDef, name: string)
    requires Known(c, def)
    ensures forall n | n in def.ordered :: n in def.attributes
    ensures name in def.links ==> Linked(c, def, name, def.links[name])
  {
    PairEnds(def, name);
    if name in def.links {
      LinkEnds(def.attributes, name);
    }
    hide Compiled;
  }

  // ----- Items -----

  method VisitItem(ctx: ProcessContext, item: Item, def: ItemDef) returns (r: Item)
    requires ctx.Valid() && Ready(ctx.c) && Known(ctx.c, def)
    modifies ctx.Repr()
    ensures ctx.Valid() && ctx.At() == old(ctx.At())
    ensures r == Walk.VisitItem(ctx.c, item, def, old(ctx.At())).item
    ensures ctx.State() == ctx.After(old(ctx.State()), Walk.VisitItem(ctx.c, item, def, old(ctx.At())).trace)
    decreases Unused(ctx.c, ctx.At()), 5
  {
    hide ProcessContext.After, Ready, Known, VisitOne, Unused;
    ghost var before, at, c := ctx.State(), ctx.At(), ctx.c;
    ghost var whole := VisitFrom(c, item, def, def.ordered, at) by { KnownLinks(c, def, ""); }
    KnownLinks(c, def, "");
    r := item;
    assert def.ordered[0..] == def.ordered;
    for i := 0 to |def.ordered|
      invariant ctx.Valid() && ctx.At() == at
      invariant whole.item == VisitFrom(c, r, def, def.ordered[i..], at).item
      invariant ctx.After(before, whole.trace) == ctx.After(ctx.State(), VisitFrom(c, r, def, def.ordered[i..], at).trace)
    {
      var name := def.ordered[i];
      assert name in def.ordered && def.ordered[i..][0] == name && def.ordered[i..][1..] == def.ordered[i + 1..];
      ghost var one := VisitOne(c, r, def, name, at);
      Onward(ctx, ctx.State(), one.trace, VisitFrom(c, one.item, def, def.ordered[i + 1..], at).trace);
      r := VisitOrdered(ctx, r, def, name);
    }
    assert def.ordered[|def.ordered|..] == [];
    Onward(ctx, ctx.State(), [], []);
  }

  /** One ordered attribute. */
  method VisitOrdered(ctx: ProcessContext, item: Item, def: ItemDef, name: string) returns (r: Item)
    requires ctx.Valid() && Ready(ctx.c) && Known(ctx.c, def) && name in def.attributes
    modifies ctx.Repr()
    ensures ctx.Valid() && ctx.At() == old(ctx.At())
    ensures r == VisitOne(ctx.c, item, def, name, old(ctx.At())).item
    ensures ctx.State() == ctx.After(old(ctx.State()), VisitOne(ctx.c, item, def, name, old(ctx.At())).trace)
    decreases Unused(ctx.c, ctx.At()), 4
  {
    hide ProcessContext.After, Ready, Known, Unused, VisitPresent, VisitPair, RetainUnsupported, Judged, Active;
    ghost var at := ctx.At();
    Onward(ctx, ctx.State(), [], []);
    r := item;
    if !Active(def.attributes[name], ctx.c.profiles) {
      if Attribute(item, name).Some? {
        ctx.PushAttribute(name);
        ctx.Judge(OnInactive, item, item[name]);
        ctx.Pop(at, EP.Attribute(name));
      }
      return;
    }
    if name in def.owners && ActiveName(def, ctx.c.profiles, def.owners[name]) {
      return;
    }
    if name in def.links && ActiveName(def, ctx.c.profiles, def.links[name]) {
      r := VisitEnumSiblingPairAttributes(ctx, item, def, name);
      return;
    }
    assert DispatchOf(def, ctx.c.profiles, name) == Single;
    if Attribute(item, name) == None {
      ctx.PushAttribute(name);
      ctx.Judge(OnMissing, item, Null);
      ctx.Pop(at, EP.Attribute(name));
      return;
    }
    r := VisitPresentAttribute(ctx, item, def, name);
  }

  method VisitEnumSiblingPairAttributes(ctx: ProcessContext, item: Item, def: ItemDef, e: string) returns (r: Item)
    requires ctx.Valid() && Known(ctx.c, def) && e in def.links
    modifies ctx.Repr()
    ensures ctx.Valid() && ctx.At() == old(ctx.At())
    ensures Linked(ctx.c, def, e, def.links[e]) && r == VisitPair(ctx.c, item, def, e, def.links[e], old(ctx.At())).item
    ensures ctx.State() == ctx.After(old(ctx.State()), VisitPair(ctx.c, item, def, e, def.links[e], old(ctx.At())).trace)
  {
    hide ProcessContext.After, Known, EnumStep, SiblingObservables, Judged;
    KnownLinks(ctx.c, def, e);
    ghost var before, at := ctx.State(), ctx.At();
    var s := def.links[e];
    r := DispatchPair(ctx, item, def, e, s);
    ghost var done := EnumStep(ctx.c, item, e, def.attributes[e], s).trace + PairObserved(ctx.c, r, def, s, at);
    Onward(ctx, before, done, Judged(ctx.c, OnPair(s), at + [EP.Attribute(e)], r, Null));
    ctx.PushAttribute(e);
    ctx.Judge(OnPair(s), r, Null);
    ctx.Pop(at, EP.Attribute(e));
  }

  /** What a present single attribute reports: the retained sibling, its judgement, then its value. */
  lemma PresentTrace(ctx: ProcessContext, s: Report, kept: seq<Effect>, judged: seq<Effect>, visited: seq<Effect>)
    ensures ctx.After(ctx.After(ctx.After(s, kept), judged), visited) == ctx.After(s, kept + judged + visited)
  {
    Onward(ctx, s, kept, judged);
    Onward(ctx, s, kept + judged, visited);
  }

  method VisitPresentAttribute(ctx: ProcessContext, item: Item, def: ItemDef, name: string) returns (r: Item)
    requires ctx.Valid() && Ready(ctx.c) && Known(ctx.c, def)
    requires name in def.attributes && DispatchOf(def, ctx.c.profiles, name) == Single && Attribute(item, name).Some?
    modifies ctx.Repr()
    ensures ctx.Valid() && ctx.At() == old(ctx.At())
    ensures r == VisitOne(ctx.c, item, def, name, old(ctx.At())).item
    ensures ctx.State() == ctx.After(old(ctx.State()), VisitOne(ctx.c, item, def, name, old(ctx.At())).trace)
    decreases Unused(ctx.c, ctx.At()), 3
  {
    hide ProcessContext.After, Ready, Known, Unused, VisitPresent, RetainUnsupported, Judged, DispatchOf;
    KnownName(ctx.c, def, name);
    ghost var before, at := ctx.State(), ctx.At();
    ghost var here := at + [EP.Attribute(name)];
    var attr, value := def.attributes[name], item[name];
    ghost var kept := RetainUnsupported(ctx.c, item, def, name);
    ghost var visited := VisitPresent(ctx.c, kept.item, value, name, attr, at);
    PresentTrace(ctx, before, kept.trace, Judged(ctx.c, OnPresent, here, kept.item, value), visited.trace);
    ctx.PushAttribute(name);
    var current := DispatchPresent(ctx, item, def, name);
    ctx.Judge(OnPresent, current, value);
    var after;
    if attr.isArray {
      after := VisitArray(ctx, current, value, name, attr, at);
    } else {
      assert here + [] == here;
      SingleValue(ctx.c, current, value, name, attr, at);
      after := VisitAttributeValue(ctx, current, value, name, attr, at, []);
    }
    ctx.Pop(at, EP.Attribute(name));
    r := current[name := after];
  }

  lemma SingleValue(c: Ctx, item: Item, v: Value, name: string, attr: AttrDef, path: Elems)
    requires Ready(c) && name in Names(c) && !attr.isArray
    ensures VisitPresent(c, item, v, name, attr, path) == VisitValue(c, item, v, name, attr, path, [])
  {
    hide Ready, Names, VisitValue;
  }

  // ----- Values. `path` is where the containing item stands; the context stands at the attribute. -----

  method VisitArray(ctx: ProcessContext, item: Item, v: Value, name: string, attr: AttrDef,
                    ghost path: Elems) returns (r: Value)
    requires ctx.Valid() && Ready(ctx.c) && name in Names(ctx.c) && attr.isArray
    requires ctx.At() == path + [EP.Attribute(name)]
    modifies ctx.Repr()
    ensures ctx.Valid() && ctx.At() == old(ctx.At())
    ensures r == VisitPresent(ctx.c, item, v, name, attr, path).value
    ensures ctx.State() == ctx.After(old(ctx.State()), VisitPresent(ctx.c, item, v, name, attr, path).trace)
    decreases Unused(ctx.c, path), 2
  {
    hide ProcessContext.After, Ready, Names, Unused, VisitElems, VisitScalarElems, Judged, MayGenerateAt, ObservableType;
    ghost var before, at := ctx.State(), ctx.At();
    if !v.Arr? {
      DispatchArrayWrongType(ctx, name, attr);
      ctx.Judge(OnArrayWrongType, item, v);
      WrongTypeTrace(ctx, before, item, v, name, attr, at);
      return v;
    }
    if ScalarArray(attr) {
      VisitScalarArray(ctx, item, v.elems, name, attr);
      return v;
    }
    var elems := VisitArrayElements(ctx, item, v.elems, name, attr, path);
    return Arr(elems);
  }

  lemma WrongTypeTrace(ctx: ProcessContext, s: Report, item: Item, v: Value, name: string, attr: AttrDef, at: Elems)
    ensures ctx.After(ctx.After(s,
      if ctx.c.observables == Add
         && (ObservableType(ctx.c, at, name, attr).Some? || (attr.typ == "object_t" && MayGenerateAt(ctx.c, at, name, attr)))
      then [Raise(ObservableNotAddedWrongType)] else []), Judged(ctx.c, OnArrayWrongType, at, item, v))
      == ctx.After(s, ArrayWrongType(ctx.c, item, v, name, attr, at))
  {
    hide ProcessContext.After, Judged, MayGenerateAt, ObservableType;
    var raised := if ctx.c.observables == Add
         && (ObservableType(ctx.c, at, name, attr).Some? || (attr.typ == "object_t" && MayGenerateAt(ctx.c, at, name, attr)))
      then [Raise(ObservableNotAddedWrongType)] else [];
    Onward(ctx, s, raised, Judged(ctx.c, OnArrayWrongType, at, item, v));
  }

  method VisitArrayElements(ctx: ProcessContext, item: Item, elems: seq<Value>, name: string, attr: AttrDef,
                            ghost path: Elems)
    returns (r: seq<Value>)
    requires ctx.Valid() && Ready(ctx.c) && name in Names(ctx.c)
    requires ctx.At() == path + [EP.Attribute(name)]
    modifies ctx.Repr()
    ensures ctx.Valid() && ctx.At() == old(ctx.At())
    ensures r == VisitElems(ctx.c, item, elems, name, attr, path, 0).elems
    ensures ctx.State() == ctx.After(old(ctx.State()), VisitElems(ctx.c, item, elems, name, attr, path, 0).trace)
    decreases Unused(ctx.c, path), 1
  {
    hide ProcessContext.After, Ready, Names, Unused, VisitValue;
    ghost var before, at, c := ctx.State(), ctx.At(), ctx.c;
    ghost var whole := VisitElems(c, item, elems, name, attr, path, 0);
    r := [];
    assert r + whole.elems == whole.elems;
    for i := 0 to |elems|
      invariant ctx.Valid() && ctx.At() == at
      invariant r + VisitElems(c, item, elems, name, attr, path, i).elems == whole.elems
      invariant ctx.After(before, whole.trace) == ctx.After(ctx.State(), VisitElems(c, item, elems, name, attr, path, i).trace)
    {
      ghost var one := VisitValue(c, item, elems[i], name, attr, path, [EP.ArrayIndex(i)]);
      ghost var rest := VisitElems(c, item, elems, name, attr, path, i + 1);
      Onward(ctx, ctx.State(), one.trace, rest.trace);
      Associative(r, [one.value], rest.elems);
      ctx.PushArrayIndex(i);
      var after := VisitAttributeValue(ctx, item, elems[i], name, attr, path, [EP.ArrayIndex(i)]);
      ctx.Pop(at, EP.ArrayIndex(i));
      r := r + [after];
    }
    assert r + [] == r;
    Onward(ctx, ctx.State(), [], []);
  }

  method VisitScalarArray(ctx: ProcessContext, item: Item, elems: seq<Value>, name: string, attr: AttrDef)
    requires ctx.Valid()
    modifies ctx.Repr()
    ensures ctx.Valid() && ctx.At() == old(ctx.At())
    ensures ctx.State() == ctx.After(old(ctx.State()), VisitScalarElems(ctx.c, item, elems, name, attr, ctx.At(), 0))
  {
    hide ProcessContext.After, PrimitiveStep, Judged;
    ghost var before, at, c := ctx.State(), ctx.At(), ctx.c;
    ghost var whole := VisitScalarElems(c, item, elems, name, attr, at, 0);
    for i := 0 to |elems|
      invariant ctx.Valid() && ctx.At() == at
      invariant ctx.After(before, whole) == ctx.After(ctx.State(), VisitScalarElems(c, item, elems, name, attr, at, i))
    {
      ghost var here := at + [EP.ArrayIndex(i)];
      PresentTrace(ctx, ctx.State(), if attr.enum.Some? then Judged(c, OnElementEnum, here, item, elems[i]) else [],
                   PrimitiveStep(c, item, elems[i], name, attr, here, OnElementPrimitive),
                   VisitScalarElems(c, item, elems, name, attr, at, i + 1));
      Onward(ctx, ctx.State(), [], []);
      ctx.PushArrayIndex(i);
      if attr.enum.Some? {
        ctx.Judge(OnElementEnum, item, elems[i]);
      }
      VisitPrimitive(ctx, item, elems[i], name, attr, OnElementPrimitive);
      ctx.Pop(at, EP.ArrayIndex(i));
    }
    Onward(ctx, ctx.State(), [], []);
  }

  method VisitPrimitive(ctx: ProcessContext, item: Item, v: Value, name: string, attr: AttrDef, hook: Hook)
    requires ctx.Valid()
    modifies ctx`observables, ctx.result
    ensures ctx.Valid()
    ensures ctx.State() == ctx.After(old(ctx.State()), PrimitiveStep(ctx.c, item, v, name, attr, ctx.At(), hook))
  {
    hide ProcessContext.After, ScalarObservable, Judged;
    ghost var observed :=
      if ctx.c.observables == Add && attr.enum == None then ScalarObservable(ctx.c, ctx.At(), name, attr, v) else [];
    Onward(ctx, ctx.State(), observed, Judged(ctx.c, hook, ctx.At(), item, v));
    DispatchPrimitive(ctx, name, attr, v);
    ctx.Judge(hook, item, v);
  }

  /** One value: its enum, then its object or its primitive. A single enum has no active sibling to add. */
  method VisitAttributeValue(ctx: ProcessContext, item: Item, v: Value, name: string, attr: AttrDef,
                             ghost path: Elems, ghost index: Elems)
    returns (r: Value)
    requires ctx.Valid() && Ready(ctx.c) && name in Names(ctx.c)
    requires |index| <= 1 && forall i | 0 <= i < |index| :: index[i].ArrayIndex?
    requires ctx.At() == path + [EP.Attribute(name)] + index
    modifies ctx.Repr()
    ensures ctx.Valid() && ctx.At() == old(ctx.At())
    ensures r == VisitValue(ctx.c, item, v, name, attr, path, index).value
    ensures ctx.State() == ctx.After(old(ctx.State()), VisitValue(ctx.c, item, v, name, attr, path, index).trace)
    decreases Unused(ctx.c, path), 0, 2
  {
    hide ProcessContext.After, Ready, Names, Unused, PrimitiveStep, Judged, Walk.VisitItem, MayGenerateAt, EP.PriorAttribute, ObjectObservable;
    ghost var before, at := ctx.State(), ctx.At();
    ghost var judged := if attr.enum.Some? then Judged(ctx.c, OnEnum, at, item, v) else [];
    Onward(ctx, before, [], []);
    if attr.enum.Some? {
      ctx.Judge(OnEnum, item, v);
    }
    ValueTrace(ctx.c, item, v, name, attr, path, index);
    Onward(ctx, before, judged, ValueRest(ctx.c, item, v, name, attr, path, index).trace);
    if attr.typ == "object_t" {
      r := VisitObjectValue(ctx, item, v, name, attr, path, index);
    } else {
      VisitPrimitive(ctx, item, v, name, attr, OnPrimitive);
      r := v;
    }
  }

  /** A value's visit after its enum has been judged. */
  ghost function ValueRest(c: Ctx, item: Item, v: Value, name: string, attr: AttrDef, path: Elems, index: Elems): ValueOutcome
    requires Ready(c) && name in Names(c)
    requires |index| <= 1 && forall i | 0 <= i < |index| :: index[i].ArrayIndex?
  {
    var at := path + [EP.Attribute(name)] + index;
    if attr.typ != "object_t" then ValueOutcome(v, PrimitiveStep(c, item, v, name, attr, at, OnPrimitive))
    else if !v.Obj? then
      ValueOutcome(v,
        (if c.observables == Add && MayGenerateAt(c, at, name, attr) then [Raise(ObservableNotAddedWrongType)] else [])
        + Judged(c, OnObjectWrongType, at, item, v))
    else if attr.objectType == None then ValueOutcome(v, [])
    else if attr.objectType.value !in c.cat.objects then ValueOutcome(v, Judged(c, OnSchemaMissing, at, item, v))
    else if EP.PriorAttribute(at, name) then ValueOutcome(v, [ReachLimit])
    else
      ObjectKnown(c, attr.objectType.value);
      var def := c.cat.objects[attr.objectType.value];
      var inner := Walk.VisitItem(c, v.fields, def.item, at);
      ValueOutcome(Obj(inner.item),
        (if c.observables == Add then ObjectObservable(c, at, name, attr, def) else [])
        + Judged(c, OnObject, at, v.fields, v)
        + inner.trace
        + Judged(c, OnObjectDone, at, inner.item, Null))
  }

  lemma ValueTrace(c: Ctx, item: Item, v: Value, name: string, attr: AttrDef, path: Elems, index: Elems)
    requires Ready(c) && name in Names(c)
    requires |index| <= 1 && forall i | 0 <= i < |index| :: index[i].ArrayIndex?
    ensures var at := path + [EP.Attribute(name)] + index;
      var whole, rest := VisitValue(c, item, v, name, attr, path, index), ValueRest(c, item, v, name, attr, path, index);
      && whole.value == rest.value
      && whole.trace == (if attr.enum.Some? then Judged(c, OnEnum, at, item, v) else []) + rest.trace
  {
    hide Ready, Names, PrimitiveStep, Judged, Walk.VisitItem, MayGenerateAt, EP.PriorAttribute, ObjectObservable;
    var at := path + [EP.Attribute(name)] + index;
    var judged := if attr.enum.Some? then Judged(c, OnEnum, at, item, v) else [];
    if attr.typ != "object_t" {
    } else if !v.Obj? {
      var raised :=
        if c.observables == Add && MayGenerateAt(c, at, name, attr) then [Raise(ObservableNotAddedWrongType)] else [];
      Associative(judged, raised, Judged(c, OnObjectWrongType, at, item, v));
    } else if attr.objectType == None {
      assert judged + [] == judged;
    } else if attr.objectType.value in c.cat.objects && !EP.PriorAttribute(at, name) {
      ObjectKnown(c, attr.objectType.value);
      var def := c.cat.objects[attr.objectType.value];
      var inner := Walk.VisitItem(c, v.fields, def.item, at);
      var own := if c.observables == Add then ObjectObservable(c, at, name, attr, def) else [];
      FiveParts(judged, own, Judged(c, OnObject, at, v.fields, v), inner.trace, Judged(c, OnObjectDone, at, inner.item, Null));
    }
  }

  lemma FiveParts<T>(a: seq<T>, b: seq<T>, c: seq<T>, d: seq<T>, e: seq<T>)
    ensures a + b + c + d + e == a + (b + c + d + e)
  {
  }

  method VisitObjectValue(ctx: ProcessContext, item: Item, v: Value, name: string, attr: AttrDef, ghost path: Elems,
                          ghost index: Elems)
    returns (r: Value)
    requires ctx.Valid() && Ready(ctx.c) && name in Names(ctx.c) && attr.typ == "object_t"
    requires |index| <= 1 && forall i | 0 <= i < |index| :: index[i].ArrayIndex?
    requires ctx.At() == path + [EP.Attribute(name)] + index
    modifies ctx.Repr()
    ensures ctx.Valid() && ctx.At() == old(ctx.At())
    ensures r == ValueRest(ctx.c, item, v, name, attr, path, index).value
    ensures ctx.State() == ctx.After(old(ctx.State()), ValueRest(ctx.c, item, v, name, attr, path, index).trace)
    decreases Unused(ctx.c, path), 0, 1
  {
    hide ProcessContext.After, Ready, Names, Unused, Judged, Walk.VisitItem, MayGenerateAt, EP.PriorAttribute, ObjectObservable;
    ghost var before, at := ctx.State(), ctx.At();
    Onward(ctx, before, [], []);
    if !v.Obj? {
      VisitObjectWrongType(ctx, item, v, name, attr);
      return v;
    }
    if attr.objectType == None {
      return v;
    }
    if attr.objectType.value !in ctx.c.cat.objects {
      ctx.Judge(OnSchemaMissing, item, v);
      return v;
    }
    var prior := ctx.path.HasPriorAttribute(name);
    if prior {
      ctx.ReachTheLimit();
      return v;
    }
    r := VisitObject(ctx, v, name, attr, path, index);
  }

  method VisitObjectWrongType(ctx: ProcessContext, item: Item, v: Value, name: string, attr: AttrDef)
    requires ctx.Valid() && Ready(ctx.c) && attr.typ == "object_t"
    modifies ctx.Repr()
    ensures ctx.Valid() && ctx.At() == old(ctx.At())
    ensures var c, at := ctx.c, old(ctx.At());
      ctx.State() == ctx.After(old(ctx.State()),
        (if c.observables == Add && MayGenerateAt(c, at, name, attr) then [Raise(ObservableNotAddedWrongType)] else [])
        + Judged(c, OnObjectWrongType, at, item, v))
  {
    hide ProcessContext.After, Ready, Judged, MayGenerateAt;
    ghost var before, at := ctx.State(), ctx.At();
    ghost var raised :=
      if ctx.c.observables == Add && MayGenerateAt(ctx.c, at, name, attr) then [Raise(ObservableNotAddedWrongType)] else [];
    Onward(ctx, before, raised, Judged(ctx.c, OnObjectWrongType, at, item, v));
    DispatchObjectWrongType(ctx, name, attr);
    ctx.Judge(OnObjectWrongType, item, v);
  }

  method VisitObject(ctx: ProcessContext, v: Value, name: string, attr: AttrDef, ghost path: Elems, ghost index: Elems)
    returns (r: Value)
    requires ctx.Valid() && Ready(ctx.c) && name in Names(ctx.c) && v.Obj?
    requires attr.objectType.Some? && attr.objectType.value in ctx.c.cat.objects
    requires |index| <= 1 && forall i | 0 <= i < |index| :: index[i].ArrayIndex?
    requires ctx.At() == path + [EP.Attribute(name)] + index && !EP.PriorAttribute(ctx.At(), name)
    modifies ctx.Repr()
    ensures ctx.Valid() && ctx.At() == old(ctx.At())
    ensures Known(ctx.c, ctx.c.cat.objects[attr.objectType.value].item)
    ensures var c, at, def := ctx.c, old(ctx.At()), ctx.c.cat.objects[attr.objectType.value];
      var inner := Walk.VisitItem(c, v.fields, def.item, at);
      && r == Obj(inner.item)
      && ctx.State() == ctx.After(old(ctx.State()),
           (if c.observables == Add then ObjectObservable(c, at, name, attr, def) else [])
           + Judged(c, OnObject, at, v.fields, v) + inner.trace + Judged(c, OnObjectDone, at, inner.item, Null))
    decreases Unused(ctx.c, path), 0, 0
  {
    hide ProcessContext.After, Ready, Known, Names, Judged, Walk.VisitItem, ObjectObservable, EP.PriorAttribute;
    ghost var before, at, c := ctx.State(), ctx.At(), ctx.c;
    var def := ctx.c.cat.objects[attr.objectType.value];
    UnusedShrinks(c, path, name, index);
    hide Unused;
    ObjectKnown(c, attr.objectType.value);
    ghost var inner := Walk.VisitItem(c, v.fields, def.item, at);
    ghost var observed := if c.observables == Add then ObjectObservable(c, at, name, attr, def) else [];
    ghost var judged := Judged(c, OnObject, at, v.fields, v);
    PresentTrace(ctx, before, observed, judged, inner.trace);
    Onward(ctx, before, observed + judged + inner.trace, Judged(c, OnObjectDone, at, inner.item, Null));
    DispatchObject(ctx, name, attr, def);
    ctx.Judge(OnObject, v.fields, v);
    var fields := VisitItem(ctx, v.fields, def.item);
    ctx.Judge(OnObjectDone, fields, Null);
    r := Obj(fields);
  }
}
