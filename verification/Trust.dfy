/** Why validation may skip the observables a run generated: each name parses, is defined, uses its own notation and
    selects what the entry says is there. */
module Trust {
  import opened Text
  import opened Values
  import opened Schema
  import opened Walk
  import opened Settling
  import opened Generation
  import opened ObservablePath
  import opened Definedness
  import opened Resolution
  import opened Analysis
  import opened Collection
  import opened Run
  import EP = EventPath

  // ----- From a structural path to its segments -----

  lemma SegmentsLast(path: Elems, style: EP.Style)
    requires path != []
    ensures var before := Segments(path[..|path| - 1], style);
      match path[|path| - 1]
      case Attribute(name) => Segments(path, style) == before + [Segment(name, [])]
      case ArrayIndex(index) =>
        before != [] ==> Segments(path, style) == before[..|before| - 1] + [Selecting(before[|before| - 1], style, index)]
  {
  }

  /** A segment with the selector of one more array element. */
  function Selecting(s: Segment, style: EP.Style, index: nat): Segment {
    s.(selectors := s.selectors + StyleSelectors(style, index))
  }

  lemma LastOfConcat<T>(a: seq<T>, b: seq<T>)
    requires b != []
    ensures a + b != [] && (a + b)[..|a + b| - 1] == a + b[..|b| - 1] && (a + b)[|a + b| - 1] == b[|b| - 1]
  {
  }

  lemma {:induction false} SegmentsAppend(p: Elems, q: Elems, style: EP.Style)
    requires q == [] || q[0].Attribute?
    ensures Segments(p + q, style) == Segments(p, style) + Segments(q, style)
  {
    if q == [] {
      assert p + q == p;
      NoSegments(style);
    } else {
      hide *;
      var init := q[..|q| - 1];
      SegmentsAppend(p, init, style);
      LastOfConcat(p, q);
      SegmentsLast(p + q, style);
      SegmentsLast(q, style);
      var before, mine := Segments(p, style), Segments(init, style);
      match q[|q| - 1]
      case Attribute(name) =>
        Associative(before, mine, [Segment(name, [])]);
      case ArrayIndex(index) =>
        SomeSegments(init, style);
        LastOfConcat(before, mine);
        Associative(before, mine[..|mine| - 1], [Selecting(mine[|mine| - 1], style, index)]);
    }
  }

  /** The part of an admitted path that stands for its first attribute. */
  function HeadLength(attr: AttrDef): nat {
    if attr.isArray then 2 else 1
  }

  function HeadSelectors(attr: AttrDef, path: Elems, style: EP.Style): seq<ObservablePath.Selector> {
    if attr.isArray && |path| > 1 && path[1].ArrayIndex? then StyleSelectors(style, path[1].index) else []
  }

  /** The first attribute of an admitted path and what follows it. */
  lemma Unfold(c: Ctx, def: ItemDef, path: Elems, used: set<string>, style: EP.Style)
    requires Admits(c, def, path, used)
    ensures path != [] && path[0].Attribute? && ActiveName(def, c.profiles, path[0].name)
    ensures var name := path[0].name;
      var attr := def.attributes[name];
      var k := HeadLength(attr);
      && k <= |path| && (attr.isArray ==> path[1].ArrayIndex?)
      && (path[k..] == [] || Below(c, name, attr, path[k..], used))
      && Segments(path, style) == [Segment(name, HeadSelectors(attr, path, style))] + Segments(path[k..], style)
  {
    hide Active;
    var name := path[0].name;
    var attr := def.attributes[name];
    var k := HeadLength(attr);
    if attr.isArray {
      assert path[1..][1..] == path[2..];
    }
    var rest := path[k..];
    assert rest != [] ==> Below(c, name, attr, rest, used);
    if rest != [] {
      BelowStarts(c, name, attr, rest, used);
    }
    assert path == path[..k] + rest;
    SegmentsAppend(path[..k], rest, style);
    HeadSegment(name, style);
    if attr.isArray {
      assert path[..k] == [EP.Attribute(name), EP.ArrayIndex(path[1].index)];
      IndexedHeadSegment(name, path[1].index, style);
    } else {
      assert path[..k] == [EP.Attribute(name)];
    }
  }

  lemma BelowStarts(c: Ctx, name: string, attr: AttrDef, path: Elems, used: set<string>)
    requires Below(c, name, attr, path, used)
    ensures path != [] && path[0].Attribute?
  {
  }

  lemma HeadSegment(name: string, style: EP.Style)
    ensures Segments([EP.Attribute(name)], style) == [Segment(name, [])]
  {
    assert [EP.Attribute(name)][..0] == [];
  }

  lemma IndexedHeadSegment(name: string, index: nat, style: EP.Style)
    ensures Segments([EP.Attribute(name), EP.ArrayIndex(index)], style) == [Segment(name, StyleSelectors(style, index))]
  {
    HeadSegment(name, style);
    var p := [EP.Attribute(name), EP.ArrayIndex(index)];
    assert p[..1] == [EP.Attribute(name)];
    assert [] + StyleSelectors(style, index) == StyleSelectors(style, index);
  }

  // ----- Defined, in its own notation -----

  lemma StyleNotation(style: EP.Style, index: nat)
    ensures SelectorsUseNotation(StyleSelectors(style, index), style)
    ensures |StyleSelectors(style, index)| <= 1
  {
  }

  lemma {:induction false} AdmittedDefined(c: Ctx, def: ItemDef, path: Elems, used: set<string>,
                                           followed: seq<string>, style: EP.Style)
    requires Admits(c, def, path, used) && forall n :: n in followed <==> n in used
    ensures DefinitionFrom(c.cat.objects, c.profiles, Segments(path, style), def, followed) == Defined
    ensures NotationFrom(c.cat.objects, Segments(path, style), style, def, followed)
    decreases |path|
  {
    Unfold(c, def, path, used, style);
    var name := path[0].name;
    var attr := def.attributes[name];
    var rest := path[HeadLength(attr)..];
    var segments := Segments(path, style);
    assert segments[1..] == Segments(rest, style);
    if attr.isArray {
      StyleNotation(style, path[1].index);
    }
    hide Active, StyleSelectors, SelectorsUseNotation, Segments;
    if rest == [] {
      assert Segments(rest, style) == [] by { NoSegments(style); }
    } else {
      AdmittedDefined(c, c.cat.objects[attr.objectType.value].item, rest, used + {name}, followed + [name], style);
      SomeSegments(rest, style);
      hide Admits, Fits;
    }
  }

  lemma NoSegments(style: EP.Style)
    ensures Segments([], style) == []
  {
  }

  lemma SomeSegments(path: Elems, style: EP.Style)
    requires path != [] && path[0].Attribute?
    ensures Segments(path, style) != []
  {
  }

  // ----- Selecting what stands there -----

  lemma SelectedInElement(elems: seq<Value>, i: nat, segments: seq<Segment>, x: Value)
    requires i < |elems| && x in Selected(elems[i], segments)
    ensures x in Selected(Arr(elems), segments)
  {
    assert Leaves(elems[i]) <= Leaves(Arr(elems));
    hide Leaves, Entered;
    if segments != [] {
      assert Stepped(elems[i], segments[0]) <= Stepped(Arr(elems), segments[0]);
    }
  }

  /** The style's selector, or none, takes an array to an element. */
  lemma SelectedThroughHead(elems: seq<Value>, i: nat, style: EP.Style, segments: seq<Segment>, x: Value)
    requires i < |elems| && x in Selected(elems[i], segments)
    ensures exists w :: w in Picked(Arr(elems), StyleSelectors(style, i)) && x in Selected(w, segments)
  {
    var selectors := StyleSelectors(style, i);
    if selectors == [] {
      SelectedInElement(elems, i, segments, x);
      assert Arr(elems) in Picked(Arr(elems), selectors);
    } else {
      assert selectors[1..] == [];
      assert elems[i] in Offered(Arr(elems), selectors[0]);
      assert elems[i] in Picked(elems[i], selectors[1..]);
      assert elems[i] in Picked(Arr(elems), selectors);
    }
  }

  lemma SelectedStep(item: Item, segment: Segment, rest: seq<Segment>, w: Value, x: Value)
    requires segment.attribute in item && w in Picked(item[segment.attribute], segment.selectors) && x in Selected(w, rest)
    ensures x in Selected(Obj(item), [segment] + rest)
  {
    assert w in Entered(Obj(item), segment);
    assert Obj(item) in Leaves(Obj(item));
    assert w in Stepped(Obj(item), segment);
    assert ([segment] + rest)[1..] == rest;
  }

  lemma {:induction false} AdmittedSelected(c: Ctx, def: ItemDef, item: Item, path: Elems, used: set<string>,
                                            style: EP.Style, x: Value)
    requires Admits(c, def, path, used) && ValueAt(Obj(item), path) == Some(x) && !x.Arr?
    ensures x in Selected(Obj(item), Segments(path, style))
    decreases |path|, 0
  {
    Unfold(c, def, path, used, style);
    var name := path[0].name;
    var attr := def.attributes[name];
    var field := item[name];
    var rest := path[HeadLength(attr)..];
    var segment, more := Segment(name, HeadSelectors(attr, path, style)), Segments(rest, style);
    hide Active, Segments, StyleSelectors, Selected, Picked, Fits;
    if attr.isArray {
      var i := path[1].index;
      assert path[1..][1..] == rest;
      assert ValueAt(field, path[1..]) == Some(x);
      SelectedBelow(c, name, attr, field.elems[i], rest, used, style, x);
      SelectedThroughHead(field.elems, i, style, more, x);
      var w :| w in Picked(field, StyleSelectors(style, i)) && x in Selected(w, more);
      SelectedStep(item, segment, more, w, x);
    } else {
      SelectedBelow(c, name, attr, field, rest, used, style, x);
      PickedItself(field);
      SelectedStep(item, segment, more, field, x);
    }
  }

  lemma PickedItself(v: Value)
    ensures v in Picked(v, [])
  {
  }

  lemma {:induction false} SelectedBelow(c: Ctx, name: string, attr: AttrDef, v: Value, path: Elems,
                                         used: set<string>, style: EP.Style, x: Value)
    requires path == [] || Below(c, name, attr, path, used)
    requires ValueAt(v, path) == Some(x) && !x.Arr?
    ensures x in Selected(v, Segments(path, style))
    decreases |path|, 1
  {
    if path == [] {
      NoSegments(style);
      assert x in Leaves(x);
    } else {
      AdmittedSelected(c, c.cat.objects[attr.objectType.value].item, v.fields, path, used + {name}, style, x);
    }
  }

  // ----- Names that can be read back -----

  /** The attribute names the observable name language can express; a first name like a root marker only after one.
      `ObservablePath.ReadBackExactly` shows that no others can be read back. */
  ghost predicate Expressible(c: Ctx) {
    && (forall n | n in Names(c) :: NameSafe(n))
    && (forall n | n in c.cls.item.attributes :: n != "" && (c.style == EP.JSONPath || n[0] != '$'))
  }

  /** Arrays as long as Go slices can be. */
  predicate Sized(v: Value) {
    match v
    case Arr(elems) => |elems| <= MAX_INT64 && forall i | 0 <= i < |elems| :: Sized(elems[i])
    case Obj(fields) => forall k | k in fields :: Sized(fields[k])
    case _ => true
  }

  lemma {:induction false} SettledSized(c: Ctx, item: Item, def: ItemDef, used: set<string>)
    requires Ready(c) && Known(c, def) && Sized(Obj(item))
    ensures Sized(Obj(SettledItem(c, item, def, used)))
    decreases Names(c) - used, 3
  {
    var settled := SettledItem(c, item, def, used);
    forall key | key in settled ensures Sized(settled[key]) {
      SlotSized(c, item, def, used, key);
      SettledAt(c, item, def, used, key);
    }
  }

  lemma {:induction false} SlotSized(c: Ctx, item: Item, def: ItemDef, used: set<string>, key: string)
    requires Ready(c) && Known(c, def) && Sized(Obj(item))
    ensures SettledSlot(c, item, def, used, key).Some? ==> Sized(SettledSlot(c, item, def, used, key).value)
    decreases Names(c) - used, 2
  {
    hide Ready, Known, Active, DispatchOf, Clears, EnumStep, Sized, SettledValue, Cleared;
    Ends(c, def, key);
    FieldSized(item, key);
    if PairKey(c, def, key) {
      PairSized(c, item, def.owners[key], def.attributes[def.owners[key]], key);
    } else if SingleKey(c, def, key) && Attribute(item, key).Some? {
      KnownName(c, def, key);
      ValueSized(c, item[key], key, def.attributes[key], used);
    }
  }

  lemma FieldSized(item: Item, key: string)
    requires Sized(Obj(item))
    ensures key in item ==> Sized(item[key])
  {
  }

  lemma PairSized(c: Ctx, item: Item, e: string, attr: AttrDef, s: string)
    requires Sized(Obj(item))
    ensures var slot := Slot(EnumStep(c, item, e, attr, s).item, s); slot.Some? ==> Sized(slot.value)
  {
    hide LookupEnum;
    if Removing(c) && s in item && attr.isArray && item[s].Arr? && Attribute(item, e).Some? && item[e].Arr?
       && (c.enums == ForceRemove || |item[e].elems| == |item[s].elems|) {
      RemoveArrayFrame(c, item, attr, s, item[e].elems, item[s].elems, c.enums == ForceRemove, 0);
    }
    assert Attribute(item, e).Some? ==> Sized(item[e]);
  }

  lemma {:induction false} ValueSized(c: Ctx, v: Value, name: string, attr: AttrDef, used: set<string>)
    requires Ready(c) && name in Names(c) && Sized(v)
    ensures Sized(SettledValue(c, v, name, attr, used))
    decreases Names(c) - used, 1
  {
    if !attr.isArray {
      ObjectSized(c, v, name, attr, used);
    } else if v.Arr? && !ScalarArray(attr) {
      forall i | 0 <= i < |v.elems| ensures Sized(SettledObject(c, v.elems[i], name, attr, used)) {
        ObjectSized(c, v.elems[i], name, attr, used);
      }
    }
  }

  lemma {:induction false} ObjectSized(c: Ctx, v: Value, name: string, attr: AttrDef, used: set<string>)
    requires Ready(c) && name in Names(c) && Sized(v)
    ensures Sized(SettledObject(c, v, name, attr, used))
    decreases Names(c) - used, 0
  {
    if Enters(c, v, name, attr, used) {
      ObjectKnown(c, attr.objectType.value);
      SettledSized(c, v.fields, c.cat.objects[attr.objectType.value].item, used + {name});
    }
  }

  lemma {:induction false} AdmittedSafe(c: Ctx, def: ItemDef, v: Value, path: Elems, used: set<string>)
    requires Ready(c) && Known(c, def) && Expressible(c)
    requires Admits(c, def, path, used) && ValueAt(v, path).Some? && Sized(v)
    ensures PathSafe(path)
    decreases |path|
  {
    hide *;
    Unfold(c, def, path, used, EP.Simple);
    var name := path[0].name;
    NameOfActive(c, def, name);
    ExpressibleName(c, name);
    var attr := def.attributes[name];
    var k := HeadLength(attr);
    HeadBound(attr, path);
    var inner := InnerOf(v, path, attr);
    if path[k..] != [] {
      BelowObject(c, name, attr, path[k..], used);
      AdmittedSafe(c, c.cat.objects[attr.objectType.value].item, inner, path[k..], used + {name});
    }
    SafeTogether(path, attr);
  }

  lemma NameOfActive(c: Ctx, def: ItemDef, name: string)
    requires Known(c, def) && ActiveName(def, c.profiles, name)
    ensures name in def.attributes && name in Names(c)
  {
  }

  lemma HeadBound(attr: AttrDef, path: Elems)
    requires HeadLength(attr) <= |path|
    ensures (attr.isArray ==> 1 < |path|) && |path[HeadLength(attr)..]| < |path|
  {
  }

  lemma BelowObject(c: Ctx, name: string, attr: AttrDef, path: Elems, used: set<string>)
    requires Ready(c) && Below(c, name, attr, path, used)
    ensures attr.objectType.Some? && attr.objectType.value in c.cat.objects
    ensures Known(c, c.cat.objects[attr.objectType.value].item)
    ensures Admits(c, c.cat.objects[attr.objectType.value].item, path, used + {name})
  {
    ObjectKnown(c, attr.objectType.value);
    hide Ready, Known, Admits;
  }

  /** What stands at the head of a path that leads somewhere. */
  lemma InnerOf(v: Value, path: Elems, attr: AttrDef) returns (inner: Value)
    requires path != [] && path[0].Attribute? && HeadLength(attr) <= |path| && (attr.isArray ==> path[1].ArrayIndex?)
    requires ValueAt(v, path).Some? && Sized(v)
    ensures ValueAt(inner, path[HeadLength(attr)..]).Some? && Sized(inner)
    ensures attr.isArray ==> path[1].index <= MAX_INT64
  {
    inner := v.fields[path[0].name];
    assert Sized(inner) && ValueAt(inner, path[1..]).Some?;
    if attr.isArray {
      assert path[1..][1..] == path[2..];
      assert path[1].index < |inner.elems|;
      inner := inner.elems[path[1].index];
    }
  }

  lemma SafeTogether(path: Elems, attr: AttrDef)
    requires path != [] && path[0].Attribute? && HeadLength(attr) <= |path| && (attr.isArray ==> path[1].ArrayIndex?)
    requires NameSafe(path[0].name) && (attr.isArray ==> path[1].index <= MAX_INT64)
    requires path[HeadLength(attr)..] == [] || PathSafe(path[HeadLength(attr)..])
    ensures PathSafe(path)
  {
    hide NameSafe;
    var k := HeadLength(attr);
    assert path == path[..k] + path[k..];
  }

  lemma ExpressibleName(c: Ctx, name: string)
    requires Expressible(c) && name in Names(c)
    ensures NameSafe(name)
  {
  }

  lemma FirstExpressible(c: Ctx, path: Elems)
    requires Expressible(c) && Admits(c, c.cls.item, path, {})
    ensures path != [] && path[0].Attribute? && path[0].name != "" && (c.style == EP.JSONPath || path[0].name[0] != '$')
  {
    hide Below, Names;
    Unfold(c, c.cls.item, path, {}, EP.Simple);
  }

  // ----- One generated entry -----

  /** The entry for a sound observation reads back as a defined path in its own notation, and is redundant in every
      event that agrees with the walked one outside the observables, unless it leads back into them. */
  lemma TrustedEntry(p: Pipeline, c: Ctx, walked: Item, event: Item, e: Effect)
    requires Ready(c) && Expressible(c) && Sized(Obj(walked)) && c.style == p.style
    requires e.Observe? && Sound(c, c.cls.item, walked, [], e) && SameOutsideObservables(walked, event)
    ensures e.path != [] && e.path[0].Attribute?
    ensures var name := Name(Segments(e.path, p.style), p.style == EP.JSONPath);
      && ReadName(EP.Render(e.path, p.style)) == Ok(name)
      && DefinitionFrom(c.cat.objects, c.profiles, name.segments, c.cls.item, []) == Defined
      && UsesNotation(name, p.style, c.cat.objects, c.cls.item)
      && AnalyzeEntry(event, EntryFor(p, e), ScopeOf(c)) ==
           if e.path[0].name == OBSERVABLES then Rejected(EntryFor(p, e), NameInvalidReference)
           else Entry(EntryFor(p, e), Some(name), true, NoProblem)
  {
    hide *;
    SoundParts(c, walked, e);
    var def, style := c.cls.item, p.style;
    ClassKnown(c);
    AdmittedSafe(c, def, Obj(walked), e.path, {});
    FirstExpressible(c, e.path);
    RenderParseRoundTrip(e.path, style);
    AdmittedDefined(c, def, e.path, {}, [], style);
    FirstSegment(c, def, e.path, {}, style);
    var name := Name(Segments(e.path, style), style == EP.JSONPath);
    assert UsesNotation(name, style, c.cat.objects, def) by { Notation(name, style, c.cat.objects, def); }
    EntryName(p, e);
    if e.path[0].name != OBSERVABLES {
      SelectedThere(c, walked, event, e, style);
    }
    EntryVerdict(p, c, event, e, name);
  }

  lemma SoundParts(c: Ctx, item: Item, e: Effect)
    requires e.Observe? && Sound(c, c.cls.item, item, [], e)
    ensures Admits(c, c.cls.item, e.path, {}) && Holds(Obj(item), e.path, e.text)
    ensures e.path != [] && e.path[0].Attribute?
    ensures ValueAt(Obj(item), e.path).Some?
  {
    assert e.path[0..] == e.path;
    assert Used([]) == {};
  }

  lemma FirstSegment(c: Ctx, def: ItemDef, path: Elems, used: set<string>, style: EP.Style)
    requires Admits(c, def, path, used)
    ensures path != [] && path[0].Attribute?
    ensures Segments(path, style) != [] && Segments(path, style)[0].attribute == path[0].name
  {
    Unfold(c, def, path, used, style);
    hide Admits, Segments, Below;
  }

  lemma Notation(name: Name, style: EP.Style, objects: Objects, def: ItemDef)
    requires name.rooted == (style == EP.JSONPath) && NotationFrom(objects, name.segments, style, def, [])
    ensures UsesNotation(name, style, objects, def)
  {
  }

  lemma EntryName(p: Pipeline, e: Effect)
    requires e.Observe?
    ensures var entry := EntryFor(p, e);
      && entry.Obj? && Attribute(entry.fields, "name") == Some(Str(EP.Render(e.path, p.style)))
      && Slot(entry.fields, "value") == (if e.text.Some? then Some(Str(e.text.value)) else None)
      && Slot(entry.fields, "type_id") == Some(Int(e.typeID))
  {
    hide EP.Render;
  }

  lemma SelectedThere(c: Ctx, walked: Item, event: Item, e: Effect, style: EP.Style)
    requires e.Observe? && Admits(c, c.cls.item, e.path, {}) && Holds(Obj(walked), e.path, e.text)
    requires SameOutsideObservables(walked, event)
    requires e.path != [] && e.path[0].Attribute? && e.path[0].name != OBSERVABLES
    ensures Says(event, Segments(e.path, style), if e.text.Some? then Some(Str(e.text.value)) else None)
  {
    var x := ValueAt(Obj(walked), e.path).value;
    AdmittedSelected(c, c.cls.item, walked, e.path, {}, style, x);
    FirstSegment(c, c.cls.item, e.path, {}, style);
    ResolveIgnoresObservables(walked, event, Segments(e.path, style));
    hide Segments, Selected, Admits, ValueAt;
  }

  lemma EntryVerdict(p: Pipeline, c: Ctx, event: Item, e: Effect, name: Name)
    requires e.Observe? && e.path != [] && e.path[0].Attribute?
    requires var entry := EntryFor(p, e);
      && entry.Obj? && Attribute(entry.fields, "name") == Some(Str(EP.Render(e.path, p.style)))
      && Slot(entry.fields, "value") == (if e.text.Some? then Some(Str(e.text.value)) else None)
    requires ReadName(EP.Render(e.path, p.style)) == Ok(name)
    requires DefinitionFrom(c.cat.objects, c.profiles, name.segments, c.cls.item, []) == Defined
    requires name.segments != [] && name.segments[0].attribute == e.path[0].name
    requires e.path[0].name != OBSERVABLES ==>
      Says(event, name.segments, if e.text.Some? then Some(Str(e.text.value)) else None)
    ensures AnalyzeEntry(event, EntryFor(p, e), ScopeOf(c)) ==
      if e.path[0].name == OBSERVABLES then Rejected(EntryFor(p, e), NameInvalidReference)
      else Entry(EntryFor(p, e), Some(name), true, NoProblem)
  {
    hide ReadName, EP.Render, DefinitionFrom, Selected, SelectionMissing, EntryFor;
  }
}
