/** No value of an event is observed twice by one walk. */
module Once {
  import opened Text
  import opened Values
  import opened Schema
  import opened Walk
  import opened Settling
  import opened Generation
  import opened Run
  import EP = EventPath

  /** No two observations have the same path. */
  predicate Distinct(trace: seq<Effect>) {
    forall i, j | 0 <= i < j < |trace| && trace[i].Observe? && trace[j].Observe? :: trace[i].path != trace[j].path
  }

  predicate Under(trace: seq<Effect>, at: Elems) {
    forall e | e in trace && e.Observe? :: at <= e.path
  }

  /** Every observation is at or under a path, and none is made twice. */
  predicate Tidy(trace: seq<Effect>, at: Elems) {
    Distinct(trace) && Under(trace, at)
  }

  predicate Apart(a: seq<Effect>, b: seq<Effect>) {
    forall x, y | x in a && y in b && x.Observe? && y.Observe? :: x.path != y.path
  }

  lemma TidyJoin(a: seq<Effect>, b: seq<Effect>, at: Elems)
    requires Tidy(a, at) && Tidy(b, at) && Apart(a, b)
    ensures Tidy(a + b, at)
  {
    var t := a + b;
    forall i, j | 0 <= i < j < |t| && t[i].Observe? && t[j].Observe? ensures t[i].path != t[j].path {
      if i < |a| && |a| <= j {
        assert t[i] in a && t[j] in b;
      } else if j < |a| {
        assert a[i] == t[i] && a[j] == t[j];
      } else {
        assert b[i - |a|] == t[i] && b[j - |a|] == t[j];
      }
    }
  }

  lemma TidyQuiet(trace: seq<Effect>, at: Elems)
    requires Quiet(trace)
    ensures Tidy(trace, at) && forall other :: Apart(trace, other) && Apart(other, trace)
  {
    forall i | 0 <= i < |trace| ensures !trace[i].Observe? {
      assert trace[i] in trace;
    }
  }

  /** Quiet effects on either side change nothing. */
  lemma TidyWithin(a: seq<Effect>, b: seq<Effect>, z: seq<Effect>, at: Elems)
    requires Quiet(a) && Tidy(b, at) && Quiet(z)
    ensures Tidy(a + b + z, at)
  {
    TidyQuiet(a, at);
    TidyQuiet(z, at);
    TidyJoin(a, b, at);
    TidyJoin(a + b, z, at);
  }

  lemma Shallower(trace: seq<Effect>, at: Elems, outer: Elems)
    requires Tidy(trace, at) && outer <= at
    ensures Tidy(trace, outer)
  {
    forall e | e in trace && e.Observe? ensures outer <= e.path {
      assert at <= e.path;
    }
  }

  // ----- Scalars and arrays of scalars -----

  lemma ScalarTidy(c: Ctx, at: Elems, name: string, attr: AttrDef, v: Value)
    ensures Tidy(ScalarObservable(c, at, name, attr, v), at)
  {
    hide ObservableType;
  }

  lemma PrimitiveTidy(c: Ctx, item: Item, v: Value, name: string, attr: AttrDef, at: Elems, hook: Hook)
    ensures Tidy(PrimitiveStep(c, item, v, name, attr, at, hook), at)
  {
    ScalarTidy(c, at, name, attr, v);
    JudgedQuiet(c, hook, at, item, v);
    hide ScalarObservable, Judged, Tidy;
    TidyQuiet([], at);
    var observed := if c.observables == Add && attr.enum == None then ScalarObservable(c, at, name, attr, v) else [];
    TidyWithin([], observed, Judged(c, hook, at, item, v), at);
    assert [] + observed == observed;
  }

  /** Elements from index i on are observed under their own indexes. */
  predicate FromIndex(trace: seq<Effect>, at: Elems, i: nat) {
    forall e | e in trace && e.Observe? :: at < e.path && e.path[|at|].ArrayIndex? && e.path[|at|].index >= i
  }

  lemma ElementThenRest(first: seq<Effect>, rest: seq<Effect>, at: Elems, i: nat)
    requires Tidy(first, at + [EP.ArrayIndex(i)]) && Tidy(rest, at) && FromIndex(rest, at, i + 1)
    ensures Tidy(first + rest, at) && FromIndex(first + rest, at, i)
  {
    var here := at + [EP.ArrayIndex(i)];
    forall e | e in first && e.Observe? ensures at < e.path && e.path[|at|] == EP.ArrayIndex(i) {
      assert here <= e.path && here[|at|] == e.path[|at|];
    }
    Shallower(first, here, at);
    TidyJoin(first, rest, at);
  }

  lemma {:induction false} ArrayTidy(c: Ctx, at: Elems, name: string, attr: AttrDef, elems: seq<Value>, i: nat)
    requires i <= |elems|
    ensures Tidy(ArrayObservables(c, at, name, attr, elems, i), at)
    ensures FromIndex(ArrayObservables(c, at, name, attr, elems, i), at, i)
    decreases |elems| - i
  {
    hide ScalarObservable;
    if i < |elems| {
      hide Tidy, FromIndex;
      ScalarTidy(c, at + [EP.ArrayIndex(i)], name, attr, elems[i]);
      ArrayTidy(c, at, name, attr, elems, i + 1);
      ElementThenRest(ScalarObservable(c, at + [EP.ArrayIndex(i)], name, attr, elems[i]),
                      ArrayObservables(c, at, name, attr, elems, i + 1), at, i);
    }
  }

  lemma {:induction false} ScalarElemsTidy(c: Ctx, item: Item, elems: seq<Value>, name: string, attr: AttrDef,
                                           at: Elems, i: nat)
    requires i <= |elems|
    ensures Tidy(VisitScalarElems(c, item, elems, name, attr, at, i), at)
    ensures FromIndex(VisitScalarElems(c, item, elems, name, attr, at, i), at, i)
    decreases |elems| - i
  {
    hide PrimitiveStep, Judged;
    if i < |elems| {
      hide Tidy, FromIndex;
      var here := at + [EP.ArrayIndex(i)];
      var judged := if attr.enum.Some? then Judged(c, OnElementEnum, here, item, elems[i]) else [];
      var step := PrimitiveStep(c, item, elems[i], name, attr, here, OnElementPrimitive);
      JudgedQuiet(c, OnElementEnum, here, item, elems[i]);
      PrimitiveTidy(c, item, elems[i], name, attr, here, OnElementPrimitive);
      TidyWithin(judged, step, [], here);
      assert judged + step + [] == judged + step;
      ScalarElemsTidy(c, item, elems, name, attr, at, i + 1);
      ElementThenRest(judged + step, VisitScalarElems(c, item, elems, name, attr, at, i + 1), at, i);
    }
  }

  // ----- The walk -----

  /** The key a slot observes under: its own, or its pair's sibling. */
  function KeyOf(c: Ctx, def: ItemDef, slot: string): Option<string>
    requires slot in def.attributes
  {
    match DispatchOf(def, c.profiles, slot)
    case Single => Some(slot)
    case Pair(s) => Some(s)
    case _ => None
  }

  /** Observations under a key that one of the slots observes under. */
  ghost predicate UnderSlots(c: Ctx, def: ItemDef, trace: seq<Effect>, path: Elems, slots: seq<string>)
    requires forall n | n in slots :: n in def.attributes
  {
    forall e | e in trace && e.Observe? ::
      path < e.path && exists n | n in slots :: KeyOf(c, def, n).Some? && e.path[|path|] == EP.Attribute(KeyOf(c, def, n).value)
  }

  /** No two slots observe under one key. */
  lemma KeysDiffer(c: Ctx, def: ItemDef, m: string, n: string)
    requires Known(c, def) && m in def.attributes && n in def.attributes && m != n
    requires KeyOf(c, def, m).Some?
    ensures KeyOf(c, def, m) != KeyOf(c, def, n)
  {
    hide Known, Active, ActiveName;
    Ends(c, def, m);
    Ends(c, def, n);
    if KeyOf(c, def, m) == KeyOf(c, def, n) {
      var key := KeyOf(c, def, m).value;
      Ends(c, def, key);
      hide DispatchOf;
    }
  }

  /** A walk makes no observation twice. */
  lemma {:induction false} WalkOnce(c: Ctx, item: Item, def: ItemDef, path: Elems)
    requires Ready(c) && Known(c, def)
    ensures Tidy(VisitItem(c, item, def, path).trace, path)
    ensures forall e | e in VisitItem(c, item, def, path).trace && e.Observe? :: path < e.path
    decreases Unused(c, path), 5
  {
    hide Ready, Known, VisitFrom, Tidy, KeyOf;
    KnownOrder(c, def);
    FromTidy(c, item, def, def.ordered, path);
  }

  lemma {:induction false} FromTidy(c: Ctx, item: Item, def: ItemDef, names: seq<string>, path: Elems)
    requires Ready(c) && Known(c, def) && Ascending(names) && forall n | n in names :: n in def.attributes
    ensures Tidy(VisitFrom(c, item, def, names, path).trace, path)
    ensures UnderSlots(c, def, VisitFrom(c, item, def, names, path).trace, path, names)
    decreases Unused(c, path), 4, |names|
  {
    hide Ready, Known, VisitOne;
    if names == [] {
      TidyQuiet([], path);
    } else {
      hide Tidy, UnderSlots, Ascending, KeyOf;
      AscendingTail(names);
      var first := VisitOne(c, item, def, names[0], path);
      var rest := VisitFrom(c, first.item, def, names[1..], path);
      OneTidy(c, item, def, names[0], path);
      FromTidy(c, first.item, def, names[1..], path);
      SlotThenRest(c, def, first.trace, rest.trace, names, path);
    }
  }

  lemma SlotThenRest(c: Ctx, def: ItemDef, first: seq<Effect>, rest: seq<Effect>, names: seq<string>, path: Elems)
    requires Known(c, def) && names != [] && forall n | n in names :: n in def.attributes
    requires names[0] !in names[1..]
    requires Tidy(first, path) && UnderSlots(c, def, first, path, [names[0]])
    requires Tidy(rest, path) && UnderSlots(c, def, rest, path, names[1..])
    ensures Tidy(first + rest, path) && UnderSlots(c, def, first + rest, path, names)
  {
    hide Known, KeyOf, Tidy;
    forall x, y | x in first && y in rest && x.Observe? && y.Observe? ensures x.path != y.path {
      var n :| n in names[1..] && KeyOf(c, def, n).Some? && y.path[|path|] == EP.Attribute(KeyOf(c, def, n).value);
      KeysDiffer(c, def, n, names[0]);
    }
    TidyJoin(first, rest, path);
    forall e | e in first + rest && e.Observe?
      ensures path < e.path && exists n | n in names :: KeyOf(c, def, n).Some? && e.path[|path|] == EP.Attribute(KeyOf(c, def, n).value)
    {
      if e in first {
        assert names[0] in names;
      } else {
        var n :| n in names[1..] && KeyOf(c, def, n).Some? && e.path[|path|] == EP.Attribute(KeyOf(c, def, n).value);
        assert n in names;
      }
    }
  }

  /** Tidy under a slot's key is tidy under the item, within that slot. */
  lemma SlotTidy(c: Ctx, def: ItemDef, trace: seq<Effect>, name: string, key: string, path: Elems)
    requires name in def.attributes && KeyOf(c, def, name) == Some(key) && Tidy(trace, path + [EP.Attribute(key)])
    ensures Tidy(trace, path) && UnderSlots(c, def, trace, path, [name])
  {
    hide KeyOf;
    var at := path + [EP.Attribute(key)];
    forall e | e in trace && e.Observe? ensures path < e.path && e.path[|path|] == EP.Attribute(key) {
      assert at <= e.path && at[|path|] == e.path[|path|];
    }
    Shallower(trace, at, path);
    assert name in [name];
  }

  lemma {:induction false} OneTidy(c: Ctx, item: Item, def: ItemDef, name: string, path: Elems)
    requires Ready(c) && Known(c, def) && name in def.attributes
    ensures Tidy(VisitOne(c, item, def, name, path).trace, path)
    ensures UnderSlots(c, def, VisitOne(c, item, def, name, path).trace, path, [name])
    decreases Unused(c, path), 3
  {
    hide Ready, Known, Tidy, UnderSlots, VisitPresent, VisitPair, RetainUnsupported, Judged, DispatchOf;
    var at := path + [EP.Attribute(name)];
    var trace := VisitOne(c, item, def, name, path).trace;
    match DispatchOf(def, c.profiles, name)
    case Inactive =>
      if Attribute(item, name).Some? {
        JudgedQuiet(c, OnInactive, at, item, item[name]);
      }
      QuietSlot(c, def, trace, name, path);
    case Owned =>
      QuietSlot(c, def, trace, name, path);
    case Pair(s) =>
      SiblingPlain(c, def, name, s);
      PairTidy(c, item, def, name, s, path);
      SlotTidy(c, def, trace, name, s, path);
    case Single =>
      if Attribute(item, name) == None {
        JudgedQuiet(c, OnMissing, at, item, Null);
        QuietSlot(c, def, trace, name, path);
      } else {
        var v := item[name];
        var kept := RetainUnsupported(c, item, def, name);
        KnownName(c, def, name);
        RetainQuiet(c, item, def, name);
        JudgedQuiet(c, OnPresent, at, kept.item, v);
        PresentTidy(c, kept.item, v, name, def.attributes[name], path);
        QuietBoth(kept.trace, Judged(c, OnPresent, at, kept.item, v));
        var visited := VisitPresent(c, kept.item, v, name, def.attributes[name], path).trace;
        TidyWithin(kept.trace + Judged(c, OnPresent, at, kept.item, v), visited, [], at);
        assert trace + [] == trace;
        SlotTidy(c, def, trace, name, name, path);
      }
  }

  lemma QuietBoth(a: seq<Effect>, b: seq<Effect>)
    requires Quiet(a) && Quiet(b)
    ensures Quiet(a + b)
  {
  }

  lemma QuietSlot(c: Ctx, def: ItemDef, trace: seq<Effect>, name: string, path: Elems)
    requires name in def.attributes && Quiet(trace)
    ensures Tidy(trace, path) && UnderSlots(c, def, trace, path, [name])
  {
    TidyQuiet(trace, path);
  }

  lemma PairTidy(c: Ctx, item: Item, def: ItemDef, e: string, s: string, path: Elems)
    requires e in def.attributes && s in def.attributes
    ensures Tidy(VisitPair(c, item, def, e, s, path).trace, path + [EP.Attribute(s)])
  {
    var at := path + [EP.Attribute(s)];
    var step := EnumStep(c, item, e, def.attributes[e], s);
    StepQuiet(c, item, e, def.attributes[e], s);
    JudgedQuiet(c, OnPair(s), path + [EP.Attribute(e)], step.item, Null);
    hide EnumStep, SiblingObservables, Judged, Tidy;
    var observed :=
      if c.observables == Add && Attribute(step.item, s).Some?
      then SiblingObservables(c, at, s, def.attributes[s], step.item[s]) else [];
    if observed == [] {
      TidyQuiet([], at);
    } else {
      SiblingTidy(c, at, s, def.attributes[s], step.item[s]);
    }
    TidyWithin(step.trace, observed, Judged(c, OnPair(s), path + [EP.Attribute(e)], step.item, Null), at);
  }

  lemma SiblingTidy(c: Ctx, at: Elems, name: string, attr: AttrDef, v: Value)
    ensures Tidy(SiblingObservables(c, at, name, attr, v), at)
  {
    if !attr.isArray {
      ScalarTidy(c, at, name, attr, v);
      hide ScalarObservable;
    } else if v.Arr? {
      ArrayTidy(c, at, name, attr, v.elems, 0);
      hide ArrayObservables;
    }
  }

  lemma {:induction false} PresentTidy(c: Ctx, item: Item, v: Value, name: string, attr: AttrDef, path: Elems)
    requires Ready(c) && name in Names(c)
    ensures Tidy(VisitPresent(c, item, v, name, attr, path).trace, path + [EP.Attribute(name)])
    decreases Unused(c, path), 2
  {
    hide Ready, Names, Tidy, VisitValue, VisitElems, VisitScalarElems, ArrayWrongType;
    var at := path + [EP.Attribute(name)];
    if !attr.isArray {
      ValueTidy(c, item, v, name, attr, path, []);
      assert at + [] == at;
    } else if !v.Arr? {
      WrongTypeQuiet(c, item, v, name, attr, at);
      TidyQuiet(ArrayWrongType(c, item, v, name, attr, at), at);
    } else if ScalarArray(attr) {
      ScalarElemsTidy(c, item, v.elems, name, attr, at, 0);
    } else {
      ElemsTidy(c, item, v.elems, name, attr, path, 0);
    }
  }

  lemma {:induction false} ElemsTidy(c: Ctx, item: Item, elems: seq<Value>, name: string, attr: AttrDef, path: Elems,
                                     i: nat)
    requires Ready(c) && name in Names(c) && i <= |elems|
    ensures var trace := VisitElems(c, item, elems, name, attr, path, i).trace;
      Tidy(trace, path + [EP.Attribute(name)]) && FromIndex(trace, path + [EP.Attribute(name)], i)
    decreases Unused(c, path), 1, |elems| - i
  {
    hide Ready, Names, VisitValue;
    if i < |elems| {
      hide Tidy, FromIndex;
      ValueTidy(c, item, elems[i], name, attr, path, [EP.ArrayIndex(i)]);
      ElemsTidy(c, item, elems, name, attr, path, i + 1);
      ElementThenRest(VisitValue(c, item, elems[i], name, attr, path, [EP.ArrayIndex(i)]).trace,
                      VisitElems(c, item, elems, name, attr, path, i + 1).trace, path + [EP.Attribute(name)], i);
    }
  }

  lemma {:induction false} ValueTidy(c: Ctx, item: Item, v: Value, name: string, attr: AttrDef, path: Elems,
                                     index: Elems)
    requires Ready(c) && name in Names(c)
    requires |index| <= 1 && forall i | 0 <= i < |index| :: index[i].ArrayIndex?
    ensures Tidy(VisitValue(c, item, v, name, attr, path, index).trace, path + [EP.Attribute(name)] + index)
    decreases Unused(c, path), 0
  {
    hide Ready, Names, Tidy, VisitItem, PrimitiveStep, ObjectObservable, Judged, MayGenerateAt;
    var at := path + [EP.Attribute(name)] + index;
    var enumFindings := if attr.enum.Some? then Judged(c, OnEnum, at, item, v) else [];
    var trace := VisitValue(c, item, v, name, attr, path, index).trace;
    JudgedQuiet(c, OnEnum, at, item, v);
    if attr.typ != "object_t" {
      PrimitiveTidy(c, item, v, name, attr, at, OnPrimitive);
      TidyWithin(enumFindings, PrimitiveStep(c, item, v, name, attr, at, OnPrimitive), [], at);
      assert trace + [] == trace;
    } else if !v.Obj? || attr.objectType == None || attr.objectType.value !in c.cat.objects || EP.PriorAttribute(at, name) {
      JudgedQuiet(c, OnObjectWrongType, at, item, v);
      JudgedQuiet(c, OnSchemaMissing, at, item, v);
      TidyQuiet(trace, at);
    } else {
      var objectDef := c.cat.objects[attr.objectType.value];
      UnusedShrinks(c, path, name, index);
      ObjectKnown(c, attr.objectType.value);
      WalkOnce(c, v.fields, objectDef.item, at);
      var inner := VisitItem(c, v.fields, objectDef.item, at);
      var own := if c.observables == Add then ObjectObservable(c, at, name, attr, objectDef) else [];
      var before, after := Judged(c, OnObject, at, v.fields, v), Judged(c, OnObjectDone, at, inner.item, Null);
      JudgedQuiet(c, OnObject, at, v.fields, v);
      JudgedQuiet(c, OnObjectDone, at, inner.item, Null);
      OwnThenInner(c, at, name, attr, objectDef, own, before, inner.trace);
      TidyWithin(enumFindings, own + before + inner.trace, after, at);
      assert trace == enumFindings + (own + before + inner.trace) + after;
    }
  }

  /** An object's own observation comes before those inside it. */
  lemma OwnThenInner(c: Ctx, at: Elems, name: string, attr: AttrDef, def: ObjectDef, own: seq<Effect>,
                     judged: seq<Effect>,
                     inner: seq<Effect>)
    requires own == [] || own == ObjectObservable(c, at, name, attr, def)
    requires Quiet(judged) && Tidy(inner, at) && forall e | e in inner && e.Observe? :: at < e.path
    ensures Tidy(own + judged + inner, at)
  {
    hide ObservableType;
    assert |own| <= 1 && forall e | e in own :: e.Observe? && e.path == at;
    hide ObjectObservable;
    TidyQuiet(judged, at);
    TidyJoin(own, judged, at);
    TidyJoin(own + judged, inner, at);
  }

  // ----- Runs -----

  lemma {:induction false} ObservationsDistinct(trace: seq<Effect>)
    requires Distinct(trace)
    ensures forall i, j | 0 <= i < j < |Observations(trace)| :: Observations(trace)[i].path != Observations(trace)[j].path
  {
    if trace != [] {
      var n := |trace| - 1;
      var init := trace[..n];
      assert forall i | 0 <= i < n :: init[i] == trace[i];
      ObservationsDistinct(init);
      if trace[n].Observe? {
        forall e | e in Observations(init) ensures e.path != trace[n].path {
          var i :| 0 <= i < n && init[i] == e;
          assert trace[i].path != trace[n].path;
        }
      }
    }
  }

  /** What a run generates are observations of pairwise different places: each one the schema calls for, once. */
  lemma GeneratedOnce(c: Ctx, event: Item)
    requires Ready(c)
    ensures var observed := Observations(Walked(c, event).trace);
      forall i, j | 0 <= i < j < |observed| :: observed[i].path != observed[j].path
  {
    hide Ready, VisitItem;
    ClassKnown(c);
    if RequiresWalk(c) {
      WalkOnce(c, Begun(c, event).item, c.cls.item, []);
      ObservationsDistinct(Walked(c, event).trace);
    }
  }
}
