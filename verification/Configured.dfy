/** What a run may do under its configuration: each effect only where the configuration asks for it. */
module Configured {
  import opened Text
  import opened Values
  import opened Schema
  import opened Walk
  import opened ObservablePath
  import opened Definedness
  import opened Analysis
  import opened Collection
  import opened Run
  import EP = EventPath

  /** The configuration asks for such effects. */
  predicate AskedFor(c: Ctx, e: Effect) {
    match e
    case Observe(_, _, _) => c.observables == Add
    case Find(_) => c.validating
    case SiblingAdded => c.enums == Add
    case SiblingRemoved => c.enums == Remove || c.enums == ForceRemove
    case SiblingRetained => c.enums == Remove || c.enums == ForceRemove
    case ObservablesAdded(_) => c.observables == Add
    case ObservablesRemoved(_) => c.observables == Remove || c.observables == ForceRemove
    case ObservablesRetained(_) => c.observables == Remove
    case Raise(issue) => IssueAskedFor(c, issue)
    case ReachLimit => c.enums != NoAction || c.observables in {Add, Remove} || c.validating
  }

  predicate IssueAskedFor(c: Ctx, issue: IssueCode) {
    match issue
    case EnumSiblingNotAdded => c.enums == Add
    case EnumSiblingOtherAdded => c.enums == Add
    case EnumSiblingNotRemoved => c.enums == Remove || c.enums == ForceRemove
    case ObservableNotAddedWrongType => c.observables == Add
    case ObservableNotAddedJSONType => c.observables == Add
    case ObservablesNotAddedWrongType => c.observables == Add
    case ObservableDuplicateSkipped => c.observables == Add
    case EventTraversalLimited => false
    case ClassUIDMissing => false
    case ClassUIDWrongType => false
    case ClassUIDUnknown => false
    case _ => c.observables == Remove
  }

  predicate AllAskedFor(c: Ctx, trace: seq<Effect>) {
    forall e | e in trace :: AskedFor(c, e)
  }

  /** What only comes before or after the walk: entries added, removed or retained, and the issues of these. */
  predicate OfRun(e: Effect) {
    || e.ObservablesAdded? || e.ObservablesRemoved? || e.ObservablesRetained?
    || (e.Raise? && e.issue !in {ObservableNotAddedWrongType, ObservableNotAddedJSONType,
                                 EnumSiblingNotAdded, EnumSiblingOtherAdded, EnumSiblingNotRemoved})
  }

  predicate ByWalk(c: Ctx, e: Effect) {
    AskedFor(c, e) && !OfRun(e)
  }

  predicate AllByWalk(c: Ctx, trace: seq<Effect>) {
    forall e | e in trace :: ByWalk(c, e)
  }

  lemma JudgedAsked(c: Ctx, hook: Hook, path: Elems, item: Item, v: Value)
    ensures AllByWalk(c, Judged(c, hook, path, item, v))
  {
  }

  lemma {:induction false} ArrayRemovalAsked(c: Ctx, item: Item, attr: AttrDef, s: string, elems: seq<Value>,
                                             siblings: seq<Value>, force: bool, i: nat)
    requires i <= |elems| && (force || |elems| == |siblings|) && (c.enums == Remove || c.enums == ForceRemove)
    ensures AllByWalk(c, RemoveArray(c, item, attr, s, elems, siblings, force, i).trace)
    decreases |elems| - i
  {
    hide LookupEnum;
    if i < |elems| {
      ArrayRemovalAsked(c, item, attr, s, elems, siblings, force, i + 1);
    }
  }

  lemma StepAsked(c: Ctx, item: Item, e: string, attr: AttrDef, s: string)
    ensures AllByWalk(c, EnumStep(c, item, e, attr, s).trace)
  {
    hide RemoveArray, LookupEnum;
    var force := c.enums == ForceRemove;
    if (c.enums == Remove || c.enums == ForceRemove) && s in item && attr.isArray && item[s].Arr? && Attribute(item, e).Some?
       && item[e].Arr? && (force || |item[e].elems| == |item[s].elems|) {
      ArrayRemovalAsked(c, item, attr, s, item[e].elems, item[s].elems, force, 0);
    }
  }

  lemma {:induction false} ElementsAsked(c: Ctx, path: Elems, name: string, attr: AttrDef, elems: seq<Value>, i: nat)
    requires i <= |elems| && c.observables == Add
    ensures AllByWalk(c, ArrayObservables(c, path, name, attr, elems, i))
    decreases |elems| - i
  {
    if i < |elems| {
      ElementsAsked(c, path, name, attr, elems, i + 1);
      ScalarAsked(c, path + [EP.ArrayIndex(i)], name, attr, elems[i]);
    }
    hide ScalarObservable;
  }

  lemma ScalarAsked(c: Ctx, path: Elems, name: string, attr: AttrDef, v: Value)
    requires c.observables == Add
    ensures AllByWalk(c, ScalarObservable(c, path, name, attr, v))
  {
    hide ObservableType;
  }

  lemma PairAsked(c: Ctx, item: Item, def: ItemDef, e: string, s: string, path: Elems)
    requires e in def.attributes && s in def.attributes
    ensures AllByWalk(c, VisitPair(c, item, def, e, s, path).trace)
  {
    hide EnumStep, Judged, ArrayObservables, ScalarObservable, ObservableType;
    var step := EnumStep(c, item, e, def.attributes[e], s);
    StepAsked(c, item, e, def.attributes[e], s);
    JudgedAsked(c, OnPair(s), path + [EP.Attribute(e)], step.item, Null);
    if c.observables == Add && Attribute(step.item, s).Some? {
      ScalarAsked(c, path + [EP.Attribute(s)], s, def.attributes[s], step.item[s]);
      if step.item[s].Arr? {
        ElementsAsked(c, path + [EP.Attribute(s)], s, def.attributes[s], step.item[s].elems, 0);
      }
    }
  }

  lemma PrimitiveAsked(c: Ctx, item: Item, v: Value, name: string, attr: AttrDef, path: Elems, hook: Hook)
    ensures AllByWalk(c, PrimitiveStep(c, item, v, name, attr, path, hook))
  {
    hide Judged, ScalarObservable;
    JudgedAsked(c, hook, path, item, v);
    if c.observables == Add {
      ScalarAsked(c, path, name, attr, v);
    }
  }

  lemma {:induction false} ScalarElemsAsked(c: Ctx, item: Item, elems: seq<Value>, name: string, attr: AttrDef,
                                            path: Elems, i: nat)
    requires i <= |elems|
    ensures AllByWalk(c, VisitScalarElems(c, item, elems, name, attr, path, i))
    decreases |elems| - i
  {
    hide Judged, PrimitiveStep;
    if i < |elems| {
      var at := path + [EP.ArrayIndex(i)];
      JudgedAsked(c, OnElementEnum, at, item, elems[i]);
      PrimitiveAsked(c, item, elems[i], name, attr, at, OnElementPrimitive);
      ScalarElemsAsked(c, item, elems, name, attr, path, i + 1);
    }
  }

  /** The walk is made only when something asks for it. */
  predicate Walking(c: Ctx) {
    c.enums != NoAction || c.observables == Add || c.validating
  }

  lemma {:induction false} WalkAsked(c: Ctx, item: Item, def: ItemDef, names: seq<string>, path: Elems)
    requires Ready(c) && Known(c, def) && Walking(c) && forall n | n in names :: n in def.attributes
    ensures AllByWalk(c, VisitFrom(c, item, def, names, path).trace)
    decreases Unused(c, path), 4, |names|
  {
    hide Ready, Known, Unused, VisitOne, ByWalk;
    if names != [] {
      OneAsked(c, item, def, names[0], path);
      WalkAsked(c, VisitOne(c, item, def, names[0], path).item, def, names[1..], path);
    }
  }

  lemma {:induction false} OneAsked(c: Ctx, item: Item, def: ItemDef, name: string, path: Elems)
    requires Ready(c) && Known(c, def) && Walking(c) && name in def.attributes
    ensures AllByWalk(c, VisitOne(c, item, def, name, path).trace)
    decreases Unused(c, path), 3
  {
    hide Ready, Known, Unused, VisitPresent, VisitPair, Judged, ByWalk, Names, Active;
    var at := path + [EP.Attribute(name)];
    match DispatchOf(def, c.profiles, name)
    case Inactive =>
      if Attribute(item, name).Some? {
        JudgedAsked(c, OnInactive, at, item, item[name]);
      }
    case Owned =>
    case Pair(s) =>
      PairKnown(c, def, name);
      PairAsked(c, item, def, name, s, path);
    case Single =>
      JudgedAsked(c, OnMissing, at, item, Null);
      if Attribute(item, name).Some? {
        var kept := RetainUnsupported(c, item, def, name);
        RetentionAsked(c, item, def, name);
        KnownName(c, def, name);
        JudgedAsked(c, OnPresent, at, kept.item, item[name]);
        PresentAsked(c, kept.item, item[name], name, def.attributes[name], path);
      }
  }

  lemma RetentionAsked(c: Ctx, item: Item, def: ItemDef, name: string)
    requires name in def.attributes
    ensures AllByWalk(c, RetainUnsupported(c, item, def, name).trace)
  {
  }

  lemma {:induction false} PresentAsked(c: Ctx, item: Item, v: Value, name: string, attr: AttrDef, path: Elems)
    requires Ready(c) && name in Names(c) && Walking(c)
    ensures AllByWalk(c, VisitPresent(c, item, v, name, attr, path).trace)
    decreases Unused(c, path), 2
  {
    hide Ready, Unused, VisitValue, VisitElems, VisitScalarElems, Names, Walk.ArrayWrongType, ByWalk;
    var at := path + [EP.Attribute(name)];
    if !attr.isArray {
      ValueAsked(c, item, v, name, attr, path, []);
    } else if !v.Arr? {
      WrongArrayAsked(c, item, v, name, attr, at);
    } else if ScalarArray(attr) {
      ScalarElemsAsked(c, item, v.elems, name, attr, at, 0);
    } else {
      ElemsAsked(c, item, v.elems, name, attr, path, 0);
    }
  }

  lemma WrongArrayAsked(c: Ctx, item: Item, v: Value, name: string, attr: AttrDef, path: Elems)
    ensures AllByWalk(c, Walk.ArrayWrongType(c, item, v, name, attr, path))
  {
    hide Judged, ObservableType, MayGenerateAt;
    JudgedAsked(c, OnArrayWrongType, path, item, v);
  }

  lemma {:induction false} ElemsAsked(c: Ctx, item: Item, elems: seq<Value>, name: string, attr: AttrDef, path: Elems,
                                      i: nat)
    requires Ready(c) && name in Names(c) && Walking(c) && i <= |elems|
    ensures AllByWalk(c, VisitElems(c, item, elems, name, attr, path, i).trace)
    decreases Unused(c, path), 1, |elems| - i
  {
    hide Ready, Unused, VisitValue, Names, ByWalk;
    if i < |elems| {
      ValueAsked(c, item, elems[i], name, attr, path, [EP.ArrayIndex(i)]);
      ElemsAsked(c, item, elems, name, attr, path, i + 1);
    }
  }

  lemma {:induction false} ValueAsked(c: Ctx, item: Item, v: Value, name: string, attr: AttrDef, path: Elems, index: Elems)
    requires Ready(c) && name in Names(c) && Walking(c)
    requires |index| <= 1 && forall i | 0 <= i < |index| :: index[i].ArrayIndex?
    ensures AllByWalk(c, VisitValue(c, item, v, name, attr, path, index).trace)
    decreases Unused(c, path), 0
  {
    hide Ready, Unused, Names, Judged, MayGenerateAt, ObjectObservable, PrimitiveStep, VisitFrom, EP.PriorAttribute;
    var at := path + [EP.Attribute(name)] + index;
    JudgedAsked(c, OnEnum, at, item, v);
    if attr.typ != "object_t" {
      PrimitiveAsked(c, item, v, name, attr, at, OnPrimitive);
    } else if !v.Obj? {
      JudgedAsked(c, OnObjectWrongType, at, item, v);
    } else if attr.objectType.Some? && attr.objectType.value !in c.cat.objects {
      JudgedAsked(c, OnSchemaMissing, at, item, v);
    } else if attr.objectType.Some? && !EP.PriorAttribute(at, name) {
      UnusedShrinks(c, path, name, index);
      ObjectKnown(c, attr.objectType.value);
      var def := c.cat.objects[attr.objectType.value];
      KnownOrder(c, def.item);
      WalkAsked(c, v.fields, def.item, def.item.ordered, at);
      ObjectAsked(c, at, name, attr, def);
      JudgedAsked(c, OnObject, at, v.fields, v);
      JudgedAsked(c, OnObjectDone, at, VisitItem(c, v.fields, def.item, at).item, Null);
    }
  }

  lemma ObjectAsked(c: Ctx, at: Elems, name: string, attr: AttrDef, def: ObjectDef)
    ensures c.observables == Add ==> AllByWalk(c, ObjectObservable(c, at, name, attr, def))
  {
    hide ObservableType;
  }

  // ----- Whole runs -----

  lemma {:induction false} AllIssuesAsked(c: Ctx, entries: seq<Entry>)
    requires c.observables == Remove
    ensures AllAskedFor(c, AllIssues(entries))
  {
    if entries != [] {
      AllIssuesAsked(c, entries[..|entries| - 1]);
    }
  }

  lemma RemovalAsked(c: Ctx, item: Item)
    ensures AllAskedFor(c, RemoveObservables(c, item).trace)
  {
    hide AllIssues, EntriesOf, Keep, Flags;
    if c.observables == Remove && Slot(item, OBSERVABLES).Some? {
      AllIssuesAsked(c, EntriesOf(item, item[OBSERVABLES], ScopeOf(c)));
    }
  }

  lemma {:induction false} FindingsAsked(c: Ctx, preferred: Option<EP.Style>, entries: seq<Entry>)
    requires c.validating
    ensures AllByWalk(c, AllFindings(c, preferred, entries))
  {
    hide UsesNotation;
    if entries != [] {
      FindingsAsked(c, preferred, entries[..|entries| - 1]);
    }
  }

  lemma {:induction false} SuffixAsked(c: Ctx, preferred: EP.Style, raws: seq<Value>)
    requires c.validating
    ensures AllByWalk(c, SuffixNotation(c, preferred, raws))
  {
    hide UsesNotation, ReadName;
    if raws != [] {
      SuffixAsked(c, preferred, raws[..|raws| - 1]);
    }
  }

  lemma ValidationAsked(c: Ctx, preferred: Option<EP.Style>, event: Item, start: Option<nat>)
    requires c.validating
    ensures AllByWalk(c, ValidateObservables(c, preferred, event, start))
  {
    hide AllFindings, SuffixNotation, AnalyzeEntry, ByWalk;
    if Attribute(event, OBSERVABLES).Some? {
      var v := event[OBSERVABLES];
      var entries := EntriesOf(event, v, ScopeOf(c));
      FindingsAsked(c, preferred, entries);
      if start.Some? && v.Arr? && start.value < |v.elems| {
        FindingsAsked(c, preferred, entries[..start.value]);
        if preferred.Some? {
          SuffixAsked(c, preferred.value, v.elems[start.value..]);
        }
      }
    }
  }

  lemma AdditionAsked(c: Ctx, item: Item, generated: seq<Value>)
    requires c.observables == Add
    ensures AllAskedFor(c, AddObservables(c.decimal, item, generated).trace)
  {
    hide Keep, Fresh;
  }

  /** No run does anything its configuration does not ask for: it observes and adds entries only when it is to add
      observables, removes or retains only what it is to remove, raises the issues of these actions only, and finds
      something only when it validates. */
  lemma RunAskedFor(p: Pipeline, c: Ctx, event: Item)
    requires Ready(c)
    ensures AllAskedFor(c, Process(p, c, event).trace)
  {
    hide Ready, VisitFrom, RemoveObservables, AddObservables, ValidateObservables, Judged, AskedFor, OfRun, Generated;
    ClassKnown(c);
    RemovalAsked(c, event);
    var begun, walked, closed, finished := Begun(c, event), Walked(c, event), Closed(c, event), Finished(p, c, event);
    RemovalAsked(c, walked.item);
    JudgedAsked(c, OnClass, [], begun.item, Null);
    JudgedAsked(c, OnClassDone, [], closed.item, Null);
    JudgedAsked(c, OnEventDone, [], finished.item, Null);
    if RequiresWalk(c) {
      KnownOrder(c, c.cls.item);
      WalkAsked(c, begun.item, c.cls.item, c.cls.item.ordered, []);
    }
    if c.observables == Add {
      AdditionAsked(c, closed.item, Generated(p, c, event));
    }
    if c.validating {
      ValidationAsked(c, p.preferred, finished.item, finished.start);
    }
  }
}
