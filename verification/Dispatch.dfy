/** The hooks of the walk: each runs every mutation dispatcher in order and does, together, what the two component
    actions ask for. */
module Dispatch {
  import opened Text
  import opened Values
  import opened NumericEnum
  import opened Schema
  import opened Walk
  import opened Run
  import opened Mutations
  import opened Reporting
  import opened Context
  import opened Enrichment
  import opened EnrichmentRemoval
  import EP = EventPath

  /** What the observables component makes of a pair's sibling once the pair has settled. */
  ghost function PairObserved(c: Ctx, item: Item, def: ItemDef, s: string, path: Elems): seq<Effect>
    requires s in def.attributes
  {
    if c.observables == Add && Attribute(item, s).Some?
    then SiblingObservables(c, path + [EP.Attribute(s)], s, def.attributes[s], item[s]) else []
  }

  ghost predicate Linked(c: Ctx, def: ItemDef, e: string, s: string) {
    Known(c, def) && e in def.attributes && s in def.attributes && def.attributes[e].enum.Some?
  }

  function IndexOfEnum(def: ItemDef, e: string): Option<Index> {
    if e in def.numeric then Some(def.numeric[e]) else None
  }

  lemma LinkedIndexed(c: Ctx, def: ItemDef, e: string, s: string)
    requires Linked(c, def, e, s)
    ensures IndexFits(def.attributes[e], IndexOfEnum(def, e))
  {
    hide Compiled, LinkOf, Unshared, Ascending;
  }

  method AddPair(ctx: ProcessContext, item: Item, def: ItemDef, e: string, s: string) returns (r: Item)
    requires ctx.Valid() && Linked(ctx.c, def, e, s) && ctx.c.enums == Add
    modifies ctx`numberStyleKnown, ctx`numberUsesFloatSyntax, ctx.result, ctx.path.Repr()
    ensures ctx.Valid() && ctx.At() == old(ctx.At())
    ensures r == EnumStep(ctx.c, item, e, def.attributes[e], s).item
    ensures ctx.State() == ctx.After(old(ctx.State()), EnumStep(ctx.c, item, e, def.attributes[e], s).trace)
  {
    hide ProcessContext.After, EnumStep, Linked;
    ghost var at := ctx.At();
    NothingToAdd(ctx.c, item, def, e, s);
    Onward(ctx, ctx.State(), [], []);
    r := item;
    if Attribute(item, e).Some? {
      ctx.PushAttribute(e);
      r := AddPresentPair(ctx, item, def, e, s);
      ctx.Pop(at, EP.Attribute(e));
    }
  }

  lemma NothingToAdd(c: Ctx, item: Item, def: ItemDef, e: string, s: string)
    requires c.enums == Add && Linked(c, def, e, s)
    ensures e in def.attributes && s in def.attributes
    ensures Attribute(item, e) == None ==> EnumStep(c, item, e, def.attributes[e], s) == Outcome(item, [])
  {
    hide Known;
  }

  method AddPresentPair(ctx: ProcessContext, item: Item, def: ItemDef, e: string, s: string) returns (r: Item)
    requires ctx.Valid() && Linked(ctx.c, def, e, s) && ctx.c.enums == Add && Attribute(item, e).Some?
    modifies ctx`numberStyleKnown, ctx`numberUsesFloatSyntax, ctx.result
    ensures ctx.Valid() && r == EnumStep(ctx.c, item, e, def.attributes[e], s).item
    ensures ctx.State() == ctx.After(old(ctx.State()), EnumStep(ctx.c, item, e, def.attributes[e], s).trace)
  {
    hide ProcessContext.After, AddScalarSibling, AddArraySibling, Known, IndexFits;
    LinkedIndexed(ctx.c, def, e, s);
    if def.attributes[e].isArray {
      r := AddEnumArraySibling(ctx, item, def.attributes[e], IndexOfEnum(def, e), s, item[e]);
    } else {
      r := AddEnumSibling(ctx, item, def.attributes[e], IndexOfEnum(def, e), s, item[e]);
    }
  }

  method ObservePair(ctx: ProcessContext, item: Item, def: ItemDef, s: string)
    requires ctx.Valid() && s in def.attributes && ctx.c.observables == Add
    modifies ctx`observables, ctx.result, ctx.path.Repr()
    ensures ctx.Valid() && ctx.At() == old(ctx.At())
    ensures ctx.State() == ctx.After(old(ctx.State()), PairObserved(ctx.c, item, def, s, ctx.At()))
  {
    hide ProcessContext.After, SiblingObservables;
    Onward(ctx, ctx.State(), [], []);
    var value := Attribute(item, s);
    if value.Some? {
      ghost var at := ctx.At();
      ctx.PushAttribute(s);
      AddSiblingObservables(ctx, s, def.attributes[s], value.value);
      ctx.Pop(at, EP.Attribute(s));
    }
  }

  /** What one dispatcher reports on a pair. */
  ghost function PairTrace(c: Ctx, d: Dispatcher, item: Item, after: Item, def: ItemDef, e: string, s: string, path: Elems): seq<Effect>
    requires e in def.attributes && s in def.attributes
  {
    (if d.siblings then EnumStep(c, item, e, def.attributes[e], s).trace else [])
    + if d.observables then PairObserved(c, after, def, s, path) else []
  }

  method OnEnumSiblingPairAttributes(ctx: ProcessContext, d: Dispatcher, item: Item, def: ItemDef, e: string, s: string)
    returns (r: Item)
    requires ctx.Valid() && Linked(ctx.c, def, e, s) && d.action != NoAction
    requires d.siblings ==> d.action == ctx.c.enums
    requires d.observables ==> d.action == ctx.c.observables
    modifies ctx.Repr()
    ensures ctx.Valid() && ctx.At() == old(ctx.At())
    ensures r == if d.siblings then EnumStep(ctx.c, item, e, def.attributes[e], s).item else item
    ensures ctx.State() == ctx.After(old(ctx.State()), PairTrace(ctx.c, d, item, r, def, e, s, ctx.At()))
  {
    hide ProcessContext.After, EnumStep, PairObserved, Linked;
    LinkedBoth(ctx.c, def, e, s);
    ghost var before := ctx.State();
    Onward(ctx, before, [], []);
    r := item;
    if d.siblings {
      r := StepPair(ctx, item, def, e, s);
    }
    ghost var stepped := if d.siblings then EnumStep(ctx.c, item, e, def.attributes[e], s).trace else [];
    ghost var observed := if d.observables then PairObserved(ctx.c, r, def, s, ctx.At()) else [];
    Onward(ctx, before, stepped, observed);
    Onward(ctx, ctx.State(), [], []);
    if d.observables && d.action == Add {
      ObservePair(ctx, r, def, s);
    } else if d.observables {
      NotObserving(ctx.c, r, def, s, ctx.At());
    }
  }

  lemma NotObserving(c: Ctx, item: Item, def: ItemDef, s: string, path: Elems)
    requires s in def.attributes && c.observables != Add
    ensures PairObserved(c, item, def, s, path) == []
  {
  }

  lemma LinkedBoth(c: Ctx, def: ItemDef, e: string, s: string)
    requires Linked(c, def, e, s)
    ensures e in def.attributes && s in def.attributes
  {
    hide Known;
  }

  /** The enum step of a pair, whichever action it is. */
  method StepPair(ctx: ProcessContext, item: Item, def: ItemDef, e: string, s: string) returns (r: Item)
    requires ctx.Valid() && Linked(ctx.c, def, e, s) && ctx.c.enums != NoAction
    modifies ctx.Repr()
    ensures ctx.Valid() && ctx.At() == old(ctx.At())
    ensures e in def.attributes && r == EnumStep(ctx.c, item, e, def.attributes[e], s).item
    ensures ctx.State() == ctx.After(old(ctx.State()), EnumStep(ctx.c, item, e, def.attributes[e], s).trace)
  {
    hide ProcessContext.After, RemovePair, AddScalarSibling, AddArraySibling, IndexFits, Linked;
    LinkedBoth(ctx.c, def, e, s);
    LinkedIndexed(ctx.c, def, e, s);
    match ctx.c.enums
    case Add =>
      r := AddPair(ctx, item, def, e, s);
    case Remove =>
      r := RemoveEnumSiblingPair(ctx, item, e, def.attributes[e], IndexOfEnum(def, e), s, false);
    case ForceRemove =>
      r := RemoveEnumSiblingPair(ctx, item, e, def.attributes[e], IndexOfEnum(def, e), s, true);
  }

  lemma NoStep(c: Ctx, item: Item, e: string, attr: AttrDef, s: string)
    ensures c.enums == NoAction ==> EnumStep(c, item, e, attr, s) == Outcome(item, [])
  {
  }

  /** All dispatchers on a pair: the enum step, then the observables of what it left. */
  method DispatchPair(ctx: ProcessContext, item: Item, def: ItemDef, e: string, s: string) returns (r: Item)
    requires ctx.Valid() && Linked(ctx.c, def, e, s)
    modifies ctx.Repr()
    ensures ctx.Valid() && ctx.At() == old(ctx.At())
    ensures r == EnumStep(ctx.c, item, e, def.attributes[e], s).item
    ensures ctx.State() == ctx.After(old(ctx.State()),
      EnumStep(ctx.c, item, e, def.attributes[e], s).trace + PairObserved(ctx.c, r, def, s, ctx.At()))
  {
    hide ProcessContext.After, EnumStep, PairObserved, HandlesSiblings, HandlesObservables, Serves, Known;
    ghost var before, at := ctx.State(), ctx.At();
    var ds := ctx.mutations;
    ghost var step := EnumStep(ctx.c, item, e, def.attributes[e], s);
    ghost var observed := PairObserved(ctx.c, step.item, def, s, at);
    AllOfThem(ds, ctx.c.enums, ctx.c.observables);
    NoStep(ctx.c, item, e, def.attributes[e], s);
    Onward(ctx, before, [], []);
    ghost var none: seq<Effect> := [];
    assert none + none == none;
    r := item;
    for i := 0 to |ds|
      invariant ctx.Valid() && ctx.At() == at
      invariant r == if HandlesSiblings(ds[..i]) then step.item else item
      invariant ctx.State() == ctx.After(before,
        (if HandlesSiblings(ds[..i]) then step.trace else []) + if HandlesObservables(ds[..i]) then observed else [])
    {
      OneMore(ds, i, ctx.c.enums, ctx.c.observables);
      ghost var done := (if HandlesSiblings(ds[..i]) then step.trace else []) + if HandlesObservables(ds[..i]) then observed else [];
      ghost var was := r;
      r := OnEnumSiblingPairAttributes(ctx, ds[i], r, def, e, s);
      ghost var more := PairTrace(ctx.c, ds[i], was, r, def, e, s, at);
      Onward(ctx, before, done, more);
      Gathered(done, more, step.trace, observed, HandlesSiblings(ds[..i]), HandlesObservables(ds[..i]),
               ds[i].siblings, ds[i].observables);
    }
    NoObserved(ctx.c, r, def, s, at);
  }

  lemma Gathered(done: seq<Effect>, more: seq<Effect>, x: seq<Effect>, y: seq<Effect>, a: bool, b: bool, p: bool,
                 q: bool)
    requires done == (if a then x else []) + (if b then y else [])
    requires more == (if p then x else []) + (if q then y else [])
    requires p ==> !a && !b
    requires q ==> !b
    ensures done + more == (if a || p then x else []) + (if b || q then y else [])
  {
  }

  lemma NoObserved(c: Ctx, item: Item, def: ItemDef, s: string, path: Elems)
    requires s in def.attributes
    ensures c.observables == NoAction ==> PairObserved(c, item, def, s, path) == []
  {
  }

  // ----- Single attributes -----

  method DispatchPresent(ctx: ProcessContext, item: Item, def: ItemDef, name: string) returns (r: Item)
    requires ctx.Valid() && name in def.attributes
    modifies ctx.result
    ensures ctx.Valid() && r == RetainUnsupported(ctx.c, item, def, name).item
    ensures ctx.State() == ctx.After(old(ctx.State()), RetainUnsupported(ctx.c, item, def, name).trace)
  {
    hide ProcessContext.After, HandlesSiblings, HandlesObservables, Serves, RetainUnsupported;
    var ds := ctx.mutations;
    ghost var before, kept := ctx.State(), RetainUnsupported(ctx.c, item, def, name);
    AllOfThem(ds, ctx.c.enums, ctx.c.observables);
    OnlyRemovalRetains(ctx.c, item, def, name);
    Onward(ctx, before, [], []);
    r := item;
    for i := 0 to |ds|
      invariant ctx.Valid()
      invariant r == if HandlesSiblings(ds[..i]) then kept.item else item
      invariant ctx.State() == ctx.After(before, if HandlesSiblings(ds[..i]) then kept.trace else [])
    {
      OneMore(ds, i, ctx.c.enums, ctx.c.observables);
      if ds[i].siblings && ds[i].action != Add {
        r := RetainUnsupportedEnumSibling(ctx, r, def, name);
      }
    }
  }

  lemma OnlyRemovalRetains(c: Ctx, item: Item, def: ItemDef, name: string)
    requires name in def.attributes
    ensures c.enums == Add || c.enums == NoAction ==> RetainUnsupported(c, item, def, name) == Outcome(item, [])
  {
  }

  method DispatchPrimitive(ctx: ProcessContext, name: string, attr: AttrDef, v: Value)
    requires ctx.Valid()
    modifies ctx`observables, ctx.result
    ensures ctx.Valid()
    ensures ctx.State() == ctx.After(old(ctx.State()),
      if ctx.c.observables == Add && attr.enum == None then ScalarObservable(ctx.c, ctx.At(), name, attr, v) else [])
  {
    hide ProcessContext.After, HandlesSiblings, HandlesObservables, Serves, ScalarObservable;
    var ds := ctx.mutations;
    ghost var before, observed := ctx.State(), ScalarObservable(ctx.c, ctx.At(), name, attr, v);
    AllOfThem(ds, ctx.c.enums, ctx.c.observables);
    Onward(ctx, before, [], []);
    for i := 0 to |ds|
      invariant ctx.Valid()
      invariant ctx.State() == ctx.After(before,
        if HandlesObservables(ds[..i]) && ctx.c.observables == Add && attr.enum == None then observed else [])
    {
      OneMore(ds, i, ctx.c.enums, ctx.c.observables);
      if ds[i].action == Add && attr.enum == None && ds[i].observables {
        AddScalarValueObservable(ctx, name, attr, v);
      }
    }
  }

  method DispatchArrayWrongType(ctx: ProcessContext, name: string, attr: AttrDef)
    requires ctx.Valid()
    modifies ctx.result
    ensures ctx.Valid()
    ensures ctx.State() == ctx.After(old(ctx.State()),
      if ctx.c.observables == Add
         && (ObservableType(ctx.c, ctx.At(), name, attr).Some?
             || (attr.typ == "object_t" && MayGenerateAt(ctx.c, ctx.At(), name, attr)))
      then [Raise(ObservableNotAddedWrongType)] else [])
  {
    hide ProcessContext.After, HandlesSiblings, HandlesObservables, Serves, ObservableType, MayGenerateAt;
    var ds := ctx.mutations;
    ghost var before := ctx.State();
    ghost var wrong := ObservableType(ctx.c, ctx.At(), name, attr).Some?
      || (attr.typ == "object_t" && MayGenerateAt(ctx.c, ctx.At(), name, attr));
    AllOfThem(ds, ctx.c.enums, ctx.c.observables);
    Onward(ctx, before, [], []);
    for i := 0 to |ds|
      invariant ctx.Valid()
      invariant ctx.State() == ctx.After(before,
        if HandlesObservables(ds[..i]) && ctx.c.observables == Add && wrong then [Raise(ObservableNotAddedWrongType)] else [])
    {
      OneMore(ds, i, ctx.c.enums, ctx.c.observables);
      if ds[i].action == Add && ds[i].observables {
        Enrichment.OnArrayWrongType(ctx, name, attr);
      }
    }
  }

  method DispatchObject(ctx: ProcessContext, name: string, attr: AttrDef, def: ObjectDef)
    requires ctx.Valid()
    modifies ctx`observables
    ensures ctx.Valid()
    ensures ctx.State() == ctx.After(old(ctx.State()),
      if ctx.c.observables == Add then ObjectObservable(ctx.c, ctx.At(), name, attr, def) else [])
  {
    hide ProcessContext.After, HandlesSiblings, HandlesObservables, Serves, ObjectObservable;
    var ds := ctx.mutations;
    ghost var before, observed := ctx.State(), ObjectObservable(ctx.c, ctx.At(), name, attr, def);
    AllOfThem(ds, ctx.c.enums, ctx.c.observables);
    Onward(ctx, before, [], []);
    for i := 0 to |ds|
      invariant ctx.Valid()
      invariant ctx.State() == ctx.After(before,
        if HandlesObservables(ds[..i]) && ctx.c.observables == Add then observed else [])
    {
      OneMore(ds, i, ctx.c.enums, ctx.c.observables);
      if ds[i].action == Add && ds[i].observables {
        Enrichment.OnObject(ctx, name, attr, def);
      }
    }
  }

  method DispatchObjectWrongType(ctx: ProcessContext, name: string, attr: AttrDef)
    requires ctx.Valid()
    modifies ctx.result
    ensures ctx.Valid()
    ensures ctx.State() == ctx.After(old(ctx.State()),
      if ctx.c.observables == Add && MayGenerateAt(ctx.c, ctx.At(), name, attr)
      then [Raise(ObservableNotAddedWrongType)] else [])
  {
    hide ProcessContext.After, HandlesSiblings, HandlesObservables, Serves, MayGenerateAt;
    var ds := ctx.mutations;
    ghost var before, may := ctx.State(), MayGenerateAt(ctx.c, ctx.At(), name, attr);
    AllOfThem(ds, ctx.c.enums, ctx.c.observables);
    Onward(ctx, before, [], []);
    for i := 0 to |ds|
      invariant ctx.Valid()
      invariant ctx.State() == ctx.After(before,
        if HandlesObservables(ds[..i]) && ctx.c.observables == Add && may then [Raise(ObservableNotAddedWrongType)] else [])
    {
      OneMore(ds, i, ctx.c.enums, ctx.c.observables);
      if ds[i].action == Add && ds[i].observables {
        Enrichment.OnObjectWrongType(ctx, name, attr);
      }
    }
  }

  // ----- The class -----

  method RemoveObservablesBy(ctx: ProcessContext, d: Dispatcher, event: Item) returns (r: Item)
    requires ctx.Valid() && d.observables && d.action == ctx.c.observables
    modifies ctx`limitReported, ctx.result
    ensures ctx.Valid() && r == RemoveObservables(ctx.c, event).item
    ensures ctx.State() == ctx.After(old(ctx.State()), RemoveObservables(ctx.c, event).trace)
  {
    hide ProcessContext.After, RemoveSafely, RemoveForcibly;
    Onward(ctx, ctx.State(), [], []);
    r := event;
    match d.action
    case Remove => r := RemoveObservablesSafely(ctx, event);
    case ForceRemove => r := ForceRemoveObservablesWithoutAnalysis(ctx, event);
    case _ =>
  }

  /** Before the walk (`deferred` false) or after it (`deferred` true): the observables removal that is due then. */
  method DispatchClass(ctx: ProcessContext, event: Item, deferred: bool) returns (r: Item)
    requires ctx.Valid()
    modifies ctx`limitReported, ctx.result
    ensures ctx.Valid()
    ensures r == if deferred == Deferred(ctx.c) then RemoveObservables(ctx.c, event).item else event
    ensures ctx.State() == ctx.After(old(ctx.State()),
      if deferred == Deferred(ctx.c) then RemoveObservables(ctx.c, event).trace else [])
  {
    hide ProcessContext.After, HandlesSiblings, HandlesObservables, Serves, RemoveObservables;
    var ds := ctx.mutations;
    ghost var before, removed := ctx.State(), RemoveObservables(ctx.c, event);
    AllOfThem(ds, ctx.c.enums, ctx.c.observables);
    OnlyRemovalRemoves(ctx.c, event);
    Onward(ctx, before, [], []);
    r := event;
    for i := 0 to |ds|
      invariant ctx.Valid()
      invariant r == if HandlesObservables(ds[..i]) && deferred == Deferred(ctx.c) then removed.item else event
      invariant ctx.State() == ctx.After(before,
        if HandlesObservables(ds[..i]) && deferred == Deferred(ctx.c) then removed.trace else [])
    {
      OneMore(ds, i, ctx.c.enums, ctx.c.observables);
      if ds[i].action != Add && ds[i].deferred == deferred && ds[i].observables {
        r := RemoveObservablesBy(ctx, ds[i], r);
      }
    }
  }

  lemma OnlyRemovalRemoves(c: Ctx, event: Item)
    ensures c.observables == Add || c.observables == NoAction ==> RemoveObservables(c, event) == Outcome(event, [])
  {
  }
}
