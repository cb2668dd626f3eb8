/** The processor that adds enum siblings and observables, as it changes the context and the event step by step. */
module Enrichment {
  import opened Text
  import opened Values
  import opened NumericEnum
  import opened TypeInheritance
  import opened Schema
  import opened Observability
  import opened Walk
  import opened Context
  import CT = ClassTrie
  import EP = EventPath

  method ObservableTypeID(ctx: ProcessContext, name: string, attr: AttrDef) returns (id: Option<int64>)
    requires ctx.Valid()
    ensures id == ObservableType(ctx.c, ctx.At(), name, attr)
  {
    var own := TypeID(ctx.c.cat, name, attr);
    if own.Some? {
      return if Allows(ctx.c.allowed, own.value) then own else None;
    }
    CT.DeclarationsAnswer(ctx.c, ctx.decls, ctx.At());
    id := CT.TypeIDOf(ctx.trie, ctx.path, ctx.decls);
  }

  method MayGenerateHere(ctx: ProcessContext, name: string, attr: AttrDef) returns (r: bool)
    requires ctx.Valid()
    ensures r <==> MayGenerateAt(ctx.c, ctx.At(), name, attr)
  {
    CT.DeclarationsAnswer(ctx.c, ctx.decls, ctx.At());
    var declared := CT.HasDeclarationAtOrBelow(ctx.trie, ctx.path, ctx.decls);
    if declared {
      return true;
    }
    r := AttributeMayGenerateWith(ctx.c.cat, ctx.c.allowed, name, attr, ctx.generating);
  }

  method AddScalarValueObservable(ctx: ProcessContext, name: string, attr: AttrDef, v: Value)
    requires ctx.Valid()
    modifies ctx`observables, ctx.result
    ensures ctx.Valid() && ctx.State() == ctx.After(old(ctx.State()), ScalarObservable(ctx.c, ctx.At(), name, attr, v))
  {
    hide ObservableType, DerivedFrom, ProcessContext.After;
    Onward(ctx, ctx.State(), [], []);
    var id := ObservableTypeID(ctx, name, attr);
    if id == None {
      return;
    }
    var json := TypeDerivedFrom(ctx.c.cat.types, attr.typ, "json_t");
    if json {
      ctx.Raise(ObservableNotAddedJSONType);
      return;
    }
    var text := FormatScalar(v);
    if text == None || (text.value == "" && !v.Str?) {
      ctx.Raise(ObservableNotAddedWrongType);
      return;
    }
    ctx.AddObservable(id.value, text);
  }

  method AddArrayValueObservables(ctx: ProcessContext, name: string, attr: AttrDef, elems: seq<Value>)
    requires ctx.Valid()
    modifies ctx`observables, ctx.result, ctx.path.Repr()
    ensures ctx.Valid() && ctx.At() == old(ctx.At())
    ensures ctx.State() == ctx.After(old(ctx.State()), ArrayObservables(ctx.c, ctx.At(), name, attr, elems, 0))
  {
    hide ScalarObservable, ProcessContext.After;
    ghost var before, at := ctx.State(), ctx.At();
    ghost var whole := ArrayObservables(ctx.c, at, name, attr, elems, 0);
    for i := 0 to |elems|
      invariant ctx.Valid() && ctx.At() == at
      invariant ctx.After(before, whole) == ctx.After(ctx.State(), ArrayObservables(ctx.c, at, name, attr, elems, i))
    {
      ghost var here := at + [EP.ArrayIndex(i)];
      Onward(ctx, ctx.State(), ScalarObservable(ctx.c, here, name, attr, elems[i]),
             ArrayObservables(ctx.c, at, name, attr, elems, i + 1));
      ctx.PushArrayIndex(i);
      AddScalarValueObservable(ctx, name, attr, elems[i]);
      ctx.Pop(at, EP.ArrayIndex(i));
    }
    Onward(ctx, ctx.State(), [], []);
  }

  /** The observables of a pair's sibling, at the sibling's own path. */
  method AddSiblingObservables(ctx: ProcessContext, name: string, attr: AttrDef, v: Value)
    requires ctx.Valid()
    modifies ctx`observables, ctx.result, ctx.path.Repr()
    ensures ctx.Valid() && ctx.At() == old(ctx.At())
    ensures ctx.State() == ctx.After(old(ctx.State()), SiblingObservables(ctx.c, ctx.At(), name, attr, v))
  {
    hide ScalarObservable, ArrayObservables, ObservableType, ProcessContext.After;
    Onward(ctx, ctx.State(), [], []);
    if !attr.isArray {
      AddScalarValueObservable(ctx, name, attr, v);
      return;
    }
    if !v.Arr? {
      var id := ObservableTypeID(ctx, name, attr);
      if id.Some? {
        ctx.Raise(ObservableNotAddedWrongType);
      }
      return;
    }
    AddArrayValueObservables(ctx, name, attr, v.elems);
  }

  method OnObject(ctx: ProcessContext, name: string, attr: AttrDef, def: ObjectDef)
    requires ctx.Valid()
    modifies ctx`observables
    ensures ctx.Valid() && ctx.State() == ctx.After(old(ctx.State()), ObjectObservable(ctx.c, ctx.At(), name, attr, def))
  {
    hide ObservableType, ProcessContext.After;
    Onward(ctx, ctx.State(), [], []);
    if def.observable.Some? {
      if Allows(ctx.c.allowed, def.observable.value) {
        ctx.AddObservable(def.observable.value, None);
      }
    } else {
      var id := ObservableTypeID(ctx, name, attr);
      if id.Some? {
        ctx.AddObservable(id.value, None);
      }
    }
  }

  method OnObjectWrongType(ctx: ProcessContext, name: string, attr: AttrDef)
    requires ctx.Valid()
    modifies ctx.result
    ensures ctx.Valid()
    ensures ctx.State() == ctx.After(old(ctx.State()),
      if MayGenerateAt(ctx.c, ctx.At(), name, attr) then [Raise(ObservableNotAddedWrongType)] else [])
  {
    hide MayGenerateAt, ProcessContext.After;
    Onward(ctx, ctx.State(), [], []);
    var may := MayGenerateHere(ctx, name, attr);
    if may {
      ctx.Raise(ObservableNotAddedWrongType);
    }
  }

  method OnArrayWrongType(ctx: ProcessContext, name: string, attr: AttrDef)
    requires ctx.Valid()
    modifies ctx.result
    ensures ctx.Valid()
    ensures ctx.State() == ctx.After(old(ctx.State()),
      if ObservableType(ctx.c, ctx.At(), name, attr).Some?
         || (attr.typ == "object_t" && MayGenerateAt(ctx.c, ctx.At(), name, attr))
      then [Raise(ObservableNotAddedWrongType)] else [])
  {
    hide MayGenerateAt, ObservableType, ProcessContext.After;
    Onward(ctx, ctx.State(), [], []);
    var id := ObservableTypeID(ctx, name, attr);
    var objectObservable := false;
    if attr.typ == "object_t" {
      objectObservable := MayGenerateHere(ctx, name, attr);
    }
    if id.Some? || objectObservable {
      ctx.Raise(ObservableNotAddedWrongType);
    }
  }

  // ----- Enum siblings -----

  /** An enum attribute and its index, as initialization leaves them. */
  ghost predicate IndexFits(attr: AttrDef, index: Option<Index>) {
    attr.enum.Some? && (NeedsIndex(attr) ==> index.Some? && Compiled(attr.enum.value, index.value))
  }

  method AddEnumSibling(ctx: ProcessContext, item: Item, attr: AttrDef, index: Option<Index>, s: string, v: Value)
    returns (r: Item)
    requires ctx.Valid() && IndexFits(attr, index)
    modifies ctx`numberStyleKnown, ctx`numberUsesFloatSyntax, ctx.result
    ensures ctx.Valid() && r == AddScalarSibling(ctx.c, item, attr, s, v).item
    ensures ctx.State() == ctx.After(old(ctx.State()), AddScalarSibling(ctx.c, item, attr, s, v).trace)
  {
    hide LookupEnum, ProcessContext.After, Compiled;
    Onward(ctx, ctx.State(), [], []);
    Onward(ctx, ctx.State(), [SiblingAdded], [Raise(EnumSiblingOtherAdded)]);
    assert [SiblingAdded] + [] == [SiblingAdded];
    var l := ctx.LookupEnumDefinition(attr, index, v);
    var siblingPresent := Attribute(item, s).Some?;
    var reportOtherAddition := !siblingPresent && IsOther(ctx.c.decimal, v) && UsableCaption(l);
    if !siblingPresent && (!l.Found? || l.def.caption == "") {
      ctx.Raise(EnumSiblingNotAdded);
    }
    r := item;
    if l.Found? && l.def.caption != "" && !siblingPresent {
      r := item[s := Str(l.def.caption)];
      ctx.Tally(SiblingAdded);
    }
    if reportOtherAddition {
      ctx.Raise(EnumSiblingOtherAdded);
    }
  }

  method EnumArrayIsOther(ctx: ProcessContext, attr: AttrDef, v: Value) returns (r: bool)
    ensures r <==> ArrayOther(ctx.c, attr, v)
  {
    hide DerivedFrom;
    var text := TypeDerivedFrom(ctx.c.cat.types, attr.typ, "string_t");
    if text {
      return false;
    }
    return IsOther(ctx.c.decimal, v);
  }

  /** The captions of an enum array, or None at the first value without a usable one. */
  method CollectCaptions(ctx: ProcessContext, attr: AttrDef, index: Option<Index>, elems: seq<Value>)
    returns (captions: Option<seq<Value>>, other: bool)
    requires ctx.Valid() && IndexFits(attr, index)
    modifies ctx`numberStyleKnown, ctx`numberUsesFloatSyntax
    ensures captions.Some? <==> Captioned(ctx.c, attr, elems)
    ensures captions.Some? ==> captions.value == Captions(ctx.c, attr, elems)
    ensures captions.Some? ==> (other <==> exists i :: 0 <= i < |elems| && ArrayOther(ctx.c, attr, elems[i]))
  {
    hide LookupEnum, Compiled, ArrayOther;
    var collected: seq<Value> := [];
    other := false;
    for i := 0 to |elems|
      invariant |collected| == i
      invariant forall j | 0 <= j < i ::
        var l := LookupEnum(ctx.c, attr, elems[j]); UsableCaption(l) && collected[j] == Str(l.def.caption)
      invariant other <==> exists j :: 0 <= j < i && ArrayOther(ctx.c, attr, elems[j])
    {
      var l := ctx.LookupEnumDefinition(attr, index, elems[i]);
      if !l.Found? || l.def.caption == "" {
        return None, other;
      }
      collected := collected + [Str(l.def.caption)];
      var elementOther := EnumArrayIsOther(ctx, attr, elems[i]);
      other := other || elementOther;
    }
    return Some(collected), other;
  }

  method AddEnumArraySibling(ctx: ProcessContext, item: Item, attr: AttrDef, index: Option<Index>, s: string, v: Value)
    returns (r: Item)
    requires ctx.Valid() && IndexFits(attr, index)
    modifies ctx`numberStyleKnown, ctx`numberUsesFloatSyntax, ctx.result
    ensures ctx.Valid() && r == AddArraySibling(ctx.c, item, attr, s, v).item
    ensures ctx.State() == ctx.After(old(ctx.State()), AddArraySibling(ctx.c, item, attr, s, v).trace)
  {
    hide Captioned, Captions, ArrayOther, ProcessContext.After, IndexFits;
    Onward(ctx, ctx.State(), [], []);
    Onward(ctx, ctx.State(), [SiblingAdded], [Raise(EnumSiblingOtherAdded)]);
    assert [SiblingAdded] + [] == [SiblingAdded];
    r := item;
    if Attribute(item, s).Some? || !v.Arr? {
      return;
    }
    var captions, reportOtherAddition := CollectCaptions(ctx, attr, index, v.elems);
    if captions == None {
      ctx.Raise(EnumSiblingNotAdded);
      return;
    }
    r := item[s := Arr(captions.value)];
    ctx.Tally(SiblingAdded);
    if reportOtherAddition {
      ctx.Raise(EnumSiblingOtherAdded);
    }
  }
}
