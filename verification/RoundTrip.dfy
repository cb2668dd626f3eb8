/** Adding and safely removing enum siblings undo each other, with the exact exceptions. */
module RoundTrip {
  import opened Text
  import opened Values
  import opened Schema
  import opened Walk
  import opened Settling

  function Adding(c: Ctx): Ctx {
    c.(enums := Add)
  }

  function SafelyRemoving(c: Ctx): Ctx {
    c.(enums := Remove)
  }

  lemma SameSchema(c: Ctx, def: ItemDef)
    ensures Ready(Adding(c)) == Ready(SafelyRemoving(c)) == Ready(c)
    ensures Known(Adding(c), def) == Known(SafelyRemoving(c), def) == Known(c, def)
    ensures Names(Adding(c)) == Names(SafelyRemoving(c)) == Names(c)
  {
  }

  // ----- One pair -----

  /** An enum value says all its sibling says: it is usable, not the source-specific 99, and, unless the removal is
      forced, has the sibling's text as its caption. */
  predicate SaysSame(c: Ctx, attr: AttrDef, v: Value, sibling: Option<Value>) {
    var l := LookupEnum(c, attr, v);
    && l != Unusable && !ElementOther(c, attr, v)
    && (sibling.Some? ==> l.Found? && sibling.value == Str(l.def.caption))
  }

  predicate AllRedundant(c: Ctx, attr: AttrDef, elems: seq<Value>, siblings: seq<Value>, force: bool, i: nat)
    requires force || |elems| == |siblings|
  {
    forall j | i <= j < |elems| :: SaysSame(c, attr, elems[j], if force then None else Some(siblings[j]))
  }

  /** A null sibling, or one of the enum's own shape that the enum makes redundant, element by element. */
  predicate Removable(c: Ctx, item: Item, e: string, attr: AttrDef, s: string, force: bool) {
    && s in item
    && (item[s] == Null
        || (Attribute(item, e).Some? &&
            if attr.isArray then
              && item[s].Arr? && item[e].Arr? && (force || |item[e].elems| == |item[s].elems|)
              && AllRedundant(c, attr, item[e].elems, item[s].elems, force, 0)
            else item[s].Str? && SaysSame(c, attr, item[e], if force then None else Some(item[s]))))
  }

  /** A present sibling is removed exactly when it is removable, and is counted once, as removed or as retained. */
  lemma RemovedExactly(c: Ctx, item: Item, e: string, attr: AttrDef, s: string, force: bool)
    ensures var r := RemovePair(c, item, e, attr, s, force);
      && r.item == (if Removable(c, item, e, attr, s, force) then Walk.Without(item, s) else item)
      && (s !in item ==> r.trace == [])
      && (s in item ==>
            if Removable(c, item, e, attr, s, force) then r.trace == [SiblingRemoved]
            else r.trace == [SiblingRetained] || r.trace == [SiblingRetained, Raise(EnumSiblingNotRemoved)])
  {
    hide LookupEnum, AllRedundant;
    if s in item && attr.isArray && item[s].Arr? && Attribute(item, e).Some? && item[e].Arr?
       && (force || |item[e].elems| == |item[s].elems|) {
      ArrayRemovedExactly(c, item, attr, s, item[e].elems, item[s].elems, force, 0);
      hide RemoveArray;
    }
  }

  lemma {:induction false} ArrayRemovedExactly(c: Ctx, item: Item, attr: AttrDef, s: string, elems: seq<Value>,
                                               siblings: seq<Value>, force: bool, i: nat)
    requires i <= |elems| && (force || |elems| == |siblings|)
    ensures var r := RemoveArray(c, item, attr, s, elems, siblings, force, i);
      if AllRedundant(c, attr, elems, siblings, force, i)
      then r == Removed(item, s)
      else r.item == item && (r.trace == [SiblingRetained] || r.trace == [SiblingRetained, Raise(EnumSiblingNotRemoved)])
    decreases |elems| - i
  {
    hide LookupEnum, ElementOther;
    if i < |elems| {
      ArrayRemovedExactly(c, item, attr, s, elems, siblings, force, i + 1);
    }
  }

  /** The pair's sibling is absent and would be synthesised for the source-specific value 99. */
  ghost predicate PairSynthesised(c: Ctx, item: Item, e: string, attr: AttrDef, s: string) {
    && Attribute(item, s) == None && Attribute(item, e).Some?
    && if attr.isArray then
         && item[e].Arr? && Captioned(c, attr, item[e].elems)
         && exists i :: 0 <= i < |item[e].elems| && IsOther(c.decimal, item[e].elems[i])
       else UsableCaption(LookupEnum(c, attr, item[e])) && IsOther(c.decimal, item[e])
  }

  /** Comparing an enum array with its own captions removes them unless an element is 99. */
  lemma {:induction false} RemoveOwnCaptions(c: Ctx, item: Item, attr: AttrDef, s: string, elems: seq<Value>, i: nat)
    requires i <= |elems| && Integral(attr) && Captioned(c, attr, elems)
    ensures var r := RemoveArray(c, item, attr, s, elems, Captions(c, attr, elems), false, i).item;
      r == if exists j :: i <= j < |elems| && IsOther(c.decimal, elems[j]) then item else Without(item, s)
    decreases |elems| - i
  {
    hide LookupEnum;
    if i < |elems| {
      RemoveOwnCaptions(c, item, attr, s, elems, i + 1);
    }
  }

  /** Removal of an array sibling proves every element's caption. */
  lemma {:induction false} RemovedMatches(c: Ctx, item: Item, attr: AttrDef, s: string, elems: seq<Value>,
                                          siblings: seq<Value>, i: nat)
    requires i <= |elems| == |siblings| && s in item
    requires Slot(RemoveArray(c, item, attr, s, elems, siblings, false, i).item, s) == None
    ensures forall j | i <= j < |elems| ::
      LookupEnum(c, attr, elems[j]).Found? && siblings[j] == Str(LookupEnum(c, attr, elems[j]).def.caption)
    decreases |elems| - i
  {
    hide LookupEnum;
    if i < |elems| {
      RemovedMatches(c, item, attr, s, elems, siblings, i + 1);
    }
  }

  lemma PairRemoveAfterAdd(c: Ctx, item: Item, added: Item, e: string, attr: AttrDef, s: string)
    requires Integral(attr) && e != s
    requires Attribute(added, e) == Attribute(item, e)
    requires Slot(added, s) == Slot(EnumStep(Adding(c), item, e, attr, s).item, s)
    ensures Slot(EnumStep(SafelyRemoving(c), added, e, attr, s).item, s)
      == Slot(EnumStep(SafelyRemoving(c), item, e, attr, s).item, s)
      <==> !PairSynthesised(c, item, e, attr, s)
  {
    var add, rem := Adding(c), SafelyRemoving(c);
    LookupsAgree(c, attr);
    hide LookupEnum;
    if Attribute(item, s).Some? {
      PairDepends(rem, added, item, e, attr, s);
    } else {
      PairNull(rem, item, e, attr, s);
      if Attribute(added, s) == None {
        PairNull(rem, added, e, attr, s);
      } else if attr.isArray {
        var elems := item[e].elems;
        assert Captions(rem, attr, elems) == Captions(add, attr, elems);
        RemoveOwnCaptions(rem, added, attr, s, elems, 0);
      }
    }
  }

  lemma LookupsAgree(c: Ctx, attr: AttrDef)
    ensures forall v :: LookupEnum(Adding(c), attr, v) == LookupEnum(SafelyRemoving(c), attr, v) == LookupEnum(c, attr, v)
  {
  }

  /** The pair's sibling would be removed although it spells an empty caption, which adding never restores. */
  ghost predicate PairLost(c: Ctx, item: Item, e: string, attr: AttrDef, s: string) {
    && Attribute(item, s).Some? && Slot(RemovePair(c, item, e, attr, s, false).item, s) == None
    && if attr.isArray then !Captioned(c, attr, item[e].elems) else !UsableCaption(LookupEnum(c, attr, item[e]))
  }

  lemma PairAddAfterRemove(c: Ctx, item: Item, removed: Item, e: string, attr: AttrDef, s: string)
    requires Integral(attr) && e != s
    requires Attribute(removed, e) == Attribute(item, e)
    requires Slot(removed, s) == Slot(EnumStep(SafelyRemoving(c), item, e, attr, s).item, s)
    ensures Attribute(EnumStep(Adding(c), removed, e, attr, s).item, s)
      == Attribute(EnumStep(Adding(c), item, e, attr, s).item, s)
      <==> !PairLost(c, item, e, attr, s)
  {
    var add, rem := Adding(c), SafelyRemoving(c);
    LookupsAgree(c, attr);
    hide LookupEnum;
    RemoveStepAgrees(c, item, e, attr, s);
    if Attribute(item, s) == None {
      PairNull(rem, item, e, attr, s);
      AddReadsAttributes(add, item, removed, e, attr, s);
    } else if Slot(removed, s) != None {
      PairKeepsOrRemoves(rem, item, e, attr, s);
    } else if attr.isArray {
      var elems, siblings := item[e].elems, item[s].elems;
      RemovedMatches(rem, item, attr, s, elems, siblings, 0);
      if Captioned(c, attr, elems) {
        assert Captions(add, attr, elems) == siblings;
      }
    }
  }

  lemma RemoveStepAgrees(c: Ctx, item: Item, e: string, attr: AttrDef, s: string)
    ensures EnumStep(SafelyRemoving(c), item, e, attr, s).item == RemovePair(c, item, e, attr, s, false).item
  {
    if s in item && attr.isArray && item[s].Arr? && Attribute(item, e).Some? && item[e].Arr?
       && |item[e].elems| == |item[s].elems| {
      RemoveArrayAgrees(c, item, attr, s, item[e].elems, item[s].elems, 0);
    }
  }

  lemma {:induction false} RemoveArrayAgrees(c: Ctx, item: Item, attr: AttrDef, s: string, elems: seq<Value>,
                                             siblings: seq<Value>, i: nat)
    requires i <= |elems| == |siblings|
    ensures RemoveArray(SafelyRemoving(c), item, attr, s, elems, siblings, false, i)
      == RemoveArray(c, item, attr, s, elems, siblings, false, i)
    decreases |elems| - i
  {
    if i < |elems| {
      RemoveArrayAgrees(c, item, attr, s, elems, siblings, i + 1);
    }
  }

  lemma AddReadsAttributes(c: Ctx, a: Item, b: Item, e: string, attr: AttrDef, s: string)
    requires c.enums == Add && Attribute(a, e) == Attribute(b, e) && Attribute(a, s) == Attribute(b, s) == None
    ensures Attribute(EnumStep(c, a, e, attr, s).item, s) == Attribute(EnumStep(c, b, e, attr, s).item, s)
  {
    hide LookupEnum;
  }

  lemma PairKeepsOrRemoves(c: Ctx, item: Item, e: string, attr: AttrDef, s: string)
    requires Removing(c)
    ensures Slot(EnumStep(c, item, e, attr, s).item, s) in {None, Slot(item, s)}
  {
    if s in item && attr.isArray && item[s].Arr? && Attribute(item, e).Some? && item[e].Arr?
       && (c.enums == ForceRemove || |item[e].elems| == |item[s].elems|) {
      RemoveArrayFrame(c, item, attr, s, item[e].elems, item[s].elems, c.enums == ForceRemove, 0);
    }
  }

  // ----- Whole events: removal after addition -----

  ghost predicate Synthesised(c: Ctx, item: Item, def: ItemDef, used: set<string>)
    requires Ready(c) && Known(c, def)
    decreases Names(c) - used, 3
  {
    exists key | key in def.attributes :: SynthesisedAt(c, item, def, used, key)
  }

  ghost predicate SynthesisedAt(c: Ctx, item: Item, def: ItemDef, used: set<string>, key: string)
    requires Ready(c) && Known(c, def) && key in def.attributes
    decreases Names(c) - used, 2
  {
    || (PairKey(c, def, key) && PairSynthesised(c, item, def.owners[key], def.attributes[def.owners[key]], key))
    || (SingleKey(c, def, key) && Attribute(item, key).Some?
        && SynthesisedIn(c, item[key], key, def.attributes[key], used))
  }

  ghost predicate SynthesisedIn(c: Ctx, v: Value, name: string, attr: AttrDef, used: set<string>)
    requires Ready(c) && name in Names(c)
    decreases Names(c) - used, 1
  {
    if !attr.isArray then SynthesisedBelow(c, v, name, attr, used)
    else v.Arr? && !ScalarArray(attr)
         && exists i :: 0 <= i < |v.elems| && SynthesisedBelow(c, v.elems[i], name, attr, used)
  }

  ghost predicate SynthesisedBelow(c: Ctx, v: Value, name: string, attr: AttrDef, used: set<string>)
    requires Ready(c) && name in Names(c)
    decreases Names(c) - used, 0
  {
    Enters(c, v, name, attr, used) && (
      ObjectKnown(c, attr.objectType.value);
      Synthesised(c, v.fields, c.cat.objects[attr.objectType.value].item, used + {name}))
  }

  /** Safe removal after addition is safe removal alone, exactly when no caption was synthesised for a 99. */
  lemma {:induction false} RemoveAfterAdd(c: Ctx, item: Item, def: ItemDef, used: set<string>)
    requires Ready(c) && Known(c, def)
    ensures Ready(Adding(c)) && Known(Adding(c), def) && Ready(SafelyRemoving(c)) && Known(SafelyRemoving(c), def)
    ensures SettledItem(SafelyRemoving(c), SettledItem(Adding(c), item, def, used), def, used)
      == SettledItem(SafelyRemoving(c), item, def, used)
      <==> !Synthesised(c, item, def, used)
    decreases Names(c) - used, 3
  {
    SameSchema(c, def);
    var added := SettledItem(Adding(c), item, def, used);
    var both := SettledItem(SafelyRemoving(c), added, def, used);
    var alone := SettledItem(SafelyRemoving(c), item, def, used);
    forall key ensures Slot(both, key) == Slot(alone, key) <==> !(key in def.attributes && SynthesisedAt(c, item, def, used, key)) {
      KeyRemoveAfterAdd(c, item, def, used, key);
    }
    if !Synthesised(c, item, def, used) {
      SameSlots(both, alone);
    }
  }

  lemma {:induction false} KeyRemoveAfterAdd(c: Ctx, item: Item, def: ItemDef, used: set<string>, key: string)
    requires Ready(c) && Known(c, def)
    ensures Ready(Adding(c)) && Known(Adding(c), def) && Ready(SafelyRemoving(c)) && Known(SafelyRemoving(c), def)
    ensures SettledSlot(SafelyRemoving(c), SettledItem(Adding(c), item, def, used), def, used, key)
      == SettledSlot(SafelyRemoving(c), item, def, used, key)
      <==> !(key in def.attributes && SynthesisedAt(c, item, def, used, key))
    decreases Names(c) - used, 2
  {
    hide Ready, Known, SettledItem, SettledValue, SettledSlot, SynthesisedIn, Active, DispatchOf, Cleared;
    SameSchema(c, def);
    var add, rem := Adding(c), SafelyRemoving(c);
    var added := SettledItem(add, item, def, used);
    Ends(c, def, key);
    if PairKey(c, def, key) {
      PairKeyRemoveAfterAdd(c, item, def, used, key);
    } else if SingleKey(c, def, key) && Attribute(item, key).Some? {
      KnownName(c, def, key);
      SettledSingle(add, item, def, used, key);
      ValueRemoveAfterAdd(c, item[key], key, def.attributes[key], used);
      SingleSlot(rem, item, def, used, key);
      SingleSlot(rem, added, def, used, key);
    } else {
      OtherKeyRemoveAfterAdd(c, item, def, used, key);
    }
  }

  lemma PairKeyRemoveAfterAdd(c: Ctx, item: Item, def: ItemDef, used: set<string>, key: string)
    requires Ready(c) && Known(c, def) && PairKey(c, def, key)
    requires Ready(Adding(c)) && Known(Adding(c), def) && Ready(SafelyRemoving(c)) && Known(SafelyRemoving(c), def)
    ensures key in def.attributes && def.owners[key] in def.attributes
    ensures SettledSlot(SafelyRemoving(c), SettledItem(Adding(c), item, def, used), def, used, key)
      == SettledSlot(SafelyRemoving(c), item, def, used, key)
      <==> !PairSynthesised(c, item, def.owners[key], def.attributes[def.owners[key]], key)
  {
    var added := SettledItem(Adding(c), item, def, used);
    assert Slot(added, key) == SettledSlot(Adding(c), item, def, used, key);
    hide Ready, Known, SettledItem, SettledValue, EnumStep, PairSynthesised, Active, DispatchOf;
    Ends(c, def, key);
    var e := def.owners[key];
    SettledOwner(Adding(c), item, def, used, e);
    LinkedIsIntegral(c, def, e);
    PairRemoveAfterAdd(c, item, added, e, def.attributes[e], key);
  }

  lemma OtherKeyRemoveAfterAdd(c: Ctx, item: Item, def: ItemDef, used: set<string>, key: string)
    requires Ready(Adding(c)) && Known(Adding(c), def) && Ready(SafelyRemoving(c)) && Known(SafelyRemoving(c), def)
    requires !PairKey(c, def, key) && (SingleKey(c, def, key) ==> Attribute(item, key) == None)
    ensures SettledSlot(SafelyRemoving(c), SettledItem(Adding(c), item, def, used), def, used, key)
      == SettledSlot(SafelyRemoving(c), item, def, used, key)
  {
    hide Ready, Known, SettledItem, SettledValue, Active, DispatchOf, Cleared;
    ClearedAfterAdd(c, item, def, used, key);
    if SingleKey(c, def, key) {
      SettledSingle(Adding(c), item, def, used, key);
    }
  }

  lemma SingleSlot(c: Ctx, item: Item, def: ItemDef, used: set<string>, n: string)
    requires Ready(c) && Known(c, def) && SingleKey(c, def, n) && Attribute(item, n).Some?
    ensures n in Names(c)
    ensures SettledSlot(c, item, def, used, n) == Some(SettledValue(c, item[n], n, def.attributes[n], used))
  {
    Ends(c, def, n);
    KnownName(c, def, n);
    hide Ready, Known, SettledValue, DispatchOf, Active, PairSlot;
  }

  lemma ClearedAfterAdd(c: Ctx, item: Item, def: ItemDef, used: set<string>, key: string)
    requires Ready(Adding(c)) && Known(Adding(c), def) && !PairKey(c, def, key)
    requires SingleKey(c, def, key) ==> Attribute(item, key) == None
    ensures Slot(SettledItem(Adding(c), item, def, used), key) == Slot(item, key)
    ensures Cleared(SafelyRemoving(c), SettledItem(Adding(c), item, def, used), def, def.attributes.Keys, key)
      == Cleared(SafelyRemoving(c), item, def, def.attributes.Keys, key)
  {
    hide Ready, Known, SettledItem, SettledSlot, SettledValue, Clears, Active, DispatchOf;
    var added := SettledItem(Adding(c), item, def, used);
    SettledAt(Adding(c), item, def, used, key);
    KeySettled(c, item, def, used, key);
    forall n ensures Clears(SafelyRemoving(c), added, def, n, key) == Clears(SafelyRemoving(c), item, def, n, key) {
      ClearsAfterAdd(c, item, def, used, n, key);
    }
  }

  lemma KeySettled(c: Ctx, item: Item, def: ItemDef, used: set<string>, key: string)
    requires Ready(Adding(c)) && Known(Adding(c), def) && !PairKey(c, def, key)
    requires SingleKey(c, def, key) ==> Attribute(item, key) == None
    ensures SettledSlot(Adding(c), item, def, used, key) == Slot(item, key)
  {
    hide Ready, Known, SettledValue, PairSlot, Clears, Active, DispatchOf;
  }

  lemma ClearsAfterAdd(c: Ctx, item: Item, def: ItemDef, used: set<string>, n: string, key: string)
    requires Ready(Adding(c)) && Known(Adding(c), def)
    ensures Clears(SafelyRemoving(c), SettledItem(Adding(c), item, def, used), def, n, key)
      == Clears(SafelyRemoving(c), item, def, n, key)
  {
    hide Ready, Known, SettledItem, SettledValue, Active, DispatchOf;
    if SingleKey(c, def, n) {
      SettledSingle(Adding(c), item, def, used, n);
    }
  }

  lemma {:induction false} ValueRemoveAfterAdd(c: Ctx, v: Value, name: string, attr: AttrDef, used: set<string>)
    requires Ready(c) && Ready(Adding(c)) && Ready(SafelyRemoving(c))
    requires name in Names(c) && name in Names(Adding(c)) && name in Names(SafelyRemoving(c))
    ensures SettledValue(SafelyRemoving(c), SettledValue(Adding(c), v, name, attr, used), name, attr, used)
      == SettledValue(SafelyRemoving(c), v, name, attr, used)
      <==> !SynthesisedIn(c, v, name, attr, used)
    decreases Names(c) - used, 1
  {
    if !attr.isArray {
      ObjectRemoveAfterAdd(c, v, name, attr, used);
    } else if v.Arr? && !ScalarArray(attr) {
      var both := SettledValue(SafelyRemoving(c), SettledValue(Adding(c), v, name, attr, used), name, attr, used);
      var alone := SettledValue(SafelyRemoving(c), v, name, attr, used);
      forall i | 0 <= i < |v.elems|
        ensures both.elems[i] == alone.elems[i] <==> !SynthesisedBelow(c, v.elems[i], name, attr, used)
      {
        ObjectRemoveAfterAdd(c, v.elems[i], name, attr, used);
      }
      assert both == alone <==> forall i | 0 <= i < |v.elems| :: both.elems[i] == alone.elems[i];
    }
  }

  lemma {:induction false} ObjectRemoveAfterAdd(c: Ctx, v: Value, name: string, attr: AttrDef, used: set<string>)
    requires Ready(c) && Ready(Adding(c)) && Ready(SafelyRemoving(c))
    requires name in Names(c) && name in Names(Adding(c)) && name in Names(SafelyRemoving(c))
    ensures SettledObject(SafelyRemoving(c), SettledObject(Adding(c), v, name, attr, used), name, attr, used)
      == SettledObject(SafelyRemoving(c), v, name, attr, used)
      <==> !SynthesisedBelow(c, v, name, attr, used)
    decreases Names(c) - used, 0
  {
    if Enters(c, v, name, attr, used) {
      ObjectKnown(c, attr.objectType.value);
      RemoveAfterAdd(c, v.fields, c.cat.objects[attr.objectType.value].item, used + {name});
    }
  }

  // ----- Whole events: addition after removal -----

  /** Equal except that a null attribute and an absent one are the same, at every depth. */
  ghost predicate Same(a: Value, b: Value)
    decreases a
  {
    match a
    case Obj(f) => b.Obj? && (forall key | Attribute(b.fields, key).Some? :: Attribute(f, key).Some?)
                   && (forall key | key in f && f[key] != Null :: Attribute(b.fields, key).Some? && Same(f[key], b.fields[key]))
    case Arr(elems) => b.Arr? && |elems| == |b.elems| && forall i | 0 <= i < |elems| :: Same(elems[i], b.elems[i])
    case _ => a == b
  }

  ghost predicate SameItem(a: Item, b: Item) {
    Same(Obj(a), Obj(b))
  }

  ghost predicate SameSlot(a: Option<Value>, b: Option<Value>) {
    (a.Some? <==> b.Some?) && (a.Some? ==> Same(a.value, b.value))
  }

  lemma SameByAttribute(a: Item, b: Item)
    ensures SameItem(a, b) <==> forall key :: SameSlot(Attribute(a, key), Attribute(b, key))
  {
    if SameItem(a, b) {
      forall key ensures SameSlot(Attribute(a, key), Attribute(b, key)) {
      }
    } else if forall key :: SameSlot(Attribute(a, key), Attribute(b, key)) {
      assert forall key | Attribute(b, key).Some? :: SameSlot(Attribute(a, key), Attribute(b, key));
      assert forall key | key in a && a[key] != Null :: SameSlot(Attribute(a, key), Attribute(b, key));
      assert false;
    }
  }

  lemma {:induction false} SameReflexive(v: Value)
    ensures Same(v, v)
  {
    match v
    case Obj(f) =>
      forall key | key in f ensures Same(f[key], f[key]) {
        SameReflexive(f[key]);
      }
    case Arr(elems) =>
      forall i | 0 <= i < |elems| ensures Same(elems[i], elems[i]) {
        SameReflexive(elems[i]);
      }
    case _ =>
  }

  ghost predicate Lost(c: Ctx, item: Item, def: ItemDef, used: set<string>)
    requires Ready(c) && Known(c, def)
    decreases Names(c) - used, 3
  {
    exists key | key in def.attributes :: LostAt(c, item, def, used, key)
  }

  ghost predicate LostAt(c: Ctx, item: Item, def: ItemDef, used: set<string>, key: string)
    requires Ready(c) && Known(c, def) && key in def.attributes
    decreases Names(c) - used, 2
  {
    || (PairKey(c, def, key) && PairLost(c, item, def.owners[key], def.attributes[def.owners[key]], key))
    || (SingleKey(c, def, key) && Attribute(item, key).Some? && LostIn(c, item[key], key, def.attributes[key], used))
  }

  ghost predicate LostIn(c: Ctx, v: Value, name: string, attr: AttrDef, used: set<string>)
    requires Ready(c) && name in Names(c)
    decreases Names(c) - used, 1
  {
    if !attr.isArray then LostBelow(c, v, name, attr, used)
    else v.Arr? && !ScalarArray(attr) && exists i :: 0 <= i < |v.elems| && LostBelow(c, v.elems[i], name, attr, used)
  }

  ghost predicate LostBelow(c: Ctx, v: Value, name: string, attr: AttrDef, used: set<string>)
    requires Ready(c) && name in Names(c)
    decreases Names(c) - used, 0
  {
    Enters(c, v, name, attr, used) && (
      ObjectKnown(c, attr.objectType.value);
      Lost(c, v.fields, c.cat.objects[attr.objectType.value].item, used + {name}))
  }

  /** Addition after safe removal is addition alone, up to null for absent, exactly when no removed sibling
      spelled an empty caption. */
  lemma {:induction false} AddAfterRemove(c: Ctx, item: Item, def: ItemDef, used: set<string>)
    requires Ready(c) && Known(c, def)
    ensures Ready(Adding(c)) && Known(Adding(c), def) && Ready(SafelyRemoving(c)) && Known(SafelyRemoving(c), def)
    ensures SameItem(SettledItem(Adding(c), SettledItem(SafelyRemoving(c), item, def, used), def, used),
                     SettledItem(Adding(c), item, def, used))
      <==> !Lost(c, item, def, used)
    decreases Names(c) - used, 3
  {
    SameSchema(c, def);
    var removed := SettledItem(SafelyRemoving(c), item, def, used);
    var both := SettledItem(Adding(c), removed, def, used);
    var alone := SettledItem(Adding(c), item, def, used);
    forall key ensures SameSlot(Attribute(both, key), Attribute(alone, key))
      <==> !(key in def.attributes && LostAt(c, item, def, used, key))
    {
      KeyAddAfterRemove(c, item, def, used, key);
    }
    hide Ready, Known, SettledItem, Same, SameSlot, SameItem, LostAt;
    SameByAttribute(both, alone);
  }

  lemma {:induction false} KeyAddAfterRemove(c: Ctx, item: Item, def: ItemDef, used: set<string>, key: string)
    requires Ready(c) && Known(c, def)
    ensures Ready(Adding(c)) && Known(Adding(c), def) && Ready(SafelyRemoving(c)) && Known(SafelyRemoving(c), def)
    ensures SameSlot(Attribute(SettledItem(Adding(c), SettledItem(SafelyRemoving(c), item, def, used), def, used), key),
                     Attribute(SettledItem(Adding(c), item, def, used), key))
      <==> !(key in def.attributes && LostAt(c, item, def, used, key))
    decreases Names(c) - used, 2
  {
    hide Ready, Known, SettledItem, SettledValue, SettledSlot, LostIn, PairLost, Active, DispatchOf, Cleared, Same;
    SameSchema(c, def);
    var add, rem := Adding(c), SafelyRemoving(c);
    var removed := SettledItem(rem, item, def, used);
    Ends(c, def, key);
    if PairKey(c, def, key) {
      PairKeyAddAfterRemove(c, item, def, used, key);
    } else if SingleKey(c, def, key) && Attribute(item, key).Some? {
      KnownName(c, def, key);
      SettledSingle(rem, item, def, used, key);
      ValueAddAfterRemove(c, item[key], key, def.attributes[key], used);
      SettledSingle(add, item, def, used, key);
      SettledSingle(add, removed, def, used, key);
    } else {
      OtherKeyAddAfterRemove(c, item, def, used, key);
    }
  }

  lemma PairKeyAddAfterRemove(c: Ctx, item: Item, def: ItemDef, used: set<string>, key: string)
    requires Ready(c) && Known(c, def) && PairKey(c, def, key)
    requires Ready(Adding(c)) && Known(Adding(c), def) && Ready(SafelyRemoving(c)) && Known(SafelyRemoving(c), def)
    ensures key in def.attributes && def.owners[key] in def.attributes
    ensures SameSlot(Attribute(SettledItem(Adding(c), SettledItem(SafelyRemoving(c), item, def, used), def, used), key),
                     Attribute(SettledItem(Adding(c), item, def, used), key))
      <==> !PairLost(c, item, def.owners[key], def.attributes[def.owners[key]], key)
  {
    hide Ready, Known, SettledItem, SettledValue, EnumStep, PairLost, Active, DispatchOf, Same, PairKey;
    var add, rem := Adding(c), SafelyRemoving(c);
    var removed := SettledItem(rem, item, def, used);
    var both, alone := SettledItem(add, removed, def, used), SettledItem(add, item, def, used);
    PairKeyOf(c, def, key);
    Ends(c, def, key);
    var e := def.owners[key];
    SettledPair(rem, item, def, used, key);
    SettledPair(add, removed, def, used, key);
    SettledPair(add, item, def, used, key);
    SettledOwner(rem, item, def, used, e);
    LinkedIsIntegral(c, def, e);
    PairAddAfterRemove(c, item, removed, e, def.attributes[e], key);
    PairAddSound(c, item, removed, e, def.attributes[e], key);
    if Attribute(alone, key).Some? {
      SameReflexive(alone[key]);
    }
  }

  lemma PairKeyOf(c: Ctx, def: ItemDef, key: string)
    requires PairKey(c, def, key)
    ensures key in def.owners && PairKey(Adding(c), def, key) && PairKey(SafelyRemoving(c), def, key)
  {
  }

  /** When the two results differ, one side has no sibling: the difference is not one of null for absent. */
  lemma PairAddSound(c: Ctx, item: Item, removed: Item, e: string, attr: AttrDef, s: string)
    requires Integral(attr) && e != s
    requires Attribute(removed, e) == Attribute(item, e)
    requires Slot(removed, s) == Slot(EnumStep(SafelyRemoving(c), item, e, attr, s).item, s)
    ensures PairLost(c, item, e, attr, s) ==>
      && Attribute(EnumStep(Adding(c), removed, e, attr, s).item, s) == None
      && Attribute(EnumStep(Adding(c), item, e, attr, s).item, s).Some?
  {
    LookupsAgree(c, attr);
    hide LookupEnum;
    RemoveStepAgrees(c, item, e, attr, s);
  }

  lemma OtherKeyAddAfterRemove(c: Ctx, item: Item, def: ItemDef, used: set<string>, key: string)
    requires Ready(Adding(c)) && Known(Adding(c), def) && Ready(SafelyRemoving(c)) && Known(SafelyRemoving(c), def)
    requires !PairKey(c, def, key) && (SingleKey(c, def, key) ==> Attribute(item, key) == None)
    ensures SameSlot(Attribute(SettledItem(Adding(c), SettledItem(SafelyRemoving(c), item, def, used), def, used), key),
                     Attribute(SettledItem(Adding(c), item, def, used), key))
  {
    hide Ready, Known, SettledItem, SettledValue, Active, DispatchOf, Same;
    var add, rem := Adding(c), SafelyRemoving(c);
    var removed := SettledItem(rem, item, def, used);
    SettledOther(rem, item, def, used, key);
    SettledOther(add, item, def, used, key);
    SettledOther(add, removed, def, used, key);
    if Attribute(item, key).Some? {
      SameReflexive(item[key]);
    }
  }

  lemma {:induction false} ValueAddAfterRemove(c: Ctx, v: Value, name: string, attr: AttrDef, used: set<string>)
    requires Ready(c) && Ready(Adding(c)) && Ready(SafelyRemoving(c))
    requires name in Names(c) && name in Names(Adding(c)) && name in Names(SafelyRemoving(c))
    ensures Same(SettledValue(Adding(c), SettledValue(SafelyRemoving(c), v, name, attr, used), name, attr, used),
                 SettledValue(Adding(c), v, name, attr, used))
      <==> !LostIn(c, v, name, attr, used)
    decreases Names(c) - used, 1
  {
    hide Ready, Names, SettledObject, LostBelow;
    if !attr.isArray {
      ObjectAddAfterRemove(c, v, name, attr, used);
    } else if v.Arr? && !ScalarArray(attr) {
      forall i | 0 <= i < |v.elems|
        ensures Same(SettledObject(Adding(c), SettledObject(SafelyRemoving(c), v.elems[i], name, attr, used), name, attr, used),
                     SettledObject(Adding(c), v.elems[i], name, attr, used))
          <==> !LostBelow(c, v.elems[i], name, attr, used)
      {
        ObjectAddAfterRemove(c, v.elems[i], name, attr, used);
      }
      var both := SettledValue(Adding(c), SettledValue(SafelyRemoving(c), v, name, attr, used), name, attr, used);
      var alone := SettledValue(Adding(c), v, name, attr, used);
      assert forall i | 0 <= i < |v.elems| :: Same(both.elems[i], alone.elems[i]) <==> !LostBelow(c, v.elems[i], name, attr, used);
      assert Same(both, alone) <==> forall i | 0 <= i < |v.elems| :: Same(both.elems[i], alone.elems[i]);
    } else {
      SameReflexive(v);
    }
  }

  lemma {:induction false} ObjectAddAfterRemove(c: Ctx, v: Value, name: string, attr: AttrDef, used: set<string>)
    requires Ready(c) && Ready(Adding(c)) && Ready(SafelyRemoving(c))
    requires name in Names(c) && name in Names(Adding(c)) && name in Names(SafelyRemoving(c))
    ensures Same(SettledObject(Adding(c), SettledObject(SafelyRemoving(c), v, name, attr, used), name, attr, used),
                 SettledObject(Adding(c), v, name, attr, used))
      <==> !LostBelow(c, v, name, attr, used)
    decreases Names(c) - used, 0
  {
    if Enters(c, v, name, attr, used) {
      ObjectKnown(c, attr.objectType.value);
      AddAfterRemove(c, v.fields, c.cat.objects[attr.objectType.value].item, used + {name});
    } else {
      SameReflexive(v);
    }
  }

  // ----- The walk itself -----

  /** Both round trips, for the walk over any item at any path. */
  lemma WalkRoundTrips(c: Ctx, item: Item, def: ItemDef, path: Elems)
    requires Ready(c) && Known(c, def)
    ensures Ready(Adding(c)) && Known(Adding(c), def) && Ready(SafelyRemoving(c)) && Known(SafelyRemoving(c), def)
    ensures VisitItem(SafelyRemoving(c), VisitItem(Adding(c), item, def, path).item, def, path).item
      == VisitItem(SafelyRemoving(c), item, def, path).item
      <==> !Synthesised(c, item, def, Used(path))
    ensures SameItem(VisitItem(Adding(c), VisitItem(SafelyRemoving(c), item, def, path).item, def, path).item,
                     VisitItem(Adding(c), item, def, path).item)
      <==> !Lost(c, item, def, Used(path))
  {
    SameSchema(c, def);
    var add, rem := Adding(c), SafelyRemoving(c);
    VisitSettles(add, item, def, path);
    VisitSettles(rem, item, def, path);
    VisitSettles(rem, VisitItem(add, item, def, path).item, def, path);
    VisitSettles(add, VisitItem(rem, item, def, path).item, def, path);
    RemoveAfterAdd(c, item, def, Used(path));
    AddAfterRemove(c, item, def, Used(path));
  }
}
