/** The walk's effect on an item, key by key and independent of the order the walk takes: a pair's sibling
    settles by its own pair, nested objects settle by themselves, and nothing else moves. */
module Settling {
  import opened Text
  import opened Values
  import opened Schema
  import opened Observability
  import opened Walk
  import EP = EventPath

  predicate Removing(c: Ctx) {
    c.enums == Remove || c.enums == ForceRemove
  }

  ghost function Used(path: Elems): set<string> {
    set n | n in EP.AttributeNames(path)
  }

  /** The key is the sibling of an active pair. */
  predicate PairKey(c: Ctx, def: ItemDef, key: string) {
    key in def.owners && ActiveName(def, c.profiles, def.owners[key]) && ActiveName(def, c.profiles, key)
  }

  predicate SingleKey(c: Ctx, def: ItemDef, key: string) {
    key in def.attributes && DispatchOf(def, c.profiles, key) == Single
  }

  ghost function PairSlot(c: Ctx, item: Item, def: ItemDef, e: string, s: string): Option<Value>
    requires e in def.attributes
  {
    Slot(EnumStep(c, item, e, def.attributes[e], s).item, s)
  }

  /** A present enum without a supported sibling clears a null under its declared sibling name. */
  predicate Clears(c: Ctx, item: Item, def: ItemDef, n: string, key: string) {
    && SingleKey(c, def, n) && Attribute(item, n).Some?
    && def.attributes[n].enum.Some? && def.attributes[n].sibling == Some(key) && n !in def.links
  }

  ghost predicate Cleared(c: Ctx, item: Item, def: ItemDef, done: set<string>, key: string) {
    Removing(c) && Slot(item, key) == Some(Null) && exists n | n in done :: Clears(c, item, def, n, key)
  }

  ghost function SettledItem(c: Ctx, item: Item, def: ItemDef, used: set<string>): (r: Item)
    requires Ready(c) && Known(c, def)
    ensures forall key :: Slot(r, key) == SettledSlot(c, item, def, used, key)
    decreases Names(c) - used, 3
  {
    map key | key in item.Keys + def.owners.Keys && SettledSlot(c, item, def, used, key).Some?
      :: SettledSlot(c, item, def, used, key).value
  }

  ghost function SettledSlot(c: Ctx, item: Item, def: ItemDef, used: set<string>, key: string): (r: Option<Value>)
    requires Ready(c) && Known(c, def)
    ensures r.Some? ==> key in item.Keys + def.owners.Keys
    decreases Names(c) - used, 2
  {
    if PairKey(c, def, key) then PairSlot(c, item, def, def.owners[key], key)
    else if Cleared(c, item, def, def.attributes.Keys, key) then None
    else if SingleKey(c, def, key) && Attribute(item, key).Some? then
      Some(SettledValue(c, item[key], key, def.attributes[key], used))
    else Slot(item, key)
  }

  ghost function SettledValue(c: Ctx, v: Value, name: string, attr: AttrDef, used: set<string>): Value
    requires Ready(c) && name in Names(c)
    decreases Names(c) - used, 1
  {
    if !attr.isArray then SettledObject(c, v, name, attr, used)
    else if v.Arr? && !ScalarArray(attr) then
      Arr(seq(|v.elems|, i requires 0 <= i < |v.elems| => SettledObject(c, v.elems[i], name, attr, used)))
    else v
  }

  /** Whether the walk enters a value: an object of a defined type under a name not entered before. */
  predicate Enters(c: Ctx, v: Value, name: string, attr: AttrDef, used: set<string>) {
    Nested(c.cat, attr).Some? && v.Obj? && name !in used
  }

  ghost function SettledObject(c: Ctx, v: Value, name: string, attr: AttrDef, used: set<string>): Value
    requires Ready(c) && name in Names(c)
    decreases Names(c) - used, 0
  {
    if Enters(c, v, name, attr, used) then
      ObjectKnown(c, attr.objectType.value);
      Obj(SettledItem(c, v.fields, c.cat.objects[attr.objectType.value].item, used + {name}))
    else v
  }

  // ----- One pair at a time -----

  lemma {:induction false} RemoveArrayFrame(c: Ctx, item: Item, attr: AttrDef, s: string, elems: seq<Value>,
                                            siblings: seq<Value>,
                         force: bool, i: nat)
    requires i <= |elems| && (force || |elems| == |siblings|)
    ensures var r := RemoveArray(c, item, attr, s, elems, siblings, force, i).item;
      r == item || r == Without(item, s)
    decreases |elems| - i
  {
    if i < |elems| {
      RemoveArrayFrame(c, item, attr, s, elems, siblings, force, i + 1);
    }
  }

  /** A pair step changes nothing but the sibling. */
  lemma PairFrame(c: Ctx, item: Item, e: string, attr: AttrDef, s: string)
    ensures forall k | k != s :: Slot(EnumStep(c, item, e, attr, s).item, k) == Slot(item, k)
  {
    if Removing(c) && s in item && attr.isArray && item[s].Arr? && Attribute(item, e).Some? && item[e].Arr?
       && (c.enums == ForceRemove || |item[e].elems| == |item[s].elems|) {
      RemoveArrayFrame(c, item, attr, s, item[e].elems, item[s].elems, c.enums == ForceRemove, 0);
    }
  }

  lemma {:induction false} RemoveArrayDepends(c: Ctx, a: Item, b: Item, attr: AttrDef, s: string, elems: seq<Value>,
                                              siblings: seq<Value>, force: bool, i: nat)
    requires i <= |elems| && (force || |elems| == |siblings|)
    requires Slot(a, s) == Slot(b, s)
    ensures RemoveArray(c, a, attr, s, elems, siblings, force, i).trace == RemoveArray(c, b, attr, s, elems, siblings, force, i).trace
    ensures Slot(RemoveArray(c, a, attr, s, elems, siblings, force, i).item, s)
      == Slot(RemoveArray(c, b, attr, s, elems, siblings, force, i).item, s)
    decreases |elems| - i
  {
    if i < |elems| {
      RemoveArrayDepends(c, a, b, attr, s, elems, siblings, force, i + 1);
    }
  }

  /** A pair step reads nothing but its two attributes. */
  lemma PairDepends(c: Ctx, a: Item, b: Item, e: string, attr: AttrDef, s: string)
    requires Attribute(a, e) == Attribute(b, e) && Slot(a, s) == Slot(b, s)
    ensures EnumStep(c, a, e, attr, s).trace == EnumStep(c, b, e, attr, s).trace
    ensures Slot(EnumStep(c, a, e, attr, s).item, s) == Slot(EnumStep(c, b, e, attr, s).item, s)
  {
    if Removing(c) && s in a && attr.isArray && a[s].Arr? && Attribute(a, e).Some? && a[e].Arr?
       && (c.enums == ForceRemove || |a[e].elems| == |a[s].elems|) {
      RemoveArrayDepends(c, a, b, attr, s, a[e].elems, a[s].elems, c.enums == ForceRemove, 0);
    }
  }

  /** For a removal, a null sibling and an absent one come to the same; nothing leaves a null. */
  lemma PairNull(c: Ctx, item: Item, e: string, attr: AttrDef, s: string)
    requires Removing(c)
    ensures Attribute(item, s) == None ==> Slot(EnumStep(c, item, e, attr, s).item, s) == None
    ensures Slot(EnumStep(c, item, e, attr, s).item, s) != Some(Null)
  {
    if s in item && attr.isArray && item[s].Arr? && Attribute(item, e).Some? && item[e].Arr?
       && (c.enums == ForceRemove || |item[e].elems| == |item[s].elems|) {
      RemoveArrayFrame(c, item, attr, s, item[e].elems, item[s].elems, c.enums == ForceRemove, 0);
    }
  }

  // ----- The walk settles every key -----

  /** An item after the slots in `done`. */
  ghost predicate Stage(c: Ctx, orig: Item, cur: Item, def: ItemDef, used: set<string>, done: set<string>)
    requires Ready(c) && Known(c, def)
  {
    forall key :: Slot(cur, key) == StageSlot(c, orig, def, used, done, key)
  }

  predicate PairDone(c: Ctx, def: ItemDef, done: set<string>, key: string) {
    PairKey(c, def, key) && def.owners[key] in done
  }

  ghost function StageSlot(c: Ctx, orig: Item, def: ItemDef, used: set<string>, done: set<string>, key: string): Option<Value>
    requires Ready(c) && Known(c, def)
  {
    if PairDone(c, def, done, key) then PairSlot(c, orig, def, def.owners[key], key)
    else if Cleared(c, orig, def, done, key) then None
    else if SingleKey(c, def, key) && key in done && Attribute(orig, key).Some? then
      Some(SettledValue(c, orig[key], key, def.attributes[key], used))
    else Slot(orig, key)
  }

  /** A slot not yet reached reads its own attribute as the event had it. */
  lemma StageAttribute(c: Ctx, orig: Item, cur: Item, def: ItemDef, used: set<string>, done: set<string>, name: string)
    requires Ready(c) && Known(c, def) && Stage(c, orig, cur, def, used, done)
    requires name !in done && name in def.attributes
    requires DispatchOf(def, c.profiles, name).Single? || DispatchOf(def, c.profiles, name).Pair?
    ensures Attribute(cur, name) == Attribute(orig, name)
  {
    hide Ready, Known, PairSlot, SettledValue, Active, DispatchOf, Clears;
    Ends(c, def, name);
    assert !PairKey(c, def, name);
    assert Slot(cur, name) == StageSlot(c, orig, def, used, done, name);
  }

  lemma ClearedGrows(c: Ctx, orig: Item, def: ItemDef, done: set<string>, name: string, key: string)
    ensures Cleared(c, orig, def, done + {name}, key)
      <==> Cleared(c, orig, def, done, key)
           || (Removing(c) && Slot(orig, key) == Some(Null) && Clears(c, orig, def, name, key))
  {
    hide Clears;
  }

  /** A slot that dispatches nothing of its own leaves every other key's stage alone. */
  lemma StageSlotGrows(c: Ctx, orig: Item, def: ItemDef, used: set<string>, done: set<string>, name: string,
                       key: string)
    requires Ready(c) && Known(c, def) && name in def.attributes
    requires SingleKey(c, def, name) ==> key != name || Attribute(orig, name) == None
    requires PairKey(c, def, key) ==> def.owners[key] != name
    requires !Clears(c, orig, def, name, key)
    ensures StageSlot(c, orig, def, used, done + {name}, key) == StageSlot(c, orig, def, used, done, key)
  {
    ClearedGrows(c, orig, def, done, name, key);
    hide Ready, Known, Cleared, Clears, PairSlot, SettledValue, PairKey;
  }

  /** What the cache of a known item says of one name's links. */
  lemma Ends(c: Ctx, def: ItemDef, n: string)
    requires Known(c, def)
    ensures n in def.links ==>
      && n !in def.owners && n in def.attributes && def.links[n] in def.attributes && def.links[n] != n
      && def.links[n] in def.owners && def.owners[def.links[n]] == n
    ensures n in def.owners ==>
      && n !in def.links && n in def.attributes && def.owners[n] in def.attributes && def.owners[n] != n
      && def.owners[n] in def.links && def.links[def.owners[n]] == n
    ensures PairKey(c, def, n) ==>
      DispatchOf(def, c.profiles, n) == Owned && DispatchOf(def, c.profiles, def.owners[n]) == Pair(n)
    ensures n in def.attributes && DispatchOf(def, c.profiles, n).Pair? ==>
      PairKey(c, def, def.links[n]) && DispatchOf(def, c.profiles, n) == Pair(def.links[n])
    ensures SingleKey(c, def, n) ==> !PairKey(c, def, n)
  {
    hide *;
    KnownCached(c, def);
    PairEnds(def, n);
    LinkedApart(c, def, n);
    DispatchEnds(c, def, n);
  }

  lemma DispatchEnds(c: Ctx, def: ItemDef, n: string)
    requires Cached(def)
    ensures PairKey(c, def, n) ==>
      && n in def.attributes && def.owners[n] in def.attributes
      && DispatchOf(def, c.profiles, n) == Owned && DispatchOf(def, c.profiles, def.owners[n]) == Pair(n)
    ensures n in def.attributes && DispatchOf(def, c.profiles, n).Pair? ==>
      && n in def.links && def.links[n] in def.attributes
      && PairKey(c, def, def.links[n]) && DispatchOf(def, c.profiles, n) == Pair(def.links[n])
    ensures SingleKey(c, def, n) ==> !PairKey(c, def, n)
  {
    hide Cached, Active;
    PairEnds(def, n);
    if n in def.owners {
      PairEnds(def, def.owners[n]);
    }
  }

  lemma KnownCached(c: Ctx, def: ItemDef)
    requires Known(c, def)
    ensures Cached(def)
  {
  }

  /** A linked enum is not its own sibling. */
  lemma LinkedApart(c: Ctx, def: ItemDef, n: string)
    requires Known(c, def)
    ensures n in def.links ==> def.links[n] != n
    ensures n in def.owners ==> def.owners[n] != n
  {
    PairEnds(def, n);
    hide Known, Cached;
  }

  lemma StageAfterPair(c: Ctx, orig: Item, cur: Item, def: ItemDef, used: set<string>, done: set<string>, e: string,
                       s: string)
    requires Ready(c) && Known(c, def) && Stage(c, orig, cur, def, used, done)
    requires e !in done && e in def.attributes && DispatchOf(def, c.profiles, e) == Pair(s)
    ensures Stage(c, orig, EnumStep(c, cur, e, def.attributes[e], s).item, def, used, done + {e})
  {
    var next := EnumStep(c, cur, e, def.attributes[e], s).item;
    Ends(c, def, e);
    StageAttribute(c, orig, cur, def, used, done, e);
    forall key ensures Slot(next, key) == StageSlot(c, orig, def, used, done + {e}, key) {
      assert Slot(cur, key) == StageSlot(c, orig, def, used, done, key);
      if key == s {
        PairSettles(c, orig, cur, def, used, done, e, s);
      } else {
        PairFrame(c, cur, e, def.attributes[e], s);
        Ends(c, def, key);
        StageSlotGrows(c, orig, def, used, done, e, key);
      }
    }
  }

  lemma PairSettles(c: Ctx, orig: Item, cur: Item, def: ItemDef, used: set<string>, done: set<string>, e: string,
                    s: string)
    requires Ready(c) && Known(c, def)
    requires e !in done && e in def.attributes && DispatchOf(def, c.profiles, e) == Pair(s)
    requires Attribute(cur, e) == Attribute(orig, e) && Slot(cur, s) == StageSlot(c, orig, def, used, done, s)
    ensures Slot(EnumStep(c, cur, e, def.attributes[e], s).item, s) == StageSlot(c, orig, def, used, done + {e}, s)
  {
    var attr := def.attributes[e];
    Ends(c, def, e);
    Ends(c, def, s);
    hide Ready, Known, SettledValue, EnumStep;
    assert StageSlot(c, orig, def, used, done + {e}, s) == PairSlot(c, orig, def, e, s);
    assert !SingleKey(c, def, s);
    if Cleared(c, orig, def, done, s) {
      PairNull(c, cur, e, attr, s);
      PairNull(c, orig, e, attr, s);
    } else {
      PairDepends(c, cur, orig, e, attr, s);
    }
  }

  lemma SettledValueNotNull(c: Ctx, v: Value, name: string, attr: AttrDef, used: set<string>)
    requires Ready(c) && name in Names(c) && v != Null
    ensures SettledValue(c, v, name, attr, used) != Null
  {
  }

  lemma StageAfterAbsent(c: Ctx, orig: Item, cur: Item, def: ItemDef, used: set<string>, done: set<string>,
                         name: string)
    requires Ready(c) && Known(c, def) && Stage(c, orig, cur, def, used, done)
    requires name !in done && name in def.attributes
    requires match DispatchOf(def, c.profiles, name)
      case Single => Attribute(orig, name) == None
      case Pair(_) => false
      case _ => true
    ensures Stage(c, orig, cur, def, used, done + {name})
  {
    assert forall key :: !Clears(c, orig, def, name, key);
    hide Ready, Known, Active, Clears, SettledValue, PairSlot, DispatchOf;
    forall key ensures Slot(cur, key) == StageSlot(c, orig, def, used, done + {name}, key) {
      assert Slot(cur, key) == StageSlot(c, orig, def, used, done, key);
      Ends(c, def, key);
      StageSlotGrows(c, orig, def, used, done, name, key);
    }
  }

  lemma StageAfterPresent(c: Ctx, orig: Item, cur: Item, def: ItemDef, used: set<string>, done: set<string>,
                          name: string)
    requires Ready(c) && Known(c, def) && Stage(c, orig, cur, def, used, done)
    requires name !in done && SingleKey(c, def, name) && Attribute(orig, name).Some?
    ensures Stage(c, orig,
      RetainUnsupported(c, cur, def, name).item[name := SettledValue(c, orig[name], name, def.attributes[name], used)],
      def, used, done + {name})
  {
    var kept := RetainUnsupported(c, cur, def, name).item;
    var next := kept[name := SettledValue(c, orig[name], name, def.attributes[name], used)];
    forall key ensures Slot(next, key) == StageSlot(c, orig, def, used, done + {name}, key) {
      assert Slot(cur, key) == StageSlot(c, orig, def, used, done, key);
      if key == name {
        OwnStage(c, orig, def, used, done, name);
      } else if Clears(c, orig, def, name, key) {
        KeySettlesUnderClear(c, orig, cur, def, used, done, name, key);
      } else {
        RetainFrame(c, orig, cur, def, name, key);
        OwnerIsPair(c, def, name, key);
        StageSlotGrows(c, orig, def, used, done, name, key);
      }
    }
  }

  lemma OwnerIsPair(c: Ctx, def: ItemDef, name: string, key: string)
    requires Known(c, def) && SingleKey(c, def, name)
    ensures PairKey(c, def, key) ==> def.owners[key] != name
  {
    hide Known, Active;
    Ends(c, def, key);
  }

  lemma OwnStage(c: Ctx, orig: Item, def: ItemDef, used: set<string>, done: set<string>, name: string)
    requires Ready(c) && Known(c, def) && SingleKey(c, def, name) && Attribute(orig, name).Some?
    ensures StageSlot(c, orig, def, used, done + {name}, name)
      == Some(SettledValue(c, orig[name], name, def.attributes[name], used))
  {
    hide Ready, Known, SettledValue, Active, DispatchOf;
    Ends(c, def, name);
  }

  lemma RetainFrame(c: Ctx, orig: Item, cur: Item, def: ItemDef, name: string, key: string)
    requires SingleKey(c, def, name) && Attribute(orig, name).Some? && !Clears(c, orig, def, name, key)
    ensures Slot(RetainUnsupported(c, cur, def, name).item, key) == Slot(cur, key)
  {
    hide Active, DispatchOf;
  }

  lemma RetainEffect(c: Ctx, orig: Item, cur: Item, def: ItemDef, name: string, key: string)
    requires Clears(c, orig, def, name, key)
    ensures Slot(RetainUnsupported(c, cur, def, name).item, key)
      == if Removing(c) && Slot(cur, key) == Some(Null) then None else Slot(cur, key)
  {
    hide Active;
  }

  /** The key a present enum clears: gone exactly when the event had a null there. */
  lemma KeySettlesUnderClear(c: Ctx, orig: Item, cur: Item, def: ItemDef, used: set<string>, done: set<string>,
                             name: string, key: string)
    requires Ready(c) && Known(c, def)
    requires key != name && Clears(c, orig, def, name, key)
    requires Slot(cur, key) == StageSlot(c, orig, def, used, done, key)
    ensures Slot(RetainUnsupported(c, cur, def, name).item, key) == StageSlot(c, orig, def, used, done + {name}, key)
  {
    RetainEffect(c, orig, cur, def, name, key);
    StageSlotCleared(c, orig, def, used, done, name, key);
    if Removing(c) {
      NullStage(c, orig, def, used, done, key);
    }
    hide *;
  }

  lemma StageSlotCleared(c: Ctx, orig: Item, def: ItemDef, used: set<string>, done: set<string>, name: string,
                         key: string)
    requires Ready(c) && Known(c, def)
    requires key != name && Clears(c, orig, def, name, key)
    ensures StageSlot(c, orig, def, used, done + {name}, key)
      == if Removing(c) && Slot(orig, key) == Some(Null) && !PairDone(c, def, done, key) then None
         else StageSlot(c, orig, def, used, done, key)
  {
    hide Ready, Known, Cleared, PairSlot, SettledValue, StageSlot, Active, DispatchOf;
    ClearedGrows(c, orig, def, done, name, key);
    Ends(c, def, key);
    Ends(c, def, name);
    assert PairDone(c, def, done + {name}, key) == PairDone(c, def, done, key);
    StageSlotForms(c, orig, def, used, done, done + {name}, key);
    hide *;
  }

  /** Two stages that differ at a key differ by what has been cleared or settled there. */
  lemma StageSlotForms(c: Ctx, orig: Item, def: ItemDef, used: set<string>, done: set<string>, more: set<string>,
                       key: string)
    requires Ready(c) && Known(c, def) && PairDone(c, def, more, key) == PairDone(c, def, done, key)
    requires key in more <==> key in done
    ensures PairDone(c, def, done, key) ==>
      StageSlot(c, orig, def, used, more, key) == StageSlot(c, orig, def, used, done, key)
    ensures !PairDone(c, def, done, key) && Cleared(c, orig, def, more, key) ==>
      StageSlot(c, orig, def, used, more, key) == None
    ensures !PairDone(c, def, done, key) && Cleared(c, orig, def, more, key) == Cleared(c, orig, def, done, key) ==>
      StageSlot(c, orig, def, used, more, key) == StageSlot(c, orig, def, used, done, key)
  {
    hide Ready, Known, Cleared, PairSlot, SettledValue, PairKey, SingleKey;
  }

  /** Under a removal a stage holds a null exactly where the event did and no slot has settled it. */
  lemma NullStage(c: Ctx, orig: Item, def: ItemDef, used: set<string>, done: set<string>, key: string)
    requires Ready(c) && Known(c, def) && Removing(c)
    ensures StageSlot(c, orig, def, used, done, key) == Some(Null) ==>
      Slot(orig, key) == Some(Null) && !PairDone(c, def, done, key)
    ensures Slot(orig, key) == Some(Null) && !PairDone(c, def, done, key) ==>
      StageSlot(c, orig, def, used, done, key) in {None, Some(Null)}
  {
    hide Active, DispatchOf, Clears;
    if PairKey(c, def, key) && def.owners[key] in done {
      Ends(c, def, key);
      PairNull(c, orig, def.owners[key], def.attributes[def.owners[key]], key);
    } else if SingleKey(c, def, key) && Attribute(orig, key).Some? {
      SettledValueNotNull(c, orig[key], key, def.attributes[key], used);
    }
  }

  lemma SameSlots(a: Item, b: Item)
    requires forall key :: Slot(a, key) == Slot(b, key)
    ensures a == b
  {
    forall key ensures key in a <==> key in b {
      assert Slot(a, key) == Slot(b, key);
    }
    forall key | key in a ensures a[key] == b[key] {
      assert Slot(a, key) == Slot(b, key);
    }
  }

  lemma StageStart(c: Ctx, orig: Item, def: ItemDef, used: set<string>)
    requires Ready(c) && Known(c, def)
    ensures Stage(c, orig, orig, def, used, {})
  {
    hide Ready, Known, PairSlot, SettledValue, PairKey, SingleKey, Clears;
  }

  lemma StageEnd(c: Ctx, orig: Item, cur: Item, def: ItemDef, used: set<string>, done: set<string>)
    requires Ready(c) && Known(c, def) && Stage(c, orig, cur, def, used, done) && done == def.attributes.Keys
    ensures cur == SettledItem(c, orig, def, used)
  {
    var settled := SettledItem(c, orig, def, used);
    forall key ensures Slot(cur, key) == Slot(settled, key) {
      assert Slot(cur, key) == StageSlot(c, orig, def, used, done, key);
      LastStageSlot(c, orig, def, used, key);
    }
    SameSlots(cur, settled);
  }

  lemma SingleIsAttribute(c: Ctx, def: ItemDef, key: string)
    ensures SingleKey(c, def, key) ==> key in def.attributes
  {
  }

  lemma LastStageSlot(c: Ctx, orig: Item, def: ItemDef, used: set<string>, key: string)
    requires Ready(c) && Known(c, def)
    ensures StageSlot(c, orig, def, used, def.attributes.Keys, key) == SettledSlot(c, orig, def, used, key)
  {
    SingleIsAttribute(c, def, key);
    hide Ready, PairSlot, SettledValue, Cleared, Active, DispatchOf;
    assert PairKey(c, def, key) ==> def.owners[key] in def.attributes;
    hide Known;
  }

  lemma UsedAt(path: Elems, name: string, index: Elems)
    requires |index| <= 1 && forall i | 0 <= i < |index| :: index[i].ArrayIndex?
    ensures Used(path + [EP.Attribute(name)] + index) == Used(path) + {name}
    ensures EP.PriorAttribute(path + [EP.Attribute(name)] + index, name) <==> name in Used(path)
  {
    NamesAt(path, name, index);
  }

  /** The walk over the ordered attributes leaves exactly the settled item. */
  lemma {:induction false} VisitSettles(c: Ctx, item: Item, def: ItemDef, path: Elems)
    requires Ready(c) && Known(c, def)
    ensures VisitItem(c, item, def, path).item == SettledItem(c, item, def, Used(path))
    decreases Unused(c, path), 5
  {
    hide Ready, Known, Stage, VisitFrom, SettledItem;
    KnownOrder(c, def);
    StageStart(c, item, def, Used(path));
    FromSettles(c, item, item, def, def.ordered, {}, path);
    var cur := VisitItem(c, item, def, path).item;
    assert {} + (set n | n in def.ordered) == def.attributes.Keys;
    StageEnd(c, item, cur, def, Used(path), def.attributes.Keys);
  }

  lemma {:induction false} FromSettles(c: Ctx, orig: Item, cur: Item, def: ItemDef, names: seq<string>,
                                       done: set<string>, path: Elems)
    requires Ready(c) && Known(c, def) && Stage(c, orig, cur, def, Used(path), done)
    requires Ascending(names) && forall n | n in names :: n in def.attributes && n !in done
    ensures Stage(c, orig, VisitFrom(c, cur, def, names, path).item, def, Used(path), done + set n | n in names)
    decreases Unused(c, path), 4, |names|
  {
    hide Ready, Known, Stage, VisitOne;
    if names == [] {
      assert done + (set n | n in names) == done;
    } else {
      OneSettles(c, orig, cur, def, names[0], done, path);
      AscendingTail(names);
      hide Ascending;
      FromSettles(c, orig, VisitOne(c, cur, def, names[0], path).item, def, names[1..], done + {names[0]}, path);
      assert done + {names[0]} + (set n | n in names[1..]) == done + ({names[0]} + (set n | n in names[1..]));
    }
  }

  lemma {:induction false} OneSettles(c: Ctx, orig: Item, cur: Item, def: ItemDef, name: string, done: set<string>,
                                      path: Elems)
    requires Ready(c) && Known(c, def) && Stage(c, orig, cur, def, Used(path), done)
    requires name in def.attributes && name !in done
    ensures Stage(c, orig, VisitOne(c, cur, def, name, path).item, def, Used(path), done + {name})
    decreases Unused(c, path), 3
  {
    hide Ready, Known, Stage, DispatchOf;
    match DispatchOf(def, c.profiles, name)
    case Pair(s) =>
      StageAfterPair(c, orig, cur, def, Used(path), done, name, s);
    case Single =>
      StageAttribute(c, orig, cur, def, Used(path), done, name);
      if Attribute(orig, name) == None {
        StageAfterAbsent(c, orig, cur, def, Used(path), done, name);
      } else {
        KnownName(c, def, name);
        PresentSettles(c, RetainUnsupported(c, cur, def, name).item, orig[name], name, def.attributes[name], path);
        StageAfterPresent(c, orig, cur, def, Used(path), done, name);
      }
    case _ =>
      StageAfterAbsent(c, orig, cur, def, Used(path), done, name);
  }

  lemma {:induction false} PresentSettles(c: Ctx, item: Item, v: Value, name: string, attr: AttrDef, path: Elems)
    requires Ready(c) && name in Names(c)
    ensures VisitPresent(c, item, v, name, attr, path).value == SettledValue(c, v, name, attr, Used(path))
    decreases Unused(c, path), 2
  {
    hide Ready, Names, SettledObject;
    if !attr.isArray {
      ValueSettles(c, item, v, name, attr, path, []);
    } else if v.Arr? && !ScalarArray(attr) {
      ElemsSettle(c, item, v.elems, name, attr, path, 0);
    }
  }

  lemma {:induction false} ElemsSettle(c: Ctx, item: Item, elems: seq<Value>, name: string, attr: AttrDef,
                                       path: Elems, i: nat)
    requires Ready(c) && name in Names(c) && i <= |elems|
    ensures forall j | i <= j < |elems| ::
      VisitElems(c, item, elems, name, attr, path, i).elems[j - i] == SettledObject(c, elems[j], name, attr, Used(path))
    decreases Unused(c, path), 1, |elems| - i
  {
    hide Ready, Names, SettledObject;
    if i < |elems| {
      ValueSettles(c, item, elems[i], name, attr, path, [EP.ArrayIndex(i)]);
      ElemsSettle(c, item, elems, name, attr, path, i + 1);
    }
  }

  lemma {:induction false} ValueSettles(c: Ctx, item: Item, v: Value, name: string, attr: AttrDef, path: Elems,
                                        index: Elems)
    requires Ready(c) && name in Names(c)
    requires |index| <= 1 && forall i | 0 <= i < |index| :: index[i].ArrayIndex?
    ensures VisitValue(c, item, v, name, attr, path, index).value == SettledObject(c, v, name, attr, Used(path))
    decreases Unused(c, path), 0
  {
    hide Ready, Names, Judged, MayGenerateAt, Used, EP.PriorAttribute, VisitItem, SettledItem, PrimitiveStep, Unused;
    UsedAt(path, name, index);
    if Enters(c, v, name, attr, Used(path)) {
      UnusedShrinks(c, path, name, index);
      ObjectKnown(c, attr.objectType.value);
      VisitSettles(c, v.fields, c.cat.objects[attr.objectType.value].item, path + [EP.Attribute(name)] + index);
    }
  }

  /** Settling keeps a single attribute present or absent. */
  lemma SettledSingle(c: Ctx, item: Item, def: ItemDef, used: set<string>, n: string)
    requires Ready(c) && Known(c, def) && SingleKey(c, def, n)
    ensures Attribute(SettledItem(c, item, def, used), n).Some? <==> Attribute(item, n).Some?
    ensures Attribute(item, n).Some? ==>
      Slot(SettledItem(c, item, def, used), n) == Some(SettledValue(c, item[n], n, def.attributes[n], used))
  {
    hide Ready, Known, SettledItem, SettledSlot, SettledValue, SingleKey;
    SettledAt(c, item, def, used, n);
    SingleSettledSlot(c, item, def, used, n);
  }

  lemma SettledAt(c: Ctx, item: Item, def: ItemDef, used: set<string>, key: string)
    requires Ready(c) && Known(c, def)
    ensures Slot(SettledItem(c, item, def, used), key) == SettledSlot(c, item, def, used, key)
  {
    hide Ready, Known, SettledSlot;
    var settled := SettledItem(c, item, def, used);
    assert Slot(settled, key) == SettledSlot(c, item, def, used, key);
  }

  lemma SingleSettledSlot(c: Ctx, item: Item, def: ItemDef, used: set<string>, n: string)
    requires Ready(c) && Known(c, def) && SingleKey(c, def, n)
    ensures n in Names(c)
    ensures if Attribute(item, n).Some?
            then SettledSlot(c, item, def, used, n) == Some(SettledValue(c, item[n], n, def.attributes[n], used))
                 && SettledValue(c, item[n], n, def.attributes[n], used) != Null
            else SettledSlot(c, item, def, used, n) in {None, Some(Null)}
  {
    hide Ready, Known, SettledValue, DispatchOf, Active, PairSlot, Clears, Names;
    KnownName(c, def, n);
    Ends(c, def, n);
    if Attribute(item, n).Some? {
      SettledValueNotNull(c, item[n], n, def.attributes[n], used);
    }
  }

  /** Settling keeps the enum of an active pair. */
  lemma SettledOwner(c: Ctx, item: Item, def: ItemDef, used: set<string>, e: string)
    requires Ready(c) && Known(c, def) && e in def.attributes && DispatchOf(def, c.profiles, e).Pair?
    ensures Attribute(SettledItem(c, item, def, used), e) == Attribute(item, e)
  {
    var settled := SettledItem(c, item, def, used);
    assert Slot(settled, e) == SettledSlot(c, item, def, used, e);
    hide Ready, Known, SettledItem, SettledValue, Active, PairSlot, Clears;
    Ends(c, def, e);
    assert !PairKey(c, def, e) && !SingleKey(c, def, e);
    hide DispatchOf, PairKey, SingleKey;
  }

  /** Settling keeps every attribute that no active slot dispatches. */
  lemma SettledOther(c: Ctx, item: Item, def: ItemDef, used: set<string>, key: string)
    requires Ready(c) && Known(c, def)
    requires !PairKey(c, def, key) && (SingleKey(c, def, key) ==> Attribute(item, key) == None)
    ensures Attribute(SettledItem(c, item, def, used), key) == Attribute(item, key)
  {
    var settled := SettledItem(c, item, def, used);
    assert Slot(settled, key) == SettledSlot(c, item, def, used, key);
    hide Ready, Known, SettledItem, SettledValue, Clears, PairSlot, Active, DispatchOf, PairKey, SingleKey;
  }

  /** Settling keeps scalars. */
  lemma SettledScalar(c: Ctx, v: Value, name: string, attr: AttrDef, used: set<string>)
    requires Ready(c) && name in Names(c) && !v.Arr? && !v.Obj?
    ensures SettledValue(c, v, name, attr, used) == v
  {
    hide Ready, Names;
  }

  lemma SettledPair(c: Ctx, item: Item, def: ItemDef, used: set<string>, key: string)
    requires Ready(c) && Known(c, def) && PairKey(c, def, key)
    ensures def.owners[key] in def.attributes
    ensures Slot(SettledItem(c, item, def, used), key) == PairSlot(c, item, def, def.owners[key], key)
  {
    var settled := SettledItem(c, item, def, used);
    assert Slot(settled, key) == SettledSlot(c, item, def, used, key);
    hide Ready, SettledItem, SettledValue, Clears, PairSlot, Active, DispatchOf;
  }
}
