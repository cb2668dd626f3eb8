/** What validation asks on its way through an event, told from the event and the schema alone: which hook, where, and
    about which value. */
module Judgements {
  import opened Text
  import opened Values
  import opened Schema
  import opened Walk
  import opened Settling
  import opened Observed
  import opened Boundary
  import NE = NumericEnum
  import EP = EventPath

  /** A question to the read-only hooks. The item that goes with it is on its way from `before` to `after`. */
  datatype Question = Question(hook: Hook, value: Value, before: Item, after: Item)

  /** Each key is as it was or as it will be. */
  ghost predicate OnTheWay(before: Item, item: Item, after: Item) {
    forall key :: Slot(item, key) == Slot(before, key) || Slot(item, key) == Slot(after, key)
  }

  predicate Given(item: Item, name: string) {
    name in item && item[name] != Null
  }

  /** An active integral enum with an active string sibling, both arrays or neither. */
  predicate Couple(def: ItemDef, profiles: set<string>, e: string, s: string) {
    && e in def.attributes && InProfiles(def.attributes[e], profiles)
    && s in def.attributes && InProfiles(def.attributes[s], profiles)
    && var enum, sibling := def.attributes[e], def.attributes[s];
    && enum.enum.Some? && enum.sibling == Some(s) && enum.typ in {"integer_t", "long_t"}
    && sibling.enum == None && sibling.typ == "string_t" && sibling.isArray == enum.isArray
  }

  predicate OfCouple(def: ItemDef, profiles: set<string>, name: string) {
    exists n | n in def.attributes :: Couple(def, profiles, name, n) || Couple(def, profiles, n, name)
  }

  predicate InScalarArray(attr: AttrDef) {
    attr.isArray && attr.primitive in {"boolean_t", "float_t", "integer_t", "long_t", "string_t"}
  }

  // ----- The questions -----

  /** What is asked of an attribute as such: nothing of a sibling, once of a couple, else by its presence. */
  ghost predicate AskedHere(c: Ctx, def: ItemDef, item: Item, used: set<string>, name: string, q: Question)
    requires Ready(c) && Known(c, def) && name in def.attributes
  {
    && q.before == item && q.after == SettledItem(c, item, def, used)
    && if !InProfiles(def.attributes[name], c.profiles) then
         Given(item, name) && q.hook == OnInactive && q.value == item[name]
       else if OfCouple(def, c.profiles, name) then
         q.hook.OnPair? && Couple(def, c.profiles, name, q.hook.sibling) && q.value == Null
       else if Given(item, name) then q.hook == OnPresent && q.value == item[name]
       else q.hook == OnMissing && q.value == Null
  }

  /** What is asked at a path below an item: of its attributes, of their values, and inside the objects among these. */
  ghost predicate Asked(c: Ctx, def: ItemDef, item: Item, used: set<string>, rel: Elems, q: Question)
    requires Ready(c) && Known(c, def)
    decreases |rel|, 0
  {
    rel != [] && rel[0].Attribute? && rel[0].name in def.attributes
    && AskedOf(c, def, item, used, rel[0].name, rel[1..], q)
  }

  ghost predicate AskedOf(c: Ctx, def: ItemDef, item: Item, used: set<string>, name: string, rest: Elems, q: Question)
    requires Ready(c) && Known(c, def) && name in def.attributes
    decreases |rest|, 3
  {
    || (rest == [] && AskedHere(c, def, item, used, name, q))
    || (Given(item, name) && InProfiles(def.attributes[name], c.profiles) && !OfCouple(def, c.profiles, name)
        && AskedIn(c, name, def.attributes[name], item[name], item, SettledItem(c, item, def, used), used, rest, q))
  }

  ghost predicate AskedIn(c: Ctx, name: string, attr: AttrDef, v: Value, before: Item, after: Item, used: set<string>,
                          rest: Elems, q: Question)
    requires Ready(c)
    decreases |rest|, 2
  {
    if !attr.isArray then AskedOn(c, name, attr, v, before, after, used, rest, q)
    else if !v.Arr? then rest == [] && q == Question(OnArrayWrongType, v, before, after)
    else
      && rest != [] && rest[0].ArrayIndex? && rest[0].index < |v.elems|
      && AskedOn(c, name, attr, v.elems[rest[0].index], before, after, used, rest[1..], q)
  }

  /** What is asked of one value, and inside it when it is an object the walk enters. */
  ghost predicate AskedOn(c: Ctx, name: string, attr: AttrDef, v: Value, before: Item, after: Item, used: set<string>,
                          rest: Elems, q: Question)
    requires Ready(c)
    decreases |rest|, 1
  {
    || (rest == [] && AskedThere(c, name, attr, v, before, after, used, q))
    || (Opened(c, name, attr, v, used)
        && var inside := (ObjectKnown(c, attr.objectType.value); c.cat.objects[attr.objectType.value].item);
           Asked(c, inside, v.fields, used + {name}, rest, q))
  }

  /** An object of a defined type, not of scalars, under a name not entered above. */
  predicate Opened(c: Ctx, name: string, attr: AttrDef, v: Value, used: set<string>) {
    !OfScalars(attr) && IsObject(c, Place(name, attr, v, name in used))
  }

  ghost predicate AskedThere(c: Ctx, name: string, attr: AttrDef, v: Value, before: Item, after: Item,
                             used: set<string>, q: Question)
    requires Ready(c)
  {
    if InScalarArray(attr) then
      || q == Question(OnElementPrimitive, v, before, after)
      || (attr.enum.Some? && q == Question(OnElementEnum, v, before, after))
    else
      || (attr.enum.Some? && q == Question(OnEnum, v, before, after))
      || (attr.typ != "object_t" && q == Question(OnPrimitive, v, before, after))
      || (attr.typ == "object_t" && !v.Obj? && q == Question(OnObjectWrongType, v, before, after))
      || (attr.typ == "object_t" && v.Obj? && attr.objectType.Some? && attr.objectType.value !in c.cat.objects
          && q == Question(OnSchemaMissing, v, before, after))
      || (Opened(c, name, attr, v, used) && AskedOfObject(c, name, attr, v, used, q))
  }

  /** An object is asked about as it came, and once more as it is left. */
  ghost predicate AskedOfObject(c: Ctx, name: string, attr: AttrDef, v: Value, used: set<string>, q: Question)
    requires Ready(c) && Opened(c, name, attr, v, used)
  {
    ObjectKnown(c, attr.objectType.value);
    var left := SettledItem(c, v.fields, c.cat.objects[attr.objectType.value].item, used + {name});
    q == Question(OnObject, v, v.fields, v.fields) || q == Question(OnObjectDone, Null, left, left)
  }

  // ----- The answers -----

  /** The hook finds the code, for every item on the way, or for one. */
  ghost predicate Answers(c: Ctx, q: Question, at: Elems, code: Code, sure: bool) {
    if sure then forall item | OnTheWay(q.before, item, q.after) :: code in c.judge(q.hook, at, item, q.value)
    else exists item | OnTheWay(q.before, item, q.after) :: code in c.judge(q.hook, at, item, q.value)
  }

  ghost predicate Answered(c: Ctx, def: ItemDef, item: Item, path: Elems, code: Code, sure: bool)
    requires Ready(c) && Known(c, def)
  {
    exists rel, q :: Asked(c, def, item, Used(path), rel, q) && Answers(c, q, path + rel, code, sure)
  }

  /** A validating walk finds what the hooks answer to these questions, and nothing else; another finds nothing. */
  lemma {:induction false} FoundExactly(c: Ctx, item: Item, def: ItemDef, path: Elems, code: Code)
    requires Ready(c) && Known(c, def)
    ensures var found := Find(code) in VisitItem(c, item, def, path).trace;
      && (found ==> c.validating && Answered(c, def, item, path, code, false))
      && (c.validating && Answered(c, def, item, path, code, true) ==> found)
    decreases Unused(c, path), 5
  {
    hide *;
    ItemTold(c, item, def, path, code);
    ToldMeans(c, VisitItem(c, item, def, path).trace, code, Answered(c, def, item, path, code, false),
              Answered(c, def, item, path, code, true));
  }

  // ----- Traces -----

  /** The trace finds the code only if it may, and does if it must. */
  predicate Told(c: Ctx, trace: seq<Effect>, code: Code, may: bool, must: bool) {
    (Find(code) in trace ==> c.validating && may) && (c.validating && must ==> Find(code) in trace)
  }

  lemma ToldMeans(c: Ctx, trace: seq<Effect>, code: Code, may: bool, must: bool)
    requires Told(c, trace, code, may, must)
    ensures Find(code) in trace ==> c.validating && may
    ensures c.validating && must ==> Find(code) in trace
  {
  }

  lemma BothTold(c: Ctx, a: seq<Effect>, b: seq<Effect>, code: Code, mayA: bool, mustA: bool, mayB: bool, mustB: bool)
    requires Told(c, a, code, mayA, mustA) && Told(c, b, code, mayB, mustB)
    ensures Told(c, a + b, code, mayA || mayB, mustA || mustB)
  {
  }

  lemma SilentTold(c: Ctx, trace: seq<Effect>, code: Code)
    requires Silent(trace)
    ensures Told(c, trace, code, false, false)
  {
  }

  lemma JudgedTold(c: Ctx, q: Question, at: Elems, item: Item, code: Code)
    requires OnTheWay(q.before, item, q.after)
    ensures Told(c, Judged(c, q.hook, at, item, q.value), code, Answers(c, q, at, code, false), Answers(c, q, at, code, true))
  {
    var codes := c.judge(q.hook, at, item, q.value);
    if c.validating && code in codes {
      var i: nat :| i < |codes| && codes[i] == code;
      assert Judged(c, q.hook, at, item, q.value)[i] == Find(code);
    }
    hide OnTheWay;
  }

  // ----- Couples -----

  lemma CoupleLinked(c: Ctx, def: ItemDef, e: string, s: string)
    requires Known(c, def)
    ensures Couple(def, c.profiles, e, s) <==>
      e in def.links && def.links[e] == s && ActiveName(def, c.profiles, e) && ActiveName(def, c.profiles, s)
  {
    hide Known, Cached, LinkOf, InProfiles, Active;
    KnownCached(c, def);
    CachedLink(def, e);
    if e in def.attributes && s in def.attributes {
      LinkIs(def.attributes, e, s);
    }
    if e in def.attributes {
      SameActive(def.attributes[e], c.profiles);
    }
    if s in def.attributes {
      SameActive(def.attributes[s], c.profiles);
    }
  }

  lemma CachedLink(def: ItemDef, e: string)
    requires Cached(def)
    ensures e in def.links <==> LinkOf(def.attributes, e).Some?
    ensures e in def.links ==> LinkOf(def.attributes, e) == Some(def.links[e])
  {
    hide NE.Compiled, NeedsIndex, Unshared, LinkOf, Ascending;
    assert e in def.links <==> LinkOf(def.attributes, e).Some?;
  }

  lemma LinkIs(attributes: map<string, AttrDef>, e: string, s: string)
    requires e in attributes && s in attributes
    ensures LinkOf(attributes, e) == Some(s) <==>
      var enum, sibling := attributes[e], attributes[s];
      && enum.enum.Some? && enum.sibling == Some(s) && enum.typ in {"integer_t", "long_t"}
      && sibling.enum == None && sibling.typ == "string_t" && sibling.isArray == enum.isArray
  {
  }

  lemma CoupleDispatched(c: Ctx, def: ItemDef, name: string)
    requires Known(c, def) && name in def.attributes
    ensures DispatchOf(def, c.profiles, name) == Inactive <==> !InProfiles(def.attributes[name], c.profiles)
    ensures DispatchOf(def, c.profiles, name).Pair? ==>
      Couple(def, c.profiles, name, DispatchOf(def, c.profiles, name).sibling)
    ensures forall s | Couple(def, c.profiles, name, s) :: DispatchOf(def, c.profiles, name) == Pair(s)
    ensures DispatchOf(def, c.profiles, name).Owned? || DispatchOf(def, c.profiles, name).Pair? <==>
      OfCouple(def, c.profiles, name)
  {
    hide Known, Couple, InProfiles, Active;
    var dispatch := DispatchOf(def, c.profiles, name);
    SameActive(def.attributes[name], c.profiles);
    Ends(c, def, name);
    if dispatch.Owned? {
      CoupleLinked(c, def, def.owners[name], name);
    }
    if dispatch.Pair? {
      CoupleLinked(c, def, name, dispatch.sibling);
    }
    forall s | Couple(def, c.profiles, name, s)
      ensures dispatch == Pair(s)
    {
      CoupleLinked(c, def, name, s);
    }
    if n: string :| n in def.attributes && Couple(def, c.profiles, n, name) {
      CoupleLinked(c, def, n, name);
      Ends(c, def, n);
    }
  }

  lemma SameActive(attr: AttrDef, profiles: set<string>)
    ensures Active(attr, profiles) <==> InProfiles(attr, profiles)
  {
  }

  // ----- The item a question goes with -----

  lemma StageOnTheWay(c: Ctx, orig: Item, cur: Item, def: ItemDef, used: set<string>, done: set<string>)
    requires Ready(c) && Known(c, def) && Stage(c, orig, cur, def, used, done) && done <= def.attributes.Keys
    ensures OnTheWay(orig, cur, SettledItem(c, orig, def, used))
  {
    hide Ready, Known, StageSlot, SettledSlot, SettledItem;
    forall key
      ensures Slot(cur, key) == Slot(orig, key) || Slot(cur, key) == Slot(SettledItem(c, orig, def, used), key)
    {
      assert Slot(cur, key) == StageSlot(c, orig, def, used, done, key);
      SettledAt(c, orig, def, used, key);
      StageOrSettled(c, orig, def, used, done, key);
    }
  }

  lemma StageOrSettled(c: Ctx, orig: Item, def: ItemDef, used: set<string>, done: set<string>, key: string)
    requires Ready(c) && Known(c, def) && done <= def.attributes.Keys
    ensures StageSlot(c, orig, def, used, done, key) == Slot(orig, key)
      || StageSlot(c, orig, def, used, done, key) == SettledSlot(c, orig, def, used, key)
  {
    hide Ready, Known, PairSlot, SettledValue, SettledItem, PairKey, SingleKey, Clears;
    Ends(c, def, key);
    if !PairDone(c, def, done, key) && Cleared(c, orig, def, done, key) {
      assert Cleared(c, orig, def, def.attributes.Keys, key);
      if PairKey(c, def, key) {
        ClearedPair(c, orig, def, key);
      }
    }
  }

  lemma ClearedPair(c: Ctx, orig: Item, def: ItemDef, key: string)
    requires Known(c, def) && PairKey(c, def, key) && Removing(c) && Slot(orig, key) == Some(Null)
    ensures def.owners[key] in def.attributes && PairSlot(c, orig, def, def.owners[key], key) == None
  {
    hide Known, PairKey, EnumStep;
    Ends(c, def, key);
    PairNull(c, orig, def.owners[key], def.attributes[def.owners[key]], key);
  }

  /** An inactive attribute is on its way as it came. */
  lemma InactiveGiven(c: Ctx, orig: Item, cur: Item, def: ItemDef, used: set<string>, done: set<string>, name: string)
    requires Ready(c) && Known(c, def) && Stage(c, orig, cur, def, used, done)
    requires name in def.attributes && DispatchOf(def, c.profiles, name) == Inactive
    ensures Attribute(cur, name) == Attribute(orig, name)
  {
    hide Ready, Known, PairSlot, SettledValue, Clears;
    assert Slot(cur, name) == StageSlot(c, orig, def, used, done, name);
  }

  // ----- Answers, level by level -----

  ghost predicate AnsweredHere(c: Ctx, def: ItemDef, item: Item, path: Elems, name: string, code: Code, sure: bool)
    requires Ready(c) && Known(c, def) && name in def.attributes
  {
    exists q :: AskedHere(c, def, item, Used(path), name, q) && Answers(c, q, path + [EP.Attribute(name)], code, sure)
  }

  ghost predicate AnsweredOf(c: Ctx, def: ItemDef, item: Item, path: Elems, name: string, code: Code, sure: bool)
    requires Ready(c) && Known(c, def) && name in def.attributes
  {
    exists rest, q ::
      AskedOf(c, def, item, Used(path), name, rest, q) && Answers(c, q, path + [EP.Attribute(name)] + rest, code, sure)
  }

  ghost predicate AnsweredIn(c: Ctx, name: string, attr: AttrDef, v: Value, before: Item, after: Item, path: Elems,
                             code: Code, sure: bool)
    requires Ready(c)
  {
    exists rest, q ::
      && AskedIn(c, name, attr, v, before, after, Used(path), rest, q)
      && Answers(c, q, path + [EP.Attribute(name)] + rest, code, sure)
  }

  ghost predicate AnsweredOn(c: Ctx, name: string, attr: AttrDef, v: Value, before: Item, after: Item, path: Elems,
                             index: Elems, code: Code, sure: bool)
    requires Ready(c)
  {
    exists rest, q ::
      && AskedOn(c, name, attr, v, before, after, Used(path), rest, q)
      && Answers(c, q, path + [EP.Attribute(name)] + index + rest, code, sure)
  }

  ghost predicate AnsweredThere(c: Ctx, name: string, attr: AttrDef, v: Value, before: Item, after: Item, path: Elems,
                                index: Elems, code: Code, sure: bool)
    requires Ready(c)
  {
    exists q ::
      && AskedThere(c, name, attr, v, before, after, Used(path), q)
      && Answers(c, q, path + [EP.Attribute(name)] + index, code, sure)
  }

  lemma ItemMeans(c: Ctx, def: ItemDef, item: Item, path: Elems, code: Code, sure: bool)
    requires Ready(c) && Known(c, def)
    ensures Answered(c, def, item, path, code, sure) <==>
      exists n | n in def.attributes :: AnsweredOf(c, def, item, path, n, code, sure)
  {
    hide Ready, Known, AskedOf, Answers, Used;
    if Answered(c, def, item, path, code, sure) {
      var rel: Elems, q: Question :| Asked(c, def, item, Used(path), rel, q) && Answers(c, q, path + rel, code, sure);
      var n := rel[0].name;
      assert path + rel == path + [EP.Attribute(n)] + rel[1..];
      assert AskedOf(c, def, item, Used(path), n, rel[1..], q);
      assert AnsweredOf(c, def, item, path, n, code, sure);
    }
    if n: string :| n in def.attributes && AnsweredOf(c, def, item, path, n, code, sure) {
      var rest: Elems, q: Question :|
        AskedOf(c, def, item, Used(path), n, rest, q) && Answers(c, q, path + [EP.Attribute(n)] + rest, code, sure);
      var rel := [EP.Attribute(n)] + rest;
      assert rel[1..] == rest && path + rel == path + [EP.Attribute(n)] + rest;
      assert Asked(c, def, item, Used(path), rel, q);
    }
  }

  lemma OfMeans(c: Ctx, def: ItemDef, item: Item, path: Elems, name: string, code: Code, sure: bool)
    requires Ready(c) && Known(c, def) && name in def.attributes
    ensures AnsweredOf(c, def, item, path, name, code, sure) <==>
      || AnsweredHere(c, def, item, path, name, code, sure)
      || (Given(item, name) && InProfiles(def.attributes[name], c.profiles) && !OfCouple(def, c.profiles, name)
          && AnsweredIn(c, name, def.attributes[name], item[name], item, SettledItem(c, item, def, Used(path)), path, code,
                        sure))
  {
    hide Ready, Known, AskedIn, AskedHere, Answers, Used, InProfiles, OfCouple, SettledItem;
    var at := path + [EP.Attribute(name)];
    assert at + [] == at;
    if AnsweredHere(c, def, item, path, name, code, sure) {
      var q: Question :| AskedHere(c, def, item, Used(path), name, q) && Answers(c, q, at, code, sure);
      assert AskedOf(c, def, item, Used(path), name, [], q) && Answers(c, q, at + [], code, sure);
    }
    if Given(item, name) && InProfiles(def.attributes[name], c.profiles) && !OfCouple(def, c.profiles, name) {
      var after := SettledItem(c, item, def, Used(path));
      if AnsweredIn(c, name, def.attributes[name], item[name], item, after, path, code, sure) {
        var rest: Elems, q: Question :|
          && AskedIn(c, name, def.attributes[name], item[name], item, after, Used(path), rest, q)
          && Answers(c, q, at + rest, code, sure);
        assert AskedOf(c, def, item, Used(path), name, rest, q);
      }
    }
  }

  lemma InMeans(c: Ctx, name: string, attr: AttrDef, v: Value, before: Item, after: Item, path: Elems, code: Code,
                sure: bool)
    requires Ready(c)
    ensures !attr.isArray ==>
      AnsweredIn(c, name, attr, v, before, after, path, code, sure)
      == AnsweredOn(c, name, attr, v, before, after, path, [], code, sure)
    ensures attr.isArray && !v.Arr? ==>
      AnsweredIn(c, name, attr, v, before, after, path, code, sure)
      == Answers(c, Question(OnArrayWrongType, v, before, after), path + [EP.Attribute(name)], code, sure)
    ensures attr.isArray && v.Arr? ==>
      (AnsweredIn(c, name, attr, v, before, after, path, code, sure) <==>
         exists i | 0 <= i < |v.elems| ::
           AnsweredOn(c, name, attr, v.elems[i], before, after, path, [EP.ArrayIndex(i)], code, sure))
  {
    hide Ready, AskedOn, Answers, Used;
    var at := path + [EP.Attribute(name)];
    assert at + [] == at;
    if attr.isArray && !v.Arr? {
      assert AskedIn(c, name, attr, v, before, after, Used(path), [], Question(OnArrayWrongType, v, before, after));
    }
    if attr.isArray && v.Arr? {
      if AnsweredIn(c, name, attr, v, before, after, path, code, sure) {
        var rest: Elems, q: Question :|
          AskedIn(c, name, attr, v, before, after, Used(path), rest, q) && Answers(c, q, at + rest, code, sure);
        assert at + rest == at + [EP.ArrayIndex(rest[0].index)] + rest[1..];
        assert AnsweredOn(c, name, attr, v.elems[rest[0].index], before, after, path, [EP.ArrayIndex(rest[0].index)], code,
                          sure);
      }
      if i: nat :|
        i < |v.elems| && AnsweredOn(c, name, attr, v.elems[i], before, after, path, [EP.ArrayIndex(i)], code, sure) {
        var rest: Elems, q: Question :|
          && AskedOn(c, name, attr, v.elems[i], before, after, Used(path), rest, q)
          && Answers(c, q, at + [EP.ArrayIndex(i)] + rest, code, sure);
        var rel := [EP.ArrayIndex(i)] + rest;
        assert rel[1..] == rest && at + rel == at + [EP.ArrayIndex(i)] + rest;
        assert AskedIn(c, name, attr, v, before, after, Used(path), rel, q);
      }
    }
  }

  lemma OpenedKnown(c: Ctx, name: string, attr: AttrDef, v: Value, used: set<string>)
    requires Ready(c) && Opened(c, name, attr, v, used)
    ensures v.Obj? && attr.typ == "object_t" && !InScalarArray(attr) && name !in used
    ensures attr.objectType.Some? && attr.objectType.value in c.cat.objects
    ensures Known(c, c.cat.objects[attr.objectType.value].item)
  {
    hide Ready, Known;
    ObjectKnown(c, attr.objectType.value);
  }

  lemma OnMeans(c: Ctx, name: string, attr: AttrDef, v: Value, before: Item, after: Item, path: Elems, index: Elems,
                code: Code, sure: bool)
    requires Ready(c) && |index| <= 1 && forall i | 0 <= i < |index| :: index[i].ArrayIndex?
    ensures Opened(c, name, attr, v, Used(path)) ==> Known(c, c.cat.objects[attr.objectType.value].item)
    ensures AnsweredOn(c, name, attr, v, before, after, path, index, code, sure) <==>
      || AnsweredThere(c, name, attr, v, before, after, path, index, code, sure)
      || (Opened(c, name, attr, v, Used(path))
          && Answered(c, c.cat.objects[attr.objectType.value].item, v.fields, path + [EP.Attribute(name)] + index, code,
                      sure))
  {
    hide Ready, Known, Asked, AskedThere, Answers, Used, Opened;
    UsedAt(path, name, index);
    if Opened(c, name, attr, v, Used(path)) {
      OpenedKnown(c, name, attr, v, Used(path));
    }
    var at := path + [EP.Attribute(name)] + index;
    assert at + [] == at;
    if AnsweredThere(c, name, attr, v, before, after, path, index, code, sure) {
      var q: Question :| AskedThere(c, name, attr, v, before, after, Used(path), q) && Answers(c, q, at, code, sure);
      assert AskedOn(c, name, attr, v, before, after, Used(path), [], q) && Answers(c, q, at + [], code, sure);
    }
    if Opened(c, name, attr, v, Used(path)) {
      var inside := c.cat.objects[attr.objectType.value].item;
      if Answered(c, inside, v.fields, at, code, sure) {
        var rest: Elems, q: Question :|
          Asked(c, inside, v.fields, Used(at), rest, q) && Answers(c, q, at + rest, code, sure);
        assert AskedOn(c, name, attr, v, before, after, Used(path), rest, q);
      }
    }
  }

  // ----- The walk -----

  lemma {:induction false} ItemTold(c: Ctx, item: Item, def: ItemDef, path: Elems, code: Code)
    requires Ready(c) && Known(c, def)
    ensures Told(c, VisitItem(c, item, def, path).trace, code, Answered(c, def, item, path, code, false),
                 Answered(c, def, item, path, code, true))
    decreases Unused(c, path), 5
  {
    hide Ready, Known, Stage, VisitFrom, Answered, AnsweredOf, Used, Told;
    StageStart(c, item, def, Used(path));
    KnownOrder(c, def);
    FromTold(c, item, item, def, def.ordered, {}, path, code);
    ItemMeans(c, def, item, path, code, false);
    ItemMeans(c, def, item, path, code, true);
  }

  ghost predicate SomeAnswered(c: Ctx, def: ItemDef, item: Item, path: Elems, names: seq<string>, code: Code, sure: bool)
    requires Ready(c) && Known(c, def) && forall n | n in names :: n in def.attributes
  {
    exists n | n in names :: AnsweredOf(c, def, item, path, n, code, sure)
  }

  lemma {:induction false} FromTold(c: Ctx, orig: Item, cur: Item, def: ItemDef, names: seq<string>, done: set<string>,
                                    path: Elems, code: Code)
    requires Ready(c) && Known(c, def) && Stage(c, orig, cur, def, Used(path), done) && done <= def.attributes.Keys
    requires Ascending(names) && forall n | n in names :: n in def.attributes && n !in done
    ensures Told(c, VisitFrom(c, cur, def, names, path).trace, code,
                 SomeAnswered(c, def, orig, path, names, code, false), SomeAnswered(c, def, orig, path, names, code, true))
    decreases Unused(c, path), 4, |names|
  {
    hide Ready, Known, Stage, VisitOne, AnsweredOf, Used;
    if names != [] {
      OneTold(c, orig, cur, def, names[0], done, path, code);
      OneSettles(c, orig, cur, def, names[0], done, path);
      AscendingTail(names);
      HeadAndTail(names);
      hide Ascending;
      var first := VisitOne(c, cur, def, names[0], path);
      FromTold(c, orig, first.item, def, names[1..], done + {names[0]}, path, code);
    }
  }

  lemma {:induction false} OneTold(c: Ctx, orig: Item, cur: Item, def: ItemDef, name: string, done: set<string>,
                                   path: Elems, code: Code)
    requires Ready(c) && Known(c, def) && Stage(c, orig, cur, def, Used(path), done) && done <= def.attributes.Keys
    requires name in def.attributes && name !in done
    ensures Told(c, VisitOne(c, cur, def, name, path).trace, code,
                 AnsweredOf(c, def, orig, path, name, code, false), AnsweredOf(c, def, orig, path, name, code, true))
    decreases Unused(c, path), 3
  {
    hide Ready, Known, Stage, VisitPair, VisitPresent, RetainUnsupported, DispatchOf, AnsweredHere, AnsweredIn, Used;
    hide InProfiles, OfCouple, Told, Judged, SettledItem;
    var used := Used(path);
    CoupleDispatched(c, def, name);
    StageOnTheWay(c, orig, cur, def, used, done);
    OfMeans(c, def, orig, path, name, code, false);
    OfMeans(c, def, orig, path, name, code, true);
    match DispatchOf(def, c.profiles, name)
    case Inactive =>
      InactiveGiven(c, orig, cur, def, used, done, name);
      InactiveTold(c, orig, cur, def, name, path, code);
    case Owned =>
      OwnedTold(c, orig, def, name, path, code);
    case Pair(s) =>
      CoupleTold(c, orig, cur, def, name, s, done, path, code);
    case Single =>
      StageAttribute(c, orig, cur, def, used, done, name);
      if Attribute(orig, name).Some? {
        SingleTold(c, orig, cur, def, name, done, path, code);
      } else {
        MissingTold(c, orig, cur, def, name, path, code);
      }
  }

  lemma {:induction false} SingleTold(c: Ctx, orig: Item, cur: Item, def: ItemDef, name: string, done: set<string>,
                                      path: Elems, code: Code)
    requires Ready(c) && Known(c, def) && Stage(c, orig, cur, def, Used(path), done) && done <= def.attributes.Keys
    requires name in def.attributes && name !in done && InProfiles(def.attributes[name], c.profiles)
    requires !OfCouple(def, c.profiles, name) && DispatchOf(def, c.profiles, name) == Single
    requires Attribute(orig, name).Some? && Attribute(cur, name) == Attribute(orig, name)
    ensures Told(c, VisitOne(c, cur, def, name, path).trace, code,
                 AnsweredOf(c, def, orig, path, name, code, false), AnsweredOf(c, def, orig, path, name, code, true))
    decreases Unused(c, path), 2, 1
  {
    hide Ready, Known, Stage, VisitPresent, RetainUnsupported, DispatchOf, AnsweredHere, AnsweredIn, AnsweredOf, Used;
    hide InProfiles, OfCouple, Told, Judged, SettledItem, OnTheWay, Silent;
    var at, v, attr := path + [EP.Attribute(name)], orig[name], def.attributes[name];
    var kept, settled := RetainUnsupported(c, cur, def, name), SettledItem(c, orig, def, Used(path));
    KnownName(c, def, name);
    KeptOnTheWay(c, orig, cur, def, name, done, path);
    OfMeans(c, def, orig, path, name, code, false);
    OfMeans(c, def, orig, path, name, code, true);
    PresentTold(c, kept.item, v, name, attr, orig, settled, path, code);
    GivenTold(c, orig, kept.item, def, name, path, code);
    RetainedSilent(c, cur, def, name);
    SilentTold(c, kept.trace, code);
    var here := AnsweredHere(c, def, orig, path, name, code, false);
    var inside := AnsweredIn(c, name, attr, v, orig, settled, path, code, false);
    var hereSure := AnsweredHere(c, def, orig, path, name, code, true);
    var insideSure := AnsweredIn(c, name, attr, v, orig, settled, path, code, true);
    BothTold(c, kept.trace, Judged(c, OnPresent, at, kept.item, v), code, false, false, here, hereSure);
    BothTold(c, kept.trace + Judged(c, OnPresent, at, kept.item, v),
             VisitPresent(c, kept.item, v, name, attr, path).trace, code, here, hereSure, inside, insideSure);
  }

  lemma KeptOnTheWay(c: Ctx, orig: Item, cur: Item, def: ItemDef, name: string, done: set<string>, path: Elems)
    requires Ready(c) && Known(c, def) && Stage(c, orig, cur, def, Used(path), done) && done <= def.attributes.Keys
    requires name in def.attributes && name !in done && DispatchOf(def, c.profiles, name) == Single
    requires Attribute(orig, name).Some? && Attribute(cur, name) == Attribute(orig, name)
    ensures OnTheWay(orig, RetainUnsupported(c, cur, def, name).item, SettledItem(c, orig, def, Used(path)))
  {
    hide Ready, Known, Stage, VisitPresent, SettledItem, Used, DispatchOf;
    var kept, one := RetainUnsupported(c, cur, def, name).item, VisitOne(c, cur, def, name, path).item;
    OneSettles(c, orig, cur, def, name, done, path);
    StageOnTheWay(c, orig, one, def, Used(path), done + {name});
    forall key
      ensures Slot(kept, key) == Slot(orig, key) || Slot(kept, key) == Slot(SettledItem(c, orig, def, Used(path)), key)
    {
      if key != name {
        assert Slot(kept, key) == Slot(one, key);
      }
    }
  }

  // ----- One attribute -----

  lemma InactiveTold(c: Ctx, orig: Item, cur: Item, def: ItemDef, name: string, path: Elems, code: Code)
    requires Ready(c) && Known(c, def) && name in def.attributes && !InProfiles(def.attributes[name], c.profiles)
    requires Attribute(cur, name) == Attribute(orig, name) && OnTheWay(orig, cur, SettledItem(c, orig, def, Used(path)))
    ensures var at := path + [EP.Attribute(name)];
      Told(c, if Attribute(cur, name).Some? then Judged(c, OnInactive, at, cur, cur[name]) else [], code,
           AnsweredHere(c, def, orig, path, name, code, false), AnsweredHere(c, def, orig, path, name, code, true))
  {
    hide Ready, Known, Judged, InProfiles, OfCouple, SettledItem, Answers, OnTheWay, Used;
    if Attribute(cur, name).Some? {
      var q := Question(OnInactive, cur[name], orig, SettledItem(c, orig, def, Used(path)));
      JudgedTold(c, q, path + [EP.Attribute(name)], cur, code);
      assert AskedHere(c, def, orig, Used(path), name, q);
    }
  }

  lemma GivenTold(c: Ctx, orig: Item, item: Item, def: ItemDef, name: string, path: Elems, code: Code)
    requires Ready(c) && Known(c, def) && name in def.attributes && InProfiles(def.attributes[name], c.profiles)
    requires Given(orig, name) && !OfCouple(def, c.profiles, name)
    requires OnTheWay(orig, item, SettledItem(c, orig, def, Used(path)))
    ensures Told(c, Judged(c, OnPresent, path + [EP.Attribute(name)], item, orig[name]), code,
                 AnsweredHere(c, def, orig, path, name, code, false), AnsweredHere(c, def, orig, path, name, code, true))
  {
    hide Ready, Known, Judged, InProfiles, OfCouple, SettledItem, Answers, OnTheWay, Used;
    var q := Question(OnPresent, orig[name], orig, SettledItem(c, orig, def, Used(path)));
    JudgedTold(c, q, path + [EP.Attribute(name)], item, code);
    assert AskedHere(c, def, orig, Used(path), name, q);
  }

  lemma MissingTold(c: Ctx, orig: Item, cur: Item, def: ItemDef, name: string, path: Elems, code: Code)
    requires Ready(c) && Known(c, def) && name in def.attributes && InProfiles(def.attributes[name], c.profiles)
    requires !Given(orig, name) && !OfCouple(def, c.profiles, name)
    requires OnTheWay(orig, cur, SettledItem(c, orig, def, Used(path)))
    ensures Told(c, Judged(c, OnMissing, path + [EP.Attribute(name)], cur, Null), code,
                 AnsweredHere(c, def, orig, path, name, code, false), AnsweredHere(c, def, orig, path, name, code, true))
  {
    hide Ready, Known, Judged, InProfiles, OfCouple, SettledItem, Answers, OnTheWay, Used;
    var q := Question(OnMissing, Null, orig, SettledItem(c, orig, def, Used(path)));
    JudgedTold(c, q, path + [EP.Attribute(name)], cur, code);
    assert AskedHere(c, def, orig, Used(path), name, q);
  }

  lemma OwnedTold(c: Ctx, orig: Item, def: ItemDef, name: string, path: Elems, code: Code)
    requires Ready(c) && Known(c, def) && name in def.attributes && InProfiles(def.attributes[name], c.profiles)
    requires OfCouple(def, c.profiles, name) && forall s :: !Couple(def, c.profiles, name, s)
    ensures Told(c, [], code, AnsweredHere(c, def, orig, path, name, code, false),
                 AnsweredHere(c, def, orig, path, name, code, true))
  {
    hide Ready, Known, InProfiles, OfCouple, Couple, SettledItem, Answers;
  }

  lemma CoupleTold(c: Ctx, orig: Item, cur: Item, def: ItemDef, e: string, s: string, done: set<string>, path: Elems,
                   code: Code)
    requires Ready(c) && Known(c, def) && Stage(c, orig, cur, def, Used(path), done) && done <= def.attributes.Keys
    requires e in def.attributes && e !in done && DispatchOf(def, c.profiles, e) == Pair(s) && s in def.attributes
    requires InProfiles(def.attributes[e], c.profiles) && OfCouple(def, c.profiles, e)
    requires forall n :: Couple(def, c.profiles, e, n) <==> n == s
    ensures Told(c, VisitPair(c, cur, def, e, s, path).trace, code,
                 AnsweredHere(c, def, orig, path, e, code, false), AnsweredHere(c, def, orig, path, e, code, true))
  {
    hide Ready, Known, Stage, Judged, EnumStep, SiblingObservables, Answers, OnTheWay, Used, SettledItem;
    hide DispatchOf, InProfiles, OfCouple, Couple, Told, Silent;
    var step := EnumStep(c, cur, e, def.attributes[e], s);
    StageAfterPair(c, orig, cur, def, Used(path), done, e, s);
    StageOnTheWay(c, orig, step.item, def, Used(path), done + {e});
    var q := Question(OnPair(s), Null, orig, SettledItem(c, orig, def, Used(path)));
    assert AskedHere(c, def, orig, Used(path), e, q);
    JudgedTold(c, q, path + [EP.Attribute(e)], step.item, code);
    StepSilent(c, cur, e, def.attributes[e], s);
    var observed := ObservedOfPair(c, step.item, def, s, path);
    assert Silent(step.trace + observed) by {
      ObservedSilent(c, step.item, def, s, path);
      BothSilent(step.trace, observed);
    }
    SilentTold(c, step.trace + observed, code);
    BothTold(c, step.trace + observed, Judged(c, OnPair(s), path + [EP.Attribute(e)], step.item, Null), code, false, false,
             Answers(c, q, path + [EP.Attribute(e)], code, false), Answers(c, q, path + [EP.Attribute(e)], code, true));
    HereOnce(c, def, orig, path, e, q, code, false);
    HereOnce(c, def, orig, path, e, q, code, true);
  }

  ghost function ObservedOfPair(c: Ctx, item: Item, def: ItemDef, s: string, path: Elems): seq<Effect>
    requires s in def.attributes
  {
    if c.observables == Add && Attribute(item, s).Some?
    then SiblingObservables(c, path + [EP.Attribute(s)], s, def.attributes[s], item[s]) else []
  }

  lemma ObservedSilent(c: Ctx, item: Item, def: ItemDef, s: string, path: Elems)
    requires s in def.attributes
    ensures Silent(ObservedOfPair(c, item, def, s, path))
  {
    hide SiblingObservables;
    if Attribute(item, s).Some? {
      SiblingSilent(c, path + [EP.Attribute(s)], s, def.attributes[s], item[s]);
    }
  }

  lemma BothSilent(a: seq<Effect>, b: seq<Effect>)
    requires Silent(a) && Silent(b)
    ensures Silent(a + b)
  {
  }

  /** With one question, the attribute is answered by its answer. */
  lemma HereOnce(c: Ctx, def: ItemDef, item: Item, path: Elems, name: string, q: Question, code: Code, sure: bool)
    requires Ready(c) && Known(c, def) && name in def.attributes
    requires forall r :: AskedHere(c, def, item, Used(path), name, r) <==> r == q
    ensures AnsweredHere(c, def, item, path, name, code, sure) == Answers(c, q, path + [EP.Attribute(name)], code, sure)
  {
    hide AskedHere, Answers;
    assert AskedHere(c, def, item, Used(path), name, q);
  }

  // ----- Values -----

  lemma {:induction false} PresentTold(c: Ctx, item: Item, v: Value, name: string, attr: AttrDef, before: Item, after: Item,
                                       path: Elems, code: Code)
    requires Ready(c) && name in Names(c) && OnTheWay(before, item, after)
    ensures Told(c, VisitPresent(c, item, v, name, attr, path).trace, code,
                 AnsweredIn(c, name, attr, v, before, after, path, code, false),
                 AnsweredIn(c, name, attr, v, before, after, path, code, true))
    decreases Unused(c, path), 2, 0
  {
    hide Ready, Names, VisitValue, VisitElems, VisitScalarElems, AnsweredIn, AnsweredOn, Answers, OnTheWay, Told, Used;
    hide Walk.ArrayWrongType, Judged;
    InMeans(c, name, attr, v, before, after, path, code, false);
    InMeans(c, name, attr, v, before, after, path, code, true);
    if !attr.isArray {
      ValueTold(c, item, v, name, attr, before, after, path, [], code);
    } else if !v.Arr? {
      WrongArrayTold(c, item, v, name, attr, before, after, path + [EP.Attribute(name)], code);
    } else if ScalarArray(attr) {
      ScalarElemsTold(c, item, v.elems, name, attr, before, after, path, 0, code);
    } else {
      ElemsTold(c, item, v.elems, name, attr, before, after, path, 0, code);
    }
  }

  lemma WrongArrayTold(c: Ctx, item: Item, v: Value, name: string, attr: AttrDef, before: Item, after: Item, at: Elems,
                       code: Code)
    requires OnTheWay(before, item, after)
    ensures var q := Question(OnArrayWrongType, v, before, after);
      Told(c, Walk.ArrayWrongType(c, item, v, name, attr, at), code, Answers(c, q, at, code, false),
           Answers(c, q, at, code, true))
  {
    hide Judged, ObservableType, MayGenerateAt, Answers, OnTheWay;
    JudgedTold(c, Question(OnArrayWrongType, v, before, after), at, item, code);
  }

  ghost predicate ElementAnswered(c: Ctx, name: string, attr: AttrDef, elems: seq<Value>, before: Item, after: Item,
                                  path: Elems, i: nat, code: Code, sure: bool)
    requires Ready(c)
  {
    exists k | i <= k < |elems| :: AnsweredOn(c, name, attr, elems[k], before, after, path, [EP.ArrayIndex(k)], code, sure)
  }

  lemma {:induction false} ElemsTold(c: Ctx, item: Item, elems: seq<Value>, name: string, attr: AttrDef, before: Item,
                                     after: Item, path: Elems, i: nat, code: Code)
    requires Ready(c) && name in Names(c) && OnTheWay(before, item, after) && !(attr.isArray && ScalarArray(attr))
    requires i <= |elems|
    ensures Told(c, VisitElems(c, item, elems, name, attr, path, i).trace, code,
                 ElementAnswered(c, name, attr, elems, before, after, path, i, code, false),
                 ElementAnswered(c, name, attr, elems, before, after, path, i, code, true))
    decreases Unused(c, path), 1, |elems| - i
  {
    hide Ready, Names, VisitValue, AnsweredOn, OnTheWay, Used, ScalarArray;
    if i < |elems| {
      ValueTold(c, item, elems[i], name, attr, before, after, path, [EP.ArrayIndex(i)], code);
      ElemsTold(c, item, elems, name, attr, before, after, path, i + 1, code);
    }
  }

  lemma {:induction false} ScalarElemsTold(c: Ctx, item: Item, elems: seq<Value>, name: string, attr: AttrDef, before: Item,
                                           after: Item, path: Elems, i: nat, code: Code)
    requires Ready(c) && OnTheWay(before, item, after) && attr.isArray && ScalarArray(attr) && i <= |elems|
    ensures Told(c, VisitScalarElems(c, item, elems, name, attr, path + [EP.Attribute(name)], i), code,
                 ElementAnswered(c, name, attr, elems, before, after, path, i, code, false),
                 ElementAnswered(c, name, attr, elems, before, after, path, i, code, true))
    decreases |elems| - i
  {
    hide Ready, Judged, PrimitiveStep, AnsweredOn, OnTheWay, Used, ScalarArray;
    if i < |elems| {
      ScalarElemTold(c, item, elems[i], name, attr, before, after, path, i, code);
      ScalarElemsTold(c, item, elems, name, attr, before, after, path, i + 1, code);
    }
  }

  lemma ScalarElemTold(c: Ctx, item: Item, v: Value, name: string, attr: AttrDef, before: Item, after: Item, path: Elems,
                       i: nat, code: Code)
    requires Ready(c) && OnTheWay(before, item, after) && attr.isArray && ScalarArray(attr)
    ensures var at := path + [EP.Attribute(name)] + [EP.ArrayIndex(i)];
      Told(c, (if attr.enum.Some? then Judged(c, OnElementEnum, at, item, v) else [])
              + PrimitiveStep(c, item, v, name, attr, at, OnElementPrimitive), code,
           AnsweredOn(c, name, attr, v, before, after, path, [EP.ArrayIndex(i)], code, false),
           AnsweredOn(c, name, attr, v, before, after, path, [EP.ArrayIndex(i)], code, true))
  {
    hide Ready, Judged, ScalarObservable, Answers, OnTheWay, Used;
    var at := path + [EP.Attribute(name)] + [EP.ArrayIndex(i)];
    var index := [EP.ArrayIndex(i)];
    ElementMeans(c, name, attr, v, before, after, path, index, code, false);
    ElementMeans(c, name, attr, v, before, after, path, index, code, true);
    JudgedTold(c, Question(OnElementEnum, v, before, after), at, item, code);
    PrimitiveTold(c, Question(OnElementPrimitive, v, before, after), item, name, attr, at, code);
  }

  lemma PrimitiveTold(c: Ctx, q: Question, item: Item, name: string, attr: AttrDef, at: Elems, code: Code)
    requires OnTheWay(q.before, item, q.after)
    ensures Told(c, PrimitiveStep(c, item, q.value, name, attr, at, q.hook), code, Answers(c, q, at, code, false),
                 Answers(c, q, at, code, true))
  {
    hide Judged, ScalarObservable, Answers, OnTheWay;
    ScalarSilent(c, at, name, attr, q.value);
    JudgedTold(c, q, at, item, code);
  }

  lemma ElementMeans(c: Ctx, name: string, attr: AttrDef, v: Value, before: Item, after: Item, path: Elems, index: Elems,
                     code: Code, sure: bool)
    requires Ready(c) && attr.isArray && ScalarArray(attr) && |index| == 1 && index[0].ArrayIndex?
    ensures var at := path + [EP.Attribute(name)] + index;
      AnsweredOn(c, name, attr, v, before, after, path, index, code, sure) <==>
        || Answers(c, Question(OnElementPrimitive, v, before, after), at, code, sure)
        || (attr.enum.Some? && Answers(c, Question(OnElementEnum, v, before, after), at, code, sure))
  {
    hide Ready, Answers, Used, Answered;
    OnMeans(c, name, attr, v, before, after, path, index, code, sure);
    assert !Opened(c, name, attr, v, Used(path));
    var primitive, enum := Question(OnElementPrimitive, v, before, after), Question(OnElementEnum, v, before, after);
    assert AskedThere(c, name, attr, v, before, after, Used(path), primitive);
    if attr.enum.Some? {
      assert AskedThere(c, name, attr, v, before, after, Used(path), enum);
    }
  }

  /** The questions a value draws, one by one. */
  lemma ThereMeans(c: Ctx, name: string, attr: AttrDef, v: Value, before: Item, after: Item, path: Elems, index: Elems,
                   code: Code, sure: bool)
    requires Ready(c) && !InScalarArray(attr)
    ensures Opened(c, name, attr, v, Used(path)) ==> Known(c, c.cat.objects[attr.objectType.value].item)
    ensures var at := path + [EP.Attribute(name)] + index;
      AnsweredThere(c, name, attr, v, before, after, path, index, code, sure) <==>
        || (attr.enum.Some? && Answers(c, Question(OnEnum, v, before, after), at, code, sure))
        || (attr.typ != "object_t" && Answers(c, Question(OnPrimitive, v, before, after), at, code, sure))
        || (attr.typ == "object_t" && !v.Obj? && Answers(c, Question(OnObjectWrongType, v, before, after), at, code, sure))
        || (attr.typ == "object_t" && v.Obj? && attr.objectType.Some? && attr.objectType.value !in c.cat.objects
            && Answers(c, Question(OnSchemaMissing, v, before, after), at, code, sure))
        || (Opened(c, name, attr, v, Used(path))
            && (Answers(c, Question(OnObject, v, v.fields, v.fields), at, code, sure)
                || var left := SettledItem(c, v.fields, c.cat.objects[attr.objectType.value].item, Used(path) + {name});
                   Answers(c, Question(OnObjectDone, Null, left, left), at, code, sure)))
  {
    hide Ready, Known, Answers, Used, Opened, InScalarArray, SettledItem;
    if Opened(c, name, attr, v, Used(path)) {
      OpenedKnown(c, name, attr, v, Used(path));
    }
    var used, at := Used(path), path + [EP.Attribute(name)] + index;
    assert attr.enum.Some? ==> AskedThere(c, name, attr, v, before, after, used, Question(OnEnum, v, before, after));
    assert attr.typ != "object_t" ==>
      AskedThere(c, name, attr, v, before, after, used, Question(OnPrimitive, v, before, after));
    if attr.typ == "object_t" {
      assert !v.Obj? ==> AskedThere(c, name, attr, v, before, after, used, Question(OnObjectWrongType, v, before, after));
      assert v.Obj? && attr.objectType.Some? && attr.objectType.value !in c.cat.objects ==>
        AskedThere(c, name, attr, v, before, after, used, Question(OnSchemaMissing, v, before, after));
    }
    if Opened(c, name, attr, v, used) {
      var left := SettledItem(c, v.fields, c.cat.objects[attr.objectType.value].item, used + {name});
      assert AskedThere(c, name, attr, v, before, after, used, Question(OnObject, v, v.fields, v.fields));
      assert AskedThere(c, name, attr, v, before, after, used, Question(OnObjectDone, Null, left, left));
    }
  }

  lemma {:induction false} ValueTold(c: Ctx, item: Item, v: Value, name: string, attr: AttrDef, before: Item, after: Item,
                                     path: Elems, index: Elems, code: Code)
    requires Ready(c) && name in Names(c) && OnTheWay(before, item, after) && !(attr.isArray && ScalarArray(attr))
    requires |index| <= 1 && forall i | 0 <= i < |index| :: index[i].ArrayIndex?
    ensures Told(c, VisitValue(c, item, v, name, attr, path, index).trace, code,
                 AnsweredOn(c, name, attr, v, before, after, path, index, code, false),
                 AnsweredOn(c, name, attr, v, before, after, path, index, code, true))
    decreases Unused(c, path), 0, 1
  {
    if Opened(c, name, attr, v, Used(path)) {
      EnteredTold(c, item, v, name, attr, before, after, path, index, code);
    } else {
      ClosedTold(c, item, v, name, attr, before, after, path, index, code);
    }
  }

  /** The value and the questions it draws itself, when the walk does not enter it. */
  lemma ClosedMeans(c: Ctx, name: string, attr: AttrDef, v: Value, before: Item, after: Item, path: Elems, index: Elems,
                    code: Code, sure: bool)
    requires Ready(c) && !Opened(c, name, attr, v, Used(path)) && !InScalarArray(attr)
    requires |index| <= 1 && forall i | 0 <= i < |index| :: index[i].ArrayIndex?
    ensures var at := path + [EP.Attribute(name)] + index;
      AnsweredOn(c, name, attr, v, before, after, path, index, code, sure) <==>
        || (attr.enum.Some? && Answers(c, Question(OnEnum, v, before, after), at, code, sure))
        || (if attr.typ != "object_t" then Answers(c, Question(OnPrimitive, v, before, after), at, code, sure)
            else if !v.Obj? then Answers(c, Question(OnObjectWrongType, v, before, after), at, code, sure)
            else && attr.objectType.Some? && attr.objectType.value !in c.cat.objects
                 && Answers(c, Question(OnSchemaMissing, v, before, after), at, code, sure))
  {
    hide *;
    OnMeans(c, name, attr, v, before, after, path, index, code, sure);
    ThereMeans(c, name, attr, v, before, after, path, index, code, sure);
  }

  /** A value the walk does not enter. */
  lemma ClosedTold(c: Ctx, item: Item, v: Value, name: string, attr: AttrDef, before: Item, after: Item, path: Elems,
                   index: Elems, code: Code)
    requires Ready(c) && name in Names(c) && OnTheWay(before, item, after) && !(attr.isArray && ScalarArray(attr))
    requires !Opened(c, name, attr, v, Used(path))
    requires |index| <= 1 && forall i | 0 <= i < |index| :: index[i].ArrayIndex?
    ensures Told(c, VisitValue(c, item, v, name, attr, path, index).trace, code,
                 AnsweredOn(c, name, attr, v, before, after, path, index, code, false),
                 AnsweredOn(c, name, attr, v, before, after, path, index, code, true))
  {
    hide Ready, Names, Judged, MayGenerateAt, ObjectObservable, PrimitiveStep, EP.PriorAttribute, VisitItem, Answered;
    hide Answers, OnTheWay, AnsweredThere, AnsweredOn, SettledItem, Used, ScalarObservable;
    var at := path + [EP.Attribute(name)] + index;
    UsedAt(path, name, index);
    OpenedUnless(c, name, attr, v, Used(path));
    ClosedMeans(c, name, attr, v, before, after, path, index, code, false);
    ClosedMeans(c, name, attr, v, before, after, path, index, code, true);
    hide Opened;
    JudgedTold(c, Question(OnEnum, v, before, after), at, item, code);
    if attr.typ != "object_t" {
      PrimitiveTold(c, Question(OnPrimitive, v, before, after), item, name, attr, at, code);
    } else if !v.Obj? {
      JudgedTold(c, Question(OnObjectWrongType, v, before, after), at, item, code);
    } else if attr.objectType.Some? && attr.objectType.value !in c.cat.objects {
      JudgedTold(c, Question(OnSchemaMissing, v, before, after), at, item, code);
    }
  }

  lemma OpenedUnless(c: Ctx, name: string, attr: AttrDef, v: Value, used: set<string>)
    requires !(attr.isArray && ScalarArray(attr)) && !Opened(c, name, attr, v, used)
    ensures !InScalarArray(attr)
    ensures attr.typ == "object_t" && v.Obj? && attr.objectType.Some? && attr.objectType.value in c.cat.objects ==>
      name in used
  {
  }

  lemma {:induction false} EnteredTold(c: Ctx, item: Item, v: Value, name: string, attr: AttrDef, before: Item, after: Item,
                                       path: Elems, index: Elems, code: Code)
    requires Ready(c) && name in Names(c) && OnTheWay(before, item, after) && Opened(c, name, attr, v, Used(path))
    requires |index| <= 1 && forall i | 0 <= i < |index| :: index[i].ArrayIndex?
    ensures Told(c, VisitValue(c, item, v, name, attr, path, index).trace, code,
                 AnsweredOn(c, name, attr, v, before, after, path, index, code, false),
                 AnsweredOn(c, name, attr, v, before, after, path, index, code, true))
    decreases Unused(c, path), 0, 0
  {
    hide Ready, Names, Judged, ObjectObservable, PrimitiveStep, EP.PriorAttribute, VisitItem, Answered, Opened, Known;
    hide Answers, OnTheWay, AnsweredThere, AnsweredOn, SettledItem, Used, MayGenerateAt;
    var at := path + [EP.Attribute(name)] + index;
    OpenedKnown(c, name, attr, v, Used(path));
    UsedAt(path, name, index);
    UnusedShrinks(c, path, name, index);
    OnMeans(c, name, attr, v, before, after, path, index, code, false);
    OnMeans(c, name, attr, v, before, after, path, index, code, true);
    ThereMeans(c, name, attr, v, before, after, path, index, code, false);
    ThereMeans(c, name, attr, v, before, after, path, index, code, true);
    JudgedTold(c, Question(OnEnum, v, before, after), at, item, code);
    ObjectTold(c, v.fields, name, attr, c.cat.objects[attr.objectType.value], at, code);
  }

  /** One object the walk enters: as it came, what is inside, and as it is left. */
  lemma {:induction false} ObjectTold(c: Ctx, fields: Item, name: string, attr: AttrDef, def: ObjectDef, at: Elems,
                                      code: Code)
    requires Ready(c) && Known(c, def.item)
    ensures var inner, left := VisitItem(c, fields, def.item, at), SettledItem(c, fields, def.item, Used(at));
      var came, gone := Question(OnObject, Obj(fields), fields, fields), Question(OnObjectDone, Null, left, left);
      var trace := (if c.observables == Add then ObjectObservable(c, at, name, attr, def) else [])
                   + Judged(c, OnObject, at, fields, Obj(fields)) + inner.trace
                   + Judged(c, OnObjectDone, at, inner.item, Null);
      Told(c, trace, code,
           Answers(c, came, at, code, false) || Answers(c, gone, at, code, false)
           || Answered(c, def.item, fields, at, code, false),
           Answers(c, came, at, code, true) || Answers(c, gone, at, code, true)
           || Answered(c, def.item, fields, at, code, true))
    decreases Unused(c, at), 6
  {
    hide Ready, Known, Judged, ObjectObservable, VisitItem, Answered, Answers, SettledItem, Used;
    var left := SettledItem(c, fields, def.item, Used(at));
    ItemTold(c, fields, def.item, at, code);
    VisitSettles(c, fields, def.item, at);
    ObjectSilent(c, at, name, attr, def);
    JudgedTold(c, Question(OnObject, Obj(fields), fields, fields), at, fields, code);
    JudgedTold(c, Question(OnObjectDone, Null, left, left), at, left, code);
  }
}
