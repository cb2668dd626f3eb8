/** From accepted class and object definitions to the compiled schema the engine runs on. */
module Compilation {
  import opened Text
  import opened TypeInheritance
  import opened Schema
  import opened Walk
  import opened Run

  type Attributes = map<string, AttrDef>

  datatype RawClass = RawClass(uid: int64, attributes: Attributes, observables: map<string, int64>)

  datatype RawObject = RawObject(attributes: Attributes, observable: Option<int64>)

  /** Enums no larger than Go maps. */
  predicate EnumsFit(attributes: Attributes) {
    forall n | n in attributes && attributes[n].enum.Some? :: |attributes[n].enum.value| <= MAX_INT64
  }

  /** No two enums of one item share a sibling. */
  ghost predicate Accepted(classes: map<int64, RawClass>, objects: map<string, RawObject>) {
    && (forall k | k in classes :: Unshared(classes[k].attributes))
    && (forall o | o in objects :: Unshared(objects[o].attributes))
  }

  /** Decides acceptance, whatever order the definitions are taken in. */
  method ValidateEnumSiblingRelationships(classes: map<int64, RawClass>, objects: map<string,
                                          RawObject>) returns (ok: bool)
    ensures ok <==> Accepted(classes, objects)
  {
    hide Unshared, LinkOf;
    var uids := classes.Keys;
    while uids != {}
      invariant uids <= classes.Keys
      invariant forall k | k in classes.Keys - uids :: Unshared(classes[k].attributes)
      decreases uids
    {
      var k :| k in uids;
      uids := uids - {k};
      var names := SortedKeys(classes[k].attributes);
      var conflict := ValidateItemEnumSiblingRelationships(classes[k].attributes, names);
      if conflict.Some? {
        return false;
      }
    }
    var pending := objects.Keys;
    while pending != {}
      invariant pending <= objects.Keys
      invariant forall o | o in objects.Keys - pending :: Unshared(objects[o].attributes)
      decreases pending
    {
      var o :| o in pending;
      pending := pending - {o};
      var names := SortedKeys(objects[o].attributes);
      var conflict := ValidateItemEnumSiblingRelationships(objects[o].attributes, names);
      if conflict.Some? {
        return false;
      }
    }
    return true;
  }

  /** The compiled definition of raw attributes. */
  ghost predicate CompiledFrom(types: Types, raw: Attributes, def: ItemDef) {
    PrimitivesResolved(types, raw, def.attributes) && Initialized(types, def)
  }

  method CompileItem(types: Types, raw: Attributes) returns (def: ItemDef)
    requires Unshared(raw) && EnumsFit(raw)
    ensures CompiledFrom(types, raw, def)
  {
    var issues;
    def, issues := SetItemTraversalCache(types, raw);
    CacheInitializes(types, raw, def);
  }

  /** Builds every item's cache. Any pipeline over the result is one the engine can run. */
  method EnsureTraversalCache(types: Types, rawClasses: map<int64, RawClass>, rawObjects: map<string, RawObject>)
    returns (classes: map<int64, ClassDef>, objects: Objects)
    requires Accepted(rawClasses, rawObjects)
    requires forall k | k in rawClasses :: EnumsFit(rawClasses[k].attributes)
    requires forall o | o in rawObjects :: EnumsFit(rawObjects[o].attributes)
    ensures classes.Keys == rawClasses.Keys && objects.Keys == rawObjects.Keys
    ensures forall k | k in classes ::
      CompiledFrom(types, rawClasses[k].attributes, classes[k].item) && classes[k].observables == rawClasses[k].observables
    ensures forall o | o in objects ::
      CompiledFrom(types, rawObjects[o].attributes, objects[o].item) && objects[o].observable == rawObjects[o].observable
    ensures forall p: Pipeline | p.cat.types == types && p.cat.objects == objects && p.classes == classes :: Usable(p)
  {
    hide CompiledFrom, Unshared, EnumsFit, Usable;
    classes, objects := map[], map[];
    var uids := rawClasses.Keys;
    while uids != {}
      invariant uids <= rawClasses.Keys && classes.Keys == rawClasses.Keys - uids
      invariant forall k | k in classes ::
        CompiledFrom(types, rawClasses[k].attributes, classes[k].item) && classes[k].observables == rawClasses[k].observables
      decreases uids
    {
      var k :| k in uids;
      uids := uids - {k};
      var item := CompileItem(types, rawClasses[k].attributes);
      classes := classes[k := ClassDef(rawClasses[k].uid, item, rawClasses[k].observables)];
    }
    var pending := rawObjects.Keys;
    while pending != {}
      invariant pending <= rawObjects.Keys && objects.Keys == rawObjects.Keys - pending
      invariant forall o | o in objects ::
        CompiledFrom(types, rawObjects[o].attributes, objects[o].item) && objects[o].observable == rawObjects[o].observable
      decreases pending
    {
      var o :| o in pending;
      pending := pending - {o};
      var item := CompileItem(types, rawObjects[o].attributes);
      objects := objects[o := ObjectDef(item, rawObjects[o].observable)];
    }
    forall p: Pipeline | p.cat.types == types && p.cat.objects == objects && p.classes == classes ensures Usable(p) {
      CompiledIsUsable(p, rawClasses, rawObjects);
    }
  }

  lemma CompiledIsUsable(p: Pipeline, rawClasses: map<int64, RawClass>, rawObjects: map<string, RawObject>)
    requires p.classes.Keys == rawClasses.Keys && p.cat.objects.Keys == rawObjects.Keys
    requires forall k | k in p.classes :: CompiledFrom(p.cat.types, rawClasses[k].attributes, p.classes[k].item)
    requires forall o | o in p.cat.objects :: CompiledFrom(p.cat.types, rawObjects[o].attributes, p.cat.objects[o].item)
    ensures Usable(p)
  {
    hide Initialized, PrimitivesResolved;
    forall uid, profiles | uid in p.classes ensures Ready(ContextOf(p, p.classes[uid], profiles)) {
      assert Initialized(p.cat.types, p.classes[uid].item);
    }
  }
}
