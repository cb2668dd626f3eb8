/** The walk over graphs that may share objects and contain themselves, while it adds and removes siblings in them. */
module SharedGraph {
  import opened Text
  import opened Values
  import opened Schema
  import opened Observability
  import opened Walk
  import opened Settling
  import opened RoundTrip
  import opened Resolver
  import opened Traversal
  import EP = EventPath

  // ----- A pair step on a graph -----

  /** What an enum step can tell of a node: a scalar, or only that it is an object or an array. */
  function Shallow(n: Node): Value {
    match n
    case NullNode => Null
    case ScalarNode(v) => v
    case ObjRef(_) => Obj(map[])
    case ArrRef(_) => Arr([])
  }

  /** The same of an attribute's node, whose array elements it reads. */
  function View(h: Heap, n: Node): Value {
    if n.ArrRef? then Arr(seq(|Elements(h, n)|, i requires 0 <= i < |Elements(h, n)| => Shallow(Elements(h, n)[i])))
    else Shallow(n)
  }

  function NodeOf(fields: Fields, key: string): Option<Node> {
    if key in fields then Some(fields[key]) else None
  }

  function PairView(h: Heap, fields: Fields, e: string, s: string): Item {
    map k | k in fields && (k == e || k == s) :: View(h, fields[k])
  }

  /** Nothing but one field of one object is changed; no array is, and new ones hold scalars. */
  ghost predicate OnlyField(h: Heap, after: Heap, id: nat, key: string) {
    && after.objects.Keys == h.objects.Keys
    && (forall o | o in h.objects && o != id :: after.objects[o] == h.objects[o])
    && (id in h.objects ==> forall k | k != key :: NodeOf(after.objects[id], k) == NodeOf(h.objects[id], k))
    && (forall a | a in h.arrays :: a in after.arrays && after.arrays[a] == h.arrays[a])
    && (forall a, n | a in after.arrays && a !in h.arrays && n in after.arrays[a] :: n.ScalarNode?)
  }

  function Stored(elems: seq<Value>): seq<Node> {
    seq(|elems|, i requires 0 <= i < |elems| => ScalarNode(elems[i]))
  }

  /** A field holds a scalar, or a new array of scalars. */
  ghost predicate HoldsNow(h: Heap, fields: Fields, key: string, v: Value) {
    && key in fields
    && if v.Arr? then fields[key].ArrRef? && Elements(h, fields[key]) == Stored(v.elems) else fields[key] == ScalarNode(v)
  }

  /** The step on the graph does to the sibling what the step on its view does. */
  ghost predicate SteppedTo(c: Ctx, h: Heap, after: Heap, id: nat, e: string, attr: AttrDef, s: string)
    requires id in h.objects && id in after.objects
  {
    var view := PairView(h, h.objects[id], e, s);
    var result := Slot(EnumStep(c, view, e, attr, s).item, s);
    if result == Slot(view, s) then after == h
    else if result == None then NodeOf(after.objects[id], s) == None
    else HoldsNow(after, after.objects[id], s, result.value)
  }

  method ComputeStep(c: Ctx, item: Item, e: string, attr: AttrDef, s: string) returns (r: Item)
    ensures r == EnumStep(c, item, e, attr, s).item
  {
    hide LookupEnum, RemovePair;
    match c.enums
    case NoAction => r := item;
    case Remove => r := RemovePair(c, item, e, attr, s, false).item;
    case ForceRemove => r := RemovePair(c, item, e, attr, s, true).item;
    case Add =>
      if Attribute(item, e) == None || Attribute(item, s).Some? {
        return item;
      }
      if attr.isArray {
        return if item[e].Arr? && Captioned(c, attr, item[e].elems) then item[s := Arr(Captions(c, attr, item[e].elems))] else item;
      }
      var l := LookupEnum(c, attr, item[e]);
      r := if UsableCaption(l) then item[s := Str(l.def.caption)] else item;
  }

  /** The event graph, changed in place. */
  class Store {
    var h: Heap

    constructor (h: Heap)
      ensures this.h == h
    {
      this.h := h;
    }

    method Delete(id: nat, key: string)
      requires id in h.objects
      modifies this
      ensures OnlyField(old(h), h, id, key) && NodeOf(h.objects[id], key) == None
    {
      h := h.(objects := h.objects[id := h.objects[id] - {key}]);
    }

    /** Stores a scalar, or an array of scalars as a new array. */
    method Put(id: nat, key: string, v: Value)
      requires id in h.objects
      modifies this
      ensures OnlyField(old(h), h, id, key) && HoldsNow(h, h.objects[id], key, v)
    {
      if v.Arr? {
        var unused := 0;
        ghost var passed: set<nat> := {};
        while unused in h.arrays
          invariant forall i | i in passed :: i < unused
          decreases h.arrays.Keys - passed
        {
          passed := passed + {unused};
          unused := unused + 1;
        }
        h := Heap(h.objects[id := h.objects[id][key := ArrRef(unused)]], h.arrays[unused := Stored(v.elems)]);
      } else {
        h := h.(objects := h.objects[id := h.objects[id][key := ScalarNode(v)]]);
      }
    }

    /** The enum step on an object of the graph. */
    method StepSibling(c: Ctx, id: nat, e: string, attr: AttrDef, s: string)
      requires id in h.objects
      modifies this
      ensures OnlyField(old(h), h, id, s)
      ensures SteppedTo(c, old(h), h, id, e, attr, s)
    {
      hide EnumStep, PairView;
      var view := PairView(h, h.objects[id], e, s);
      var after := ComputeStep(c, view, e, attr, s);
      if Slot(after, s) == Slot(view, s) {
        return;
      }
      match Slot(after, s)
      case None => Delete(id, s);
      case Some(v) => Put(id, s, v);
    }

    /** A present enum without a supported sibling clears a null under its declared sibling name. */
    method ClearNull(c: Ctx, id: nat, def: ItemDef, name: string) returns (key: string)
      requires id in h.objects && name in def.attributes
      modifies this
      ensures OnlyField(old(h), h, id, key)
      ensures h != old(h) ==>
        && def.attributes[name].sibling == Some(key)
        && NodeOf(old(h).objects[id], key) == Some(NullNode) && NodeOf(h.objects[id], key) == None
    {
      var attr := def.attributes[name];
      key := if attr.sibling.Some? then attr.sibling.value else "";
      if (c.enums == Remove || c.enums == ForceRemove) && attr.enum.Some? && attr.sibling.Some? && name !in def.links
         && NodeOf(h.objects[id], key) == Some(NullNode) {
        Delete(id, key);
      }
    }
  }

  // ----- What the walk keeps -----

  function ObjectLead(m: Option<Node>): Option<nat> {
    if m.Some? && m.value.ObjRef? then Some(m.value.id) else None
  }

  function ElementLead(h: Heap, m: Option<Node>, i: nat): Option<nat> {
    if m.Some? && i < |Elements(h, m.value)| then ObjectLead(Some(Elements(h, m.value)[i])) else None
  }

  /** A field leads to nothing that the other one does not lead to, itself or through its elements. */
  ghost predicate LeadsWithin(a: Heap, m: Option<Node>, b: Heap, n: Option<Node>) {
    && ObjectLead(n) in {None, ObjectLead(m)}
    && forall i: nat :: ElementLead(b, n, i) in {None, ElementLead(a, m, i)}
  }

  /** The graphs have the same objects, and no field of the second leads where it does not in the first. */
  ghost predicate NoNewLeads(a: Heap, b: Heap) {
    && a.objects.Keys == b.objects.Keys
    && forall o, k | o in a.objects :: LeadsWithin(a, NodeOf(a.objects[o], k), b, NodeOf(b.objects[o], k))
  }

  predicate SiblingOf(def: ItemDef, key: string) {
    key in def.owners || exists n | n in def.attributes :: def.attributes[n].sibling == Some(key)
  }

  ghost predicate InSchema(c: Ctx, def: ItemDef) {
    def == c.cls.item || exists o | o in c.cat.objects :: def == c.cat.objects[o].item
  }

  /** The schema declares the key as a sibling somewhere. */
  ghost predicate SiblingName(c: Ctx, key: string) {
    exists def :: InSchema(c, def) && SiblingOf(def, key)
  }

  /** No object appears or disappears, only siblings are written, and nothing starts to lead to an object; and unless
      removal is forced, whatever led to one still does. */
  ghost predicate Kept(c: Ctx, a: Heap, b: Heap) {
    && a.objects.Keys == b.objects.Keys
    && (forall o, k | o in a.objects && !SiblingName(c, k) :: NodeOf(b.objects[o], k) == NodeOf(a.objects[o], k))
    && NoNewLeads(a, b) && (Spares(c) ==> NoNewLeads(b, a))
  }

  /** Siblings are taken away only where the enum says the same. */
  predicate Spares(c: Ctx) {
    c.enums != ForceRemove
  }

  lemma KeptNothing(c: Ctx, a: Heap)
    ensures Kept(c, a, a)
  {
  }

  lemma KeptThrough(c: Ctx, a: Heap, b: Heap, d: Heap)
    requires Kept(c, a, b) && Kept(c, b, d)
    ensures Kept(c, a, d)
  {
    hide ObjectLead, ElementLead, SiblingName;
  }

  /** Changing one field keeps everything, if the field leads only where it led and, unless removal is forced, everywhere
      it led. */
  lemma FieldKept(c: Ctx, a: Heap, b: Heap, id: nat, key: string)
    requires id in a.objects && OnlyField(a, b, id, key)
    requires SiblingName(c, key) || NodeOf(a.objects[id], key) == NodeOf(b.objects[id], key)
    requires LeadsWithin(a, NodeOf(a.objects[id], key), b, NodeOf(b.objects[id], key))
    requires Spares(c) ==> LeadsWithin(b, NodeOf(b.objects[id], key), a, NodeOf(a.objects[id], key))
    ensures Kept(c, a, b)
  {
    hide SiblingName, LeadsWithin;
    forall o, k | o in a.objects
      ensures LeadsWithin(a, NodeOf(a.objects[o], k), b, NodeOf(b.objects[o], k))
      ensures Spares(c) ==> LeadsWithin(b, NodeOf(b.objects[o], k), a, NodeOf(a.objects[o], k))
    {
      if o != id || k != key {
        assert NodeOf(a.objects[o], k) == NodeOf(b.objects[o], k);
        UnchangedLeads(a, b, NodeOf(a.objects[o], k));
      }
    }
  }

  /** Arrays that were there are as they were; new ones lead nowhere. */
  lemma UnchangedLeads(a: Heap, b: Heap, m: Option<Node>)
    requires forall x | x in a.arrays :: x in b.arrays && b.arrays[x] == a.arrays[x]
    requires forall x, n | x in b.arrays && x !in a.arrays && n in b.arrays[x] :: n.ScalarNode?
    ensures LeadsWithin(a, m, b, m) && LeadsWithin(b, m, a, m)
  {
    if m.Some? && m.value.ArrRef? {
      var x := m.value.id;
      if x in a.arrays {
        assert Elements(a, m.value) == Elements(b, m.value);
      } else if x in b.arrays {
        forall i: nat ensures ElementLead(b, m, i) == None {
          if i < |b.arrays[x]| {
            var n := b.arrays[x][i];
            assert n in b.arrays[x] && Elements(b, m.value)[i] == n;
            assert n.ScalarNode?;
          }
        }
      }
    }
  }

  /** The field leads to no object. */
  ghost predicate Leadless(h: Heap, m: Option<Node>) {
    ObjectLead(m) == None && forall i: nat :: ElementLead(h, m, i) == None
  }

  lemma StoredLeadless(h: Heap, fields: Fields, key: string, v: Value)
    requires HoldsNow(h, fields, key, v)
    ensures Leadless(h, NodeOf(fields, key))
  {
  }

  /** What reads as null, a text or a list of texts leads to no object. */
  lemma TextsLeadless(h: Heap, n: Node)
    requires View(h, n) == Null || View(h, n).Str?
      || (View(h, n).Arr? && forall i | 0 <= i < |View(h, n).elems| :: View(h, n).elems[i].Str?)
    ensures Leadless(h, Some(n))
  {
    if n.ArrRef? {
      forall i: nat ensures ElementLead(h, Some(n), i) == None {
        if i < |Elements(h, n)| {
          assert View(h, n).elems[i] == Shallow(Elements(h, n)[i]);
        }
      }
    }
  }

  /** What safe removal takes away, and what addition replaces, reads as null, a text or a list of texts. */
  lemma ReplacedReadsAsText(c: Ctx, view: Item, e: string, attr: AttrDef, s: string)
    requires c.enums != ForceRemove && s in view && Slot(EnumStep(c, view, e, attr, s).item, s) != Slot(view, s)
    ensures view[s] == Null || view[s].Str?
      || (view[s].Arr? && forall i | 0 <= i < |view[s].elems| :: view[s].elems[i].Str?)
  {
    hide LookupEnum, RemoveArray, RemovePair;
    if c.enums == Remove {
      RemovedExactly(c, view, e, attr, s, false);
    }
  }

  /** A forced removal takes the field away or leaves it. */
  lemma ForcedLeaves(c: Ctx, view: Item, e: string, attr: AttrDef, s: string)
    requires c.enums == ForceRemove
    ensures Slot(EnumStep(c, view, e, attr, s).item, s) in {None, Slot(view, s)}
  {
    hide EnumStep;
    PairKeepsOrRemoves(c, view, e, attr, s);
  }

  lemma PairKept(c: Ctx, h: Heap, after: Heap, id: nat, e: string, attr: AttrDef, s: string)
    requires id in h.objects && OnlyField(h, after, id, s) && SteppedTo(c, h, after, id, e, attr, s) && SiblingName(c, s)
    ensures Kept(c, h, after)
  {
    hide SiblingName, Kept, EnumStep;
    if after == h {
      KeptNothing(c, h);
    } else {
      var before, now := NodeOf(h.objects[id], s), NodeOf(after.objects[id], s);
      var view := PairView(h, h.objects[id], e, s);
      var result := Slot(EnumStep(c, view, e, attr, s).item, s);
      if Spares(c) && before.Some? {
        ReplacedReadsAsText(c, view, e, attr, s);
        TextsLeadless(h, before.value);
      }
      if Spares(c) && result.Some? {
        StoredLeadless(after, after.objects[id], s, result.value);
      }
      if !Spares(c) {
        ForcedLeaves(c, view, e, attr, s);
      }
      assert LeadsWithin(h, before, after, now);
      FieldKept(c, h, after, id, s);
    }
  }

  lemma NullKept(c: Ctx, h: Heap, after: Heap, id: nat, key: string)
    requires id in h.objects && OnlyField(h, after, id, key) && SiblingName(c, key)
    requires NodeOf(h.objects[id], key) == Some(NullNode) && NodeOf(after.objects[id], key) == None
    ensures Kept(c, h, after)
  {
    hide SiblingName, Kept;
    FieldKept(c, h, after, id, key);
  }

  // ----- Reachability survives -----

  /** The rest of an enterable path from a field, if there is one. */
  ghost predicate EnterableVia(c: Ctx, h: Heap, m: Option<Node>, name: string, attr: AttrDef, path: Elems,
                               used: set<string>) {
    m.Some? && EnterableFrom(c, h, m.value, name, attr, path, used)
  }

  /** Graphs whose fields lead to the same objects have the same enterable paths. */
  lemma SameEnterable(c: Ctx, a: Heap, b: Heap, id: nat, def: ItemDef, path: Elems, used: set<string>)
    requires NoNewLeads(a, b) && NoNewLeads(b, a) && id in a.objects
    ensures id in b.objects
    ensures Enterable(c, a, a.objects[id], def, path, used) <==> Enterable(c, b, b.objects[id], def, path, used)
  {
    NoNewLeadsAt(a, b, id);
    StillEnterable(c, a, b, id, def, path, used);
    StillEnterable(c, b, a, id, def, path, used);
    hide NoNewLeads, Enterable;
  }

  /** What is enterable where fewer fields lead to objects is enterable where more do. */
  lemma {:induction false} StillEnterable(c: Ctx, a: Heap, b: Heap, id: nat, def: ItemDef, path: Elems,
                                          used: set<string>)
    requires NoNewLeads(a, b) && id in a.objects && id in b.objects
    ensures Enterable(c, b, b.objects[id], def, path, used) ==> Enterable(c, a, a.objects[id], def, path, used)
    decreases |path|, 1
  {
    hide NoNewLeads, EnterableFrom, DispatchOf, LeadsWithin;
    NoNewLeadsAt(a, b, id);
    if path != [] && path[0].Attribute? {
      var name := path[0].name;
      if SingleKey(c, def, name) {
        StillVia(c, a, b, NodeOf(a.objects[id], name), NodeOf(b.objects[id], name), name, def.attributes[name], path[1..], used);
        NullNowhere(c, a, name, def.attributes[name], path[1..], used);
        NullNowhere(c, b, name, def.attributes[name], path[1..], used);
      }
    }
  }

  lemma NoNewLeadsAt(a: Heap, b: Heap, id: nat)
    requires NoNewLeads(a, b) && id in a.objects
    ensures id in b.objects && forall k :: LeadsWithin(a, NodeOf(a.objects[id], k), b, NodeOf(b.objects[id], k))
  {
    hide LeadsWithin;
  }

  lemma NullNowhere(c: Ctx, h: Heap, name: string, attr: AttrDef, path: Elems, used: set<string>)
    ensures !EnterableFrom(c, h, NullNode, name, attr, path, used)
  {
  }

  lemma {:induction false} StillVia(c: Ctx, a: Heap, b: Heap, m: Option<Node>, n: Option<Node>, name: string,
                                    attr: AttrDef,
                                    path: Elems, used: set<string>)
    requires NoNewLeads(a, b) && LeadsWithin(a, m, b, n)
    ensures EnterableVia(c, b, n, name, attr, path, used) ==> EnterableVia(c, a, m, name, attr, path, used)
    decreases |path|, 3
  {
    hide NoNewLeads, Inside;
    if !attr.isArray {
      StillInside(c, a, b, ObjectLead(m), ObjectLead(n), name, attr, path, used);
      LeadTarget(a, m);
      LeadTarget(b, n);
      NowhereInside(c, a, name, attr, path, used);
      NowhereInside(c, b, name, attr, path, used);
    } else if path != [] && path[0].ArrayIndex? {
      var i := path[0].index;
      assert ElementLead(b, n, i) in {None, ElementLead(a, m, i)};
      StillInside(c, a, b, ElementLead(a, m, i), ElementLead(b, n, i), name, attr, path[1..], used);
      ElementTarget(a, m, attr, i);
      ElementTarget(b, n, attr, i);
      NowhereInside(c, a, name, attr, path[1..], used);
      NowhereInside(c, b, name, attr, path[1..], used);
    }
  }

  /** The object a lead names, if it is there. */
  function Target(h: Heap, lead: Option<nat>): Option<Fields> {
    if lead.Some? && lead.value in h.objects then Some(h.objects[lead.value]) else None
  }

  lemma LeadTarget(h: Heap, m: Option<Node>)
    ensures m.Some? ==> ObjectAt(h, m.value) == Target(h, ObjectLead(m))
  {
  }

  lemma ElementTarget(h: Heap, m: Option<Node>, attr: AttrDef, i: nat)
    ensures m.Some? ==> ElementAt(h, m.value, attr, i) == if ScalarArray(attr) then None else Target(h, ElementLead(h, m, i))
  {
  }

  lemma NowhereInside(c: Ctx, h: Heap, name: string, attr: AttrDef, path: Elems, used: set<string>)
    ensures !Inside(c, h, None, name, attr, path, used)
  {
  }

  lemma {:induction false} StillInside(c: Ctx, a: Heap, b: Heap, lead: Option<nat>, kept: Option<nat>, name: string,
                                       attr: AttrDef,
                                       path: Elems, used: set<string>)
    requires NoNewLeads(a, b) && kept in {None, lead}
    ensures Inside(c, b, Target(b, kept), name, attr, path, used) ==> Inside(c, a, Target(a, lead), name, attr, path, used)
    decreases |path|, 2
  {
    NoNewLeadsKeys(a, b);
    hide NoNewLeads, Enterable;
    if kept.Some? && kept.value in a.objects && Observability.Nested(c.cat, attr).Some? && path != [] {
      StillEnterable(c, a, b, kept.value, c.cat.objects[Observability.Nested(c.cat, attr).value].item, path, used + {name});
    }
  }

  lemma NoNewLeadsKeys(a: Heap, b: Heap)
    requires NoNewLeads(a, b)
    ensures a.objects.Keys == b.objects.Keys
  {
  }

  // ----- The walk -----

  /** The entered paths under a field against the enterable ones. */
  ghost predicate EnteredVia(c: Ctx, h: Heap, m: Option<Node>, name: string, attr: AttrDef, at: Elems,
                             used: set<string>, entered: set<Elems>,
                             whole: bool) {
    forall p :: EnteredAs(whole, p in entered, at <= p && EnterableVia(c, h, m, name, attr, p[|at|..], used))
  }

  /** The field of an attribute dispatched on its own. */
  function SingleField(c: Ctx, fields: Fields, def: ItemDef, name: string): Option<Node> {
    if SingleKey(c, def, name) then NodeOf(fields, name) else None
  }

  /** What was entered through a kept field, seen from the graph before. */
  lemma FieldViaKept(c: Ctx, a: Heap, b: Heap, m: Option<Node>, n: Option<Node>, name: string, attr: AttrDef, at: Elems,
                     used: set<string>, entered: set<Elems>)
    requires Kept(c, a, b) && LeadsWithin(a, m, b, n) && (Spares(c) ==> LeadsWithin(b, n, a, m))
    requires EnteredVia(c, b, n, name, attr, at, used, entered, Spares(c))
    ensures EnteredVia(c, a, m, name, attr, at, used, entered, Spares(c))
  {
    KeptLeads(c, a, b);
    hide NoNewLeads, EnterableVia, LeadsWithin, Kept, Spares;
    forall p: Elems ensures EnteredAs(Spares(c), p in entered, at <= p && EnterableVia(c, a, m, name, attr, p[|at|..], used)) {
      assert EnteredAs(Spares(c), p in entered, at <= p && EnterableVia(c, b, n, name, attr, p[|at|..], used));
      if at <= p {
        StillVia(c, a, b, m, n, name, attr, p[|at|..], used);
        if Spares(c) {
          StillVia(c, b, a, n, m, name, attr, p[|at|..], used);
        }
      }
    }
  }

  lemma KeptLeads(c: Ctx, a: Heap, b: Heap)
    requires Kept(c, a, b)
    ensures a.objects.Keys == b.objects.Keys && NoNewLeads(a, b) && (Spares(c) ==> NoNewLeads(b, a))
  {
  }

  lemma ViaKept(c: Ctx, a: Heap, b: Heap, id: nat, def: ItemDef, name: string, at: Elems, used: set<string>,
                entered: set<Elems>)
    requires Kept(c, a, b) && id in a.objects && id in b.objects && name in def.attributes
    requires EnteredVia(c, b, SingleField(c, b.objects[id], def, name), name, def.attributes[name], at, used, entered, Spares(c))
    ensures EnteredVia(c, a, SingleField(c, a.objects[id], def, name), name, def.attributes[name], at, used, entered, Spares(c))
  {
    KeptLeads(c, a, b);
    NoNewLeadsAt(a, b, id);
    if Spares(c) {
      NoNewLeadsAt(b, a, id);
    }
    NoFieldLeads(a, b);
    NoFieldLeads(b, a);
    hide NoNewLeads, EnteredVia, LeadsWithin, DispatchOf, SingleKey, Kept, Spares;
    var m, n := SingleField(c, a.objects[id], def, name), SingleField(c, b.objects[id], def, name);
    assert LeadsWithin(a, NodeOf(a.objects[id], name), b, NodeOf(b.objects[id], name));
    FieldViaKept(c, a, b, m, n, name, def.attributes[name], at, used, entered);
  }

  lemma NoFieldLeads(a: Heap, b: Heap)
    ensures LeadsWithin(a, None, b, None)
  {
  }

  lemma OneMoreName(c: Ctx, h: Heap, fields: Fields, def: ItemDef, at: Elems, names: seq<string>, name: string,
                    before: set<Elems>, more: set<Elems>, whole: bool)
    requires EnteredOf(c, h, fields, def, at, names, before, whole) && name in def.attributes
    requires EnteredVia(c, h, SingleField(c, fields, def, name), name, def.attributes[name], at + [EP.Attribute(name)], Used(at), more, whole)
    ensures EnteredOf(c, h, fields, def, at, names + [name], before + more, whole)
  {
    hide EnteredOf, EnterableFrom, DispatchOf, Used;
    var attr, here := def.attributes[name], at + [EP.Attribute(name)];
    if Field(c, fields, def, name) == None {
      forall p ensures p !in more {
        if here <= p {
          NullNowhere(c, h, name, attr, p[|here|..], Used(at));
        }
      }
      assert more == {};
    }
    OneName(c, h, fields, def, at, names, name, before, more, whole);
  }

  lemma ViaNothing(c: Ctx, h: Heap, name: string, attr: AttrDef, at: Elems, used: set<string>, whole: bool)
    ensures EnteredVia(c, h, None, name, attr, at, used, {}, whole)
    ensures EnteredVia(c, h, Some(NullNode), name, attr, at, used, {}, whole)
  {
    forall p: Elems ensures !(at <= p && EnterableVia(c, h, Some(NullNode), name, attr, p[|at|..], used)) {
      if at <= p {
        NullNowhere(c, h, name, attr, p[|at|..], used);
      }
    }
  }

  lemma SchemaKnown(c: Ctx, def: ItemDef)
    requires Ready(c) && InSchema(c, def)
    ensures Known(c, def)
  {
  }

  lemma PairNamesSibling(c: Ctx, def: ItemDef, e: string)
    requires InSchema(c, def) && Known(c, def) && e in def.attributes && DispatchOf(def, c.profiles, e).Pair?
    ensures DispatchOf(def, c.profiles, e).sibling in def.attributes
    ensures SiblingName(c, DispatchOf(def, c.profiles, e).sibling)
  {
    Ends(c, def, e);
    hide Known;
    assert SiblingOf(def, def.links[e]);
  }

  /** Walks an item of the graph, adding and removing siblings on the way. It ends, whatever the graph shares or
      contains; it gives the path back; it writes nothing but siblings; and it enters nothing that could not be entered
      before it started and, unless removal is forced, everything that could. */
  method VisitShared(c: Ctx, store: Store, id: nat, def: ItemDef, path: EP.Path) returns (entered: set<Elems>)
    requires Ready(c) && InSchema(c, def) && path.Valid() && id in store.h.objects && store !in path.Repr()
    modifies store, path.Repr()
    ensures path.Valid() && path.Contents() == old(path.Contents())
    ensures Kept(c, old(store.h), store.h)
    ensures EnteredOf(c, old(store.h), old(store.h.objects[id]), def, path.Contents(), def.ordered, entered, Spares(c))
    decreases Unused(c, path.Contents()), 3
  {
    hide EnteredOf, EnteredVia, Kept, InSchema, Ready, Known, Unused, DispatchOf, SteppedTo, OnlyField, NoNewLeads, Spares;
    ghost var at, first := path.Contents(), store.h;
    SchemaKnown(c, def);
    KnownOrder(c, def);
    entered := {};
    NothingEntered(c, first, first.objects[id], def, at, Spares(c));
    KeptNothing(c, first);
    for i := 0 to |def.ordered|
      invariant path.Valid() && path.Contents() == at && Kept(c, first, store.h)
      invariant EnteredOf(c, first, first.objects[id], def, at, def.ordered[..i], entered, Spares(c))
    {
      var name := def.ordered[i];
      assert name in def.ordered && def.ordered[..i + 1] == def.ordered[..i] + [name];
      ghost var before := store.h;
      KeptObjects(c, first, before);
      var more := VisitSharedName(c, store, id, def, name, path);
      KeptThrough(c, first, before, store.h);
      ViaKept(c, first, before, id, def, name, at + [EP.Attribute(name)], Used(at), more);
      OneMoreName(c, first, first.objects[id], def, at, def.ordered[..i], name, entered, more, Spares(c));
      entered := entered + more;
    }
    assert def.ordered[..|def.ordered|] == def.ordered;
  }

  lemma KeptObjects(c: Ctx, a: Heap, b: Heap)
    requires Kept(c, a, b)
    ensures a.objects.Keys == b.objects.Keys
  {
  }

  /** One slot: a pair's enum step, or the null a present enum clears and then its value. */
  method VisitSharedName(c: Ctx, store: Store, id: nat, def: ItemDef, name: string,
                         path: EP.Path) returns (entered: set<Elems>)
    requires Ready(c) && InSchema(c, def) && name in def.attributes
    requires path.Valid() && id in store.h.objects && store !in path.Repr()
    modifies store, path.Repr()
    ensures path.Valid() && path.Contents() == old(path.Contents())
    ensures Kept(c, old(store.h), store.h)
    ensures EnteredVia(c, old(store.h), SingleField(c, old(store.h.objects[id]), def, name), name, def.attributes[name],
                       path.Contents() + [EP.Attribute(name)], Used(path.Contents()), entered, Spares(c))
    decreases Unused(c, path.Contents()), 2
  {
    hide EnteredVia, Kept, InSchema, Ready, Known, Unused, SteppedTo, OnlyField, NoNewLeads, Active, Spares;
    ghost var at, first := path.Contents(), store.h;
    SchemaKnown(c, def);
    KeptNothing(c, first);
    entered := {};
    ViaNothing(c, first, name, def.attributes[name], at + [EP.Attribute(name)], Used(at), Spares(c));
    match DispatchOf(def, c.profiles, name)
    case Inactive =>
    case Owned =>
    case Pair(s) =>
      PairNamesSibling(c, def, name);
      store.StepSibling(c, id, name, def.attributes[name], s);
      SteppedObjects(first, store.h, id, s);
      PairKept(c, first, store.h, id, name, def.attributes[name], s);
    case Single =>
      var field := NodeOf(store.h.objects[id], name);
      if field == None || field.value == NullNode {
        return;
      }
      var key := store.ClearNull(c, id, def, name);
      ghost var cleared := store.h;
      ClearedKept(c, first, cleared, id, def, name, key, field);
      KnownName(c, def, name);
      path.PushAttribute(name);
      entered := VisitSharedField(c, store, field.value, name, def.attributes[name], path, at);
      path.Pop();
      KeptThrough(c, first, cleared, store.h);
      FieldViaKept(c, first, cleared, field, field, name, def.attributes[name], at + [EP.Attribute(name)], Used(at), entered);
  }

  lemma SteppedObjects(a: Heap, b: Heap, id: nat, key: string)
    requires OnlyField(a, b, id, key)
    ensures a.objects.Keys == b.objects.Keys
  {
  }

  lemma DeclaredSibling(c: Ctx, def: ItemDef, name: string, key: string)
    requires InSchema(c, def) && name in def.attributes && def.attributes[name].sibling == Some(key)
    ensures SiblingName(c, key)
  {
    hide InSchema;
    assert SiblingOf(def, key);
  }

  /** Clearing a null keeps everything, and the visited field leads where it led. */
  lemma ClearedKept(c: Ctx, a: Heap, b: Heap, id: nat, def: ItemDef, name: string, key: string, field: Option<Node>)
    requires InSchema(c, def) && name in def.attributes && id in a.objects && OnlyField(a, b, id, key)
    requires b != a ==>
      && def.attributes[name].sibling == Some(key)
      && NodeOf(a.objects[id], key) == Some(NullNode) && NodeOf(b.objects[id], key) == None
    ensures Kept(c, a, b) && id in b.objects && LeadsWithin(a, field, b, field) && LeadsWithin(b, field, a, field)
  {
    hide InSchema, Kept, SiblingName, LeadsWithin;
    UnchangedLeads(a, b, field);
    if a == b {
      KeptNothing(c, a);
    } else {
      DeclaredSibling(c, def, name, key);
      NullKept(c, a, b, id, key);
    }
  }

  lemma FromIsVia(c: Ctx, h: Heap, node: Node, name: string, attr: AttrDef, at: Elems, used: set<string>,
                  entered: set<Elems>,
                  whole: bool)
    requires EnteredField(c, h, node, name, attr, at, used, entered, whole)
    ensures EnteredVia(c, h, Some(node), name, attr, at, used, entered, whole)
  {
    hide EnterableFrom;
  }

  lemma InsideKept(c: Ctx, a: Heap, b: Heap, lead: Option<nat>, name: string, attr: AttrDef, at: Elems,
                   used: set<string>, entered: set<Elems>)
    requires Kept(c, a, b) && EnteredInside(c, b, Target(b, lead), name, attr, at, used, entered, Spares(c))
    ensures EnteredInside(c, a, Target(a, lead), name, attr, at, used, entered, Spares(c))
  {
    KeptLeads(c, a, b);
    hide NoNewLeads, Inside, Target, Kept, Spares;
    forall p: Elems ensures EnteredAs(Spares(c), p in entered, at <= p && Inside(c, a, Target(a, lead), name, attr, p[|at|..], used)) {
      assert EnteredAs(Spares(c), p in entered, at <= p && Inside(c, b, Target(b, lead), name, attr, p[|at|..], used));
      if at <= p {
        StillInside(c, a, b, lead, lead, name, attr, p[|at|..], used);
        if Spares(c) {
          StillInside(c, b, a, lead, lead, name, attr, p[|at|..], used);
        }
      }
    }
  }

  /** An attribute's value; its arrays are never changed, only replaced. */
  method VisitSharedField(c: Ctx, store: Store, node: Node, name: string, attr: AttrDef, path: EP.Path,
                          ghost outer: Elems)
    returns (entered: set<Elems>)
    requires Ready(c) && name in Names(c) && path.Valid() && store !in path.Repr()
    requires path.Contents() == outer + [EP.Attribute(name)]
    modifies store, path.Repr()
    ensures path.Valid() && path.Contents() == old(path.Contents())
    ensures Kept(c, old(store.h), store.h)
    ensures EnteredVia(c, old(store.h), Some(node), name, attr, path.Contents(), Used(outer), entered, Spares(c))
    decreases Unused(c, outer), 1
  {
    hide EnteredInside, EnteredField, EnteredVia, EnteredByIndex, Kept, Ready, Names, Unused, Used, NoNewLeads, Spares;
    ghost var at, first := path.Contents(), store.h;
    if !attr.isArray {
      assert outer + [EP.Attribute(name)] + [] == outer + [EP.Attribute(name)];
      LeadTarget(first, Some(node));
      entered := VisitSharedValue(c, store, ObjectLead(Some(node)), name, attr, path, outer, []);
      InsideIsFrom(c, first, node, name, attr, at, Used(outer), entered, Spares(c));
      FromIsVia(c, first, node, name, attr, at, Used(outer), entered, Spares(c));
      return;
    }
    entered := {};
    var elems := if ScalarArray(attr) then [] else Elements(store.h, node);
    NoneIndexed(c, first, node, name, attr, at, Used(outer), Spares(c));
    KeptNothing(c, first);
    for i := 0 to |elems|
      invariant path.Valid() && path.Contents() == at && Kept(c, first, store.h)
      invariant EnteredByIndex(c, first, node, name, attr, at, Used(outer), i, entered, Spares(c))
    {
      ghost var before := store.h;
      path.PushArrayIndex(i);
      var more := VisitSharedValue(c, store, ObjectLead(Some(elems[i])), name, attr, path, outer, [EP.ArrayIndex(i)]);
      path.Pop();
      KeptThrough(c, first, before, store.h);
      InsideKept(c, first, before, ObjectLead(Some(elems[i])), name, attr, at + [EP.ArrayIndex(i)], Used(outer), more);
      ElementTarget(first, Some(node), attr, i);
      OneIndex(c, first, node, name, attr, at, Used(outer), i, entered, more, Spares(c));
      entered := entered + more;
    }
    AllIndexes(c, first, node, name, attr, at, Used(outer), entered, Spares(c));
    FromIsVia(c, first, node, name, attr, at, Used(outer), entered, Spares(c));
  }

  /** One value: entered when it leads to an object of a defined type whose attribute name is new on the path. */
  method VisitSharedValue(c: Ctx, store: Store, lead: Option<nat>, name: string, attr: AttrDef, path: EP.Path,
                          ghost outer: Elems, ghost index: Elems)
    returns (entered: set<Elems>)
    requires Ready(c) && name in Names(c) && path.Valid() && store !in path.Repr()
    requires |index| <= 1 && forall i | 0 <= i < |index| :: index[i].ArrayIndex?
    requires path.Contents() == outer + [EP.Attribute(name)] + index
    modifies store, path.Repr()
    ensures path.Valid() && path.Contents() == old(path.Contents())
    ensures Kept(c, old(store.h), store.h)
    ensures EnteredInside(c, old(store.h), Target(old(store.h), lead), name, attr, path.Contents(), Used(outer), entered, Spares(c))
    decreases Unused(c, outer), 0
  {
    hide EnteredOf, EnteredInside, Kept, Ready, Names, EP.PriorAttribute, Unused, Used, Known, Spares;
    ghost var at, first := path.Contents(), store.h;
    UsedAt(outer, name, index);
    KeptNothing(c, first);
    var prior := path.HasPriorAttribute(name);
    if lead == None || lead.value !in store.h.objects || Observability.Nested(c.cat, attr) == None || prior {
      NotInside(c, first, Target(first, lead), name, attr, at, Used(outer), Spares(c));
      return {};
    }
    UnusedShrinks(c, outer, name, index);
    ObjectKnown(c, attr.objectType.value);
    var def := c.cat.objects[attr.objectType.value].item;
    var inner := VisitShared(c, store, lead.value, def, path);
    AllNames(c, first, first.objects[lead.value], def, at, inner, Spares(c));
    InsideObject(c, first, Target(first, lead), name, attr, at, Used(outer), inner, Spares(c));
    var here := path.Elements();
    entered := {here} + inner;
  }
}
