/** The walk over event graphs that may share objects and contain themselves: it ends, enters exactly the objects the
    schema leads to along names not yet used, and gives the path back. */
module Traversal {
  import opened Text
  import opened Schema
  import opened Observability
  import opened Walk
  import opened Settling
  import opened Resolver
  import EP = EventPath

  function ObjectAt(h: Heap, node: Node): Option<Fields> {
    if node.ObjRef? && node.id in h.objects then Some(h.objects[node.id]) else None
  }

  function ElementAt(h: Heap, node: Node, attr: AttrDef, index: nat): Option<Fields> {
    if !ScalarArray(attr) && index < |Elements(h, node)| then ObjectAt(h, Elements(h, node)[index]) else None
  }

  /** The field an attribute of its own dispatch holds. */
  function Field(c: Ctx, fields: Fields, def: ItemDef, name: string): Option<Node> {
    if name in def.attributes && DispatchOf(def, c.profiles, name) == Single && name in fields && fields[name] != NullNode
    then Some(fields[name]) else None
  }

  /** A path from an item to an object the walk enters. */
  ghost predicate Enterable(c: Ctx, h: Heap, fields: Fields, def: ItemDef, path: Elems, used: set<string>)
    decreases |path|, 0
  {
    && path != [] && path[0].Attribute?
    && var name := path[0].name;
      Field(c, fields, def, name).Some?
      && EnterableFrom(c, h, Field(c, fields, def, name).value, name, def.attributes[name], path[1..], used)
  }

  /** The rest of such a path, from an attribute's value. */
  ghost predicate EnterableFrom(c: Ctx, h: Heap, node: Node, name: string, attr: AttrDef, path: Elems,
                                used: set<string>)
    decreases |path|, 2
  {
    if !attr.isArray then Inside(c, h, ObjectAt(h, node), name, attr, path, used)
    else path != [] && path[0].ArrayIndex? && Inside(c, h, ElementAt(h, node, attr, path[0].index), name, attr, path[1..], used)
  }

  /** The rest of such a path, from an object the attribute leads to. */
  ghost predicate Inside(c: Ctx, h: Heap, target: Option<Fields>, name: string, attr: AttrDef, path: Elems,
                         used: set<string>)
    decreases |path|, 1
  {
    && target.Some? && Observability.Nested(c.cat, attr).Some? && name !in used
    && (path == []
        || Enterable(c, h, target.value, c.cat.objects[Observability.Nested(c.cat, attr).value].item, path, used + {name}))
  }

  /** The names on a path to an entered object are pairwise distinct, new, and names of the schema. */
  lemma {:induction false} EnteredDistinct(c: Ctx, h: Heap, fields: Fields, def: ItemDef, path: Elems,
                                           used: set<string>)
    requires Ready(c) && Known(c, def) && Enterable(c, h, fields, def, path, used)
    ensures var names := EP.AttributeNames(path);
      && (forall i, j | 0 <= i < j < |names| :: names[i] != names[j])
      && (forall n | n in names :: n !in used && n in Names(c))
    decreases |path|
  {
    hide Ready, Known, Names, Enterable, Inside;
    var node, inner, k := HeadEnters(c, h, fields, def, path, used);
    var name := path[0].name;
    var attr := def.attributes[name];
    var names, more := EP.AttributeNames(path), EP.AttributeNames(path[k..]);
    KnownName(c, def, name);
    HeadNames(path, k);
    if path[k..] == [] {
      assert names == [name];
    } else {
      ObjectKnown(c, attr.objectType.value);
      EnteredDistinct(c, h, inner, c.cat.objects[attr.objectType.value].item, path[k..], used + {name});
      forall i, j | 0 <= i < j < |names| ensures names[i] != names[j] {
        assert names[j] == more[j - 1] && more[j - 1] in more;
      }
    }
  }

  lemma HeadEnters(c: Ctx, h: Heap, fields: Fields, def: ItemDef, path: Elems, used: set<string>)
    returns (node: Node, inner: Fields, k: nat)
    requires Enterable(c, h, fields, def, path, used)
    ensures path != [] && path[0].Attribute? && path[0].name in def.attributes && path[0].name !in used
    ensures 1 <= k <= 2 && k <= |path| && (k == 2 ==> path[1].ArrayIndex?)
    ensures var attr := def.attributes[path[0].name];
      && attr.objectType.Some? && attr.objectType.value in c.cat.objects
      && (path[k..] == []
          || Enterable(c, h, inner, c.cat.objects[attr.objectType.value].item, path[k..], used + {path[0].name}))
  {
    hide DispatchOf;
    var attr := def.attributes[path[0].name];
    node := Field(c, fields, def, path[0].name).value;
    k := if attr.isArray then 2 else 1;
    assert EnterableFrom(c, h, node, path[0].name, attr, path[1..], used);
    assert attr.isArray ==> path[1..][1..] == path[2..];
    var target := if attr.isArray then ElementAt(h, node, attr, path[1].index) else ObjectAt(h, node);
    assert Inside(c, h, target, path[0].name, attr, path[k..], used);
    inner := target.value;
  }

  lemma HeadNames(path: Elems, k: nat)
    requires 1 <= k <= 2 && k <= |path| && path[0].Attribute? && (k == 2 ==> path[1].ArrayIndex?)
    ensures EP.AttributeNames(path) == [path[0].name] + EP.AttributeNames(path[k..])
  {
    hide *;
    OneHead(path[..k]);
    EP.AttributeNamesAppend(path[..k], path[k..]);
    assert path == path[..k] + path[k..];
  }

  lemma OneHead(head: Elems)
    requires 1 <= |head| <= 2 && head[0].Attribute? && (|head| == 2 ==> head[1].ArrayIndex?)
    ensures EP.AttributeNames(head) == [head[0].name]
  {
    assert head[..1] == [head[0]];
    assert [head[0]][..0] == [];
    assert EP.AttributeNames([head[0]]) == [head[0].name];
  }

  /** So no entered path has more names than the schema: the bound on the walk's depth. */
  lemma DepthBound(c: Ctx, h: Heap, fields: Fields, def: ItemDef, path: Elems)
    requires Ready(c) && Known(c, def) && Enterable(c, h, fields, def, path, {})
    ensures |EP.AttributeNames(path)| <= |Names(c)|
  {
    hide *;
    EnteredDistinct(c, h, fields, def, path, {});
    DistinctFit(EP.AttributeNames(path), Names(c));
  }

  lemma {:induction false} DistinctFit(names: seq<string>, all: set<string>)
    requires (forall i, j | 0 <= i < j < |names| :: names[i] != names[j]) && forall n | n in names :: n in all
    ensures |names| <= |all|
  {
    if names != [] {
      var n := |names| - 1;
      DistinctFit(names[..n], all - {names[n]});
    }
  }

  // ----- The walk -----

  /** Every entered path is one that could be entered and, of the whole, every one that could be was. */
  predicate EnteredAs(whole: bool, entered: bool, could: bool) {
    if whole then entered == could else entered ==> could
  }

  /** The entered paths against the enterable ones below `at`. */
  ghost predicate EnteredOf(c: Ctx, h: Heap, fields: Fields, def: ItemDef, at: Elems, names: seq<string>,
                            entered: set<Elems>, whole: bool) {
    forall p :: EnteredAs(whole, p in entered,
      at < p && p[|at|].Attribute? && p[|at|].name in names && Enterable(c, h, fields, def, p[|at|..], Used(at)))
  }

  ghost predicate EnteredInside(c: Ctx, h: Heap, target: Option<Fields>, name: string, attr: AttrDef, at: Elems,
                                used: set<string>, entered: set<Elems>, whole: bool) {
    forall p :: EnteredAs(whole, p in entered, at <= p && Inside(c, h, target, name, attr, p[|at|..], used))
  }

  ghost predicate EnteredField(c: Ctx, h: Heap, node: Node, name: string, attr: AttrDef, at: Elems, used: set<string>,
                               entered: set<Elems>, whole: bool) {
    forall p :: EnteredAs(whole, p in entered, at <= p && EnterableFrom(c, h, node, name, attr, p[|at|..], used))
  }

  lemma AllNames(c: Ctx, h: Heap, fields: Fields, def: ItemDef, at: Elems, entered: set<Elems>, whole: bool)
    requires Known(c, def) && EnteredOf(c, h, fields, def, at, def.ordered, entered, whole)
    ensures forall p :: EnteredAs(whole, p in entered, at < p && Enterable(c, h, fields, def, p[|at|..], Used(at)))
  {
    hide EnterableFrom, Used;
    forall p: Elems ensures EnteredAs(whole, p in entered, at < p && Enterable(c, h, fields, def, p[|at|..], Used(at))) {
      if at < p && Enterable(c, h, fields, def, p[|at|..], Used(at)) {
        assert p[|at|..][0] == p[|at|];
        assert p[|at|].name in def.attributes;
      }
    }
  }

  lemma OneName(c: Ctx, h: Heap, fields: Fields, def: ItemDef, at: Elems, names: seq<string>, name: string,
                before: set<Elems>, more: set<Elems>, whole: bool)
    requires EnteredOf(c, h, fields, def, at, names, before, whole)
    requires match Field(c, fields, def, name)
      case None => more == {}
      case Some(node) => EnteredField(c, h, node, name, def.attributes[name], at + [EP.Attribute(name)], Used(at), more, whole)
    ensures EnteredOf(c, h, fields, def, at, names + [name], before + more, whole)
  {
    hide EnterableFrom, Used, DispatchOf;
    var here := at + [EP.Attribute(name)];
    forall p: Elems ensures EnteredAs(whole, p in more,
      at < p && p[|at|] == EP.Attribute(name) && Enterable(c, h, fields, def, p[|at|..], Used(at)))
    {
      if at < p && p[|at|] == EP.Attribute(name) {
        assert here <= p && p[|at|..][1..] == p[|here|..];
      }
    }
  }

  /** Visits an item of the graph; terminates by the names the path has not used, whatever the graph contains. */
  method VisitGraph(c: Ctx, h: Heap, fields: Fields, def: ItemDef, path: EP.Path) returns (entered: set<Elems>)
    requires Ready(c) && Known(c, def) && path.Valid()
    modifies path.Repr()
    ensures path.Valid() && path.Contents() == old(path.Contents())
    ensures EnteredOf(c, h, fields, def, path.Contents(), def.ordered, entered, true)
    decreases Unused(c, path.Contents()), 3
  {
    hide EnteredOf, EnteredField, Ready, Known, Unused, DispatchOf;
    ghost var at := path.Contents();
    entered := {};
    NothingEntered(c, h, fields, def, at, true);
    KnownOrder(c, def);
    for i := 0 to |def.ordered|
      invariant path.Valid() && path.Contents() == at
      invariant EnteredOf(c, h, fields, def, at, def.ordered[..i], entered, true)
    {
      var name := def.ordered[i];
      assert name in def.ordered && def.ordered[..i + 1] == def.ordered[..i] + [name];
      var more := {};
      var field := Field(c, fields, def, name);
      if field.Some? {
        KnownName(c, def, name);
        path.PushAttribute(name);
        more := VisitGraphField(c, h, field.value, name, def.attributes[name], path, at);
        path.Pop();
      }
      OneName(c, h, fields, def, at, def.ordered[..i], name, entered, more, true);
      entered := entered + more;
    }
    assert def.ordered[..|def.ordered|] == def.ordered;
  }

  lemma NothingEntered(c: Ctx, h: Heap, fields: Fields, def: ItemDef, at: Elems, whole: bool)
    ensures EnteredOf(c, h, fields, def, at, def.ordered[..0], {}, whole)
  {
  }

  ghost predicate EnteredByIndex(c: Ctx, h: Heap, node: Node, name: string, attr: AttrDef, at: Elems,
                                 used: set<string>, n: nat, entered: set<Elems>, whole: bool) {
    forall p :: EnteredAs(whole, p in entered,
      at < p && p[|at|].ArrayIndex? && p[|at|].index < n
      && Inside(c, h, ElementAt(h, node, attr, p[|at|].index), name, attr, p[|at| + 1..], used))
  }

  lemma OneIndex(c: Ctx, h: Heap, node: Node, name: string, attr: AttrDef, at: Elems, used: set<string>, n: nat,
                 before: set<Elems>, more: set<Elems>, whole: bool)
    requires EnteredByIndex(c, h, node, name, attr, at, used, n, before, whole)
    requires EnteredInside(c, h, ElementAt(h, node, attr, n), name, attr, at + [EP.ArrayIndex(n)], used, more, whole)
    ensures EnteredByIndex(c, h, node, name, attr, at, used, n + 1, before + more, whole)
  {
    hide Inside, ElementAt;
    var here := at + [EP.ArrayIndex(n)];
    forall p: Elems ensures EnteredAs(whole, p in more,
      at < p && p[|at|] == EP.ArrayIndex(n) && Inside(c, h, ElementAt(h, node, attr, n), name, attr, p[|at| + 1..], used))
    {
      if at < p && p[|at|] == EP.ArrayIndex(n) {
        assert here <= p;
      }
    }
  }

  lemma AllIndexes(c: Ctx, h: Heap, node: Node, name: string, attr: AttrDef, at: Elems, used: set<string>,
                   entered: set<Elems>, whole: bool)
    requires attr.isArray
    requires EnteredByIndex(c, h, node, name, attr, at, used, if ScalarArray(attr) then 0 else |Elements(h, node)|, entered, whole)
    ensures EnteredField(c, h, node, name, attr, at, used, entered, whole)
  {
    hide Enterable;
    forall p: Elems ensures EnteredAs(whole, p in entered, at <= p && EnterableFrom(c, h, node, name, attr, p[|at|..], used)) {
      if at < p {
        assert p[|at|..][0] == p[|at|] && p[|at|..][1..] == p[|at| + 1..];
      }
    }
  }

  /** One attribute's value; the path stands at the attribute, its item at `outer`. */
  method VisitGraphField(c: Ctx, h: Heap, node: Node, name: string, attr: AttrDef, path: EP.Path, ghost outer: Elems)
    returns (entered: set<Elems>)
    requires Ready(c) && name in Names(c) && path.Valid() && path.Contents() == outer + [EP.Attribute(name)]
    modifies path.Repr()
    ensures path.Valid() && path.Contents() == old(path.Contents())
    ensures EnteredField(c, h, node, name, attr, path.Contents(), Used(outer), entered, true)
    decreases Unused(c, outer), 2
  {
    hide EnteredInside, EnteredField, EnteredByIndex, Ready, Names, Unused, Used;
    ghost var at := path.Contents();
    if !attr.isArray {
      assert outer + [EP.Attribute(name)] + [] == outer + [EP.Attribute(name)];
      entered := VisitGraphValue(c, h, ObjectAt(h, node), name, attr, path, outer, []);
      InsideIsFrom(c, h, node, name, attr, at, Used(outer), entered, true);
      return;
    }
    entered := {};
    var elems := if ScalarArray(attr) then [] else Elements(h, node);
    NoneIndexed(c, h, node, name, attr, at, Used(outer), true);
    for i := 0 to |elems|
      invariant path.Valid() && path.Contents() == at
      invariant EnteredByIndex(c, h, node, name, attr, at, Used(outer), i, entered, true)
    {
      path.PushArrayIndex(i);
      var more := VisitGraphValue(c, h, ElementAt(h, node, attr, i), name, attr, path, outer, [EP.ArrayIndex(i)]);
      path.Pop();
      OneIndex(c, h, node, name, attr, at, Used(outer), i, entered, more, true);
      entered := entered + more;
    }
    AllIndexes(c, h, node, name, attr, at, Used(outer), entered, true);
  }

  lemma NoneIndexed(c: Ctx, h: Heap, node: Node, name: string, attr: AttrDef, at: Elems, used: set<string>, whole: bool)
    ensures EnteredByIndex(c, h, node, name, attr, at, used, 0, {}, whole)
  {
  }

  lemma InsideIsFrom(c: Ctx, h: Heap, node: Node, name: string, attr: AttrDef, at: Elems, used: set<string>,
                     entered: set<Elems>, whole: bool)
    requires !attr.isArray && EnteredInside(c, h, ObjectAt(h, node), name, attr, at, used, entered, whole)
    ensures EnteredField(c, h, node, name, attr, at, used, entered, whole)
  {
    hide Inside;
  }

  /** One value: entered when it is an object of a defined type whose attribute name is new on the path. */
  method VisitGraphValue(c: Ctx, h: Heap, target: Option<Fields>, name: string, attr: AttrDef, path: EP.Path,
                         ghost outer: Elems, ghost index: Elems)
    returns (entered: set<Elems>)
    requires Ready(c) && name in Names(c) && path.Valid()
    requires |index| <= 1 && forall i | 0 <= i < |index| :: index[i].ArrayIndex?
    requires path.Contents() == outer + [EP.Attribute(name)] + index
    modifies path.Repr()
    ensures path.Valid() && path.Contents() == old(path.Contents())
    ensures EnteredInside(c, h, target, name, attr, path.Contents(), Used(outer), entered, true)
    decreases Unused(c, outer), 1
  {
    hide EnteredOf, EnteredInside, Ready, Names, EP.PriorAttribute, Unused, Used;
    ghost var at := path.Contents();
    UsedAt(outer, name, index);
    var prior := path.HasPriorAttribute(name);
    if target == None || Observability.Nested(c.cat, attr) == None || prior {
      NotInside(c, h, target, name, attr, at, Used(outer), true);
      return {};
    }
    UnusedShrinks(c, outer, name, index);
    ObjectKnown(c, attr.objectType.value);
    var def := c.cat.objects[attr.objectType.value].item;
    var inner := VisitGraph(c, h, target.value, def, path);
    AllNames(c, h, target.value, def, at, inner, true);
    InsideObject(c, h, target, name, attr, at, Used(outer), inner, true);
    var here := path.Elements();
    entered := {here} + inner;
  }

  lemma NotInside(c: Ctx, h: Heap, target: Option<Fields>, name: string, attr: AttrDef, at: Elems, used: set<string>,
                  whole: bool)
    requires target == None || Observability.Nested(c.cat, attr) == None || name in used
    ensures EnteredInside(c, h, target, name, attr, at, used, {}, whole)
  {
  }

  lemma InsideObject(c: Ctx, h: Heap, target: Option<Fields>, name: string, attr: AttrDef, at: Elems,
                     used: set<string>, inner: set<Elems>, whole: bool)
    requires target.Some? && Observability.Nested(c.cat, attr).Some? && name !in used
    requires forall p :: EnteredAs(whole, p in inner,
      at < p && Enterable(c, h, target.value, c.cat.objects[attr.objectType.value].item, p[|at|..], used + {name}))
    ensures EnteredInside(c, h, target, name, attr, at, used, {at} + inner, whole)
  {
    hide Enterable;
    forall p: Elems ensures EnteredAs(whole, p in {at} + inner, at <= p && Inside(c, h, target, name, attr, p[|at|..], used)) {
      if at <= p && p[|at|..] == [] {
        assert p == at;
      }
    }
  }
}
