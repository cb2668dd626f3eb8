/** On a graph that spells out an event tree, the resolver answers what the event selects. */
module ResolvedTree {
  import opened Values
  import opened ObservablePath
  import opened Resolution
  import opened Resolver

  /** A node of the graph spells out a value. */
  ghost predicate Spells(h: Heap, n: Node, v: Value)
    decreases v
  {
    match n
    case NullNode => v == Null
    case ScalarNode(s) => v == s && v != Null && !v.Obj? && !v.Arr?
    case ObjRef(id) =>
      v.Obj? && id in h.objects && h.objects[id].Keys == v.fields.Keys
      && forall k | k in v.fields :: Spells(h, h.objects[id][k], v.fields[k])
    case ArrRef(id) =>
      v.Arr? && id in h.arrays && |h.arrays[id]| == |v.elems|
      && forall i | 0 <= i < |v.elems| :: Spells(h, h.arrays[id][i], v.elems[i])
  }

  /** Some value of a set is spelled out by a node. */
  ghost predicate SpelledIn(h: Heap, x: Node, values: set<Value>) {
    exists w :: w in values && Spells(h, x, w)
  }

  lemma ElementsSpell(h: Heap, n: Node, v: Value)
    requires Spells(h, n, v)
    ensures n.ArrRef? <==> v.Arr?
    ensures n.ArrRef? ==> |Elements(h, n)| == |v.elems| && forall i | 0 <= i < |v.elems| :: Spells(h, Elements(h, n)[i], v.elems[i])
    ensures n == NullNode <==> v == Null
    ensures n.ObjRef? <==> v.Obj?
    ensures n.ObjRef? ==> n.id in h.objects && h.objects[n.id].Keys == v.fields.Keys
    ensures n.ObjRef? ==> forall k | k in v.fields :: Spells(h, h.objects[n.id][k], v.fields[k])
  {
  }

  // ----- Leaves -----

  lemma {:induction false} LeafDown(h: Heap, chain: seq<Node>, v: Value)
    requires Nesting(h, chain) && Spells(h, chain[0], v)
    ensures !chain[|chain| - 1].ArrRef? ==> SpelledIn(h, chain[|chain| - 1], Leaves(v))
    ensures EmptyArray(h, chain[|chain| - 1]) ==> HoldsEmptyArray(v)
    decreases |chain|
  {
    hide Spells;
    ElementsSpell(h, chain[0], v);
    if |chain| > 1 {
      var rest := chain[1..];
      assert chain[0 + 1] in Elements(h, chain[0]);
      assert Nesting(h, rest) by {
        forall i | 0 <= i < |rest| - 1 ensures rest[i + 1] in Elements(h, rest[i]) {
          assert chain[i + 1 + 1] in Elements(h, chain[i + 1]);
        }
      }
      var i :| 0 <= i < |v.elems| && Elements(h, chain[0])[i] == chain[1];
      LeafDown(h, rest, v.elems[i]);
      assert Leaves(v.elems[i]) <= Leaves(v);
    }
  }

  lemma WithinLonger(h: Heap, n: Node, e: Node, x: Node)
    requires e in Elements(h, n) && Within(h, e, x)
    ensures Within(h, n, x)
  {
    var chain :| Nesting(h, chain) && chain[0] == e && chain[|chain| - 1] == x;
    var longer := [n] + chain;
    assert Nesting(h, longer) by {
      forall i | 0 <= i < |longer| - 1 ensures longer[i + 1] in Elements(h, longer[i]) {
        if i > 0 {
          assert chain[i - 1 + 1] in Elements(h, chain[i - 1]);
        }
      }
    }
  }

  lemma {:induction false} LeafUp(h: Heap, n: Node, v: Value, w: Value) returns (x: Node)
    requires Spells(h, n, v) && w in Leaves(v)
    ensures LeafOf(h, n, x) && Spells(h, x, w)
    decreases v
  {
    ElementsSpell(h, n, v);
    if v.Arr? {
      var i :| 0 <= i < |v.elems| && w in Leaves(v.elems[i]);
      x := LeafUp(h, Elements(h, n)[i], v.elems[i], w);
      WithinLonger(h, n, Elements(h, n)[i], x);
    } else {
      WithinSelf(h, n);
      x := n;
    }
  }

  lemma {:induction false} EmptyUp(h: Heap, n: Node, v: Value) returns (x: Node)
    requires Spells(h, n, v) && HoldsEmptyArray(v)
    ensures Within(h, n, x) && EmptyArray(h, x)
    decreases v
  {
    ElementsSpell(h, n, v);
    if v.elems == [] {
      WithinSelf(h, n);
      x := n;
    } else {
      var i :| 0 <= i < |v.elems| && HoldsEmptyArray(v.elems[i]);
      x := EmptyUp(h, Elements(h, n)[i], v.elems[i]);
      WithinLonger(h, n, Elements(h, n)[i], x);
    }
  }

  // ----- Selectors -----

  lemma OfferedSpell(h: Heap, n: Node, v: Value, selector: Selector)
    requires Spells(h, n, v)
    ensures |OfferedNodes(h, n, selector)| == |Offered(v, selector)|
    ensures forall i | 0 <= i < |Offered(v, selector)| :: Spells(h, OfferedNodes(h, n, selector)[i], Offered(v, selector)[i])
  {
    ElementsSpell(h, n, v);
    hide Spells;
  }

  lemma {:induction false} PickDown(h: Heap, n: Node, v: Value, selectors: seq<Selector>, x: Node)
    requires Spells(h, n, v) && x in PickedNodes(h, n, selectors)
    ensures SpelledIn(h, x, Picked(v, selectors))
    decreases |selectors|
  {
    hide Spells;
    if selectors == [] {
      assert v in Picked(v, selectors);
    } else {
      OfferedSpell(h, n, v, selectors[0]);
      hide OfferedNodes, Offered;
      var m :| m in OfferedNodes(h, n, selectors[0]) && x in PickedNodes(h, m, selectors[1..]);
      var i :| 0 <= i < |OfferedNodes(h, n, selectors[0])| && OfferedNodes(h, n, selectors[0])[i] == m;
      var mv := Offered(v, selectors[0])[i];
      PickDown(h, m, mv, selectors[1..], x);
      var w :| w in Picked(mv, selectors[1..]) && Spells(h, x, w);
      assert mv in Offered(v, selectors[0]);
      assert w in Picked(v, selectors);
    }
  }

  lemma {:induction false} PickUp(h: Heap, n: Node, v: Value, selectors: seq<Selector>, w: Value) returns (x: Node)
    requires Spells(h, n, v) && w in Picked(v, selectors)
    ensures x in PickedNodes(h, n, selectors) && Spells(h, x, w)
    decreases |selectors|
  {
    hide Spells;
    if selectors == [] {
      x := n;
    } else {
      OfferedSpell(h, n, v, selectors[0]);
      hide OfferedNodes, Offered;
      var mv :| mv in Offered(v, selectors[0]) && w in Picked(mv, selectors[1..]);
      var i :| 0 <= i < |Offered(v, selectors[0])| && Offered(v, selectors[0])[i] == mv;
      var m := OfferedNodes(h, n, selectors[0])[i];
      x := PickUp(h, m, mv, selectors[1..], w);
      assert m in OfferedNodes(h, n, selectors[0]);
    }
  }

  lemma {:induction false} PickMissingSame(h: Heap, n: Node, v: Value, selectors: seq<Selector>)
    requires Spells(h, n, v)
    ensures PickNodesMissing(h, n, selectors) <==> PickMissing(v, selectors)
    decreases |selectors|
  {
    hide Spells;
    if selectors != [] {
      ElementsSpell(h, n, v);
      OfferedSpell(h, n, v, selectors[0]);
      hide OfferedNodes, Offered;
      var nodes, values := OfferedNodes(h, n, selectors[0]), Offered(v, selectors[0]);
      forall i | 0 <= i < |nodes|
        ensures PickNodesMissing(h, nodes[i], selectors[1..]) <==> PickMissing(values[i], selectors[1..])
      {
        PickMissingSame(h, nodes[i], values[i], selectors[1..]);
      }
      if m :| m in nodes && PickNodesMissing(h, m, selectors[1..]) {
        var i :| 0 <= i < |nodes| && nodes[i] == m;
        assert values[i] in values;
      }
      if m :| m in values && PickMissing(m, selectors[1..]) {
        var i :| 0 <= i < |values| && values[i] == m;
        assert nodes[i] in nodes;
      }
    }
  }

  // ----- Segments -----

  lemma EnteredDown(h: Heap, leaf: Node, v: Value, segment: Segment, x: Node)
    requires Spells(h, leaf, v) && x in EnteredNodes(h, leaf, segment)
    ensures SpelledIn(h, x, Entered(v, segment))
  {
    ElementsSpell(h, leaf, v);
    hide Spells, PickedNodes, Picked;
    PickDown(h, h.objects[leaf.id][segment.attribute], v.fields[segment.attribute], segment.selectors, x);
  }

  lemma EnteredUp(h: Heap, leaf: Node, v: Value, segment: Segment, w: Value) returns (x: Node)
    requires Spells(h, leaf, v) && w in Entered(v, segment)
    ensures x in EnteredNodes(h, leaf, segment) && Spells(h, x, w)
  {
    ElementsSpell(h, leaf, v);
    hide Spells, PickedNodes, Picked;
    x := PickUp(h, h.objects[leaf.id][segment.attribute], v.fields[segment.attribute], segment.selectors, w);
  }

  lemma LeafMissingSame(h: Heap, leaf: Node, v: Value, segment: Segment)
    requires Spells(h, leaf, v)
    ensures LeafNodeMissing(h, leaf, segment) <==> LeafMissing(v, segment)
  {
    ElementsSpell(h, leaf, v);
    hide Spells, PickNodesMissing, PickMissing;
    if v.Obj? && segment.attribute in v.fields {
      PickMissingSame(h, h.objects[leaf.id][segment.attribute], v.fields[segment.attribute], segment.selectors);
    }
  }

  lemma StepDown(h: Heap, n: Node, v: Value, segment: Segment, x: Node)
    requires Spells(h, n, v) && StepsTo(h, n, segment, x)
    ensures SpelledIn(h, x, Stepped(v, segment))
  {
    hide Spells, EnteredNodes, Entered, Leaves;
    var leaf :| LeafOf(h, n, leaf) && x in EnteredNodes(h, leaf, segment);
    var chain :| Nesting(h, chain) && chain[0] == n && chain[|chain| - 1] == leaf;
    LeafDown(h, chain, v);
    var lv :| lv in Leaves(v) && Spells(h, leaf, lv);
    EnteredDown(h, leaf, lv, segment, x);
    var w :| w in Entered(lv, segment) && Spells(h, x, w);
    assert w in Stepped(v, segment);
  }

  lemma StepUp(h: Heap, n: Node, v: Value, segment: Segment, w: Value) returns (x: Node)
    requires Spells(h, n, v) && w in Stepped(v, segment)
    ensures StepsTo(h, n, segment, x) && Spells(h, x, w)
  {
    hide Spells, EnteredNodes, Entered, Leaves, LeafOf;
    var lv :| lv in Leaves(v) && w in Entered(lv, segment);
    var leaf := LeafUp(h, n, v, lv);
    x := EnteredUp(h, leaf, lv, segment, w);
  }

  lemma StepMissingSame(h: Heap, n: Node, v: Value, segment: Segment)
    requires Spells(h, n, v)
    ensures StepMisses(h, n, segment) <==> StepMissing(v, segment)
  {
    hide Spells, LeafNodeMissing, LeafMissing, Leaves, HoldsEmptyArray, EmptyArray;
    if x :| Within(h, n, x) && (EmptyArray(h, x) || (!x.ArrRef? && LeafNodeMissing(h, x, segment))) {
      var chain :| Nesting(h, chain) && chain[0] == n && chain[|chain| - 1] == x;
      LeafDown(h, chain, v);
      if !EmptyArray(h, x) {
        var lv :| lv in Leaves(v) && Spells(h, x, lv);
        LeafMissingSame(h, x, lv, segment);
      }
    }
    if HoldsEmptyArray(v) {
      var x := EmptyUp(h, n, v);
    } else if lv :| lv in Leaves(v) && LeafMissing(lv, segment) {
      var x := LeafUp(h, n, v, lv);
      LeafMissingSame(h, x, lv, segment);
      assert Within(h, n, x);
    }
  }

  lemma {:induction false} SelectDown(h: Heap, n: Node, v: Value, segments: seq<Segment>, x: Node)
    requires Spells(h, n, v) && Selects(h, n, segments, x)
    ensures SpelledIn(h, x, Selected(v, segments))
    decreases |segments|
  {
    hide Spells, Leaves, Stepped, StepsTo, Within;
    if segments == [] {
      ChainTo(h, n, v, x);
    } else {
      var m :| StepsTo(h, n, segments[0], m) && Selects(h, m, segments[1..], x);
      StepDown(h, n, v, segments[0], m);
      var mv :| mv in Stepped(v, segments[0]) && Spells(h, m, mv);
      SelectDown(h, m, mv, segments[1..], x);
      var w :| w in Selected(mv, segments[1..]) && Spells(h, x, w);
      assert w in Selected(v, segments);
    }
  }

  lemma ChainTo(h: Heap, n: Node, v: Value, x: Node)
    requires Spells(h, n, v) && LeafOf(h, n, x)
    ensures SpelledIn(h, x, Leaves(v))
  {
    hide Spells, Leaves;
    var chain :| Nesting(h, chain) && chain[0] == n && chain[|chain| - 1] == x;
    LeafDown(h, chain, v);
  }

  lemma {:induction false} SelectUp(h: Heap, n: Node, v: Value, segments: seq<Segment>, w: Value) returns (x: Node)
    requires Spells(h, n, v) && w in Selected(v, segments)
    ensures Selects(h, n, segments, x) && Spells(h, x, w)
    decreases |segments|
  {
    hide Spells, Leaves, Stepped, StepsTo, LeafOf;
    if segments == [] {
      x := LeafUp(h, n, v, w);
    } else {
      var mv :| mv in Stepped(v, segments[0]) && w in Selected(mv, segments[1..]);
      var m := StepUp(h, n, v, segments[0], mv);
      x := SelectUp(h, m, mv, segments[1..], w);
    }
  }

  lemma {:induction false} MissesSame(h: Heap, n: Node, v: Value, segments: seq<Segment>)
    requires Spells(h, n, v)
    ensures Misses(h, n, segments) <==> SelectionMissing(v, segments)
    decreases |segments|
  {
    hide Spells, Stepped, StepsTo, StepMisses, StepMissing;
    if segments != [] {
      StepMissingSame(h, n, v, segments[0]);
      if m :| StepsTo(h, n, segments[0], m) && Misses(h, m, segments[1..]) {
        StepDown(h, n, v, segments[0], m);
        var mv :| mv in Stepped(v, segments[0]) && Spells(h, m, mv);
        MissesSame(h, m, mv, segments[1..]);
      }
      if mv :| mv in Stepped(v, segments[0]) && SelectionMissing(mv, segments[1..]) {
        var m := StepUp(h, n, v, segments[0], mv);
        MissesSame(h, m, mv, segments[1..]);
      }
    }
  }

  /** The matcher of nodes that asks the same of what they spell out. */
  ghost predicate SameQuestion(h: Heap, nodes: NodeMatcher, values: Matcher) {
    forall n, v | Spells(h, n, v) :: nodes(n) == values(v)
  }

  /** The resolver with its fast path and its worklists, on any graph that spells out an event, gives the resolution of
      the event. */
  method ResolveEvent(h: Heap, root: Node, ghost event: Item, segments: seq<Segment>, matches: NodeMatcher,
                      ghost question: Matcher)
    returns (r: Resolution)
    requires Resolver.WellFormed(h) && Spells(h, root, Obj(event)) && SameQuestion(h, matches, question)
    ensures r == Resolve(event, segments, question)
  {
    hide *;
    RootDefined(h, root, event);
    r := ResolvePath(h, root, segments, matches);
    ResolutionSame(h, root, event, segments, matches, question);
    Named(event, segments, question);
  }

  lemma RootDefined(h: Heap, root: Node, event: Item)
    requires Spells(h, root, Obj(event))
    ensures Defined(h, root)
  {
  }

  lemma Named(event: Item, segments: seq<Segment>, question: Matcher)
    ensures Resolve(event, segments, question) == Resolution(Selected(Obj(event), segments) != {},
      exists x | x in Selected(Obj(event), segments) :: question(x), SelectionMissing(Obj(event), segments))
  {
    hide Selected, SelectionMissing;
  }

  lemma ResolutionSame(h: Heap, root: Node, event: Item, segments: seq<Segment>, matches: NodeMatcher,
                       question: Matcher)
    requires Spells(h, root, Obj(event)) && SameQuestion(h, matches, question)
    ensures (exists x :: Selects(h, root, segments, x)) <==> Selected(Obj(event), segments) != {}
    ensures (exists x :: Selects(h, root, segments, x) && matches(x))
      <==> exists w | w in Selected(Obj(event), segments) :: question(w)
    ensures Misses(h, root, segments) <==> SelectionMissing(Obj(event), segments)
  {
    hide *;
    MissesSame(h, root, Obj(event), segments);
    FoundSame(h, root, Obj(event), segments);
    MatchedSame(h, root, Obj(event), segments, matches, question);
  }

  lemma FoundSame(h: Heap, root: Node, v: Value, segments: seq<Segment>)
    requires Spells(h, root, v)
    ensures (exists x :: Selects(h, root, segments, x)) <==> Selected(v, segments) != {}
  {
    hide Spells, Selects, Selected;
    if x :| Selects(h, root, segments, x) {
      SelectDown(h, root, v, segments, x);
    }
    if w :| w in Selected(v, segments) {
      var x := SelectUp(h, root, v, segments, w);
    }
  }

  lemma MatchedSame(h: Heap, root: Node, v: Value, segments: seq<Segment>, matches: NodeMatcher, question: Matcher)
    requires Spells(h, root, v) && SameQuestion(h, matches, question)
    ensures (exists x :: Selects(h, root, segments, x) && matches(x)) <==> exists w | w in Selected(v, segments) :: question(w)
  {
    hide Spells, Selects, Selected;
    if x :| Selects(h, root, segments, x) && matches(x) {
      SelectDown(h, root, v, segments, x);
    }
    if w :| w in Selected(v, segments) && question(w) {
      var x := SelectUp(h, root, v, segments, w);
    }
  }
}
