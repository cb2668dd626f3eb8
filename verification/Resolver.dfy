/** The path resolver over event graphs whose arrays may be nested, shared or cyclic. */
module Resolver {
  import opened Text
  import opened Values
  import opened ObservablePath
  import opened Resolution

  /** A value in a graph: objects and arrays are references, so they can be shared and can contain themselves. */
  datatype Node = NullNode | ScalarNode(scalar: Value) | ObjRef(id: nat) | ArrRef(id: nat)

  type Fields = map<string, Node>

  datatype Heap = Heap(objects: map<nat, Fields>, arrays: map<nat, seq<Node>>)

  predicate Defined(h: Heap, n: Node) {
    match n
    case ObjRef(id) => id in h.objects
    case ArrRef(id) => id in h.arrays
    case _ => true
  }

  ghost predicate WellFormed(h: Heap) {
    && (forall a, n | a in h.arrays && n in h.arrays[a] :: Defined(h, n))
    && (forall o, k | o in h.objects && k in h.objects[o] :: Defined(h, h.objects[o][k]))
  }

  function Elements(h: Heap, n: Node): seq<Node> {
    if n.ArrRef? && n.id in h.arrays then h.arrays[n.id] else []
  }

  // ----- What a path selects -----

  /** Nested array elements leading from the first node of a chain to its last. */
  ghost predicate Nesting(h: Heap, chain: seq<Node>) {
    chain != [] && forall i | 0 <= i < |chain| - 1 :: chain[i + 1] in Elements(h, chain[i])
  }

  /** `x` stands inside `n`, however deeply its arrays nest. */
  ghost predicate Within(h: Heap, n: Node, x: Node) {
    exists chain :: Nesting(h, chain) && chain[0] == n && chain[|chain| - 1] == x
  }

  ghost predicate LeafOf(h: Heap, n: Node, x: Node) {
    Within(h, n, x) && !x.ArrRef?
  }

  predicate EmptyArray(h: Heap, n: Node) {
    n.ArrRef? && Elements(h, n) == []
  }

  function OfferedNodes(h: Heap, n: Node, selector: Selector): seq<Node> {
    var elems := Elements(h, n);
    if selector.At? then (if selector.index < |elems| then [elems[selector.index]] else [])
    else elems
  }

  function PickedNodes(h: Heap, n: Node, selectors: seq<Selector>): set<Node>
    decreases |selectors|
  {
    if selectors == [] then {n}
    else set m, x | m in OfferedNodes(h, n, selectors[0]) && x in PickedNodes(h, m, selectors[1..]) :: x
  }

  predicate PickNodesMissing(h: Heap, n: Node, selectors: seq<Selector>)
    decreases |selectors|
  {
    selectors != [] &&
    ((n.ArrRef? && OfferedNodes(h, n, selectors[0]) == [])
     || exists m | m in OfferedNodes(h, n, selectors[0]) :: PickNodesMissing(h, m, selectors[1..]))
  }

  function FieldOf(h: Heap, leaf: Node, name: string): Option<Node> {
    if leaf.ObjRef? && leaf.id in h.objects && name in h.objects[leaf.id] then Some(h.objects[leaf.id][name]) else None
  }

  function EnteredNodes(h: Heap, leaf: Node, segment: Segment): set<Node> {
    var field := FieldOf(h, leaf, segment.attribute);
    if field.Some? then PickedNodes(h, field.value, segment.selectors) else {}
  }

  predicate LeafNodeMissing(h: Heap, leaf: Node, segment: Segment) {
    || leaf == NullNode
    || (leaf.ObjRef? &&
        var field := FieldOf(h, leaf, segment.attribute);
        field == None || PickNodesMissing(h, field.value, segment.selectors))
  }

  ghost predicate StepsTo(h: Heap, n: Node, segment: Segment, w: Node) {
    exists leaf :: LeafOf(h, n, leaf) && w in EnteredNodes(h, leaf, segment)
  }

  ghost predicate StepMisses(h: Heap, n: Node, segment: Segment) {
    exists x :: Within(h, n, x) && (EmptyArray(h, x) || (!x.ArrRef? && LeafNodeMissing(h, x, segment)))
  }

  ghost predicate Selects(h: Heap, n: Node, segments: seq<Segment>, x: Node)
    decreases |segments|
  {
    if segments == [] then LeafOf(h, n, x)
    else exists w :: StepsTo(h, n, segments[0], w) && Selects(h, w, segments[1..], x)
  }

  ghost predicate Misses(h: Heap, n: Node, segments: seq<Segment>)
    decreases |segments|
  {
    segments != [] &&
    (StepMisses(h, n, segments[0]) || exists w :: StepsTo(h, n, segments[0], w) && Misses(h, w, segments[1..]))
  }

  lemma WithinSelf(h: Heap, n: Node)
    ensures Within(h, n, n)
  {
    assert Nesting(h, [n]);
  }

  lemma WithinElement(h: Heap, n: Node, a: Node, e: Node)
    requires Within(h, n, a) && e in Elements(h, a)
    ensures Within(h, n, e)
  {
    hide Elements;
    var chain :| Nesting(h, chain) && chain[0] == n && chain[|chain| - 1] == a;
    var longer := chain + [e];
    forall i | 0 <= i < |longer| - 1 ensures longer[i + 1] in Elements(h, longer[i]) {
      if i < |chain| - 1 {
        assert chain[i + 1] in Elements(h, chain[i]);
      }
    }
    assert Nesting(h, longer) && longer[0] == n && longer[|longer| - 1] == e;
  }

  /** A set that holds a node and every element of its arrays holds everything within the node. */
  lemma {:induction false} ClosedHoldsChain(h: Heap, done: set<Node>, chain: seq<Node>)
    requires Nesting(h, chain) && chain[0] in done
    requires forall a, e | a in done && e in Elements(h, a) :: e in done
    ensures chain[|chain| - 1] in done
    decreases |chain|
  {
    if |chain| > 1 {
      var rest := chain[1..];
      assert chain[0 + 1] in Elements(h, chain[0]);
      assert Nesting(h, rest) by {
        forall i | 0 <= i < |rest| - 1 ensures rest[i + 1] in Elements(h, rest[i]) {
          assert chain[i + 1 + 1] in Elements(h, chain[i + 1]);
        }
      }
      ClosedHoldsChain(h, done, rest);
    }
  }

  lemma ClosedHolds(h: Heap, done: set<Node>, n: Node)
    requires n in done
    requires forall a, e | a in done && e in Elements(h, a) :: e in done
    ensures forall x | Within(h, n, x) :: x in done
  {
    forall x | Within(h, n, x) ensures x in done {
      var chain :| Nesting(h, chain) && chain[0] == n && chain[|chain| - 1] == x;
      ClosedHoldsChain(h, done, chain);
    }
  }

  // ----- Array identities -----

  const INLINE_IDENTITIES := 8

  /** The identities seen in one traversal: eight inline, the rest in a map. */
  class ArrayIdentitySet {
    const inline: array<nat>
    var length: nat
    var overflow: set<nat>

    ghost predicate Valid()
      reads this
    {
      inline.Length == INLINE_IDENTITIES && (length < INLINE_IDENTITIES ==> overflow == {})
    }

    ghost function Contents(): set<nat>
      requires Valid()
      reads this, inline
    {
      (set i | 0 <= i < inline.Length && i < length :: inline[i]) + overflow
    }

    constructor ()
      ensures Valid() && Contents() == {} && fresh(inline)
    {
      inline := new nat[INLINE_IDENTITIES](_ => 0);
      length := 0;
      overflow := {};
    }

    /** Records an identity and tells whether it was there before. */
    method AddIdentity(identity: nat) returns (present: bool)
      requires Valid()
      modifies this, inline
      ensures Valid()
      ensures present <==> identity in old(Contents())
      ensures Contents() == old(Contents()) + {identity}
    {
      var inlineLength := if length < inline.Length then length else inline.Length;
      for index := 0 to inlineLength
        invariant forall i | 0 <= i < index :: inline[i] != identity
      {
        if inline[index] == identity {
          return true;
        }
      }
      if length < inline.Length {
        ghost var before := Contents();
        inline[length] := identity;
        length := length + 1;
        assert Contents() == before + {identity} by {
          assert inline[length - 1] == identity;
          forall x | x in before ensures x in Contents() {
            var i :| 0 <= i < length - 1 && old(inline[i]) == x;
            assert inline[i] == x;
          }
        }
        return false;
      }
      if identity in overflow {
        return true;
      }
      overflow := overflow + {identity};
      length := length + 1;
      return false;
    }
  }

  // ----- The worklist over nested arrays -----

  ghost predicate InsideOf(h: Heap, values: seq<Node>, x: Node) {
    exists v :: v in values && Within(h, v, x)
  }

  /** Everything inside the values is done, stacked, or inside an array that is stacked. */
  ghost predicate Covering(h: Heap, values: seq<Node>, done: set<Node>, stack: seq<Node>) {
    && (forall v | v in values :: v in done || v in stack)
    && (forall a, e | a in done && e in Elements(h, a) :: e in done || e in stack)
    && (forall n | n in done :: InsideOf(h, values, n))
    && (forall n | n in stack :: InsideOf(h, values, n))
  }

  lemma CoverStart(h: Heap, values: seq<Node>)
    ensures Covering(h, values, {}, values)
  {
    forall n | n in values ensures InsideOf(h, values, n) {
      WithinSelf(h, n);
    }
  }

  /** Taking `n` off the stack and pushing its elements, or none when it was done before. */
  lemma CoverStep(h: Heap, values: seq<Node>, done: set<Node>, stack: seq<Node>, n: Node, after: seq<Node>)
    requires Covering(h, values, done, stack) && n in stack
    requires forall x | x in stack :: x == n || x in after
    requires forall x | x in after :: x in stack || x in Elements(h, n)
    requires n in done || forall e | e in Elements(h, n) :: e in after
    ensures Covering(h, values, done + {n}, after)
  {
    hide Within;
    forall x | x in after ensures InsideOf(h, values, x) {
      if x !in stack {
        var v :| v in values && Within(h, v, n);
        WithinElement(h, v, n, x);
      }
    }
  }

  lemma CoverEnd(h: Heap, values: seq<Node>, done: set<Node>)
    requires Covering(h, values, done, [])
    ensures forall x :: x in done <==> InsideOf(h, values, x)
  {
    hide Within;
    forall x | InsideOf(h, values, x) ensures x in done {
      var v :| v in values && Within(h, v, x);
      ClosedHolds(h, done, v);
    }
  }

  /** Pushes the elements so that the first one is taken first. */
  method PushElements(rest: seq<Node>, elems: seq<Node>) returns (stack: seq<Node>)
    ensures forall x :: x in stack <==> x in rest || x in elems
  {
    stack := rest;
    for index := |elems| downto 0
      invariant forall x :: x in stack <==> x in rest || x in elems[index..]
    {
      stack := stack + [elems[index]];
      assert elems[index..] == [elems[index]] + elems[index + 1..];
    }
  }

  /** Identities recorded so far: exactly the non-empty arrays that are done. */
  ghost predicate Tracked(h: Heap, done: set<Node>, seen: set<nat>) {
    && seen <= h.arrays.Keys
    && forall id | id in h.arrays && h.arrays[id] != [] :: id in seen <==> ArrRef(id) in done
  }

  lemma TrackStep(h: Heap, done: set<Node>, seen: set<nat>, n: Node)
    requires Tracked(h, done, seen) && Defined(h, n)
    ensures Tracked(h, done + {n}, if n.ArrRef? && Elements(h, n) != [] then seen + {n.id} else seen)
    ensures n.ArrRef? && Elements(h, n) != [] ==> (n.id in seen <==> n in done)
  {
  }

  // ----- One selector list -----

  method ApplySelector(h: Heap, values: seq<Node>, selector: Selector) returns (result: seq<Node>, missing: bool)
    requires forall v | v in values :: Defined(h, v)
    ensures forall x :: x in result <==> exists v | v in values :: x in OfferedNodes(h, v, selector)
    ensures missing <==> exists v | v in values :: v.ArrRef? && OfferedNodes(h, v, selector) == []
  {
    result, missing := [], false;
    for i := 0 to |values|
      invariant forall x :: x in result <==> exists v | v in values[..i] :: x in OfferedNodes(h, v, selector)
      invariant missing <==> exists v | v in values[..i] :: v.ArrRef? && OfferedNodes(h, v, selector) == []
    {
      var value := values[i];
      assert value in values && Defined(h, value);
      assert values[..i + 1] == values[..i] + [value];
      if value.ArrRef? {
        var elems := h.arrays[value.id];
        var offered := if selector.At? then (if selector.index < |elems| then [elems[selector.index]] else []) else elems;
        assert offered == OfferedNodes(h, value, selector);
        hide OfferedNodes;
        result := result + offered;
        missing := missing || offered == [];
      }
    }
    assert values[..|values|] == values;
  }

  ghost predicate PickedFrom(h: Heap, values: seq<Node>, selectors: seq<Selector>, x: Node) {
    exists v :: v in values && x in PickedNodes(h, v, selectors)
  }

  ghost predicate PickMissingFrom(h: Heap, values: seq<Node>, selectors: seq<Selector>) {
    exists v :: v in values && PickNodesMissing(h, v, selectors)
  }

  lemma SelectorStep(h: Heap, values: seq<Node>, selectors: seq<Selector>, next: seq<Node>)
    requires selectors != []
    requires forall m :: m in next <==> exists v | v in values :: m in OfferedNodes(h, v, selectors[0])
    ensures forall x :: PickedFrom(h, values, selectors, x) <==> PickedFrom(h, next, selectors[1..], x)
    ensures PickMissingFrom(h, values, selectors) <==>
      (exists v | v in values :: v.ArrRef? && OfferedNodes(h, v, selectors[0]) == [])
      || PickMissingFrom(h, next, selectors[1..])
  {
    hide OfferedNodes;
    forall x ensures PickedFrom(h, values, selectors, x) <==> PickedFrom(h, next, selectors[1..], x) {
      if PickedFrom(h, values, selectors, x) {
        var v :| v in values && x in PickedNodes(h, v, selectors);
        var m :| m in OfferedNodes(h, v, selectors[0]) && x in PickedNodes(h, m, selectors[1..]);
        assert m in next;
      }
      if PickedFrom(h, next, selectors[1..], x) {
        var m :| m in next && x in PickedNodes(h, m, selectors[1..]);
        var v :| v in values && m in OfferedNodes(h, v, selectors[0]);
        assert x in PickedNodes(h, v, selectors);
      }
    }
    if PickMissingFrom(h, next, selectors[1..]) {
      var m :| m in next && PickNodesMissing(h, m, selectors[1..]);
      var v :| v in values && m in OfferedNodes(h, v, selectors[0]);
      assert PickNodesMissing(h, v, selectors);
    }
    if PickMissingFrom(h, values, selectors) {
      var v :| v in values && PickNodesMissing(h, v, selectors);
      if m :| m in OfferedNodes(h, v, selectors[0]) && PickNodesMissing(h, m, selectors[1..]) {
        assert m in next;
      }
    }
  }

  /** The selectors of one segment applied in turn, stopping when nothing is left. */
  method ApplySelectors(h: Heap, value: Node, selectors: seq<Selector>) returns (result: seq<Node>, missing: bool)
    requires WellFormed(h) && Defined(h, value)
    ensures forall x :: x in result <==> x in PickedNodes(h, value, selectors)
    ensures missing <==> PickNodesMissing(h, value, selectors)
    ensures forall x | x in result :: Defined(h, x)
  {
    result, missing := [value], false;
    var i := 0;
    assert selectors[0..] == selectors;
    while i < |selectors| && result != []
      invariant 0 <= i <= |selectors|
      invariant forall x | x in result :: Defined(h, x)
      invariant forall x :: x in PickedNodes(h, value, selectors) <==> PickedFrom(h, result, selectors[i..], x)
      invariant PickNodesMissing(h, value, selectors) <==> missing || PickMissingFrom(h, result, selectors[i..])
    {
      hide PickedFrom, PickMissingFrom, PickedNodes, PickNodesMissing;
      var selected, absent := ApplySelector(h, result, selectors[i]);
      SelectorStep(h, result, selectors[i..], selected);
      assert selectors[i..][1..] == selectors[i + 1..];
      OfferedDefined(h, result, selectors[i], selected);
      result, missing := selected, missing || absent;
      i := i + 1;
    }
    if result != [] {
      assert selectors[i..] == [];
    }
  }

  lemma OfferedDefined(h: Heap, values: seq<Node>, selector: Selector, next: seq<Node>)
    requires WellFormed(h)
    requires forall m :: m in next <==> exists v | v in values :: m in OfferedNodes(h, v, selector)
    ensures forall m | m in next :: Defined(h, m)
  {
  }

  // ----- One segment -----

  ghost predicate ResultOf(h: Heap, done: set<Node>, segment: Segment, result: seq<Node>) {
    forall w :: w in result <==> EnteredFrom(h, done, segment, w)
  }

  ghost predicate EnteredFrom(h: Heap, done: set<Node>, segment: Segment, w: Node) {
    exists leaf :: leaf in done && w in EnteredNodes(h, leaf, segment)
  }

  /** One segment leads from some of the values to `w`. */
  ghost predicate StepsFrom(h: Heap, values: seq<Node>, segment: Segment, w: Node) {
    exists v :: v in values && StepsTo(h, v, segment, w)
  }

  ghost predicate MissesFrom(h: Heap, values: seq<Node>, segment: Segment) {
    exists v :: v in values && StepMisses(h, v, segment)
  }

  ghost predicate Missed(h: Heap, x: Node, segment: Segment) {
    EmptyArray(h, x) || (!x.ArrRef? && LeafNodeMissing(h, x, segment))
  }

  ghost predicate MissingIn(h: Heap, done: set<Node>, segment: Segment) {
    exists x :: x in done && Missed(h, x, segment)
  }

  lemma SegmentStep(h: Heap, done: set<Node>, segment: Segment, result: seq<Node>, missing: bool, n: Node,
                    entered: seq<Node>, absent: bool)
    requires ResultOf(h, done, segment, result) && (missing <==> MissingIn(h, done, segment))
    requires forall w :: w in entered <==> w in EnteredNodes(h, n, segment)
    requires absent <==> Missed(h, n, segment)
    ensures ResultOf(h, done + {n}, segment, result + entered)
    ensures missing || absent <==> MissingIn(h, done + {n}, segment)
  {
    hide EnteredNodes, Missed;
  }

  /** What a popped node contributes: an array only whether it is empty, a leaf its selected values. */
  method Contribute(h: Heap, n: Node, segment: Segment) returns (entered: seq<Node>, absent: bool)
    requires WellFormed(h) && Defined(h, n)
    ensures forall w :: w in entered <==> w in EnteredNodes(h, n, segment)
    ensures absent <==> Missed(h, n, segment)
    ensures forall w | w in entered :: Defined(h, w)
  {
    hide PickedNodes, PickNodesMissing;
    match n
    case ArrRef(id) => return [], h.arrays[id] == [];
    case NullNode => return [], true;
    case ScalarNode(_) => return [], false;
    case ObjRef(id) =>
      var item := h.objects[id];
      if segment.attribute !in item {
        return [], true;
      }
      entered, absent := ApplySelectors(h, item[segment.attribute], segment.selectors);
  }

  /** The candidates one segment leads to; arrays opened before are skipped. */
  method ResolveSegmentCandidates(h: Heap, values: seq<Node>, segment: Segment) returns (result: seq<Node>,
                                  missing: bool)
    requires WellFormed(h) && forall v | v in values :: Defined(h, v)
    ensures forall w :: w in result <==> StepsFrom(h, values, segment, w)
    ensures missing <==> MissesFrom(h, values, segment)
    ensures forall w | w in result :: Defined(h, w)
  {
    result, missing := [], false;
    var stack := values;
    var seenArrays := new ArrayIdentitySet();
    ghost var done: set<Node> := {};
    CoverStart(h, values);
    NothingDone(h, segment);
    hide *;
    while stack != []
      invariant seenArrays.Valid() && fresh(seenArrays) && fresh(seenArrays.inline)
      invariant Covering(h, values, done, stack)
      invariant Tracked(h, done, seenArrays.Contents())
      invariant ResultOf(h, done, segment, result)
      invariant missing <==> MissingIn(h, done, segment)
      invariant forall n | n in stack :: Defined(h, n)
      invariant forall w | w in result :: Defined(h, w)
      decreases h.arrays.Keys - seenArrays.Contents(), |stack|
    {
      var value := stack[|stack| - 1];
      ghost var before := stack;
      InitAndLast(stack);
      stack := Open(h, seenArrays, stack[..|stack| - 1], value, done);
      CoverStep(h, values, done, before, value, stack);
      var entered, absent := Contribute(h, value, segment);
      SegmentStep(h, done, segment, result, missing, value, entered, absent);
      result, missing, done := result + entered, missing || absent, done + {value};
    }
    CoverEnd(h, values, done);
    SegmentEnd(h, values, done, segment);
    ResultMembers(h, done, segment, result);
  }

  lemma ResultMembers(h: Heap, done: set<Node>, segment: Segment, result: seq<Node>)
    requires ResultOf(h, done, segment, result)
    ensures forall w :: w in result <==> EnteredFrom(h, done, segment, w)
  {
  }

  lemma NothingDone(h: Heap, segment: Segment)
    ensures Tracked(h, {}, {}) && ResultOf(h, {}, segment, []) && !MissingIn(h, {}, segment)
  {
  }

  lemma SegmentEnd(h: Heap, values: seq<Node>, done: set<Node>, segment: Segment)
    requires forall x :: x in done <==> InsideOf(h, values, x)
    ensures forall w :: EnteredFrom(h, done, segment, w) <==> StepsFrom(h, values, segment, w)
    ensures MissingIn(h, done, segment) <==> MissesFrom(h, values, segment)
  {
    hide Within, EnteredNodes, LeafNodeMissing;
    forall w ensures EnteredFrom(h, done, segment, w) <==> StepsFrom(h, values, segment, w) {
      if leaf :| leaf in done && w in EnteredNodes(h, leaf, segment) {
        var v :| v in values && Within(h, v, leaf);
        ArraysEnterNothing(h, leaf, segment);
        assert LeafOf(h, v, leaf);
        assert StepsTo(h, v, segment, w);
      }
    }
    if MissingIn(h, done, segment) {
      var x :| x in done && Missed(h, x, segment);
      var v :| v in values && Within(h, v, x);
      assert StepMisses(h, v, segment);
    }
    if v :| v in values && StepMisses(h, v, segment) {
      var x :| Within(h, v, x) && (EmptyArray(h, x) || (!x.ArrRef? && LeafNodeMissing(h, x, segment)));
      assert x in done && Missed(h, x, segment);
    }
  }

  lemma ArraysEnterNothing(h: Heap, n: Node, segment: Segment)
    ensures n.ArrRef? ==> EnteredNodes(h, n, segment) == {}
  {
  }

  /** Pushes an array's elements unless the array is empty or was opened before. */
  method Open(h: Heap, seenArrays: ArrayIdentitySet, rest: seq<Node>, value: Node, ghost done: set<Node>)
    returns (stack: seq<Node>)
    requires WellFormed(h) && Defined(h, value) && forall n | n in rest :: Defined(h, n)
    requires seenArrays.Valid() && Tracked(h, done, seenArrays.Contents())
    modifies seenArrays, seenArrays.inline
    ensures seenArrays.Valid() && Tracked(h, done + {value}, seenArrays.Contents())
    ensures forall x | x in rest :: x in stack
    ensures forall x | x in stack :: x in rest || x in Elements(h, value)
    ensures value in done || forall e | e in Elements(h, value) :: e in stack
    ensures forall n | n in stack :: Defined(h, n)
    ensures if value in done || Elements(h, value) == []
            then stack == rest && seenArrays.Contents() == old(seenArrays.Contents())
            else seenArrays.Contents() > old(seenArrays.Contents()) && seenArrays.Contents() <= h.arrays.Keys
  {
    TrackStep(h, done, seenArrays.Contents(), value);
    stack := rest;
    if value.ArrRef? {
      var elems := h.arrays[value.id];
      if elems != [] {
        var seen := seenArrays.AddIdentity(value.id);
        if seen {
          assert old(seenArrays.Contents()) + {value.id} == old(seenArrays.Contents());
        } else {
          stack := PushElements(stack, elems);
        }
      }
    }
  }

  // ----- The last step: matching -----

  type NodeMatcher = Node -> bool

  ghost predicate LeafFrom(h: Heap, values: seq<Node>, x: Node) {
    InsideOf(h, values, x) && !x.ArrRef?
  }

  /** Whether the values hold a leaf, and a matching one; stops at the first match. */
  method MatchCandidates(h: Heap, values: seq<Node>, matches: NodeMatcher) returns (found: bool, matched: bool)
    requires WellFormed(h) && forall v | v in values :: Defined(h, v)
    ensures found <==> exists x :: LeafFrom(h, values, x)
    ensures matched <==> exists x :: LeafFrom(h, values, x) && matches(x)
  {
    found, matched := false, false;
    var stack := values;
    var seenArrays := new ArrayIdentitySet();
    ghost var done: set<Node> := {};
    CoverStart(h, values);
    NothingDone(h, Segment("", []));
    hide *;
    while stack != []
      invariant seenArrays.Valid() && fresh(seenArrays) && fresh(seenArrays.inline)
      invariant Covering(h, values, done, stack)
      invariant Tracked(h, done, seenArrays.Contents())
      invariant found <==> exists x :: x in done && !x.ArrRef?
      invariant forall x | x in done && !x.ArrRef? :: !matches(x)
      invariant forall n | n in stack :: Defined(h, n)
      decreases h.arrays.Keys - seenArrays.Contents(), |stack|
    {
      var value := stack[|stack| - 1];
      ghost var before := stack;
      InitAndLast(stack);
      stack := Open(h, seenArrays, stack[..|stack| - 1], value, done);
      CoverStep(h, values, done, before, value, stack);
      if !value.ArrRef? {
        found := true;
        Covered(h, values, done, before, value);
        if matches(value) {
          return true, true;
        }
      }
      done := done + {value};
    }
    CoverEnd(h, values, done);
    LeavesDone(h, values, done);
  }

  lemma Covered(h: Heap, values: seq<Node>, done: set<Node>, stack: seq<Node>, n: Node)
    requires Covering(h, values, done, stack) && n in stack && !n.ArrRef?
    ensures LeafFrom(h, values, n)
  {
  }

  lemma LeavesDone(h: Heap, values: seq<Node>, done: set<Node>)
    requires forall x :: x in done <==> InsideOf(h, values, x)
    ensures forall x :: LeafFrom(h, values, x) <==> x in done && !x.ArrRef?
  {
    hide InsideOf;
  }

  // ----- The whole path -----

  ghost predicate SelectsFrom(h: Heap, values: seq<Node>, segments: seq<Segment>, x: Node) {
    exists v :: v in values && Selects(h, v, segments, x)
  }

  ghost predicate MissesAlong(h: Heap, values: seq<Node>, segments: seq<Segment>) {
    exists v :: v in values && Misses(h, v, segments)
  }

  lemma PathStep(h: Heap, values: seq<Node>, segments: seq<Segment>, next: seq<Node>)
    requires segments != []
    requires forall w :: w in next <==> StepsFrom(h, values, segments[0], w)
    ensures forall x :: SelectsFrom(h, values, segments, x) <==> SelectsFrom(h, next, segments[1..], x)
    ensures MissesAlong(h, values, segments) <==> MissesFrom(h, values, segments[0]) || MissesAlong(h, next, segments[1..])
  {
    hide StepsTo, StepMisses;
    forall x ensures SelectsFrom(h, values, segments, x) <==> SelectsFrom(h, next, segments[1..], x) {
      if SelectsFrom(h, values, segments, x) {
        var v :| v in values && Selects(h, v, segments, x);
        var w :| StepsTo(h, v, segments[0], w) && Selects(h, w, segments[1..], x);
        assert StepsFrom(h, values, segments[0], w);
      }
      if SelectsFrom(h, next, segments[1..], x) {
        var w :| w in next && Selects(h, w, segments[1..], x);
        var v :| v in values && StepsTo(h, v, segments[0], w);
        assert Selects(h, v, segments, x);
      }
    }
    if MissesAlong(h, next, segments[1..]) {
      var w :| w in next && Misses(h, w, segments[1..]);
      var v :| v in values && StepsTo(h, v, segments[0], w);
      assert Misses(h, v, segments);
    }
    if MissesFrom(h, values, segments[0]) {
      var v :| v in values && StepMisses(h, v, segments[0]);
      assert Misses(h, v, segments);
    }
    if MissesAlong(h, values, segments) {
      var v :| v in values && Misses(h, v, segments);
      if w :| StepsTo(h, v, segments[0], w) && Misses(h, w, segments[1..]) {
        assert StepsFrom(h, values, segments[0], w);
      }
    }
  }

  /** The general walk, for any path over any graph. */
  method ResolveGeneral(h: Heap, root: Node, segments: seq<Segment>, matches: NodeMatcher) returns (r: Resolution)
    requires WellFormed(h) && Defined(h, root)
    ensures r.found <==> exists x :: Selects(h, root, segments, x)
    ensures r.matched <==> exists x :: Selects(h, root, segments, x) && matches(x)
    ensures r.missing <==> Misses(h, root, segments)
  {
    var current := [root];
    var missing := false;
    var index := 0;
    StartHere(h, root, segments);
    assert segments[0..] == segments;
    while index < |segments|
      invariant 0 <= index <= |segments|
      invariant forall v | v in current :: Defined(h, v)
      invariant forall x :: Selects(h, root, segments, x) <==> SelectsFrom(h, current, segments[index..], x)
      invariant Misses(h, root, segments) <==> missing || MissesAlong(h, current, segments[index..])
    {
      hide *;
      var next, absent := ResolveSegmentCandidates(h, current, segments[index]);
      PathStep(h, current, segments[index..], next);
      assert segments[index..][1..] == segments[index + 1..];
      missing := missing || absent;
      current := next;
      index := index + 1;
      if current == [] {
        NothingLeft(h, segments[index..]);
        return Resolution(false, false, missing);
      }
    }
    assert segments[index..] == [];
    EndOfPath(h, current);
    hide *;
    var found, matched := MatchCandidates(h, current, matches);
    return Resolution(found, matched, missing);
  }

  lemma StartHere(h: Heap, root: Node, segments: seq<Segment>)
    ensures forall x :: Selects(h, root, segments, x) <==> SelectsFrom(h, [root], segments, x)
    ensures Misses(h, root, segments) <==> MissesAlong(h, [root], segments)
  {
    hide Selects, Misses;
    assert root in [root];
  }

  lemma NothingLeft(h: Heap, segments: seq<Segment>)
    ensures forall x :: !SelectsFrom(h, [], segments, x)
    ensures !MissesAlong(h, [], segments)
  {
  }

  lemma EndOfPath(h: Heap, values: seq<Node>)
    ensures forall x :: SelectsFrom(h, values, [], x) <==> LeafFrom(h, values, x)
    ensures !MissesAlong(h, values, [])
  {
    hide Within;
    forall x ensures SelectsFrom(h, values, [], x) <==> LeafFrom(h, values, x) {
      if LeafFrom(h, values, x) {
        var v :| v in values && Within(h, v, x);
        assert Selects(h, v, [], x);
      }
    }
  }

  // ----- The no-array fast path -----

  lemma LeafIsItself(h: Heap, n: Node)
    requires !n.ArrRef?
    ensures forall x :: Within(h, n, x) <==> x == n
  {
    WithinSelf(h, n);
    ClosedHolds(h, {n}, n);
  }

  lemma SingleStep(h: Heap, current: Node, segments: seq<Segment>)
    requires segments != [] && !current.ArrRef? && segments[0].selectors == []
    ensures var field := FieldOf(h, current, segments[0].attribute);
      if field.Some? then
        && (forall x :: Selects(h, current, segments, x) <==> Selects(h, field.value, segments[1..], x))
        && (Misses(h, current, segments) <==> Misses(h, field.value, segments[1..]))
      else
        && (forall x :: !Selects(h, current, segments, x))
        && (Misses(h, current, segments) <==> current == NullNode || current.ObjRef?)
  {
    LeafIsItself(h, current);
    var field := FieldOf(h, current, segments[0].attribute);
    forall w ensures StepsTo(h, current, segments[0], w) <==> field == Some(w) {
      if field == Some(w) {
        assert LeafOf(h, current, current) && w in EnteredNodes(h, current, segments[0]);
      }
    }
    assert StepMisses(h, current, segments[0]) <==> LeafNodeMissing(h, current, segments[0]);
    hide Within, StepsTo, StepMisses, LeafOf;
  }

  lemma LeafSelected(h: Heap, n: Node)
    requires !n.ArrRef?
    ensures forall x :: Selects(h, n, [], x) <==> x == n
    ensures !Misses(h, n, [])
  {
    LeafIsItself(h, n);
    hide Within;
  }

  lemma FieldDefined(h: Heap, n: Node, name: string)
    requires WellFormed(h) && FieldOf(h, n, name).Some?
    ensures Defined(h, FieldOf(h, n, name).value)
  {
  }

  /** Answers a path that meets no array and uses no selector; otherwise leaves the question to the general walk. */
  method ResolveSingle(h: Heap, root: Node, segments: seq<Segment>)
    returns (value: Node, resolution: Resolution, handled: bool)
    requires WellFormed(h) && Defined(h, root)
    ensures handled ==>
      && (forall x :: Selects(h, root, segments, x) <==> resolution.found && x == value)
      && (resolution.missing <==> Misses(h, root, segments)) && !resolution.matched
  {
    hide Selects, Misses, WellFormed;
    var current := root;
    var index := 0;
    assert segments[0..] == segments;
    while index < |segments|
      invariant 0 <= index <= |segments|
      invariant Defined(h, current)
      invariant forall x :: Selects(h, root, segments, x) <==> Selects(h, current, segments[index..], x)
      invariant Misses(h, root, segments) <==> Misses(h, current, segments[index..])
    {
      var segment := segments[index];
      if segment.selectors != [] || current.ArrRef? {
        return NullNode, Resolution(false, false, false), false;
      }
      SingleStep(h, current, segments[index..]);
      assert segments[index..][1..] == segments[index + 1..];
      if current == NullNode {
        return NullNode, Resolution(false, false, true), true;
      }
      if !current.ObjRef? {
        return NullNode, Resolution(false, false, false), true;
      }
      var item := h.objects[current.id];
      if segment.attribute !in item {
        return NullNode, Resolution(false, false, true), true;
      }
      FieldDefined(h, current, segment.attribute);
      current := item[segment.attribute];
      index := index + 1;
    }
    if current.ArrRef? {
      return NullNode, Resolution(false, false, false), false;
    }
    assert segments[index..] == [];
    LeafSelected(h, current);
    return current, Resolution(true, false, false), true;
  }

  /** Resolving a path: sound and complete for the declarative selection, on every graph. */
  method ResolvePath(h: Heap, root: Node, segments: seq<Segment>, matches: NodeMatcher) returns (r: Resolution)
    requires WellFormed(h) && Defined(h, root)
    ensures r.found <==> exists x :: Selects(h, root, segments, x)
    ensures r.matched <==> exists x :: Selects(h, root, segments, x) && matches(x)
    ensures r.missing <==> Misses(h, root, segments)
  {
    hide *;
    var value, resolution, handled := ResolveSingle(h, root, segments);
    if handled {
      if resolution.found {
        assert Selects(h, root, segments, value);
        resolution := resolution.(matched := matches(value));
      }
      return resolution;
    }
    r := ResolveGeneral(h, root, segments, matches);
  }
}
