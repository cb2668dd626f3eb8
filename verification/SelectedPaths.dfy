/** What an observable name selects, told by structural paths: the values at the paths the name spells. */
module SelectedPaths {
  import opened Text
  import opened Values
  import opened ObservablePath
  import opened Resolution
  import opened Generation
  import EP = EventPath

  type Elems = EP.Elems

  predicate Indexes(path: Elems) {
    forall i | 0 <= i < |path| :: path[i].ArrayIndex?
  }

  /** The selectors take the indexes one by one: a numbered one takes its own, the others any. */
  predicate Takes(selectors: seq<Selector>, path: Elems) {
    |path| == |selectors| && Indexes(path)
    && forall j | 0 <= j < |selectors| :: selectors[j].At? ==> path[j].index == selectors[j].index
  }

  /** The path goes through the segments' attributes in order, each followed by indexes its selectors take; besides, any
      indexes may stand before each attribute and at the end, for names see through nested arrays. */
  predicate Spells(path: Elems, segments: seq<Segment>)
    decreases |segments|
  {
    if segments == [] then Indexes(path)
    else exists k, m | 0 <= k < m <= |path| :: StepsTo(path, segments[0], k, m) && Spells(path[m..], segments[1..])
  }

  predicate StepsTo(path: Elems, segment: Segment, k: nat, m: nat)
    requires k < m <= |path|
  {
    Indexes(path[..k]) && path[k] == EP.Attribute(segment.attribute) && Takes(segment.selectors, path[k + 1..m])
  }

  lemma {:induction false} ValueAtAppend(v: Value, p: Elems, q: Elems)
    ensures ValueAt(v, p + q) == match ValueAt(v, p) case None => None case Some(w) => ValueAt(w, q)
    decreases |p|
  {
    if p == [] {
      assert p + q == q;
    } else {
      assert (p + q)[1..] == p[1..] + q;
      match p[0]
      case Attribute(name) =>
        if v.Obj? && name in v.fields {
          ValueAtAppend(v.fields[name], p[1..], q);
        }
      case ArrayIndex(i) =>
        if v.Arr? && i < |v.elems| {
          ValueAtAppend(v.elems[i], p[1..], q);
        }
    }
  }

  // ----- Selected -----

  lemma {:induction false} LeafPath(v: Value, x: Value) returns (path: Elems)
    requires x in Leaves(v)
    ensures Indexes(path) && ValueAt(v, path) == Some(x) && !x.Arr?
  {
    if v.Arr? {
      var i :| 0 <= i < |v.elems| && x in Leaves(v.elems[i]);
      var rest := LeafPath(v.elems[i], x);
      path := [EP.ArrayIndex(i)] + rest;
      assert path[1..] == rest;
    } else {
      path := [];
    }
  }

  lemma {:induction false} PathLeaf(v: Value, path: Elems, x: Value)
    requires Indexes(path) && ValueAt(v, path) == Some(x) && !x.Arr?
    ensures x in Leaves(v)
    decreases |path|
  {
    if path != [] {
      PathLeaf(v.elems[path[0].index], path[1..], x);
    }
  }

  lemma {:induction false} PickPath(v: Value, selectors: seq<Selector>, w: Value) returns (path: Elems)
    requires w in Picked(v, selectors)
    ensures Takes(selectors, path) && ValueAt(v, path) == Some(w)
    decreases |selectors|
  {
    if selectors == [] {
      path := [];
    } else {
      var m :| m in Offered(v, selectors[0]) && w in Picked(m, selectors[1..]);
      var i :| 0 <= i < |v.elems| && v.elems[i] == m && (selectors[0].At? ==> i == selectors[0].index);
      var rest := PickPath(m, selectors[1..], w);
      path := [EP.ArrayIndex(i)] + rest;
      assert path[1..] == rest;
      forall j | 0 <= j < |selectors| && selectors[j].At? ensures path[j].index == selectors[j].index {
        if j > 0 {
          assert selectors[1..][j - 1] == selectors[j];
        }
      }
    }
  }

  lemma {:induction false} PathPick(v: Value, selectors: seq<Selector>, path: Elems, w: Value)
    requires Takes(selectors, path) && ValueAt(v, path) == Some(w)
    ensures w in Picked(v, selectors)
    decreases |selectors|
  {
    if selectors != [] {
      var m := v.elems[path[0].index];
      assert m in Offered(v, selectors[0]);
      PathPick(m, selectors[1..], path[1..], w);
    }
  }

  /** A name selects a value exactly when the value is no array and stands at a path that the name spells. */
  lemma SelectedExactly(v: Value, segments: seq<Segment>, x: Value)
    ensures x in Selected(v, segments) <==>
      exists path :: Spells(path, segments) && ValueAt(v, path) == Some(x) && !x.Arr?
  {
    hide Selected, Spells, ValueAt;
    if x in Selected(v, segments) {
      var path := SelectedPath(v, segments, x);
    }
    if path :| Spells(path, segments) && ValueAt(v, path) == Some(x) && !x.Arr? {
      PathSelected(v, segments, path, x);
    }
  }

  lemma {:induction false} SelectedPath(v: Value, segments: seq<Segment>, x: Value) returns (path: Elems)
    requires x in Selected(v, segments)
    ensures Spells(path, segments) && ValueAt(v, path) == Some(x) && !x.Arr?
    decreases |segments|
  {
    hide Leaves, Picked, ValueAt;
    if segments == [] {
      path := LeafPath(v, x);
    } else {
      var segment := segments[0];
      var w :| w in Stepped(v, segment) && x in Selected(w, segments[1..]);
      var leaf :| leaf in Leaves(v) && w in Entered(leaf, segment);
      var before := LeafPath(v, leaf);
      var picked := PickPath(leaf.fields[segment.attribute], segment.selectors, w);
      var rest := SelectedPath(w, segments[1..], x);
      path := before + ([EP.Attribute(segment.attribute)] + picked) + rest;
      StepAt(v, before, leaf, segment, picked, w);
      Spelled(before, segment, picked, rest, segments);
      ValueAtAppend(v, before + ([EP.Attribute(segment.attribute)] + picked), rest);
    }
  }

  lemma StepAt(v: Value, before: Elems, leaf: Value, segment: Segment, picked: Elems, w: Value)
    requires ValueAt(v, before) == Some(leaf) && leaf.Obj? && segment.attribute in leaf.fields
    requires ValueAt(leaf.fields[segment.attribute], picked) == Some(w)
    ensures ValueAt(v, before + ([EP.Attribute(segment.attribute)] + picked)) == Some(w)
  {
    var step := [EP.Attribute(segment.attribute)] + picked;
    assert step[1..] == picked;
    ValueAtAppend(v, before, step);
  }

  lemma Spelled(before: Elems, segment: Segment, picked: Elems, rest: Elems, segments: seq<Segment>)
    requires segments != [] && segments[0] == segment && Spells(rest, segments[1..])
    requires Indexes(before) && Takes(segment.selectors, picked)
    ensures Spells(before + ([EP.Attribute(segment.attribute)] + picked) + rest, segments)
  {
    var path := before + ([EP.Attribute(segment.attribute)] + picked) + rest;
    var k, m := |before|, |before| + 1 + |picked|;
    assert path[..k] == before && path[k + 1..m] == picked && path[m..] == rest;
    assert StepsTo(path, segment, k, m);
  }

  lemma {:induction false} PathSelected(v: Value, segments: seq<Segment>, path: Elems, x: Value)
    requires Spells(path, segments) && ValueAt(v, path) == Some(x) && !x.Arr?
    ensures x in Selected(v, segments)
    decreases |segments|
  {
    hide Leaves, Picked, ValueAt;
    if segments == [] {
      PathLeaf(v, path, x);
    } else {
      var segment := segments[0];
      var k, m :| 0 <= k < m <= |path| && StepsTo(path, segment, k, m) && Spells(path[m..], segments[1..]);
      var leaf, w := Unstep(v, path, segment, k, m, x);
      PathLeaf(v, path[..k], leaf);
      PathPick(leaf.fields[segment.attribute], segment.selectors, path[k + 1..m], w);
      PathSelected(w, segments[1..], path[m..], x);
      assert w in Entered(leaf, segment);
      assert w in Stepped(v, segment);
    }
  }

  lemma Unstep(v: Value, path: Elems, segment: Segment, k: nat, m: nat, x: Value) returns (leaf: Value, w: Value)
    requires k < m <= |path| && StepsTo(path, segment, k, m) && ValueAt(v, path) == Some(x)
    ensures ValueAt(v, path[..k]) == Some(leaf) && leaf.Obj? && segment.attribute in leaf.fields
    ensures ValueAt(leaf.fields[segment.attribute], path[k + 1..m]) == Some(w) && ValueAt(w, path[m..]) == Some(x)
  {
    assert path == path[..k] + path[k..] && path[k..][1..] == path[k + 1..] && path[k + 1..] == path[k + 1..m] + path[m..];
    ValueAtAppend(v, path[..k], path[k..]);
    leaf := ValueAt(v, path[..k]).value;
    ValueAtAppend(leaf.fields[segment.attribute], path[k + 1..m], path[m..]);
    w := ValueAt(leaf.fields[segment.attribute], path[k + 1..m]).value;
  }

  // ----- Missing -----

  /** An array has nothing for the selector. */
  predicate Stops(w: Value, selector: Selector) {
    w.Arr? && if selector.At? then selector.index >= |w.elems| else w.elems == []
  }

  /** Some selector, after the ones before it, finds an array with nothing for it. */
  ghost predicate SelectorsStop(v: Value, selectors: seq<Selector>) {
    exists j, q | 0 <= j < |selectors| :: StopsAt(v, selectors, j, q)
  }

  ghost predicate StopsAt(v: Value, selectors: seq<Selector>, j: nat, q: Elems)
    requires j < |selectors|
  {
    Takes(selectors[..j], q) && ValueAt(v, q).Some? && Stops(ValueAt(v, q).value, selectors[j])
  }

  /** Where the segment's attribute is looked for there is an empty array, a null, an object without it, or one whose
      attribute's arrays have nothing for the selectors. */
  ghost predicate Lacks(u: Value, segment: Segment) {
    || u == Arr([])
    || u == Null
    || (u.Obj? && segment.attribute !in u.fields)
    || (u.Obj? && segment.attribute in u.fields && SelectorsStop(u.fields[segment.attribute], segment.selectors))
  }

  ghost predicate LackingAt(v: Value, segments: seq<Segment>, n: nat, path: Elems)
    requires n < |segments|
  {
    Spells(path, segments[..n]) && ValueAt(v, path).Some? && Lacks(ValueAt(v, path).value, segments[n])
  }

  /** Content is missing exactly when some path that a prefix of the segments spells leads to where the next one lacks. */
  lemma MissingExactly(v: Value, segments: seq<Segment>)
    ensures SelectionMissing(v, segments) <==>
      exists n, path | 0 <= n < |segments| :: LackingAt(v, segments, n, path)
  {
    hide SelectionMissing, LackingAt;
    if SelectionMissing(v, segments) {
      var n, path := MissingPath(v, segments);
    }
    if n, path :| 0 <= n < |segments| && LackingAt(v, segments, n, path) {
      PathMissing(v, segments, n, path);
    }
  }

  lemma {:induction false} EmptyPath(v: Value) returns (path: Elems)
    requires HoldsEmptyArray(v)
    ensures Indexes(path) && ValueAt(v, path) == Some(Arr([]))
  {
    if v.elems == [] {
      path := [];
    } else {
      var i :| 0 <= i < |v.elems| && HoldsEmptyArray(v.elems[i]);
      var rest := EmptyPath(v.elems[i]);
      path := [EP.ArrayIndex(i)] + rest;
      assert path[1..] == rest;
    }
  }

  lemma {:induction false} PathEmpty(v: Value, path: Elems)
    requires Indexes(path) && ValueAt(v, path) == Some(Arr([]))
    ensures HoldsEmptyArray(v)
    decreases |path|
  {
    if path != [] {
      PathEmpty(v.elems[path[0].index], path[1..]);
    }
  }

  lemma {:induction false} StopPath(v: Value, selectors: seq<Selector>) returns (j: nat, q: Elems)
    requires PickMissing(v, selectors)
    ensures j < |selectors| && StopsAt(v, selectors, j, q)
    decreases |selectors|
  {
    if v.Arr? && Offered(v, selectors[0]) == [] {
      j, q := 0, [];
    } else {
      var m :| m in Offered(v, selectors[0]) && PickMissing(m, selectors[1..]);
      var i :| 0 <= i < |v.elems| && v.elems[i] == m && (selectors[0].At? ==> i == selectors[0].index);
      var k, rest := StopPath(m, selectors[1..]);
      j, q := k + 1, [EP.ArrayIndex(i)] + rest;
      assert q[1..] == rest && selectors[..j][1..] == selectors[1..][..k];
      forall x | 0 <= x < j && selectors[x].At? ensures q[x].index == selectors[x].index {
        if x > 0 {
          assert selectors[1..][..k][x - 1] == selectors[x];
        }
      }
    }
  }

  lemma {:induction false} PathStop(v: Value, selectors: seq<Selector>, j: nat, q: Elems)
    requires j < |selectors| && StopsAt(v, selectors, j, q)
    ensures PickMissing(v, selectors)
    decreases |selectors|
  {
    if j > 0 {
      var m := v.elems[q[0].index];
      assert m in Offered(v, selectors[0]);
      assert selectors[1..][..j - 1] == selectors[..j][1..];
      PathStop(m, selectors[1..], j - 1, q[1..]);
    }
  }

  /** At the first segment. */
  lemma StepLacks(v: Value, segment: Segment)
    ensures StepMissing(v, segment) <==>
      exists path | Indexes(path) :: ValueAt(v, path).Some? && Lacks(ValueAt(v, path).value, segment)
  {
    hide HoldsEmptyArray, Leaves, PickMissing, ValueAt, SelectorsStop;
    if StepMissing(v, segment) {
      if HoldsEmptyArray(v) {
        var path := EmptyPath(v);
        assert Lacks(ValueAt(v, path).value, segment);
      } else {
        var leaf :| leaf in Leaves(v) && LeafMissing(leaf, segment);
        var path := LeafPath(v, leaf);
        LeafLacks(leaf, segment);
        assert Lacks(ValueAt(v, path).value, segment);
      }
    }
    if path :| Indexes(path) && ValueAt(v, path).Some? && Lacks(ValueAt(v, path).value, segment) {
      var u := ValueAt(v, path).value;
      if u == Arr([]) {
        PathEmpty(v, path);
      } else {
        PathLeaf(v, path, u);
        LeafLacks(u, segment);
      }
    }
  }

  lemma LeafLacks(u: Value, segment: Segment)
    requires !u.Arr?
    ensures LeafMissing(u, segment) <==> Lacks(u, segment)
  {
    if u.Obj? && segment.attribute in u.fields {
      var field, selectors := u.fields[segment.attribute], segment.selectors;
      if PickMissing(field, selectors) {
        var j, q := StopPath(field, selectors);
      }
      if j, q :| 0 <= j < |selectors| && StopsAt(field, selectors, j, q) {
        PathStop(field, selectors, j, q);
      }
    }
    hide PickMissing, StopsAt;
  }

  lemma {:induction false} MissingPath(v: Value, segments: seq<Segment>) returns (n: nat, path: Elems)
    requires SelectionMissing(v, segments)
    ensures n < |segments| && LackingAt(v, segments, n, path)
    decreases |segments|
  {
    hide Leaves, Picked, ValueAt, StepMissing, Lacks;
    var segment := segments[0];
    StepLacks(v, segment);
    if StepMissing(v, segment) {
      n := 0;
      path :| Indexes(path) && ValueAt(v, path).Some? && Lacks(ValueAt(v, path).value, segment);
    } else {
      var w :| w in Stepped(v, segment) && SelectionMissing(w, segments[1..]);
      var leaf :| leaf in Leaves(v) && w in Entered(leaf, segment);
      var before := LeafPath(v, leaf);
      var picked := PickPath(leaf.fields[segment.attribute], segment.selectors, w);
      var k, rest := MissingPath(w, segments[1..]);
      n := k + 1;
      path := before + ([EP.Attribute(segment.attribute)] + picked) + rest;
      StepAt(v, before, leaf, segment, picked, w);
      assert segments[..n][1..] == segments[1..][..k];
      Spelled(before, segment, picked, rest, segments[..n]);
      ValueAtAppend(v, before + ([EP.Attribute(segment.attribute)] + picked), rest);
    }
  }

  lemma {:induction false} PathMissing(v: Value, segments: seq<Segment>, n: nat, path: Elems)
    requires n < |segments| && LackingAt(v, segments, n, path)
    ensures SelectionMissing(v, segments)
    decreases |segments|
  {
    hide Leaves, Picked, ValueAt, StepMissing, Lacks;
    if n == 0 {
      StepLacks(v, segments[0]);
    } else {
      var segment, prefix := segments[0], segments[..n];
      assert prefix[1..] == segments[1..][..n - 1];
      var k, m :| 0 <= k < m <= |path| && StepsTo(path, segment, k, m) && Spells(path[m..], prefix[1..]);
      var leaf, w := Unstep(v, path, segment, k, m, ValueAt(v, path).value);
      PathLeaf(v, path[..k], leaf);
      PathPick(leaf.fields[segment.attribute], segment.selectors, path[k + 1..m], w);
      PathMissing(w, segments[1..], n - 1, path[m..]);
      assert w in Entered(leaf, segment);
      assert w in Stepped(v, segment);
    }
  }
}
