/** Which observable names a class defines, told from the schema alone; and what removal does with the others. */
module DefinedNames {
  import opened Schema
  import opened ObservablePath
  import opened Definedness
  import EP = EventPath

  /** The segment names an attribute of the active profiles, with at most one selector, and one only on an array. */
  predicate Stands(profiles: set<string>, segment: Segment, def: ItemDef) {
    && segment.attribute in def.attributes
    && var attr := def.attributes[segment.attribute];
      && (attr.profiles == [] || exists p | p in attr.profiles :: p in profiles)
      && (segment.selectors == [] || (attr.isArray && |segment.selectors| == 1))
  }

  /** The attribute leads on to the item of a defined object type. */
  predicate LeadsTo(objects: Objects, name: string, def: ItemDef, inner: ItemDef) {
    && name in def.attributes
    && var attr := def.attributes[name];
      && attr.typ == "object_t" && attr.objectType.Some? && attr.objectType.value in objects
      && inner == objects[attr.objectType.value].item
  }

  /** The first n segments stand each in its item, and each but the last leads to the next one's. */
  predicate Along(objects: Objects, profiles: set<string>, segments: seq<Segment>, n: nat, items: seq<ItemDef>) {
    && n == |items| <= |segments|
    && (forall i | 0 <= i < n :: Stands(profiles, segments[i], items[i]))
    && (forall i | 0 <= i < n - 1 :: LeadsTo(objects, segments[i].attribute, items[i], items[i + 1]))
  }

  /** The name of segment n is one of those before it. */
  predicate Repeats(segments: seq<Segment>, n: nat)
    requires n < |segments|
  {
    exists i | 0 <= i < n :: segments[i].attribute == segments[n].attribute
  }

  ghost predicate DefinedBy(objects: Objects, profiles: set<string>, segments: seq<Segment>, items: seq<ItemDef>) {
    && Along(objects, profiles, segments, |segments|, items)
    && forall k | 0 <= k < |segments| - 1 :: !Repeats(segments, k)
  }

  ghost predicate LimitedAt(objects: Objects, profiles: set<string>, segments: seq<Segment>, n: nat,
                            items: seq<ItemDef>) {
    && n < |segments| - 1 && Along(objects, profiles, segments, n + 1, items)
    && Repeats(segments, n) && forall k | 0 <= k < n :: !Repeats(segments, k)
  }

  /** A name is defined exactly when its attributes stand one in the other and none that is followed repeats; it meets
      the recursion boundary exactly when one that is to be followed is the first to repeat. */
  lemma DefinedExactly(objects: Objects, profiles: set<string>, segments: seq<Segment>, def: ItemDef)
    ensures var status := DefinitionFrom(objects, profiles, segments, def, []);
      && (status == Defined <==>
            exists items :: items != [] && items[0] == def && DefinedBy(objects, profiles, segments, items))
      && (status == TraversalLimited <==>
            exists n: nat, items :: items != [] && items[0] == def && LimitedAt(objects, profiles, segments, n, items))
  {
    hide DefinitionFrom, DefinedBy, LimitedAt;
    if segments == [] {
      NoSegments(objects, profiles, def);
    } else {
      StatusAlong(objects, profiles, segments, 0, [def]);
      assert segments[0..] == segments && NamesOf(segments[..0]) == [];
      forall items ensures [def] <= items <==> items != [] && items[0] == def {
      }
    }
  }

  lemma NoSegments(objects: Objects, profiles: set<string>, def: ItemDef)
    ensures DefinitionFrom(objects, profiles, [], def, []) == Undefined
    ensures forall items :: items != [] ==> !DefinedBy(objects, profiles, [], items)
    ensures forall n: nat, items :: !LimitedAt(objects, profiles, [], n, items)
  {
  }

  function NamesOf(segments: seq<Segment>): seq<string> {
    seq(|segments|, i requires 0 <= i < |segments| => segments[i].attribute)
  }

  /** The same from a segment on, the ones before it followed along the items. */
  lemma {:induction false} StatusAlong(objects: Objects, profiles: set<string>, segments: seq<Segment>, n: nat,
                                       items: seq<ItemDef>)
    requires n < |segments| && |items| == n + 1
    requires forall i | 0 <= i < n ::
      Stands(profiles, segments[i], items[i]) && LeadsTo(objects, segments[i].attribute, items[i], items[i + 1])
    requires forall k | 0 <= k < n :: !Repeats(segments, k)
    ensures var status := DefinitionFrom(objects, profiles, segments[n..], items[n], NamesOf(segments[..n]));
      && (status == Defined <==> exists all :: items <= all && DefinedBy(objects, profiles, segments, all))
      && (status == TraversalLimited <==>
            exists m: nat, all :: items <= all && LimitedAt(objects, profiles, segments, m, all))
    decreases |segments| - n
  {
    hide *;
    var segment, def := segments[n], items[n];
    DefinitionStep(objects, profiles, segments, n, def);
    AllOnward(objects, profiles, segments, n, items);
    if Stands(profiles, segment, def) {
      if n == |segments| - 1 {
        DefinedHere(objects, profiles, segments, items);
      } else if Repeats(segments, n) {
        LimitedHere(objects, profiles, segments, n, items);
      } else if inner :| LeadsTo(objects, segment.attribute, def, inner) {
        StatusAlong(objects, profiles, segments, n + 1, items + [inner]);
        OnlyOne(objects, segment.attribute, def);
        OnwardSame(objects, profiles, segments, n, items, inner);
      }
    }
  }

  lemma DefinedHere(objects: Objects, profiles: set<string>, segments: seq<Segment>, items: seq<ItemDef>)
    requires |items| == |segments|
    requires forall i | 0 <= i < |segments| :: Stands(profiles, segments[i], items[i])
    requires forall i | 0 <= i < |segments| - 1 :: LeadsTo(objects, segments[i].attribute, items[i], items[i + 1])
    requires forall k | 0 <= k < |segments| - 1 :: !Repeats(segments, k)
    ensures items <= items && DefinedBy(objects, profiles, segments, items)
  {
    hide Stands, LeadsTo, Repeats;
  }

  lemma LimitedHere(objects: Objects, profiles: set<string>, segments: seq<Segment>, n: nat, items: seq<ItemDef>)
    requires n < |segments| - 1 && |items| == n + 1 && Repeats(segments, n)
    requires forall i | 0 <= i <= n :: Stands(profiles, segments[i], items[i])
    requires forall i | 0 <= i < n :: LeadsTo(objects, segments[i].attribute, items[i], items[i + 1])
    requires forall k | 0 <= k < n :: !Repeats(segments, k)
    ensures items <= items && LimitedAt(objects, profiles, segments, n, items)
  {
    hide Stands, LeadsTo, Repeats;
  }

  /** The only way on is by the one inner item. */
  lemma OnwardSame(objects: Objects, profiles: set<string>, segments: seq<Segment>, n: nat, items: seq<ItemDef>,
                   inner: ItemDef)
    requires n < |segments| - 1 && |items| == n + 1 && !Repeats(segments, n)
    requires LeadsTo(objects, segments[n].attribute, items[n], inner)
    ensures (exists all :: items <= all && DefinedBy(objects, profiles, segments, all)) <==>
      (exists all :: items + [inner] <= all && DefinedBy(objects, profiles, segments, all))
    ensures (exists m: nat, all :: items <= all && LimitedAt(objects, profiles, segments, m, all)) <==>
      (exists m: nat, all :: items + [inner] <= all && LimitedAt(objects, profiles, segments, m, all))
  {
    hide *;
    AllOnward(objects, profiles, segments, n, items);
    OnlyOne(objects, segments[n].attribute, items[n]);
    if all :| items + [inner] <= all && DefinedBy(objects, profiles, segments, all) {
      assert items <= all;
    }
    if m: nat, all :| items + [inner] <= all && LimitedAt(objects, profiles, segments, m, all) {
      assert items <= all;
    }
  }

  lemma DefinitionStep(objects: Objects, profiles: set<string>, segments: seq<Segment>, n: nat, def: ItemDef)
    requires n < |segments|
    ensures var status, stands := DefinitionFrom(objects, profiles, segments[n..], def, NamesOf(segments[..n])),
                                  Stands(profiles, segments[n], def);
      && (!stands ==> status == Undefined)
      && (stands && n == |segments| - 1 ==> status == Defined)
      && (stands && n < |segments| - 1 && Repeats(segments, n) ==> status == TraversalLimited)
      && (stands && n < |segments| - 1 && !Repeats(segments, n) ==>
            && ((forall inner :: !LeadsTo(objects, segments[n].attribute, def, inner)) ==> status == Undefined)
            && (forall inner :: LeadsTo(objects, segments[n].attribute, def, inner) ==>
                  status == DefinitionFrom(objects, profiles, segments[n + 1..], inner, NamesOf(segments[..n + 1]))))
  {
    RepeatedName(segments, n);
    assert segments[n..][1..] == segments[n + 1..];
    assert NamesOf(segments[..n + 1]) == NamesOf(segments[..n]) + [segments[n].attribute];
    var name := segments[n].attribute;
    if name in def.attributes {
      var attr := def.attributes[name];
      if attr.typ == "object_t" && attr.objectType.Some? && attr.objectType.value in objects {
        assert LeadsTo(objects, name, def, objects[attr.objectType.value].item);
      }
    }
    hide Repeats, NamesOf;
  }

  lemma RepeatedName(segments: seq<Segment>, n: nat)
    requires n < |segments|
    ensures segments[n].attribute in NamesOf(segments[..n]) <==> Repeats(segments, n)
  {
    if i :| 0 <= i < n && segments[i].attribute == segments[n].attribute {
      assert NamesOf(segments[..n])[i] == segments[n].attribute;
    }
  }

  lemma OnlyOne(objects: Objects, name: string, def: ItemDef)
    ensures forall x, y :: LeadsTo(objects, name, def, x) && LeadsTo(objects, name, def, y) ==> x == y
  {
  }

  /** What any way on from the items must look like. */
  lemma AllOnward(objects: Objects, profiles: set<string>, segments: seq<Segment>, n: nat, items: seq<ItemDef>)
    requires n < |segments| && |items| == n + 1
    ensures forall all | items <= all && DefinedBy(objects, profiles, segments, all) ::
      && Stands(profiles, segments[n], items[n])
      && (n < |segments| - 1 ==>
            && !Repeats(segments, n) && |all| > n + 1 && LeadsTo(objects, segments[n].attribute, items[n], all[n + 1])
            && items + [all[n + 1]] <= all)
    ensures forall m: nat, all | items <= all && LimitedAt(objects, profiles, segments, m, all) ::
      && Stands(profiles, segments[n], items[n]) && n <= m && n < |segments| - 1 && (m == n ==> Repeats(segments, n))
      && (m > n ==>
            && !Repeats(segments, n) && |all| > n + 1 && LeadsTo(objects, segments[n].attribute, items[n], all[n + 1])
            && items + [all[n + 1]] <= all)
  {
    hide Stands, LeadsTo, Repeats;
  }

  // ----- Notations -----

  /** The segment names an attribute of the item and selects as the notation does: never on a single value; on an array
      not at all, with empty brackets, with a wildcard, or with a number. */
  predicate WrittenIn(style: EP.Style, segment: Segment, def: ItemDef) {
    && segment.attribute in def.attributes
    && if !def.attributes[segment.attribute].isArray then segment.selectors == []
       else
         match style
         case Simple => segment.selectors == []
         case Brackets => segment.selectors == [AnyBrackets]
         case Wildcard => segment.selectors == [AnyWildcard]
         case Indexed => |segment.selectors| == 1 && segment.selectors[0].At?
         case JSONPath => |segment.selectors| == 1 && segment.selectors[0].At?
  }

  predicate ObjectOf(objects: Objects, name: string, def: ItemDef, inner: ItemDef) {
    && name in def.attributes
    && var o := def.attributes[name].objectType;
      o.Some? && o.value in objects && inner == objects[o.value].item
  }

  predicate WrittenAlong(objects: Objects, style: EP.Style, segments: seq<Segment>, items: seq<ItemDef>) {
    && |items| == |segments|
    && (forall i | 0 <= i < |segments| :: WrittenIn(style, segments[i], items[i]))
    && (forall i | 0 <= i < |segments| - 1 :: ObjectOf(objects, segments[i].attribute, items[i], items[i + 1]))
    && (forall k | 0 <= k < |segments| - 1 :: !Repeats(segments, k))
  }

  /** A name uses a notation exactly when it has a root just in JSONPath, and each of its segments is so written in the
      item that the ones before it lead to, none of them repeating. */
  lemma NotationExactly(objects: Objects, style: EP.Style, name: Name, def: ItemDef)
    ensures UsesNotation(name, style, objects, def) <==>
      && (name.rooted <==> style == EP.JSONPath)
      && exists items :: items != [] && items[0] == def && WrittenAlong(objects, style, name.segments, items)
  {
    hide NotationFrom, WrittenAlong;
    var segments := name.segments;
    if segments == [] {
      NothingWritten(objects, style, def);
    } else {
      NotationAlong(objects, style, segments, 0, [def]);
      assert segments[0..] == segments && NamesOf(segments[..0]) == [];
      forall items ensures [def] <= items <==> items != [] && items[0] == def {
      }
    }
  }

  lemma NothingWritten(objects: Objects, style: EP.Style, def: ItemDef)
    ensures !NotationFrom(objects, [], style, def, [])
    ensures forall items :: items != [] ==> !WrittenAlong(objects, style, [], items)
  {
  }

  lemma {:induction false} NotationAlong(objects: Objects, style: EP.Style, segments: seq<Segment>, n: nat,
                                         items: seq<ItemDef>)
    requires n < |segments| && |items| == n + 1
    requires forall i | 0 <= i < n ::
      WrittenIn(style, segments[i], items[i]) && ObjectOf(objects, segments[i].attribute, items[i], items[i + 1])
    requires forall k | 0 <= k < n :: !Repeats(segments, k)
    ensures NotationFrom(objects, segments[n..], style, items[n], NamesOf(segments[..n])) <==>
      exists all :: items <= all && WrittenAlong(objects, style, segments, all)
    decreases |segments| - n
  {
    hide *;
    var name, def := segments[n].attribute, items[n];
    NotationNow(objects, style, segments, n, def);
    WrittenOnward(objects, style, segments, n, items);
    if WrittenIn(style, segments[n], def) {
      if n == |segments| - 1 {
        WrittenHere(objects, style, segments, items);
      } else if !Repeats(segments, n) {
        if inner :| ObjectOf(objects, name, def, inner) {
          NotationAlong(objects, style, segments, n + 1, items + [inner]);
          OnlyObject(objects, name, def);
          if all :| items + [inner] <= all && WrittenAlong(objects, style, segments, all) {
            assert items <= all;
          }
        }
      }
    }
  }

  lemma OnlyObject(objects: Objects, name: string, def: ItemDef)
    ensures forall x, y :: ObjectOf(objects, name, def, x) && ObjectOf(objects, name, def, y) ==> x == y
  {
  }

  lemma WrittenHere(objects: Objects, style: EP.Style, segments: seq<Segment>, items: seq<ItemDef>)
    requires |items| == |segments|
    requires forall i | 0 <= i < |segments| :: WrittenIn(style, segments[i], items[i])
    requires forall i | 0 <= i < |segments| - 1 :: ObjectOf(objects, segments[i].attribute, items[i], items[i + 1])
    requires forall k | 0 <= k < |segments| - 1 :: !Repeats(segments, k)
    ensures items <= items && WrittenAlong(objects, style, segments, items)
  {
    hide WrittenIn, ObjectOf, Repeats;
  }

  lemma WrittenOnward(objects: Objects, style: EP.Style, segments: seq<Segment>, n: nat, items: seq<ItemDef>)
    requires n < |segments| && |items| == n + 1
    ensures forall all | items <= all && WrittenAlong(objects, style, segments, all) ::
      && WrittenIn(style, segments[n], items[n])
      && (n < |segments| - 1 ==>
            && !Repeats(segments, n) && |all| > n + 1 && ObjectOf(objects, segments[n].attribute, items[n], all[n + 1])
            && items + [all[n + 1]] <= all)
  {
    hide WrittenIn, ObjectOf, Repeats;
  }

  lemma NotationNow(objects: Objects, style: EP.Style, segments: seq<Segment>, n: nat, def: ItemDef)
    requires n < |segments|
    ensures var uses := NotationFrom(objects, segments[n..], style, def, NamesOf(segments[..n]));
      && (uses ==> WrittenIn(style, segments[n], def))
      && (n == |segments| - 1 ==> (uses <==> WrittenIn(style, segments[n], def)))
      && (n < |segments| - 1 ==>
            && (uses ==> !Repeats(segments, n) && exists inner :: ObjectOf(objects, segments[n].attribute, def, inner))
            && (WrittenIn(style, segments[n], def) && !Repeats(segments, n) ==>
                  forall inner :: ObjectOf(objects, segments[n].attribute, def, inner) ==>
                    (uses <==> NotationFrom(objects, segments[n + 1..], style, inner, NamesOf(segments[..n + 1])))))
  {
    RepeatedName(segments, n);
    assert segments[n..][1..] == segments[n + 1..];
    assert NamesOf(segments[..n + 1]) == NamesOf(segments[..n]) + [segments[n].attribute];
    var name := segments[n].attribute;
    if name in def.attributes {
      var o := def.attributes[name].objectType;
      if o.Some? && o.value in objects {
        assert ObjectOf(objects, name, def, objects[o.value].item);
      }
    }
    hide Repeats, NamesOf;
  }
}
