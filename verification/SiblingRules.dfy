/** What the walk does to the sibling of an enum, told from the values, the captions and the number 99. */
module SiblingRules {
  import opened Text
  import opened Values
  import opened Schema
  import opened Walk
  import opened Settling
  import TI = TypeInheritance
  import NE = NumericEnum

  /** An enum of integers. */
  predicate OfIntegers(attr: AttrDef) {
    attr.enum.Some? && (attr.primitive == "integer_t" || attr.primitive == "long_t")
  }

  predicate Reads(c: Ctx, v: Value, i: int64) {
    AsInteger(c.decimal, v) == Some(i)
  }

  /** The enum has the value under its decimal spelling, with this caption. */
  predicate Means(c: Ctx, attr: AttrDef, v: Value, caption: string) {
    attr.enum.Some?
    && exists i: int64 :: Reads(c, v, i) && FormatInt(i) in attr.enum.value && attr.enum.value[FormatInt(i)].caption == caption
  }

  /** An integer other than 99, which stands for a value of the source's own. */
  predicate Ordinary(c: Ctx, v: Value) {
    AsInteger(c.decimal, v).Some? && !Reads(c, v, 99)
  }

  predicate Holds(item: Item, key: string) {
    key in item && item[key] != Null
  }

  // ----- Removal -----

  /** A sibling's text may go when the enum is an ordinary integer and, unless removal is forced, means that text. */
  predicate ScalarGoes(c: Ctx, attr: AttrDef, v: Value, sibling: Value, force: bool) {
    sibling.Str? && Ordinary(c, v) && (force || Means(c, attr, v, sibling.text))
  }

  predicate Passes(c: Ctx, attr: AttrDef, elems: seq<Value>, siblings: seq<Value>, force: bool, k: nat)
    requires k < |elems| && (force || |elems| == |siblings|)
  {
    Ordinary(c, elems[k]) && (force || (siblings[k].Str? && Means(c, attr, elems[k], siblings[k].text)))
  }

  predicate AllPass(c: Ctx, attr: AttrDef, elems: seq<Value>, siblings: seq<Value>, force: bool, i: nat)
    requires force || |elems| == |siblings|
  {
    forall k: nat | i <= k < |elems| :: Passes(c, attr, elems, siblings, force, k)
  }

  /** The same of a list, element by element; without force the lists are equally long. */
  predicate ArrayGoes(c: Ctx, attr: AttrDef, v: Value, sibling: Value, force: bool) {
    && v.Arr? && sibling.Arr? && (force || |v.elems| == |sibling.elems|)
    && AllPass(c, attr, v.elems, sibling.elems, force, 0)
  }

  predicate Goes(c: Ctx, item: Item, e: string, attr: AttrDef, s: string, force: bool) {
    s in item
    && (item[s] == Null
        || (Holds(item, e)
            && if attr.isArray then ArrayGoes(c, attr, item[e], item[s], force)
               else ScalarGoes(c, attr, item[e], item[s], force)))
  }

  /** A 99 is the first from index i on that does not pass. */
  predicate OtherFrom(c: Ctx, attr: AttrDef, elems: seq<Value>, siblings: seq<Value>, force: bool, i: nat)
    requires force || |elems| == |siblings|
  {
    exists k | i <= k < |elems| ::
      Reads(c, elems[k], 99) && forall j: nat | i <= j < k :: Passes(c, attr, elems, siblings, force, j)
  }

  /** A 99 decides: the value, or the first element that does not pass. */
  predicate OtherDecides(c: Ctx, attr: AttrDef, v: Value, sibling: Value, force: bool) {
    if !attr.isArray then sibling.Str? && Reads(c, v, 99)
    else
      && v.Arr? && sibling.Arr? && (force || |v.elems| == |sibling.elems|)
      && OtherFrom(c, attr, v.elems, sibling.elems, force, 0)
  }

  /** Removal takes the sibling away exactly when it is null or may go, and counts it; else it stays and is counted,
      with an issue unless a 99 decides. */
  lemma RemovalRule(c: Ctx, item: Item, e: string, attr: AttrDef, s: string)
    requires OfIntegers(attr) && c.enums in {Remove, ForceRemove}
    ensures var step, goes := EnumStep(c, item, e, attr, s), Goes(c, item, e, attr, s, c.enums == ForceRemove);
      && (s !in item ==> step == Outcome(item, []))
      && (goes ==> step == Outcome(item - {s}, [SiblingRemoved]))
      && (s in item && !goes ==>
            step == Outcome(item, [SiblingRetained]
              + if Holds(item, e) && OtherDecides(c, attr, item[e], item[s], c.enums == ForceRemove) then []
                else [Raise(EnumSiblingNotRemoved)]))
  {
    hide RemoveArray, LookupEnum, Means, AllPass, OtherFrom;
    assert Without(item, s) == item - {s};
    var force := c.enums == ForceRemove;
    if s in item && item[s] != Null && Attribute(item, e).Some? {
      if !attr.isArray {
        LookedUp(c, attr, item[e]);
      } else if item[e].Arr? && item[s].Arr? && (force || |item[e].elems| == |item[s].elems|) {
        ArrayRule(c, item, attr, s, item[e].elems, item[s].elems, force, 0);
      }
    }
  }

  lemma LookedUp(c: Ctx, attr: AttrDef, v: Value)
    requires OfIntegers(attr)
    ensures var l := LookupEnum(c, attr, v);
      && (l == Unusable <==> AsInteger(c.decimal, v) == None)
      && (forall caption :: Means(c, attr, v, caption) <==> l.Found? && l.def.caption == caption)
      && (IsOther(c.decimal, v) <==> Reads(c, v, 99))
  {
  }

  /** An enum of texts has a value under its text, and any other under the text of a scalar. */
  lemma LookedUpByText(c: Ctx, attr: AttrDef, v: Value)
    requires attr.enum.Some? && !OfIntegers(attr)
    ensures var l, enum := LookupEnum(c, attr, v), attr.enum.value;
      var text := match v
        case Str(s) => Some(s)
        case Number(s) => if attr.primitive == "string_t" then None else Some(s)
        case Int(i) => if attr.primitive == "string_t" then None else Some(FormatInt(i))
        case Bool(b) => if attr.primitive == "string_t" then None else Some(if b then "true" else "false")
        case _ => None;
      if text == None then l == Unusable else if text.value in enum then l == Found(enum[text.value]) else l == Missing
  {
  }

  lemma {:induction false} ArrayRule(c: Ctx, item: Item, attr: AttrDef, s: string, elems: seq<Value>,
                                     siblings: seq<Value>, force: bool, i: nat)
    requires OfIntegers(attr) && i <= |elems| && (force || |elems| == |siblings|)
    ensures var step := RemoveArray(c, item, attr, s, elems, siblings, force, i);
      var goes := AllPass(c, attr, elems, siblings, force, i);
      && (goes ==> step == Removed(item, s))
      && (!goes ==> step == Outcome(item, [SiblingRetained]
            + if OtherFrom(c, attr, elems, siblings, force, i) then [] else [Raise(EnumSiblingNotRemoved)]))
    decreases |elems| - i
  {
    hide LookupEnum, Means, AllPass, OtherFrom;
    OtherNext(c, attr, elems, siblings, force, i);
    if i < |elems| {
      LookedUp(c, attr, elems[i]);
      ArrayRule(c, item, attr, s, elems, siblings, force, i + 1);
    }
  }

  lemma OtherNext(c: Ctx, attr: AttrDef, elems: seq<Value>, siblings: seq<Value>, force: bool, i: nat)
    requires i <= |elems| && (force || |elems| == |siblings|)
    ensures i == |elems| ==> AllPass(c, attr, elems, siblings, force, i)
    ensures i < |elems| ==>
      (AllPass(c, attr, elems, siblings, force, i) <==>
         Passes(c, attr, elems, siblings, force, i) && AllPass(c, attr, elems, siblings, force, i + 1))
    ensures i < |elems| ==>
      (OtherFrom(c, attr, elems, siblings, force, i) <==>
      Reads(c, elems[i], 99)
      || (Passes(c, attr, elems, siblings, force, i) && OtherFrom(c, attr, elems, siblings, force, i + 1)))
  {
    hide Means, AsInteger;
    if i < |elems| && !Reads(c, elems[i], 99) && OtherFrom(c, attr, elems, siblings, force, i) {
      var k :| i <= k < |elems| && Reads(c, elems[k], 99)
        && forall j: nat | i <= j < k :: Passes(c, attr, elems, siblings, force, j);
      assert i < k;
    }
  }

  /** A source-specific 99, alone or in a list, keeps its sibling under either removal. */
  lemma OtherKept(c: Ctx, item: Item, e: string, attr: AttrDef, s: string)
    requires OfIntegers(attr) && c.enums in {Remove, ForceRemove} && Holds(item, s) && Holds(item, e)
    requires if attr.isArray then item[e].Arr? && exists v | v in item[e].elems :: Reads(c, v, 99) else Reads(c, item[e], 99)
    ensures EnumStep(c, item, e, attr, s).item == item
    ensures SiblingRemoved !in EnumStep(c, item, e, attr, s).trace
    ensures SiblingRetained in EnumStep(c, item, e, attr, s).trace
  {
    RemovalRule(c, item, e, attr, s);
    if attr.isArray {
      var elems, force := item[e].elems, c.enums == ForceRemove;
      var k: nat :| k < |elems| && Reads(c, elems[k], 99);
      if item[s].Arr? && (force || |elems| == |item[s].elems|) {
        assert !Passes(c, attr, elems, item[s].elems, force, k);
      }
    }
    hide EnumStep, Means;
  }

  // ----- Addition -----

  /** The element has this caption, which is none if it is empty. */
  predicate Captioned(c: Ctx, attr: AttrDef, v: Value, caption: string) {
    Means(c, attr, v, caption) && caption != ""
  }

  /** An absent or null sibling gets the caption of the enum's value; a synthesised caption of 99 is reported, and so is
      a value that has none. */
  lemma ScalarAdditionRule(c: Ctx, item: Item, e: string, attr: AttrDef, s: string)
    requires OfIntegers(attr) && !attr.isArray && c.enums == Add
    ensures var step := EnumStep(c, item, e, attr, s);
      && (!Holds(item, e) || Holds(item, s) ==> step == Outcome(item, []))
      && (Holds(item, e) && !Holds(item, s) ==>
            && (forall caption | Captioned(c, attr, item[e], caption) ::
                  step == Outcome(item[s := Str(caption)],
                                  if Reads(c, item[e], 99) then [SiblingAdded, Raise(EnumSiblingOtherAdded)] else [SiblingAdded]))
            && ((forall caption :: !Captioned(c, attr, item[e], caption)) ==>
                  step == Outcome(item, [Raise(EnumSiblingNotAdded)])))
  {
    hide LookupEnum, Means;
    if Attribute(item, e).Some? {
      LookedUp(c, attr, item[e]);
      if UsableCaption(LookupEnum(c, attr, item[e])) {
        assert Captioned(c, attr, item[e], LookupEnum(c, attr, item[e]).def.caption);
      }
    }
  }

  /** A list gets all its captions or none. */
  lemma ArrayAdditionRule(c: Ctx, item: Item, e: string, attr: AttrDef, s: string, captions: seq<string>)
    requires OfIntegers(attr) && attr.isArray && c.enums == Add
    ensures var step := EnumStep(c, item, e, attr, s);
      && (!Holds(item, e) || Holds(item, s) || !item[e].Arr? ==> step == Outcome(item, []))
      && (Holds(item, e) && !Holds(item, s) && item[e].Arr? ==>
            var elems := item[e].elems;
            && (|captions| == |elems| && (forall k | 0 <= k < |elems| :: Captioned(c, attr, elems[k], captions[k])) ==>
                  && step.item == item[s := Arr(seq(|captions|, k requires 0 <= k < |captions| => Str(captions[k])))]
                  && step.trace == [SiblingAdded]
                                   + if !TI.DerivedFrom(c.cat.types, attr.typ, "string_t") && exists v | v in elems :: Reads(c, v, 99)
                                     then [Raise(EnumSiblingOtherAdded)] else [])
            && ((exists v | v in elems :: forall caption :: !Captioned(c, attr, v, caption)) ==>
                  step == Outcome(item, [Raise(EnumSiblingNotAdded)])))
  {
    hide LookupEnum, Means, TI.DerivedFrom;
    if Holds(item, e) && !Holds(item, s) && item[e].Arr? {
      var elems := item[e].elems;
      forall k | 0 <= k < |elems|
        ensures UsableCaption(LookupEnum(c, attr, elems[k])) <==>
          exists caption :: Captioned(c, attr, elems[k], caption)
        ensures forall caption :: Captioned(c, attr, elems[k], caption) ==>
          LookupEnum(c, attr, elems[k]).Found? && LookupEnum(c, attr, elems[k]).def.caption == caption
        ensures ArrayOther(c, attr, elems[k]) <==>
          !TI.DerivedFrom(c.cat.types, attr.typ, "string_t") && Reads(c, elems[k], 99)
      {
        LookedUp(c, attr, elems[k]);
        if UsableCaption(LookupEnum(c, attr, elems[k])) {
          assert Captioned(c, attr, elems[k], LookupEnum(c, attr, elems[k]).def.caption);
        }
      }
      if |captions| == |elems| && forall k | 0 <= k < |elems| :: Captioned(c, attr, elems[k], captions[k]) {
        assert Walk.Captions(c, attr, elems) == seq(|captions|, k requires 0 <= k < |captions| => Str(captions[k]));
      }
    }
  }

  // ----- The walk -----

  /** For each active pair the walk leaves the sibling that the rules give for the item as it came. */
  lemma WalkedSibling(c: Ctx, item: Item, def: ItemDef, path: Elems, e: string, s: string)
    requires Ready(c) && Known(c, def) && e in def.links && def.links[e] == s
    requires ActiveName(def, c.profiles, e) && ActiveName(def, c.profiles, s)
    ensures e in def.attributes && OfIntegers(def.attributes[e])
    ensures var after := VisitItem(c, item, def, path).item;
      && Slot(after, s) == Slot(EnumStep(c, item, e, def.attributes[e], s).item, s)
      && (Holds(item, e) ==> Slot(after, e) == Slot(item, e))
  {
    hide Ready, Known, EnumStep, SettledItem, VisitItem, SettledValue, Clears;
    Ends(c, def, e);
    Ends(c, def, s);
    LinkedIsIntegral(c, def, e);
    LinkedEnum(c, def, e);
    VisitSettles(c, item, def, path);
    SettledAt(c, item, def, Used(path), s);
    SettledAt(c, item, def, Used(path), e);
  }

  lemma LinkedEnum(c: Ctx, def: ItemDef, e: string)
    requires Known(c, def) && e in def.links
    ensures e in def.attributes && def.attributes[e].enum.Some?
  {
    hide NE.Compiled;
    LinkEnds(def.attributes, e);
  }
}
