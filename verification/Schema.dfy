/** Compiled schema items and the traversal cache built over them. */
module Schema {
  import opened Text
  import opened NumericEnum
  import opened TypeInheritance

  datatype AttrDef = AttrDef(
    typ: string,
    primitive: string,
    isArray: bool,
    enum: Option<map<string, EnumDef>>,
    sibling: Option<string>,
    objectType: Option<string>,
    observable: Option<int64>,
    profiles: seq<string>)

  /** `ordered`, `links`, `owners` and `numeric` are the traversal cache: the sorted attribute names, the resolved
      enum-to-sibling pairs, the same pairs by sibling, and the index of each integral enum. */
  datatype ItemDef = ItemDef(
    attributes: map<string, AttrDef>,
    ordered: seq<string>,
    links: map<string, string>,
    owners: map<string, string>,
    numeric: map<string, Index>)

  datatype ObjectDef = ObjectDef(item: ItemDef, observable: Option<int64>)

  type Objects = map<string, ObjectDef>

  predicate Active(attr: AttrDef, profiles: set<string>) {
    attr.profiles == [] || exists p | p in attr.profiles :: p in profiles
  }

  predicate ActiveName(def: ItemDef, profiles: set<string>, name: string) {
    name in def.attributes && Active(def.attributes[name], profiles)
  }

  // ----- Enum sibling relationships -----

  /** The relationship test used when a schema is accepted. */
  predicate EnumSiblingSupported(attr: AttrDef, sibling: Option<AttrDef>) {
    && sibling.Some? && sibling.value.enum == None && attr.isArray == sibling.value.isArray
    && sibling.value.typ == "string_t"
    && (attr.typ == "integer_t" || attr.typ == "long_t")
  }

  datatype SiblingIssue = SourceNotIntegral | TargetNotFound | TargetIsEnum | TargetNotString

  /** The relationship test used when the cache is built. */
  function EnumSiblingInitializationIssue(attr: AttrDef, sibling: Option<AttrDef>): Option<SiblingIssue> {
    if attr.typ != "integer_t" && attr.typ != "long_t" then Some(SourceNotIntegral)
    else if sibling == None then Some(TargetNotFound)
    else if sibling.value.enum.Some? then Some(TargetIsEnum)
    else if sibling.value.typ != "string_t" || attr.isArray != sibling.value.isArray then Some(TargetNotString)
    else None
  }

  function AttributeOf(attributes: map<string, AttrDef>, name: string): Option<AttrDef> {
    if name in attributes then Some(attributes[name]) else None
  }

  /** The sibling an attribute's enum is linked with: declared and supported. */
  function LinkOf(attributes: map<string, AttrDef>, name: string): Option<string> {
    if name !in attributes then None
    else
      var attr := attributes[name];
      if attr.enum == None || attr.sibling == None
         || EnumSiblingInitializationIssue(attr, AttributeOf(attributes, attr.sibling.value)).Some? then None
      else attr.sibling
  }

  lemma LinkRule(attributes: map<string, AttrDef>, name: string)
    requires name in attributes
    ensures LinkOf(attributes, name) ==
      var attr := attributes[name];
      if attr.enum.Some? && attr.sibling.Some? && EnumSiblingSupported(attr, AttributeOf(attributes, attr.sibling.value))
      then attr.sibling else None
  {
  }

  /** The two tests agree, so acceptance and the cache speak of the same pairs. */
  lemma SiblingTestsAgree(attr: AttrDef, sibling: Option<AttrDef>)
    ensures EnumSiblingSupported(attr, sibling) <==> EnumSiblingInitializationIssue(attr, sibling) == None
  {
  }

  /** No two linked enums share a sibling. */
  predicate Unshared(attributes: map<string, AttrDef>) {
    forall m, n | m in attributes && n in attributes && m != n ::
      LinkOf(attributes, m).Some? ==> LinkOf(attributes, m) != LinkOf(attributes, n)
  }

  /** A linked enum and its sibling are both attributes, and no attribute is both. */
  lemma LinkEnds(attributes: map<string, AttrDef>, name: string)
    requires LinkOf(attributes, name).Some?
    ensures name in attributes && LinkOf(attributes, name).value in attributes
    ensures attributes[name].enum.Some? && attributes[LinkOf(attributes, name).value].enum == None
    ensures attributes[name].sibling == LinkOf(attributes, name)
    ensures attributes[LinkOf(attributes, name).value].typ == "string_t"
    ensures attributes[name].isArray == attributes[LinkOf(attributes, name).value].isArray
  {
  }

  /** Answers the two enums that share a sibling, or None when the item is accepted. */
  method ValidateItemEnumSiblingRelationships(attributes: map<string, AttrDef>, names: seq<string>)
    returns (conflict: Option<(string, string)>)
    requires Ascending(names) && forall n :: n in names <==> n in attributes
    ensures conflict == None <==> Unshared(attributes)
    ensures conflict.Some? ==>
      && conflict.value.0 != conflict.value.1
      && LinkOf(attributes, conflict.value.0) == LinkOf(attributes, conflict.value.1) != None
  {
    hide LinkOf, EnumSiblingSupported;
    var siblingOf: map<string, string> := map[];
    for index := 0 to |names|
      invariant forall s | s in siblingOf ::
        siblingOf[s] in names[..index] && LinkOf(attributes, siblingOf[s]) == Some(s)
      invariant forall i | 0 <= i < index && LinkOf(attributes, names[i]).Some? ::
        LinkOf(attributes, names[i]).value in siblingOf && siblingOf[LinkOf(attributes, names[i]).value] == names[i]
    {
      var name := names[index];
      var attr := attributes[name];
      LinkRule(attributes, name);
      if attr.enum == None || attr.sibling == None {
        continue;
      }
      var sibling := attr.sibling.value;
      if !EnumSiblingSupported(attr, AttributeOf(attributes, sibling)) {
        continue;
      }
      if sibling in siblingOf {
        var owner := siblingOf[sibling];
        var i :| 0 <= i < index && names[i] == owner;
        return Some((owner, name));
      }
      siblingOf := siblingOf[sibling := name];
    }
    return None;
  }

  // ----- The traversal cache -----

  predicate NeedsIndex(attr: AttrDef) {
    attr.enum.Some? && (attr.primitive == "integer_t" || attr.primitive == "long_t")
  }

  ghost predicate Cached(def: ItemDef) {
    && Ascending(def.ordered) && (forall n :: n in def.ordered <==> n in def.attributes)
    && (forall n :: n in def.links <==> LinkOf(def.attributes, n).Some?)
    && (forall n | n in def.links :: LinkOf(def.attributes, n) == Some(def.links[n]))
    && Unshared(def.attributes)
    && (forall n | n in def.links :: def.links[n] in def.owners && def.owners[def.links[n]] == n)
    && (forall s | s in def.owners :: def.owners[s] in def.links && def.links[def.owners[s]] == s)
    && (forall n | n in def.attributes && NeedsIndex(def.attributes[n]) ::
          n in def.numeric && Compiled(def.attributes[n].enum.value, def.numeric[n]))
  }

  method InsertName(names: seq<string>, name: string) returns (r: seq<string>)
    requires Ascending(names) && name !in names
    ensures Ascending(r) && forall n :: n in r <==> n in names || n == name
  {
    var at := 0;
    while at < |names| && Compare(names[at], name) < 0
      invariant 0 <= at <= |names|
      invariant forall i | 0 <= i < at :: Compare(names[i], name) < 0
    {
      at := at + 1;
    }
    forall i | at <= i < |names| ensures Compare(name, names[i]) < 0 {
      CompareAntisymmetric(names[at], name);
      assert names[at] in names;
      if at < i {
        CompareTransitive(name, names[at], names[i]);
      }
    }
    r := Insert(names, at, name);
    InsertMembers(names, at, name);
    hide Compare;
    forall i, j | 0 <= i < j < |r| ensures Compare(r[i], r[j]) < 0 {
    }
  }

  method SortedKeys(attributes: map<string, AttrDef>) returns (names: seq<string>)
    ensures Ascending(names) && forall n :: n in names <==> n in attributes
  {
    names := [];
    var pending := attributes.Keys;
    while pending != {}
      invariant pending <= attributes.Keys && Ascending(names)
      invariant forall n :: n in names <==> n in attributes.Keys - pending
      decreases pending
    {
      var n :| n in pending;
      pending := pending - {n};
      names := InsertName(names, n);
    }
  }

  method NumericIndexes(attributes: map<string, AttrDef>, names: seq<string>) returns (numeric: map<string, Index>)
    requires forall n | n in names :: n in attributes
    requires forall n | n in attributes && attributes[n].enum.Some? :: |attributes[n].enum.value| <= MAX_INT64
    ensures forall n | n in names && NeedsIndex(attributes[n]) ::
      n in numeric && Compiled(attributes[n].enum.value, numeric[n])
  {
    hide Compiled;
    numeric := map[];
    for i := 0 to |names|
      invariant forall n | n in names[..i] && NeedsIndex(attributes[n]) ::
        n in numeric && Compiled(attributes[n].enum.value, numeric[n])
    {
      var attr := attributes[names[i]];
      if NeedsIndex(attr) {
        var index := BuildIndex(attr.enum.value);
        numeric := numeric[names[i] := index];
      }
    }
  }

  /** Links each supported enum with its sibling in both directions, and reports the unsupported relationships. */
  method LinkPairs(attributes: map<string, AttrDef>, ordered: seq<string>)
    returns (links: map<string, string>, owners: map<string, string>, issues: seq<SiblingIssue>)
    requires Unshared(attributes) && forall n | n in ordered :: n in attributes
    ensures forall n | n in links :: n in ordered && LinkOf(attributes, n) == Some(links[n])
    ensures forall n | n in ordered && LinkOf(attributes, n).Some? :: n in links
    ensures forall n | n in links :: links[n] in owners && owners[links[n]] == n
    ensures forall s | s in owners :: owners[s] in links && links[owners[s]] == s
    ensures issues == [] <==> forall n | n in ordered :: !Unsupported(attributes, n)
  {
    hide LinkOf, EnumSiblingSupported, EnumSiblingInitializationIssue;
    links, owners, issues := map[], map[], [];
    for index := 0 to |ordered|
      invariant forall n | n in links :: n in ordered[..index] && LinkOf(attributes, n) == Some(links[n])
      invariant forall n | n in ordered[..index] && LinkOf(attributes, n).Some? :: n in links
      invariant forall n | n in links :: links[n] in owners && owners[links[n]] == n
      invariant forall s | s in owners :: owners[s] in links && links[owners[s]] == s
      invariant issues == [] <==> forall n | n in ordered[..index] :: !Unsupported(attributes, n)
    {
      var name := ordered[index];
      var attr := attributes[name];
      LinkRule(attributes, name);
      assert ordered[..index + 1] == ordered[..index] + [name];
      if attr.enum == None || attr.sibling == None {
        assert !Unsupported(attributes, name);
        continue;
      }
      SiblingTestsAgree(attr, AttributeOf(attributes, attr.sibling.value));
      var found := EnumSiblingInitializationIssue(attr, AttributeOf(attributes, attr.sibling.value));
      if found.Some? {
        assert Unsupported(attributes, name) && name in ordered[..index + 1];
        issues := issues + [found.value];
        continue;
      }
      assert !Unsupported(attributes, name);
      links := links[name := attr.sibling.value];
      owners := owners[attr.sibling.value := name];
    }
    assert ordered[..|ordered|] == ordered;
  }

  predicate Unsupported(attributes: map<string, AttrDef>, name: string)
    requires name in attributes
  {
    && attributes[name].enum.Some? && attributes[name].sibling.Some?
    && !EnumSiblingSupported(attributes[name], AttributeOf(attributes, attributes[name].sibling.value))
  }

  ghost function PrimitiveOf(types: Types, typ: string): string {
    if Terminates(types, typ) then Terminal(types, typ) else ""
  }

  ghost predicate PrimitivesResolved(types: Types, raw: map<string, AttrDef>, attributes: map<string, AttrDef>) {
    && attributes.Keys == raw.Keys
    && forall n | n in raw :: attributes[n] == raw[n].(primitive := PrimitiveOf(types, raw[n].typ))
  }

  method ResolvePrimitives(types: Types, raw: map<string, AttrDef>, names: seq<string>)
    returns (attributes: map<string, AttrDef>)
    requires forall n :: n in names <==> n in raw
    ensures PrimitivesResolved(types, raw, attributes)
  {
    hide Terminates, Terminal;
    attributes := raw;
    for i := 0 to |names|
      invariant attributes.Keys == raw.Keys
      invariant forall n | n in raw ::
        attributes[n] == if n in names[..i] then raw[n].(primitive := PrimitiveOf(types, raw[n].typ)) else raw[n]
    {
      var primitive := ResolvePrimitiveType(types, raw[names[i]].typ);
      attributes := attributes[names[i] := raw[names[i]].(primitive := if primitive.Some? then primitive.value else "")];
    }
    assert names[..|names|] == names;
  }

  /** Builds the cache of an accepted item, and reports each declared relationship that is not supported. */
  method SetItemTraversalCache(types: Types, raw: map<string, AttrDef>)
    returns (def: ItemDef, issues: seq<SiblingIssue>)
    requires Unshared(raw)
    requires forall n | n in raw && raw[n].enum.Some? :: |raw[n].enum.value| <= MAX_INT64
    ensures PrimitivesResolved(types, raw, def.attributes) && Cached(def)
    ensures issues == [] <==> forall n | n in raw :: !Unsupported(raw, n)
  {
    hide LinkOf, Unsupported, Compiled, PrimitiveOf, NeedsIndex, Unshared, Ascending;
    var ordered := SortedKeys(raw);
    var attributes := ResolvePrimitives(types, raw, ordered);
    PrimitivesKeepLinks(types, raw, attributes);
    var links, owners;
    links, owners, issues := LinkPairs(attributes, ordered);
    forall n | LinkOf(attributes, n).Some? ensures n in ordered {
      LinkEnds(attributes, n);
    }
    var numeric := NumericIndexes(attributes, ordered);
    def := ItemDef(attributes, ordered, links, owners, numeric);
  }

  lemma PrimitivesKeepLinks(types: Types, raw: map<string, AttrDef>, attributes: map<string, AttrDef>)
    requires PrimitivesResolved(types, raw, attributes)
    ensures forall n :: LinkOf(attributes, n) == LinkOf(raw, n)
    ensures forall n | n in raw :: Unsupported(attributes, n) == Unsupported(raw, n)
    ensures Unshared(raw) ==> Unshared(attributes)
  {
    assert forall n :: LinkOf(attributes, n) == LinkOf(raw, n);
  }

  // ----- Exactly-once dispatch -----

  /** What the walk does at one ordered attribute. */
  datatype Dispatch = Inactive | Owned | Pair(sibling: string) | Single

  function DispatchOf(def: ItemDef, profiles: set<string>, name: string): Dispatch
    requires name in def.attributes
  {
    if !Active(def.attributes[name], profiles) then Inactive
    else if name in def.owners && ActiveName(def, profiles, def.owners[name]) then Owned
    else if name in def.links && ActiveName(def, profiles, def.links[name]) then Pair(def.links[name])
    else Single
  }

  /** The attributes a slot dispatches. */
  function Covered(def: ItemDef, profiles: set<string>, name: string): set<string>
    requires name in def.attributes
  {
    match DispatchOf(def, profiles, name)
    case Pair(sibling) => {name, sibling}
    case Single => {name}
    case _ => {}
  }

  /** The linked enums and their siblings are disjoint sets. */
  lemma LinksDisjoint(def: ItemDef, n: string)
    requires Cached(def) && n in def.links
    ensures n !in def.owners && n in def.attributes && def.links[n] in def.attributes
  {
    hide Compiled;
    LinkEnds(def.attributes, n);
    if n in def.owners {
      LinkEnds(def.attributes, def.owners[n]);
      assert false;
    }
  }

  /** The one slot that dispatches an active attribute: its enum's when the pair is active, else its own. */
  function SlotFor(def: ItemDef, profiles: set<string>, name: string): string
    requires name in def.attributes
  {
    if DispatchOf(def, profiles, name) == Owned then def.owners[name] else name
  }

  lemma CoveredMeansSlot(def: ItemDef, profiles: set<string>, name: string, slot: string)
    requires Cached(def) && slot in def.attributes && name in Covered(def, profiles, slot)
    ensures ActiveName(def, profiles, name) && slot == SlotFor(def, profiles, name)
  {
    PairEnds(def, slot);
    hide Cached, Active;
    if name == slot {
      assert DispatchOf(def, profiles, name) != Owned;
    } else {
      assert name == def.links[slot];
      assert DispatchOf(def, profiles, name) == Owned;
    }
  }

  lemma SlotCovers(def: ItemDef, profiles: set<string>, name: string)
    requires Cached(def) && ActiveName(def, profiles, name)
    ensures SlotFor(def, profiles, name) in def.attributes
    ensures name in Covered(def, profiles, SlotFor(def, profiles, name))
  {
    hide Active;
    if DispatchOf(def, profiles, name) == Owned {
      var owner := def.owners[name];
      assert owner !in def.owners && owner in def.links && def.links[owner] == name by {
        PairEnds(def, name);
        PairEnds(def, owner);
      }
      hide Cached;
      assert DispatchOf(def, profiles, owner) == Pair(name);
    }
  }

  /** What the cache says of one name's links. */
  lemma PairEnds(def: ItemDef, n: string)
    requires Cached(def)
    ensures n in def.links ==>
      && n !in def.owners && n in def.attributes && def.links[n] in def.attributes
      && def.links[n] in def.owners && def.owners[def.links[n]] == n
    ensures n in def.owners ==>
      && n !in def.links && n in def.attributes && def.owners[n] in def.attributes
      && def.owners[n] in def.links && def.links[def.owners[n]] == n
  {
    hide Compiled, LinkOf;
    if n in def.links {
      LinksDisjoint(def, n);
    }
    if n in def.owners {
      LinksDisjoint(def, def.owners[n]);
    }
  }

  /** One pass over the ordered attributes dispatches each active attribute at exactly one slot, and no other. */
  lemma DispatchedExactlyOnce(def: ItemDef, profiles: set<string>, name: string)
    requires Cached(def)
    ensures forall i | 0 <= i < |def.ordered| && name in Covered(def, profiles, def.ordered[i]) ::
      ActiveName(def, profiles, name)
    ensures ActiveName(def, profiles, name) ==>
      exists i :: 0 <= i < |def.ordered| && name in Covered(def, profiles, def.ordered[i])
    ensures forall i, j | 0 <= i < j < |def.ordered| ::
      !(name in Covered(def, profiles, def.ordered[i]) && name in Covered(def, profiles, def.ordered[j]))
  {
    forall i | 0 <= i < |def.ordered| && name in Covered(def, profiles, def.ordered[i])
      ensures ActiveName(def, profiles, name) && def.ordered[i] == SlotFor(def, profiles, name)
    {
      assert def.ordered[i] in def.ordered;
      CoveredMeansSlot(def, profiles, name, def.ordered[i]);
    }
    if ActiveName(def, profiles, name) {
      SlotCovers(def, profiles, name);
      assert SlotFor(def, profiles, name) in def.ordered;
    }
    hide Cached, Covered;
    assert Ascending(def.ordered);
    forall i, j | 0 <= i < j < |def.ordered| ensures def.ordered[i] != def.ordered[j] {
      assert Compare(def.ordered[i], def.ordered[j]) < 0;
    }
  }
}
