/** Whether an observable name is defined by a class, and whether it uses a notation. */
module Definedness {
  import opened Text
  import opened Schema
  import opened ObservablePath
  import EP = EventPath

  datatype DefinitionStatus = Undefined | Defined | TraversalLimited

  /** Follows the segments through the schema; `used` are the names already followed. */
  function DefinitionFrom(objects: Objects, profiles: set<string>, segments: seq<Segment>, def: ItemDef,
                          used: seq<string>): DefinitionStatus
    decreases |segments|
  {
    if segments == [] then Undefined
    else
      var segment := segments[0];
      if !ActiveName(def, profiles, segment.attribute) then Undefined
      else
        var attr := def.attributes[segment.attribute];
        if segment.selectors != [] && !attr.isArray then Undefined
        else if |segment.selectors| > 1 then Undefined
        else if |segments| == 1 then Defined
        else if segment.attribute in used then TraversalLimited
        else if attr.typ != "object_t" || attr.objectType == None || attr.objectType.value !in objects then Undefined
        else DefinitionFrom(objects, profiles, segments[1..], objects[attr.objectType.value].item, used + [segment.attribute])
  }

  function SelectorsUseNotation(selectors: seq<Selector>, style: EP.Style): bool {
    match style
    case Simple => selectors == []
    case Brackets => selectors == [AnyBrackets]
    case Wildcard => selectors == [AnyWildcard]
    case Indexed => |selectors| == 1 && selectors[0].At?
    case JSONPath => |selectors| == 1 && selectors[0].At?
  }

  predicate NotationFrom(objects: Objects, segments: seq<Segment>, style: EP.Style, def: ItemDef, used: seq<string>)
    decreases |segments|
  {
    segments != [] &&
    var segment := segments[0];
    segment.attribute in def.attributes &&
    var attr := def.attributes[segment.attribute];
    && (if attr.isArray then SelectorsUseNotation(segment.selectors, style) else segment.selectors == [])
    && (|segments| == 1
        || (segment.attribute !in used && attr.objectType.Some? && attr.objectType.value in objects
            && NotationFrom(objects, segments[1..], style, objects[attr.objectType.value].item, used + [segment.attribute])))
  }

  predicate UsesNotation(name: Name, style: EP.Style, objects: Objects, def: ItemDef) {
    name.rooted == (style == EP.JSONPath) && NotationFrom(objects, name.segments, style, def, [])
  }

  lemma PriorMeansUsed(path: EP.Elems, name: string)
    ensures EP.AttributeNames(path + [EP.Attribute(name)]) == EP.AttributeNames(path) + [name]
    ensures EP.PriorAttribute(path + [EP.Attribute(name)], name) <==> name in EP.AttributeNames(path)
  {
    var longer := path + [EP.Attribute(name)];
    assert longer[..|longer| - 1] == path;
    var names := EP.AttributeNames(path) + [name];
    assert names[..|names| - 1] == EP.AttributeNames(path);
  }

  /** Pushes an attribute and tells whether its name was on the path before. */
  method Follow(path: EP.Path, name: string) returns (prior: bool)
    requires path.Valid()
    modifies path.Repr()
    ensures path.Valid()
    ensures EP.AttributeNames(path.Contents()) == old(EP.AttributeNames(path.Contents())) + [name]
    ensures prior <==> name in old(EP.AttributeNames(path.Contents()))
  {
    PriorMeansUsed(path.Contents(), name);
    path.PushAttribute(name);
    prior := path.HasPriorAttribute(name);
  }

  method DefinitionOf(name: Name, objects: Objects, def: ItemDef, profiles: set<string>) returns (r: DefinitionStatus)
    ensures r == DefinitionFrom(objects, profiles, name.segments, def, [])
  {
    hide ActiveName;
    var itemDefinition := def;
    var definitionPath := new EP.Path();
    var index := 0;
    while index < |name.segments|
      invariant 0 <= index <= |name.segments|
      invariant definitionPath.Valid() && fresh(definitionPath.Repr())
      invariant DefinitionFrom(objects, profiles, name.segments, def, [])
        == DefinitionFrom(objects, profiles, name.segments[index..], itemDefinition, EP.AttributeNames(definitionPath.Contents()))
    {
      var segment := name.segments[index];
      if !ActiveName(itemDefinition, profiles, segment.attribute) {
        return Undefined;
      }
      ActiveIsAttribute(itemDefinition, profiles, segment.attribute);
      var attr := itemDefinition.attributes[segment.attribute];
      var selectorCount := |segment.selectors|;
      if selectorCount > 0 && !attr.isArray {
        return Undefined;
      }
      if selectorCount > 1 {
        return Undefined;
      }
      if index == |name.segments| - 1 {
        return Defined;
      }
      var prior := Follow(definitionPath, segment.attribute);
      if prior {
        return TraversalLimited;
      }
      if attr.typ != "object_t" || attr.objectType == None {
        return Undefined;
      }
      if attr.objectType.value !in objects {
        return Undefined;
      }
      itemDefinition := objects[attr.objectType.value].item;
      assert name.segments[index..][1..] == name.segments[index + 1..];
      index := index + 1;
    }
    return Undefined;
  }

  lemma ActiveIsAttribute(def: ItemDef, profiles: set<string>, name: string)
    requires ActiveName(def, profiles, name)
    ensures name in def.attributes
  {
  }

  lemma NotationStep(objects: Objects, segments: seq<Segment>, index: nat, style: EP.Style, def: ItemDef,
                     used: seq<string>)
    requires index < |segments|
    ensures var segment := segments[index];
      NotationFrom(objects, segments[index..], style, def, used) <==>
      segment.attribute in def.attributes &&
      var attr := def.attributes[segment.attribute];
      && (if attr.isArray then SelectorsUseNotation(segment.selectors, style) else segment.selectors == [])
      && (index == |segments| - 1
          || (segment.attribute !in used && attr.objectType.Some? && attr.objectType.value in objects
              && NotationFrom(objects, segments[index + 1..], style, objects[attr.objectType.value].item,
                              used + [segment.attribute])))
  {
    assert segments[index..][1..] == segments[index + 1..];
  }

  method UsesNotationOf(name: Name, style: EP.Style, objects: Objects, def: ItemDef) returns (r: bool)
    ensures r <==> UsesNotation(name, style, objects, def)
  {
    if name.segments == [] || name.rooted != (style == EP.JSONPath) {
      return false;
    }
    assert name.segments[0..] == name.segments;
    hide SelectorsUseNotation, NotationFrom, EP.AttributeNames, EP.PriorAttribute;
    var itemDefinition := def;
    var definitionPath := new EP.Path();
    ghost var used: seq<string> := [];
    var index := 0;
    while index < |name.segments|
      invariant 0 <= index < |name.segments|
      invariant definitionPath.Valid() && fresh(definitionPath.Repr())
      invariant NotationFrom(objects, name.segments, style, def, [])
        == NotationFrom(objects, name.segments[index..], style, itemDefinition, used)
      invariant used == EP.AttributeNames(definitionPath.Contents())
      decreases |name.segments| - index
    {
      var segment := name.segments[index];
      NotationStep(objects, name.segments, index, style, itemDefinition, used);
      if segment.attribute !in itemDefinition.attributes {
        return false;
      }
      var attr := itemDefinition.attributes[segment.attribute];
      if attr.isArray {
        if !SelectorsUseNotation(segment.selectors, style) {
          return false;
        }
      } else if |segment.selectors| != 0 {
        return false;
      }
      if index == |name.segments| - 1 {
        return true;
      }
      var prior := Follow(definitionPath, segment.attribute);
      used := used + [segment.attribute];
      if prior {
        return false;
      }
      if attr.objectType == None {
        return false;
      }
      if attr.objectType.value !in objects {
        return false;
      }
      itemDefinition := objects[attr.objectType.value].item;
      index := index + 1;
    }
    return true;
  }
}
