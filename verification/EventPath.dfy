/** Structural event paths and their five renderings. */
module EventPath {
  import opened Text
  import opened PathSeq

  datatype Elem = Attribute(name: string) | ArrayIndex(index: nat)

  datatype Style = Simple | Brackets | Wildcard | Indexed | JSONPath

  type Elems = seq<Elem>

  /** What a style writes for one array element. */
  function ArrayNotation(style: Style, index: nat): string {
    match style
    case Simple => ""
    case Brackets => "[]"
    case Wildcard => "[*]"
    case Indexed => "[" + FormatInt(index) + "]"
    case JSONPath => "[" + FormatInt(index) + "]"
  }

  /** The attributes of a path, array elements left out. */
  function AttributeNames(path: Elems): seq<string> {
    if path == [] then []
    else
      var rest := AttributeNames(path[..|path| - 1]);
      match path[|path| - 1]
      case Attribute(name) => rest + [name]
      case ArrayIndex(_) => rest
  }

  lemma {:induction false} AttributeNamesAppend(p: Elems, q: Elems)
    ensures AttributeNames(p + q) == AttributeNames(p) + AttributeNames(q)
  {
    if q == [] {
      assert p + q == p;
    } else {
      AttributeNamesAppend(p, q[..|q| - 1]);
      assert (p + q)[..|p + q| - 1] == p + q[..|q| - 1];
    }
  }

  // ----- Rendering -----

  predicate HasAttribute(path: Elems) {
    exists i :: 0 <= i < |path| && path[i].Attribute?
  }

  /** The path with an optional replacement of one attribute, written left to right. */
  function Body(path: Elems, style: Style, replaceAttribute: int, attribute: string): string {
    if path == [] then ""
    else
      var last := |path| - 1;
      Body(path[..last], style, replaceAttribute, attribute) +
      Piece(path[last], HasAttribute(path[..last]), style, last == replaceAttribute, attribute)
  }

  /** What one element adds to the text. */
  function Piece(element: Elem, attributeWritten: bool, style: Style, replaced: bool, attribute: string): string {
    match element
    case Attribute(name) => (if attributeWritten then "." else "") + (if replaced then attribute else name)
    case ArrayIndex(index) => ArrayNotation(style, index)
  }

  function Rendered(path: Elems, style: Style, replaceAttribute: int, attribute: string, append: bool): string {
    if path == [] && !append then
      if style == JSONPath then "$" else ""
    else
      Written(path, style, replaceAttribute, attribute) + WrittenName(HasAttribute(path), attribute, append)
  }

  function Written(path: Elems, style: Style, replaceAttribute: int, attribute: string): string {
    (if style == JSONPath then "$." else "") + Body(path, style, replaceAttribute, attribute)
  }

  function WrittenName(attributeWritten: bool, attribute: string, append: bool): string {
    if append then (if attributeWritten then "." else "") + attribute else ""
  }

  function Render(path: Elems, style: Style): string {
    Rendered(path, style, -1, "", false)
  }

  lemma {:induction false} SilentBody(path: Elems, style: Style, replaceAttribute: int, attribute: string, at: nat,
                                      n: nat)
    requires at < n <= |path| && path[at].Attribute?
    requires forall i | 0 <= i < n && i != at :: path[i].ArrayIndex?
    requires style == Simple || forall i | 0 <= i < n :: path[i].Attribute?
    ensures Body(path[..n], style, replaceAttribute, attribute)
      == if at == replaceAttribute then attribute else path[at].name
  {
    var p := path[..n];
    assert p[..n - 1] == path[..n - 1];
    if n - 1 > at {
      SilentBody(path, style, replaceAttribute, attribute, at, n - 1);
    } else {
      assert !HasAttribute(path[..n - 1]);
      QuietPrefix(path[..n - 1], style, replaceAttribute, attribute);
    }
  }

  lemma {:induction false} QuietPrefix(path: Elems, style: Style, replaceAttribute: int, attribute: string)
    requires !HasAttribute(path) && (style == Simple || path == [])
    ensures Body(path, style, replaceAttribute, attribute) == ""
  {
    if path != [] {
      QuietPrefix(path[..|path| - 1], style, replaceAttribute, attribute);
      assert path[|path| - 1].ArrayIndex?;
    }
  }

  /** Whether `name` occurs before the current, that is the last, attribute. */
  predicate PriorAttribute(path: Elems, name: string) {
    var names := AttributeNames(path);
    names != [] && name in names[..|names| - 1]
  }

  /** The names before the last attribute are those of the path cut there. */
  lemma {:induction false} NamesBeforeLast(path: Elems, at: nat)
    requires at < |path| && path[at].Attribute?
    requires forall i | at < i < |path| :: path[i].ArrayIndex?
    ensures AttributeNames(path) == AttributeNames(path[..at]) + [path[at].name]
  {
    if at == |path| - 1 {
    } else {
      var shorter := path[..|path| - 1];
      NamesBeforeLast(shorter, at);
      assert shorter[..at] == path[..at];
    }
  }

  lemma {:induction false} NoNames(path: Elems)
    requires forall i | 0 <= i < |path| :: path[i].ArrayIndex?
    ensures AttributeNames(path) == []
  {
    if path != [] {
      NoNames(path[..|path| - 1]);
    }
  }

  lemma {:induction false} NameOnPath(path: Elems, name: string)
    ensures name in AttributeNames(path) <==> Attribute(name) in path
  {
    if path != [] {
      NameOnPath(path[..|path| - 1], name);
      assert path == path[..|path| - 1] + [path[|path| - 1]];
    }
  }

  lemma WrittenEmpty(style: Style, replaceAttribute: int, attribute: string)
    ensures Written([], style, replaceAttribute, attribute) == if style == JSONPath then "$." else ""
    ensures !HasAttribute([])
  {
  }

  lemma WrittenStep(path: Elems, index: nat, style: Style, replaceAttribute: int, attribute: string)
    requires index < |path|
    ensures HasAttribute(path[..index + 1]) <==> HasAttribute(path[..index]) || path[index].Attribute?
    ensures Written(path[..index + 1], style, replaceAttribute, attribute)
      == Written(path[..index], style, replaceAttribute, attribute) +
         Piece(path[index], HasAttribute(path[..index]), style, index == replaceAttribute, attribute)
  {
    BodyStep(path, index, style, replaceAttribute, attribute);
    AttributeStep(path, index);
    hide Piece, Body, HasAttribute;
    var root := if style == JSONPath then "$." else "";
    var body := Body(path[..index], style, replaceAttribute, attribute);
    var piece := Piece(path[index], HasAttribute(path[..index]), style, index == replaceAttribute, attribute);
    Associative(root, body, piece);
  }

  lemma AttributeStep(path: Elems, index: nat)
    requires index < |path|
    ensures HasAttribute(path[..index + 1]) <==> HasAttribute(path[..index]) || path[index].Attribute?
  {
    assert path[..index + 1][index] == path[index];
    assert forall j | 0 <= j < index :: path[..index][j] == path[..index + 1][j];
  }

  lemma BodyStep(path: Elems, index: nat, style: Style, replaceAttribute: int, attribute: string)
    requires index < |path|
    ensures Body(path[..index + 1], style, replaceAttribute, attribute)
      == Body(path[..index], style, replaceAttribute, attribute) +
         Piece(path[index], HasAttribute(path[..index]), style, index == replaceAttribute, attribute)
  {
    hide Piece, HasAttribute;
    assert path[..index + 1][..index] == path[..index];
  }

  /** With a single attribute and nothing written for indexes, the text is that attribute. */
  lemma ShortcutText(path: Elems, style: Style, replaceAttribute: int, attribute: string, at: nat)
    requires at < |path| && path[at].Attribute? && style != JSONPath
    requires forall i | 0 <= i < |path| && i != at :: path[i].ArrayIndex?
    requires style == Simple || forall i | 0 <= i < |path| :: path[i].Attribute?
    ensures Rendered(path, style, replaceAttribute, attribute, false)
      == if at == replaceAttribute then attribute else path[at].name
  {
    hide Body, HasAttribute;
    SilentBody(path, style, replaceAttribute, attribute, at, |path|);
    assert path[..|path|] == path;
  }

  /** A mutable structural path. */
  class Path {
    const elements: Sequence<Elem>

    ghost function Repr(): set<object> {
      {this, elements, elements.inline}
    }

    ghost predicate Valid()
      reads elements
    {
      elements.Valid()
    }

    ghost function Contents(): Elems
      requires Valid()
      reads elements, elements.inline
    {
      elements.Contents()
    }

    constructor ()
      ensures Valid() && Contents() == [] && fresh(Repr())
    {
      elements := new Sequence<Elem>(ArrayIndex(0));
    }

    method PushAttribute(name: string)
      requires Valid()
      modifies Repr()
      ensures Valid() && Contents() == old(Contents()) + [Attribute(name)]
    {
      elements.Push(Attribute(name));
    }

    method PushArrayIndex(index: nat)
      requires Valid()
      modifies Repr()
      ensures Valid() && Contents() == old(Contents()) + [ArrayIndex(index)]
    {
      elements.Push(ArrayIndex(index));
    }

    method Pop()
      requires Valid()
      modifies Repr()
      ensures Valid()
      ensures Contents() == if old(Contents()) == [] then [] else old(Contents())[..|old(Contents())| - 1]
    {
      elements.Pop();
    }

    /** The elements from the first to the last. */
    method Elements() returns (r: Elems)
      requires Valid()
      ensures r == Contents()
    {
      r := [];
      for index := 0 to elements.Len()
        invariant r == Contents()[..index]
      {
        r := r + [elements.At(index)];
      }
    }

    /** The position of the last attribute, or -1. */
    method LastAttribute() returns (at: int)
      requires Valid()
      ensures -1 <= at < |Contents()|
      ensures at >= 0 ==> Contents()[at].Attribute?
      ensures forall i | at < i < |Contents()| :: Contents()[i].ArrayIndex?
    {
      var index: int := elements.Len() - 1;
      while index >= 0
        invariant -1 <= index < |Contents()|
        invariant forall i | index < i < |Contents()| :: Contents()[i].ArrayIndex?
      {
        if elements.At(index).Attribute? {
          return index;
        }
        index := index - 1;
      }
      return -1;
    }

    method HasPriorAttribute(name: string) returns (r: bool)
      requires Valid()
      ensures r <==> PriorAttribute(Contents(), name)
    {
      var currentAttributeIndex := LastAttribute();
      ghost var path := Contents();
      if currentAttributeIndex < 0 {
        NoNames(path);
      } else {
        NamesBeforeLast(path, currentAttributeIndex);
        NameOnPath(path[..currentAttributeIndex], name);
      }
      var index := 0;
      while index < currentAttributeIndex
        invariant 0 <= index
        invariant forall i | 0 <= i < index && i < currentAttributeIndex :: path[i] != Attribute(name)
      {
        if elements.At(index) == Attribute(name) {
          assert path[..currentAttributeIndex][index] == Attribute(name);
          return true;
        }
        index := index + 1;
      }
      return false;
    }

    /** Renders with the single-attribute shortcut; the shortcut never changes the text. */
    method RenderPath(style: Style, replaceAttribute: int, attribute: string, appendAttribute: bool) returns (r: string)
      requires Valid()
      ensures r == Rendered(Contents(), style, replaceAttribute, attribute, appendAttribute)
    {
      hide Written, HasAttribute;
      ghost var path := Contents();
      WrittenEmpty(style, replaceAttribute, attribute);
      if elements.Len() == 0 {
        if appendAttribute {
          return if style == JSONPath then "$." + attribute else attribute;
        }
        return if style == JSONPath then "$" else "";
      }
      if !appendAttribute && style != JSONPath {
        var attributeIndex, arrayNotationPresent := SingleAttribute(style);
        if attributeIndex >= 0 && !arrayNotationPresent {
          ShortcutText(path, style, replaceAttribute, attribute, attributeIndex);
          return if attributeIndex == replaceAttribute then attribute else elements.At(attributeIndex).name;
        }
      }
      var attributeWritten;
      r, attributeWritten := WriteElements(style, replaceAttribute, attribute);
      r := r + WrittenName(attributeWritten, attribute, appendAttribute);
    }

    method WriteElements(style: Style, replaceAttribute: int, attribute: string)
      returns (r: string, attributeWritten: bool)
      requires Valid()
      ensures attributeWritten <==> HasAttribute(Contents())
      ensures r == Written(Contents(), style, replaceAttribute, attribute)
    {
      hide Written, HasAttribute, Piece;
      ghost var path := Contents();
      WrittenEmpty(style, replaceAttribute, attribute);
      assert path[..0] == [];
      r := if style == JSONPath then "$." else "";
      attributeWritten := false;
      for index := 0 to elements.Len()
        invariant attributeWritten <==> HasAttribute(path[..index])
        invariant r == Written(path[..index], style, replaceAttribute, attribute)
      {
        var element := elements.At(index);
        WrittenStep(path, index, style, replaceAttribute, attribute);
        r := r + Piece(element, attributeWritten, style, index == replaceAttribute, attribute);
        attributeWritten := attributeWritten || element.Attribute?;
      }
      assert path[..|path|] == path;
    }

    /** The position of the only attribute, or a negative number when there is none or more than one. */
    method SingleAttribute(style: Style) returns (attributeIndex: int, arrayNotationPresent: bool)
      requires Valid()
      ensures attributeIndex < |Contents()|
      ensures attributeIndex >= 0 ==>
        && Contents()[attributeIndex].Attribute?
        && (forall i | 0 <= i < |Contents()| && i != attributeIndex :: Contents()[i].ArrayIndex?)
        && (!arrayNotationPresent ==> style == Simple || forall i | 0 <= i < |Contents()| :: Contents()[i].Attribute?)
    {
      attributeIndex, arrayNotationPresent := -1, false;
      for index := 0 to elements.Len()
        invariant -1 <= attributeIndex < index
        invariant attributeIndex >= 0 ==> Contents()[attributeIndex].Attribute?
        invariant forall i | 0 <= i < index && i != attributeIndex :: Contents()[i].ArrayIndex?
        invariant !arrayNotationPresent ==> style == Simple || forall i | 0 <= i < index :: Contents()[i].Attribute?
      {
        if elements.At(index).Attribute? {
          if attributeIndex >= 0 {
            attributeIndex := -2;
            return;
          }
          attributeIndex := index;
        } else if style != Simple {
          arrayNotationPresent := true;
        }
      }
    }

    method String(style: Style) returns (r: string)
      requires Valid()
      ensures r == Render(Contents(), style)
    {
      r := RenderPath(style, -1, "", false);
    }
  }
}
