/** The observable name language: parsing in every notation, and the round trip with event path rendering. */
module ObservablePath {
  import opened Text
  import opened EventPath

  datatype Selector = AnyBrackets | AnyWildcard | At(index: nat)

  datatype Segment = Segment(attribute: string, selectors: seq<Selector>)

  datatype Name = Name(segments: seq<Segment>, rooted: bool)

  datatype ParseError =
    | RootAlone | RootWithoutDot | EmptyPath | EmptyAttribute
    | SelectorWithoutAttribute | TextAfterSelector | SelectorUnclosed | SelectorNotIndex | IndexTooLarge

  datatype Parsed<+T> = Ok(value: T) | Err(error: ParseError)

  // ----- The language -----

  function ReadSelector(text: string): Parsed<Selector> {
    if text == "" then Ok(AnyBrackets)
    else if text == "*" then Ok(AnyWildcard)
    else if !AllDigits(text) then Err(SelectorNotIndex)
    else if DigitsValue(text) > MAX_INT64 then Err(IndexTooLarge)
    else Ok(At(DigitsValue(text)))
  }

  function ReadSelectors(text: string): Parsed<seq<Selector>>
    decreases |text|
  {
    if text == "" then Ok([])
    else if text[0] != '[' then Err(TextAfterSelector)
    else
      var close := IndexOf(text, ']');
      if close == |text| then Err(SelectorUnclosed)
      else
        match ReadSelector(text[1..close])
        case Err(e) => Err(e)
        case Ok(first) =>
          match ReadSelectors(text[close + 1..])
          case Err(e) => Err(e)
          case Ok(rest) => Ok([first] + rest)
  }

  function ReadSegment(part: string): Parsed<Segment> {
    var open := IndexOf(part, '[');
    if part == "" then Err(EmptyAttribute)
    else if open == |part| then Ok(Segment(part, []))
    else if open == 0 then Err(SelectorWithoutAttribute)
    else
      match ReadSelectors(part[open..])
      case Err(e) => Err(e)
      case Ok(selectors) => Ok(Segment(part[..open], selectors))
  }

  function ReadSegments(parts: seq<string>): Parsed<seq<Segment>> {
    if parts == [] then Ok([])
    else
      match ReadSegment(parts[0])
      case Err(e) => Err(e)
      case Ok(first) =>
        match ReadSegments(parts[1..])
        case Err(e) => Err(e)
        case Ok(rest) => Ok([first] + rest)
  }

  function Unrooted(name: string): Parsed<(string, bool)> {
    if name == "" || name[0] != '$' then Ok((name, false))
    else if name == "$" then Err(RootAlone)
    else if name[1] != '.' then Err(RootWithoutDot)
    else Ok((name[2..], true))
  }

  function ReadName(name: string): Parsed<Name> {
    match Unrooted(name)
    case Err(e) => Err(e)
    case Ok((text, rooted)) =>
      if text == "" then Err(EmptyPath)
      else
        match ReadSegments(Split(text, '.'))
        case Err(e) => Err(e)
        case Ok(segments) => Ok(Name(segments, rooted))
  }

  // ----- The parser's loops -----

  /** The first error, or everything read so far followed by the rest. */
  function Then<T>(done: seq<T>, rest: Parsed<seq<T>>): Parsed<seq<T>> {
    match rest
    case Err(e) => Err(e)
    case Ok(more) => Ok(done + more)
  }

  method ParseSegment(part: string) returns (r: Parsed<Segment>)
    ensures r == ReadSegment(part)
  {
    if part == "" {
      return Err(EmptyAttribute);
    }
    var open := IndexOf(part, '[');
    if open == |part| {
      return Ok(Segment(part, []));
    }
    if open == 0 {
      return Err(SelectorWithoutAttribute);
    }
    var selectors: seq<Selector> := [];
    var remainder := part[open..];
    ghost var whole := ReadSelectors(remainder);
    assert whole.Ok? ==> [] + whole.value == whole.value;
    while remainder != ""
      invariant Then(selectors, ReadSelectors(remainder)) == whole
      decreases |remainder|
    {
      if remainder[0] != '[' {
        return Err(TextAfterSelector);
      }
      var close := IndexOf(remainder, ']');
      if close == |remainder| {
        return Err(SelectorUnclosed);
      }
      var selector := ReadSelector(remainder[1..close]);
      if selector.Err? {
        return Err(selector.error);
      }
      ghost var rest := ReadSelectors(remainder[close + 1..]);
      assert rest.Ok? ==> (selectors + [selector.value]) + rest.value == selectors + ([selector.value] + rest.value);
      selectors := selectors + [selector.value];
      remainder := remainder[close + 1..];
    }
    assert selectors + [] == selectors;
    return Ok(Segment(part[..open], selectors));
  }

  lemma CutParts(text: string)
    ensures var dot := IndexOf(text, '.');
      && Split(text, '.')[0] == text[..dot]
      && Split(text, '.')[1..] == if dot == |text| then [] else Split(text[dot + 1..], '.')
  {
  }

  method ParseSegments(name: string) returns (r: Parsed<seq<Segment>>)
    ensures r == ReadSegments(Split(name, '.'))
  {
    hide Split, ReadSegment;
    ghost var whole := ReadSegments(Split(name, '.'));
    assert whole.Ok? ==> [] + whole.value == whole.value;
    var segments: seq<Segment> := [];
    var text := name;
    while true
      invariant Then(segments, ReadSegments(Split(text, '.'))) == whole
      decreases |text|
    {
      CutParts(text);
      var dot := IndexOf(text, '.');
      ghost var rest := ReadSegments(Split(text, '.')[1..]);
      var segment := ParseSegment(text[..dot]);
      if segment.Err? {
        return Err(segment.error);
      }
      assert rest.Ok? ==> (segments + [segment.value]) + rest.value == segments + ([segment.value] + rest.value);
      segments := segments + [segment.value];
      if dot == |text| {
        assert segments + [] == segments;
        return Ok(segments);
      }
      text := text[dot + 1..];
    }
  }

  method Parse(name: string) returns (r: Parsed<Name>)
    ensures r == ReadName(name)
  {
    var rooted := false;
    var text := name;
    if name != "" && name[0] == '$' {
      if name == "$" {
        return Err(RootAlone);
      }
      if name[1] != '.' {
        return Err(RootWithoutDot);
      }
      text := name[2..];
      rooted := true;
    }
    if text == "" {
      return Err(EmptyPath);
    }
    var segments := ParseSegments(text);
    match segments
    case Err(e) => return Err(e);
    case Ok(s) => return Ok(Name(s, rooted));
  }

  // ----- Round trip -----

  function SelectorText(s: Selector): string {
    match s
    case AnyBrackets => "[]"
    case AnyWildcard => "[*]"
    case At(index) => "[" + FormatInt(index) + "]"
  }

  function SelectorsText(s: seq<Selector>): string {
    if s == [] then "" else SelectorText(s[0]) + SelectorsText(s[1..])
  }

  function SegmentText(s: Segment): string {
    s.attribute + SelectorsText(s.selectors)
  }

  function SegmentTexts(segments: seq<Segment>): (texts: seq<string>)
    ensures |texts| == |segments|
  {
    seq(|segments|, i requires 0 <= i < |segments| => SegmentText(segments[i]))
  }

  /** The selector a style uses for one array element; the simple style uses none. */
  function StyleSelectors(style: Style, index: nat): seq<Selector> {
    match style
    case Simple => []
    case Brackets => [AnyBrackets]
    case Wildcard => [AnyWildcard]
    case Indexed => [At(index)]
    case JSONPath => [At(index)]
  }

  /** The segments an event path stands for in a style. */
  function Segments(path: Elems, style: Style): (segments: seq<Segment>)
    ensures path != [] && path[0].Attribute? ==> segments != []
  {
    if path == [] then []
    else
      var before := Segments(path[..|path| - 1], style);
      match path[|path| - 1]
      case Attribute(name) => before + [Segment(name, [])]
      case ArrayIndex(index) =>
        if before == [] then []
        else
          var last := before[|before| - 1];
          before[..|before| - 1] + [last.(selectors := last.selectors + StyleSelectors(style, index))]
  }

  /** What the name language can express: a non-empty name without a dot or an opening bracket. */
  predicate NameSafe(name: string) {
    name != "" && '.' !in name && '[' !in name
  }

  predicate PathSafe(path: Elems) {
    forall i | 0 <= i < |path| ::
      match path[i]
      case Attribute(name) => NameSafe(name)
      case ArrayIndex(index) => index <= MAX_INT64
  }

  predicate SegmentSafe(s: Segment) {
    NameSafe(s.attribute) && forall x | x in s.selectors :: x.At? ==> x.index <= MAX_INT64
  }

  lemma {:induction false} SegmentsSafe(path: Elems, style: Style)
    requires PathSafe(path)
    ensures forall s | s in Segments(path, style) :: SegmentSafe(s)
  {
    if path != [] {
      var init := path[..|path| - 1];
      assert PathSafe(init) by {
        assert forall i | 0 <= i < |init| :: init[i] == path[i];
      }
      SegmentsSafe(init, style);
      var before := Segments(init, style);
      assert before != [] ==> before[|before| - 1] in before;
      assert path[|path| - 1] == path[|path| - 1];
      match path[|path| - 1]
      case Attribute(name) => assert NameSafe(name);
      case ArrayIndex(index) => assert index <= MAX_INT64;
    }
  }

  lemma {:induction false} SelectorsTextAppend(a: seq<Selector>, b: seq<Selector>)
    ensures SelectorsText(a + b) == SelectorsText(a) + SelectorsText(b)
  {
    if a == [] {
      assert a + b == b;
    } else {
      SelectorsTextAppend(a[1..], b);
      TailOfConcat(a, b);
      Associative(SelectorText(a[0]), SelectorsText(a[1..]), SelectorsText(b));
    }
  }

  lemma StyleText(style: Style, index: nat)
    ensures SelectorsText(StyleSelectors(style, index)) == ArrayNotation(style, index)
  {
    var s := StyleSelectors(style, index);
    if s != [] {
      assert s[1..] == [];
      assert SelectorsText(s) == SelectorText(s[0]) + "";
    }
  }

  lemma {:induction false} JoinAppend(parts: seq<string>, last: string, c: char)
    requires parts != []
    ensures Join(parts + [last], c) == Join(parts, c) + [c] + last
  {
    if |parts| == 1 {
      assert (parts + [last])[1..] == [last];
    } else {
      JoinAppend(parts[1..], last, c);
      assert (parts + [last])[1..] == parts[1..] + [last];
    }
  }

  lemma {:induction false} JoinExtend(parts: seq<string>, last: string, more: string, c: char)
    ensures Join(parts + [last + more], c) == Join(parts + [last], c) + more
  {
    if parts != [] {
      JoinExtend(parts[1..], last, more, c);
      assert (parts + [last])[1..] == parts[1..] + [last];
      assert (parts + [last + more])[1..] == parts[1..] + [last + more];
    }
  }

  lemma AttributeText(before: seq<Segment>, name: string)
    requires before != []
    ensures Join(SegmentTexts(before + [Segment(name, [])]), '.') == Join(SegmentTexts(before), '.') + "." + name
  {
    JoinAppend(SegmentTexts(before), name, '.');
    assert SegmentText(Segment(name, [])) == name;
    assert SegmentTexts(before + [Segment(name, [])]) == SegmentTexts(before) + [name];
  }

  lemma IndexText(front: seq<Segment>, last: Segment, style: Style, index: nat)
    ensures Join(SegmentTexts(front + [last.(selectors := last.selectors + StyleSelectors(style, index))]), '.')
      == Join(SegmentTexts(front + [last]), '.') + ArrayNotation(style, index)
  {
    var longer := last.(selectors := last.selectors + StyleSelectors(style, index));
    SelectorsTextAppend(last.selectors, StyleSelectors(style, index));
    StyleText(style, index);
    hide SelectorsText, ArrayNotation;
    Associative(last.attribute, SelectorsText(last.selectors), ArrayNotation(style, index));
    JoinExtend(SegmentTexts(front), SegmentText(last), ArrayNotation(style, index), '.');
    assert SegmentTexts(front + [last]) == SegmentTexts(front) + [SegmentText(last)];
    assert SegmentTexts(front + [longer]) == SegmentTexts(front) + [SegmentText(longer)];
  }

  /** Rendering writes the segments' texts, dotted. */
  lemma {:induction false} BodyIsJoined(path: Elems, style: Style)
    requires path != [] && path[0].Attribute?
    ensures Body(path, style, -1, "") == Join(SegmentTexts(Segments(path, style)), '.')
  {
    var n := |path| - 1;
    var init := path[..n];
    if n == 0 {
      SingleText(path[0].name);
      assert Segments(path, style) == [Segment(path[0].name, [])];
    } else {
      BodyIsJoined(init, style);
      assert init[0].Attribute?;
      BodyGrows(path, style);
      var before := Segments(init, style);
      hide Segments, SegmentTexts, Join, ArrayNotation, StyleSelectors, Body;
      match path[n]
      case Attribute(name) =>
        AttributeText(before, name);
      case ArrayIndex(index) =>
        IndexText(before[..|before| - 1], before[|before| - 1], style, index);
    }
  }

  lemma BodyGrows(path: Elems, style: Style)
    requires |path| > 1 && path[0].Attribute?
    ensures var init := path[..|path| - 1];
      var before := Segments(init, style);
      before != [] && before == before[..|before| - 1] + [before[|before| - 1]] &&
      match path[|path| - 1]
      case Attribute(name) =>
        && Body(path, style, -1, "") == Body(init, style, -1, "") + "." + name
        && Segments(path, style) == before + [Segment(name, [])]
      case ArrayIndex(index) =>
        var last := before[|before| - 1];
        && Body(path, style, -1, "") == Body(init, style, -1, "") + ArrayNotation(style, index)
        && Segments(path, style)
          == before[..|before| - 1] + [last.(selectors := last.selectors + StyleSelectors(style, index))]
  {
    var init := path[..|path| - 1];
    assert init[0].Attribute?;
    assert HasAttribute(init);
    if path[|path| - 1].Attribute? {
      Associative(Body(init, style, -1, ""), ".", path[|path| - 1].name);
    }
  }

  lemma SingleText(name: string)
    ensures Join(SegmentTexts([Segment(name, [])]), '.') == name
  {
    assert SegmentText(Segment(name, [])) == name;
    assert SegmentTexts([Segment(name, [])]) == [name];
  }

  lemma FormattedDigits(index: nat)
    requires index <= MAX_INT64
    ensures ReadSelector(FormatInt(index)) == Ok(At(index))
    ensures AllDigits(FormatInt(index))
  {
    DigitsRoundTrip(index);
    assert IsDigit(FormatInt(index)[0]);
  }

  /** The text between a selector's brackets. */
  function Inner(s: Selector): string {
    match s
    case AnyBrackets => ""
    case AnyWildcard => "*"
    case At(index) => FormatInt(index)
  }

  lemma InnerText(s: Selector)
    requires s.At? ==> s.index <= MAX_INT64
    ensures SelectorText(s) == "[" + Inner(s) + "]"
    ensures ReadSelector(Inner(s)) == Ok(s)
    ensures ']' !in Inner(s) && '.' !in Inner(s)
  {
    if s.At? {
      FormattedDigits(s.index);
    }
  }

  lemma {:induction false} SelectorsRoundTrip(s: seq<Selector>)
    requires forall x | x in s :: x.At? ==> x.index <= MAX_INT64
    ensures ReadSelectors(SelectorsText(s)) == Ok(s)
    ensures '.' !in SelectorsText(s)
    ensures s != [] ==> SelectorsText(s) != "" && SelectorsText(s)[0] == '['
  {
    hide ReadSelector, SelectorText, Inner;
    if s != [] {
      SelectorsRoundTrip(s[1..]);
      InnerText(s[0]);
      var inner, rest, text := Inner(s[0]), SelectorsText(s[1..]), SelectorsText(s);
      assert text == ("[" + inner) + [']'] + rest;
      CutJoined("[" + inner, ']', rest);
      assert text[1..|inner| + 1] == inner;
      assert s == [s[0]] + s[1..];
    }
  }

  lemma SegmentRoundTrip(s: Segment)
    requires SegmentSafe(s)
    ensures ReadSegment(SegmentText(s)) == Ok(s)
    ensures '.' !in SegmentText(s)
  {
    SelectorsRoundTrip(s.selectors);
    var text := SegmentText(s);
    if s.selectors == [] {
      assert text == s.attribute;
      CutAbsent(text, '[');
    } else {
      var tail := SelectorsText(s.selectors);
      assert text == s.attribute + ['['] + tail[1..];
      CutJoined(s.attribute, '[', tail[1..]);
      assert text[|s.attribute|..] == tail;
    }
  }

  lemma TextsTail(segments: seq<Segment>)
    requires segments != []
    ensures SegmentTexts(segments) == [SegmentText(segments[0])] + SegmentTexts(segments[1..])
    ensures SegmentTexts(segments)[1..] == SegmentTexts(segments[1..])
  {
  }

  lemma {:induction false} SegmentsRoundTrip(segments: seq<Segment>)
    requires forall s | s in segments :: SegmentSafe(s)
    ensures ReadSegments(SegmentTexts(segments)) == Ok(segments)
    ensures forall t | t in SegmentTexts(segments) :: '.' !in t
  {
    if segments != [] {
      hide SegmentText, ReadSegment, SegmentSafe;
      SegmentRoundTrip(segments[0]);
      SegmentsRoundTrip(segments[1..]);
      TextsTail(segments);
      HeadAndTail(segments);
    }
  }

  /** Parsing a rendered path gives back its attributes and the style's selectors, rooted exactly for JSONPath. A
      path whose first name starts with the root marker is read back only in the JSONPath style. */
  lemma RenderParseRoundTrip(path: Elems, style: Style)
    requires path != [] && path[0].Attribute? && PathSafe(path)
    requires style == JSONPath || path[0].name[0] != '$'
    ensures ReadName(Render(path, style)) == Ok(Name(Segments(path, style), style == JSONPath))
  {
    hide Segments, SegmentTexts, Body, ReadSegments, Join, Split;
    var segments := Segments(path, style);
    SegmentsSafe(path, style);
    assert NameSafe(path[0].name);
    SegmentsRoundTrip(segments);
    BodyIsJoined(path, style);
    var body := Body(path, style, -1, "");
    SplitJoin(SegmentTexts(segments), '.');
    FirstCharacter(path, style);
    if style == JSONPath {
      assert Render(path, style) == "$." + body + "" == "$." + body;
      assert ("$." + body)[2..] == body;
    } else {
      assert Render(path, style) == "" + body + "" == body;
    }
  }

  lemma ReadSelectorSafe(text: string)
    ensures ReadSelector(text).Ok? && ReadSelector(text).value.At? ==> ReadSelector(text).value.index <= MAX_INT64
  {
    hide DigitsValue;
  }

  lemma {:induction false} ReadSelectorsSafe(text: string)
    ensures ReadSelectors(text).Ok? ==> forall x | x in ReadSelectors(text).value :: x.At? ==> x.index <= MAX_INT64
    decreases |text|
  {
    hide ReadSelector;
    if text != "" && text[0] == '[' && IndexOf(text, ']') < |text| {
      var close := IndexOf(text, ']');
      ReadSelectorSafe(text[1..close]);
      ReadSelectorsSafe(text[close + 1..]);
    }
  }

  lemma ReadSegmentSafe(part: string)
    requires '.' !in part
    ensures ReadSegment(part).Ok? ==> SegmentSafe(ReadSegment(part).value)
  {
    hide ReadSelectors;
    var open := IndexOf(part, '[');
    assert part[..open] <= part;
    assert part[..|part|] == part;
    if open < |part| {
      ReadSelectorsSafe(part[open..]);
    }
  }

  lemma {:induction false} ReadSegmentsSafe(parts: seq<string>)
    requires forall p | p in parts :: '.' !in p
    ensures ReadSegments(parts).Ok? ==> forall s | s in ReadSegments(parts).value :: SegmentSafe(s)
  {
    hide ReadSegment, SegmentSafe;
    if parts != [] {
      ReadSegmentSafe(parts[0]);
      ReadSegmentsSafe(parts[1..]);
    }
  }

  /** Nothing else is read back: a rendered path parses to its own segments exactly when the language can express every
      one of them and the text does not start like a root marker by accident. */
  lemma ReadBackExactly(path: Elems, style: Style)
    requires path != [] && path[0].Attribute?
    ensures ReadName(Render(path, style)) == Ok(Name(Segments(path, style), style == JSONPath))
      <==> && (forall s | s in Segments(path, style) :: SegmentSafe(s))
           && path[0].name != "" && (style == JSONPath || path[0].name[0] != '$')
  {
    hide Segments, SegmentTexts, Body, ReadSegments, Join, Split, SegmentSafe, IndexOf;
    var segments, body := Segments(path, style), Body(path, style, -1, "");
    BodyIsJoined(path, style);
    assert Render(path, style) == (if style == JSONPath then "$." + body else body) by {
      assert "$." + body + "" == "$." + body && "" + body + "" == body;
    }
    assert ("$." + body)[2..] == body;
    SplitPartsFree(body, '.');
    ReadSegmentsSafe(Split(body, '.'));
    SplitPartsFree(Render(path, style), '.');
    FirstSafe(path, style);
    if path[0].name != "" {
      FirstCharacter(path, style);
      if forall s | s in segments :: SegmentSafe(s) {
        SegmentsRoundTrip(segments);
        SplitJoin(SegmentTexts(segments), '.');
      }
    }
  }

  lemma {:induction false} FirstSafe(path: Elems, style: Style)
    requires path != [] && path[0].Attribute?
    ensures (forall s | s in Segments(path, style) :: SegmentSafe(s)) ==> path[0].name != ""
    ensures Segments(path, style) != [] && Segments(path, style)[0].attribute == path[0].name
  {
    var segments := Segments(path, style);
    if |path| == 1 {
      assert path[..0] == [];
    } else {
      var init := path[..|path| - 1];
      assert init[0] == path[0];
      FirstSafe(init, style);
    }
    assert segments[0] in segments;
  }

  lemma {:induction false} FirstCharacter(path: Elems, style: Style)
    requires path != [] && path[0].Attribute? && path[0].name != ""
    ensures Body(path, style, -1, "") != "" && Body(path, style, -1, "")[0] == path[0].name[0]
  {
    if |path| > 1 {
      FirstCharacter(path[..|path| - 1], style);
    } else {
      assert path[..0] == [];
    }
  }
}
