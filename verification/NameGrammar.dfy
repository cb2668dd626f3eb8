/** The texts that read as observable names, told as a grammar. */
module NameGrammar {
  import opened Text
  import opened ObservablePath

  /** Empty brackets, bracketed asterisk, or bracketed digits of an index. */
  predicate SelectorSpelled(text: string, s: Selector) {
    match s
    case AnyBrackets => text == "[]"
    case AnyWildcard => text == "[*]"
    case At(index) =>
      && |text| > 2 && text[0] == '[' && text[|text| - 1] == ']' && AllDigits(text[1..|text| - 1])
      && index == DigitsValue(text[1..|text| - 1]) && index <= MAX_INT64
  }

  ghost predicate SelectorsSpelled(text: string, selectors: seq<Selector>)
    decreases |selectors|
  {
    if selectors == [] then text == ""
    else exists k | 0 <= k <= |text| :: SelectorSpelled(text[..k], selectors[0]) && SelectorsSpelled(text[k..], selectors[1..])
  }

  /** A non-empty attribute name without a dot or an opening bracket, and then the selectors. */
  ghost predicate SegmentSpelled(part: string, s: Segment) {
    && NameSafe(s.attribute) && |s.attribute| <= |part| && part[..|s.attribute|] == s.attribute
    && SelectorsSpelled(part[|s.attribute|..], s.selectors)
  }

  ghost predicate SegmentsSpelled(parts: seq<string>, segments: seq<Segment>) {
    |parts| == |segments| && forall i | 0 <= i < |parts| :: SegmentSpelled(parts[i], segments[i])
  }

  /** Segments with dots between, after a root marker or else not beginning like one. */
  ghost predicate NameSpelled(text: string, name: Name, parts: seq<string>) {
    && parts != [] && SegmentsSpelled(parts, name.segments)
    && if name.rooted then text == "$." + Join(parts, '.') else text == Join(parts, '.') && text != "" && text[0] != '$'
  }

  /** A text reads as a name exactly when it spells it. */
  lemma ReadExactly(text: string, name: Name)
    ensures ReadName(text) == Ok(name) <==> exists parts :: NameSpelled(text, name, parts)
  {
    hide ReadSegments, SegmentsSpelled, Split, Join;
    if ReadName(text) == Ok(name) {
      var rest := if name.rooted then text[2..] else text;
      var parts := Split(rest, '.');
      JoinSplit(rest, '.');
      SplitPartsFree(rest, '.');
      PartsRead(parts, name.segments);
      assert name.rooted ==> text == text[..2] + rest && text[..2] == "$.";
      assert NameSpelled(text, name, parts);
    }
    if parts :| NameSpelled(text, name, parts) {
      PartsFree(parts, name.segments);
      SplitJoin(parts, '.');
      PartsRead(parts, name.segments);
      JoinedNonEmpty(parts, name.segments);
      var rest := Join(parts, '.');
      assert name.rooted ==> text[2..] == rest;
    }
  }

  lemma JoinedNonEmpty(parts: seq<string>, segments: seq<Segment>)
    requires parts != [] && SegmentsSpelled(parts, segments)
    ensures Join(parts, '.') != ""
  {
    hide SelectorsSpelled;
    assert SegmentSpelled(parts[0], segments[0]);
  }

  lemma SelectorsRead(text: string, selectors: seq<Selector>)
    ensures ReadSelectors(text) == Ok(selectors) <==> SelectorsSpelled(text, selectors)
  {
    hide ReadSelectors, SelectorsSpelled;
    if ReadSelectors(text) == Ok(selectors) {
      ReadIsSpelled(text, selectors);
    }
    if SelectorsSpelled(text, selectors) {
      SpelledIsRead(text, selectors);
    }
  }

  lemma {:induction false} ReadIsSpelled(text: string, selectors: seq<Selector>)
    requires ReadSelectors(text) == Ok(selectors)
    ensures SelectorsSpelled(text, selectors)
    decreases |text|
  {
    if text != "" {
      hide ReadSelector, SelectorSpelled;
      var close := IndexOf(text, ']');
      ReadIsSpelled(text[close + 1..], selectors[1..]);
      OneRead(text, close, selectors[0]);
    }
  }

  lemma {:induction false} SpelledIsRead(text: string, selectors: seq<Selector>)
    requires SelectorsSpelled(text, selectors)
    ensures ReadSelectors(text) == Ok(selectors)
    decreases |selectors|
  {
    if selectors != [] {
      hide ReadSelectors, SelectorsSpelled, ReadSelector, SelectorSpelled, IndexOf;
      var k := FirstSpelled(text, selectors);
      Closes(text, k, selectors[0]);
      OneRead(text, k - 1, selectors[0]);
      SpelledIsRead(text[k..], selectors[1..]);
      FirstRead(text, k - 1, selectors[0], selectors[1..]);
      assert selectors == [selectors[0]] + selectors[1..];
    }
  }

  lemma FirstSpelled(text: string, selectors: seq<Selector>) returns (k: nat)
    requires SelectorsSpelled(text, selectors) && selectors != []
    ensures k <= |text| && SelectorSpelled(text[..k], selectors[0]) && SelectorsSpelled(text[k..], selectors[1..])
  {
    hide SelectorSpelled;
    k :| 0 <= k <= |text| && SelectorSpelled(text[..k], selectors[0]) && SelectorsSpelled(text[k..], selectors[1..]);
  }

  lemma FirstRead(text: string, close: nat, first: Selector, rest: seq<Selector>)
    requires 0 < close < |text| && text[0] == '[' && IndexOf(text, ']') == close
    requires ReadSelector(text[1..close]) == Ok(first) && ReadSelectors(text[close + 1..]) == Ok(rest)
    ensures ReadSelectors(text) == Ok([first] + rest)
  {
    hide ReadSelector, IndexOf;
  }

  lemma Closes(text: string, k: nat, s: Selector)
    requires k <= |text| && SelectorSpelled(text[..k], s)
    ensures k > 1 && text[0] == '[' && IndexOf(text, ']') == k - 1
  {
    assert text[..k][k - 1] == ']' && forall i | 0 <= i < k - 1 :: text[..k][i] == text[i];
    if s.At? {
      forall i | 0 < i < k - 1 ensures text[i] != ']' {
        assert text[..k][1..k - 1][i - 1] == text[i];
      }
    }
    IndexOfIs(text, ']', k - 1);
  }

  lemma OneRead(text: string, close: nat, s: Selector)
    requires 0 < close < |text| && text[0] == '[' && text[close] == ']'
    ensures ReadSelector(text[1..close]) == Ok(s) <==> SelectorSpelled(text[..close + 1], s)
  {
    var whole := text[..close + 1];
    assert whole[1..|whole| - 1] == text[1..close];
    var inner := text[1..close];
    assert whole == "[" + inner + "]";
    if s.AnyBrackets? {
      assert whole == "[]" <==> inner == "" by {
        assert |whole| == |inner| + 2;
      }
    }
    if s.AnyWildcard? && whole == "[*]" {
      assert inner == "*";
    }
  }

  lemma PartRead(part: string, s: Segment)
    requires '.' !in part
    ensures ReadSegment(part) == Ok(s) <==> SegmentSpelled(part, s)
  {
    hide ReadSelectors, SelectorsSpelled;
    var open := IndexOf(part, '[');
    SelectorsRead(part[open..], s.selectors);
    NothingSpelled(s.selectors);
    assert part[..|part|] == part;
    if SegmentSpelled(part, s) {
      OpensAfter(part, s);
      assert s == Segment(part[..open], s.selectors);
      if s.selectors != [] {
        assert 0 < open < |part| && ReadSelectors(part[open..]) == Ok(s.selectors);
      }
    }
  }

  lemma NothingSpelled(selectors: seq<Selector>)
    ensures SelectorsSpelled("", selectors) <==> selectors == []
  {
  }

  /** The selectors begin at the first opening bracket. */
  lemma OpensAfter(part: string, s: Segment)
    requires SegmentSpelled(part, s)
    ensures IndexOf(part, '[') == |s.attribute| && (s.selectors == [] <==> |s.attribute| == |part|)
  {
    var n := |s.attribute|;
    var rest := part[n..];
    if s.selectors != [] {
      var k :| 0 <= k <= |rest| && SelectorSpelled(rest[..k], s.selectors[0]) && SelectorsSpelled(rest[k..], s.selectors[1..]);
      Closes(rest, k, s.selectors[0]);
      assert part[n] == rest[0];
    }
    IndexOfIs(part, '[', n);
  }

  lemma {:induction false} PartsRead(parts: seq<string>, segments: seq<Segment>)
    requires forall p | p in parts :: '.' !in p
    ensures ReadSegments(parts) == Ok(segments) <==> SegmentsSpelled(parts, segments)
  {
    hide ReadSegment, SegmentSpelled;
    if parts != [] {
      assert forall p | p in parts[1..] :: p in parts;
      if segments != [] {
        PartRead(parts[0], segments[0]);
        PartsRead(parts[1..], segments[1..]);
        SpelledParts(parts, segments);
        assert segments == [segments[0]] + segments[1..];
      }
    }
  }

  lemma SpelledParts(parts: seq<string>, segments: seq<Segment>)
    requires parts != [] && segments != []
    ensures SegmentsSpelled(parts, segments) <==>
      SegmentSpelled(parts[0], segments[0]) && SegmentsSpelled(parts[1..], segments[1..])
  {
    hide SegmentSpelled;
    if SegmentSpelled(parts[0], segments[0]) && SegmentsSpelled(parts[1..], segments[1..]) {
      forall i | 0 <= i < |parts| ensures SegmentSpelled(parts[i], segments[i]) {
        if i > 0 {
          assert SegmentSpelled(parts[1..][i - 1], segments[1..][i - 1]);
        }
      }
    }
  }

  lemma {:induction false} SelectorsFree(text: string, selectors: seq<Selector>)
    requires SelectorsSpelled(text, selectors)
    ensures '.' !in text
    decreases |selectors|
  {
    if selectors != [] {
      hide SelectorSpelled, SelectorsSpelled;
      var k := FirstSpelled(text, selectors);
      SelectorsFree(text[k..], selectors[1..]);
      SelectorFree(text[..k], selectors[0]);
      assert text == text[..k] + text[k..];
    }
  }

  lemma SelectorFree(text: string, s: Selector)
    requires SelectorSpelled(text, s)
    ensures '.' !in text
  {
    if s.At? {
      forall i | 0 <= i < |text| ensures text[i] != '.' {
        if 0 < i < |text| - 1 {
          assert text[1..|text| - 1][i - 1] == text[i];
        }
      }
    }
  }

  lemma PartsFree(parts: seq<string>, segments: seq<Segment>)
    requires SegmentsSpelled(parts, segments)
    ensures forall p | p in parts :: '.' !in p
  {
    hide SelectorsSpelled;
    forall i | 0 <= i < |parts| ensures '.' !in parts[i] {
      var n := |segments[i].attribute|;
      assert SegmentSpelled(parts[i], segments[i]);
      SelectorsFree(parts[i][n..], segments[i].selectors);
      assert parts[i] == parts[i][..n] + parts[i][n..];
    }
  }
}
