/** The texts that are semantic versions, told as a grammar over its alphabet, and how their texts compare. */
module VersionGrammar {
  import opened Text
  import opened SemVer

  predicate Decimal(s: string) {
    s != "" && (forall c | c in s :: c in "0123456789") && (s[0] == '0' ==> s == "0")
  }

  predicate OverAlphabet(s: string) {
    forall c | c in s :: c in "0123456789" || c in "ABCDEFGHIJKLMNOPQRSTUVWXYZ" || c in "abcdefghijklmnopqrstuvwxyz" || c == '-'
  }

  /** Dot-separated parts over the alphabet, none of them empty. */
  predicate Parts(parts: seq<string>) {
    forall p | p in parts :: p != "" && OverAlphabet(p)
  }

  /** The parts of a prerelease that are all digits are decimal numbers. */
  predicate PrereleaseParts(parts: seq<string>) {
    Parts(parts) && forall p | p in parts && (forall c | c in p :: c in "0123456789") :: Decimal(p)
  }

  /** Three numbers with dots between, then a prerelease after a hyphen and build metadata after a plus sign, if any. */
  predicate Spelled(value: string, v: Version, pre: seq<string>, build: seq<string>) {
    && Decimal(v.major) && Decimal(v.minor) && Decimal(v.patch) && PrereleaseParts(pre) && Parts(build)
    && v.prerelease == (if pre == [] then "" else Join(pre, '.'))
    && value == v.major + "." + v.minor + "." + v.patch
                + (if pre == [] then "" else "-" + Join(pre, '.')) + if build == [] then "" else "+" + Join(build, '.')
  }

  lemma DigitsAre(c: char)
    ensures IsDigit(c) <==> c in "0123456789"
  {
    if IsDigit(c) {
      assert c == "0123456789"[c as int - '0' as int];
    }
  }

  lemma UpperAre(c: char)
    ensures 'A' <= c <= 'Z' <==> c in "ABCDEFGHIJKLMNOPQRSTUVWXYZ"
  {
    if 'A' <= c <= 'Z' {
      assert c == "ABCDEFGHIJKLMNOPQRSTUVWXYZ"[c as int - 'A' as int];
    }
  }

  lemma LowerAre(c: char)
    ensures 'a' <= c <= 'z' <==> c in "abcdefghijklmnopqrstuvwxyz"
  {
    if 'a' <= c <= 'z' {
      assert c == "abcdefghijklmnopqrstuvwxyz"[c as int - 'a' as int];
    }
  }

  lemma AlphabetIs(s: string)
    ensures OverAlphabet(s) <==> forall i | 0 <= i < |s| :: IdentifierCharacter(s[i])
    ensures AllDigits(s) <==> forall c | c in s :: c in "0123456789"
    ensures Decimal(s) <==> Numeric(s)
  {
    forall c ensures IdentifierCharacter(c) <==>
      c in "0123456789" || c in "ABCDEFGHIJKLMNOPQRSTUVWXYZ" || c in "abcdefghijklmnopqrstuvwxyz" || c == '-'
    {
      DigitsAre(c);
      UpperAre(c);
      LowerAre(c);
    }
    forall c ensures IsDigit(c) <==> c in "0123456789" {
      DigitsAre(c);
    }
    hide IdentifierCharacter, IsDigit;
    assert s != "" ==> s[0] in s;
    if s != "" && s[0] == '0' && |s| == 1 {
      assert s == "0";
    }
  }

  lemma PartsAre(text: string, parts: seq<string>, leadingZeroInvalid: bool)
    requires parts != [] && parts == Split(text, '.')
    ensures Identifiers(text, leadingZeroInvalid) <==> if leadingZeroInvalid then PrereleaseParts(parts) else Parts(parts)
  {
    forall p | p in parts
      ensures Identifier(p, leadingZeroInvalid) <==>
        p != "" && OverAlphabet(p) && (leadingZeroInvalid && (forall c | c in p :: c in "0123456789") ==> Decimal(p))
    {
      AlphabetIs(p);
      hide OverAlphabet, IdentifierCharacter;
    }
    hide Identifier, OverAlphabet, Decimal;
  }

  lemma PartsFree(parts: seq<string>)
    requires Parts(parts) && parts != []
    ensures Split(Join(parts, '.'), '.') == parts && Join(parts, '.') != ""
  {
    forall p | p in parts ensures '.' !in p {
      NoDot(p);
    }
    SplitJoin(parts, '.');
    CutAbsent("", '.');
    assert parts[0] != "" ==> parts != Split("", '.');
    assert parts[0] in parts;
  }

  lemma NoDot(p: string)
    ensures OverAlphabet(p) ==> '.' !in p
  {
  }

  /** A text is a well-formed version with build metadata exactly when the grammar spells it. */
  lemma GrammarExactly(value: string, v: Version)
    ensures (exists build :: WellFormed(v, build) && value == Written(v, build)) <==>
      exists pre, parts :: Spelled(value, v, pre, parts)
  {
    hide WellFormed, Written, Spelled;
    if build :| WellFormed(v, build) && value == Written(v, build) {
      WrittenSpells(value, v, build);
    }
    if pre, parts :| Spelled(value, v, pre, parts) {
      SpelledWrites(value, v, pre, parts);
    }
  }

  lemma WrittenSpells(value: string, v: Version, build: Option<string>)
    requires WellFormed(v, build) && value == Written(v, build)
    ensures exists pre, parts :: Spelled(value, v, pre, parts)
  {
    hide Identifiers, Numeric, Decimal, PrereleaseParts, Parts, Split, Join;
    var pre: seq<string>, parts: seq<string> := [], [];
    CoreIs(v);
    if v.prerelease != "" {
      pre := Split(v.prerelease, '.');
      JoinSplit(v.prerelease, '.');
      PartsAre(v.prerelease, pre, true);
    } else {
      NoParts();
    }
    if build.Some? {
      parts := Split(build.value, '.');
      JoinSplit(build.value, '.');
      PartsAre(build.value, parts, false);
    } else {
      NoParts();
    }
    SameText(v, build);
    assert Spelled(value, v, pre, parts);
  }

  lemma CoreIs(v: Version)
    ensures Decimal(v.major) <==> Numeric(v.major)
    ensures Decimal(v.minor) <==> Numeric(v.minor)
    ensures Decimal(v.patch) <==> Numeric(v.patch)
  {
    AlphabetIs(v.major);
    AlphabetIs(v.minor);
    AlphabetIs(v.patch);
    hide Decimal, Numeric, OverAlphabet, IdentifierCharacter;
  }

  lemma NoParts()
    ensures PrereleaseParts([]) && Parts([])
  {
  }

  /** The nested and the flat concatenation. */
  lemma SameText(v: Version, build: Option<string>)
    ensures Written(v, build) ==
      v.major + "." + v.minor + "." + v.patch + (if v.prerelease == "" then "" else "-" + v.prerelease)
      + if build == None then "" else "+" + build.value
  {
    var pre, more := if v.prerelease == "" then "" else "-" + v.prerelease, if build == None then "" else "+" + build.value;
    assert Tail(v.prerelease, build) == pre + more;
    assert v.major + (['.'] + (v.minor + (['.'] + (v.patch + (pre + more)))))
      == v.major + "." + v.minor + "." + v.patch + pre + more;
  }

  lemma SpelledWrites(value: string, v: Version, pre: seq<string>, parts: seq<string>)
    requires Spelled(value, v, pre, parts)
    ensures exists build :: WellFormed(v, build) && value == Written(v, build)
  {
    hide Identifiers, Numeric, Decimal, Split, Join;
    var build := if parts == [] then None else Some(Join(parts, '.'));
    CoreIs(v);
    if pre != [] {
      PartsFree(pre);
      PartsAre(v.prerelease, pre, true);
    }
    if parts != [] {
      PartsFree(parts);
      PartsAre(build.value, parts, false);
    }
    SameText(v, build);
    assert WellFormed(v, build);
  }

  // ----- Order of texts -----

  /** A text is less than another exactly when it is a proper beginning of it or has the smaller character where they
      first differ. */
  lemma {:induction false} TextOrder(a: string, b: string)
    ensures Compare(a, b) == -1 <==>
      a < b || exists i | 0 <= i < |a| && i < |b| :: a[..i] == b[..i] && a[i] < b[i]
    ensures Compare(a, b) == -Compare(b, a)
  {
    if a != "" && b != "" {
      TextOrder(a[1..], b[1..]);
      if i :| 0 <= i < |a[1..]| && i < |b[1..]| && a[1..][..i] == b[1..][..i] && a[1..][i] < b[1..][i] {
        if a[0] == b[0] {
          assert a[..i + 1] == [a[0]] + a[1..][..i] && b[..i + 1] == [b[0]] + b[1..][..i];
          assert a[i + 1] < b[i + 1];
        }
      }
      if i :| 0 <= i < |a| && i < |b| && a[..i] == b[..i] && a[i] < b[i] {
        if i > 0 {
          assert a[0] == a[..i][0] == b[..i][0] == b[0];
          assert a[1..][..i - 1] == a[..i][1..] && b[1..][..i - 1] == b[..i][1..];
          assert a[1..][i - 1] < b[1..][i - 1];
        }
      }
      if a[0] < b[0] {
        assert a[..0] == b[..0];
      }
      if a[1..] < b[1..] && a[0] == b[0] {
        assert a < b;
      }
      if a < b {
        assert a[0] == b[0] && a[1..] < b[1..];
      }
    }
  }
}
