/** Semantic Versioning 2.0.0: the hand-written parser against the grammar of sections 2, 9 and 10, and the comparator
    against the precedence of section 11. */
module SemVer {
  import opened Text

  datatype Version = Version(major: string, minor: string, patch: string, prerelease: string)

  // ----- The grammar -----

  predicate IdentifierCharacter(c: char) {
    IsDigit(c) || 'A' <= c <= 'Z' || 'a' <= c <= 'z' || c == '-'
  }

  /** A numeric identifier: digits without a leading zero (section 2). */
  predicate Numeric(s: string) {
    s != "" && AllDigits(s) && (|s| > 1 ==> s[0] != '0')
  }

  /** A dot-separated identifier of a prerelease (section 9) or, without the zero rule, of build metadata (section 10). */
  predicate Identifier(s: string, leadingZeroInvalid: bool) {
    && s != "" && (forall i | 0 <= i < |s| :: IdentifierCharacter(s[i]))
    && (leadingZeroInvalid && AllDigits(s) && |s| > 1 ==> s[0] != '0')
  }

  predicate Identifiers(s: string, leadingZeroInvalid: bool) {
    forall part | part in Split(s, '.') :: Identifier(part, leadingZeroInvalid)
  }

  /** A version and its build metadata, well formed. */
  predicate WellFormed(v: Version, build: Option<string>) {
    && Numeric(v.major) && Numeric(v.minor) && Numeric(v.patch)
    && (v.prerelease != "" ==> Identifiers(v.prerelease, true))
    && (build.Some? ==> Identifiers(build.value, false))
  }

  function Tail(prerelease: string, build: Option<string>): string {
    (if prerelease == "" then "" else ['-'] + prerelease) + (if build == None then "" else ['+'] + build.value)
  }

  function Written(v: Version, build: Option<string>): string {
    v.major + (['.'] + (v.minor + (['.'] + (v.patch + Tail(v.prerelease, build)))))
  }

  // ----- Numeric identifiers -----

  /** The length of the run of digits a text starts with. */
  function Run(s: string): (n: nat)
    ensures n <= |s| && AllDigits(s[..n])
    ensures n < |s| ==> !IsDigit(s[n])
  {
    if s == "" || !IsDigit(s[0]) then 0
    else
      var n := 1 + Run(s[1..]);
      assert forall i | 0 < i < n :: s[..n][i] == s[1..][..n - 1][i - 1];
      n
  }

  lemma {:induction false} RunIs(a: string, b: string)
    requires AllDigits(a) && (b == "" || !IsDigit(b[0]))
    ensures Run(a + b) == |a|
  {
    if a != "" {
      TailOfConcat(a, b);
      RunIs(a[1..], b);
    }
  }

  method NumericIdentifier(value: string, start: nat) returns (r: Option<string>, next: nat)
    requires start <= |value|
    ensures next <= |value|
    ensures var run := value[start..][..Run(value[start..])];
      if Numeric(run) then r == Some(run) && next == start + |run| else r == None
  {
    var position := start;
    ghost var text := value[start..];
    while position < |value| && IsDigit(value[position])
      invariant start <= position <= |value|
      invariant forall i | start <= i < position :: IsDigit(value[i])
    {
      position := position + 1;
    }
    assert text == value[start..position] + value[position..];
    RunIs(value[start..position], value[position..]);
    assert text[..position - start] == value[start..position];
    if position == start || (position - start > 1 && value[start] == '0') {
      return None, start;
    }
    return Some(value[start..position]), position;
  }

  // ----- Identifier lists -----

  /** Where a list ends: at the build metadata of a prerelease, else at the end. */
  function Stop(s: string, leadingZeroInvalid: bool): (n: nat)
    ensures n <= |s|
  {
    if leadingZeroInvalid then IndexOf(s, '+') else |s|
  }

  lemma FirstIdentifier(s: string, n: nat, leadingZeroInvalid: bool)
    requires n < |s| && s[n] == '.' && '.' !in s[..n]
    ensures Identifiers(s, leadingZeroInvalid) <==>
      Identifier(s[..n], leadingZeroInvalid) && Identifiers(s[n + 1..], leadingZeroInvalid)
  {
    hide Identifier;
    IndexOfIs(s, '.', n);
    HeadAndTail(Split(s, '.'));
    assert Split(s, '.') == [s[..n]] + Split(s[n + 1..], '.');
  }

  lemma LastIdentifier(s: string, leadingZeroInvalid: bool)
    requires '.' !in s
    ensures Identifiers(s, leadingZeroInvalid) <==> Identifier(s, leadingZeroInvalid)
  {
    CutAbsent(s, '.');
    assert Split(s, '.') == [s];
  }

  lemma BadCharacter(s: string, n: nat, leadingZeroInvalid: bool)
    requires n < |s| && s[n] != '.' && !IdentifierCharacter(s[n]) && '.' !in s[..n]
    ensures !Identifiers(s, leadingZeroInvalid)
  {
    var i := IndexOf(s, '.');
    assert n < i;
    var first := s[..i];
    assert first[n] == s[n];
    var parts := Split(s, '.');
    assert parts[0] == first && parts[0] in parts;
    assert !Identifier(first, leadingZeroInvalid);
  }

  method IdentifierList(value: string, start: nat, leadingZeroInvalid: bool) returns (position: nat, ok: bool)
    requires start <= |value|
    ensures start <= position <= |value|
    ensures var stop := start + Stop(value[start..], leadingZeroInvalid);
      && (ok <==> Identifiers(value[start..stop], leadingZeroInvalid))
      && (ok ==> position == stop)
  {
    hide Identifiers, Identifier, IdentifierCharacter, AllDigits, IsDigit, Stop;
    NoDigits();
    position := start;
    var identifierStart := start;
    var numeric := true;
    ghost var stop := start + Stop(value[start..], leadingZeroInvalid);
    ghost var list := value[start..stop];
    StopIs(value, start, stop, leadingZeroInvalid);
    assert value[start..start] == "";
    while true
      invariant start <= identifierStart <= position <= stop
      invariant forall i | identifierStart <= i < position :: IdentifierCharacter(value[i]) && value[i] != '.'
      invariant numeric <==> AllDigits(value[identifierStart..position])
      invariant Identifiers(list, leadingZeroInvalid) <==> Identifiers(value[identifierStart..stop], leadingZeroInvalid)
      decreases stop - position
    {
      ghost var rest := value[identifierStart..stop];
      ghost var n := position - identifierStart;
      assert rest[..n] == value[identifierStart..position];
      if position == |value| || (value[position] == '+' && leadingZeroInvalid) {
        assert position == stop && rest == rest[..n];
        LastIdentifier(rest, leadingZeroInvalid);
        IdentifierIs(rest, leadingZeroInvalid);
        if position == identifierStart ||
           (leadingZeroInvalid && numeric && position - identifierStart > 1 && value[identifierStart] == '0') {
          return start, false;
        }
        return position, true;
      }
      var character := value[position];
      assert rest[n] == character;
      if character == '.' {
        FirstIdentifier(rest, n, leadingZeroInvalid);
        IdentifierIs(rest[..n], leadingZeroInvalid);
        assert rest[n + 1..] == value[position + 1..stop];
        if position == identifierStart ||
           (leadingZeroInvalid && numeric && position - identifierStart > 1 && value[identifierStart] == '0') {
          return start, false;
        }
        position := position + 1;
        identifierStart := position;
        numeric := true;
        assert value[position..position] == "";
        continue;
      }
      if !IdentifierCharacter(character) {
        BadCharacter(rest, n, leadingZeroInvalid);
        return start, false;
      }
      assert value[identifierStart..position + 1] == value[identifierStart..position] + [character];
      OneMoreDigit(value[identifierStart..position], character);
      numeric := numeric && IsDigit(character);
      position := position + 1;
    }
  }

  lemma NoDigits()
    ensures AllDigits("")
  {
  }

  lemma OneMoreDigit(s: string, c: char)
    ensures AllDigits(s + [c]) <==> AllDigits(s) && IsDigit(c)
  {
    assert forall i | 0 <= i < |s| :: (s + [c])[i] == s[i];
    assert (s + [c])[|s|] == c;
  }

  lemma IdentifierIs(s: string, leadingZeroInvalid: bool)
    requires forall i | 0 <= i < |s| :: IdentifierCharacter(s[i])
    ensures Identifier(s, leadingZeroInvalid) <==>
      s != "" && !(leadingZeroInvalid && AllDigits(s) && |s| > 1 && s[0] == '0')
  {
  }

  lemma StopIs(value: string, start: nat, stop: nat, leadingZeroInvalid: bool)
    requires start <= |value| && stop == start + Stop(value[start..], leadingZeroInvalid)
    ensures stop <= |value| && (leadingZeroInvalid && stop < |value| ==> value[stop] == '+')
    ensures !leadingZeroInvalid ==> stop == |value|
    ensures leadingZeroInvalid ==> forall i | start <= i < stop :: value[i] != '+'
  {
    var text := value[start..];
    if leadingZeroInvalid {
      forall i | start <= i < stop ensures value[i] != '+' {
        assert text[..stop - start][i - start] == value[i];
      }
    }
  }

  // ----- Parsing -----

  /** What follows the core of a version. */
  datatype Rest = Rest(prerelease: string, build: Option<string>)

  /** Reads what follows the core: the one way it can be read. */
  function ReadTail(s: string): Option<Rest> {
    if s == "" then Some(Rest("", None))
    else if s[0] == '-' then
      var stop := IndexOf(s[1..], '+');
      var prerelease := s[1..][..stop];
      if !Identifiers(prerelease, true) then None
      else if stop == |s| - 1 then Some(Rest(prerelease, None))
      else ReadBuild(prerelease, s[1..][stop + 1..])
    else if s[0] == '+' then ReadBuild("", s[1..])
    else None
  }

  function ReadBuild(prerelease: string, build: string): Option<Rest> {
    if Identifiers(build, false) then Some(Rest(prerelease, Some(build))) else None
  }

  /** One numeric identifier and what follows it. */
  function ReadNumber(s: string): Option<(string, string)> {
    if Numeric(s[..Run(s)]) then Some((s[..Run(s)], s[Run(s)..])) else None
  }

  function ReadDotted(s: string): Option<(string, string)> {
    match ReadNumber(s)
    case None => None
    case Some((number, more)) => if more == "" || more[0] != '.' then None else Some((number, more[1..]))
  }

  function Read(s: string): Option<(Version, Option<string>)> {
    match ReadDotted(s)
    case None => None
    case Some((major, afterMajor)) =>
      match ReadDotted(afterMajor)
      case None => None
      case Some((minor, afterMinor)) =>
        match ReadNumber(afterMinor)
        case None => None
        case Some((patch, tail)) =>
          match ReadTail(tail)
          case None => None
          case Some(rest) => Some((Version(major, minor, patch, rest.prerelease), rest.build))
  }

  lemma EmptyIsNoList(leadingZeroInvalid: bool)
    ensures !Identifiers("", leadingZeroInvalid)
  {
    LastIdentifier("", leadingZeroInvalid);
  }

  lemma {:induction false} ListCharacters(s: string, leadingZeroInvalid: bool)
    requires Identifiers(s, leadingZeroInvalid)
    ensures '+' !in s
    decreases |s|
  {
    hide Identifiers;
    var i := IndexOf(s, '.');
    if i == |s| {
      assert s[..i] == s;
      LastIdentifier(s, leadingZeroInvalid);
    } else {
      FirstIdentifier(s, i, leadingZeroInvalid);
      ListCharacters(s[i + 1..], leadingZeroInvalid);
      assert s == s[..i] + ['.'] + s[i + 1..];
    }
  }

  /** Reading back what was written. */
  lemma TailReads(prerelease: string, build: Option<string>)
    requires prerelease != "" ==> Identifiers(prerelease, true)
    requires build.Some? ==> Identifiers(build.value, false)
    ensures ReadTail(Tail(prerelease, build)) == Some(Rest(prerelease, build))
    ensures Tail(prerelease, build) != "" ==> !IsDigit(Tail(prerelease, build)[0])
  {
    hide Identifiers;
    var t := Tail(prerelease, build);
    if prerelease != "" {
      ListCharacters(prerelease, true);
      if build == None {
        assert t == ['-'] + prerelease && t[1..] == prerelease;
        CutAbsent(prerelease, '+');
        assert prerelease[..|prerelease|] == prerelease;
      } else {
        assert t[1..] == prerelease + ['+'] + build.value;
        CutJoined(prerelease, '+', build.value);
      }
    } else if build.Some? {
      assert t[1..] == build.value;
    }
  }

  lemma NumberReads(number: string, more: string)
    requires Numeric(number) && (more == "" || !IsDigit(more[0]))
    ensures ReadNumber(number + more) == Some((number, more))
  {
    RunIs(number, more);
    assert (number + more)[..|number|] == number && (number + more)[|number|..] == more;
  }

  lemma DottedReads(number: string, more: string)
    requires Numeric(number)
    ensures ReadDotted(number + (['.'] + more)) == Some((number, more))
  {
    NumberReads(number, ['.'] + more);
    assert (['.'] + more)[1..] == more;
  }

  lemma WrittenReads(v: Version, build: Option<string>)
    requires WellFormed(v, build)
    ensures Read(Written(v, build)) == Some((v, build))
  {
    hide Numeric, Identifiers, ReadDotted, ReadNumber, ReadTail, Tail;
    var tail := Tail(v.prerelease, build);
    TailReads(v.prerelease, build);
    NumberReads(v.patch, tail);
    DottedReads(v.minor, v.patch + tail);
    DottedReads(v.major, v.minor + (['.'] + (v.patch + tail)));
  }

  lemma NumberWritten(s: string)
    requires ReadNumber(s).Some?
    ensures s == ReadNumber(s).value.0 + ReadNumber(s).value.1 && Numeric(ReadNumber(s).value.0)
  {
  }

  lemma DottedWritten(s: string)
    requires ReadDotted(s).Some?
    ensures s == ReadDotted(s).value.0 + (['.'] + ReadDotted(s).value.1) && Numeric(ReadDotted(s).value.0)
  {
    NumberWritten(s);
    HeadAndTail(ReadNumber(s).value.1);
  }

  lemma TailWritten(s: string)
    requires ReadTail(s).Some?
    ensures var rest := ReadTail(s).value;
      && s == Tail(rest.prerelease, rest.build)
      && (rest.prerelease != "" ==> Identifiers(rest.prerelease, true))
      && (rest.build.Some? ==> Identifiers(rest.build.value, false))
  {
    EmptyIsNoList(true);
    hide Identifiers;
    if s != "" {
      HeadAndTail(s);
      if s[0] == '-' {
        var stop := IndexOf(s[1..], '+');
        if stop < |s| - 1 {
          assert s[1..] == s[1..][..stop] + (['+'] + s[1..][stop + 1..]);
        } else {
          assert s[1..][..stop] == s[1..];
        }
      }
    }
  }

  lemma ReadIsWritten(s: string)
    requires Read(s).Some?
    ensures WellFormed(Read(s).value.0, Read(s).value.1) && Written(Read(s).value.0, Read(s).value.1) == s
  {
    hide Numeric, Identifiers, ReadDotted, ReadNumber, ReadTail, Tail;
    DottedWritten(s);
    var afterMajor := ReadDotted(s).value.1;
    DottedWritten(afterMajor);
    var afterMinor := ReadDotted(afterMajor).value.1;
    NumberWritten(afterMinor);
    TailWritten(ReadNumber(afterMinor).value.1);
  }

  /** What follows the core, read by position. */
  method ParseTail(value: string, start: nat) returns (prerelease: Option<string>)
    requires start <= |value|
    ensures prerelease == match ReadTail(value[start..]) case None => None case Some(rest) => Some(rest.prerelease)
  {
    hide Identifiers;
    ghost var tail := value[start..];
    var position := start;
    var text, ok := "", true;
    if position < |value| && value[position] == '-' {
      var from := position + 1;
      assert value[from..] == tail[1..];
      position, ok := IdentifierList(value, from, true);
      if !ok {
        ListStart(value, from);
        return None;
      }
      text := value[from..position];
      ListStart(value, from);
      EmptyIsNoList(true);
    }
    if position < |value| && value[position] == '+' {
      var from := position + 1;
      position, ok := IdentifierList(value, from, false);
      assert value[from..][..|value| - from] == value[from..] == value[from..|value|];
      assert tail[from - start..] == value[from..];
      if !ok {
        return None;
      }
    }
    if position != |value| {
      return None;
    }
    return Some(text);
  }

  lemma ListStart(value: string, from: nat)
    requires from <= |value|
    ensures var stop := IndexOf(value[from..], '+');
      && value[from..from + stop] == value[from..][..stop]
      && (stop < |value| - from ==> value[from + stop] == '+')
  {
  }

  method ParseDotted(value: string, start: nat) returns (number: Option<string>, next: nat)
    requires start <= |value|
    ensures next <= |value|
    ensures match ReadDotted(value[start..])
      case None => number == None
      case Some((text, more)) => number == Some(text) && more == value[next..]
  {
    hide Numeric, Run;
    number, next := NumericIdentifier(value, start);
    ghost var s := value[start..];
    if number == None {
      return;
    }
    assert s[Run(s)..] == value[next..];
    if next >= |value| || value[next] != '.' {
      return None, start;
    }
    next := next + 1;
  }

  method ParseCore(value: string) returns (r: Option<Version>)
    ensures r == match Read(value) case None => None case Some((v, _)) => Some(v)
  {
    hide Numeric, Run, ReadDotted, ReadTail;
    assert value[0..] == value;
    var major, afterMajor := ParseDotted(value, 0);
    if major == None {
      return None;
    }
    var minor, afterMinor := ParseDotted(value, afterMajor);
    if minor == None {
      return None;
    }
    ghost var s := value[afterMinor..];
    var patch, next := NumericIdentifier(value, afterMinor);
    if patch == None {
      return None;
    }
    assert s[Run(s)..] == value[next..];
    var prerelease := ParseTail(value, next);
    if prerelease == None {
      return None;
    }
    return Some(Version(major.value, minor.value, patch.value, prerelease.value));
  }

  /** Accepts exactly the versions of the grammar, and reads each in the one way it was written. */
  method Parse(value: string) returns (r: Option<Version>)
    ensures forall v, build | WellFormed(v, build) && value == Written(v, build) :: r == Some(v)
    ensures r.Some? ==> exists build :: WellFormed(r.value, build) && value == Written(r.value, build)
  {
    hide Read, Written, WellFormed;
    forall v, build | WellFormed(v, build) && value == Written(v, build) ensures Read(value) == Some((v, build)) {
      WrittenReads(v, build);
    }
    if Read(value).Some? {
      ReadIsWritten(value);
    }
    r := ParseCore(value);
  }

  // ----- Precedence -----

  function Sign(n: int): int {
    if n < 0 then -1 else if n > 0 then 1 else 0
  }

  /** Shorter first, then by text: how the comparator compares numeric identifiers. */
  function CompareNumericIdentifier(left: string, right: string): (r: int)
    ensures r == 0 <==> left == right
  {
    if |left| < |right| then -1 else if |left| > |right| then 1 else Compare(left, right)
  }

  function Power10(n: nat): nat {
    if n == 0 then 1 else 10 * Power10(n - 1)
  }

  lemma {:induction false} DigitsBelow(s: string)
    requires AllDigits(s)
    ensures DigitsValue(s) < Power10(|s|)
  {
    if s != "" {
      DigitsBelow(s[..|s| - 1]);
    }
  }

  lemma {:induction false} LeadingDigitFirst(s: string)
    requires s != "" && AllDigits(s)
    ensures DigitsValue(s) == DigitValue(s[0]) * Power10(|s| - 1) + DigitsValue(s[1..])
  {
    if |s| == 1 {
      assert s[..0] == [] && s[1..] == [];
    } else {
      var init := s[..|s| - 1];
      LeadingDigitFirst(init);
      assert s[1..][..|s| - 2] == init[1..];
      Shift(DigitValue(s[0]), Power10(|s| - 2), DigitsValue(init[1..]), DigitValue(s[|s| - 1]));
    }
  }

  lemma Shift(lead: nat, power: nat, rest: nat, last: nat)
    ensures (lead * power + rest) * 10 + last == lead * (10 * power) + (rest * 10 + last)
  {
  }

  lemma {:induction false} SameLengthNumeric(left: string, right: string)
    requires |left| == |right| && AllDigits(left) && AllDigits(right)
    ensures Compare(left, right) == Sign(DigitsValue(left) - DigitsValue(right))
  {
    if left != "" {
      LeadingDigitFirst(left);
      LeadingDigitFirst(right);
      SameLengthNumeric(left[1..], right[1..]);
      DigitsBelow(left[1..]);
      DigitsBelow(right[1..]);
      Leading(DigitValue(left[0]), DigitValue(right[0]), DigitsValue(left[1..]), DigitsValue(right[1..]), Power10(|left| - 1));
    }
  }

  /** A larger leading digit outweighs whatever follows. */
  lemma Leading(a: nat, b: nat, x: nat, y: nat, power: nat)
    requires x < power && y < power
    ensures a < b ==> a * power + x < b * power + y
    ensures a > b ==> a * power + x > b * power + y
  {
    if a < b {
      assert (a + 1) * power <= b * power;
    } else if a > b {
      assert (b + 1) * power <= a * power;
    }
  }

  /** A shorter numeric identifier is smaller. */
  lemma ShorterIsLess(left: string, right: string)
    requires Numeric(left) && Numeric(right) && |left| < |right|
    ensures DigitsValue(left) < DigitsValue(right)
  {
    DigitsBelow(left);
    LargeEnough(right);
    PowerGrows(|left|, |right| - 1);
    hide DigitsValue, Power10;
  }

  lemma LargeEnough(s: string)
    requires Numeric(s) && |s| > 1
    ensures DigitsValue(s) >= Power10(|s| - 1)
  {
    LeadingDigitFirst(s);
    AtLeastOne(DigitValue(s[0]), Power10(|s| - 1));
    hide DigitsValue, Power10;
  }

  lemma AtLeastOne(a: nat, n: nat)
    requires a >= 1
    ensures a * n >= n
  {
  }

  lemma {:induction false} PowerGrows(m: nat, n: nat)
    requires m <= n
    ensures Power10(m) <= Power10(n)
  {
    if m < n {
      PowerGrows(m, n - 1);
    }
  }

  /** Comparing by length, then by text, is comparing the numbers, however long. */
  lemma ShortlexIsNumeric(left: string, right: string)
    requires Numeric(left) && Numeric(right)
    ensures CompareNumericIdentifier(left, right) == Sign(DigitsValue(left) - DigitsValue(right))
  {
    if |left| < |right| {
      ShorterIsLess(left, right);
    } else if |left| > |right| {
      ShorterIsLess(right, left);
    } else {
      SameLengthNumeric(left, right);
    }
  }

  /** Numeric identifiers come before the others. */
  function CompareIdentifier(left: string, right: string): (r: int)
    ensures r == 0 <==> left == right
  {
    if AllDigits(left) && AllDigits(right) then CompareNumericIdentifier(left, right)
    else if AllDigits(left) then -1
    else if AllDigits(right) then 1
    else Compare(left, right)
  }

  /** Field by field; of two lists that agree so far the longer one is larger. */
  function CompareLists(left: seq<string>, right: seq<string>): int {
    if left == [] then (if right == [] then 0 else -1)
    else if right == [] then 1
    else
      var c := CompareIdentifier(left[0], right[0]);
      if c != 0 then c else CompareLists(left[1..], right[1..])
  }

  function ComparePrereleaseText(left: string, right: string): int {
    if left == "" then (if right == "" then 0 else 1)
    else if right == "" then -1
    else CompareLists(Split(left, '.'), Split(right, '.'))
  }

  /** Whether the identifier is made of digits only. */
  method IdentifierNumeric(identifier: string) returns (r: bool)
    ensures r <==> AllDigits(identifier)
  {
    for index := 0 to |identifier|
      invariant forall i | 0 <= i < index :: IsDigit(identifier[i])
    {
      if !IsDigit(identifier[index]) {
        return false;
      }
    }
    return true;
  }

  lemma SplitFirst(s: string)
    ensures var dot := IndexOf(s, '.');
      Split(s, '.') == [s[..dot]] + if dot == |s| then [] else Split(s[dot + 1..], '.')
  {
    var dot := IndexOf(s, '.');
    hide IndexOf;
    if dot == |s| {
      assert s[..dot] == s;
      assert [s] + [] == [s];
    }
  }

  method ComparePrerelease(left: string, right: string) returns (r: int)
    ensures r == ComparePrereleaseText(left, right)
  {
    if left == "" {
      return if right == "" then 0 else 1;
    }
    if right == "" {
      return -1;
    }
    hide Split, CompareNumericIdentifier, Compare;
    var l, m := left, right;
    while true
      invariant CompareLists(Split(left, '.'), Split(right, '.')) == CompareLists(Split(l, '.'), Split(m, '.'))
      decreases |l|
    {
      SplitFirst(l);
      SplitFirst(m);
      var leftDot, rightDot := IndexOf(l, '.'), IndexOf(m, '.');
      var leftIdentifier, rightIdentifier := l[..leftDot], m[..rightDot];
      var leftNumeric := IdentifierNumeric(leftIdentifier);
      var rightNumeric := IdentifierNumeric(rightIdentifier);
      var comparison;
      if leftNumeric && rightNumeric {
        comparison := CompareNumericIdentifier(leftIdentifier, rightIdentifier);
      } else if leftNumeric {
        comparison := -1;
      } else if rightNumeric {
        comparison := 1;
      } else {
        comparison := Compare(leftIdentifier, rightIdentifier);
      }
      if comparison != 0 {
        return comparison;
      }
      var leftMore, rightMore := leftDot < |l|, rightDot < |m|;
      if !leftMore || !rightMore {
        return if leftMore then 1 else if rightMore then -1 else 0;
      }
      l, m := l[leftDot + 1..], m[rightDot + 1..];
    }
  }

  function CompareVersions(left: Version, right: Version): int {
    if left.major != right.major then CompareNumericIdentifier(left.major, right.major)
    else if left.minor != right.minor then CompareNumericIdentifier(left.minor, right.minor)
    else if left.patch != right.patch then CompareNumericIdentifier(left.patch, right.patch)
    else ComparePrereleaseText(left.prerelease, right.prerelease)
  }

  method CompareVersion(left: Version, right: Version) returns (r: int)
    ensures r == CompareVersions(left, right)
  {
    r := CompareNumericIdentifier(left.major, right.major);
    if r != 0 {
      return;
    }
    r := CompareNumericIdentifier(left.minor, right.minor);
    if r != 0 {
      return;
    }
    r := CompareNumericIdentifier(left.patch, right.patch);
    if r != 0 {
      return;
    }
    r := ComparePrerelease(left.prerelease, right.prerelease);
  }

  /** Section 11 for the core: by the numbers, major before minor before patch. */
  lemma CorePrecedence(left: Version, right: Version)
    requires WellFormed(left, None) && WellFormed(right, None)
    ensures var x, y := left, right;
      CompareVersions(left, right) ==
        if DigitsValue(x.major) != DigitsValue(y.major) then Sign(DigitsValue(x.major) - DigitsValue(y.major))
        else if DigitsValue(x.minor) != DigitsValue(y.minor) then Sign(DigitsValue(x.minor) - DigitsValue(y.minor))
        else if DigitsValue(x.patch) != DigitsValue(y.patch) then Sign(DigitsValue(x.patch) - DigitsValue(y.patch))
        else ComparePrereleaseText(x.prerelease, y.prerelease)
  {
    ShortlexIsNumeric(left.major, right.major);
    ShortlexIsNumeric(left.minor, right.minor);
    ShortlexIsNumeric(left.patch, right.patch);
    hide DigitsValue, Numeric, Identifiers, ComparePrereleaseText, CompareNumericIdentifier;
  }

  /** Section 11 for prereleases: a prerelease is lower than its release; lists go field by field, numeric fields by
      number and below the others; and a longer list is larger than its prefixes. */
  lemma PrereleasePrecedence(left: seq<string>, right: seq<string>)
    ensures forall p | p != "" :: ComparePrereleaseText(p, "") == -1
    ensures forall p, q | p == q :: CompareIdentifier(p, q) == 0
    ensures forall p, q | Numeric(p) && Numeric(q) :: CompareIdentifier(p, q) == Sign(DigitsValue(p) - DigitsValue(q))
    ensures forall p, q | AllDigits(p) && !AllDigits(q) :: CompareIdentifier(p, q) == -1
    ensures forall p, q | !AllDigits(p) && !AllDigits(q) :: CompareIdentifier(p, q) == Compare(p, q)
    ensures left < right ==> CompareLists(left, right) == -1
    ensures forall i | 0 <= i < |left| && i < |right| && left[..i] == right[..i] && left[i] != right[i] ::
      CompareLists(left, right) == CompareIdentifier(left[i], right[i])
  {
    forall p, q | Numeric(p) && Numeric(q) ensures CompareIdentifier(p, q) == Sign(DigitsValue(p) - DigitsValue(q)) {
      ShortlexIsNumeric(p, q);
    }
    if left < right {
      PrefixIsLess(left, right);
    }
    forall i | 0 <= i < |left| && i < |right| && left[..i] == right[..i] && left[i] != right[i]
      ensures CompareLists(left, right) == CompareIdentifier(left[i], right[i])
    {
      FirstDifference(left, right, i);
    }
  }

  lemma {:induction false} PrefixIsLess(left: seq<string>, right: seq<string>)
    requires left < right
    ensures CompareLists(left, right) == -1
  {
    if left != [] {
      assert left[0] == right[0] && left[1..] < right[1..];
      PrefixIsLess(left[1..], right[1..]);
    }
  }

  lemma {:induction false} FirstDifference(left: seq<string>, right: seq<string>, i: nat)
    requires i < |left| && i < |right| && left[..i] == right[..i] && left[i] != right[i]
    ensures CompareLists(left, right) == CompareIdentifier(left[i], right[i])
  {
    if i > 0 {
      assert left[0] == left[..i][0] == right[..i][0] == right[0];
      assert left[1..][..i - 1] == left[..i][1..] && right[1..][..i - 1] == right[..i][1..];
      FirstDifference(left[1..], right[1..], i - 1);
    }
  }

  // ----- A total order -----

  lemma NumericOrder(a: string, b: string, c: string)
    ensures CompareNumericIdentifier(a, b) == -CompareNumericIdentifier(b, a)
    ensures CompareNumericIdentifier(a, b) <= 0 && CompareNumericIdentifier(b, c) <= 0 ==> CompareNumericIdentifier(a, c) <= 0
  {
    CompareAntisymmetric(a, b);
    if Compare(a, b) <= 0 && Compare(b, c) <= 0 {
      CompareTransitive(a, b, c);
    }
  }

  lemma IdentifierOrder(a: string, b: string, c: string)
    ensures CompareIdentifier(a, b) == -CompareIdentifier(b, a)
    ensures CompareIdentifier(a, b) <= 0 && CompareIdentifier(b, c) <= 0 ==> CompareIdentifier(a, c) <= 0
  {
    NumericOrder(a, b, c);
    CompareAntisymmetric(a, b);
    if Compare(a, b) <= 0 && Compare(b, c) <= 0 {
      CompareTransitive(a, b, c);
    }
  }

  lemma {:induction false} ListsOrder(a: seq<string>, b: seq<string>, c: seq<string>)
    ensures CompareLists(a, b) == -CompareLists(b, a)
    ensures CompareLists(a, b) <= 0 && CompareLists(b, c) <= 0 ==> CompareLists(a, c) <= 0
    ensures CompareLists(a, b) == 0 <==> a == b
  {
    hide CompareIdentifier;
    if a != [] && b != [] {
      HeadAndTail(a);
      HeadAndTail(b);
      IdentifierOrder(a[0], b[0], if c == [] then "" else c[0]);
      IdentifierOrder(b[0], if c == [] then "" else c[0], a[0]);
      ListsOrder(a[1..], b[1..], if c == [] then [] else c[1..]);
    }
  }

  lemma PrereleaseOrder(a: string, b: string, c: string)
    ensures ComparePrereleaseText(a, b) == -ComparePrereleaseText(b, a)
    ensures ComparePrereleaseText(a, b) <= 0 && ComparePrereleaseText(b, c) <= 0 ==> ComparePrereleaseText(a, c) <= 0
    ensures ComparePrereleaseText(a, b) == 0 <==> a == b
  {
    hide CompareLists, Split;
    ListsOrder(Split(a, '.'), Split(b, '.'), Split(c, '.'));
    JoinSplit(a, '.');
    JoinSplit(b, '.');
  }

  /** Comparing versions is a total order: reflexive, antisymmetric and transitive; and two versions compare equal
      exactly when their core and their prerelease text agree. */
  lemma VersionOrder(a: Version, b: Version, c: Version)
    ensures CompareVersions(a, b) == 0 <==> a == b
    ensures CompareVersions(a, b) == -CompareVersions(b, a)
    ensures CompareVersions(a, b) <= 0 && CompareVersions(b, c) <= 0 ==> CompareVersions(a, c) <= 0
  {
    hide CompareNumericIdentifier, ComparePrereleaseText;
    FieldOrder(a.major, b.major, c.major);
    FieldOrder(a.minor, b.minor, c.minor);
    FieldOrder(a.patch, b.patch, c.patch);
    PrereleaseOrder(a.prerelease, b.prerelease, c.prerelease);
  }

  lemma FieldOrder(a: string, b: string, c: string)
    ensures CompareNumericIdentifier(a, b) == 0 <==> a == b
    ensures CompareNumericIdentifier(b, c) == 0 <==> b == c
    ensures CompareNumericIdentifier(a, c) == 0 <==> a == c
    ensures CompareNumericIdentifier(a, b) == -CompareNumericIdentifier(b, a)
    ensures CompareNumericIdentifier(a, b) <= 0 && CompareNumericIdentifier(b, c) <= 0 ==> CompareNumericIdentifier(a, c) <= 0
  {
    NumericOrder(a, b, c);
  }
}
