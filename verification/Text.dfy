/** Byte strings as the Go code handles them: cutting, joining, decimal integers. */
module Text {

  datatype Option<+T> = None | Some(value: T)

  const MIN_INT64: int := -0x8000_0000_0000_0000
  const MAX_INT64: int := 0x7fff_ffff_ffff_ffff

  type int64 = i: int | MIN_INT64 <= i <= MAX_INT64

  // ----- Sequences -----

  lemma TailOfConcat<T>(a: seq<T>, b: seq<T>)
    requires a != []
    ensures a + b != [] && (a + b)[0] == a[0] && (a + b)[1..] == a[1..] + b
  {
  }

  lemma HeadAndTail<T>(s: seq<T>)
    requires s != []
    ensures s == [s[0]] + s[1..]
  {
  }

  lemma InitAndLast<T>(s: seq<T>)
    requires s != []
    ensures s == s[..|s| - 1] + [s[|s| - 1]]
  {
  }

  lemma Associative<T>(x: seq<T>, y: seq<T>, z: seq<T>)
    ensures x + (y + z) == (x + y) + z
  {
  }

  /** The sequence with one element put in at a position. */
  function Insert<T>(s: seq<T>, at: nat, x: T): (r: seq<T>)
    requires at <= |s|
    ensures |r| == |s| + 1
    ensures forall i | 0 <= i < |r| :: r[i] == if i < at then s[i] else if i == at then x else s[i - 1]
  {
    s[..at] + [x] + s[at..]
  }

  lemma InsertMembers<T>(s: seq<T>, at: nat, x: T)
    requires at <= |s|
    ensures forall y :: y in Insert(s, at, x) <==> y in s || y == x
  {
    var r := Insert(s, at, x);
    forall y | y in s || y == x ensures y in r {
      if y in s {
        var i :| 0 <= i < |s| && s[i] == y;
        assert r[if i < at then i else i + 1] == y;
      } else {
        assert r[at] == y;
      }
    }
  }

  // ----- Cutting and joining -----

  /** The position of the first `c`, or |s| when there is none. */
  function IndexOf(s: string, c: char): (i: nat)
    ensures i <= |s|
    ensures c !in s[..i]
    ensures i < |s| ==> s[i] == c
  {
    if s == [] || s[0] == c then 0 else 1 + IndexOf(s[1..], c)
  }

  /** A first occurrence is found where it is. */
  lemma IndexOfIs(s: string, c: char, k: nat)
    requires k <= |s| && c !in s[..k] && (k < |s| ==> s[k] == c)
    ensures IndexOf(s, c) == k
  {
    var i := IndexOf(s, c);
    assert forall j | 0 <= j < k :: s[j] == s[..k][j];
    assert forall j | 0 <= j < i :: s[j] == s[..i][j];
  }

  /** `a` holds no `c`, so a cut of `a + [c] + b` gives back `a` and `b`. */
  lemma CutJoined(a: string, c: char, b: string)
    requires c !in a
    ensures IndexOf(a + [c] + b, c) == |a|
    ensures (a + [c] + b)[..|a|] == a && (a + [c] + b)[|a| + 1..] == b
  {
    var s := a + [c] + b;
    assert s[..|a|] == a;
    IndexOfIs(s, c, |a|);
  }

  lemma CutAbsent(s: string, c: char)
    requires c !in s
    ensures IndexOf(s, c) == |s|
  {
    assert s[..|s|] == s;
    IndexOfIs(s, c, |s|);
  }

  /** The separated parts of a string, as repeated strings.Cut produces them. */
  function Split(s: string, c: char): (parts: seq<string>)
    ensures |parts| > 0
    decreases |s|
  {
    var i := IndexOf(s, c);
    if i == |s| then [s] else [s[..i]] + Split(s[i + 1..], c)
  }

  function Join(parts: seq<string>, c: char): string
    requires |parts| > 0
  {
    if |parts| == 1 then parts[0] else parts[0] + [c] + Join(parts[1..], c)
  }

  lemma {:induction false} JoinSplit(s: string, c: char)
    ensures Join(Split(s, c), c) == s
    decreases |s|
  {
    var i := IndexOf(s, c);
    if i == |s| {
    } else {
      JoinSplit(s[i + 1..], c);
      var rest := Split(s[i + 1..], c);
      assert ([s[..i]] + rest)[1..] == rest;
      assert s == s[..i] + [c] + s[i + 1..];
    }
  }

  lemma {:induction false} SplitJoin(parts: seq<string>, c: char)
    requires |parts| > 0
    requires forall p | p in parts :: c !in p
    ensures Split(Join(parts, c), c) == parts
  {
    if |parts| == 1 {
      CutAbsent(parts[0], c);
    } else {
      CutJoined(parts[0], c, Join(parts[1..], c));
      SplitJoin(parts[1..], c);
      HeadAndTail(parts);
    }
  }

  lemma {:induction false} SplitPartsFree(s: string, c: char)
    ensures forall p | p in Split(s, c) :: c !in p
    decreases |s|
  {
    var i := IndexOf(s, c);
    if i == |s| {
      assert s[..|s|] == s;
    } else {
      SplitPartsFree(s[i + 1..], c);
    }
  }

  // ----- Decimal integers -----

  predicate IsDigit(c: char) {
    '0' <= c <= '9'
  }

  predicate AllDigits(s: string) {
    forall i | 0 <= i < |s| :: IsDigit(s[i])
  }

  function DigitValue(c: char): (v: nat)
    requires IsDigit(c)
    ensures v < 10
  {
    c as int - '0' as int
  }

  function DigitChar(v: nat): (c: char)
    requires v < 10
    ensures IsDigit(c) && DigitValue(c) == v
  {
    (v + '0' as int) as char
  }

  /** The number a run of digits denotes, read from its last digit. */
  function DigitsValue(s: string): nat
    requires AllDigits(s)
  {
    if s == [] then 0
    else DigitsValue(s[..|s| - 1]) * 10 + DigitValue(s[|s| - 1])
  }

  /** The digits strconv writes for a non-negative number. */
  function Digits(n: nat): (s: string)
    ensures |s| > 0 && AllDigits(s)
    ensures |s| > 1 ==> s[0] != '0'
    ensures s[0] == '0' ==> n == 0
  {
    if n < 10 then [DigitChar(n)] else Digits(n / 10) + [DigitChar(n % 10)]
  }

  lemma {:induction false} DigitsRoundTrip(n: nat)
    ensures DigitsValue(Digits(n)) == n
  {
    if n >= 10 {
      DigitsRoundTrip(n / 10);
      var s := Digits(n);
      assert s[..|s| - 1] == Digits(n / 10);
    } else {
      var s := Digits(n);
      assert s[..|s| - 1] == [];
    }
  }

  function FormatInt(i: int): string {
    if i < 0 then "-" + Digits(-i) else Digits(i)
  }

  function Magnitude(s: string): Option<nat> {
    if |s| > 0 && AllDigits(s) then Some(DigitsValue(s)) else None
  }

  /** strconv.ParseInt(s, 10, 64): an optional sign, digits, and a range check. */
  function ParseInt64(s: string): Option<int64> {
    var negative := |s| > 0 && s[0] == '-';
    var digits := if |s| > 0 && (s[0] == '-' || s[0] == '+') then s[1..] else s;
    match Magnitude(digits)
    case None => None
    case Some(m) =>
      var v: int := if negative then -(m as int) else m as int;
      if MIN_INT64 <= v <= MAX_INT64 then Some(v) else None
  }

  lemma FormatIntParses(i: int64)
    ensures ParseInt64(FormatInt(i)) == Some(i)
  {
    var m: nat := if i < 0 then -(i as int) else i;
    DigitsRoundTrip(m);
    var digits := Digits(m);
    assert Magnitude(digits) == Some(m);
    assert IsDigit(digits[0]);
    hide Digits, DigitsValue, Magnitude;
    TailOfConcat("-", digits);
    assert "-"[1..] + digits == digits;
  }

  /** Two numbers with the same spelling are the same number. */
  lemma FormatIntInjective(i: int64, j: int64)
    requires FormatInt(i) == FormatInt(j)
    ensures i == j
  {
    FormatIntParses(i);
    FormatIntParses(j);
  }

  // ----- Byte order -----

  /** strings.Compare. */
  function Compare(a: string, b: string): (r: int)
    ensures -1 <= r <= 1
    ensures r == 0 <==> a == b
  {
    if a == [] then (if b == [] then 0 else -1)
    else if b == [] then 1
    else if a[0] < b[0] then -1
    else if a[0] > b[0] then 1
    else
      assert a == [a[0]] + a[1..] && b == [b[0]] + b[1..];
      Compare(a[1..], b[1..])
  }

  lemma {:induction false} CompareAntisymmetric(a: string, b: string)
    ensures Compare(a, b) == -Compare(b, a)
  {
    if a != [] && b != [] {
      CompareAntisymmetric(a[1..], b[1..]);
    }
  }

  lemma {:induction false} CompareTransitive(a: string, b: string, c: string)
    requires Compare(a, b) <= 0 && Compare(b, c) <= 0
    ensures Compare(a, c) <= 0
    ensures Compare(a, c) == 0 ==> Compare(a, b) == 0 && Compare(b, c) == 0
  {
    if a != [] && b != [] && c != [] {
      if a[0] == b[0] == c[0] {
        CompareTransitive(a[1..], b[1..], c[1..]);
      }
    }
  }

  /** Strictly ascending, hence free of repeats. */
  predicate Ascending(names: seq<string>) {
    forall i, j | 0 <= i < j < |names| :: Compare(names[i], names[j]) < 0
  }

  lemma AscendingTail(names: seq<string>)
    requires Ascending(names) && names != []
    ensures Ascending(names[1..]) && names[0] !in names[1..]
    ensures forall n | n in names[1..] :: n in names
    ensures {names[0]} + (set n | n in names[1..]) == set n | n in names
  {
    hide Compare;
    var rest := names[1..];
    forall i, j | 0 <= i < j < |rest| ensures Compare(rest[i], rest[j]) < 0 {
      assert rest[i] == names[i + 1] && rest[j] == names[j + 1];
    }
    forall i | 0 <= i < |rest| ensures rest[i] != names[0] {
      assert rest[i] == names[i + 1] && Compare(names[0], names[i + 1]) < 0;
      CompareSame(names[0]);
    }
    HeadAndTail(names);
  }

  lemma CompareSame(a: string)
    ensures Compare(a, a) == 0
  {
  }
}
