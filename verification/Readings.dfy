/** How scalars read as integers and as texts, told from their spellings. */
module Readings {
  import opened Text
  import opened Values

  function Zeros(k: nat): string {
    seq(k, _ => '0')
  }

  /** An optional sign, any zeros, and the digits of the number, which an int64 can hold. */
  predicate PlainAt(spelling: string, i: int64, sign: string, k: nat) {
    && sign in {"", "+", "-"} && (if sign == "-" then i <= 0 else i >= 0)
    && spelling == sign + Zeros(k) + Digits(if i < 0 then -(i as int) else i as int)
  }

  ghost predicate Plain(spelling: string, i: int64) {
    exists sign, k :: PlainAt(spelling, i, sign, k)
  }

  lemma {:induction false} ZerosValue(k: nat, digits: string)
    requires AllDigits(digits)
    ensures AllDigits(Zeros(k) + digits) && DigitsValue(Zeros(k) + digits) == DigitsValue(digits)
    decreases |digits|, k
  {
    var s := Zeros(k) + digits;
    if digits == [] {
      if k > 0 {
        ZerosValue(k - 1, []);
        assert s[..|s| - 1] == Zeros(k - 1) + [];
      }
    } else {
      ZerosValue(k, digits[..|digits| - 1]);
      assert s[..|s| - 1] == Zeros(k) + digits[..|digits| - 1];
    }
  }

  /** Digits are zeros and then the digits of the number they denote. */
  lemma {:induction false} DigitsSplit(s: string) returns (k: nat)
    requires s != [] && AllDigits(s)
    ensures s == Zeros(k) + Digits(DigitsValue(s))
  {
    var n := |s| - 1;
    var last := DigitValue(s[n]);
    assert DigitChar(last) == s[n];
    if n == 0 {
      k := 0;
      assert s[..0] == [] && s == [DigitChar(last)];
      assert DigitsValue(s[..0]) == 0;
      assert Zeros(0) + Digits(last) == s;
    } else {
      var front := DigitsValue(s[..n]);
      var j := DigitsSplit(s[..n]);
      assert s == s[..n] + [s[n]];
      if front == 0 {
        k := n;
        ZeroDigits(s[..n], j);
        assert Digits(DigitsValue(s)) == [s[n]];
      } else {
        k := j;
        assert DigitsValue(s) / 10 == front && DigitsValue(s) % 10 == last;
        assert Digits(DigitsValue(s)) == Digits(front) + [s[n]];
      }
    }
  }

  lemma ZeroDigits(s: string, j: nat)
    requires s == Zeros(j) + Digits(0)
    ensures s == Zeros(|s|)
  {
    assert Digits(0) == ['0'];
  }

  lemma PlainParses(spelling: string, i: int64)
    ensures ParseInt64(spelling) == Some(i) <==> Plain(spelling, i)
  {
    if ParseInt64(spelling) == Some(i) {
      ParsedIsPlain(spelling, i);
    }
    if sign, k :| PlainAt(spelling, i, sign, k) {
      PlainIsParsed(spelling, i, sign, k);
    }
  }

  lemma ParsedIsPlain(spelling: string, i: int64)
    requires ParseInt64(spelling) == Some(i)
    ensures Plain(spelling, i)
  {
    var signed := spelling[0] == '-' || spelling[0] == '+';
    var sign, digits := if signed then spelling[..1] else "", if signed then spelling[1..] else spelling;
    var k := DigitsSplit(digits);
    assert spelling == sign + digits;
    assert signed ==> sign == [spelling[0]];
    Associative(sign, Zeros(k), Digits(DigitsValue(digits)));
    assert PlainAt(spelling, i, sign, k);
  }

  lemma PlainIsParsed(spelling: string, i: int64, sign: string, k: nat)
    requires PlainAt(spelling, i, sign, k)
    ensures ParseInt64(spelling) == Some(i)
  {
    var m: nat := if i < 0 then -(i as int) else i as int;
    var digits := Zeros(k) + Digits(m);
    ZerosValue(k, Digits(m));
    DigitsRoundTrip(m);
    Associative(sign, Zeros(k), Digits(m));
    assert spelling == sign + digits;
    assert IsDigit(digits[0]);
    if sign != "" {
      assert spelling[0] == sign[0] && spelling[1..] == digits;
    } else {
      assert spelling == digits && spelling[0] == digits[0];
    }
  }

  /** An integer is read from a Go integer, from a plain spelling of it, and from a spelling with a fraction or an
      exponent that is exactly that integer; and from nothing else. */
  lemma IntegerRead(decimal: Decimal, v: Value, i: int64)
    ensures AsInteger(decimal, v) == Some(i) <==>
      match v
      case Int(j) => i == j
      case Number(spelling) =>
        || Plain(spelling, i)
        || ((forall j: int64 :: !Plain(spelling, j)) && ('.' in spelling || 'e' in spelling || 'E' in spelling)
            && decimal(spelling) == Some(i))
      case _ => false
  {
    if v.Number? {
      forall j: int64 ensures ParseInt64(v.spelling) == Some(j) <==> Plain(v.spelling, j) {
        PlainParses(v.spelling, j);
      }
      hide ParseInt64, Plain;
    }
  }

  /** Writing an integer out loses nothing, whether it is then held as a number's spelling or not. */
  lemma IntegerRoundTrip(decimal: Decimal, i: int64)
    ensures FormatScalar(Int(i)) == FormatScalar(Number(FormatInt(i))) == Some(FormatInt(i))
    ensures AsInteger(decimal, Number(FormatInt(i))) == Some(i) == AsInteger(decimal, Int(i))
  {
    FormatIntParses(i);
    hide ParseInt64;
  }
}
