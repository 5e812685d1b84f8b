/** Decimal rendering of integers and the number parsers `parseInt` / `parseFloat` of JavaScript,
    over unbounded integers and exact decimals (`real`). `None` stands for `NaN`. */
module Numbers {
  import opened Basics
  import opened Text

  function DigitValue(c: char): (d: nat)
    requires IsDigit(c)
    ensures d < 10
  {
    c as int - '0' as int
  }

  function DigitChar(d: nat): (c: char)
    requires d < 10
    ensures IsDigit(c) && DigitValue(c) == d
  {
    ('0' as int + d) as char
  }

  predicate AllDigits(s: string) {
    forall k :: 0 <= k < |s| ==> IsDigit(s[k])
  }

  /** The value of a string of decimal digits, most significant first. */
  function DigitsValue(s: string): nat
    requires AllDigits(s)
    decreases |s|
  {
    if s == [] then 0 else DigitsValue(s[..|s| - 1]) * 10 + DigitValue(s[|s| - 1])
  }

  /** `Number.prototype.toString()` of a non-negative integer: its decimal digits, without
      leading zeros. */
  function NatToString(n: nat): (r: string)
    ensures |r| >= 1 && AllDigits(r)
    ensures r[0] == '0' ==> n == 0 && r == "0"
    ensures DigitsValue(r) == n
    decreases n
  {
    if n < 10 then
      var r := [DigitChar(n)];
      assert r[..0] == [];
      r
    else
      var p := NatToString(n / 10);
      var r := p + [DigitChar(n % 10)];
      assert r[..|r| - 1] == p;
      r
  }

  /** `Number.prototype.toString()` of an integer. */
  function IntToString(i: int): (r: string)
    ensures |r| >= 1
    ensures i >= 0 ==> r == NatToString(i)
    ensures i < 0 ==> r == "-" + NatToString(-i)
  {
    if i < 0 then "-" + NatToString(-i) else NatToString(i)
  }

  predicate IsHexDigit(c: char) {
    IsDigit(c) || 'a' <= c <= 'f' || 'A' <= c <= 'F'
  }

  function HexDigitValue(c: char): (d: nat)
    requires IsHexDigit(c)
    ensures d < 16
  {
    if IsDigit(c) then DigitValue(c)
    else if 'a' <= c <= 'f' then c as int - 'a' as int + 10
    else c as int - 'A' as int + 10
  }

  function HexDigitsValue(s: string): nat
    requires forall k :: 0 <= k < |s| ==> IsHexDigit(s[k])
    decreases |s|
  {
    if s == [] then 0 else HexDigitsValue(s[..|s| - 1]) * 16 + HexDigitValue(s[|s| - 1])
  }

  /** The index after an optional sign at `i`, and whether the sign was a minus. */
  function SignAt(s: string, i: nat): (r: (bool, nat))
    requires i <= |s|
    ensures r.1 <= |s|
    ensures r.1 == i || (r.1 == i + 1 && (s[i] == '-' || s[i] == '+'))
    ensures r.0 <==> r.1 == i + 1 && s[i] == '-'
  {
    if i < |s| && s[i] == '-' then (true, i + 1)
    else if i < |s| && s[i] == '+' then (false, i + 1)
    else (false, i)
  }

  function Signed(negative: bool, v: int): int {
    if negative then -v else v
  }

  /** A run of digits is a digit string. */
  lemma RunIsDigits(s: string, j: nat)
    requires j <= |s|
    ensures AllDigits(s[j..RunEnd(s, j, IsDigit)])
  {
    var e := RunEnd(s, j, IsDigit);
    forall k | 0 <= k < e - j ensures IsDigit(s[j..e][k]) {
      assert s[j..e][k] == s[j + k];
    }
  }

  /** A run of hexadecimal digits is a hexadecimal digit string. */
  lemma RunIsHexDigits(s: string, j: nat)
    requires j <= |s|
    ensures var e := RunEnd(s, j, IsHexDigit); forall k :: 0 <= k < e - j ==> IsHexDigit(s[j..e][k])
  {
    var e := RunEnd(s, j, IsHexDigit);
    forall k | 0 <= k < e - j ensures IsHexDigit(s[j..e][k]) {
      assert s[j..e][k] == s[j + k];
    }
  }

  /** JavaScript `parseInt(s)` with no radix: leading white space is skipped, an optional sign is
      read, a `0x`/`0X` prefix selects base 16, and the longest run of digits that follows is the
      value; without any digit the result is `NaN`. */
  function ParseInt(s: string): (r: Option<int>)
    ensures s != [] && AllDigits(s) ==> r == Some(DigitsValue(s))
  {
    var i := RunEnd(s, 0, IsSpace);
    var (negative, j) := SignAt(s, i);
    if j + 1 < |s| && s[j] == '0' && (s[j + 1] == 'x' || s[j + 1] == 'X') then
      var e := RunEnd(s, j + 2, IsHexDigit);
      RunIsHexDigits(s, j + 2);
      if e == j + 2 then None else Some(Signed(negative, HexDigitsValue(s[j + 2..e])))
    else
      var e := RunEnd(s, j, IsDigit);
      RunIsDigits(s, j);
      assert s != [] && AllDigits(s) ==> i == 0 && j == 0 && e == |s| && s[j..e] == s;
      if e == j then None else Some(Signed(negative, DigitsValue(s[j..e])))
  }

  /** Decimal rendering followed by `parseInt` gives the integer back. */
  lemma ParseIntRoundTrip(i: int)
    ensures ParseInt(IntToString(i)) == Some(i)
  {
    var s := IntToString(i);
    var digits := NatToString(if i < 0 then -i else i);
    var start := if i < 0 then 1 else 0;
    assert s[start..] == digits;
    assert !IsSpace(s[0]);
    RunEndIs(s, 0, 0, IsSpace);
    RunEndIs(s, start, |s|, IsDigit);
    assert s[start..|s|] == digits;
  }

  /** `s[..i]` is white space and `s[i]`, if any, is not: the blanks the parsers skip. */
  predicate LeadingBlanks(s: string, i: nat) {
    && i <= |s|
    && (forall k :: 0 <= k < i ==> IsSpace(s[k]))
    && (i == |s| || !IsSpace(s[i]))
  }

  /** `s[i..j]` is the optional sign read at `i`: one `-` or `+`, or nothing when neither is
      there. */
  predicate SignSpan(s: string, i: nat, j: nat) {
    || (j == i + 1 && j <= |s| && (s[i] == '-' || s[i] == '+'))
    || (j == i && (i == |s| || (i < |s| && s[i] != '-' && s[i] != '+')))
  }

  /** Whether the sign `s[i..j]` is a minus. */
  predicate Minus(s: string, i: nat, j: nat) {
    j == i + 1 && j <= |s| && s[i] == '-'
  }

  /** The blanks and the sign read by both parsers. */
  lemma Lead(s: string, i: nat, j: nat)
    requires LeadingBlanks(s, i) && SignSpan(s, i, j)
    ensures RunEnd(s, 0, IsSpace) == i && SignAt(s, i) == (Minus(s, i, j), j)
  {
    RunEndIs(s, 0, i, IsSpace);
  }

  /** `parseInt` reads the decimal digits `s[j..e]` after the blanks and the sign, up to the first
      non-digit, unless the digits are a lone `0` followed by `x` or `X`. */
  lemma ParseIntDecimal(s: string, i: nat, j: nat, e: nat)
    requires LeadingBlanks(s, i) && SignSpan(s, i, j)
    requires j < e <= |s| && forall k :: j <= k < e ==> IsDigit(s[k])
    requires e == |s| || !IsDigit(s[e])
    requires !(e == j + 1 && s[j] == '0' && e < |s| && (s[e] == 'x' || s[e] == 'X'))
    ensures AllDigits(s[j..e])
    ensures ParseInt(s) == Some(Signed(Minus(s, i, j), DigitsValue(s[j..e])))
  {
    Lead(s, i, j);
    RunEndIs(s, j, e, IsDigit);
    RunIsDigits(s, j);
  }

  /** `parseInt` reads the hexadecimal digits `s[j + 2..e]` after the blanks, the sign and `0x`
      or `0X`, up to the first other character; `0x` with no digit after it is `NaN`. */
  lemma ParseIntHex(s: string, i: nat, j: nat, e: nat)
    requires LeadingBlanks(s, i) && SignSpan(s, i, j)
    requires j + 2 <= e <= |s| && s[j] == '0' && (s[j + 1] == 'x' || s[j + 1] == 'X')
    requires forall k :: j + 2 <= k < e ==> IsHexDigit(s[k])
    requires e == |s| || !IsHexDigit(s[e])
    ensures var hex := s[j + 2..e]; forall k :: 0 <= k < |hex| ==> IsHexDigit(hex[k])
    ensures ParseInt(s) == if e == j + 2 then None else Some(Signed(Minus(s, i, j), HexDigitsValue(s[j + 2..e])))
  {
    Lead(s, i, j);
    RunEndIs(s, j + 2, e, IsHexDigit);
    RunIsHexDigits(s, j + 2);
  }

  /** `parseInt` is `NaN` when no digit follows the blanks and the sign. */
  lemma ParseIntNoDigits(s: string, i: nat, j: nat)
    requires LeadingBlanks(s, i) && SignSpan(s, i, j)
    requires j == |s| || !IsDigit(s[j])
    ensures ParseInt(s) == None
  {
    Lead(s, i, j);
    RunEndIs(s, j, j, IsDigit);
  }

  function Pow10(n: nat): (r: nat)
    ensures r >= 1
  {
    if n == 0 then 1 else 10 * Pow10(n - 1)
  }

  /** The exponent part `[eE][+-]?digits` at index `i`, if a complete one is there, with the
      index after it. */
  function ExponentAt(s: string, i: nat): (r: Option<(int, nat)>)
    requires i <= |s|
    ensures r.Some? ==> i < r.value.1 <= |s|
    ensures i == |s| ==> r.None?
  {
    if i < |s| && (s[i] == 'e' || s[i] == 'E') then
      var (negative, j) := SignAt(s, i + 1);
      var e := RunEnd(s, j, IsDigit);
      RunIsDigits(s, j);
      if e == j then None else Some((Signed(negative, DigitsValue(s[j..e])), e))
    else None
  }

  function Scale(exponent: int): (r: real)
    ensures r > 0.0
  {
    if exponent >= 0 then Pow10(exponent) as real else 1.0 / Pow10(-exponent) as real
  }

  /** The value of `k` digits read after a decimal point, as the integer `n` they spell. */
  function Fraction(n: nat, k: nat): real {
    n as real / Pow10(k) as real
  }

  /** The decimal mantissa `digits* (. digits*)?` at index `j`, when it holds at least one digit,
      with the index after it. */
  function MantissaAt(s: string, j: nat): (r: Option<(real, nat)>)
    requires j <= |s|
    ensures r.Some? ==> j < r.value.1 <= |s|
  {
    var a := RunEnd(s, j, IsDigit);
    var hasDot := a < |s| && s[a] == '.';
    var b := if hasDot then RunEnd(s, a + 1, IsDigit) else a;
    var fraction := if hasDot then s[a + 1..b] else "";
    RunIsDigits(s, j);
    assert hasDot ==> AllDigits(fraction) by {
      if hasDot {
        RunIsDigits(s, a + 1);
      }
    }
    if a == j && fraction == "" then None
    else Some((MantissaValue(s[j..a], fraction), b))
  }

  /** The value of whole digits and, read after a decimal point, fraction digits. */
  function MantissaValue(whole: string, fraction: string): real
    requires AllDigits(whole) && AllDigits(fraction)
  {
    DigitsValue(whole) as real + Fraction(DigitsValue(fraction), |fraction|)
  }

  /** JavaScript `parseFloat(s)` on exact decimals: leading white space is skipped, then the
      longest prefix of the form sign? digits* (. digits*)? exponent? with at least one digit is
      read; without such a prefix the result is `NaN`. */
  function ParseFloat(s: string): (r: Option<real>)
    ensures s != [] && AllDigits(s) ==> r == Some(DigitsValue(s) as real)
  {
    var i := RunEnd(s, 0, IsSpace);
    var (negative, j) := SignAt(s, i);
    assert s != [] && AllDigits(s) ==>
      i == 0 && j == 0 && RunEnd(s, j, IsDigit) == |s| && s[j..|s|] == s && MantissaAt(s, j) == Some((DigitsValue(s) as real, |s|));
    match MantissaAt(s, j)
    case None => None
    case Some((mantissa, b)) => Some(SignedReal(negative, WithExponent(mantissa, ExponentAt(s, b))))
  }

  function SignedReal(negative: bool, v: real): real {
    if negative then -v else v
  }

  /** The mantissa scaled by the exponent part, when a complete one follows it. */
  function WithExponent(mantissa: real, exponent: Option<(int, nat)>): real {
    match exponent
    case None => mantissa
    case Some((e, _)) => Scaled(mantissa, e)
  }

  /** `mantissa` times ten to the power `exponent`. */
  function Scaled(mantissa: real, exponent: int): real {
    mantissa * Scale(exponent)
  }

  /** `parseFloat` once the blanks, the sign and the mantissa are read. */
  lemma ParseFloatAt(s: string, i: nat, j: nat, m: real, b: nat)
    requires LeadingBlanks(s, i) && SignSpan(s, i, j)
    requires MantissaAt(s, j) == Some((m, b))
    ensures ParseFloat(s) == Some(SignedReal(Minus(s, i, j), WithExponent(m, ExponentAt(s, b))))
  {
    Lead(s, i, j);
  }

  /** A mantissa of whole digits `s[j..a]` only, not followed by a digit or a point. */
  lemma MantissaWholeAt(s: string, j: nat, a: nat)
    requires j < a <= |s| && forall k :: j <= k < a ==> IsDigit(s[k])
    requires a == |s| || (!IsDigit(s[a]) && s[a] != '.')
    ensures AllDigits(s[j..a]) && MantissaAt(s, j) == Some((DigitsValue(s[j..a]) as real, a))
  {
    RunEndIs(s, j, a, IsDigit);
    RunIsDigits(s, j);
    assert Fraction(0, 0) == 0.0;
  }

  /** A mantissa `s[j..a] . s[a + 1..b]` with a point and at least one digit, not followed by a
      digit. */
  lemma MantissaPointAt(s: string, j: nat, a: nat, b: nat)
    requires j <= a < b <= |s| && s[a] == '.'
    requires forall k :: j <= k < a ==> IsDigit(s[k])
    requires forall k :: a + 1 <= k < b ==> IsDigit(s[k])
    requires j < a || a + 1 < b
    requires b == |s| || !IsDigit(s[b])
    ensures AllDigits(s[j..a]) && AllDigits(s[a + 1..b])
    ensures MantissaAt(s, j) == Some((MantissaValue(s[j..a], s[a + 1..b]), b))
  {
    RunEndIs(s, j, a, IsDigit);
    RunEndIs(s, a + 1, b, IsDigit);
    RunIsDigits(s, j);
    RunIsDigits(s, a + 1);
  }

  /** `parseFloat` reads the whole digits `s[j..a]` after the blanks and the sign when no point,
      digit or exponent mark follows them. */
  lemma ParseFloatInteger(s: string, i: nat, j: nat, a: nat)
    requires LeadingBlanks(s, i) && SignSpan(s, i, j)
    requires j < a <= |s| && forall k :: j <= k < a ==> IsDigit(s[k])
    requires a == |s| || (!IsDigit(s[a]) && s[a] != '.' && s[a] != 'e' && s[a] != 'E')
    ensures AllDigits(s[j..a])
    ensures ParseFloat(s) == Some(SignedReal(Minus(s, i, j), DigitsValue(s[j..a]) as real))
  {
    MantissaWholeAt(s, j, a);
    assert ExponentAt(s, a) == None;
    ParseFloatAt(s, i, j, DigitsValue(s[j..a]) as real, a);
  }

  /** `parseFloat` reads `s[j..a] . s[a + 1..b]` after the blanks and the sign when no digit or
      exponent mark follows; either digit string may be empty, not both. */
  lemma ParseFloatPoint(s: string, i: nat, j: nat, a: nat, b: nat)
    requires LeadingBlanks(s, i) && SignSpan(s, i, j)
    requires j <= a < b <= |s| && s[a] == '.'
    requires forall k :: j <= k < a ==> IsDigit(s[k])
    requires forall k :: a + 1 <= k < b ==> IsDigit(s[k])
    requires j < a || a + 1 < b
    requires b == |s| || (!IsDigit(s[b]) && s[b] != 'e' && s[b] != 'E')
    ensures AllDigits(s[j..a]) && AllDigits(s[a + 1..b])
    ensures ParseFloat(s) == Some(SignedReal(Minus(s, i, j), MantissaValue(s[j..a], s[a + 1..b])))
  {
    MantissaPointAt(s, j, a, b);
    assert ExponentAt(s, b) == None;
    ParseFloatAt(s, i, j, MantissaValue(s[j..a], s[a + 1..b]), b);
  }

  /** The complete exponent `e`/`E`, an optional sign `s[a + 1..c]` and the digits `s[c..d]`. */
  lemma ExponentIs(s: string, a: nat, c: nat, d: nat)
    requires a < |s| && (s[a] == 'e' || s[a] == 'E') && SignSpan(s, a + 1, c)
    requires c < d <= |s| && forall k :: c <= k < d ==> IsDigit(s[k])
    requires d == |s| || !IsDigit(s[d])
    ensures AllDigits(s[c..d])
    ensures ExponentAt(s, a) == Some((Signed(Minus(s, a + 1, c), DigitsValue(s[c..d])), d))
  {
    RunEndIs(s, c, d, IsDigit);
    RunIsDigits(s, c);
  }

  /** `parseFloat` reads the whole digits `s[j..a]` followed by a complete exponent with the
      digits `s[c..d]`: the digits scaled by that power of ten. */
  lemma ParseFloatExponent(s: string, i: nat, j: nat, a: nat, c: nat, d: nat)
    requires LeadingBlanks(s, i) && SignSpan(s, i, j)
    requires j < a < |s| && forall k :: j <= k < a ==> IsDigit(s[k])
    requires (s[a] == 'e' || s[a] == 'E') && SignSpan(s, a + 1, c)
    requires c < d <= |s| && forall k :: c <= k < d ==> IsDigit(s[k])
    requires d == |s| || !IsDigit(s[d])
    ensures AllDigits(s[j..a]) && AllDigits(s[c..d])
    ensures var exponent := Signed(Minus(s, a + 1, c), DigitsValue(s[c..d]));
            ParseFloat(s) == Some(SignedReal(Minus(s, i, j), Scaled(DigitsValue(s[j..a]) as real, exponent)))
  {
    MantissaWholeAt(s, j, a);
    ExponentIs(s, a, c, d);
    var m := DigitsValue(s[j..a]) as real;
    ParseFloatAt(s, i, j, m, a);
  }

  /** `parseFloat` reads `s[j..p] . s[p + 1..a]` followed by a complete exponent with the digits
      `s[c..d]`: the decimal scaled by that power of ten. */
  lemma ParseFloatPointExponent(s: string, i: nat, j: nat, p: nat, a: nat, c: nat, d: nat)
    requires LeadingBlanks(s, i) && SignSpan(s, i, j)
    requires j <= p < a < |s| && s[p] == '.'
    requires forall k :: j <= k < p ==> IsDigit(s[k])
    requires forall k :: p + 1 <= k < a ==> IsDigit(s[k])
    requires j < p || p + 1 < a
    requires (s[a] == 'e' || s[a] == 'E') && SignSpan(s, a + 1, c)
    requires c < d <= |s| && forall k :: c <= k < d ==> IsDigit(s[k])
    requires d == |s| || !IsDigit(s[d])
    ensures AllDigits(s[j..p]) && AllDigits(s[p + 1..a]) && AllDigits(s[c..d])
    ensures var exponent := Signed(Minus(s, a + 1, c), DigitsValue(s[c..d]));
            ParseFloat(s) == Some(SignedReal(Minus(s, i, j), Scaled(MantissaValue(s[j..p], s[p + 1..a]), exponent)))
  {
    MantissaPointAt(s, j, p, a);
    ExponentIs(s, a, c, d);
    ParseFloatAt(s, i, j, MantissaValue(s[j..p], s[p + 1..a]), a);
  }

  /** `parseFloat` is `NaN` when the blanks and the sign are followed neither by a digit nor by a
      point with a digit after it. */
  lemma ParseFloatNoDigits(s: string, i: nat, j: nat)
    requires LeadingBlanks(s, i) && SignSpan(s, i, j)
    requires j == |s| || !IsDigit(s[j])
    requires j + 1 < |s| && s[j] == '.' ==> !IsDigit(s[j + 1])
    ensures ParseFloat(s) == None
  {
    Lead(s, i, j);
    RunEndIs(s, j, j, IsDigit);
    if j < |s| && s[j] == '.' {
      RunEndIs(s, j + 1, j + 1, IsDigit);
    }
  }

  lemma DigitsValueTwo(c1: char, c2: char)
    requires IsDigit(c1) && IsDigit(c2)
    ensures DigitsValue([c1, c2]) == 10 * DigitValue(c1) + DigitValue(c2)
  {
    assert [c1, c2][..1] == [c1];
    assert [c1][..0] == [];
    assert DigitsValue([c1]) == DigitValue(c1);
  }

  lemma DigitsValueThree(c1: char, c2: char, c3: char)
    requires IsDigit(c1) && IsDigit(c2) && IsDigit(c3)
    ensures DigitsValue([c1, c2, c3]) == 100 * DigitValue(c1) + 10 * DigitValue(c2) + DigitValue(c3)
  {
    assert [c1, c2, c3][..2] == [c1, c2];
    DigitsValueTwo(c1, c2);
  }

  /** The three decimal digits of a number below 1000. */
  lemma ThreeDigitSplit(f: nat)
    requires f < 1000
    ensures f / 100 < 10 && f == 100 * (f / 100) + 10 * (f / 10 % 10) + f % 10
  {
  }

  /** The digits of the thousandths `f` after a decimal point, without trailing zeros. */
  function ThousandthsDigits(f: nat): (r: string)
    requires 0 < f < 1000
    ensures 1 <= |r| <= 3 && AllDigits(r) && r[|r| - 1] != '0'
    ensures DigitsValue(r) * Pow10(3 - |r|) == f
  {
    var d1, d2, d3 := f / 100, f / 10 % 10, f % 10;
    ThreeDigitSplit(f);
    if d3 != 0 then
      var r := [DigitChar(d1), DigitChar(d2), DigitChar(d3)];
      DigitsValueThree(r[0], r[1], r[2]);
      assert Pow10(0) == 1;
      r
    else if d2 != 0 then
      var r := [DigitChar(d1), DigitChar(d2)];
      DigitsValueTwo(r[0], r[1]);
      assert DigitsValue(r) * Pow10(1) == f by {
        assert Pow10(1) == 10;
      }
      r
    else
      var r := [DigitChar(d1)];
      assert r[..0] == [];
      assert DigitsValue(r) * Pow10(2) == f by {
        assert DigitsValue(r) == d1;
        assert Pow10(2) == 100 by { assert Pow10(1) == 10; }
      }
      r
  }

  /** `(n / 1000).toString()` for an integer `n >= 0`: the integer part, and when the quotient is
      not whole a point followed by the thousandths without trailing zeros. */
  function ThousandthsText(n: nat): (r: string)
    ensures |r| >= 1
  {
    if n % 1000 == 0 then NatToString(n / 1000)
    else NatToString(n / 1000) + "." + ThousandthsDigits(n % 1000)
  }

  /** `parseFloat` of a string that starts with a digit and is one mantissa throughout. */
  lemma ParseFloatPlain(s: string, m: real)
    requires |s| >= 1 && IsDigit(s[0]) && MantissaAt(s, 0) == Some((m, |s|))
    ensures ParseFloat(s) == Some(m)
  {
    RunEndIs(s, 0, 0, IsSpace);
    assert SignAt(s, 0) == (false, 0);
  }

  /** The mantissa of `whole + "." + fraction` is the whole digits plus the scaled fraction. */
  lemma MantissaDecimal(whole: string, fraction: string)
    requires |whole| >= 1 && AllDigits(whole) && |fraction| >= 1 && AllDigits(fraction)
    ensures var s := whole + "." + fraction;
            MantissaAt(s, 0) == Some((DigitsValue(whole) as real + Fraction(DigitsValue(fraction), |fraction|), |s|))
  {
    var s := whole + "." + fraction;
    var a := |whole|;
    assert s[0..a] == whole;
    assert s[a + 1..|s|] == fraction;
    forall k | 0 <= k < a ensures IsDigit(s[k]) {
      assert s[k] == whole[k];
    }
    forall k | a + 1 <= k < |s| ensures IsDigit(s[k]) {
      assert s[k] == fraction[k - (a + 1)];
    }
    MantissaPointAt(s, 0, a, |s|);
  }

  /** The value `parseFloat` reads back from `whole + "." + fraction`. */
  lemma ParseFloatDecimal(whole: string, fraction: string)
    requires |whole| >= 1 && AllDigits(whole) && |fraction| >= 1 && AllDigits(fraction)
    ensures ParseFloat(whole + "." + fraction)
            == Some(DigitsValue(whole) as real + Fraction(DigitsValue(fraction), |fraction|))
  {
    var s := whole + "." + fraction;
    MantissaDecimal(whole, fraction);
    assert s[0] == whole[0];
    ParseFloatPlain(s, DigitsValue(whole) as real + Fraction(DigitsValue(fraction), |fraction|));
  }

  /** Reading back the rendering of a whole number of litres. */
  lemma ParseFloatWhole(whole: string)
    requires |whole| >= 1 && AllDigits(whole)
    ensures ParseFloat(whole) == Some(DigitsValue(whole) as real)
  {
  }

  /** The thousandths `f` rendered with `k` digits after dropping trailing zeros. */
  lemma FractionDigits(f: nat, fr: string)
    requires 0 < f < 1000 && 1 <= |fr| <= 3 && AllDigits(fr)
    requires DigitsValue(fr) * Pow10(3 - |fr|) == f
    ensures Fraction(DigitsValue(fr), |fr|) == f as real / 1000.0
  {
    assert Pow10(0) == 1 && Pow10(1) == 10 && Pow10(2) == 100 && Pow10(3) == 1000;
  }

  lemma ThousandthsSplit(n: nat)
    ensures n as real / 1000.0 == (n / 1000) as real + (n % 1000) as real / 1000.0
  {
    var q, f := n / 1000, n % 1000;
    assert n == q * 1000 + f;
    assert n as real == q as real * 1000.0 + f as real;
  }

  /** The ml-to-litre rendering reads back, through `parseFloat`, as exactly `n / 1000`. */
  lemma ThousandthsRoundTrip(n: nat)
    ensures ParseFloat(ThousandthsText(n)) == Some(n as real / 1000.0)
  {
    if n % 1000 == 0 {
      WholeLitresRoundTrip(n);
    } else {
      PartLitresRoundTrip(n);
    }
  }

  lemma WholeLitresRoundTrip(n: nat)
    requires n % 1000 == 0
    ensures ParseFloat(ThousandthsText(n)) == Some(n as real / 1000.0)
  {
    ThousandthsSplit(n);
    var whole := NatToString(n / 1000);
    ParseFloatWhole(whole);
  }

  lemma PartLitresRoundTrip(n: nat)
    requires n % 1000 != 0
    ensures ParseFloat(ThousandthsText(n)) == Some(n as real / 1000.0)
  {
    var whole, fr := NatToString(n / 1000), ThousandthsDigits(n % 1000);
    PartLitresValue(n);
    assert ThousandthsText(n) == whole + "." + fr;
    ParseFloatDecimal(whole, fr);
  }

  /** The value of the whole and fraction digits of a rendering that is not whole. */
  lemma PartLitresValue(n: nat)
    requires n % 1000 != 0
    ensures var fr := ThousandthsDigits(n % 1000);
            DigitsValue(NatToString(n / 1000)) as real + Fraction(DigitsValue(fr), |fr|) == n as real / 1000.0
  {
    FractionDigits(n % 1000, ThousandthsDigits(n % 1000));
    ThousandthsSplit(n);
  }
}
