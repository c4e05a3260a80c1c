/**
 * The numeric conversion of a captured amount or balance:
 * `parseFloat(capture.replace(',', ''))`, computed exactly. `None` stands for
 * JavaScript's `NaN`; IEEE-754 rounding is not modelled.
 */
module Numeric {

  import opened Wrappers
  import opened Text

  /** Text made only of the characters a number capture can hold: digits, commas and dots. */
  predicate NumericText(t: string) {
    forall k :: 0 <= k < |t| ==> IsNumberChar(t[k])
  }

  predicate DigitText(d: string) {
    forall k :: 0 <= k < |d| ==> IsDigit(d[k])
  }

  /** The position of the first comma in `t`, or `|t|` when there is none. */
  function FirstComma(t: string): (i: nat)
    ensures i <= |t| && ',' !in t[..i]
    ensures i < |t| ==> t[i] == ','
    decreases |t|
  {
    if t == [] || t[0] == ',' then 0
    else
      var i := 1 + FirstComma(t[1..]);
      assert t[..i] == [t[0]] + t[1..][..i - 1];
      i
  }

  /** `t.replace(',', '')`: with a string pattern only the first occurrence is replaced. */
  function RemoveFirstComma(t: string): (r: string)
    ensures ',' !in t ==> r == t
    ensures ',' in t ==> exists i :: 0 <= i < |t| && t[i] == ',' && ',' !in t[..i] && r == t[..i] + t[i + 1..]
    ensures NumericText(t) ==> NumericText(r)
  {
    var i := FirstComma(t);
    if i < |t| then t[..i] + t[i + 1..] else t
  }

  function DigitValue(c: char): nat
    requires IsDigit(c)
  {
    c as int - '0' as int
  }

  /** The digits of `d` read as a decimal integer. */
  function DigitsValue(d: string): nat
    requires DigitText(d)
    decreases |d|
  {
    if d == [] then 0 else DigitsValue(d[..|d| - 1]) * 10 + DigitValue(d[|d| - 1])
  }

  function Pow10(n: nat): (r: nat)
    ensures r > 0
  {
    if n == 0 then 1 else 10 * Pow10(n - 1)
  }

  /** The value of `i.f`: the integer part plus the fraction, `MV(i) + MV(f) * 10^-|f|`. */
  function PointValue(i: string, f: string): (v: real)
    requires DigitText(i) && DigitText(f)
    ensures v >= 0.0
  {
    DigitsValue(i) as real + DigitsValue(f) as real / Pow10(|f|) as real
  }

  /**
   * `parseFloat` on text of digits, commas and dots: the longest prefix that is
   * a decimal literal, read exactly; `None` (`NaN`) when no prefix is one.
   */
  function ParseFloat(t: string): (r: Option<real>)
    requires NumericText(t)
    ensures r.Some? ==> r.value >= 0.0
  {
    var k := DigitRunEnd(t, 0);
    assert DigitText(t[..k]);
    if k > 0 then
      if k < |t| && t[k] == '.' then
        var m := DigitRunEnd(t, k + 1);
        assert DigitText(t[k + 1..m]);
        Some(PointValue(t[..k], t[k + 1..m]))
      else
        Some(PointValue(t[..k], []))
    else if 1 < |t| && t[0] == '.' && IsDigit(t[1]) then
      var m := DigitRunEnd(t, 1);
      assert DigitText(t[1..m]);
      Some(PointValue([], t[1..m]))
    else
      None
  }

  /** The conversion the parser applies to each number capture. */
  function NumberValue(capture: string): Option<real>
    requires NumericText(capture)
  {
    ParseFloat(RemoveFirstComma(capture))
  }

  // ---------------------------------------------------------------------
  // Reference definition: what `parseFloat` reads, stated on its own.
  // ---------------------------------------------------------------------

  /**
   * A decimal literal without sign or exponent (the only kind text of digits,
   * commas and dots can begin with): `d+`, `d+.d*` or `.d+`.
   */
  predicate DecimalLiteral(u: string) {
    || (|u| > 0 && DigitText(u))
    || (1 < |u| && exists k :: 0 <= k < |u| && u[k] == '.' && DigitText(u[..k]) && DigitText(u[k + 1..]))
  }

  /** The digits of `u`, in order, without anything else. */
  function DigitsOf(u: string): (d: string)
    ensures DigitText(d)
  {
    if u == [] then [] else (if IsDigit(u[0]) then [u[0]] else []) + DigitsOf(u[1..])
  }

  /** The number of characters after the first dot of `u` (0 when there is no dot). */
  function Scale(u: string): nat {
    if u == [] then 0 else if u[0] == '.' then |u| - 1 else Scale(u[1..])
  }

  /** The value of a decimal literal: its digits as one integer, scaled by the digits after the dot. */
  function LiteralValue(u: string): real
    requires DecimalLiteral(u)
  {
    DigitsValue(DigitsOf(u)) as real / Pow10(Scale(u)) as real
  }

  lemma {:induction false} DigitsOfAppend(a: string, b: string)
    ensures DigitsOf(a + b) == DigitsOf(a) + DigitsOf(b)
    decreases |a|
  {
    if a != [] {
      assert (a + b)[1..] == a[1..] + b;
      DigitsOfAppend(a[1..], b);
    } else {
      assert a + b == b;
    }
  }

  lemma {:induction false} DigitsOfDigitText(d: string)
    requires DigitText(d)
    ensures DigitsOf(d) == d
    decreases |d|
  {
    if d != [] {
      DigitsOfDigitText(d[1..]);
      assert d == [d[0]] + d[1..];
    }
  }

  lemma {:induction false} ScaleOfDigits(d: string)
    requires DigitText(d)
    ensures Scale(d) == 0
    decreases |d|
  {
    if d != [] {
      ScaleOfDigits(d[1..]);
    }
  }

  lemma ShiftDigit(x: int, p: int, y: int, c: int)
    ensures (x * p + y) * 10 + c == x * (p * 10) + (y * 10 + c)
  {
  }

  lemma {:induction false} DigitsValueAppend(a: string, b: string)
    requires DigitText(a) && DigitText(b)
    ensures DigitText(a + b)
    ensures DigitsValue(a + b) == DigitsValue(a) * Pow10(|b|) + DigitsValue(b)
    decreases |b|
  {
    assert DigitText(a + b);
    if b == [] {
      assert a + b == a;
    } else {
      var b', c := b[..|b| - 1], b[|b| - 1];
      assert (a + b)[..|a + b| - 1] == a + b';
      assert (a + b)[|a + b| - 1] == c;
      DigitsValueAppend(a, b');
      var x, p, y := DigitsValue(a), Pow10(|b'|), DigitsValue(b');
      assert DigitsValue(a + b) == (x * p + y) * 10 + DigitValue(c);
      assert DigitsValue(b) == y * 10 + DigitValue(c);
      assert Pow10(|b|) == p * 10;
      ShiftDigit(x, p, y, DigitValue(c));
    }
  }

  /** A character that is neither a digit nor a dot cannot be part of a decimal literal. */
  lemma NotLiteralWithForeignChar(u: string, j: nat)
    requires j < |u| && !IsDigit(u[j]) && u[j] != '.'
    ensures !DecimalLiteral(u)
  {
    forall k | 0 <= k < |u| && u[k] == '.' && DigitText(u[..k])
      ensures !DigitText(u[k + 1..])
    {
      if k < j {
        assert u[k + 1..][j - k - 1] == u[j];
      }
    }
  }

  /** A decimal literal holds at most one dot. */
  lemma NotLiteralWithTwoDots(u: string, i: nat, j: nat)
    requires i < j < |u| && u[i] == '.' && u[j] == '.'
    ensures !DecimalLiteral(u)
  {
    assert !DigitText(u) by { assert !IsDigit(u[i]); }
    forall k | 0 <= k < |u| && u[k] == '.' && DigitText(u[..k])
      ensures !DigitText(u[k + 1..])
    {
      if k < i {
        assert u[k + 1..][i - k - 1] == u[i];
      } else if k == i {
        assert u[k + 1..][j - k - 1] == u[j];
      }
    }
  }

  /** `t[..n]` is a decimal literal and no longer prefix of `t` is one. */
  predicate LongestLiteralPrefix(t: string, n: nat) {
    && 0 < n <= |t|
    && DecimalLiteral(t[..n])
    && forall n' :: n < n' <= |t| ==> !DecimalLiteral(t[..n'])
  }

  /** Past the end `e` of a literal, a comma, or a second dot at `e` when there is a dot at `dot`, ends it. */
  lemma NoLongerLiteral(t: string, e: nat, dot: int)
    requires NumericText(t) && 0 < e <= |t|
    requires e < |t| ==> !IsDigit(t[e])
    requires e < |t| && t[e] == '.' ==> 0 <= dot < e && t[dot] == '.'
    ensures forall n' :: e < n' <= |t| ==> !DecimalLiteral(t[..n'])
  {
    forall n' | e < n' <= |t| ensures !DecimalLiteral(t[..n']) {
      if t[e] == '.' {
        NotLiteralWithTwoDots(t[..n'], dot, e);
      } else {
        NotLiteralWithForeignChar(t[..n'], e);
      }
    }
  }

  /** The literal `a.b` has the digits of `a` then `b`, and `|b|` digits after its dot. */
  lemma {:induction false} DotLiteralParts(a: string, b: string)
    requires DigitText(a) && DigitText(b)
    ensures DigitsOf(a + ['.'] + b) == a + b
    ensures Scale(a + ['.'] + b) == |b|
    decreases |a|
  {
    var u := a + ['.'] + b;
    if a == [] {
      assert u[1..] == b;
      DigitsOfDigitText(b);
    } else {
      assert u[1..] == a[1..] + ['.'] + b;
      DotLiteralParts(a[1..], b);
      assert a + b == [a[0]] + (a[1..] + b);
    }
  }

  lemma DivideSum(z: nat, x: nat, y: nat, p: nat)
    requires p > 0 && z == x * p + y
    ensures z as real / p as real == x as real + y as real / p as real
  {
    assert z as real == x as real * p as real + y as real;
  }

  /** The value of the literal `a.b` is the integer part plus the fraction. */
  lemma DotLiteralValue(a: string, b: string)
    requires DigitText(a) && DigitText(b) && DecimalLiteral(a + ['.'] + b)
    ensures LiteralValue(a + ['.'] + b) == PointValue(a, b)
  {
    var u := a + ['.'] + b;
    DotLiteralParts(a, b);
    DigitsValueAppend(a, b);
    var x := DigitsValue(DigitsOf(u));
    assert x == DigitsValue(a) * Pow10(|b|) + DigitsValue(b);
    DivideSum(x, DigitsValue(a), DigitsValue(b), Pow10(|b|));
    assert LiteralValue(u) == x as real / Pow10(|b|) as real;
  }

  /** The value of a literal of digits alone is its integer value. */
  lemma DigitLiteralValue(d: string)
    requires DigitText(d) && |d| > 0
    ensures DecimalLiteral(d) && LiteralValue(d) == PointValue(d, [])
  {
    DigitsOfDigitText(d);
    ScaleOfDigits(d);
    var x := DigitsValue(d) as real;
    assert Pow10(Scale(d)) == 1;
    assert LiteralValue(d) == x / 1.0;
    assert DigitsValue([]) == 0;
    assert PointValue(d, []) == x + 0.0 / 1.0;
  }

  /** Digits, a dot at `k` and digits up to `m` form the literal `t[..k].t[k+1..m]`. */
  lemma DotPrefix(t: string, k: nat, m: nat)
    requires k < m <= |t| && 1 < m && t[k] == '.' && DigitText(t[..k]) && DigitText(t[k + 1..m])
    ensures t[..m] == t[..k] + ['.'] + t[k + 1..m]
    ensures DecimalLiteral(t[..m])
  {
    var u := t[..m];
    assert u == t[..k] + ['.'] + t[k + 1..m];
    assert u[k] == '.' && u[..k] == t[..k] && u[k + 1..] == t[k + 1..m];
    assert DigitText(u[..k]) && DigitText(u[k + 1..]);
  }

  /** Digits, then a dot, then digits: the longest literal runs to the end of the fraction. */
  lemma ReadsIntegerAndFraction(t: string)
    requires NumericText(t)
    requires var k := DigitRunEnd(t, 0); 0 < k < |t| && t[k] == '.'
    ensures var m := DigitRunEnd(t, DigitRunEnd(t, 0) + 1);
      LongestLiteralPrefix(t, m) && ParseFloat(t) == Some(LiteralValue(t[..m]))
  {
    var k := DigitRunEnd(t, 0);
    var m := DigitRunEnd(t, k + 1);
    var a, b := t[..k], t[k + 1..m];
    assert DigitText(a) && DigitText(b);
    assert LongestLiteralPrefix(t, m) by {
      DotPrefix(t, k, m);
      NoLongerLiteral(t, m, k);
    }
    assert ParseFloat(t) == Some(LiteralValue(t[..m])) by {
      DotPrefix(t, k, m);
      DotLiteralValue(a, b);
      assert ParseFloat(t) == Some(PointValue(a, b));
    }
  }

  /** Digits not followed by a dot: the longest literal is the digits. */
  lemma ReadsInteger(t: string)
    requires NumericText(t)
    requires var k := DigitRunEnd(t, 0); 0 < k && !(k < |t| && t[k] == '.')
    ensures var k := DigitRunEnd(t, 0);
      LongestLiteralPrefix(t, k) && ParseFloat(t) == Some(LiteralValue(t[..k]))
  {
    var k := DigitRunEnd(t, 0);
    var d := t[..k];
    assert DigitText(d);
    NoLongerLiteral(t, k, -1);
    DigitLiteralValue(d);
  }

  /** A dot then digits: the longest literal runs to the end of the fraction. */
  lemma ReadsFraction(t: string)
    requires NumericText(t)
    requires 1 < |t| && t[0] == '.' && IsDigit(t[1])
    ensures var m := DigitRunEnd(t, 1);
      LongestLiteralPrefix(t, m) && ParseFloat(t) == Some(LiteralValue(t[..m]))
  {
    var m := DigitRunEnd(t, 1);
    var b := t[1..m];
    assert DigitText(b) && DigitText(t[..0]);
    DotPrefix(t, 0, m);
    assert t[..0] == [];
    NoLongerLiteral(t, m, 0);
    DotLiteralValue([], b);
    assert ParseFloat(t) == Some(PointValue([], b));
  }

  /** Neither a digit nor a dot and a digit at the start: no prefix is a literal. */
  lemma ReadsNothing(t: string)
    requires NumericText(t)
    requires DigitRunEnd(t, 0) == 0 && !(1 < |t| && t[0] == '.' && IsDigit(t[1]))
    ensures forall n :: 0 < n <= |t| ==> !DecimalLiteral(t[..n])
  {
    forall n | 0 < n <= |t| ensures !DecimalLiteral(t[..n]) {
      var u := t[..n];
      if t[0] != '.' {
        NotLiteralWithForeignChar(u, 0);
      } else if n > 1 {
        if t[1] == '.' {
          NotLiteralWithTwoDots(u, 0, 1);
        } else {
          NotLiteralWithForeignChar(u, 1);
        }
      } else {
        assert !DigitText(u) by { assert !IsDigit(u[0]); }
      }
    }
  }

  /**
   * `parseFloat` reads the longest prefix that is a decimal literal and
   * yields its exact value; it yields `NaN` exactly when no prefix is one.
   */
  lemma ParseFloatReadsLongestLiteral(t: string)
    requires NumericText(t)
    ensures ParseFloat(t).None? <==> forall n :: 0 < n <= |t| ==> !DecimalLiteral(t[..n])
    ensures ParseFloat(t).Some? ==>
      exists n: nat :: LongestLiteralPrefix(t, n) && ParseFloat(t).value == LiteralValue(t[..n])
  {
    var k := DigitRunEnd(t, 0);
    if k > 0 && k < |t| && t[k] == '.' {
      ReadsIntegerAndFraction(t);
    } else if k > 0 {
      ReadsInteger(t);
    } else if 1 < |t| && t[0] == '.' && IsDigit(t[1]) {
      ReadsFraction(t);
    } else {
      ReadsNothing(t);
    }
  }

  // ---------------------------------------------------------------------
  // The comma rule on concrete captures: only the first comma is removed.
  // ---------------------------------------------------------------------

  /** One thousands separator: the whole amount is read. */
  lemma OneSeparatorIsRemoved()
    ensures NumberValue("1,000.00") == Some(1000.0)
  {
    assert FirstComma("1,000.00") == 1;
    assert RemoveFirstComma("1,000.00") == "1000.00";
    ThousandIsRead();
  }

  lemma ThousandIsRead()
    ensures ParseFloat("1000.00") == Some(1000.0)
  {
    var u := "1000.00";
    assert DigitRunEnd(u, 0) == 4;
    assert DigitRunEnd(u, 5) == 7;
    assert u[..4] == "1000" && u[5..7] == "00";
    assert "1000"[..3] == "100" && "100"[..2] == "10" && "10"[..1] == "1" && "1"[..0] == "";
    assert DigitsValue("1000") == 1000;
    assert "00"[..1] == "0" && "0"[..0] == "";
    assert DigitsValue("00") == 0;
    assert PointValue("1000", "00") == 1000.0 + 0.0 / 100.0;
  }

  /** A second separator stays, and `parseFloat` stops at it. */
  lemma SecondSeparatorTruncates()
    ensures NumberValue("1,234,567.89") == Some(1234.0)
  {
    var t := "1,234,567.89";
    assert FirstComma(t) == 1 by {
      assert t[1..] == ",234,567.89" && FirstComma(t[1..]) == 0;
    }
    assert RemoveFirstComma(t) == t[..1] + t[2..];
    assert t[..1] + t[2..] == "1234,567.89" by {
      assert t[..1] == "1" && t[2..] == "234,567.89";
    }
    StopsAtComma();
  }

  lemma StopsAtComma()
    ensures ParseFloat("1234,567.89") == Some(1234.0)
  {
    var u := "1234,567.89";
    assert DigitRunEnd(u, 0) == 4;
    assert u[..4] == "1234";
    assert "1234"[..3] == "123" && "123"[..2] == "12" && "12"[..1] == "1" && "1"[..0] == "";
    assert DigitsValue("1234") == 1234;
    assert DigitsValue([]) == 0;
  }

  /** Commas alone leave a comma behind: `NaN`. */
  lemma OnlyCommasIsNaN()
    ensures NumberValue(",,") == None
  {
    assert FirstComma(",,") == 0;
    assert RemoveFirstComma(",,") == ",";
  }

  /** A capture `,.5`: removing the comma leaves a leading dot, which reads as a fraction on its own. */
  lemma LeadingDotIsFraction()
    ensures NumberValue(",.5") == Some(0.5)
  {
    assert FirstComma(",.5") == 0;
    assert RemoveFirstComma(",.5") == ".5";
    DotFiveIsHalf();
  }

  lemma DotFiveIsHalf()
    ensures ParseFloat(".5") == Some(0.5)
  {
    assert DigitRunEnd(".5", 0) == 0;
    assert DigitRunEnd(".5", 1) == 2;
    assert ".5"[1..2] == "5" && "5"[..0] == "";
    assert DigitsValue("5") == 5;
    assert Pow10(1) == 10;
  }

  /** A balance with one separator and a fraction. */
  lemma BalanceWithFraction()
    ensures NumberValue("5,500.75") == Some(5500.75)
  {
    assert FirstComma("5,500.75") == 1;
    assert RemoveFirstComma("5,500.75") == "5500.75";
    FiveThousandFiveHundredIsRead();
  }

  lemma FiveThousandFiveHundredIsRead()
    ensures ParseFloat("5500.75") == Some(5500.75)
  {
    var u := "5500.75";
    assert DigitRunEnd(u, 0) == 4;
    assert DigitRunEnd(u, 5) == 7;
    assert u[..4] == "5500" && u[5..7] == "75";
    assert "5500"[..3] == "550" && "550"[..2] == "55" && "55"[..1] == "5" && "5"[..0] == "";
    assert DigitsValue("5500") == 5500;
    assert "75"[..1] == "7" && "7"[..0] == "";
    assert DigitsValue("75") == 75;
    assert Pow10(2) == 100;
    assert PointValue("5500", "75") == 5500.0 + 75.0 / 100.0;
  }

  /** An amount with one separator and a trailing zero in the fraction. */
  lemma AmountWithHalf()
    ensures NumberValue("1,234.50") == Some(1234.5)
  {
    assert FirstComma("1,234.50") == 1;
    assert RemoveFirstComma("1,234.50") == "1234.50";
    TwelveThirtyFourFiftyIsRead();
  }

  lemma TwelveThirtyFourFiftyIsRead()
    ensures ParseFloat("1234.50") == Some(1234.5)
  {
    var u := "1234.50";
    assert DigitRunEnd(u, 0) == 4;
    assert DigitRunEnd(u, 5) == 7;
    assert u[..4] == "1234" && u[5..7] == "50";
    assert "1234"[..3] == "123" && "123"[..2] == "12" && "12"[..1] == "1" && "1"[..0] == "";
    assert DigitsValue("1234") == 1234;
    assert "50"[..1] == "5" && "5"[..0] == "";
    assert DigitsValue("50") == 50;
    assert Pow10(2) == 100;
    assert PointValue("1234", "50") == 1234.0 + 50.0 / 100.0;
  }
}
