/**
 * Bank notifications written the way the pattern expects,
 *
 *   Rs. <amount><middle>on <date><gap>at <description>. Avl Bal: Rs. <balance>
 *
 * parse back to their parts, provided nothing in the free text can serve as
 * a later `on ` or `at `.
 */
module Notification {

  import opened Wrappers
  import opened Text
  import opened Pattern
  import opened Numeric
  import opened Parser

  /** Text that `[\d,]+\.?\d*` matches entirely. */
  predicate NumberText(u: string) {
    && NumericText(u)
    && var k := DigitOrCommaRunEnd(u, 0);
       && 0 < k
       && (k == |u| || (u[k] == '.' && AllDigits(u, k + 1, |u|)))
  }

  /** `lit` occurs somewhere in `t`. */
  predicate Contains(t: string, lit: string) {
    exists j: nat :: j < |t| && LiteralAt(t, j, lit)
  }

  /** The parts a notification is assembled from. */
  datatype Parts = Parts(amount: string, middle: string, date: string, gap: string, description: string, balance: string) {

    /** Where `on ` stands in the assembled text. */
    function OnAt(): nat {
      |RsLiteral| + |amount| + |middle|
    }

    /** Where `at ` stands. */
    function AtAt(): nat {
      OnAt() + |OnLiteral| + |date| + |gap|
    }

    /** Where `. Avl Bal: Rs. ` stands. */
    function BalanceAt(): nat {
      AtAt() + |AtLiteral| + |description|
    }

    function Body(): string {
      RsLiteral + amount + middle + OnLiteral + date + gap + AtLiteral + description + BalanceLiteral + balance
    }

    /**
     * Each part has the shape its place in the pattern asks for, the text
     * right after the amount cannot extend it, and neither the gap after the
     * date holds an `on ` nor the description an `at `.
     */
    predicate WellFormed() {
      && NumberText(amount)
      && NoLineTerminator(middle, 0, |middle|)
      && (middle != [] ==> !IsNumberChar(middle[0]))
      && DateShape(date)
      && NoLineTerminator(gap, 0, |gap|)
      && !Contains(gap, OnLiteral)
      && |description| > 0
      && NoLineTerminator(description, 0, |description|)
      && !Contains(description, AtLiteral)
      && NumberText(balance)
    }
  }

  /** The choices `[\d,]+\.?\d*` makes to match all of `u` at `o`. */
  function NumberSpan(u: string, o: nat): NumSpan {
    var k := DigitOrCommaRunEnd(u, 0);
    NumSpan(o + k, k < |u|, o + |u|)
  }

  /** The match made of the parts. */
  function PartsMatch(p: Parts): Match {
    Match(0, NumberSpan(p.amount, |RsLiteral|), p.OnAt(), p.AtAt(), p.BalanceAt(),
          NumberSpan(p.balance, p.BalanceAt() + |BalanceLiteral|))
  }

  // ---------------------------------------------------------------------
  // Where each part stands in the assembled text.
  // ---------------------------------------------------------------------

  lemma LiteralAtEnd(s: string, u: string)
    ensures LiteralAt(s + u, |s|, u)
  {
    assert (s + u)[|s|..|s| + |u|] == u;
  }

  lemma LiteralExtends(s: string, i: nat, u: string, q: string)
    requires LiteralAt(s, i, u)
    ensures LiteralAt(s + q, i, u)
  {
    assert (s + q)[i..i + |u|] == s[i..i + |u|];
  }

  lemma CharsOfLiteral(s: string, i: nat, u: string)
    requires LiteralAt(s, i, u)
    ensures forall k :: 0 <= k < |u| ==> s[i + k] == u[k]
  {
    forall k | 0 <= k < |u| ensures s[i + k] == u[k] {
      assert s[i..i + |u|][k] == s[i + k];
    }
  }

  /** A window of a literal that stands at `i` stands at the corresponding place of `s`. */
  lemma WindowOfLiteral(s: string, i: nat, u: string, j: nat, l: nat)
    requires LiteralAt(s, i, u) && j + l <= |u|
    ensures s[i + j..i + j + l] == u[j..j + l]
  {
    CharsOfLiteral(s, i, u);
    var w, v := s[i + j..i + j + l], u[j..j + l];
    forall t | 0 <= t < l ensures w[t] == v[t] {
      assert w[t] == s[i + (j + t)];
    }
  }

  /** Every part stands at its offset. */
  predicate Laid(s: string, p: Parts) {
    && |s| == p.BalanceAt() + |BalanceLiteral| + |p.balance|
    && LiteralAt(s, 0, RsLiteral)
    && LiteralAt(s, |RsLiteral|, p.amount)
    && LiteralAt(s, |RsLiteral| + |p.amount|, p.middle)
    && LiteralAt(s, p.OnAt(), OnLiteral)
    && LiteralAt(s, p.OnAt() + |OnLiteral|, p.date)
    && LiteralAt(s, p.OnAt() + |OnLiteral| + |p.date|, p.gap)
    && LiteralAt(s, p.AtAt(), AtLiteral)
    && LiteralAt(s, p.AtAt() + |AtLiteral|, p.description)
    && LiteralAt(s, p.BalanceAt(), BalanceLiteral)
    && LiteralAt(s, p.BalanceAt() + |BalanceLiteral|, p.balance)
  }

  lemma BodyIsLaid(p: Parts)
    ensures Laid(p.Body(), p)
  {
    HeadIsLaid(p);
    DateIsLaid(p);
    BackIsLaid(p);
  }

  /** The text before the gap. */
  function Front(p: Parts): string {
    RsLiteral + p.amount + p.middle + OnLiteral + p.date
  }

  lemma FrontIsLaid(p: Parts)
    ensures |Front(p)| == p.OnAt() + |OnLiteral| + |p.date|
    ensures p.Body() == Front(p) + (p.gap + AtLiteral + p.description + BalanceLiteral + p.balance)
  {
  }

  /** `Rs. `, the amount and the text after it stand at their offsets. */
  lemma HeadIsLaid(p: Parts)
    ensures LiteralAt(p.Body(), 0, RsLiteral)
    ensures LiteralAt(p.Body(), |RsLiteral|, p.amount)
    ensures LiteralAt(p.Body(), |RsLiteral| + |p.amount|, p.middle)
  {
    var s1 := RsLiteral;
    var s2 := s1 + p.amount;
    var s3 := s2 + p.middle;
    assert LiteralAt(s1, 0, RsLiteral);
    LiteralExtends(s1, 0, RsLiteral, p.amount);
    LiteralAtEnd(s1, p.amount);
    LiteralAtEnd(s2, p.middle);
    ExtendToBody(p, s2, 0, RsLiteral);
    ExtendToBody(p, s2, |s1|, p.amount);
    ExtendToBody(p, s3, |s2|, p.middle);
  }

  /** `on ` and the date stand at their offsets. */
  lemma DateIsLaid(p: Parts)
    ensures LiteralAt(p.Body(), p.OnAt(), OnLiteral)
    ensures LiteralAt(p.Body(), p.OnAt() + |OnLiteral|, p.date)
  {
    var s3 := RsLiteral + p.amount + p.middle;
    var s4 := s3 + OnLiteral;
    var s5 := s4 + p.date;
    assert |s3| == p.OnAt();
    LiteralAtEnd(s3, OnLiteral);
    LiteralAtEnd(s4, p.date);
    ExtendToBody(p, s4, |s3|, OnLiteral);
    ExtendToBody(p, s5, |s4|, p.date);
  }

  lemma BackIsLaid(p: Parts)
    ensures |p.Body()| == p.BalanceAt() + |BalanceLiteral| + |p.balance|
    ensures LiteralAt(p.Body(), p.OnAt() + |OnLiteral| + |p.date|, p.gap)
    ensures LiteralAt(p.Body(), p.AtAt(), AtLiteral)
    ensures LiteralAt(p.Body(), p.AtAt() + |AtLiteral|, p.description)
    ensures LiteralAt(p.Body(), p.BalanceAt(), BalanceLiteral)
    ensures LiteralAt(p.Body(), p.BalanceAt() + |BalanceLiteral|, p.balance)
  {
    var s5 := Front(p);
    var s6 := s5 + p.gap;
    var s7 := s6 + AtLiteral;
    var s8 := s7 + p.description;
    var s9 := s8 + BalanceLiteral;
    var s10 := s9 + p.balance;
    assert s10 == p.Body();
    FrontIsLaid(p);
    LiteralAtEnd(s5, p.gap);
    LiteralAtEnd(s6, AtLiteral);
    LiteralAtEnd(s7, p.description);
    LiteralAtEnd(s8, BalanceLiteral);
    LiteralAtEnd(s9, p.balance);
    ExtendToBody(p, s6, |s5|, p.gap);
    ExtendToBody(p, s7, |s6|, AtLiteral);
    ExtendToBody(p, s8, |s7|, p.description);
    ExtendToBody(p, s9, |s8|, BalanceLiteral);
  }

  /** What stands in a prefix of the body stands in the body. */
  lemma ExtendToBody(p: Parts, s: string, i: nat, u: string)
    requires LiteralAt(s, i, u) && s <= p.Body()
    ensures LiteralAt(p.Body(), i, u)
  {
    var b := p.Body();
    assert b == s + b[|s|..];
    LiteralExtends(s, i, u, b[|s|..]);
  }

  // ---------------------------------------------------------------------
  // The parts form a match.
  // ---------------------------------------------------------------------

  lemma NumberAtFromText(s: string, o: nat, u: string)
    requires LiteralAt(s, o, u) && NumberText(u)
    ensures NumberAt(s, o, NumberSpan(u, o))
  {
    CharsOfLiteral(s, o, u);
    var k := DigitOrCommaRunEnd(u, 0);
    assert forall j :: o <= j < o + k ==> s[j] == u[j - o];
    assert forall j :: o + k < j < o + |u| ==> s[j] == u[j - o];
  }

  lemma NoLineTerminatorFromText(s: string, o: nat, u: string)
    requires LiteralAt(s, o, u) && NoLineTerminator(u, 0, |u|)
    ensures NoLineTerminator(s, o, o + |u|)
  {
    CharsOfLiteral(s, o, u);
    assert forall j :: o <= j < o + |u| ==> s[j] == u[j - o];
  }

  lemma DateAtFromText(s: string, o: nat, d: string)
    requires LiteralAt(s, o, d) && DateShape(d)
    ensures DateAt(s, o)
  {
    CharsOfLiteral(s, o, d);
    assert s[o] == d[0] && s[o + 1] == d[1] && s[o + 2] == d[2] && s[o + 3] == d[3] && s[o + 4] == d[4];
    assert s[o + 5] == d[5] && s[o + 6] == d[6] && s[o + 7] == d[7] && s[o + 8] == d[8] && s[o + 9] == d[9];
  }

  /** `at `, a one-line description, `. Avl Bal: Rs. ` and a number, laid one after the other. */
  lemma DescriptionTailOfText(s: string, a: nat, x: string, b: nat, u: string)
    requires LiteralAt(s, a, AtLiteral) && LiteralAt(s, a + |AtLiteral|, x) && b == a + |AtLiteral| + |x|
    requires |x| > 0 && NoLineTerminator(x, 0, |x|)
    requires LiteralAt(s, b, BalanceLiteral) && LiteralAt(s, b + |BalanceLiteral|, u) && NumberText(u)
    ensures DescriptionTail(s, a, b, NumberSpan(u, b + |BalanceLiteral|))
  {
    NumberAtFromText(s, b + |BalanceLiteral|, u);
    NoLineTerminatorFromText(s, a + |AtLiteral|, x);
  }

  lemma PartsDateTail(s: string, p: Parts)
    requires Laid(s, p) && p.WellFormed()
    ensures DateTail(s, p.OnAt(), p.AtAt(), p.BalanceAt(), PartsMatch(p).balance)
  {
    DescriptionTailOfText(s, p.AtAt(), p.description, p.BalanceAt(), p.balance);
    DateTailOfText(s, p.OnAt(), p.date, p.gap, p.AtAt(), p.BalanceAt(), PartsMatch(p).balance);
  }

  /** `on `, a date, a one-line gap and a description tail, laid one after the other. */
  lemma DateTailOfText(s: string, o: nat, d: string, g: string, a: nat, b: nat, n: NumSpan)
    requires LiteralAt(s, o, OnLiteral) && LiteralAt(s, o + |OnLiteral|, d) && DateShape(d)
    requires LiteralAt(s, o + |OnLiteral| + |d|, g) && NoLineTerminator(g, 0, |g|)
    requires a == o + |OnLiteral| + |d| + |g| && DescriptionTail(s, a, b, n)
    ensures DateTail(s, o, a, b, n)
  {
    NoLineTerminatorFromText(s, o + |OnLiteral| + |d|, g);
    DateAtFromText(s, o + |OnLiteral|, d);
  }

  lemma PartsMatchMatches(s: string, p: Parts)
    requires Laid(s, p) && p.WellFormed()
    ensures Matches(s, PartsMatch(p))
  {
    PartsDateTail(s, p);
    NumberAtFromText(s, |RsLiteral|, p.amount);
    NoLineTerminatorFromText(s, |RsLiteral| + |p.amount|, p.middle);
  }

  // ---------------------------------------------------------------------
  // No other choice lets the pattern match further to the right.
  // ---------------------------------------------------------------------

  /** An amount cannot run past a character that is not part of a number. */
  lemma AmountStops(s: string, i: nat, e: nat, n: NumSpan)
    requires NumberAt(s, i, n) && i <= e < |s| && !IsNumberChar(s[e])
    ensures n.end <= e
  {
    NumberChars(s, i, n);
  }

  /** In `. Avl Bal: Rs. ` only the first and the fourteenth characters are dots. */
  lemma BalanceLiteralDots()
    ensures forall j :: 0 <= j < |BalanceLiteral| && BalanceLiteral[j] == '.' ==> j == 0 || j == 13
  {
  }

  /** No `. Avl Bal: Rs. ` with a character after it starts past the one at `b0`, which the number `u` ends the text after. */
  lemma NoLaterBalance(s: string, b0: nat, u: string, b: nat)
    requires LiteralAt(s, b0, BalanceLiteral) && LiteralAt(s, b0 + |BalanceLiteral|, u)
    requires |s| == b0 + |BalanceLiteral| + |u| && NumericText(u)
    requires LiteralAt(s, b, BalanceLiteral) && b + |BalanceLiteral| < |s|
    ensures b <= b0
  {
    var o := b0 + |BalanceLiteral|;
    CharsOfLiteral(s, b0, BalanceLiteral);
    CharsOfLiteral(s, o, u);
    BalanceLiteralDots();
    forall k | b0 < k && k + |BalanceLiteral| < |s| ensures !LiteralAt(s, k, BalanceLiteral) {
      assert s[k..k + |BalanceLiteral|][0] == s[k];
      assert s[k..k + |BalanceLiteral|][1] == s[k + 1];
      assert s[k..k + |BalanceLiteral|][2] == s[k + 2];
      if k < b0 + 13 {
        assert s[k] == BalanceLiteral[k - b0];
      } else if k == b0 + 13 {
        assert s[k + 2] == u[0];
      } else if k == b0 + 14 {
        assert s[k] == BalanceLiteral[14];
      } else {
        assert s[k + 1] == u[k + 1 - o];
      }
    }
  }

  /**
   * No `at ` followed by a description ending before the balance literal
   * starts past the one at `a0`, whose description `x` holds no `at `.
   */
  lemma NoLaterAt(s: string, a0: nat, x: string, a: nat, b: nat)
    requires LiteralAt(s, a0, AtLiteral) && LiteralAt(s, a0 + |AtLiteral|, x) && !Contains(x, AtLiteral)
    requires LiteralAt(s, a, AtLiteral) && a + |AtLiteral| < b <= a0 + |AtLiteral| + |x|
    ensures a <= a0
  {
    var e := a0 + |AtLiteral| + |x|;
    CharsOfLiteral(s, a0, AtLiteral);
    forall k | a0 < k && k + |AtLiteral| < e ensures !LiteralAt(s, k, AtLiteral) {
      assert s[k..k + |AtLiteral|][0] == s[k];
      if k == a0 + 1 {
        assert s[k] == AtLiteral[1];
      } else if k == a0 + 2 {
        assert s[k] == AtLiteral[2];
      } else {
        var j: nat := k - a0 - |AtLiteral|;
        WindowOfLiteral(s, a0 + |AtLiteral|, x, j, |AtLiteral|);
        assert !LiteralAt(x, j, AtLiteral);
      }
    }
  }

  /** No `on ` begins inside an `on ` and the date after it. */
  lemma NotOnInDate(s: string, q0: nat, d: string, k: nat)
    requires LiteralAt(s, q0, OnLiteral) && LiteralAt(s, q0 + |OnLiteral|, d) && DateShape(d)
    requires q0 < k < q0 + |OnLiteral| + |d| && k + |OnLiteral| <= |s|
    ensures !LiteralAt(s, k, OnLiteral)
  {
    assert s[k..k + |OnLiteral|][0] == s[k];
    if k == q0 + 1 {
      assert s[q0..q0 + |OnLiteral|][1] == s[k];
    } else if k == q0 + 2 {
      assert s[q0..q0 + |OnLiteral|][2] == s[k];
    } else {
      assert s[q0 + |OnLiteral|..q0 + |OnLiteral| + |d|][k - q0 - |OnLiteral|] == s[k];
    }
  }

  /** No `on ` begins in a gap `g` at `g0` that holds no `on `. */
  lemma NotOnInGap(s: string, g0: nat, g: string, k: nat)
    requires LiteralAt(s, g0, g) && !Contains(g, OnLiteral)
    requires g0 <= k && k + |OnLiteral| <= g0 + |g|
    ensures !LiteralAt(s, k, OnLiteral)
  {
    var j: nat := k - g0;
    WindowOfLiteral(s, g0, g, j, |OnLiteral|);
    assert !LiteralAt(g, j, OnLiteral);
  }

  /**
   * No `on ` with a date and room for `at ` before the end of the gap `g`
   * starts past the `on ` at `q0`, which the date `d` and the gap follow.
   */
  lemma NoLaterOn(s: string, q0: nat, d: string, g: string, q: nat, a: nat)
    requires LiteralAt(s, q0, OnLiteral) && LiteralAt(s, q0 + |OnLiteral|, d) && DateShape(d)
    requires LiteralAt(s, q0 + |OnLiteral| + |d|, g) && !Contains(g, OnLiteral)
    requires LiteralAt(s, q, OnLiteral) && q + 13 <= a <= q0 + |OnLiteral| + |d| + |g|
    ensures q <= q0
  {
    if q0 < q < q0 + |OnLiteral| + |d| {
      NotOnInDate(s, q0, d, q);
    } else if q0 < q {
      NotOnInGap(s, q0 + |OnLiteral| + |d|, g, q);
    }
  }

  // ---------------------------------------------------------------------
  // The round trip.
  // ---------------------------------------------------------------------

  /** A match at the positions of the parts captures the parts. */
  lemma CapturesOfParts(s: string, p: Parts, m: Match)
    requires Laid(s, p) && |p.date| == 10 && NumericText(p.amount) && NumericText(p.balance) && Matches(s, m)
    requires m.start == 0 && m.amount.end == |RsLiteral| + |p.amount|
    requires m.onAt == p.OnAt() && m.atAt == p.AtAt() && m.balanceAt == p.BalanceAt() && m.balance.end == |s|
    ensures ToTransaction(s, m) == Transaction(NumberValue(p.amount), p.date, p.description, NumberValue(p.balance))
  {
    AmountIs(s, m, p.amount);
    DateIs(s, m, p.date);
    DescriptionIs(s, m, p.description);
    BalanceIs(s, m, p.balance);
    RecordOfCaptures(s, m, p.amount, p.date, p.description, p.balance);
  }

  lemma AmountIs(s: string, m: Match, a: string)
    requires Matches(s, m) && LiteralAt(s, m.start + |RsLiteral|, a) && m.amount.end == m.start + |RsLiteral| + |a|
    ensures AmountText(s, m) == a
  {
  }

  lemma DateIs(s: string, m: Match, d: string)
    requires Matches(s, m) && LiteralAt(s, m.onAt + |OnLiteral|, d) && |d| == 10
    ensures DateText(s, m) == d
  {
  }

  lemma DescriptionIs(s: string, m: Match, x: string)
    requires Matches(s, m) && LiteralAt(s, m.atAt + |AtLiteral|, x) && m.balanceAt == m.atAt + |AtLiteral| + |x|
    ensures DescriptionText(s, m) == x
  {
  }

  lemma BalanceIs(s: string, m: Match, b: string)
    requires Matches(s, m) && LiteralAt(s, m.balanceAt + |BalanceLiteral|, b)
    requires m.balance.end == m.balanceAt + |BalanceLiteral| + |b|
    ensures BalanceText(s, m) == b
  {
  }

  /** The record of a match whose captures are known. */
  lemma RecordOfCaptures(s: string, m: Match, a: string, d: string, x: string, b: string)
    requires Matches(s, m) && NumericText(a) && NumericText(b)
    requires AmountText(s, m) == a && DateText(s, m) == d && DescriptionText(s, m) == x && BalanceText(s, m) == b
    ensures ToTransaction(s, m) == Transaction(NumberValue(a), d, x, NumberValue(b))
  {
  }

  /** The selected match of an assembled notification sits at the positions of its parts. */
  lemma SelectedIsPartsMatch(s: string, p: Parts, m: Match)
    requires Laid(s, p) && p.WellFormed() && Selected(s, m)
    ensures m.start == 0 && m.amount.end == |RsLiteral| + |p.amount|
    ensures m.onAt == p.OnAt() && m.atAt == p.AtAt() && m.balanceAt == p.BalanceAt() && m.balance.end == |s|
  {
    PartsMatchMatches(s, p);
    SelectedChoices(s, m, PartsMatch(p));
    MatchShape(s, m);
    AmountPinned(s, p, m);
    BalancePinned(s, p, m);
    AtPinned(s, p, m);
    OnPinned(s, p, m);
    PinnedByParts(s, p, m);
  }

  /** Where the literals of a match stand, and that its balance ends within the text. */
  lemma MatchShape(s: string, m: Match)
    requires Matches(s, m)
    ensures NumberAt(s, m.start + |RsLiteral|, m.amount)
    ensures LiteralAt(s, m.onAt, OnLiteral) && m.onAt + 13 <= m.atAt
    ensures LiteralAt(s, m.atAt, AtLiteral) && m.atAt + |AtLiteral| < m.balanceAt
    ensures LiteralAt(s, m.balanceAt, BalanceLiteral) && m.balanceAt + |BalanceLiteral| < |s|
    ensures m.balance.end <= |s|
  {
  }

  /** An amount read from the start of an assembled notification stops at the end of its amount. */
  lemma AmountPinned(s: string, p: Parts, m: Match)
    requires Laid(s, p) && p.WellFormed() && m.start == 0 && NumberAt(s, m.start + |RsLiteral|, m.amount)
    ensures m.amount.end <= |RsLiteral| + |p.amount|
  {
    var e := |RsLiteral| + |p.amount|;
    if p.middle != [] {
      CharsOfLiteral(s, e, p.middle);
      assert s[e] == p.middle[0];
    } else {
      CharsOfLiteral(s, p.OnAt(), OnLiteral);
      assert s[e] == OnLiteral[0];
    }
    AmountStops(s, m.start + |RsLiteral|, e, m.amount);
  }

  lemma BalancePinned(s: string, p: Parts, m: Match)
    requires Laid(s, p) && p.WellFormed()
    requires LiteralAt(s, m.balanceAt, BalanceLiteral) && m.balanceAt + |BalanceLiteral| < |s|
    ensures m.balanceAt <= p.BalanceAt()
  {
    NoLaterBalance(s, p.BalanceAt(), p.balance, m.balanceAt);
  }

  lemma AtPinned(s: string, p: Parts, m: Match)
    requires Laid(s, p) && p.WellFormed() && m.balanceAt <= p.BalanceAt()
    requires LiteralAt(s, m.atAt, AtLiteral) && m.atAt + |AtLiteral| < m.balanceAt
    ensures m.atAt <= p.AtAt()
  {
    NoLaterAt(s, p.AtAt(), p.description, m.atAt, m.balanceAt);
  }

  lemma OnPinned(s: string, p: Parts, m: Match)
    requires Laid(s, p) && p.WellFormed() && m.atAt <= p.AtAt()
    requires LiteralAt(s, m.onAt, OnLiteral) && m.onAt + 13 <= m.atAt
    ensures m.onAt <= p.OnAt()
  {
    NoLaterOn(s, p.OnAt(), p.date, p.gap, m.onAt, m.atAt);
  }

  /** A match at least as greedy as the parts' own match, and no further right, sits exactly at the parts. */
  lemma PinnedByParts(s: string, p: Parts, m: Match)
    requires GreedierThan(m, PartsMatch(p)) && |s| == p.BalanceAt() + |BalanceLiteral| + |p.balance|
    requires m.amount.end <= |RsLiteral| + |p.amount| && m.onAt <= p.OnAt() && m.atAt <= p.AtAt()
    requires m.balanceAt <= p.BalanceAt() && m.balance.end <= |s|
    ensures m.start == 0 && m.amount.end == |RsLiteral| + |p.amount|
    ensures m.onAt == p.OnAt() && m.atAt == p.AtAt() && m.balanceAt == p.BalanceAt() && m.balance.end == |s|
  {
  }

  /**
   * A notification assembled from well-formed parts parses back to them: the
   * amount and the balance through the comma rule and `parseFloat`, the date
   * and the description verbatim.
   */
  lemma AssembledNotificationParses(p: Parts)
    requires p.WellFormed()
    ensures ParseTransaction(p.Body()) ==
      Some(Transaction(NumberValue(p.amount), p.date, p.description, NumberValue(p.balance)))
  {
    var s := p.Body();
    BodyIsLaid(p);
    PartsMatchMatches(s, p);
    FindMatchCorrect(s);
    var m := FindMatch(s).value;
    SelectedIsPartsMatch(s, p, m);
    CapturesOfParts(s, p, m);
  }

  /** The parts of a typical debit notification. */
  const StoreDebit := Parts("1,000.00", " debited ", "12-05-2024", " ", "STORE XYZ", "5,500.75")

  lemma StoreDebitIsWellFormed()
    ensures StoreDebit.WellFormed()
  {
    var p := StoreDebit;
    StoreDebitNumbers();
    assert forall j :: 0 <= j < |p.gap| ==> !LiteralAt(p.gap, j, OnLiteral);
    assert forall j :: 0 <= j < |p.description| ==> p.description[j] != 'a';
    NoAtWithoutA(p.description);
  }

  lemma StoreDebitNumbers()
    ensures NumberText(StoreDebit.amount) && NumberText(StoreDebit.balance)
  {
    assert DigitOrCommaRunEnd(StoreDebit.amount, 0) == 5;
    assert DigitOrCommaRunEnd(StoreDebit.balance, 0) == 5;
  }

  /** A text without the letter `a` holds no `at `. */
  lemma NoAtWithoutA(t: string)
    requires forall j :: 0 <= j < |t| ==> t[j] != 'a'
    ensures !Contains(t, AtLiteral)
  {
    forall j | 0 <= j < |t| ensures !LiteralAt(t, j, AtLiteral) {
      if j + |AtLiteral| <= |t| {
        assert t[j..j + |AtLiteral|][0] == t[j];
      }
    }
  }

  lemma StoreDebitBody()
    ensures StoreDebit.Body() == "Rs. 1,000.00 debited on 12-05-2024" + " at STORE XYZ. Avl Bal: Rs. 5,500.75"
  {
    var p := StoreDebit;
    var front := RsLiteral + p.amount + p.middle + OnLiteral + p.date;
    var back := p.gap + AtLiteral + p.description + BalanceLiteral + p.balance;
    assert p.Body() == front + back;
    StoreDebitFront();
    StoreDebitBack();
  }

  lemma StoreDebitFront()
    ensures RsLiteral + "1,000.00" + " debited " + OnLiteral + "12-05-2024" == "Rs. 1,000.00 debited on 12-05-2024"
  {
    assert RsLiteral + "1,000.00" == "Rs. 1,000.00";
    assert "Rs. 1,000.00" + " debited " == "Rs. 1,000.00 debited ";
    assert "Rs. 1,000.00 debited " + OnLiteral == "Rs. 1,000.00 debited on ";
    assert "Rs. 1,000.00 debited on " + "12-05-2024" == "Rs. 1,000.00 debited on 12-05-2024";
  }

  lemma StoreDebitBack()
    ensures " " + AtLiteral + "STORE XYZ" + BalanceLiteral + "5,500.75" == " at STORE XYZ. Avl Bal: Rs. 5,500.75"
  {
    assert " " + AtLiteral + "STORE XYZ" == " at STORE XYZ" by {
      assert " " + AtLiteral == " at ";
    }
    StoreDebitBalanceText();
  }

  lemma StoreDebitBalanceText()
    ensures " at STORE XYZ" + BalanceLiteral + "5,500.75" == " at STORE XYZ. Avl Bal: Rs. 5,500.75"
  {
    assert " at STORE XYZ" + BalanceLiteral == " at STORE XYZ. Avl Bal: Rs. ";
  }

  /** `Rs. 1,000.00 debited on 12-05-2024 at STORE XYZ. Avl Bal: Rs. 5,500.75`, written in two halves. */
  lemma StoreDebitParses()
    ensures ParseTransaction("Rs. 1,000.00 debited on 12-05-2024" + " at STORE XYZ. Avl Bal: Rs. 5,500.75")
      == Some(Transaction(Some(1000.0), "12-05-2024", "STORE XYZ", Some(5500.75)))
  {
    var p := StoreDebit;
    StoreDebitIsWellFormed();
    AssembledNotificationParses(p);
    StoreDebitBody();
    OneSeparatorIsRemoved();
    BalanceWithFraction();
    assert NumberValue(p.amount) == Some(1000.0);
    assert NumberValue(p.balance) == Some(5500.75);
  }

  /** A notification whose year has a fifth digit. */
  const FiveDigitYear := Parts("100", " sent ", "12-05-2024", "5 ", "SHOP", "50")

  /** `on 12-05-20245`: the date is the ten characters of the pattern; the fifth year digit is left behind. */
  lemma FifthYearDigitIsLeftBehind()
    ensures ParseTransaction(FiveDigitYear.Body()).Some?
    ensures ParseTransaction(FiveDigitYear.Body()).value.date == "12-05-2024"
  {
    var p := FiveDigitYear;
    assert DigitOrCommaRunEnd(p.amount, 0) == 3;
    assert DigitOrCommaRunEnd(p.balance, 0) == 2;
    assert forall j :: 0 <= j < |p.description| ==> p.description[j] != 'a';
    NoAtWithoutA(p.description);
    assert forall j :: 0 <= j < |p.gap| ==> !LiteralAt(p.gap, j, OnLiteral);
    assert p.WellFormed();
    AssembledNotificationParses(p);
  }
}
