/**
 * `parseTransaction(body)`: match the transaction pattern against an SMS
 * body and, when it matches, build a record from the four capture groups,
 * converting the amount and the balance with `parseFloat(x.replace(',', ''))`.
 */
module Parser {

  import opened Wrappers
  import opened Text
  import opened Pattern
  import opened Numeric

  /**
   * A parsed transaction. `amount` and `balance` are JavaScript numbers;
   * `None` stands for `NaN`, which the parser lets through unchanged.
   */
  datatype Transaction = Transaction(amount: Option<real>, date: string, description: string, balance: Option<real>)

  /** Capture group 1, `([\d,]+\.?\d*)` after `Rs. `. */
  function AmountText(s: string, m: Match): string
    requires Matches(s, m)
  {
    s[m.start + |RsLiteral|..m.amount.end]
  }

  /** Capture group 2, `(\d{2}-\d{2}-\d{4})` after `on `. */
  function DateText(s: string, m: Match): string
    requires Matches(s, m)
  {
    s[m.onAt + |OnLiteral|..m.onAt + |OnLiteral| + 10]
  }

  /** Capture group 3, `(.+)` between `at ` and `. Avl Bal: Rs. `. */
  function DescriptionText(s: string, m: Match): string
    requires Matches(s, m)
  {
    s[m.atAt + |AtLiteral|..m.balanceAt]
  }

  /** Capture group 4, `([\d,]+\.?\d*)` after `. Avl Bal: Rs. `. */
  function BalanceText(s: string, m: Match): string
    requires Matches(s, m)
  {
    s[m.balanceAt + |BalanceLiteral|..m.balance.end]
  }

  /** A number capture holds only digits, commas and dots. */
  lemma CapturesAreNumeric(s: string, m: Match)
    requires Matches(s, m)
    ensures |AmountText(s, m)| > 0 && NumericText(AmountText(s, m))
    ensures |BalanceText(s, m)| > 0 && NumericText(BalanceText(s, m))
  {
    NumberChars(s, m.start + |RsLiteral|, m.amount);
    NumberChars(s, m.balanceAt + |BalanceLiteral|, m.balance);
    var a, b := AmountText(s, m), BalanceText(s, m);
    assert forall k :: 0 <= k < |a| ==> a[k] == s[m.start + |RsLiteral| + k];
    assert forall k :: 0 <= k < |b| ==> b[k] == s[m.balanceAt + |BalanceLiteral| + k];
  }

  /** The record built from the captures of `m`. */
  function ToTransaction(s: string, m: Match): Transaction
    requires Matches(s, m)
  {
    CapturesAreNumeric(s, m);
    Transaction(
      NumberValue(AmountText(s, m)),
      DateText(s, m),
      DescriptionText(s, m),
      NumberValue(BalanceText(s, m)))
  }

  function ParseTransaction(body: string): Option<Transaction> {
    match FindMatch(body)
    case None => None
    case Some(m) => Some(ToTransaction(body, m))
  }

  // ---------------------------------------------------------------------
  // What the parser promises.
  // ---------------------------------------------------------------------

  /** When a record comes back, it is built from the match `FindMatch` reports. */
  lemma RecordOfFoundMatch(body: string)
    requires ParseTransaction(body).Some?
    ensures FindMatch(body).Some? && Matches(body, FindMatch(body).value)
    ensures ParseTransaction(body).value == ToTransaction(body, FindMatch(body).value)
  {
    FindMatchCorrect(body);
  }

  /**
   * A record comes back exactly when the pattern matches somewhere in the
   * body, and it is built from the match JavaScript reports.
   */
  lemma ParseTransactionCorrect(body: string)
    ensures ParseTransaction(body).Some? <==> exists m :: Matches(body, m)
    ensures ParseTransaction(body).Some? ==>
      exists m :: Selected(body, m) && ParseTransaction(body).value == ToTransaction(body, m)
  {
    FindMatchCorrect(body);
  }

  /** `\d{2}-\d{2}-\d{4}`: two digits, a dash, two digits, a dash, four digits. */
  predicate DateShape(d: string) {
    && |d| == 10
    && IsDigit(d[0]) && IsDigit(d[1]) && d[2] == '-'
    && IsDigit(d[3]) && IsDigit(d[4]) && d[5] == '-'
    && IsDigit(d[6]) && IsDigit(d[7]) && IsDigit(d[8]) && IsDigit(d[9])
  }

  /** The date capture of a match is the ten characters after its `on `. */
  lemma DateOfMatch(s: string, m: Match)
    requires Matches(s, m)
    ensures DateShape(DateText(s, m))
    ensures LiteralAt(s, m.onAt, OnLiteral) && m.onAt + 13 <= |s| && s[m.onAt + 3..m.onAt + 13] == DateText(s, m)
  {
    var d := DateText(s, m);
    assert forall k :: 0 <= k < 10 ==> d[k] == s[m.onAt + 3 + k];
  }

  /**
   * The date is the ten characters right after an `on ` of the body, copied
   * verbatim, of the shape dd-dd-dddd whatever follows them (a fifth year
   * digit is simply left behind).
   */
  lemma DateIsCopied(body: string)
    requires ParseTransaction(body).Some?
    ensures var d := ParseTransaction(body).value.date;
      && DateShape(d)
      && exists p: nat :: LiteralAt(body, p, OnLiteral) && p + 13 <= |body| && body[p + 3..p + 13] == d
  {
    RecordOfFoundMatch(body);
    DateOfMatch(body, FindMatch(body).value);
  }

  /** `at `, then `x`, then `. Avl Bal: Rs. ` stand at `a` in `s`. */
  predicate DescribedAt(s: string, a: nat, x: string) {
    && LiteralAt(s, a, AtLiteral)
    && a + |AtLiteral| + |x| <= |s|
    && s[a + |AtLiteral|..a + |AtLiteral| + |x|] == x
    && LiteralAt(s, a + |AtLiteral| + |x|, BalanceLiteral)
  }

  /** The description capture of a match is non-empty, on one line, between `at ` and the balance literal. */
  lemma DescriptionOfMatch(s: string, m: Match)
    requires Matches(s, m)
    ensures var x := DescriptionText(s, m);
      && |x| > 0
      && (forall k :: 0 <= k < |x| ==> !IsLineTerminator(x[k]))
      && DescribedAt(s, m.atAt, x)
  {
    var x := DescriptionText(s, m);
    assert forall k :: 0 <= k < |x| ==> x[k] == s[m.atAt + 3 + k];
  }

  /**
   * The description is never empty, lies on one line, follows an `at ` of the
   * body and is followed by `. Avl Bal: Rs. `.
   */
  lemma DescriptionIsOneLine(body: string)
    requires ParseTransaction(body).Some?
    ensures var x := ParseTransaction(body).value.description;
      && |x| > 0
      && (forall k :: 0 <= k < |x| ==> !IsLineTerminator(x[k]))
      && exists a: nat :: DescribedAt(body, a, x)
  {
    RecordOfFoundMatch(body);
    var m := FindMatch(body).value;
    DescriptionOfMatch(body, m);
  }

  /** Where a literal free of line terminators stands at `i`, its span in `s` holds no line terminator either. */
  lemma LiteralHasNoLineTerminator(s: string, i: nat, lit: string)
    requires LiteralAt(s, i, lit) && forall k :: 0 <= k < |lit| ==> !IsLineTerminator(lit[k])
    ensures NoLineTerminator(s, i, i + |lit|)
  {
    assert forall k :: i <= k < i + |lit| ==> s[k] == lit[k - i];
  }

  /** Everything the pattern matched, from `Rs. ` to the end of the balance, is on one line. */
  lemma MatchIsOneLine(s: string, m: Match)
    requires Matches(s, m)
    ensures NoLineTerminator(s, m.start, m.balance.end)
  {
    LiteralHasNoLineTerminator(s, m.start, RsLiteral);
    LiteralHasNoLineTerminator(s, m.onAt, OnLiteral);
    LiteralHasNoLineTerminator(s, m.atAt, AtLiteral);
    LiteralHasNoLineTerminator(s, m.balanceAt, BalanceLiteral);
    NumberChars(s, m.start + |RsLiteral|, m.amount);
    NumberChars(s, m.balanceAt + |BalanceLiteral|, m.balance);
    forall k | m.start <= k < m.balance.end ensures !IsLineTerminator(s[k]) {
      if m.onAt + 3 <= k < m.onAt + 13 {
        assert IsDigit(s[k]) || s[k] == '-';
      }
    }
  }

  /**
   * The record is built from a match that lies within one line of the body,
   * with `Rs. `, `on ` and a date, `at `, the description and
   * `. Avl Bal: Rs. ` in that order.
   */
  lemma RecordComesFromOneLine(body: string)
    requires ParseTransaction(body).Some?
    ensures var m := FindMatch(body).value;
      && Matches(body, m)
      && ParseTransaction(body).value == ToTransaction(body, m)
      && m.start < m.onAt < m.atAt < m.balanceAt < m.balance.end
      && NoLineTerminator(body, m.start, m.balance.end)
  {
    RecordOfFoundMatch(body);
    MatchIsOneLine(body, FindMatch(body).value);
  }

  /**
   * Where the parts are chosen: the leftmost `Rs. ` from which the pattern
   * matches, the longest amount there, then the last `on `, the last `at `
   * and the last balance literal that still let the rest match, and the
   * longest balance.
   */
  lemma ChoicesAreGreedy(body: string, m': Match)
    requires ParseTransaction(body).Some? && Matches(body, m')
    ensures var m := FindMatch(body).value;
      && Matches(body, m)
      && ParseTransaction(body).value == ToTransaction(body, m)
      && GreedierThan(m, m')
  {
    RecordOfFoundMatch(body);
    FindMatchCorrect(body);
    SelectedChoices(body, FindMatch(body).value, m');
  }

  /**
   * A record comes back only when `Rs. `, `on ` followed by a date, `at ` and
   * `. Avl Bal: Rs. ` appear in the body in that order; without one of them
   * the result is `null`.
   */
  lemma RecordNeedsAllParts(body: string)
    requires ParseTransaction(body).Some?
    ensures exists i: nat, p: nat, a: nat, b: nat ::
      i < p < a < b && LiteralAt(body, i, RsLiteral) && LiteralAt(body, p, OnLiteral) &&
      DateAt(body, p + |OnLiteral|) && LiteralAt(body, a, AtLiteral) && LiteralAt(body, b, BalanceLiteral)
  {
    RecordOfFoundMatch(body);
    var m := FindMatch(body).value;
    assert m.start < m.onAt < m.atAt < m.balanceAt;
  }
}
