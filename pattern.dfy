/**
 * The regular expression of the transaction parser,
 *
 *   /Rs\. ([\d,]+\.?\d*).*on (\d{2}-\d{2}-\d{4}).*at (.+)\. Avl Bal: Rs\. ([\d,]+\.?\d*)/
 *
 * under JavaScript's matching rules. `Matches` says which positions form A
 * match; `Before` is the order in which a backtracking engine meets the
 * matches (leftmost start first, then each quantifier, taken left to right,
 * tries its longest length and `?` its present alternative first);
 * `Selected` is THE match that `String.prototype.match` reports, the first in
 * that order. `FindMatch` computes it.
 */
module Pattern {

  import opened Wrappers
  import opened Text
  import opened Search

  const RsLiteral := "Rs. "
  const OnLiteral := "on "
  const AtLiteral := "at "
  const BalanceLiteral := ". Avl Bal: Rs. "

  /**
   * The choices made matching `[\d,]+\.?\d*`: where `[\d,]+` stops, whether
   * `\.?` takes a dot, and where `\d*` stops (the end of the capture).
   */
  datatype NumSpan = NumSpan(intEnd: nat, dot: bool, end: nat)

  function FracStart(n: NumSpan): nat {
    if n.dot then n.intEnd + 1 else n.intEnd
  }

  /** `[\d,]+\.?\d*` matches at `i` with the choices `n`. */
  predicate NumberAt(s: string, i: nat, n: NumSpan) {
    && i < n.intEnd <= |s|
    && AllDigitOrComma(s, i, n.intEnd)
    && (n.dot ==> n.intEnd < |s| && s[n.intEnd] == '.')
    && FracStart(n) <= n.end <= |s|
    && AllDigits(s, FracStart(n), n.end)
  }

  /** `\d{2}-\d{2}-\d{4}` matches at `i`. */
  predicate DateAt(s: string, i: nat) {
    && i + 10 <= |s|
    && IsDigit(s[i]) && IsDigit(s[i + 1]) && s[i + 2] == '-'
    && IsDigit(s[i + 3]) && IsDigit(s[i + 4]) && s[i + 5] == '-'
    && IsDigit(s[i + 6]) && IsDigit(s[i + 7]) && IsDigit(s[i + 8]) && IsDigit(s[i + 9])
  }

  /** `\. Avl Bal: Rs\. ([\d,]+\.?\d*)` matches at `b`. */
  predicate BalanceTail(s: string, b: nat, n: NumSpan) {
    LiteralAt(s, b, BalanceLiteral) && NumberAt(s, b + |BalanceLiteral|, n)
  }

  /** `at (.+)` followed by the balance tail at `b` matches at `a`. */
  predicate DescriptionTail(s: string, a: nat, b: nat, n: NumSpan) {
    && LiteralAt(s, a, AtLiteral)
    && a + |AtLiteral| < b <= |s|
    && NoLineTerminator(s, a + |AtLiteral|, b)
    && BalanceTail(s, b, n)
  }

  /** `on (\d{2}-\d{2}-\d{4}).*` followed by the description tail at `a` matches at `p`. */
  predicate DateTail(s: string, p: nat, a: nat, b: nat, n: NumSpan) {
    && LiteralAt(s, p, OnLiteral)
    && DateAt(s, p + |OnLiteral|)
    && p + 13 <= a <= |s|
    && NoLineTerminator(s, p + 13, a)
    && DescriptionTail(s, a, b, n)
  }

  /**
   * One way the whole pattern can match: where it starts, the amount's
   * choices, where `on `, `at ` and `. Avl Bal: Rs. ` are matched, and the
   * balance's choices. Every capture is determined by these positions.
   */
  datatype Match = Match(start: nat, amount: NumSpan, onAt: nat, atAt: nat, balanceAt: nat, balance: NumSpan)

  predicate Matches(s: string, m: Match) {
    && LiteralAt(s, m.start, RsLiteral)
    && NumberAt(s, m.start + |RsLiteral|, m.amount)
    && m.amount.end <= m.onAt <= |s|
    && NoLineTerminator(s, m.amount.end, m.onAt)
    && DateTail(s, m.onAt, m.atAt, m.balanceAt, m.balance)
  }

  /** `[\d,]+\.?\d*` tries the choices `n` before the choices `n'`. */
  predicate NumberBefore(n: NumSpan, n': NumSpan) {
    || n.intEnd > n'.intEnd
    || (n.intEnd == n'.intEnd && n.dot && !n'.dot)
    || (n.intEnd == n'.intEnd && n.dot == n'.dot && n.end > n'.end)
  }

  /** After `at `, `.+` ending at `b` then the balance `n` is tried before `b'`, `n'`. */
  predicate DescriptionBefore(b: nat, n: NumSpan, b': nat, n': NumSpan) {
    b > b' || (b == b' && NumberBefore(n, n'))
  }

  /** After the date, `.*` ending at `a` (and what follows) is tried before `a'` (and what follows). */
  predicate DateBefore(a: nat, b: nat, n: NumSpan, a': nat, b': nat, n': NumSpan) {
    a > a' || (a == a' && DescriptionBefore(b, n, b', n'))
  }

  /** The backtracking engine meets match `m` before match `m'`. */
  predicate Before(m: Match, m': Match) {
    || m.start < m'.start
    || (m.start == m'.start && NumberBefore(m.amount, m'.amount))
    || (m.start == m'.start && m.amount == m'.amount && m.onAt > m'.onAt)
    || (m.start == m'.start && m.amount == m'.amount && m.onAt == m'.onAt
        && DateBefore(m.atAt, m.balanceAt, m.balance, m'.atAt, m'.balanceAt, m'.balance))
  }

  /** `m` is the match JavaScript reports: a match met before every other one. */
  ghost predicate Selected(s: string, m: Match) {
    Matches(s, m) && forall m' :: Matches(s, m') && m' != m ==> Before(m, m')
  }

  // ---------------------------------------------------------------------
  // The matcher: each function tries the alternatives of one piece of the
  // pattern in the engine's order and keeps the first that lets the rest match.
  // ---------------------------------------------------------------------

  /** `[\d,]+\.?\d*` at `i`: every quantifier takes as much as it can. */
  function GreedyNumber(s: string, i: nat): (r: Option<NumSpan>)
    ensures r.Some? ==> NumberAt(s, i, r.value)
    ensures r.Some? ==> forall n :: NumberAt(s, i, n) && n != r.value ==> NumberBefore(r.value, n)
    ensures r.None? ==> forall n :: !NumberAt(s, i, n)
  {
    if i < |s| && IsDigitOrComma(s[i]) then
      var k := DigitOrCommaRunEnd(s, i);
      var dot := k < |s| && s[k] == '.';
      var e := DigitRunEnd(s, if dot then k + 1 else k);
      Some(NumSpan(k, dot, e))
    else
      None
  }

  function TryBalance(s: string, b: nat): (r: Option<NumSpan>)
    ensures r.Some? ==> BalanceTail(s, b, r.value)
    ensures r.Some? ==> forall n :: BalanceTail(s, b, n) && n != r.value ==> NumberBefore(r.value, n)
    ensures r.None? ==> forall n :: !BalanceTail(s, b, n)
  {
    if LiteralAt(s, b, BalanceLiteral) then GreedyNumber(s, b + |BalanceLiteral|) else None
  }

  /** `at ` at `a`, then `.+` from its longest length down. */
  function TryDescription(s: string, a: nat): Option<(nat, NumSpan)> {
    if LiteralAt(s, a, AtLiteral) then
      LastSome(a + |AtLiteral| + 1, LineEnd(s, a + |AtLiteral|), b => TryBalance(s, b))
    else
      None
  }

  /** `on ` and the date at `p`, then `.*` from its longest length down. */
  function TryDate(s: string, p: nat): Option<(nat, (nat, NumSpan))> {
    if LiteralAt(s, p, OnLiteral) && DateAt(s, p + |OnLiteral|) then
      LastSome(p + 13, LineEnd(s, p + 13), a => TryDescription(s, a))
    else
      None
  }

  /** The first match met at start position `st`, if any. */
  function MatchAt(s: string, st: nat): Option<Match> {
    if !LiteralAt(s, st, RsLiteral) then None
    else
      match GreedyNumber(s, st + |RsLiteral|)
      case None => None
      case Some(amount) =>
        match LastSome(amount.end, LineEnd(s, amount.end), p => TryDate(s, p))
        case None => None
        case Some((p, (a, (b, n)))) => Some(Match(st, amount, p, a, b, n))
  }

  /** The match `String.prototype.match` reports, trying start positions from the left. */
  function FindMatch(s: string): Option<Match> {
    match FirstSome(0, |s|, st => MatchAt(s, st))
    case None => None
    case Some((_, m)) => Some(m)
  }

  // ---------------------------------------------------------------------
  // The matcher finds exactly the selected match.
  // ---------------------------------------------------------------------

  /** `at (.+)` and the rest: the first alternative found is met before every other one. */
  lemma TryDescriptionCorrect(s: string, a: nat)
    ensures TryDescription(s, a).Some? ==>
      var (b, n) := TryDescription(s, a).value;
      && DescriptionTail(s, a, b, n)
      && forall b': nat, n' :: DescriptionTail(s, a, b', n') && (b', n') != (b, n) ==> DescriptionBefore(b, n, b', n')
    ensures TryDescription(s, a).None? ==> forall b': nat, n' :: !DescriptionTail(s, a, b', n')
  {
    var r := TryDescription(s, a);
    if LiteralAt(s, a, AtLiteral) {
      var lo := a + |AtLiteral|;
      var f := (b: nat) => TryBalance(s, b);
      assert r == LastSome(lo + 1, LineEnd(s, lo), f);
      forall b': nat, n' | DescriptionTail(s, a, b', n')
        ensures r.Some? && (r.value.0 > b' || (r.value.0 == b' && TryBalance(s, b') == Some(r.value.1)))
      {
        NoLineTerminatorUpToLineEnd(s, lo, b');
        assert f(b').Some?;
      }
      if r.Some? {
        NoLineTerminatorUpToLineEnd(s, lo, r.value.0);
      }
    }
  }

  /** `on ` and the date, `.*` and the rest: the first alternative found is met before every other one. */
  lemma TryDateCorrect(s: string, p: nat)
    ensures TryDate(s, p).Some? ==>
      var (a, (b, n)) := TryDate(s, p).value;
      && DateTail(s, p, a, b, n)
      && forall a': nat, b': nat, n' :: DateTail(s, p, a', b', n') && (a', b', n') != (a, b, n) ==>
           DateBefore(a, b, n, a', b', n')
    ensures TryDate(s, p).None? ==> forall a': nat, b': nat, n' :: !DateTail(s, p, a', b', n')
  {
    var r := TryDate(s, p);
    if LiteralAt(s, p, OnLiteral) && DateAt(s, p + |OnLiteral|) {
      var lo := p + 13;
      var f := (a: nat) => TryDescription(s, a);
      assert r == LastSome(lo, LineEnd(s, lo), f);
      forall a': nat, b': nat, n' | DateTail(s, p, a', b', n')
        ensures r.Some? && (r.value.0 > a' || (r.value.0 == a' && TryDescription(s, a') == Some(r.value.1)))
      {
        NoLineTerminatorUpToLineEnd(s, lo, a');
        TryDescriptionCorrect(s, a');
        assert f(a').Some?;
      }
      if r.Some? {
        NoLineTerminatorUpToLineEnd(s, lo, r.value.0);
        TryDescriptionCorrect(s, r.value.0);
      }
    }
  }

  /** A number capture consists of digits, commas and at most one dot. */
  lemma NumberChars(s: string, i: nat, n: NumSpan)
    requires NumberAt(s, i, n)
    ensures i < n.end <= |s| && AllNumberChars(s, i, n.end)
  {
  }

  /**
   * Backtracking into the amount never changes what can follow it: any other
   * way of matching `[\d,]+\.?\d*` at the same place leaves the rest of the
   * match intact, because `on ` cannot begin inside a number.
   */
  lemma ReplaceAmount(s: string, m: Match, n: NumSpan)
    requires Matches(s, m) && NumberAt(s, m.start + |RsLiteral|, n)
    ensures Matches(s, m.(amount := n))
  {
    var i := m.start + |RsLiteral|;
    NumberChars(s, i, m.amount);
    NumberChars(s, i, n);
    assert s[m.onAt] == OnLiteral[0];
    forall k | n.end <= k < m.onAt ensures !IsLineTerminator(s[k]) {
      if k < m.amount.end {
        assert IsNumberChar(s[k]);
      }
    }
  }

  /** What `MatchAt` finds is a match that starts where it looked. */
  lemma MatchAtSound(s: string, st: nat)
    ensures MatchAt(s, st).Some? ==> MatchAt(s, st).value.start == st && Matches(s, MatchAt(s, st).value)
  {
    var g := GreedyNumber(s, st + |RsLiteral|);
    if LiteralAt(s, st, RsLiteral) && g.Some? {
      var amount := g.value;
      var q := LastSome(amount.end, LineEnd(s, amount.end), (p: nat) => TryDate(s, p));
      if q.Some? {
        NoLineTerminatorUpToLineEnd(s, amount.end, q.value.0);
        TryDateCorrect(s, q.value.0);
      }
    }
  }

  /** Every match that starts at `st` is `MatchAt(s, st)` or is met after it. */
  lemma MatchAtFirst(s: string, st: nat, m': Match)
    requires Matches(s, m') && m'.start == st
    ensures MatchAt(s, st).Some?
    ensures MatchAt(s, st).value == m' || Before(MatchAt(s, st).value, m')
  {
    var amount := GreedyNumber(s, st + |RsLiteral|).value;
    var f := (p: nat) => TryDate(s, p);
    var q := LastSome(amount.end, LineEnd(s, amount.end), f);
    assert q.Some? && m'.onAt <= q.value.0 by {
      ReplaceAmount(s, m', amount);
      NoLineTerminatorUpToLineEnd(s, amount.end, m'.onAt);
      TryDateCorrect(s, m'.onAt);
      assert f(m'.onAt).Some?;
    }
    var (p, (a, (b, n))) := q.value;
    assert MatchAt(s, st) == Some(Match(st, amount, p, a, b, n));
    if m'.amount == amount && m'.onAt == p && (m'.atAt, m'.balanceAt, m'.balance) != (a, b, n) {
      assert f(p) == Some((a, (b, n)));
      TryDateCorrect(s, p);
      assert DateTail(s, p, m'.atAt, m'.balanceAt, m'.balance);
    }
  }

  /** At one start position, `MatchAt` finds the match met first there, or shows there is none. */
  lemma MatchAtCorrect(s: string, st: nat)
    ensures MatchAt(s, st).Some? ==>
      var m := MatchAt(s, st).value;
      && m.start == st
      && Matches(s, m)
      && forall m' :: Matches(s, m') && m'.start == st && m' != m ==> Before(m, m')
    ensures MatchAt(s, st).None? ==> forall m' :: Matches(s, m') ==> m'.start != st
  {
    MatchAtSound(s, st);
    forall m' | Matches(s, m') && m'.start == st
      ensures MatchAt(s, st).Some? && (MatchAt(s, st).value == m' || Before(MatchAt(s, st).value, m'))
    {
      MatchAtFirst(s, st, m');
    }
  }

  /** No match is met both before and after another one. */
  lemma BeforeAsymmetric(m: Match, m': Match)
    ensures !(Before(m, m') && Before(m', m))
  {
  }

  /** Every match is the one `FindMatch` reports or is met after it. */
  lemma FindMatchFirst(s: string, m: Match)
    requires Matches(s, m)
    ensures FindMatch(s).Some?
    ensures FindMatch(s).value == m || Before(FindMatch(s).value, m)
  {
    var f := (st: nat) => MatchAt(s, st);
    MatchAtCorrect(s, m.start);
    assert f(m.start).Some?;
    var (st, found) := FirstSome(0, |s|, f).value;
    MatchAtCorrect(s, st);
  }

  /**
   * `FindMatch` reports the selected match when the pattern matches anywhere,
   * and nothing when it matches nowhere.
   */
  lemma FindMatchCorrect(s: string)
    ensures FindMatch(s).Some? ==> Selected(s, FindMatch(s).value)
    ensures FindMatch(s).None? ==> forall m :: !Matches(s, m)
    ensures forall m :: Selected(s, m) <==> FindMatch(s) == Some(m)
  {
    forall m | Matches(s, m) ensures FindMatch(s).Some? && (FindMatch(s).value == m || Before(FindMatch(s).value, m)) {
      FindMatchFirst(s, m);
    }
    if FindMatch(s).Some? {
      var m := FindMatch(s).value;
      var f := (st: nat) => MatchAt(s, st);
      var st := FirstSome(0, |s|, f).value.0;
      MatchAtCorrect(s, st);
      assert Matches(s, m);
      forall m' | Selected(s, m') ensures m' == m {
        BeforeAsymmetric(m, m');
      }
    }
  }

  // ---------------------------------------------------------------------
  // What the selected match looks like: each quantifier's choice is the
  // greediest one that still lets the rest of the pattern match.
  // ---------------------------------------------------------------------

  /** The number the engine keeps at `i` is the longest one there. */
  lemma GreedyNumberLongest(s: string, i: nat, n: NumSpan)
    requires NumberAt(s, i, n)
    ensures GreedyNumber(s, i).Some? && n.end <= GreedyNumber(s, i).value.end
  {
  }

  lemma NumberBeforeAsymmetric(n: NumSpan, n': NumSpan)
    ensures !(NumberBefore(n, n') && NumberBefore(n', n))
  {
  }

  /** The selected match starts at the leftmost position where the pattern matches. */
  lemma SelectedIsLeftmost(s: string, m: Match, m': Match)
    requires Selected(s, m) && Matches(s, m')
    ensures m.start <= m'.start
  {
  }

  /** The selected amount is the greedy number after `Rs. `. */
  lemma SelectedAmountIsGreedy(s: string, m: Match)
    requires Selected(s, m)
    ensures GreedyNumber(s, m.start + |RsLiteral|) == Some(m.amount)
  {
    var g := GreedyNumber(s, m.start + |RsLiteral|).value;
    ReplaceAmount(s, m, g);
    if g != m.amount {
      assert Before(m, m.(amount := g));
      NumberBeforeAsymmetric(g, m.amount);
    }
  }

  /** The selected balance is the greedy number after `. Avl Bal: Rs. `. */
  lemma SelectedBalanceIsGreedy(s: string, m: Match)
    requires Selected(s, m)
    ensures GreedyNumber(s, m.balanceAt + |BalanceLiteral|) == Some(m.balance)
  {
    var g := GreedyNumber(s, m.balanceAt + |BalanceLiteral|).value;
    var m' := m.(balance := g);
    assert Matches(s, m');
    if g != m.balance {
      assert Before(m, m');
      NumberBeforeAsymmetric(g, m.balance);
    }
  }

  /** `.*` before `on `: the selected `on ` is the last one any match from the same start can use. */
  lemma SelectedOnIsLast(s: string, m: Match, m': Match)
    requires Selected(s, m) && Matches(s, m') && m'.start == m.start
    ensures m'.onAt <= m.onAt
  {
    SelectedAmountIsGreedy(s, m);
    ReplaceAmount(s, m', m.amount);
    var m'' := m'.(amount := m.amount);
    if m'' != m {
      assert Before(m, m'');
    }
  }

  /** `.*` before `at `: with the same `on `, the selected `at ` is the last usable one. */
  lemma SelectedAtIsLast(s: string, m: Match, m': Match)
    requires Selected(s, m) && Matches(s, m') && m'.start == m.start && m'.onAt == m.onAt
    ensures m'.atAt <= m.atAt
  {
    SelectedAmountIsGreedy(s, m);
    ReplaceAmount(s, m', m.amount);
    var m'' := m'.(amount := m.amount);
    if m'' != m {
      assert Before(m, m'');
    }
  }

  /** `(.+)` in the description: with the same `at `, the selected balance literal is the last usable one. */
  lemma SelectedBalanceLiteralIsLast(s: string, m: Match, m': Match)
    requires Selected(s, m) && Matches(s, m') && m'.start == m.start && m'.onAt == m.onAt && m'.atAt == m.atAt
    ensures m'.balanceAt <= m.balanceAt
  {
    SelectedAmountIsGreedy(s, m);
    ReplaceAmount(s, m', m.amount);
    var m'' := m'.(amount := m.amount);
    if m'' != m {
      assert Before(m, m'');
    }
  }

  /**
   * `m` makes each choice at least as greedily as `m'` wherever the two agree
   * on the choices before it: start, amount length, `on `, `at `, balance
   * literal and balance length, in the order the pattern makes them.
   */
  predicate GreedierThan(m: Match, m': Match) {
    && m.start <= m'.start
    && (m'.start == m.start ==> m'.amount.end <= m.amount.end && m'.onAt <= m.onAt)
    && (m'.start == m.start && m'.onAt == m.onAt ==> m'.atAt <= m.atAt)
    && (m'.start == m.start && m'.onAt == m.onAt && m'.atAt == m.atAt ==>
          m'.balanceAt <= m.balanceAt)
    && (m'.start == m.start && m'.onAt == m.onAt && m'.atAt == m.atAt && m'.balanceAt == m.balanceAt ==>
          m'.balance.end <= m.balance.end)
  }

  /** The selected match is greedier than every other match. */
  lemma SelectedChoices(s: string, m: Match, m': Match)
    requires Selected(s, m) && Matches(s, m')
    ensures GreedierThan(m, m')
  {
    SelectedIsLeftmost(s, m, m');
    if m'.start == m.start {
      SelectedAmountIsLongest(s, m, m');
      SelectedOnIsLast(s, m, m');
      if m'.onAt == m.onAt {
        SelectedAtIsLast(s, m, m');
        if m'.atAt == m.atAt {
          SelectedBalanceLiteralIsLast(s, m, m');
          if m'.balanceAt == m.balanceAt {
            SelectedBalanceIsLongest(s, m, m');
          }
        }
      }
    }
  }

  /** No match from the same start has a longer amount than the selected one. */
  lemma SelectedAmountIsLongest(s: string, m: Match, m': Match)
    requires Selected(s, m) && Matches(s, m') && m'.start == m.start
    ensures m'.amount.end <= m.amount.end
  {
    SelectedAmountIsGreedy(s, m);
    GreedyNumberLongest(s, m.start + |RsLiteral|, m'.amount);
  }

  /** No match with the same balance literal has a longer balance than the selected one. */
  lemma SelectedBalanceIsLongest(s: string, m: Match, m': Match)
    requires Selected(s, m) && Matches(s, m') && m'.balanceAt == m.balanceAt
    ensures m'.balance.end <= m.balance.end
  {
    SelectedBalanceIsGreedy(s, m);
    assert BalanceTail(s, m'.balanceAt, m'.balance) by {
      assert DateTail(s, m'.onAt, m'.atAt, m'.balanceAt, m'.balance);
    }
    BalanceTailLongest(s, m'.balanceAt, m'.balance);
  }

  /** A balance is never longer than the greedy number after its balance literal. */
  lemma BalanceTailLongest(s: string, b: nat, n: NumSpan)
    requires BalanceTail(s, b, n)
    ensures GreedyNumber(s, b + |BalanceLiteral|).Some? && n.end <= GreedyNumber(s, b + |BalanceLiteral|).value.end
  {
    GreedyNumberLongest(s, b + |BalanceLiteral|, n);
  }
}
