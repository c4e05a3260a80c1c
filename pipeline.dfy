/**
 * The success path of a fetch: every listed message's body goes through the
 * parser, in the order the messages were listed, and the bodies that did not
 * parse are dropped (`.map(m => parseTransaction(m.body)).filter(t => t !== null)`).
 */
module Pipeline {

  import opened Wrappers
  import opened Parser

  /** An SMS as the message source lists it; only `body` is read. */
  datatype Sms = Sms(body: string, date: string)

  /** The values of the `Some` entries, in order: `.filter(t => t !== null)`. */
  function Present<T>(xs: seq<Option<T>>): (r: seq<T>)
    ensures |r| <= |xs|
  {
    if xs == [] then [] else (if xs[0].Some? then [xs[0].value] else []) + Present(xs[1..])
  }

  /** The positions `i <= k < |xs|` whose entry is `Some`, in increasing order. */
  function SurvivorsFrom<T>(xs: seq<Option<T>>, i: nat): seq<nat>
    requires i <= |xs|
    decreases |xs| - i
  {
    if i == |xs| then [] else (if xs[i].Some? then [i] else []) + SurvivorsFrom(xs, i + 1)
  }

  predicate StrictlyIncreasing(idx: seq<nat>) {
    forall j, j' :: 0 <= j < j' < |idx| ==> idx[j] < idx[j']
  }

  /**
   * The filter is stable: its output is the values at exactly the `Some`
   * positions, taken in increasing order of position.
   */
  lemma {:induction false} PresentIsStable<T>(xs: seq<Option<T>>, i: nat)
    requires i <= |xs|
    ensures var idx, r := SurvivorsFrom(xs, i), Present(xs[i..]);
      && |idx| == |r|
      && StrictlyIncreasing(idx)
      && (forall j :: 0 <= j < |idx| ==> i <= idx[j] < |xs| && xs[idx[j]] == Some(r[j]))
      && (forall k :: i <= k < |xs| ==> (k in idx <==> xs[k].Some?))
    decreases |xs| - i
  {
    if i < |xs| {
      PresentIsStable(xs, i + 1);
      assert xs[i..][1..] == xs[i + 1..];
    }
  }

  /** Filtering a concatenation filters each part. */
  lemma {:induction false} PresentAppend<T>(xs: seq<Option<T>>, ys: seq<Option<T>>)
    ensures Present(xs + ys) == Present(xs) + Present(ys)
    decreases |xs|
  {
    if xs == [] {
      assert xs + ys == ys;
    } else {
      var h := if xs[0].Some? then [xs[0].value] else [];
      assert (xs + ys)[0] == xs[0];
      assert (xs + ys)[1..] == xs[1..] + ys;
      PresentAppend(xs[1..], ys);
      assert Present(xs + ys) == h + Present(xs[1..] + ys);
    }
  }

  /** The parser's answer for each message, in the order the messages were listed. */
  function ParseAll(messages: seq<Sms>): (r: seq<Option<Transaction>>)
    ensures |r| == |messages|
    ensures forall i :: 0 <= i < |messages| ==> r[i] == ParseTransaction(messages[i].body)
  {
    seq(|messages|, i requires 0 <= i < |messages| => ParseTransaction(messages[i].body))
  }

  /** The transactions a successful fetch stores. */
  function ParseMessages(messages: seq<Sms>): seq<Transaction> {
    Present(ParseAll(messages))
  }

  /**
   * The stored transactions are the parses of exactly the messages that
   * parse, in the order the messages were listed, and never more than the
   * messages listed.
   */
  lemma ParseMessagesKeepsOrder(messages: seq<Sms>)
    ensures |ParseMessages(messages)| <= |messages|
    ensures var r, idx := ParseMessages(messages), SurvivorsFrom(ParseAll(messages), 0);
      && |idx| == |r|
      && StrictlyIncreasing(idx)
      && (forall j :: 0 <= j < |idx| ==> idx[j] < |messages| && ParseTransaction(messages[idx[j]].body) == Some(r[j]))
      && (forall k :: 0 <= k < |messages| ==> (k in idx <==> ParseTransaction(messages[k].body).Some?))
  {
    var xs := ParseAll(messages);
    PresentIsStable(xs, 0);
    assert xs[0..] == xs;
  }

  /** Parsing a concatenation of message lists parses each list. */
  lemma ParseMessagesAppend(a: seq<Sms>, b: seq<Sms>)
    ensures ParseMessages(a + b) == ParseMessages(a) + ParseMessages(b)
  {
    assert ParseAll(a + b) == ParseAll(a) + ParseAll(b);
    PresentAppend(ParseAll(a), ParseAll(b));
  }

  /**
   * Three messages of which the first and the last parse give their two
   * records, the first one first.
   */
  lemma KeepsFirstAndThird(m1: Sms, m2: Sms, m3: Sms, t1: Transaction, t3: Transaction)
    requires ParseTransaction(m1.body) == Some(t1)
    requires ParseTransaction(m2.body) == None
    requires ParseTransaction(m3.body) == Some(t3)
    ensures ParseMessages([m1, m2, m3]) == [t1, t3]
  {
    ParseAllOfThree(m1, m2, m3);
    PresentOfThree(ParseAll([m1, m2, m3]), t1, t3);
  }

  lemma ParseAllOfThree(m1: Sms, m2: Sms, m3: Sms)
    ensures var xs := ParseAll([m1, m2, m3]);
      && |xs| == 3
      && xs[0] == ParseTransaction(m1.body)
      && xs[1] == ParseTransaction(m2.body)
      && xs[2] == ParseTransaction(m3.body)
  {
    var ms := [m1, m2, m3];
    assert ms[0] == m1 && ms[1] == m2 && ms[2] == m3;
  }

  lemma PresentOfThree<T>(xs: seq<Option<T>>, x: T, z: T)
    requires |xs| == 3 && xs[0] == Some(x) && xs[1] == None && xs[2] == Some(z)
    ensures Present(xs) == [x, z]
  {
    assert xs[1..][1..] == [Some(z)];
    assert Present([Some(z)]) == [z] by { assert [Some(z)][1..] == []; }
    assert Present(xs[1..]) == [z];
  }
}
