/**
 * The two orders in which a backtracking matcher tries the choices of one
 * choice point: every start position from the left (an unanchored match), and
 * every length of a greedy quantifier from the longest down.
 */
module Search {

  import opened Wrappers

  /** The largest `x` in `[lo, hi]` at which `f` yields a value, trying `hi` first. */
  function LastSome<T>(lo: nat, hi: nat, f: nat -> Option<T>): (r: Option<(nat, T)>)
    ensures r.Some? ==> lo <= r.value.0 <= hi && f(r.value.0) == Some(r.value.1)
    ensures r.Some? ==> forall x :: r.value.0 < x <= hi ==> f(x).None?
    ensures r.None? ==> forall x :: lo <= x <= hi ==> f(x).None?
    decreases hi
  {
    if hi < lo then None
    else if f(hi).Some? then Some((hi, f(hi).value))
    else if hi == lo then None
    else LastSome(lo, hi - 1, f)
  }

  /** The smallest `x` in `[lo, hi]` at which `f` yields a value, trying `lo` first. */
  function FirstSome<T>(lo: nat, hi: nat, f: nat -> Option<T>): (r: Option<(nat, T)>)
    ensures r.Some? ==> lo <= r.value.0 <= hi && f(r.value.0) == Some(r.value.1)
    ensures r.Some? ==> forall x :: lo <= x < r.value.0 ==> f(x).None?
    ensures r.None? ==> forall x :: lo <= x <= hi ==> f(x).None?
    decreases hi - lo
  {
    if hi < lo then None
    else if f(lo).Some? then Some((lo, f(lo).value))
    else if hi == lo then None
    else FirstSome(lo + 1, hi, f)
  }
}
