/**
 * The search strategy shared by `re.search` and by the first element of
 * `re.findall`: try the pattern at each start position in turn, left to right,
 * and take the first attempt that succeeds.
 */
module Scan {
  import opened Wrappers

  /** A successful attempt and the position where it started. */
  datatype Found<T> = Found(pos: nat, value: T)

  /** The first successful attempt among `a[i..]`, where `a[p]` is the outcome of
      attempting a match at position `p`. */
  function FirstSome<T>(a: seq<Option<T>>, i: nat): (r: Option<Found<T>>)
    requires i <= |a|
    ensures r.Some? ==> i <= r.value.pos < |a| && a[r.value.pos] == Some(r.value.value)
    ensures r.Some? ==> forall p :: i <= p < r.value.pos ==> a[p].None?
    ensures r.None? ==> forall p :: i <= p < |a| ==> a[p].None?
    decreases |a| - i
  {
    if i == |a| then None
    else if a[i].Some? then Some(Found(i, a[i].value))
    else FirstSome(a, i + 1)
  }

  /** When `a[p]` is the first success from `i` on, the search returns it. */
  lemma {:induction false} FirstSomeAt<T>(a: seq<Option<T>>, i: nat, p: nat)
    requires i <= p < |a| && a[p].Some?
    requires forall q :: i <= q < p ==> a[q].None?
    ensures FirstSome(a, i) == Some(Found(p, a[p].value))
    decreases p - i
  {
    if i < p {
      FirstSomeAt(a, i + 1, p);
    }
  }
}
