/**
 Small shared vocabulary: an optional value and a bounded search for the first
 index that satisfies a condition. The search is the reference against which
 both the retry loop and the write loop are stated.
 */
module Common {

  datatype Option<+T> = None | Some(value: T)

  /** The least index in [lo, hi) at which `p` holds, or None when there is none. */
  function FirstWhere(p: nat -> bool, lo: nat, hi: int): (r: Option<nat>)
    ensures r.Some? ==> lo <= r.value < hi && p(r.value)
    ensures r.Some? ==> forall k: nat :: lo <= k < r.value ==> !p(k)
    ensures r.None? <==> forall k: nat :: lo <= k < hi ==> !p(k)
    decreases hi - lo
  {
    if hi <= lo then None
    else if p(lo) then Some(lo)
    else FirstWhere(p, lo + 1, hi)
  }
}
