/** The first-match scan that both the caption queries and the time-range
    pattern search perform. */
module Search {
  import opened Wrappers

  /** `Array.prototype.find`, as a position: the first element that
      satisfies `p`, or `None` when none does. */
  function FindIndex<T>(xs: seq<T>, p: T -> bool): (r: Option<nat>)
    ensures r.None? <==> forall i :: 0 <= i < |xs| ==> !p(xs[i])
    ensures r.Some? ==> r.value < |xs| && p(xs[r.value])
                        && forall i :: 0 <= i < r.value ==> !p(xs[i])
  {
    if |xs| == 0 then None
    else if p(xs[0]) then Some(0)
    else
      match FindIndex(xs[1..], p)
      case None => None
      case Some(i) => Some(i + 1)
  }
}
