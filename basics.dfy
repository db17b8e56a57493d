/** Shared vocabulary of the window utilities: optional values, results,
    what reading a window's location yields, and the first-match search
    that `Array.prototype.find` and `document.getElementById` perform. */
module Basics {

  datatype Option<+T> = None | Some(value: T)

  datatype Result<+T, +E> = Success(value: T) | Failure(error: E)

  /** The outcome of reading `location.hash` of a window or of an iframe's
      content window: a cross-origin window throws, a same-origin one
      yields its fragment (including the leading '#', or "" when none). */
  datatype HashRead = CrossOrigin | SameOrigin(hash: string)

  /** The predicate handed to `find` by the hash lookups: a read that
      throws is caught and counts as "no match". */
  predicate HashMatches(read: HashRead, hash: string)
  {
    read.SameOrigin? && read.hash == hash
  }

  /** The index of the first element of `xs` satisfying `p`, if any. */
  function Find<T>(xs: seq<T>, p: T -> bool): (r: Option<nat>)
    ensures r.Some? ==> r.value < |xs| && p(xs[r.value])
    ensures r.Some? ==> forall j :: 0 <= j < r.value ==> !p(xs[j])
    ensures r.None? <==> forall j :: 0 <= j < |xs| ==> !p(xs[j])
  {
    if |xs| == 0 then None
    else if p(xs[0]) then Some(0)
    else match Find(xs[1..], p)
      case None => None
      case Some(k) => Some(k + 1)
  }

  /** Appending an element never changes an earlier match; it can only
      supply a match where there was none. */
  lemma {:induction false} FindAppend<T>(xs: seq<T>, x: T, p: T -> bool)
    ensures Find(xs + [x], p) ==
      if Find(xs, p).Some? then Find(xs, p)
      else if p(x) then Some(|xs|)
      else None
  {
    if |xs| > 0 {
      assert (xs + [x])[1..] == xs[1..] + [x];
      FindAppend(xs[1..], x, p);
    }
  }
}
