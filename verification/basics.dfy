/** Small shared vocabulary: optional values, success/failure results and a
    first-match search, the in-memory stand-in for a document store's
    `findOne` over a collection kept in insertion order. */
module Basics {

  datatype Option<+T> = None | Some(value: T)

  datatype Result<+R, +E> = Success(value: R) | Failure(error: E)

  /** Identifier of a stored user document: its position in the user collection. */
  type UserId = nat

  /** Position of the first element satisfying `p`, as a document store's
      `findOne` without a sort returns the first match in natural order. */
  function FirstIndex<T>(xs: seq<T>, p: T -> bool): (r: Option<nat>)
    ensures r.Some? ==> r.value < |xs| && p(xs[r.value])
    ensures r.Some? ==> forall j :: 0 <= j < r.value ==> !p(xs[j])
    ensures r.None? <==> forall j :: 0 <= j < |xs| ==> !p(xs[j])
  {
    if |xs| == 0 then None
    else if p(xs[0]) then Some(0)
    else
      match FirstIndex(xs[1..], p)
      case None => None
      case Some(k) => Some(k + 1)
  }

  /** The first match is the only match when exactly one element matches. */
  lemma FirstIndexOfUnique<T>(xs: seq<T>, p: T -> bool, k: nat)
    requires k < |xs| && p(xs[k])
    requires forall j :: 0 <= j < |xs| && j != k ==> !p(xs[j])
    ensures FirstIndex(xs, p) == Some(k)
  {
  }
}
