/** Route normalisation applied to every fixture's route when it is built. */
module Paths {

  /** A route as the dispatcher expects it: non-empty and rooted at '/'. */
  predicate IsRooted(p: string) {
    0 < |p| && p[0] == '/'
  }

  /**
   * standardizePath: the empty route becomes "/", a route already starting
   * with '/' is kept, and any other route gets a leading '/'.
   */
  function Standardize(p: string): (r: string)
    ensures IsRooted(r)
    ensures IsRooted(p) ==> r == p
    ensures !IsRooted(p) ==> r[1..] == p
  {
    if |p| == 0 then "/"
    else if p[0] == '/' then p
    else "/" + p
  }

  /** Normalising twice is the same as normalising once. */
  lemma StandardizeIdempotent(p: string)
    ensures Standardize(Standardize(p)) == Standardize(p)
  {
  }

  /** The original route survives as a suffix, after at most one added '/'. */
  lemma StandardizeKeepsRoute(p: string)
    ensures |p| <= |Standardize(p)| <= |p| + 1
    ensures Standardize(p)[|Standardize(p)| - |p|..] == p
  {
  }
}
