/** What every component needs. */
module Common {

  /** A value that may be missing. */
  datatype Option<+T> = None | Some(value: T)

  /** A float: finite, or infinite or not a number. */
  datatype Number = Finite(v: real) | NonFinite

  lemma HasMember(s: set<int>)
    ensures s == {} || exists x :: x in s
  {
    if forall x :: x !in s {
      assert s == {};
    }
  }

  /** A square root, of which only the defining property is used. */
  ghost predicate IsSqrt(sqrt: real -> real) {
    forall x :: x >= 0.0 ==> sqrt(x) >= 0.0 && sqrt(x) * sqrt(x) == x
  }
}
