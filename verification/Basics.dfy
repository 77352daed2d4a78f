/** Small notions that several modules share. */
module Basics {
  function Abs(v: int): nat {
    if v < 0 then -v else v
  }

  predicate Distinct<T(==)>(s: seq<T>) {
    forall i, j :: 0 <= i < j < |s| ==> s[i] != s[j]
  }
}
