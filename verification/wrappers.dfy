/** Values the other modules share. */
module Wrappers {
  datatype Option<T> = None | Some(value: T)

  /** The two sides of a book, and the two kinds of trade. */
  datatype Side = Bid | Ask {
    function Opposite(): Side { if Bid? then Ask else Bid }
  }

  predicate Distinct<T(==)>(s: seq<T>) { forall i, j :: 0 <= i < j < |s| ==> s[i] != s[j] }

  function Abs(x: real): real { if x < 0.0 then -x else x }
}
