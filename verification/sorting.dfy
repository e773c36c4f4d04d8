/** The built-in stable sort, for any order of the elements. */
module Sorting {
  import opened Wrappers

  /** Any two values compare. */
  ghost predicate Total<T(!new)>(le: (T, T) -> bool) {
    && (forall a, b :: le(a, b) || le(b, a))
    && (forall a, b, c :: le(a, b) && le(b, c) ==> le(a, c))
  }

  predicate Sorted<T>(le: (T, T) -> bool, s: seq<T>) { forall i, j :: 0 <= i < j < |s| ==> le(s[i], s[j]) }

  /** Behind everything that may stand before it. */
  function Insert<T>(le: (T, T) -> bool, s: seq<T>, x: T): (r: seq<T>)
    ensures |r| == |s| + 1
  {
    if s != [] && !le(s[|s| - 1], x) then Insert(le, s[..|s| - 1], x) + [s[|s| - 1]] else s + [x]
  }

  function Sort<T>(le: (T, T) -> bool, s: seq<T>): (r: seq<T>)
    ensures |r| == |s|
  {
    if s == [] then [] else Insert(le, Sort(le, s[..|s| - 1]), s[|s| - 1])
  }

  lemma {:induction false} InsertKeeps<T>(le: (T, T) -> bool, s: seq<T>, x: T)
    ensures multiset(Insert(le, s, x)) == multiset(s) + multiset{x}
  {
    if s != [] && !le(s[|s| - 1], x) {
      InsertKeeps(le, s[..|s| - 1], x);
      assert s == s[..|s| - 1] + [s[|s| - 1]];
    }
  }

  lemma {:induction false} InsertHas<T>(le: (T, T) -> bool, s: seq<T>, x: T)
    ensures forall y :: y in Insert(le, s, x) <==> y in s || y == x
  {
    if s != [] && !le(s[|s| - 1], x) {
      InsertHas(le, s[..|s| - 1], x);
      assert s == s[..|s| - 1] + [s[|s| - 1]];
    }
  }

  lemma {:induction false} InsertSorts<T(!new)>(le: (T, T) -> bool, s: seq<T>, x: T)
    requires Total(le) && Sorted(le, s)
    ensures Sorted(le, Insert(le, s, x))
    ensures x !in s && Distinct(s) ==> Distinct(Insert(le, s, x))
  {
    if s != [] && !le(s[|s| - 1], x) {
      var front, last := s[..|s| - 1], s[|s| - 1];
      InsertSorts(le, front, x);
      InsertHas(le, front, x);
      var r := Insert(le, front, x);
      forall i | 0 <= i < |r| ensures le(r[i], last) {
        assert r[i] in r;
      }
      assert x !in s && Distinct(s) ==> last !in front && last != x;
    } else if s != [] {
      forall i | 0 <= i < |s| ensures le(s[i], x) { assert i == |s| - 1 || le(s[i], s[|s| - 1]); }
    }
  }

  /** The sorted list is in order and a permutation. */
  lemma {:induction false} SortSorts<T(!new)>(le: (T, T) -> bool, s: seq<T>)
    requires Total(le)
    ensures Sorted(le, Sort(le, s)) && multiset(Sort(le, s)) == multiset(s)
    ensures Distinct(s) ==> Distinct(Sort(le, s))
  {
    if s != [] {
      var front, last := s[..|s| - 1], s[|s| - 1];
      assert s == front + [last];
      SortSorts(le, front);
      SortHas(le, front);
      assert Distinct(s) ==> last !in front;
      InsertSorts(le, Sort(le, front), last);
      InsertKeeps(le, Sort(le, front), last);
    }
  }

  lemma {:induction false} SortHas<T>(le: (T, T) -> bool, s: seq<T>)
    ensures forall x :: x in Sort(le, s) <==> x in s
  {
    if s != [] {
      SortHas(le, s[..|s| - 1]);
      InsertHas(le, Sort(le, s[..|s| - 1]), s[|s| - 1]);
      assert s == s[..|s| - 1] + [s[|s| - 1]];
    }
  }

  lemma InsertLast<T>(le: (T, T) -> bool, s: seq<T>, x: T)
    requires s == [] || le(s[|s| - 1], x)
    ensures Insert(le, s, x) == s + [x]
  {
  }

  /** A list already in order stays as it is. */
  lemma {:induction false} SortId<T>(le: (T, T) -> bool, s: seq<T>)
    requires Sorted(le, s)
    ensures Sort(le, s) == s
  {
    if s != [] {
      var front, last := s[..|s| - 1], s[|s| - 1];
      assert s == front + [last];
      SortId(le, front);
      InsertLast(le, front, last);
    }
  }

  /** The first element of a permuted list, taken out of the other one. */
  lemma TakeOut<T>(x: T, rest: seq<T>, s: seq<T>) returns (before: seq<T>, after: seq<T>)
    requires multiset([x] + rest) == multiset(s)
    ensures s == before + ([x] + after) && multiset(rest) == multiset(before + after)
  {
    assert multiset([x] + rest) == multiset{x} + multiset(rest);
    assert x in multiset(s);
    var k :| 0 <= k < |s| && s[k] == x;
    before, after := s[..k], s[k + 1..];
    assert s == before + ([x] + after);
    assert multiset(s) == multiset(before) + (multiset{x} + multiset(after));
    assert multiset(rest) == multiset(s) - multiset{x} == multiset(before) + multiset(after);
  }
}
