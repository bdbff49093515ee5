/** Sorting by a two-part key, the in-memory counterpart of the handlers' ORDER BY clauses. */
module Sorting {

  /** A lexicographic sort key: `major` first, then `minor`. */
  datatype Key = Key(major: int, minor: int)

  predicate KeyLe(a: Key, b: Key) {
    a.major < b.major || (a.major == b.major && a.minor <= b.minor)
  }

  ghost predicate SortedBy<T>(s: seq<T>, key: T -> Key) {
    forall i, j :: 0 <= i < j < |s| ==> KeyLe(key(s[i]), key(s[j]))
  }

  function InsertBy<T>(x: T, s: seq<T>, key: T -> Key): (r: seq<T>)
    requires SortedBy(s, key)
    ensures |r| == |s| + 1
    ensures SortedBy(r, key)
    ensures multiset(r) == multiset(s) + multiset{x}
  {
    if s == [] then [x]
    else if KeyLe(key(x), key(s[0])) then [x] + s
    else
      var rest := InsertBy(x, s[1..], key);
      assert s == [s[0]] + s[1..];
      HeadBelowInserted(x, s, rest, key);
      SortedCons(s[0], rest, key);
      [s[0]] + rest
  }

  /** The head of a sorted sequence stays below everything once a larger element is inserted in its tail. */
  lemma HeadBelowInserted<T>(x: T, s: seq<T>, rest: seq<T>, key: T -> Key)
    requires s != [] && SortedBy(s, key) && !KeyLe(key(x), key(s[0]))
    requires multiset(rest) == multiset(s[1..]) + multiset{x}
    ensures forall y :: y in rest ==> KeyLe(key(s[0]), key(y))
  {
    forall y | y in rest ensures KeyLe(key(s[0]), key(y)) {
      assert y in multiset(rest);
      if y != x {
        assert y in multiset(s[1..]);
        var k :| 0 <= k < |s[1..]| && s[1..][k] == y;
        assert s[k + 1] == y;
      }
    }
  }

  lemma SortedCons<T>(y: T, r: seq<T>, key: T -> Key)
    requires SortedBy(r, key)
    requires forall z :: z in r ==> KeyLe(key(y), key(z))
    ensures SortedBy([y] + r, key)
  {
    var s := [y] + r;
    forall i, j | 0 <= i < j < |s| ensures KeyLe(key(s[i]), key(s[j])) {
      if i == 0 {
        assert s[j] == r[j - 1];
        assert s[j] in r;
      } else {
        assert s[i] == r[i - 1] && s[j] == r[j - 1];
      }
    }
  }

  /** Insertion sort: an ordered permutation of the input. */
  function SortBy<T>(s: seq<T>, key: T -> Key): (r: seq<T>)
    ensures |r| == |s|
    ensures SortedBy(r, key)
    ensures multiset(r) == multiset(s)
  {
    if s == [] then []
    else
      assert s == [s[0]] + s[1..];
      InsertBy(s[0], SortBy(s[1..], key), key)
  }
}
