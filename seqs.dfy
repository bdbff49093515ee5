/** Order-preserving filters, maps and first-match searches over sequences. */
module Seqs {
  import opened Wrappers

  /** The elements satisfying `p`, in their original order (`iter().filter(...).collect()`). */
  function Filter<T>(p: T -> bool, s: seq<T>): (r: seq<T>)
    ensures |r| <= |s|
    ensures forall i :: 0 <= i < |r| ==> p(r[i]) && r[i] in s
    ensures forall x :: x in s && p(x) ==> x in r
  {
    if s == [] then []
    else if p(s[0]) then [s[0]] + Filter(p, s[1..])
    else Filter(p, s[1..])
  }

  /** Filtering commutes with concatenation: the relative order of kept elements is unchanged. */
  lemma {:induction false} FilterConcat<T>(p: T -> bool, a: seq<T>, b: seq<T>)
    ensures Filter(p, a + b) == Filter(p, a) + Filter(p, b)
  {
    if a != [] {
      assert (a + b)[0] == a[0];
      assert (a + b)[1..] == a[1..] + b;
      FilterConcat(p, a[1..], b);
      if p(a[0]) {
        assert Filter(p, a + b) == [a[0]] + (Filter(p, a[1..]) + Filter(p, b));
      }
    } else {
      assert a + b == b;
    }
  }

  /** A filter every element passes changes nothing. */
  lemma {:induction false} FilterAll<T>(p: T -> bool, s: seq<T>)
    requires forall i :: 0 <= i < |s| ==> p(s[i])
    ensures Filter(p, s) == s
  {
    if s != [] {
      FilterAll(p, s[1..]);
      assert s == [s[0]] + s[1..];
    }
  }

  /** Filtering keeps every occurrence of a kept element and none of the others. */
  lemma {:induction false} FilterCounts<T>(p: T -> bool, s: seq<T>, x: T)
    ensures multiset(Filter(p, s))[x] == if p(x) then multiset(s)[x] else 0
  {
    if s != [] {
      FilterCounts(p, s[1..], x);
      assert s == [s[0]] + s[1..];
      assert multiset(s) == multiset{s[0]} + multiset(s[1..]);
      if p(s[0]) {
        assert multiset(Filter(p, s)) == multiset{s[0]} + multiset(Filter(p, s[1..]));
      } else {
        assert Filter(p, s) == Filter(p, s[1..]);
      }
    }
  }

  function Map<T, U>(f: T -> U, s: seq<T>): (r: seq<U>)
    ensures |r| == |s|
    ensures forall i :: 0 <= i < |s| ==> r[i] == f(s[i])
  {
    if s == [] then [] else [f(s[0])] + Map(f, s[1..])
  }

  /** The index of the first element satisfying `p`. */
  function FirstIndex<T>(p: T -> bool, s: seq<T>): (r: Option<nat>)
    ensures r.Some? ==> r.value < |s| && p(s[r.value])
    ensures r.Some? ==> forall j :: 0 <= j < r.value ==> !p(s[j])
    ensures r.None? <==> forall j :: 0 <= j < |s| ==> !p(s[j])
  {
    if s == [] then None
    else if p(s[0]) then Some(0)
    else match FirstIndex(p, s[1..])
      case Some(i) => Some(i + 1)
      case None => None
  }

  /** The first element satisfying `p` (`iter().find(...)`). */
  function First<T>(p: T -> bool, s: seq<T>): (r: Option<T>)
    ensures r.Some? ==> r.value in s && p(r.value)
    ensures r.None? <==> forall x :: x in s ==> !p(x)
  {
    match FirstIndex(p, s)
    case Some(i) => Some(s[i])
    case None => None
  }

  /** `iter().position(...)` / `iter_mut().find(...)` as a scanning loop. */
  method FindIndex<T>(s: seq<T>, p: T -> bool) returns (r: Option<nat>)
    ensures r.Some? ==> r.value < |s| && p(s[r.value])
    ensures r.Some? ==> forall j :: 0 <= j < r.value ==> !p(s[j])
    ensures r.None? ==> forall j :: 0 <= j < |s| ==> !p(s[j])
    ensures r == FirstIndex(p, s)
  {
    var i := 0;
    while i < |s|
      invariant 0 <= i <= |s|
      invariant forall j :: 0 <= j < i ==> !p(s[j])
    {
      if p(s[i]) {
        FirstIndexUnique(p, s, i);
        return Some(i);
      }
      i := i + 1;
    }
    r := None;
  }

  /** The first match is determined by the property that defines it. */
  lemma FirstIndexUnique<T>(p: T -> bool, s: seq<T>, i: nat)
    requires i < |s| && p(s[i])
    requires forall j :: 0 <= j < i ==> !p(s[j])
    ensures FirstIndex(p, s) == Some(i)
  {
  }

  /** Two sequences with the same multiset have the same elements. */
  lemma SameElements<T>(a: seq<T>, b: seq<T>)
    requires multiset(a) == multiset(b)
    ensures forall x :: x in a <==> x in b
  {
    forall x ensures x in a <==> x in b {
      assert x in a <==> x in multiset(a);
      assert x in b <==> x in multiset(b);
    }
  }

  /** A reordering of `Map(f, s)` holds the image of every element of `s`, nothing else, and as many. */
  lemma MappedListed<T, U>(f: T -> U, s: seq<T>, sorted: seq<U>)
    requires multiset(sorted) == multiset(Map(f, s))
    ensures forall x :: x in s ==> f(x) in sorted
    ensures forall y :: y in sorted ==> exists x :: x in s && y == f(x)
    ensures |sorted| == |s|
  {
    var listed := Map(f, s);
    assert |multiset(sorted)| == |multiset(listed)|;
    forall x | x in s ensures f(x) in sorted {
      var i :| 0 <= i < |s| && s[i] == x;
      assert listed[i] == f(x);
      assert f(x) in multiset(listed);
    }
    forall y | y in sorted ensures exists x :: x in s && y == f(x) {
      assert y in multiset(sorted);
      assert y in listed;
      var i :| 0 <= i < |listed| && listed[i] == y;
      assert s[i] in s;
    }
  }

  /** The sequence with its first element satisfying `p` replaced by `x`; unchanged when there is none. */
  function ReplaceFirst<T>(s: seq<T>, p: T -> bool, x: T): (r: seq<T>)
    ensures |r| == |s|
  {
    if s == [] then []
    else if p(s[0]) then [x] + s[1..]
    else [s[0]] + ReplaceFirst(s[1..], p, x)
  }

  /** Without a match, replacing the first match changes nothing. */
  lemma {:induction false} ReplaceFirstNoMatch<T>(s: seq<T>, p: T -> bool, x: T)
    requires forall j :: 0 <= j < |s| ==> !p(s[j])
    ensures ReplaceFirst(s, p, x) == s
  {
    if s != [] {
      assert forall j :: 0 <= j < |s[1..]| ==> s[1..][j] == s[j + 1];
      ReplaceFirstNoMatch(s[1..], p, x);
      assert [s[0]] + s[1..] == s;
    }
  }

  /** Replacing the first match is an update at the first matching index. */
  lemma {:induction false} ReplaceFirstAt<T>(s: seq<T>, p: T -> bool, x: T, i: nat)
    requires i < |s| && p(s[i])
    requires forall j :: 0 <= j < i ==> !p(s[j])
    ensures ReplaceFirst(s, p, x) == s[i := x]
  {
    if i == 0 {
      assert [x] + s[1..] == s[0 := x];
    } else {
      assert !p(s[0]);
      var tail := s[1..];
      assert forall j :: 0 <= j < i - 1 ==> tail[j] == s[j + 1];
      ReplaceFirstAt(tail, p, x, i - 1);
      assert [s[0]] + tail[i - 1 := x] == s[i := x];
    }
  }
}
