/**
  Sequence helpers for the abstract document store. Every collection is kept in
  creation order, so "sort by createdAt, newest first" is a reversal, a query with
  a condition is a filter and `countDocuments` is a count.
*/
module Seqs {

  import opened Wrappers

  /** The elements of `s`, last first. */
  function Reverse<T>(s: seq<T>): (r: seq<T>)
    ensures |r| == |s|
    ensures forall i :: 0 <= i < |s| ==> r[i] == s[|s| - 1 - i]
  {
    if s == [] then [] else Reverse(s[1..]) + [s[0]]
  }

  /** The elements of `s` that satisfy `keep`, in their original order. */
  function Filter<T>(s: seq<T>, keep: T -> bool): (r: seq<T>)
    ensures |r| <= |s|
    ensures forall x :: x in r ==> x in s && keep(x)
    ensures forall x :: x in s && keep(x) ==> x in r
  {
    if s == [] then []
    else (if keep(s[0]) then [s[0]] else []) + Filter(s[1..], keep)
  }

  /** The number of elements of `s` that satisfy `keep`. */
  function Count<T>(s: seq<T>, keep: T -> bool): (n: nat)
    ensures n <= |s|
    ensures n == 0 <== (forall i :: 0 <= i < |s| ==> !keep(s[i]))
  {
    if s == [] then 0
    else (if keep(s[0]) then 1 else 0) + Count(s[1..], keep)
  }

  /** `f` applied to every element of `s`, in order. */
  function Map<T, U>(s: seq<T>, f: T -> U): (r: seq<U>)
    ensures |r| == |s|
    ensures forall i :: 0 <= i < |s| ==> r[i] == f(s[i])
  {
    if s == [] then [] else [f(s[0])] + Map(s[1..], f)
  }

  /** The index of the first element of `s` that satisfies `p`, if any. */
  function FirstIndex<T>(s: seq<T>, p: T -> bool): (r: Option<nat>)
    ensures r.Some? ==> r.value < |s| && p(s[r.value])
    ensures r.Some? ==> forall k :: 0 <= k < r.value ==> !p(s[k])
    ensures r.None? <==> forall k :: 0 <= k < |s| ==> !p(s[k])
  {
    if s == [] then None
    else if p(s[0]) then Some(0)
    else match FirstIndex(s[1..], p)
      case None => None
      case Some(k) => Some(k + 1)
  }

  /** Keys strictly increase along `s`: creation order of a collection of ids. */
  ghost predicate Increasing<T>(s: seq<T>, key: T -> int)
  {
    forall i, j :: 0 <= i < j < |s| ==> key(s[i]) < key(s[j])
  }

  /** Keys strictly decrease along `s`: newest first. */
  ghost predicate Decreasing<T>(s: seq<T>, key: T -> int)
  {
    forall i, j :: 0 <= i < j < |s| ==> key(s[i]) > key(s[j])
  }

  /** The number of kept elements is the length of the filtered sequence. */
  lemma {:induction false} CountIsFilterLength<T>(s: seq<T>, keep: T -> bool)
    ensures Count(s, keep) == |Filter(s, keep)|
  {
    if s != [] {
      CountIsFilterLength(s[1..], keep);
    }
  }

  /** Filtering keeps the relative order of what it keeps. */
  lemma {:induction false} FilterKeepsIncreasing<T>(s: seq<T>, keep: T -> bool, key: T -> int)
    requires Increasing(s, key)
    ensures Increasing(Filter(s, keep), key)
  {
    if s != [] {
      var tail := s[1..];
      assert Increasing(tail, key) by {
        forall i, j | 0 <= i < j < |tail| ensures key(tail[i]) < key(tail[j]) {
          assert tail[i] == s[i + 1] && tail[j] == s[j + 1];
        }
      }
      FilterKeepsIncreasing(tail, keep, key);
      var rest := Filter(tail, keep);
      forall x | x in rest ensures key(s[0]) < key(x) {
        assert x in tail;
        var k :| 0 <= k < |tail| && tail[k] == x;
        assert x == s[k + 1];
      }
    }
  }

  /** Reversing an increasing sequence lists it newest first. */
  lemma ReverseOfIncreasing<T>(s: seq<T>, key: T -> int)
    ensures Increasing(s, key) ==> Decreasing(Reverse(s), key)
  {
    var r := Reverse(s);
    if Increasing(s, key) {
      forall i, j | 0 <= i < j < |r| ensures key(r[i]) > key(r[j]) {
        assert r[i] == s[|s| - 1 - i] && r[j] == s[|s| - 1 - j];
      }
    }
  }

  /** Reversal neither adds nor drops elements. */
  lemma ReverseSameElements<T>(s: seq<T>)
    ensures forall x :: x in Reverse(s) ==> x in s
    ensures forall x :: x in s ==> x in Reverse(s)
  {
    var r := Reverse(s);
    forall x | x in s ensures x in r {
      var k :| 0 <= k < |s| && s[k] == x;
      assert r[|s| - 1 - k] == x;
    }
  }

  /** A filter followed by a reversal: a store query sorted newest first. */
  lemma NewestFirstQuery<T>(s: seq<T>, keep: T -> bool, key: T -> int)
    ensures forall x :: x in Reverse(Filter(s, keep)) ==> x in s && keep(x)
    ensures forall x :: x in s && keep(x) ==> x in Reverse(Filter(s, keep))
    ensures Increasing(s, key) ==> Decreasing(Reverse(Filter(s, keep)), key)
  {
    ReverseSameElements(Filter(s, keep));
    if Increasing(s, key) {
      FilterKeepsIncreasing(s, keep, key);
      ReverseOfIncreasing(Filter(s, keep), key);
    }
  }

  /** Removing one element keeps the others in order. */
  lemma RemoveKeepsIncreasing<T>(s: seq<T>, k: nat, key: T -> int)
    requires k < |s| && Increasing(s, key)
    ensures Increasing(s[..k] + s[k + 1..], key)
  {
    var r := s[..k] + s[k + 1..];
    forall i, j | 0 <= i < j < |r| ensures key(r[i]) < key(r[j]) {
      var si := if i < k then i else i + 1;
      var sj := if j < k then j else j + 1;
      assert r[i] == s[si] && r[j] == s[sj];
    }
  }

  /** Mapping: what is in the result is exactly the images of what is in the input. */
  lemma MapElements<T, U>(s: seq<T>, f: T -> U)
    ensures forall y :: y in Map(s, f) ==> exists x :: x in s && y == f(x)
    ensures forall x :: x in s ==> f(x) in Map(s, f)
  {
    var r := Map(s, f);
    forall y | y in r ensures exists x :: x in s && y == f(x) {
      var k :| 0 <= k < |r| && r[k] == y;
      assert s[k] in s;
    }
    forall x | x in s ensures f(x) in r {
      var k :| 0 <= k < |s| && s[k] == x;
      assert r[k] == f(x);
    }
  }
}
