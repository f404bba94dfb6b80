/**
 * Sequence helpers shared by both implementations: the library `filter` /
 * `select` on a list, and ordering facts about lists of day numbers.
 */
module Seqs {

  /** Array.prototype.filter / Enumerable#select: the elements satisfying `p`, in order. */
  function Filter<T>(p: T -> bool, s: seq<T>): (r: seq<T>)
    ensures |r| <= |s|
    ensures forall x :: x in r ==> x in s && p(x)
    ensures forall x :: x in s && p(x) ==> x in r
  {
    if s == [] then []
    else if p(s[0]) then [s[0]] + Filter(p, s[1..])
    else Filter(p, s[1..])
  }

  predicate StrictlyAscending(s: seq<int>) {
    forall i, j :: 0 <= i < j < |s| ==> s[i] < s[j]
  }

  /** Filtering keeps the relative order of what it keeps. */
  lemma {:induction false} FilterAscending(p: int -> bool, s: seq<int>)
    requires StrictlyAscending(s)
    ensures StrictlyAscending(Filter(p, s))
  {
    if s != [] {
      assert StrictlyAscending(s[1..]);
      FilterAscending(p, s[1..]);
      var rest := Filter(p, s[1..]);
      if p(s[0]) {
        forall x | x in rest ensures s[0] < x {
          var k :| 0 <= k < |s[1..]| && s[1..][k] == x;
          assert s[k + 1] == x;
        }
        var r := [s[0]] + rest;
        forall i, j | 0 <= i < j < |r| ensures r[i] < r[j] {
          if i == 0 { assert r[j] in rest; }
          else { assert r[i] == rest[i - 1] && r[j] == rest[j - 1]; }
        }
      }
    }
  }

  /** Concatenation of `f` over `s`, left to right. */
  function FlatMap<A, B>(f: A -> seq<B>, s: seq<A>): seq<B> {
    if s == [] then [] else FlatMap(f, s[..|s| - 1]) + f(s[|s| - 1])
  }

  lemma {:induction false} FlatMapMembership<A, B>(f: A -> seq<B>, s: seq<A>, y: B)
    ensures y in FlatMap(f, s) <==> exists k :: 0 <= k < |s| && y in f(s[k])
  {
    if s != [] {
      var init := s[..|s| - 1];
      FlatMapMembership(f, init, y);
      if exists k :: 0 <= k < |s| && y in f(s[k]) {
        var k :| 0 <= k < |s| && y in f(s[k]);
        if k < |s| - 1 {
          assert init[k] == s[k];
        }
      }
    }
  }

  /** Filtering with two predicates that agree on the elements gives the same result. */
  lemma {:induction false} FilterCongruent<T>(p: T -> bool, q: T -> bool, s: seq<T>)
    requires forall k :: 0 <= k < |s| ==> p(s[k]) == q(s[k])
    ensures Filter(p, s) == Filter(q, s)
  {
    if s != [] {
      FilterCongruent(p, q, s[1..]);
    }
  }
}
