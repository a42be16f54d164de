/** Permutations of the first n numbers, kept in a sequence. */
module Permutations {

  ghost predicate IsPermutation(p: seq<nat>) {
    && (forall i :: 0 <= i < |p| ==> p[i] < |p|)
    && (forall i, j :: 0 <= i < j < |p| ==> p[i] != p[j])
  }

  function Range(n: nat): (r: set<nat>)
    ensures forall i: nat :: i in r <==> i < n
    ensures |r| == n
  {
    if n == 0 then {} else Range(n - 1) + {n - 1}
  }

  /** The elements p takes on the indices in S. */
  function Image(p: seq<nat>, S: set<nat>): (r: set<nat>)
    requires forall i :: i in S ==> i < |p|
  {
    set i | i in S :: p[i]
  }

  /** A permutation preserves the size of any set of indices. */
  lemma {:induction false} ImageSize(p: seq<nat>, S: set<nat>)
    requires IsPermutation(p) && forall i :: i in S ==> i < |p|
    ensures |Image(p, S)| == |S|
  {
    if S != {} {
      var x :| x in S;
      var rest := S - {x};
      ImageSize(p, rest);
      assert Image(p, S) == Image(p, rest) + {p[x]};
      assert p[x] !in Image(p, rest);
    }
  }

  lemma SubsetSize(a: set<nat>, b: set<nat>)
    requires a <= b
    ensures |a| <= |b|
    ensures |a| == |b| ==> a == b
  {
    var rest := b - a;
    assert b == a + rest;
    assert |b| == |a| + |rest|;
  }

  lemma ImageAll(p: seq<nat>)
    requires IsPermutation(p)
    ensures Image(p, Range(|p|)) == Range(|p|)
  {
    ImageSize(p, Range(|p|));
    SubsetSize(Image(p, Range(|p|)), Range(|p|));
  }

  /** Every number below n occurs. */
  lemma Surjective(p: seq<nat>, x: nat) returns (i: nat)
    requires IsPermutation(p) && x < |p|
    ensures i < |p| && p[i] == x
  {
    hide IsPermutation;
    ImageAll(p);
    assert x in Image(p, Range(|p|));
    i :| 0 <= i < |p| && p[i] == x;
  }

  /** The index at which p takes the value x. */
  ghost function IndexOf(p: seq<nat>, x: nat): (i: nat)
    requires IsPermutation(p) && x < |p|
    ensures i < |p| && p[i] == x
  {
    assert exists i: nat :: i < |p| && p[i] == x by {
      var i := Surjective(p, x);
    }
    var i: nat :| i < |p| && p[i] == x;
    i
  }

  /** A downward closed set of numbers below n is an initial segment, as long as its size. */
  lemma {:induction false} InitialSegment(S: set<nat>, n: nat)
    requires forall i :: i in S ==> i < n
    requires forall i, j :: 0 <= i < j && j in S ==> i in S
    ensures forall i: nat :: i in S <==> i < |S|
  {
    if n == 0 {
      assert S == {};
    } else if n - 1 in S {
      assert S == Range(n);
    } else {
      InitialSegment(S, n - 1);
    }
  }
}
