/** Ranking the solvers of a round by their scores, lowest score first. */
module Ranking {

  /** The indices 0, 1, ..., n - 1 in order. */
  function Iota(n: nat): (r: seq<nat>)
    ensures |r| == n && forall i :: 0 <= i < n ==> r[i] == i
  {
    seq(n, i requires 0 <= i < n => i)
  }

  /** `c` holds the indices 0 .. n - 1, each as often as Iota(n) does. */
  ghost predicate IsPermutation(c: seq<nat>, n: nat) {
    multiset(c) == multiset(Iota(n))
  }

  lemma {:induction false} IotaCount(n: nat, k: nat)
    ensures multiset(Iota(n))[k] == if k < n then 1 else 0
  {
    if n > 0 {
      assert Iota(n) == Iota(n - 1) + [n - 1];
      IotaCount(n - 1, k);
    } else {
      assert Iota(n) == [];
    }
  }

  /** A permutation of 0 .. n - 1 has n entries and holds every index below n exactly once. */
  lemma PermutationExactlyOnce(c: seq<nat>, n: nat)
    requires IsPermutation(c, n)
    ensures |c| == n
    ensures forall k: nat :: multiset(c)[k] == if k < n then 1 else 0
    ensures forall i :: 0 <= i < |c| ==> c[i] < n
  {
    assert |c| == |multiset(c)| == |multiset(Iota(n))| == n;
    forall k: nat
      ensures multiset(c)[k] == if k < n then 1 else 0
    {
      IotaCount(n, k);
    }
    forall i | 0 <= i < |c|
      ensures c[i] < n
    {
      assert c[i] in multiset(c);
      IotaCount(n, c[i]);
    }
  }

  /** The order `c` lists the scores in ascending order. */
  ghost predicate Ascending(scores: seq<real>, c: seq<nat>)
    requires forall i :: 0 <= i < |c| ==> c[i] < |scores|
  {
    forall p, q :: 0 <= p < q < |c| ==> scores[c[p]] <= scores[c[q]]
  }

  /** Position of a lowest-scored entry of a[from..]. */
  method MinFrom(scores: seq<real>, a: array<nat>, from: nat) returns (m: nat)
    requires from < a.Length && forall k :: 0 <= k < a.Length ==> a[k] < |scores|
    ensures from <= m < a.Length
    ensures forall k :: from <= k < a.Length ==> scores[a[m]] <= scores[a[k]]
  {
    m := from;
    for j := from + 1 to a.Length
      invariant from <= m < a.Length
      invariant forall k :: from <= k < j ==> scores[a[m]] <= scores[a[k]]
    {
      if scores[a[j]] < scores[a[m]] {
        m := j;
      }
    }
  }

  /** Exchange two entries of `a`. */
  method Swap(a: array<nat>, i: nat, j: nat)
    requires i < a.Length && j < a.Length
    modifies a
    ensures a[i] == old(a[j]) && a[j] == old(a[i])
    ensures forall k :: 0 <= k < a.Length && k != i && k != j ==> a[k] == old(a[k])
    ensures multiset(a[..]) == old(multiset(a[..]))
  {
    a[i], a[j] := a[j], a[i];
  }

  /**
   * The solver order of a round: every solver index exactly once, sorted
   * by ascending score (ties in any order).
   */
  method Argsort(scores: seq<real>) returns (choices: seq<nat>)
    ensures IsPermutation(choices, |scores|)
    ensures forall i :: 0 <= i < |choices| ==> choices[i] < |scores|
    ensures Ascending(scores, choices)
  {
    var n := |scores|;
    var a := new nat[n](i => i);
    assert a[..] == Iota(n);
    for i := 0 to n
      invariant multiset(a[..]) == multiset(Iota(n))
      invariant forall k :: 0 <= k < n ==> a[k] < n
      invariant forall p, q :: 0 <= p < i && p < q < n ==> scores[a[p]] <= scores[a[q]]
    {
      var m := MinFrom(scores, a, i);
      Swap(a, i, m);
      assert forall q :: i < q < n ==> scores[a[i]] <= scores[a[q]];
    }
    choices := a[..];
  }

  /** The first solver of a ranked order has the lowest score of all. */
  lemma LowestFirst(scores: seq<real>, choices: seq<nat>)
    requires IsPermutation(choices, |scores|) && |scores| > 0
    requires forall i :: 0 <= i < |choices| ==> choices[i] < |scores|
    requires Ascending(scores, choices)
    ensures forall k :: 0 <= k < |scores| ==> scores[choices[0]] <= scores[k]
  {
    PermutationExactlyOnce(choices, |scores|);
    forall k | 0 <= k < |scores|
      ensures scores[choices[0]] <= scores[k]
    {
      assert multiset(choices)[k] == 1;
      var q :| 0 <= q < |choices| && choices[q] == k;
    }
  }
}
