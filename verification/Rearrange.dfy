/** Moving the elements at some positions of a list to its front, in the order of the positions; the others
    follow as they stood. This is all that a section in base order does to its children: the positions are those
    at which the base's children landed. The program tells children apart by identity, and positions take that
    part here, so two equal children are still two. */
module Rearrange {

  /** The elements at these positions, in that order, then the others as they stand. */
  function Reorder<T>(ks: seq<T>, hs: seq<nat>): seq<T>
    requires forall k :: 0 <= k < |hs| ==> hs[k] < |ks|
  {
    At(ks, hs) + Others(ks, hs, |ks|)
  }

  function At<T>(ks: seq<T>, hs: seq<nat>): (r: seq<T>)
    requires forall k :: 0 <= k < |hs| ==> hs[k] < |ks|
    ensures |r| == |hs| && forall k :: 0 <= k < |hs| ==> r[k] == ks[hs[k]]
  {
    seq(|hs|, k requires 0 <= k < |hs| => ks[hs[k]])
  }

  /** The first n elements without those at the positions hs. */
  function Others<T>(ks: seq<T>, hs: seq<nat>, n: nat): seq<T>
    requires n <= |ks|
  {
    if n == 0 then []
    else if n - 1 in hs then Others(ks, hs, n - 1)
    else Others(ks, hs, n - 1) + [ks[n - 1]]
  }

  lemma {:induction false} NoHits<T>(ks: seq<T>, n: nat)
    requires n <= |ks|
    ensures Others(ks, [], n) == ks[..n]
  {
    if n > 0 {
      NoHits(ks, n - 1);
    }
  }

  lemma {:induction false} OthersBefore<T>(ks: seq<T>, hs: seq<nat>, i: nat, n: nat)
    requires n <= |ks| && n <= i
    ensures Others(ks, hs + [i], n) == Others(ks, hs, n)
  {
    if n > 0 {
      OthersBefore(ks, hs, i, n - 1);
    }
  }

  lemma {:induction false} SnocMultiset<T>(a: seq<T>, b: seq<T>, x: T, y: T)
    requires multiset(a) == multiset(b) + multiset{x}
    ensures multiset(a + [y]) == multiset(b + [y]) + multiset{x}
  {
  }

  lemma {:induction false} OthersWithout<T>(ks: seq<T>, hs: seq<nat>, i: nat, n: nat)
    requires i < n <= |ks| && i !in hs
    ensures multiset(Others(ks, hs, n)) == multiset(Others(ks, hs + [i], n)) + multiset{ks[i]}
  {
    assert n - 1 in hs + [i] <==> n - 1 in hs || n - 1 == i;
    if n - 1 == i {
      OthersBefore(ks, hs, i, i);
    } else {
      OthersWithout(ks, hs, i, n - 1);
      if n - 1 !in hs {
        SnocMultiset(Others(ks, hs, n - 1), Others(ks, hs + [i], n - 1), ks[i], ks[n - 1]);
      }
    }
  }

  lemma {:induction false} ReorderPermutes<T>(ks: seq<T>, hs: seq<nat>)
    requires forall k :: 0 <= k < |hs| ==> hs[k] < |ks|
    requires forall j, k :: 0 <= j < k < |hs| ==> hs[j] != hs[k]
    ensures multiset(Reorder(ks, hs)) == multiset(ks)
  {
    if hs == [] {
      NoHits(ks, |ks|);
      assert Reorder(ks, hs) == ks;
    } else {
      var n := |hs| - 1;
      ReorderPermutes(ks, hs[..n]);
      assert hs == hs[..n] + [hs[n]];
      OthersWithout(ks, hs[..n], hs[n], |ks|);
      assert At(ks, hs) == At(ks, hs[..n]) + [ks[hs[n]]];
    }
  }
}
