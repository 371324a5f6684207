/** Sequences of different numbers. */
module Counting {

  predicate NoTwice(l: seq<nat>) { forall i: nat, j: nat :: i < j < |l| ==> l[i] != l[j] }

  /** There are at most `n` different numbers below `n`. */
  lemma {:induction false} DistinctFit(l: seq<nat>, n: nat)
    requires NoTwice(l) && forall z: nat :: z in l ==> z < n
    ensures |l| <= n
    decreases n
  {
    if l != [] {
      assert l[0] in l;
      if n - 1 in l {
        var i: nat :| i < |l| && l[i] == n - 1;
        var k := l[..i] + l[i + 1..];
        forall z: nat | z in k ensures z < n - 1 { assert z in l && z != n - 1; }
        DistinctFit(k, n - 1);
      } else {
        DistinctFit(l, n - 1);
      }
    }
  }

  /** `n` different numbers below `n` are all of them. */
  lemma AllOccur(l: seq<nat>, n: nat, x: nat)
    requires NoTwice(l) && |l| == n && x < n && forall z: nat :: z in l ==> z < n
    ensures x in l
  {
    if x !in l {
      DistinctFit(l + [x], n);
    }
  }

  /** It takes `n` numbers to name all below `n`. */
  lemma {:induction false} Covers(l: seq<nat>, n: nat)
    requires forall x: nat :: x < n ==> x in l
    ensures |l| >= n
    decreases n
  {
    if n > 0 {
      assert n - 1 in l;
      var i: nat :| i < |l| && l[i] == n - 1;
      var k := l[..i] + l[i + 1..];
      forall x: nat | x < n - 1 ensures x in k {
        assert x in l;
        var j: nat :| j < |l| && l[j] == x;
        assert k[if j < i then j else j - 1] == x;
      }
      Covers(k, n - 1);
    }
  }

  /** `n` numbers of which two are equal leave one below `n` out. */
  lemma TwiceMisses(l: seq<nat>, i: nat, j: nat) returns (x: nat)
    requires i < j < |l| && l[i] == l[j]
    ensures x < |l| && x !in l
  {
    var k := l[..j] + l[j + 1..];
    if forall y: nat :: y < |l| ==> y in l {
      forall y: nat | y < |l| ensures y in k {
        assert y in l;
        var n: nat :| n < |l| && l[n] == y;
        var n' := if n == j then i else n;
        assert k[if n' < j then n' else n' - 1] == y;
      }
      Covers(k, |l|);
      assert false;
    }
    x :| x < |l| && x !in l;
  }

  lemma NoTwiceSum(a: seq<nat>, b: seq<nat>)
    requires NoTwice(a) && NoTwice(b) && forall x: nat :: x in a ==> x !in b
    ensures NoTwice(a + b)
  {
    forall i: nat, j: nat | i < j < |a + b| ensures (a + b)[i] != (a + b)[j] {
      assert i < |a| ==> a[i] in a;
      assert j >= |a| ==> b[j - |a|] in b;
    }
  }
}
