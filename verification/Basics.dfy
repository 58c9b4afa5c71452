// Types shared by all parts of the model.
module Basics {
  datatype Option<+T> = None | Some(value: T)

  type Byte = x: int | 0 <= x < 256

  predicate Distinct(q: seq<nat>) {
    forall i: nat, j: nat | i < j < |q| :: q[i] != q[j]
  }

  // The numbers below n.
  ghost function Below(n: nat): (r: set<nat>)
    ensures |r| == n && forall i: nat :: i in r <==> i < n
  {
    if n == 0 then {} else Below(n - 1) + {n - 1}
  }

  lemma {:induction false} DistinctFits(q: seq<nat>, all: set<nat>)
    requires Distinct(q) && forall x | x in q :: x in all
    ensures |q| <= |all|
  {
    if q != [] {
      forall x | x in q[1..] ensures x in all - {q[0]} {
        var i: nat :| i < |q[1..]| && q[1..][i] == x;
        assert q[i + 1] == x;
      }
      DistinctFits(q[1..], all - {q[0]});
    }
  }

  lemma {:induction false} CoverFits(q: seq<nat>, all: set<nat>)
    requires forall x | x in all :: x in q
    ensures |all| <= |q|
  {
    if q != [] {
      forall x | x in all - {q[0]} ensures x in q[1..] {
        var i: nat :| i < |q| && q[i] == x;
        assert q[1..][i - 1] == x;
      }
      CoverFits(q[1..], all - {q[0]});
    } else {
      assert forall x :: x !in all;
    }
  }
}
