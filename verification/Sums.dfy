/** Sums of sequences and of tables, the latter by rows or by columns. */
module Sums {

  ghost function Sum(q: seq<nat>): nat {
    if q == [] then 0 else Sum(q[..|q| - 1]) + q[|q| - 1]
  }

  lemma {:induction false} SumUpdate(q: seq<nat>, i: nat, v: nat)
    requires i < |q|
    ensures Sum(q[i := v]) + q[i] == Sum(q) + v
  {
    var k := |q| - 1;
    if i < k {
      SumUpdate(q[..k], i, v);
      assert q[i := v][..k] == q[..k][i := v];
    } else {
      assert q[i := v][..k] == q[..k];
    }
  }

  /** n' is n with entry t raised by h. */
  ghost predicate Raised(n: seq<nat>, n': seq<nat>, t: nat, h: nat) {
    t < |n| == |n'| && forall d :: 0 <= d < |n| ==> n'[d] == n[d] + if d == t then h else 0
  }

  lemma SumRaised(n: seq<nat>, n': seq<nat>, t: nat, h: nat)
    requires Raised(n, n', t, h)
    ensures Sum(n') == Sum(n) + h
  {
    SumUpdate(n, t, n[t] + h);
    assert n' == n[t := n[t] + h];
  }

  lemma {:induction false} SumZero(q: seq<nat>)
    requires forall i :: 0 <= i < |q| ==> q[i] == 0
    ensures Sum(q) == 0
  {
    if q != [] { SumZero(q[..|q| - 1]); }
  }

  lemma {:induction false} SumAdd(a: seq<nat>, b: seq<nat>, c: seq<nat>)
    requires |a| == |b| == |c| && forall i :: 0 <= i < |c| ==> c[i] == a[i] + b[i]
    ensures Sum(c) == Sum(a) + Sum(b)
  {
    if c != [] {
      var k := |c| - 1;
      SumAdd(a[..k], b[..k], c[..k]);
    }
  }

  ghost predicate Table(m: seq<seq<nat>>, w: nat) {
    forall q :: 0 <= q < |m| ==> |m[q]| == w
  }

  ghost function RowSums(m: seq<seq<nat>>): (s: seq<nat>)
    ensures |s| == |m| && forall q :: 0 <= q < |m| ==> s[q] == Sum(m[q])
  {
    seq(|m|, q requires 0 <= q < |m| => Sum(m[q]))
  }

  ghost function Column(m: seq<seq<nat>>, w: nat, r: nat): (c: seq<nat>)
    requires Table(m, w) && r < w
    ensures |c| == |m| && forall q :: 0 <= q < |m| ==> c[q] == m[q][r]
  {
    seq(|m|, q requires 0 <= q < |m| => m[q][r])
  }

  ghost function ColumnSums(m: seq<seq<nat>>, w: nat): (s: seq<nat>)
    requires Table(m, w)
    ensures |s| == w && forall r :: 0 <= r < w ==> s[r] == Sum(Column(m, w, r))
  {
    seq(w, r requires 0 <= r < w => Sum(Column(m, w, r)))
  }

  /** Summing by rows or by columns comes to the same. */
  lemma {:induction false} SumBothWays(m: seq<seq<nat>>, w: nat)
    requires Table(m, w)
    ensures Sum(RowSums(m)) == Sum(ColumnSums(m, w))
  {
    if m == [] {
      forall r | 0 <= r < w ensures ColumnSums(m, w)[r] == 0 { assert Column(m, w, r) == []; }
      SumZero(ColumnSums(m, w));
    } else {
      var k := |m| - 1;
      SumBothWays(m[..k], w);
      assert RowSums(m)[..k] == RowSums(m[..k]);
      forall r | 0 <= r < w ensures ColumnSums(m, w)[r] == ColumnSums(m[..k], w)[r] + m[k][r] {
        assert Column(m, w, r)[..k] == Column(m[..k], w, r);
      }
      SumAdd(ColumnSums(m[..k], w), m[k], ColumnSums(m, w));
    }
  }

  lemma SumPrefix(c: seq<nat>, n: nat)
    requires n < |c|
    ensures Sum(c[..n + 1]) == Sum(c[..n]) + c[n]
  {
    assert c[..n + 1][..n] == c[..n];
  }
}
