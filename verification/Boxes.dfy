/** A structured grid cut into blocks, one for each rank, and the zones that halos of
    given depth cut each block into. */
module Boxes {
  import opened Powers

  /** Cells in each direction, depth of the halo between blocks and of the halo around
      the domain, dimension through which neighbours count, and blocks per direction.
      Bounds of boxes are unsigned integers below word. */
  datatype Grid = Grid(size: seq<nat>, halo: nat, domainHalo: nat, thruDim: nat, blocks: seq<nat>, word: nat)

  ghost predicate Ok(g: Grid) {
    2 <= |g.size| <= 3 && |g.blocks| == |g.size| && g.thruDim < |g.size| &&
    forall d :: 0 <= d < |g.size| ==> EachHasCells(g.size[d], g.blocks[d]) && BoundsFit(g, g.size[d])
  }

  /** Adding halos to a bound does not leave the unsigned integers. */
  ghost predicate BoundsFit(g: Grid, size: nat) {
    size + 2 * (g.halo + g.domainHalo) < g.word
  }

  /** Unsigned subtraction and addition. */
  function Minus(word: nat, a: int, b: nat): int {
    if b <= a then a - b else a + word - b
  }

  function Plus(word: nat, a: int, b: nat): int {
    if a + b < word then a + b else a + b - word
  }

  /** Every block has at least one cell. */
  ghost predicate EachHasCells(size: nat, n: nat) {
    n > 0 && size / n >= 1
  }

  // ----- one direction: block i of n -------------------------------------------------------------

  function Lo(size: nat, n: nat, origin: nat, i: nat): int
    requires n > 0
  {
    origin + (size / n) * i
  }

  /** The last block takes the remainder. */
  function Hi(size: nat, n: nat, origin: nat, i: nat): int
    requires n > 0
  {
    if i != n - 1 then origin + (size / n) * (i + 1) - 1 else size + origin - 1
  }

  lemma AllBlocksFit(size: nat, n: nat)
    requires n > 0
    ensures (size / n) * n <= size < (size / n) * n + n
  {
    assert size == n * (size / n) + size % n;
  }

  lemma MulMono(w: nat, i: nat, j: nat)
    requires i <= j
    ensures w * i <= w * j && w * j == w * i + w * (j - i)
  {
    Distribute(w, i, j - i);
  }

  lemma BlockAt(size: nat, n: nat, origin: nat, i: nat)
    requires n > 0 && i < n && size / n >= 1
    ensures Lo(size, n, origin, 0) == origin && Hi(size, n, origin, n - 1) == origin + size - 1
    ensures Lo(size, n, origin, i) + size / n - 1 <= Hi(size, n, origin, i)
    ensures i + 1 < n ==> Hi(size, n, origin, i) + 1 == Lo(size, n, origin, i + 1)
    ensures origin <= Lo(size, n, origin, i) && Hi(size, n, origin, i) <= origin + size - 1
    ensures i > 0 <==> origin < Lo(size, n, origin, i)
    ensures i < n - 1 <==> Hi(size, n, origin, i) < origin + size - 1
  {
    var w := size / n;
    AllBlocksFit(size, n);
    Distribute(w, i, 1);
    MulMono(w, i + 1, n);
    if i + 1 < n {
      MulMono(w, i + 2, n);
      Distribute(w, i + 1, 1);
    }
    if i > 0 { AtLeastOnce(w, i); }
  }

  lemma BlocksOrdered(size: nat, n: nat, origin: nat, i: nat, j: nat)
    requires n > 0 && i < j < n && size / n >= 1
    ensures Hi(size, n, origin, i) < Lo(size, n, origin, j)
  {
    MulMono(size / n, i + 1, j);
  }

  /** Each cell of the domain is in exactly one block. */
  lemma OneBlock(size: nat, n: nat, origin: nat, x: int) returns (i: nat)
    requires n > 0 && size / n >= 1 && origin <= x < origin + size
    ensures i < n && Lo(size, n, origin, i) <= x <= Hi(size, n, origin, i)
  {
    var w := size / n;
    var k := (x - origin) / w;
    assert x - origin == w * k + (x - origin) % w;
    if k < n - 1 {
      i := k;
      Distribute(w, k, 1);
    } else {
      i := n - 1;
      MulMono(w, n - 1, k);
    }
  }

  lemma OneBlockOnly(size: nat, n: nat, origin: nat, x: int, i: nat, j: nat)
    requires n > 0 && size / n >= 1 && i < n && j < n
    requires Lo(size, n, origin, i) <= x <= Hi(size, n, origin, i) &&
      Lo(size, n, origin, j) <= x <= Hi(size, n, origin, j)
    ensures i == j
  {
    if i < j { BlocksOrdered(size, n, origin, i, j); }
    if j < i { BlocksOrdered(size, n, origin, j, i); }
  }

  /** Every block is as wide as the cells divided by the blocks; what is left over goes to the
      last one. */
  lemma BlockWidth(size: nat, n: nat, origin: nat, i: nat)
    requires n > 0 && i < n
    ensures Hi(size, n, origin, i) - Lo(size, n, origin, i) + 1 ==
      if i + 1 < n then size / n else size / n + size % n
  {
    var w := size / n;
    Distribute(w, i, 1);
    assert size == n * w + size % n;
    if i + 1 == n { assert n * w == w * i + w; }
  }

  /** The block of a cell: its distance from the origin by that width, but never beyond the
      last. */
  lemma BlockOfCell(size: nat, n: nat, origin: nat, x: int, i: nat)
    requires n > 0 && size / n >= 1 && i < n
    ensures Lo(size, n, origin, i) <= x <= Hi(size, n, origin, i) <==>
      origin <= x < origin + size && i == if (x - origin) / (size / n) < n then (x - origin) / (size / n) else n - 1
  {
    BlockAt(size, n, origin, i);
    if origin <= x < origin + size {
      var w := size / n;
      var k := (x - origin) / w;
      var j := if k < n then k else n - 1;
      assert x - origin == w * k + (x - origin) % w;
      Distribute(w, k, 1);
      if k < n { BlockAt(size, n, origin, k); } else { MulMono(w, n, k); Distribute(w, n - 1, 1); }
      InBlock(size, n, origin, x, w, k, j);
      if Lo(size, n, origin, i) <= x <= Hi(size, n, origin, i) { OneBlockOnly(size, n, origin, x, i, j); }
    }
  }

  lemma InBlock(size: nat, n: nat, origin: nat, x: int, w: nat, k: nat, j: nat)
    requires n > 0 && w == size / n >= 1 && origin <= x < origin + size && j < n
    requires w * k <= x - origin < w * (k + 1) && if k < n then j == k else j == n - 1 && w * (n - 1) <= w * k
    ensures Lo(size, n, origin, j) <= x <= Hi(size, n, origin, j)
  {}

  // ----- ranks and block indices --------------------------------------------------------------------

  /** Product of the first k entries. */
  function Prod(n: seq<nat>, k: nat): nat
    requires k <= |n|
  {
    if k == 0 then 1 else Prod(n, k - 1) * n[k - 1]
  }

  /** The rank of the block with the given indices, first direction fastest. */
  function Rank(n: seq<nat>, idx: seq<nat>, k: nat): nat
    requires k <= |n| && k <= |idx|
  {
    if k == 0 then 0 else Rank(n, idx, k - 1) + Prod(n, k - 1) * idx[k - 1]
  }

  ghost predicate IsIndex(n: seq<nat>, idx: seq<nat>) {
    |idx| == |n| && forall d :: 0 <= d < |n| ==> idx[d] < n[d]
  }

  lemma {:induction false} RankBound(n: seq<nat>, idx: seq<nat>, k: nat)
    requires IsIndex(n, idx) && k <= |n|
    ensures Rank(n, idx, k) < Prod(n, k)
  {
    if k > 0 {
      RankBound(n, idx, k - 1);
      var p := Prod(n, k - 1);
      MulMono(p, idx[k - 1] + 1, n[k - 1]);
      Distribute(p, idx[k - 1], 1);
    }
  }

  /** Ranks count along the first direction, then along the second, then along the third. */
  lemma RankInTwo(n: seq<nat>, idx: seq<nat>)
    requires |n| == |idx| == 2
    ensures Rank(n, idx, 2) == idx[0] + n[0] * idx[1]
  {
    assert Rank(n, idx, 1) == idx[0] && Prod(n, 1) == n[0];
  }

  lemma RankInThree(n: seq<nat>, idx: seq<nat>)
    requires |n| == |idx| == 3
    ensures Rank(n, idx, 3) == idx[0] + n[0] * idx[1] + n[0] * n[1] * idx[2]
  {
    assert Rank(n, idx, 1) == idx[0] && Prod(n, 1) == n[0] && Prod(n, 2) == n[0] * n[1];
    assert Rank(n, idx, 2) == idx[0] + n[0] * idx[1];
  }

  /** Different indices have different ranks. */
  lemma {:induction false} RankInjective(n: seq<nat>, a: seq<nat>, b: seq<nat>, k: nat)
    requires IsIndex(n, a) && IsIndex(n, b) && k <= |n| && Rank(n, a, k) == Rank(n, b, k)
    ensures a[..k] == b[..k]
  {
    if k > 0 {
      RankBound(n, a, k - 1);
      RankBound(n, b, k - 1);
      SameQuotient(Prod(n, k - 1), a[k - 1], Rank(n, a, k - 1), b[k - 1], Rank(n, b, k - 1));
      RankInjective(n, a, b, k - 1);
      assert a[..k] == a[..k - 1] + [a[k - 1]] && b[..k] == b[..k - 1] + [b[k - 1]];
    }
  }

  method Factor(n: seq<nat>, k: nat) returns (f: nat)
    requires k <= |n|
    ensures f == Prod(n, k)
  {
    f := 1;
    var j := 0;
    while j < k
      invariant 0 <= j <= k && f == Prod(n, j)
    {
      f := f * n[j];
      j := j + 1;
    }
  }

  /** What the directions from k on contribute to a rank. */
  ghost function RankFrom(n: seq<nat>, idx: seq<nat>, k: nat): nat
    requires k <= |n| == |idx|
    decreases |n| - k
  {
    if k == |n| then 0 else Prod(n, k) * idx[k] + RankFrom(n, idx, k + 1)
  }

  lemma {:induction false} RankSplits(n: seq<nat>, idx: seq<nat>, k: nat)
    requires k <= |n| == |idx|
    ensures Rank(n, idx, |n|) == Rank(n, idx, k) + RankFrom(n, idx, k)
    decreases |n| - k
  {
    if k < |n| { RankSplits(n, idx, k + 1); }
  }

  lemma {:induction false} RankFromLocal(n: seq<nat>, a: seq<nat>, b: seq<nat>, k: nat)
    requires k <= |n| == |a| == |b| && forall d :: k <= d < |n| ==> a[d] == b[d]
    ensures RankFrom(n, a, k) == RankFrom(n, b, k)
    decreases |n| - k
  {
    if k < |n| { RankFromLocal(n, a, b, k + 1); }
  }

  lemma TopIndex(n: seq<nat>, rem: nat, k: nat)
    requires k < |n| && Prod(n, k) > 0 && rem < Prod(n, k + 1)
    ensures rem / Prod(n, k) < n[k] && rem % Prod(n, k) == rem - rem / Prod(n, k) * Prod(n, k) < Prod(n, k)
  {
    var p, v := Prod(n, k), rem / Prod(n, k);
    assert rem == p * v + rem % p;
    if n[k] <= v { MulMono(p, n[k], v); }
  }

  /** The block indices of a rank, last direction first. */
  method GetIndices(n: seq<nat>, rank: nat) returns (idx: seq<nat>)
    requires rank < Prod(n, |n|)
    ensures IsIndex(n, idx) && Rank(n, idx, |n|) == rank
  {
    var k := |n|;
    idx := seq(k, _ => 0);
    var rem: nat := rank;
    while k > 0
      invariant 0 <= k <= |n| && |idx| == |n|
      invariant rem < Prod(n, k) && rem + RankFrom(n, idx, k) == rank
      invariant forall d :: k <= d < |n| ==> idx[d] < n[d]
    {
      rem, idx := TakeIndex(n, rem, idx, k - 1, rank);
      k := k - 1;
    }
    assert k == 0 && Prod(n, 0) == 1;
    RankSplits(n, idx, 0);
  }

  method TakeIndex(n: seq<nat>, rem: nat, idx: seq<nat>, k: nat, ghost rank: nat) returns (rem': nat, idx': seq<nat>)
    requires k < |n| == |idx| && rem < Prod(n, k + 1) && rem + RankFrom(n, idx, k + 1) == rank
    requires forall d :: k < d < |n| ==> idx[d] < n[d]
    ensures |idx'| == |n| && rem' < Prod(n, k) && rem' + RankFrom(n, idx', k) == rank
    ensures forall d :: k <= d < |n| ==> idx'[d] < n[d]
  {
    var factor := Factor(n, k);
    ProdPositive(n, k);
    TopIndex(n, rem, k);
    var value := rem / factor;
    idx' := idx[k := value];
    RankFromLocal(n, idx, idx', k + 1);
    rem' := rem - value * factor;
  }

  lemma {:induction false} ProdPositive(n: seq<nat>, k: nat)
    requires k < |n| && Prod(n, k + 1) > 0
    ensures Prod(n, k) > 0
  {}
}
