/** Block distributions of an index space over ranks, and who owns an id. */
module Distribution {
  import opened Base

  /** Offsets of consecutive blocks, starting at 0; blocks may be empty. */
  ghost predicate IsDistribution(dist: seq<nat>, parts: nat) {
    |dist| == parts + 1 && dist[0] == 0 && Monotone(dist)
  }

  /** The only rank whose block holds i. */
  ghost predicate Owns(dist: seq<nat>, i: nat, r: nat) {
    r + 1 < |dist| && dist[r] <= i < dist[r + 1]
  }

  lemma OwnerUnique(dist: seq<nat>, i: nat, r: nat, s: nat)
    requires Monotone(dist) && Owns(dist, i, r) && Owns(dist, i, s)
    ensures r == s
  {
    assert forall k :: r + 1 <= k < |dist| ==> i < dist[k];
    assert forall k :: s + 1 <= k < |dist| ==> i < dist[k];
  }

  lemma {:induction false} OwnerExists(dist: seq<nat>, parts: nat, i: nat)
    requires IsDistribution(dist, parts) && i < dist[parts]
    ensures exists r :: Owns(dist, i, r)
  {
    if dist[parts - 1] <= i {
      assert Owns(dist, i, parts - 1);
    } else {
      var shorter := dist[..parts];
      OwnerExists(shorter, parts - 1, i);
      var r :| Owns(shorter, i, r);
      assert Owns(dist, i, r);
    }
  }

  ghost function Owner(dist: seq<nat>, parts: nat, i: nat): (r: nat)
    requires IsDistribution(dist, parts) && i < dist[parts]
    ensures r < parts && Owns(dist, i, r)
  {
    OwnerExists(dist, parts, i);
    var r :| Owns(dist, i, r);
    r
  }

  /** Interval test. */
  predicate OwnedBy(dist: seq<nat>, id: nat, owner: nat)
    requires owner + 1 < |dist|
  {
    if id < dist[owner] then false
    else if id < dist[owner + 1] then true
    else false
  }

  /** The interval test and the search agree, also when blocks are empty. */
  lemma OwnedByIffOwner(dist: seq<nat>, parts: nat, id: nat, owner: nat)
    requires IsDistribution(dist, parts) && id < dist[parts] && owner < parts
    ensures OwnedBy(dist, id, owner) <==> owner == Owner(dist, parts, id)
  {
    if OwnedBy(dist, id, owner) {
      OwnerUnique(dist, id, owner, Owner(dist, parts, id));
    }
  }

  /** Upper-bound binary search: the first offset above i, less one. */
  method RankOwner(dist: seq<nat>, parts: nat, i: nat) returns (r: nat)
    requires IsDistribution(dist, parts)
    requires i < dist[parts]
    ensures r == Owner(dist, parts, i)
  {
    var first, len := 0, |dist|;
    while len > 0
      invariant 0 <= len && first + len <= |dist|
      invariant forall k :: 0 <= k < first ==> dist[k] <= i
      invariant forall k :: first + len <= k < |dist| ==> i < dist[k]
    {
      var half := len / 2;
      var mid := first + half;
      if i < dist[mid] {
        len := half;
      } else {
        first, len := mid + 1, len - half - 1;
      }
    }
    assert first < |dist|;
    r := first - 1;
    OwnerUnique(dist, i, r, Owner(dist, parts, i));
  }

  /** Every block has the average size, the last rem blocks one more. */
  ghost function PartSize(quot: nat, rem: nat, npart: nat, r: int): nat {
    quot + (if r >= npart - rem then 1 else 0)
  }

  ghost function PartStart(quot: nat, rem: nat, npart: nat, r: nat): nat {
    if r == 0 then 0 else PartStart(quot, rem, npart, r - 1) + PartSize(quot, rem, npart, r - 1)
  }

  lemma {:induction false} PartStartClosed(quot: nat, rem: nat, npart: nat, r: nat)
    requires rem <= npart
    ensures PartStart(quot, rem, npart, r) == quot * r + (if r > npart - rem then r - (npart - rem) else 0)
  {
    if r > 0 {
      PartStartClosed(quot, rem, npart, r - 1);
      assert quot * r == quot * (r - 1) + quot;
    }
  }

  lemma PartsCover(nelem: nat, npart: nat)
    requires npart > 0
    ensures PartStart(nelem / npart, nelem % npart, npart, npart) == nelem
  {
    PartStartClosed(nelem / npart, nelem % npart, npart, npart);
    assert nelem == npart * (nelem / npart) + nelem % npart;
  }

  /** All ids are in some block, every block has the average size or one more, and blocks do
      not get smaller towards the end. */
  ghost predicate EvenBlocks(dist: seq<nat>, parts: nat, n: nat)
    requires parts > 0
  {
    IsDistribution(dist, parts) && dist[parts] == n && LevelBlocks(dist, parts, n / parts)
  }

  ghost function BlockSize(dist: seq<nat>, r: nat): int
    requires r + 1 < |dist|
  {
    dist[r + 1] as int - dist[r]
  }

  ghost predicate LevelBlocks(dist: seq<nat>, parts: nat, quot: nat)
    requires IsDistribution(dist, parts)
  {
    (forall r: nat :: r < parts ==> quot <= BlockSize(dist, r) <= quot + 1) &&
    forall q: nat, r: nat :: q <= r < parts ==> BlockSize(dist, q) <= BlockSize(dist, r)
  }

  lemma {:induction false} BlocksBetween(dist: seq<nat>, parts: nat, least: nat, most: nat, a: nat, b: nat)
    requires IsDistribution(dist, parts) && a <= b <= parts
    requires forall r: nat :: a <= r < b ==> least <= BlockSize(dist, r) <= most
    ensures dist[a] + least * (b - a) <= dist[b] <= dist[a] + most * (b - a)
    decreases b - a
  {
    if a < b {
      BlocksBetween(dist, parts, least, most, a, b - 1);
      assert least <= BlockSize(dist, b - 1) <= most;
      assert least * (b - a) == least * (b - 1 - a) + least && most * (b - a) == most * (b - 1 - a) + most;
    }
  }

  lemma LevelBlockSize(dist: seq<nat>, parts: nat, quot: nat, rem: nat, r: nat)
    requires IsDistribution(dist, parts) && LevelBlocks(dist, parts, quot) && r < parts
    requires dist[parts] == quot * parts + rem && rem < parts
    ensures BlockSize(dist, r) == PartSize(quot, rem, parts, r)
  {
    if BlockSize(dist, r) == quot + 1 {
      BlocksBetween(dist, parts, quot, quot + 1, 0, r);
      BlocksBetween(dist, parts, quot + 1, quot + 1, r, parts);
      SplitProduct(quot, r, parts);
    } else {
      BlocksBetween(dist, parts, quot, quot, 0, r + 1);
      BlocksBetween(dist, parts, quot, quot + 1, r + 1, parts);
      SplitProduct(quot, r + 1, parts);
    }
  }

  lemma SplitProduct(quot: nat, a: nat, b: nat)
    requires a <= b
    ensures quot * a + (quot + 1) * (b - a) == quot * b + (b - a)
  {}

  /** The last blocks are the larger ones, as many as there are ids left over. */
  lemma EvenBlockSize(dist: seq<nat>, parts: nat, n: nat, r: nat)
    requires parts > 0 && EvenBlocks(dist, parts, n) && r < parts
    ensures BlockSize(dist, r) == PartSize(n / parts, n % parts, parts, r)
  {
    assert n == (n / parts) * parts + n % parts;
    LevelBlockSize(dist, parts, n / parts, n % parts, r);
  }

  /** So there is only one way to do it. */
  lemma EvenBlocksUnique(a: seq<nat>, b: seq<nat>, parts: nat, n: nat)
    requires parts > 0 && EvenBlocks(a, parts, n) && EvenBlocks(b, parts, n)
    ensures a == b
  {
    forall r: nat | r <= parts ensures a[r] == b[r] { EvenBlocksAgree(a, b, parts, n, r); }
  }

  lemma {:induction false} EvenBlocksAgree(a: seq<nat>, b: seq<nat>, parts: nat, n: nat, r: nat)
    requires parts > 0 && EvenBlocks(a, parts, n) && EvenBlocks(b, parts, n) && r <= parts
    ensures a[r] == b[r]
  {
    if r > 0 {
      EvenBlocksAgree(a, b, parts, n, r - 1);
      EvenBlockSize(a, parts, n, r - 1);
      EvenBlockSize(b, parts, n, r - 1);
    }
  }

  /** Splits nelem ids into npart blocks. */
  method Subdivide(nelem: nat, npart: nat) returns (dist: seq<nat>)
    requires npart > 0
    ensures EvenBlocks(dist, npart, nelem)
  {
    var quot, rem := nelem / npart, nelem % npart;
    dist := PlaceParts(quot, rem, npart);
    PartsCover(nelem, npart);
    assert LevelBlocks(dist, npart, quot);
  }

  method PlaceParts(quot: nat, rem: nat, npart: nat) returns (dist: seq<nat>)
    requires rem <= npart
    ensures IsDistribution(dist, npart) && dist[npart] == PartStart(quot, rem, npart, npart)
    ensures forall r: nat :: r < npart ==> BlockSize(dist, r) == PartSize(quot, rem, npart, r)
  {
    dist := [0];
    var r := 0;
    while r < npart
      invariant 0 <= r <= npart && |dist| == r + 1 && dist[0] == 0
      invariant Monotone(dist)
      invariant forall k: nat :: k < r ==> BlockSize(dist, k) == PartSize(quot, rem, npart, k)
      invariant dist[r] == PartStart(quot, rem, npart, r)
    {
      var indices := quot + (if r >= npart - rem then 1 else 0);
      MonotoneSnoc(dist, dist[r] + indices);
      dist := dist + [dist[r] + indices];
      r := r + 1;
    }
  }

  /** Running totals of block sizes, as built after a gather of local sizes. */
  method PrefixSums(sizes: seq<nat>) returns (dist: seq<nat>)
    ensures IsDistribution(dist, |sizes|)
    ensures forall r :: 0 <= r < |sizes| ==> dist[r + 1] == dist[r] + sizes[r]
  {
    dist := [0];
    var r := 0;
    while r < |sizes|
      invariant 0 <= r <= |sizes| && |dist| == r + 1 && dist[0] == 0
      invariant Monotone(dist)
      invariant forall k :: 0 <= k < r ==> dist[k + 1] == dist[k] + sizes[k]
    {
      MonotoneSnoc(dist, dist[r] + sizes[r]);
      dist := dist + [dist[r] + sizes[r]];
      r := r + 1;
    }
  }

  /** top is the largest id that any list holds, or zero. */
  ghost predicate HighestId(lists: seq<seq<nat>>, top: nat) {
    (forall r, v :: 0 <= r < |lists| && v in lists[r] ==> v <= top) &&
    (top == 0 || exists r :: 0 <= r < |lists| && top in lists[r])
  }

  /** Splits the ids up to the largest in use into one block per list. */
  method SubdivideIds(lists: seq<seq<nat>>) returns (dist: seq<nat>)
    requires |lists| > 0
    ensures dist != [] && dist[|dist| - 1] > 0 && EvenBlocks(dist, |lists|, dist[|dist| - 1])
    ensures HighestId(lists, dist[|dist| - 1] - 1)
    ensures forall r, v :: 0 <= r < |lists| && v in lists[r] ==> v < dist[|lists|]
  {
    var top := 0;
    var r := 0;
    while r < |lists|
      invariant 0 <= r <= |lists| && (top == 0 || exists q :: 0 <= q < |lists| && top in lists[q])
      invariant forall q, v :: 0 <= q < r && v in lists[q] ==> v <= top
    {
      var l := 0;
      while l < |lists[r]|
        invariant 0 <= l <= |lists[r]| && (top == 0 || exists q :: 0 <= q < |lists| && top in lists[q])
        invariant forall k :: 0 <= k < l ==> lists[r][k] <= top
        invariant forall q, v :: 0 <= q < r && v in lists[q] ==> v <= top
      {
        top := if lists[r][l] > top then lists[r][l] else top;
        l := l + 1;
      }
      r := r + 1;
    }
    dist := Subdivide(top + 1, |lists|);
  }
}
