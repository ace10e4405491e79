/** Across ranks: ghost boxes and shared boxes are two sides of the same thing, exactly when
    blocks are wide enough. */
module BoxDuality {
  import opened Boxes
  import opened BoxZones

  // ----- one direction ----------------------------------------------------------------------------

  /** x belongs to what block j has in common with block i: the whole block for j == i,
      otherwise the cells up to a halo's depth from the side where i is. A halo that is
      deeper than all that lies before i would start below zero and is no box at all. */
  ghost predicate InBand(g: Grid, d: nat, i: nat, j: nat, x: int)
    requires Ok(g) && d < |g.size|
  {
    if j == i then BlockLo(g, d, j) <= x <= BlockHi(g, d, j)
    else if j + 1 == i then g.halo <= BlockHi(g, d, j) + 1 && BlockHi(g, d, j) - g.halo < x <= BlockHi(g, d, j)
    else j == i + 1 && BlockLo(g, d, j) <= x < BlockLo(g, d, j) + g.halo
  }

  ghost predicate InZone(word: nat, m: Marks, t: nat, x: int) {
    |m| == 4 && t < 3 && ZoneLo(word, m, t) <= x <= ZoneHi(word, m, t)
  }

  lemma BlockFacts(g: Grid, d: nat, i: nat)
    requires Ok(g) && d < |g.size| && i < g.blocks[d]
    ensures
      var w := g.size[d] / g.blocks[d];
      BlockLo(g, d, i) + w - 1 <= BlockHi(g, d, i) && w >= 1 &&
      (i + 1 < g.blocks[d] ==> BlockHi(g, d, i) + 1 == BlockLo(g, d, i + 1)) &&
      BlockLo(g, d, 0) == g.domainHalo && BlockHi(g, d, g.blocks[d] - 1) == g.domainHalo + g.size[d] - 1 &&
      g.domainHalo <= BlockLo(g, d, i) && BlockHi(g, d, i) <= g.domainHalo + g.size[d] - 1 &&
      BlockHi(g, d, i) + 2 * g.halo + g.domainHalo + 1 < g.word
  {
    assert EachHasCells(g.size[d], g.blocks[d]) && BoundsFit(g, g.size[d]);
    BlockAt(g.size[d], g.blocks[d], g.domainHalo, i);
  }

  /** The ghost zone on a side of block i is the band of the neighbour on that side; level
      with it there is one only if the block is at least two cells wide. */
  lemma GhostBand(g: Grid, d: nat, i: nat, t: nat, j: nat, x: int)
    requires Ok(g) && d < |g.size| && i < g.blocks[d] && j < g.blocks[d] && t < 3 && j == i + t - 1
    ensures
      var m := GhostMark(g, d, i);
      m[t] != m[t + 1] && InZone(g.word, m, t, x) <==>
        InBand(g, d, i, j, x) && (t == 1 ==> BlockLo(g, d, i) != BlockHi(g, d, i))
  {
    BlockFacts(g, d, i);
    BlockFacts(g, d, j);
  }

  /** There is a neighbour on each side with a ghost zone. */
  lemma GhostSide(g: Grid, d: nat, i: nat, t: nat)
    requires Ok(g) && d < |g.size| && i < g.blocks[d] && t < 3 && GhostMark(g, d, i)[t] != GhostMark(g, d, i)[t + 1]
    ensures 0 <= i + t - 1 < g.blocks[d]
  {}

  /** The zone of block j that the band of block i lies in. */
  lemma SharedBand(g: Grid, d: nat, i: nat, j: nat, x: int) returns (t: nat)
    requires Ok(g) && d < |g.size| && i < g.blocks[d] && j < g.blocks[d] && InBand(g, d, i, j, x)
    ensures
      var m := SharedMark(g, d, j);
      t < 3 && InZone(g.word, m, t, x) && (t == 1 || m[t] != m[t + 1]) && (i == j || i as int - j == t - 1)
  {
    BlockFacts(g, d, j);
    var m := SharedMark(g, d, j);
    t := if i < j then 0 else if j < i then 2 else if x < m[1] then 0 else if m[2] < x then 2 else 1;
  }

  /** The first and last zones of a block do not reach beyond the block, and the mark between
      its last zones is not below zero. */
  ghost predicate HaloFits(g: Grid, d: nat)
    requires Ok(g) && d < |g.size|
  {
    var w := g.size[d] / g.blocks[d];
    g.blocks[d] >= 2 ==> g.halo <= w && g.halo < g.domainHalo + w
  }

  lemma BandOfShared(g: Grid, d: nat, i: nat, j: nat, t: nat, x: int)
    requires Ok(g) && d < |g.size| && i < g.blocks[d] && j < g.blocks[d] && t < 3
    requires ToldZone(g, d, i, j, t, x) && (i == j ==> HaloFits(g, d))
    ensures InBand(g, d, i, j, x)
  {
    BlockFacts(g, d, j);
  }

  /** Depth of a block's first and last zones together. */
  ghost function SharedDepth(g: Grid, d: nat, j: nat): nat
    requires Ok(g) && d < |g.size|
  {
    (if First(j) then 0 else g.halo) + (if Last(g, d, j) then 0 else g.halo)
  }

  /** A block's zones fit side by side, and the mark before its last zone is not below zero. */
  ghost predicate ZonesFit(g: Grid, d: nat, j: nat)
    requires Ok(g) && d < |g.size|
  {
    BlockLo(g, d, j) + SharedDepth(g, d, j) <= BlockHi(g, d, j) + 1 && (Last(g, d, j) || g.halo <= BlockHi(g, d, j))
  }

  /** Then they do not overlap and cover the block. */
  lemma OneSharedZone(g: Grid, d: nat, j: nat, x: int) returns (t: nat)
    requires Ok(g) && d < |g.size| && j < g.blocks[d] && BlockLo(g, d, j) <= x <= BlockHi(g, d, j) && ZonesFit(g, d, j)
    ensures ToldZone(g, d, j, j, t, x) && forall u :: ToldZone(g, d, j, j, u, x) ==> u == t
  {
    t := SharedBand(g, d, j, j, x);
    BlockFacts(g, d, j);
    assert ToldZone(g, d, j, j, t, x);
    forall u | ToldZone(g, d, j, j, u, x) ensures u == t { TwoZones(g, d, j, x, t, u); }
  }

  lemma TwoZones(g: Grid, d: nat, j: nat, x: int, t: nat, u: nat)
    requires Ok(g) && d < |g.size| && j < g.blocks[d] && ZonesFit(g, d, j)
    requires ToldZone(g, d, j, j, t, x) && ToldZone(g, d, j, j, u, x)
    ensures t == u
  {
    BlockFacts(g, d, j);
  }

  // ----- all directions ------------------------------------------------------------------------------

  ghost function Difference(a: seq<nat>, b: seq<nat>): (delta: seq<int>)
    requires |a| == |b|
    ensures |delta| == |a| && forall d :: 0 <= d < |a| ==> delta[d] == a[d] as int - b[d]
  {
    seq(|a|, d requires 0 <= d < |a| => a[d] as int - b[d])
  }

  /** In every direction cell c is in what blocks r and s have in common, and s meets r in a
      part of at least the dimension asked for. */
  ghost predicate Bands(g: Grid, s: seq<nat>, r: seq<nat>, c: seq<int>)
    requires Ok(g) && IsIndex(g.blocks, s) && IsIndex(g.blocks, r)
  {
    |c| == |g.size| && (forall d :: 0 <= d < |c| ==> InBand(g, d, s[d], r[d], c[d])) &&
    1 <= NonZero(Difference(s, r), |c|) && NonZero(Difference(s, r), |c|) + g.thruDim <= |c|
  }

  lemma SameRankSameIndex(g: Grid, a: seq<nat>, b: seq<nat>)
    requires IsIndex(g.blocks, a) && IsIndex(g.blocks, b) && RankOf(g, a) == RankOf(g, b)
    ensures a == b
  {
    RankInjective(g.blocks, a, b, |g.blocks|);
    assert a[..|g.blocks|] == a && b[..|g.blocks|] == b;
  }

  lemma InZoneBox(word: nat, ms: seq<Marks>, z: seq<nat>, c: seq<int>)
    requires AllMarks(ms) && IsZone(z, |ms|) && |c| == |ms|
    ensures In(ZoneBox(word, ms, z), c) <==> forall d :: 0 <= d < |c| ==> InZone(word, ms[d], z[d], c[d])
  {
    assert forall d :: 0 <= d < |c| ==> (InZone(word, ms[d], z[d], c[d]) <==>
      ZoneLo(word, ms[d], z[d]) <= c[d] <= ZoneHi(word, ms[d], z[d]));
  }

  /** In every direction in which the blocks are level, block s is at least two cells wide. */
  ghost predicate Levelled(g: Grid, s: seq<nat>, r: seq<nat>)
    requires Ok(g) && IsIndex(g.blocks, s) && IsIndex(g.blocks, r)
  {
    forall d :: 0 <= d < |g.size| && s[d] == r[d] ==> BlockLo(g, d, s[d]) != BlockHi(g, d, s[d])
  }

  lemma GhostIsBand(g: Grid, s: seq<nat>, r: seq<nat>, z: seq<nat>, b: ColoredBox, c: seq<int>)
    requires Ok(g) && IsIndex(g.blocks, s) && IsIndex(g.blocks, r) && |c| == |g.size|
    requires GhostBox(g, s, z, b) && In(b.box, c) && RankOf(g, r) in b.colors
    ensures Bands(g, s, r, c) && Levelled(g, s, r)
  {
    ColorIsNeighbor(g, s, r, z, b);
    var ms := GhostMarks(g, s);
    InZoneBox(g.word, ms, z, c);
    forall d | 0 <= d < |c|
      ensures InBand(g, d, s[d], r[d], c[d])
      ensures s[d] == r[d] ==> BlockLo(g, d, s[d]) != BlockHi(g, d, s[d])
    {
      assert ms[d][z[d]] != ms[d][z[d] + 1];
      GhostBand(g, d, s[d], z[d], r[d], c[d]);
    }
    OffsetCounts(g, s, r, z);
  }

  lemma ColorIsNeighbor(g: Grid, s: seq<nat>, r: seq<nat>, z: seq<nat>, b: ColoredBox)
    requires Ok(g) && IsIndex(g.blocks, s) && IsIndex(g.blocks, r) && GhostBox(g, s, z, b) && RankOf(g, r) in b.colors
    ensures Moved(s, Offset(z), r)
  {
    var other :| IsIndex(g.blocks, other) && Moved(s, Offset(z), other) && b.colors == [RankOf(g, other)];
    SameRankSameIndex(g, r, other);
  }

  lemma OffsetCounts(g: Grid, s: seq<nat>, r: seq<nat>, z: seq<nat>)
    requires Ok(g) && IsIndex(g.blocks, s) && IsIndex(g.blocks, r) && IsZone(z, |g.size|) && Moved(s, Offset(z), r)
    ensures NonZero(Difference(s, r), |z|) == NonZero(Offset(z), |z|)
    ensures NonZero(Offset(z), |z|) >= 1 <==> !Center(z)
  {
    SameZeros(Difference(s, r), Offset(z), |z|);
    NonZeroPositive(Offset(z), |z|);
    assert forall d :: 0 <= d < |z| ==> (Offset(z)[d] != 0 <==> z[d] != 1);
  }

  lemma ZoneTowards(g: Grid, s: seq<nat>, r: seq<nat>, c: seq<int>) returns (z: seq<nat>)
    requires Ok(g) && IsIndex(g.blocks, s) && IsIndex(g.blocks, r) && Bands(g, s, r, c)
    ensures IsZone(z, |c|) && forall d :: 0 <= d < |c| ==> z[d] == r[d] as int - s[d] + 1
  {
    forall d | 0 <= d < |c| ensures 0 <= r[d] as int - s[d] + 1 < 3 { assert InBand(g, d, s[d], r[d], c[d]); }
    z := seq(|c|, d requires 0 <= d < |c| => r[d] as int - s[d] + 1);
  }

  lemma BandIsGhost(g: Grid, s: seq<nat>, r: seq<nat>, c: seq<int>) returns (z: seq<nat>)
    requires Ok(g) && IsIndex(g.blocks, s) && IsIndex(g.blocks, r) && Bands(g, s, r, c) && Levelled(g, s, r)
    ensures GhostZone(g, s, z)
    ensures Moved(s, Offset(z), r) && In(ZoneBox(g.word, GhostMarks(g, s), z), c)
  {
    z := ZoneTowards(g, s, r, c);
    var ms := GhostMarks(g, s);
    forall d | 0 <= d < |c| ensures ms[d][z[d]] != ms[d][z[d] + 1] && InZone(g.word, ms[d], z[d], c[d]) {
      assert InBand(g, d, s[d], r[d], c[d]);
      GhostBand(g, d, s[d], z[d], r[d], c[d]);
    }
    InZoneBox(g.word, ms, z, c);
    OffsetCounts(g, s, r, z);
  }

  // ----- shared boxes -------------------------------------------------------------------------------------

  /** Some zone of block j that block i is told about holds x. */
  ghost predicate InSharedZone(g: Grid, d: nat, i: nat, j: nat, x: int)
    requires Ok(g) && d < |g.size|
  {
    exists t: nat :: ToldZone(g, d, i, j, t, x)
  }

  ghost predicate ToldZone(g: Grid, d: nat, i: nat, j: nat, t: nat, x: int)
    requires Ok(g) && d < |g.size|
  {
    var m := SharedMark(g, d, j);
    t < 3 && InZone(g.word, m, t, x) && (t == 1 || m[t] != m[t + 1]) && (i == j || i as int - j == t as int - 1)
  }

  /** Bands are shared; what is shared is a band if the halo fits a block that is level. */
  lemma SharedZoneIsBand(g: Grid, d: nat, i: nat, j: nat, x: int)
    requires Ok(g) && d < |g.size| && i < g.blocks[d] && j < g.blocks[d]
    ensures InBand(g, d, i, j, x) ==> InSharedZone(g, d, i, j, x)
    ensures (i != j || HaloFits(g, d)) && InSharedZone(g, d, i, j, x) ==> InBand(g, d, i, j, x)
  {
    if InBand(g, d, i, j, x) {
      var t := SharedBand(g, d, i, j, x);
      assert ToldZone(g, d, i, j, t, x);
    } else if (i != j || HaloFits(g, d)) && InSharedZone(g, d, i, j, x) {
      var t: nat :| ToldZone(g, d, i, j, t, x);
      BandOfShared(g, d, i, j, t, x);
    }
  }

  ghost predicate SharedParts(g: Grid, s: seq<nat>, r: seq<nat>, c: seq<int>)
    requires Ok(g) && IsIndex(g.blocks, s) && IsIndex(g.blocks, r)
  {
    |c| == |g.size| && (forall d :: 0 <= d < |c| ==> InSharedZone(g, d, s[d], r[d], c[d])) &&
    1 <= NonZero(Difference(s, r), |c|) && NonZero(Difference(s, r), |c|) + g.thruDim <= |c|
  }

  lemma SharedIsPart(g: Grid, s: seq<nat>, r: seq<nat>, z: seq<nat>, b: ColoredBox, c: seq<int>)
    requires Ok(g) && IsIndex(g.blocks, s) && IsIndex(g.blocks, r) && |c| == |g.size|
    requires SharedBox(g, r, z, b) && In(b.box, c) && RankOf(g, s) in b.colors
    ensures SharedParts(g, s, r, c)
  {
    var other :| IsIndex(g.blocks, other) && SharedWith(g, r, z, other) && RankOf(g, s) == RankOf(g, other);
    SameRankSameIndex(g, s, other);
    var delta :| Sharing(z, delta, g.thruDim) && Moved(r, delta, other);
    SharingIsPart(g, s, r, z, delta, c);
  }

  lemma SharingIsPart(g: Grid, s: seq<nat>, r: seq<nat>, z: seq<nat>, delta: seq<int>, c: seq<int>)
    requires Ok(g) && IsIndex(g.blocks, s) && IsIndex(g.blocks, r) && |c| == |g.size| && IsZone(z, |g.size|)
    requires SharedFlag(SharedMarks(g, r), z) && In(ZoneBox(g.word, SharedMarks(g, r), z), c)
    requires Sharing(z, delta, g.thruDim) && Moved(r, delta, s)
    ensures SharedParts(g, s, r, c)
  {
    var ms := SharedMarks(g, r);
    InZoneBox(g.word, ms, z, c);
    forall d | 0 <= d < |c| ensures InSharedZone(g, d, s[d], r[d], c[d]) {
      assert z[d] == 1 || ms[d][z[d]] != ms[d][z[d] + 1];
      assert ToldZone(g, d, s[d], r[d], z[d], c[d]);
    }
    assert Difference(s, r) == delta;
  }

  lemma {:induction false} ZoneOfParts(g: Grid, s: seq<nat>, r: seq<nat>, c: seq<int>, n: nat) returns (z: seq<nat>)
    requires Ok(g) && IsIndex(g.blocks, s) && IsIndex(g.blocks, r) && SharedParts(g, s, r, c) && n <= |c|
    ensures IsZone(z, n) && forall d :: 0 <= d < n ==> ToldZone(g, d, s[d], r[d], z[d], c[d])
    decreases n
  {
    if n == 0 {
      z := [];
    } else {
      var front := ZoneOfParts(g, s, r, c, n - 1);
      assert InSharedZone(g, n - 1, s[n - 1], r[n - 1], c[n - 1]);
      var t: nat :| ToldZone(g, n - 1, s[n - 1], r[n - 1], t, c[n - 1]);
      z := front + [t];
    }
  }

  lemma PartIsShared(g: Grid, s: seq<nat>, r: seq<nat>, c: seq<int>) returns (z: seq<nat>)
    requires Ok(g) && IsIndex(g.blocks, s) && IsIndex(g.blocks, r) && SharedParts(g, s, r, c)
    ensures IsZone(z, |g.size|) && SharedFlag(SharedMarks(g, r), z) && SharedWith(g, r, z, s)
    ensures In(ZoneBox(g.word, SharedMarks(g, r), z), c)
  {
    var ms := SharedMarks(g, r);
    z := ZoneOfParts(g, s, r, c, |c|);
    forall d | 0 <= d < |c|
      ensures InZone(g.word, ms[d], z[d], c[d]) && (z[d] == 1 || ms[d][z[d]] != ms[d][z[d] + 1])
      ensures Difference(s, r)[d] == 0 || Difference(s, r)[d] == z[d] as int - 1
    {
      assert ToldZone(g, d, s[d], r[d], z[d], c[d]);
    }
    InZoneBox(g.word, ms, z, c);
    var delta := Difference(s, r);
    assert Sharing(z, delta, g.thruDim) && Moved(r, delta, s);
    NonZeroPositive(delta, |c|);
    var d :| 0 <= d < |c| && delta[d] != 0;
    assert z[d] != 1;
  }

  // ----- the lists of boxes -----------------------------------------------------------------------------

  /** Some box of the list holds c and has the given colour. */
  ghost predicate Covered(boxes: seq<ColoredBox>, c: seq<int>, color: nat) {
    exists b :: b in boxes && In(b.box, c) && color in b.colors
  }

  lemma BandIsCovered(g: Grid, s: seq<nat>, r: seq<nat>, zs: seq<seq<nat>>, ghosts: seq<ColoredBox>, c: seq<int>)
    requires Ok(g) && IsIndex(g.blocks, s) && IsIndex(g.blocks, r) && GhostBoxes(g, s, zs, ghosts)
    requires Bands(g, s, r, c) && Levelled(g, s, r)
    ensures Covered(ghosts, c, RankOf(g, r))
  {
    var z := BandIsGhost(g, s, r, c);
    var k :| 0 <= k < |zs| && zs[k] == z;
    assert GhostBox(g, s, z, ghosts[k]);
    OneNeighbor(g, s, z, r, ghosts[k]);
    assert ghosts[k] in ghosts && RankOf(g, r) in ghosts[k].colors;
  }

  lemma OneNeighbor(g: Grid, s: seq<nat>, z: seq<nat>, r: seq<nat>, b: ColoredBox)
    requires Ok(g) && IsIndex(g.blocks, s) && IsIndex(g.blocks, r) && GhostBox(g, s, z, b) && Moved(s, Offset(z), r)
    ensures b.colors == [RankOf(g, r)]
  {
    var other :| IsIndex(g.blocks, other) && Moved(s, Offset(z), other) && b.colors == [RankOf(g, other)];
    assert other == r;
  }

  lemma CoveredIsBand(g: Grid, s: seq<nat>, r: seq<nat>, zs: seq<seq<nat>>, ghosts: seq<ColoredBox>, c: seq<int>)
    requires Ok(g) && IsIndex(g.blocks, s) && IsIndex(g.blocks, r) && |c| == |g.size| && GhostBoxes(g, s, zs, ghosts)
    requires Covered(ghosts, c, RankOf(g, r))
    ensures Bands(g, s, r, c) && Levelled(g, s, r)
  {
    var b :| b in ghosts && In(b.box, c) && RankOf(g, r) in b.colors;
    var z := ZoneOfGhost(g, s, zs, ghosts, b);
    GhostIsBand(g, s, r, z, b, c);
  }

  lemma ZoneOfGhost(g: Grid, s: seq<nat>, zs: seq<seq<nat>>, ghosts: seq<ColoredBox>, b: ColoredBox)
    returns (z: seq<nat>)
    requires Ok(g) && IsIndex(g.blocks, s) && GhostBoxes(g, s, zs, ghosts) && b in ghosts
    ensures GhostBox(g, s, z, b)
  {
    var i :| 0 <= i < |ghosts| && ghosts[i] == b;
    z := zs[i];
  }

  /** The ghost boxes of s coloured r hold exactly the bands of r towards s, if s is not one
      cell wide in a direction in which it is level with r, and nothing otherwise. */
  lemma GhostsAreBands(g: Grid, s: seq<nat>, r: seq<nat>, cs: Coloring, c: seq<int>)
    requires Ok(g) && IsIndex(g.blocks, s) && IsIndex(g.blocks, r) && |c| == |g.size| && IsColoring(g, s, cs)
    ensures Covered(cs.ghosts, c, RankOf(g, r)) <==> Bands(g, s, r, c) && Levelled(g, s, r)
  {
    var zs :| GhostBoxes(g, s, zs, cs.ghosts);
    if Covered(cs.ghosts, c, RankOf(g, r)) {
      CoveredIsBand(g, s, r, zs, cs.ghosts, c);
    } else if Bands(g, s, r, c) && Levelled(g, s, r) {
      BandIsCovered(g, s, r, zs, cs.ghosts, c);
    }
  }

  lemma PartIsCovered(g: Grid, s: seq<nat>, r: seq<nat>, zs: seq<seq<nat>>, shared: seq<ColoredBox>, c: seq<int>)
    requires Ok(g) && IsIndex(g.blocks, s) && IsIndex(g.blocks, r) && SharedBoxes(g, r, zs, shared)
    requires SharedParts(g, s, r, c)
    ensures Covered(shared, c, RankOf(g, s))
  {
    var z := PartIsShared(g, s, r, c);
    var k :| 0 <= k < |zs| && zs[k] == z;
    assert SharedBox(g, r, zs[k], shared[k]);
    assert shared[k] in shared && RankOf(g, s) in shared[k].colors;
  }

  lemma CoveredIsPart(g: Grid, s: seq<nat>, r: seq<nat>, zs: seq<seq<nat>>, shared: seq<ColoredBox>, c: seq<int>)
    requires Ok(g) && IsIndex(g.blocks, s) && IsIndex(g.blocks, r) && |c| == |g.size| && SharedBoxes(g, r, zs, shared)
    requires Covered(shared, c, RankOf(g, s))
    ensures SharedParts(g, s, r, c)
  {
    var b :| b in shared && In(b.box, c) && RankOf(g, s) in b.colors;
    var i :| 0 <= i < |zs| && shared[i] == b;
    SharedIsPart(g, s, r, zs[i], b, c);
  }

  /** The shared boxes of r whose colours include s hold exactly the parts that r tells s about. */
  lemma SharedAreParts(g: Grid, s: seq<nat>, r: seq<nat>, cr: Coloring, c: seq<int>)
    requires Ok(g) && IsIndex(g.blocks, s) && IsIndex(g.blocks, r) && |c| == |g.size| && IsColoring(g, r, cr)
    ensures Covered(cr.shared, c, RankOf(g, s)) <==> SharedParts(g, s, r, c)
  {
    var zs :| SharedBoxes(g, r, zs, cr.shared);
    if Covered(cr.shared, c, RankOf(g, s)) {
      CoveredIsPart(g, s, r, zs, cr.shared, c);
    } else if SharedParts(g, s, r, c) {
      PartIsCovered(g, s, r, zs, cr.shared, c);
    }
  }

  // ----- duality ------------------------------------------------------------------------------------------

  /** A cell is a ghost of r on s exactly when r shares it with s. */
  ghost predicate DualAt(g: Grid, s: seq<nat>, r: seq<nat>, cs: Coloring, cr: Coloring, c: seq<int>)
    requires Ok(g) && IsIndex(g.blocks, s) && IsIndex(g.blocks, r)
  {
    Covered(cs.ghosts, c, RankOf(g, r)) <==> Covered(cr.shared, c, RankOf(g, s))
  }

  /** No halo, or: a direction next to one that is cut has blocks of at least two cells,
      and, if it is cut itself, blocks at least as wide as the halo is deep. */
  ghost predicate WideEnough(g: Grid)
    requires Ok(g)
  {
    g.halo == 0 ||
    forall d, e :: 0 <= d < |g.size| && 0 <= e < |g.size| && d != e && g.blocks[e] >= 2 ==> WideIn(g, d)
  }

  ghost predicate WideIn(g: Grid, d: nat)
    requires Ok(g) && d < |g.size|
  {
    g.size[d] / g.blocks[d] >= 2 && HaloFits(g, d)
  }

  /** Ghosts always are shared. */
  lemma GhostIsShared(g: Grid, s: seq<nat>, r: seq<nat>, cs: Coloring, cr: Coloring, c: seq<int>)
    requires Ok(g) && IsIndex(g.blocks, s) && IsIndex(g.blocks, r) && |c| == |g.size|
    requires IsColoring(g, s, cs) && IsColoring(g, r, cr)
    ensures Covered(cs.ghosts, c, RankOf(g, r)) ==> Covered(cr.shared, c, RankOf(g, s))
  {
    GhostsAreBands(g, s, r, cs, c);
    SharedAreParts(g, s, r, cr, c);
    forall d | 0 <= d < |c| ensures InBand(g, d, s[d], r[d], c[d]) ==> InSharedZone(g, d, s[d], r[d], c[d]) {
      SharedZoneIsBand(g, d, s[d], r[d], c[d]);
    }
  }

  lemma NoHaloNothingShared(g: Grid, s: seq<nat>, r: seq<nat>, c: seq<int>)
    requires Ok(g) && IsIndex(g.blocks, s) && IsIndex(g.blocks, r) && g.halo == 0
    ensures !SharedParts(g, s, r, c)
  {
    NonZeroPositive(Difference(s, r), |g.size|);
    forall d | 0 <= d < |g.size| && |c| == |g.size|
      ensures InSharedZone(g, d, s[d], r[d], c[d]) ==> Difference(s, r)[d] == 0 {}
  }

  /** Different blocks differ in a direction that is cut, so the others are wide. */
  lemma LevelIsWide(g: Grid, s: seq<nat>, r: seq<nat>, d: nat)
    requires Ok(g) && IsIndex(g.blocks, s) && IsIndex(g.blocks, r) && g.halo > 0 && WideEnough(g)
    requires d < |g.size| && s[d] == r[d] && NonZero(Difference(s, r), |g.size|) >= 1
    ensures HaloFits(g, d) && BlockLo(g, d, s[d]) != BlockHi(g, d, s[d])
  {
    NonZeroPositive(Difference(s, r), |g.size|);
    var e :| 0 <= e < |g.size| && Difference(s, r)[e] != 0;
    assert s[e] < g.blocks[e] && r[e] < g.blocks[e] && s[e] != r[e];
    assert WideIn(g, d);
    BlockFacts(g, d, s[d]);
  }

  lemma PartIsBand(g: Grid, s: seq<nat>, r: seq<nat>, c: seq<int>)
    requires Ok(g) && IsIndex(g.blocks, s) && IsIndex(g.blocks, r) && WideEnough(g) && SharedParts(g, s, r, c)
    ensures Bands(g, s, r, c) && Levelled(g, s, r)
  {
    if g.halo == 0 { NoHaloNothingShared(g, s, r, c); }
    forall d | 0 <= d < |c|
      ensures InBand(g, d, s[d], r[d], c[d])
      ensures s[d] == r[d] ==> BlockLo(g, d, s[d]) != BlockHi(g, d, s[d])
    {
      if s[d] == r[d] { LevelIsWide(g, s, r, d); }
      SharedZoneIsBand(g, d, s[d], r[d], c[d]);
    }
  }

  /** Duality: when blocks are wide enough, a cell lies in a ghost box of rank s coloured r
      exactly when it lies in a shared box of rank r whose colours include s. */
  lemma GhostIffShared(g: Grid, s: seq<nat>, r: seq<nat>, cs: Coloring, cr: Coloring, c: seq<int>)
    requires Ok(g) && IsIndex(g.blocks, s) && IsIndex(g.blocks, r) && |c| == |g.size| && WideEnough(g)
    requires IsColoring(g, s, cs) && IsColoring(g, r, cr)
    ensures DualAt(g, s, r, cs, cr, c)
  {
    GhostIsShared(g, s, r, cs, cr, c);
    GhostsAreBands(g, s, r, cs, c);
    SharedAreParts(g, s, r, cr, c);
    if SharedParts(g, s, r, c) { PartIsBand(g, s, r, c); }
  }

  // ----- what goes missing otherwise ------------------------------------------------------------------

  /** The first block in every direction. */
  ghost function FirstBlock(g: Grid): (idx: seq<nat>)
    requires Ok(g)
    ensures IsIndex(g.blocks, idx) && forall d :: 0 <= d < |idx| ==> idx[d] == 0
  {
    assert forall d :: 0 <= d < |g.size| ==> EachHasCells(g.size[d], g.blocks[d]);
    seq(|g.size|, d requires 0 <= d < |g.size| => 0)
  }

  /** A cell that the second block in direction e shares with the first: at the border, and
      in direction d the block's only cell, or one that the block claims although it lies
      before the block, or behind it if the mark before the last zone is below zero. */
  ghost function LostCell(g: Grid, d: nat, e: nat): (c: seq<int>)
    requires Ok(g) && d < |g.size| && e < |g.size|
    ensures |c| == |g.size|
    ensures forall f :: 0 <= f < |c| ==>
      c[f] == if f == e then BlockLo(g, f, 1) else if f == d then LostAt(g, f) else BlockLo(g, f, 0)
  {
    seq(|g.size|, f requires 0 <= f < |g.size| =>
      if f == e then BlockLo(g, f, 1) else if f == d then LostAt(g, f) else BlockLo(g, f, 0))
  }

  ghost function LostAt(g: Grid, d: nat): int
    requires Ok(g) && d < |g.size|
  {
    if g.size[d] / g.blocks[d] < 2 then BlockLo(g, d, 0)
    else if g.halo <= BlockHi(g, d, 0) then BlockLo(g, d, 0) - 1
    else BlockHi(g, d, 0) + 1
  }

  lemma {:induction false} OneNonZero(delta: seq<int>, e: nat, k: nat)
    requires k <= |delta| && e < |delta| && forall d :: 0 <= d < |delta| ==> (delta[d] != 0 <==> d == e)
    ensures NonZero(delta, k) == if e < k then 1 else 0
  {
    if k > 0 { OneNonZero(delta, e, k - 1); }
  }

  lemma LostAtIsShared(g: Grid, d: nat)
    requires Ok(g) && g.halo > 0 && d < |g.size| && !WideIn(g, d)
    ensures InSharedZone(g, d, 0, 0, LostAt(g, d))
    ensures g.size[d] / g.blocks[d] >= 2 ==> !InBand(g, d, 0, 0, LostAt(g, d))
    ensures g.size[d] / g.blocks[d] < 2 ==> BlockLo(g, d, 0) == BlockHi(g, d, 0)
  {
    BlockFacts(g, d, 0);
    var x := LostAt(g, d);
    if g.size[d] / g.blocks[d] < 2 {
      SharedZoneIsBand(g, d, 0, 0, x);
    } else if g.halo <= BlockHi(g, d, 0) {
      assert ToldZone(g, d, 0, 0, 2, x);
    } else {
      assert ToldZone(g, d, 0, 0, 1, x);
    }
  }

  lemma LostCellIsShared(g: Grid, d: nat, e: nat)
    requires Ok(g) && g.halo > 0 && d < |g.size| && e < |g.size| && d != e && g.blocks[e] >= 2 && !WideIn(g, d)
    ensures
      var s := FirstBlock(g);
      IsIndex(g.blocks, s[e := 1]) && SharedParts(g, s, s[e := 1], LostCell(g, d, e))
  {
    var s, c := FirstBlock(g), LostCell(g, d, e);
    var r := s[e := 1];
    OneNonZero(Difference(s, r), e, |c|);
    forall f | 0 <= f < |c| ensures InSharedZone(g, f, s[f], r[f], c[f]) {
      BlockFacts(g, f, r[f]);
      if f == d { LostAtIsShared(g, d); } else { SharedZoneIsBand(g, f, s[f], r[f], c[f]); }
    }
  }

  lemma LostCellIsNoGhost(g: Grid, d: nat, e: nat)
    requires Ok(g) && g.halo > 0 && d < |g.size| && e < |g.size| && d != e && g.blocks[e] >= 2 && !WideIn(g, d)
    ensures
      var s := FirstBlock(g);
      IsIndex(g.blocks, s[e := 1]) && !(Bands(g, s, s[e := 1], LostCell(g, d, e)) && Levelled(g, s, s[e := 1]))
  {
    var s, c := FirstBlock(g), LostCell(g, d, e);
    var r := s[e := 1];
    LostAtIsShared(g, d);
    assert s[d] == r[d] == 0 && c[d] == LostAt(g, d);
    assert Bands(g, s, r, c) ==> InBand(g, d, 0, 0, c[d]);
  }

  /** The converse: when some direction next to a cut one is too narrow, the second block
      there shares a cell with the first that the first has no ghost box for. */
  lemma NarrowBlocksLoseGhosts(g: Grid, d: nat, e: nat, cs: Coloring, cr: Coloring)
    requires Ok(g) && g.halo > 0 && d < |g.size| && e < |g.size| && d != e && g.blocks[e] >= 2 && !WideIn(g, d)
    requires IsIndex(g.blocks, FirstBlock(g)[e := 1])
    requires IsColoring(g, FirstBlock(g), cs) && IsColoring(g, FirstBlock(g)[e := 1], cr)
    ensures
      var s, c := FirstBlock(g), LostCell(g, d, e);
      Covered(cr.shared, c, RankOf(g, s)) && !Covered(cs.ghosts, c, RankOf(g, s[e := 1]))
  {
    var s, c := FirstBlock(g), LostCell(g, d, e);
    LostCellIsShared(g, d, e);
    LostCellIsNoGhost(g, d, e);
    SharedAreParts(g, s, s[e := 1], cr, c);
    GhostsAreBands(g, s, s[e := 1], cs, c);
  }
}
