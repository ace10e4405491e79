/** The boxes of all ranks tile the domain and its halo. */
module BoxTiling {
  import opened Base
  import opened Boxes
  import opened BoxZones
  import opened BoxDuality

  ghost predicate InDomain(g: Grid, c: seq<int>) {
    |c| == |g.size| && forall d :: 0 <= d < |c| ==> g.domainHalo <= c[d] < g.domainHalo + g.size[d]
  }

  /** Primary boxes partition the domain: each of its cells is in exactly one, and they hold
      no other cells. */
  lemma PrimariesPartition(g: Grid, c: seq<int>)
    requires Ok(g) && |c| == |g.size|
    ensures InDomain(g, c) <==> exists idx :: IsIndex(g.blocks, idx) && In(PrimaryBox(g, idx), c)
    ensures forall a, b ::
      IsIndex(g.blocks, a) && IsIndex(g.blocks, b) && In(PrimaryBox(g, a), c) && In(PrimaryBox(g, b), c) ==> a == b
  {
    if InDomain(g, c) {
      var idx := BlockOf(g, c, |c|);
      assert In(PrimaryBox(g, idx), c);
    }
    forall idx, d | IsIndex(g.blocks, idx) && In(PrimaryBox(g, idx), c) && 0 <= d < |c|
      ensures g.domainHalo <= c[d] < g.domainHalo + g.size[d]
    {
      BlockFacts(g, d, idx[d]);
      assert BlockLo(g, d, idx[d]) <= c[d] <= BlockHi(g, d, idx[d]);
    }
    forall a, b | IsIndex(g.blocks, a) && IsIndex(g.blocks, b) && In(PrimaryBox(g, a), c) && In(PrimaryBox(g, b), c)
      ensures a == b
    {
      forall d | 0 <= d < |c| ensures a[d] == b[d] { SameBlock(g, d, a[d], b[d], c[d]); }
    }
  }

  lemma SameBlock(g: Grid, d: nat, i: nat, j: nat, x: int)
    requires Ok(g) && d < |g.size| && i < g.blocks[d] && j < g.blocks[d]
    requires BlockLo(g, d, i) <= x <= BlockHi(g, d, i) && BlockLo(g, d, j) <= x <= BlockHi(g, d, j)
    ensures i == j
  {
    assert EachHasCells(g.size[d], g.blocks[d]);
    OneBlockOnly(g.size[d], g.blocks[d], g.domainHalo, x, i, j);
  }

  lemma {:induction false} BlockOf(g: Grid, c: seq<int>, n: nat) returns (idx: seq<nat>)
    requires Ok(g) && InDomain(g, c) && n <= |c|
    ensures |idx| == n
    ensures forall d :: 0 <= d < n ==> idx[d] < g.blocks[d] && BlockLo(g, d, idx[d]) <= c[d] <= BlockHi(g, d, idx[d])
  {
    if n == 0 {
      idx := [];
    } else {
      var front := BlockOf(g, c, n - 1);
      assert EachHasCells(g.size[n - 1], g.blocks[n - 1]);
      var i := OneBlock(g.size[n - 1], g.blocks[n - 1], g.domainHalo, c[n - 1]);
      idx := front + [i];
    }
  }

  // ----- exclusive and shared boxes ------------------------------------------------------------------------

  /** The zones of a block fit side by side in every direction. */
  ghost predicate AllZonesFit(g: Grid, idx: seq<nat>)
    requires Ok(g) && IsIndex(g.blocks, idx)
  {
    forall d :: 0 <= d < |g.size| ==> ZonesFit(g, d, idx[d])
  }

  /** In every direction zone z has a box, or is the middle one, and holds the cell. */
  ghost predicate ToldZones(g: Grid, idx: seq<nat>, z: seq<nat>, c: seq<int>)
    requires Ok(g) && IsIndex(g.blocks, idx)
  {
    |z| == |c| == |g.size| && forall d :: 0 <= d < |c| ==> ToldZone(g, d, idx[d], idx[d], z[d], c[d])
  }

  /** ... so it is in the zone's box. */
  lemma ToldZonesMean(g: Grid, idx: seq<nat>, z: seq<nat>, c: seq<int>)
    requires Ok(g) && IsIndex(g.blocks, idx) && |c| == |g.size|
    ensures ToldZones(g, idx, z, c) <==>
      IsZone(z, |g.size|) && (Center(z) || SharedFlag(SharedMarks(g, idx), z)) &&
      In(ZoneBox(g.word, SharedMarks(g, idx), z), c)
  {
    var ms := SharedMarks(g, idx);
    if ToldZones(g, idx, z, c) {
      assert forall d :: 0 <= d < |c| ==> ToldZone(g, d, idx[d], idx[d], z[d], c[d]);
      InZoneBox(g.word, ms, z, c);
    } else if IsZone(z, |g.size|) && (Center(z) || SharedFlag(ms, z)) && In(ZoneBox(g.word, ms, z), c) {
      InZoneBox(g.word, ms, z, c);
      forall d | 0 <= d < |c| ensures ToldZone(g, d, idx[d], idx[d], z[d], c[d]) {
        assert InZone(g.word, ms[d], z[d], c[d]) && (z[d] == 1 || ms[d][z[d]] != ms[d][z[d] + 1]);
      }
    }
  }

  /** The zone of its block that a cell is in. */
  lemma {:induction false} OwnZone(g: Grid, idx: seq<nat>, c: seq<int>, n: nat) returns (z: seq<nat>)
    requires Ok(g) && IsIndex(g.blocks, idx) && AllZonesFit(g, idx) && In(PrimaryBox(g, idx), c) && n <= |c|
    ensures |z| == n
    ensures forall d :: 0 <= d < n ==> ToldZone(g, d, idx[d], idx[d], z[d], c[d])
    decreases n
  {
    if n == 0 {
      z := [];
    } else {
      var front := OwnZone(g, idx, c, n - 1);
      assert BlockLo(g, n - 1, idx[n - 1]) <= c[n - 1] <= BlockHi(g, n - 1, idx[n - 1]);
      var t := OneSharedZone(g, n - 1, idx[n - 1], c[n - 1]);
      z := front + [t];
    }
  }

  lemma ZoneInPrimary(g: Grid, idx: seq<nat>, z: seq<nat>, c: seq<int>)
    requires Ok(g) && IsIndex(g.blocks, idx) && AllZonesFit(g, idx) && ToldZones(g, idx, z, c)
    ensures In(PrimaryBox(g, idx), c)
  {
    forall d | 0 <= d < |c| ensures BlockLo(g, d, idx[d]) <= c[d] <= BlockHi(g, d, idx[d]) {
      BlockFacts(g, d, idx[d]);
      assert ZonesFit(g, d, idx[d]);
      assert ToldZone(g, d, idx[d], idx[d], z[d], c[d]);
    }
  }

  lemma OnlyOwnZone(g: Grid, idx: seq<nat>, z: seq<nat>, other: seq<nat>, c: seq<int>)
    requires Ok(g) && IsIndex(g.blocks, idx) && AllZonesFit(g, idx)
    requires ToldZones(g, idx, z, c) && ToldZones(g, idx, other, c)
    ensures other == z
  {
    forall d | 0 <= d < |c| ensures other[d] == z[d] {
      assert ZonesFit(g, d, idx[d]);
      assert ToldZone(g, d, idx[d], idx[d], z[d], c[d]) && ToldZone(g, d, idx[d], idx[d], other[d], c[d]);
      TwoZones(g, d, idx[d], c[d], z[d], other[d]);
    }
  }

  lemma SharedIsTold(g: Grid, idx: seq<nat>, zs: seq<seq<nat>>, shared: seq<ColoredBox>, c: seq<int>, i: nat)
    requires Ok(g) && IsIndex(g.blocks, idx) && |c| == |g.size|
    requires SharedBoxes(g, idx, zs, shared) && i < |zs|
    ensures In(shared[i].box, c) <==> ToldZones(g, idx, zs[i], c)
    ensures !Center(zs[i])
  {
    assert SharedBox(g, idx, zs[i], shared[i]);
    ToldZonesMean(g, idx, zs[i], c);
  }

  ghost function MiddleZone(D: nat): (z: seq<nat>)
    ensures |z| == D && Center(z) && IsZone(z, D)
  {
    seq(D, _ => 1)
  }

  lemma CenterIsMiddle(z: seq<nat>)
    requires Center(z)
    ensures z == MiddleZone(|z|)
  {}

  lemma ExclusiveIsTold(g: Grid, idx: seq<nat>, c: seq<int>)
    requires Ok(g) && IsIndex(g.blocks, idx) && |c| == |g.size|
    ensures In(MiddleBox(SharedMarks(g, idx)), c) <==> ToldZones(g, idx, MiddleZone(|g.size|), c)
  {
    var ms, z := SharedMarks(g, idx), MiddleZone(|g.size|);
    ToldZonesMean(g, idx, z, c);
    forall d | 0 <= d < |g.size| ensures ZoneLo(g.word, ms[d], 1) == ms[d][1] && ZoneHi(g.word, ms[d], 1) == ms[d][2] {
      MiddleMarks(g, d, idx[d]);
    }
    assert MiddleBox(ms) == ZoneBox(g.word, ms, z);
  }

  lemma MiddleMarks(g: Grid, d: nat, j: nat)
    requires Ok(g) && d < |g.size| && j < g.blocks[d]
    ensures ZoneLo(g.word, SharedMark(g, d, j), 1) == SharedMark(g, d, j)[1]
    ensures ZoneHi(g.word, SharedMark(g, d, j), 1) == SharedMark(g, d, j)[2]
  {
    BlockFacts(g, d, j);
  }

  lemma HasZone(g: Grid, idx: seq<nat>, c: seq<int>) returns (z: seq<nat>)
    requires Ok(g) && IsIndex(g.blocks, idx) && AllZonesFit(g, idx) && In(PrimaryBox(g, idx), c)
    ensures ToldZones(g, idx, z, c)
  {
    z := OwnZone(g, idx, c, |c|);
  }

  /** The shared box of a zone that is not the middle one. */
  lemma ToldIsShared(g: Grid, idx: seq<nat>, zs: seq<seq<nat>>, shared: seq<ColoredBox>, z: seq<nat>, c: seq<int>)
    returns (i: nat)
    requires Ok(g) && IsIndex(g.blocks, idx) && SharedBoxes(g, idx, zs, shared) && ToldZones(g, idx, z, c) && !Center(z)
    ensures i < |shared| && zs[i] == z && In(shared[i].box, c)
  {
    ToldZonesMean(g, idx, z, c);
    i :| 0 <= i < |zs| && zs[i] == z;
    SharedIsTold(g, idx, zs, shared, c, i);
  }

  lemma PrimaryIsCovered(g: Grid, idx: seq<nat>, zs: seq<seq<nat>>, shared: seq<ColoredBox>, c: seq<int>)
    requires Ok(g) && IsIndex(g.blocks, idx) && AllZonesFit(g, idx)
    requires SharedBoxes(g, idx, zs, shared) && In(PrimaryBox(g, idx), c)
    ensures In(MiddleBox(SharedMarks(g, idx)), c) || exists i :: 0 <= i < |shared| && In(shared[i].box, c)
  {
    var z := HasZone(g, idx, c);
    if Center(z) {
      CenterIsMiddle(z);
      ExclusiveIsTold(g, idx, c);
    } else {
      var i := ToldIsShared(g, idx, zs, shared, z, c);
    }
  }

  /** A cell of the primary box is either exclusive and in no shared box, or in exactly one
      shared box; other cells are in neither. */
  ghost predicate PartitionedAt(k: Coloring, c: seq<int>) {
    (In(k.primary, c) <==> In(k.exclusive, c) || exists i :: 0 <= i < |k.shared| && In(k.shared[i].box, c)) &&
    (forall i :: 0 <= i < |k.shared| && In(k.shared[i].box, c) ==> !In(k.exclusive, c)) &&
    forall i, j :: 0 <= i < j < |k.shared| && In(k.shared[i].box, c) ==> !In(k.shared[j].box, c)
  }

  lemma ZonesFitPartition(g: Grid, idx: seq<nat>, k: Coloring, c: seq<int>)
    requires Ok(g) && IsIndex(g.blocks, idx) && IsColoring(g, idx, k) && |c| == |g.size| && AllZonesFit(g, idx)
    ensures PartitionedAt(k, c)
  {
    var zs :| SharedBoxes(g, idx, zs, k.shared);
    ExclusiveIsTold(g, idx, c);
    if In(k.primary, c) { PrimaryIsCovered(g, idx, zs, k.shared, c); }
    forall i | 0 <= i < |zs| && In(k.shared[i].box, c) ensures ToldZones(g, idx, zs[i], c) && !Center(zs[i]) {
      SharedIsTold(g, idx, zs, k.shared, c, i);
    }
    forall z | ToldZones(g, idx, z, c) ensures In(k.primary, c) { ZoneInPrimary(g, idx, z, c); }
    forall y, z | ToldZones(g, idx, y, c) && ToldZones(g, idx, z, c) ensures y == z { OnlyOwnZone(g, idx, y, z, c); }
    OneZonePartitions(g, idx, zs, k, c);
  }

  lemma OneZonePartitions(g: Grid, idx: seq<nat>, zs: seq<seq<nat>>, k: Coloring, c: seq<int>)
    requires Ok(g) && IsIndex(g.blocks, idx) && |zs| == |k.shared| && Distinct(zs)
    requires forall i :: 0 <= i < |zs| && In(k.shared[i].box, c) ==> ToldZones(g, idx, zs[i], c) && !Center(zs[i])
    requires In(k.exclusive, c) <==> ToldZones(g, idx, MiddleZone(|g.size|), c)
    requires forall z :: ToldZones(g, idx, z, c) ==> In(k.primary, c)
    requires forall y, z :: ToldZones(g, idx, y, c) && ToldZones(g, idx, z, c) ==> y == z
    requires In(k.primary, c) ==> In(k.exclusive, c) || exists i :: 0 <= i < |k.shared| && In(k.shared[i].box, c)
    ensures PartitionedAt(k, c)
  {}

  // ----- zones that do not fit --------------------------------------------------------------------------------

  /** In direction d a cell of two zones of block j, or a cell of one zone outside the block. */
  ghost predicate Misplaced(g: Grid, d: nat, j: nat, t: nat, u: nat, x: int)
    requires Ok(g) && d < |g.size|
  {
    ToldZone(g, d, j, j, t, x) && ToldZone(g, d, j, j, u, x) &&
    ((t != u && t != 1 && u != 1) || !(BlockLo(g, d, j) <= x <= BlockHi(g, d, j)))
  }

  lemma MisplacedCell(g: Grid, d: nat, j: nat) returns (t: nat, u: nat, x: int)
    requires Ok(g) && d < |g.size| && j < g.blocks[d] && !ZonesFit(g, d, j)
    ensures Misplaced(g, d, j, t, u, x)
  {
    var lo, hi := BlockLo(g, d, j), BlockHi(g, d, j);
    BlockFacts(g, d, j);
    if !First(j) && lo + g.halo > hi + 1 {
      t, u, x := 0, 0, hi + 1;
    } else if !Last(g, d, j) && g.halo > hi {
      t, u, x := 1, 1, hi + 1;
    } else if !Last(g, d, j) && hi - g.halo < lo - 1 {
      t, u, x := 2, 2, lo - 1;
    } else {
      t, u, x := 0, 2, lo + g.halo - 1;
    }
    assert ToldZone(g, d, j, j, t, x) && ToldZone(g, d, j, j, u, x);
  }

  /** A zone of its block for every other direction of a cell. */
  lemma {:induction false} LevelZones(g: Grid, idx: seq<nat>, n: nat) returns (z: seq<nat>)
    requires Ok(g) && IsIndex(g.blocks, idx) && n <= |g.size|
    ensures |z| == n && forall d :: 0 <= d < n ==> ToldZone(g, d, idx[d], idx[d], z[d], BlockLo(g, d, idx[d]))
    decreases n
  {
    if n == 0 {
      z := [];
    } else {
      var front := LevelZones(g, idx, n - 1);
      BlockFacts(g, n - 1, idx[n - 1]);
      var t := SharedBand(g, n - 1, idx[n - 1], idx[n - 1], BlockLo(g, n - 1, idx[n - 1]));
      z := front + [t];
    }
  }

  ghost function LowCorner(g: Grid, idx: seq<nat>): (c: seq<int>)
    requires Ok(g) && IsIndex(g.blocks, idx)
    ensures |c| == |g.size| && forall d :: 0 <= d < |c| ==> c[d] == BlockLo(g, d, idx[d])
  {
    seq(|g.size|, d requires 0 <= d < |g.size| => BlockLo(g, d, idx[d]))
  }

  lemma UnfitBreaksPartition(g: Grid, idx: seq<nat>, k: Coloring) returns (c: seq<int>)
    requires Ok(g) && IsIndex(g.blocks, idx) && IsColoring(g, idx, k) && !AllZonesFit(g, idx)
    ensures |c| == |g.size| && !PartitionedAt(k, c)
  {
    var d :| 0 <= d < |g.size| && !ZonesFit(g, d, idx[d]);
    var t, u, x := MisplacedCell(g, d, idx[d]);
    var level := LevelZones(g, idx, |g.size|);
    c := LowCorner(g, idx)[d := x];
    SideIsTold(g, idx, level, d, t, x);
    SideIsTold(g, idx, level, d, u, x);
    if BlockLo(g, d, idx[d]) <= x <= BlockHi(g, d, idx[d]) {
      assert level[d := t][d] != level[d := u][d];
      ToldTwice(g, idx, k, level[d := t], level[d := u], c);
    } else {
      NotInPrimary(g, idx, c, d);
      ToldOutside(g, idx, k, level[d := t], c);
    }
  }

  lemma SideIsTold(g: Grid, idx: seq<nat>, level: seq<nat>, d: nat, t: nat, x: int)
    requires Ok(g) && IsIndex(g.blocks, idx) && d < |g.size| && ToldZone(g, d, idx[d], idx[d], t, x)
    requires |level| == |g.size|
    requires forall e :: 0 <= e < |g.size| ==> ToldZone(g, e, idx[e], idx[e], level[e], BlockLo(g, e, idx[e]))
    ensures ToldZones(g, idx, level[d := t], LowCorner(g, idx)[d := x])
  {
    var z, c := level[d := t], LowCorner(g, idx)[d := x];
    forall e | 0 <= e < |c| ensures ToldZone(g, e, idx[e], idx[e], z[e], c[e]) {
      if e != d { assert z[e] == level[e] && c[e] == BlockLo(g, e, idx[e]); }
    }
  }

  /** Two zones with boxes that hold the same cell. */
  lemma ToldTwice(g: Grid, idx: seq<nat>, k: Coloring, y: seq<nat>, z: seq<nat>, c: seq<int>)
    requires Ok(g) && IsIndex(g.blocks, idx) && IsColoring(g, idx, k) && y != z && !Center(y) && !Center(z)
    requires ToldZones(g, idx, y, c) && ToldZones(g, idx, z, c)
    ensures !PartitionedAt(k, c)
  {
    var zs :| SharedBoxes(g, idx, zs, k.shared);
    var i := ToldIsShared(g, idx, zs, k.shared, y, c);
    var j := ToldIsShared(g, idx, zs, k.shared, z, c);
    InTwoBoxes(k, c, i, j);
  }

  /** A zone that holds a cell outside the block. */
  lemma ToldOutside(g: Grid, idx: seq<nat>, k: Coloring, z: seq<nat>, c: seq<int>)
    requires Ok(g) && IsIndex(g.blocks, idx) && IsColoring(g, idx, k) && ToldZones(g, idx, z, c)
    requires !In(PrimaryBox(g, idx), c)
    ensures !PartitionedAt(k, c)
  {
    if Center(z) {
      CenterIsMiddle(z);
      ExclusiveIsTold(g, idx, c);
    } else {
      var zs :| SharedBoxes(g, idx, zs, k.shared);
      var i := ToldIsShared(g, idx, zs, k.shared, z, c);
      InOneBox(k, c, i);
    }
  }

  lemma NotInPrimary(g: Grid, idx: seq<nat>, c: seq<int>, d: nat)
    requires Ok(g) && IsIndex(g.blocks, idx) && d < |c| == |g.size| &&
      !(BlockLo(g, d, idx[d]) <= c[d] <= BlockHi(g, d, idx[d]))
    ensures !In(PrimaryBox(g, idx), c)
  {}

  lemma InOneBox(k: Coloring, c: seq<int>, i: nat)
    requires i < |k.shared| && In(k.shared[i].box, c) && !In(k.primary, c)
    ensures !PartitionedAt(k, c)
  {}

  lemma InTwoBoxes(k: Coloring, c: seq<int>, i: nat, j: nat)
    requires i < |k.shared| && j < |k.shared| && i != j && In(k.shared[i].box, c) && In(k.shared[j].box, c)
    ensures !PartitionedAt(k, c)
  {}

  /** The exclusive box and the shared boxes partition the primary box exactly when the
      block is, in every direction, at least as wide as its first and last zones together
      and the mark before its last zone is not below zero. */
  lemma ExclusiveAndSharedPartition(g: Grid, idx: seq<nat>, k: Coloring)
    requires Ok(g) && IsIndex(g.blocks, idx) && IsColoring(g, idx, k)
    ensures AllZonesFit(g, idx) <==> forall c: seq<int> :: |c| == |g.size| ==> PartitionedAt(k, c)
  {
    if AllZonesFit(g, idx) {
      forall c: seq<int> | |c| == |g.size| ensures PartitionedAt(k, c) { ZonesFitPartition(g, idx, k, c); }
    } else {
      var c := UnfitBreaksPartition(g, idx, k);
    }
  }

  // ----- the halo of the domain -----------------------------------------------------------------------------

  /** The ring of cells around the domain. */
  ghost predicate InRing(g: Grid, c: seq<int>) {
    |c| == |g.size| && !InDomain(g, c) && forall d :: 0 <= d < |c| ==> 0 <= c[d] < g.size[d] + 2 * g.domainHalo
  }

  /** One direction: block i's zone t of the domain halo, or the block itself for t == 1. */
  ghost predicate HaloAt(g: Grid, d: nat, i: nat, t: nat, x: int)
    requires Ok(g) && d < |g.size|
  {
    i < g.blocks[d] && t < 3 && DomainMark(g, d, i)[t] != DomainMark(g, d, i)[t + 1] &&
      InZone(g.word, DomainMark(g, d, i), t, x)
  }

  /** Halo boxes need blocks of at least two cells to be level with. */
  ghost predicate RingWide(g: Grid)
    requires Ok(g)
  {
    g.domainHalo == 0 || forall d :: 0 <= d < |g.size| ==> g.size[d] / g.blocks[d] >= 2
  }

  lemma HaloZone(g: Grid, d: nat, x: int) returns (i: nat, t: nat)
    requires Ok(g) && d < |g.size| && 0 <= x < g.size[d] + 2 * g.domainHalo && g.size[d] / g.blocks[d] >= 2
    ensures HaloAt(g, d, i, t, x)
  {
    assert EachHasCells(g.size[d], g.blocks[d]);
    if x < g.domainHalo {
      i, t := 0, 0;
    } else if x >= g.domainHalo + g.size[d] {
      i, t := g.blocks[d] - 1, 2;
    } else {
      i := OneBlock(g.size[d], g.blocks[d], g.domainHalo, x);
      t := 1;
    }
    BlockFacts(g, d, i);
  }

  lemma HaloZoneOnly(g: Grid, d: nat, x: int, i: nat, t: nat, j: nat, u: nat)
    requires Ok(g) && d < |g.size| && HaloAt(g, d, i, t, x) && HaloAt(g, d, j, u, x)
    ensures i == j && t == u
  {
    BlockFacts(g, d, i);
    BlockFacts(g, d, j);
    HaloWhere(g, d, x, i, t);
    HaloWhere(g, d, x, j, u);
    if t == 1 { SameBlock(g, d, i, j, x); }
  }

  lemma HaloWhere(g: Grid, d: nat, x: int, i: nat, t: nat)
    requires Ok(g) && d < |g.size| && HaloAt(g, d, i, t, x)
    ensures 0 <= x < g.size[d] + 2 * g.domainHalo
    ensures t == 0 <==> x < g.domainHalo
    ensures t == 2 <==> x >= g.domainHalo + g.size[d]
    ensures t == 0 ==> i == 0
    ensures t == 2 ==> i == g.blocks[d] - 1
    ensures t == 1 ==> BlockLo(g, d, i) <= x <= BlockHi(g, d, i)
  {
    BlockFacts(g, d, i);
  }

  ghost predicate HaloIn(g: Grid, idx: seq<nat>, z: seq<nat>, c: seq<int>, n: nat)
    requires Ok(g)
  {
    |idx| == |z| == n <= |c| == |g.size| && forall d :: 0 <= d < n ==> HaloAt(g, d, idx[d], z[d], c[d])
  }

  lemma {:induction false} HaloZones(g: Grid, c: seq<int>, n: nat) returns (idx: seq<nat>, z: seq<nat>)
    requires Ok(g) && n <= |c| == |g.size| && forall d :: 0 <= d < |c| ==> 0 <= c[d] < g.size[d] + 2 * g.domainHalo
    requires forall d :: 0 <= d < |g.size| ==> g.size[d] / g.blocks[d] >= 2
    ensures HaloIn(g, idx, z, c, n)
  {
    if n == 0 {
      idx, z := [], [];
    } else {
      var idx0, z0 := HaloZones(g, c, n - 1);
      var i, t := HaloZone(g, n - 1, c[n - 1]);
      idx, z := idx0 + [i], z0 + [t];
    }
  }

  lemma HaloBoxMeans(g: Grid, idx: seq<nat>, z: seq<nat>, c: seq<int>)
    requires Ok(g) && IsIndex(g.blocks, idx) && |c| == |g.size| && IsZone(z, |g.size|)
    ensures (OuterFlag(DomainMarks(g, idx), z) && In(ZoneBox(g.word, DomainMarks(g, idx), z), c)) <==>
      !Center(z) && HaloIn(g, idx, z, c, |c|)
  {
    var ms := DomainMarks(g, idx);
    InZoneBox(g.word, ms, z, c);
    forall d | 0 <= d < |c|
      ensures HaloAt(g, d, idx[d], z[d], c[d]) <==>
        ms[d][z[d]] != ms[d][z[d] + 1] && InZone(g.word, ms[d], z[d], c[d])
    {}
  }

  /** Cells outside the domain are off the middle in some direction. */
  lemma HaloIsRing(g: Grid, idx: seq<nat>, z: seq<nat>, c: seq<int>)
    requires Ok(g) && HaloIn(g, idx, z, c, |c|)
    ensures InRing(g, c) <==> !Center(z)
    ensures IsIndex(g.blocks, idx) && IsZone(z, |g.size|)
  {
    forall d | 0 <= d < |c|
      ensures 0 <= c[d] < g.size[d] + 2 * g.domainHalo &&
        (z[d] == 1 <==> g.domainHalo <= c[d] < g.domainHalo + g.size[d])
    {
      assert HaloAt(g, d, idx[d], z[d], c[d]);
      HaloWhere(g, d, c[d], idx[d], z[d]);
    }
  }

  ghost predicate HaloCovered(g: Grid, c: seq<int>)
    requires Ok(g)
  {
    exists idx, z :: IsIndex(g.blocks, idx) && HaloCell(g, idx, z, c)
  }

  /** Domain-halo boxes hold cells of the ring only. */
  lemma HaloInRing(g: Grid, c: seq<int>)
    requires Ok(g) && |c| == |g.size| && HaloCovered(g, c)
    ensures InRing(g, c)
  {
    var idx, z :| IsIndex(g.blocks, idx) && HaloCell(g, idx, z, c);
    HaloBoxMeans(g, idx, z, c);
    HaloIsRing(g, idx, z, c);
  }

  lemma NoRing(g: Grid, c: seq<int>)
    requires g.domainHalo == 0
    ensures !InRing(g, c)
  {}

  lemma RingIsCovered(g: Grid, c: seq<int>)
    requires Ok(g) && RingWide(g) && InRing(g, c)
    ensures HaloCovered(g, c)
  {
    if g.domainHalo > 0 {
      var idx, z := HaloZones(g, c, |c|);
      HaloIsRing(g, idx, z, c);
      HaloBoxMeans(g, idx, z, c);
      assert HaloCell(g, idx, z, c);
    } else {
      NoRing(g, c);
    }
  }

  /** A cell next to a one-cell block, outside the domain in all other directions. */
  ghost function RingCell(g: Grid, d: nat): (c: seq<int>)
    requires Ok(g) && d < |g.size|
    ensures |c| == |g.size| && forall e :: 0 <= e < |c| ==> c[e] == if e == d then g.domainHalo else g.domainHalo - 1
  {
    seq(|g.size|, e requires 0 <= e < |g.size| => if e == d then g.domainHalo as int else g.domainHalo as int - 1)
  }

  lemma RingCellIsLost(g: Grid, d: nat)
    requires Ok(g) && g.domainHalo > 0 && d < |g.size| && g.size[d] / g.blocks[d] < 2
    ensures InRing(g, RingCell(g, d)) && !HaloCovered(g, RingCell(g, d))
  {
    var c := RingCell(g, d);
    var e: nat := if d == 0 then 1 else 0;
    assert c[e] < g.domainHalo;
    assert forall f :: 0 <= f < |g.size| ==> EachHasCells(g.size[f], g.blocks[f]);
    forall f | 0 <= f < |c| ensures 0 <= c[f] < g.size[f] + 2 * g.domainHalo { BlockFacts(g, f, 0); }
    forall idx, z | IsIndex(g.blocks, idx) ensures !HaloCell(g, idx, z, c) {
      if IsZone(z, |g.size|) {
        HaloBoxMeans(g, idx, z, c);
        OneCellHasNoLevelHalo(g, d, idx[d], z[d]);
      }
    }
  }

  lemma OneCellHasNoLevelHalo(g: Grid, d: nat, i: nat, t: nat)
    requires Ok(g) && d < |g.size| && i < g.blocks[d] && g.size[d] / g.blocks[d] < 2
    ensures !HaloAt(g, d, i, t, g.domainHalo)
  {
    BlockFacts(g, d, 0);
    BlockFacts(g, d, i);
    if HaloAt(g, d, i, t, g.domainHalo) {
      HaloWhere(g, d, g.domainHalo, i, t);
      SameBlock(g, d, i, 0, g.domainHalo);
    }
  }

  /** The domain-halo boxes of all ranks cover exactly the ring around the domain, exactly
      when there is no such ring or all blocks are at least two cells wide. */
  lemma HaloCoversRing(g: Grid)
    requires Ok(g)
    ensures RingWide(g) <==> forall c: seq<int> :: |c| == |g.size| ==> (InRing(g, c) <==> HaloCovered(g, c))
  {
    if RingWide(g) {
      forall c: seq<int> | |c| == |g.size| ensures InRing(g, c) <==> HaloCovered(g, c) {
        if InRing(g, c) { RingIsCovered(g, c); }
        if HaloCovered(g, c) { HaloInRing(g, c); }
      }
    } else {
      var d :| 0 <= d < |g.size| && g.size[d] / g.blocks[d] < 2;
      RingCellIsLost(g, d);
    }
  }

  /** c is in the domain-halo box that block idx has for zone z. */
  ghost predicate HaloCell(g: Grid, idx: seq<nat>, z: seq<nat>, c: seq<int>)
    requires Ok(g) && IsIndex(g.blocks, idx)
  {
    IsZone(z, |g.size|) && OuterFlag(DomainMarks(g, idx), z) && In(ZoneBox(g.word, DomainMarks(g, idx), z), c)
  }

  lemma HaloBoxIsCell(g: Grid, idx: seq<nat>, zs: seq<seq<nat>>, halo: seq<Box>, i: nat, c: seq<int>)
    requires Ok(g) && IsIndex(g.blocks, idx) && HaloBoxes(g, idx, zs, halo) && i < |zs| && In(halo[i], c)
    ensures HaloCell(g, idx, zs[i], c)
  {
    assert HaloBox(g, idx, zs[i], halo[i]);
  }

  lemma HaloCellOnly(g: Grid, a: seq<nat>, y: seq<nat>, b: seq<nat>, z: seq<nat>, c: seq<int>)
    requires Ok(g) && IsIndex(g.blocks, a) && IsIndex(g.blocks, b) && |c| == |g.size|
    requires HaloCell(g, a, y, c) && HaloCell(g, b, z, c)
    ensures a == b && y == z
  {
    HaloBoxMeans(g, a, y, c);
    HaloBoxMeans(g, b, z, c);
    forall d | 0 <= d < |c| ensures a[d] == b[d] && y[d] == z[d] {
      HaloZoneOnly(g, d, c[d], a[d], y[d], b[d], z[d]);
    }
  }

  /** ... and no cell twice: neither in two boxes of one rank nor in boxes of two ranks. */
  lemma HaloBoxesDisjoint(g: Grid, a: seq<nat>, b: seq<nat>, ka: Coloring, kb: Coloring, i: nat, j: nat, c: seq<int>)
    requires Ok(g) && IsIndex(g.blocks, a) && IsIndex(g.blocks, b) && IsColoring(g, a, ka) && IsColoring(g, b, kb)
    requires i < |ka.domainHalo| && j < |kb.domainHalo| && |c| == |g.size|
    requires In(ka.domainHalo[i], c) && In(kb.domainHalo[j], c)
    ensures a == b
    ensures ka == kb ==> i == j
  {
    var ya :| HaloBoxes(g, a, ya, ka.domainHalo);
    var yb :| HaloBoxes(g, b, yb, kb.domainHalo);
    HaloBoxIsCell(g, a, ya, ka.domainHalo, i, c);
    HaloBoxIsCell(g, b, yb, kb.domainHalo, j, c);
    HaloCellOnly(g, a, ya[i], b, yb[j], c);
    if ka == kb {
      HaloBoxIsCell(g, a, ya, ka.domainHalo, j, c);
      HaloCellOnly(g, a, ya[i], a, ya[j], c);
    }
  }
}
