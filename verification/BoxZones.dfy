/** Boxes, the zones they are cut into, and what a coloring of a structured grid has to
    be. */
module BoxZones {
  import opened Base
  import opened Boxes

  datatype Box = Box(lo: seq<int>, hi: seq<int>)

  datatype ColoredBox = ColoredBox(box: Box, colors: seq<nat>)

  ghost predicate In(b: Box, c: seq<int>) {
    |b.lo| == |b.hi| == |c| && forall d :: 0 <= d < |c| ==> b.lo[d] <= c[d] <= b.hi[d]
  }

  // ----- zones ----------------------------------------------------------------------------------

  /** Four marks in each direction make three zones: before, between and behind. */
  type Marks = seq<int>

  function ZoneLo(word: nat, m: Marks, t: nat): int
    requires |m| == 4 && t < 3
  {
    Plus(word, m[t], if t == 2 then 1 else 0)
  }

  function ZoneHi(word: nat, m: Marks, t: nat): int
    requires |m| == 4 && t < 3
  {
    Minus(word, m[t + 1], if t == 0 then 1 else 0)
  }

  ghost predicate AllMarks(ms: seq<Marks>) {
    forall d :: 0 <= d < |ms| ==> |ms[d]| == 4
  }

  ghost predicate IsZone(z: seq<nat>, D: nat) {
    |z| == D && forall d :: 0 <= d < D ==> z[d] < 3
  }

  predicate Center(z: seq<nat>) {
    forall d :: 0 <= d < |z| ==> z[d] == 1
  }

  function ZoneBox(word: nat, ms: seq<Marks>, z: seq<nat>): Box
    requires AllMarks(ms) && IsZone(z, |ms|)
  {
    Box(seq(|ms|, d requires 0 <= d < |ms| => ZoneLo(word, ms[d], z[d])),
      seq(|ms|, d requires 0 <= d < |ms| => ZoneHi(word, ms[d], z[d])))
  }

  /** No direction's zone is cut away. A middle zone always has cells. */
  ghost predicate SharedFlag(ms: seq<Marks>, z: seq<nat>)
    requires AllMarks(ms) && IsZone(z, |ms|)
  {
    !Center(z) && forall d :: 0 <= d < |ms| ==> z[d] == 1 || ms[d][z[d]] != ms[d][z[d] + 1]
  }

  ghost predicate OuterFlag(ms: seq<Marks>, z: seq<nat>)
    requires AllMarks(ms) && IsZone(z, |ms|)
  {
    !Center(z) && forall d :: 0 <= d < |ms| ==> ms[d][z[d]] != ms[d][z[d] + 1]
  }

  // ----- marks of a block ---------------------------------------------------------------------------

  ghost function BlockLo(g: Grid, d: nat, i: nat): int
    requires Ok(g) && d < |g.size|
  {
    Lo(g.size[d], g.blocks[d], g.domainHalo, i)
  }

  ghost function BlockHi(g: Grid, d: nat, i: nat): int
    requires Ok(g) && d < |g.size|
  {
    Hi(g.size[d], g.blocks[d], g.domainHalo, i)
  }

  ghost predicate First(i: nat) {
    i == 0
  }

  ghost predicate Last(g: Grid, d: nat, i: nat)
    requires Ok(g) && d < |g.size|
  {
    i == g.blocks[d] - 1
  }

  /** A halo's depth inwards, where there is a neighbour. */
  ghost function SharedMark(g: Grid, d: nat, i: nat): (m: Marks)
    requires Ok(g) && d < |g.size|
    ensures |m| == 4
  {
    [BlockLo(g, d, i), BlockLo(g, d, i) + (if First(i) then 0 else g.halo),
     Minus(g.word, BlockHi(g, d, i), if Last(g, d, i) then 0 else g.halo), BlockHi(g, d, i)]
  }

  /** A halo's depth outwards, where there is a neighbour. */
  ghost function GhostMark(g: Grid, d: nat, i: nat): (m: Marks)
    requires Ok(g) && d < |g.size|
    ensures |m| == 4
  {
    [Minus(g.word, BlockLo(g, d, i), if First(i) then 0 else g.halo), BlockLo(g, d, i),
     BlockHi(g, d, i), BlockHi(g, d, i) + (if Last(g, d, i) then 0 else g.halo)]
  }

  /** The domain halo's depth outwards, where the domain ends. */
  ghost function DomainMark(g: Grid, d: nat, i: nat): (m: Marks)
    requires Ok(g) && d < |g.size|
    ensures |m| == 4
  {
    [Minus(g.word, BlockLo(g, d, i), if First(i) then g.domainHalo else 0), BlockLo(g, d, i),
     BlockHi(g, d, i), BlockHi(g, d, i) + (if Last(g, d, i) then g.domainHalo else 0)]
  }

  ghost function SharedMarks(g: Grid, idx: seq<nat>): (ms: seq<Marks>)
    requires Ok(g) && IsIndex(g.blocks, idx)
    ensures |ms| == |g.size| && AllMarks(ms) && forall d :: 0 <= d < |g.size| ==> ms[d] == SharedMark(g, d, idx[d])
  {
    seq(|g.size|, d requires 0 <= d < |g.size| => SharedMark(g, d, idx[d]))
  }

  ghost function GhostMarks(g: Grid, idx: seq<nat>): (ms: seq<Marks>)
    requires Ok(g) && IsIndex(g.blocks, idx)
    ensures |ms| == |g.size| && AllMarks(ms) && forall d :: 0 <= d < |g.size| ==> ms[d] == GhostMark(g, d, idx[d])
  {
    seq(|g.size|, d requires 0 <= d < |g.size| => GhostMark(g, d, idx[d]))
  }

  ghost function DomainMarks(g: Grid, idx: seq<nat>): (ms: seq<Marks>)
    requires Ok(g) && IsIndex(g.blocks, idx)
    ensures |ms| == |g.size| && AllMarks(ms) && forall d :: 0 <= d < |g.size| ==> ms[d] == DomainMark(g, d, idx[d])
  {
    seq(|g.size|, d requires 0 <= d < |g.size| => DomainMark(g, d, idx[d]))
  }

  // ----- neighbours -------------------------------------------------------------------------------------

  /** Number of directions, of the first k, in which an offset is not zero. */
  function NonZero(delta: seq<int>, k: nat): (n: nat)
    requires k <= |delta|
    ensures n <= k
  {
    if k == 0 then 0 else NonZero(delta, k - 1) + if delta[k - 1] != 0 then 1 else 0
  }

  lemma {:induction false} SameZeros(a: seq<int>, b: seq<int>, k: nat)
    requires k <= |a| && k <= |b| && forall d :: 0 <= d < k ==> (a[d] == 0 <==> b[d] == 0)
    ensures NonZero(a, k) == NonZero(b, k)
  {
    if k > 0 { SameZeros(a, b, k - 1); }
  }

  lemma {:induction false} NonZeroPositive(a: seq<int>, k: nat)
    requires k <= |a|
    ensures NonZero(a, k) > 0 <==> exists d :: 0 <= d < k && a[d] != 0
  {
    if k > 0 { NonZeroPositive(a, k - 1); }
  }

  /** A zone's offset: towards the neighbours on that side. */
  ghost function Offset(z: seq<nat>): (delta: seq<int>)
    ensures |delta| == |z| && forall d :: 0 <= d < |z| ==> delta[d] == z[d] as int - 1
  {
    seq(|z|, d requires 0 <= d < |z| => z[d] as int - 1)
  }

  /** A neighbour that shares the cells of zone z: it lies in some, not necessarily all, of
      the directions in which z is off the middle, and meets the block in a part of at
      least the given dimension. */
  ghost predicate Sharing(z: seq<nat>, delta: seq<int>, thruDim: nat) {
    |delta| == |z| && (forall d :: 0 <= d < |z| ==> delta[d] == 0 || delta[d] == z[d] as int - 1) &&
    1 <= NonZero(delta, |z|) && NonZero(delta, |z|) + thruDim <= |z|
  }

  ghost predicate Moved(idx: seq<nat>, delta: seq<int>, to: seq<nat>) {
    |idx| == |delta| == |to| && forall d :: 0 <= d < |to| ==> to[d] == idx[d] + delta[d]
  }

  function RankOf(g: Grid, idx: seq<nat>): nat
    requires |g.blocks| == |idx|
  {
    Rank(g.blocks, idx, |idx|)
  }

  ghost predicate SharedWith(g: Grid, idx: seq<nat>, z: seq<nat>, other: seq<nat>) {
    exists delta :: Sharing(z, delta, g.thruDim) && Moved(idx, delta, other)
  }

  // ----- colorings -----------------------------------------------------------------------------------------

  datatype Coloring = Coloring(
    primary: Box, exclusive: Box, shared: seq<ColoredBox>, ghosts: seq<ColoredBox>, domainHalo: seq<Box>)

  ghost predicate SharedBox(g: Grid, idx: seq<nat>, z: seq<nat>, b: ColoredBox)
    requires Ok(g) && IsIndex(g.blocks, idx)
  {
    IsZone(z, |g.size|) && SharedFlag(SharedMarks(g, idx), z) && b.box == ZoneBox(g.word, SharedMarks(g, idx), z) &&
    forall c :: c in b.colors <==> exists other ::
      IsIndex(g.blocks, other) && SharedWith(g, idx, z, other) && c == RankOf(g, other)
  }

  /** A zone around the block that lies in a neighbour meeting it in a part of at least the
      given dimension. */
  ghost predicate GhostZone(g: Grid, idx: seq<nat>, z: seq<nat>)
    requires Ok(g) && IsIndex(g.blocks, idx)
  {
    IsZone(z, |g.size|) && OuterFlag(GhostMarks(g, idx), z) && NonZero(Offset(z), |z|) + g.thruDim <= |z|
  }

  ghost predicate GhostBox(g: Grid, idx: seq<nat>, z: seq<nat>, b: ColoredBox)
    requires Ok(g) && IsIndex(g.blocks, idx)
  {
    GhostZone(g, idx, z) && b.box == ZoneBox(g.word, GhostMarks(g, idx), z) &&
    exists other :: IsIndex(g.blocks, other) && Moved(idx, Offset(z), other) && b.colors == [RankOf(g, other)]
  }

  ghost predicate HaloBox(g: Grid, idx: seq<nat>, z: seq<nat>, b: Box)
    requires Ok(g) && IsIndex(g.blocks, idx)
  {
    IsZone(z, |g.size|) && OuterFlag(DomainMarks(g, idx), z) && b == ZoneBox(g.word, DomainMarks(g, idx), z)
  }

  ghost function PrimaryBox(g: Grid, idx: seq<nat>): Box
    requires Ok(g) && IsIndex(g.blocks, idx)
  {
    Box(seq(|g.size|, d requires 0 <= d < |g.size| => BlockLo(g, d, idx[d])),
        seq(|g.size|, d requires 0 <= d < |g.size| => BlockHi(g, d, idx[d])))
  }

  ghost function MiddleBox(ms: seq<Marks>): Box
    requires AllMarks(ms)
  {
    Box(seq(|ms|, d requires 0 <= d < |ms| => ms[d][1]), seq(|ms|, d requires 0 <= d < |ms| => ms[d][2]))
  }

  /** The boxes of one rank: one box for each zone that has one, and no others, in the order of
      the zones; the zone lists say which box is which. */
  ghost predicate IsColoring(g: Grid, idx: seq<nat>, c: Coloring)
    requires Ok(g) && IsIndex(g.blocks, idx)
  {
    c.primary == PrimaryBox(g, idx) && c.exclusive == MiddleBox(SharedMarks(g, idx)) &&
    (exists zs :: SharedBoxes(g, idx, zs, c.shared)) &&
    (exists zs :: GhostBoxes(g, idx, zs, c.ghosts)) &&
    (exists zs :: HaloBoxes(g, idx, zs, c.domainHalo))
  }

  /** Zones are counted along the first direction, then along the second and the third. */
  ghost function ZoneId(z: seq<nat>): nat
    requires 2 <= |z| <= 3
  {
    if |z| == 2 then z[0] + 3 * z[1] else z[0] + 3 * z[1] + 9 * z[2]
  }

  ghost predicate Precedes(a: seq<nat>, b: seq<nat>) {
    2 <= |a| == |b| <= 3 && ZoneId(a) < ZoneId(b)
  }

  ghost predicate AscendingZones(zs: seq<seq<nat>>) {
    forall i, j :: 0 <= i < j < |zs| ==> Precedes(zs[i], zs[j])
  }

  ghost predicate SharedBoxes(g: Grid, idx: seq<nat>, zs: seq<seq<nat>>, shared: seq<ColoredBox>)
    requires Ok(g) && IsIndex(g.blocks, idx)
  {
    |zs| == |shared| && Distinct(zs) && AscendingZones(zs) &&
    (forall i :: 0 <= i < |zs| ==> SharedBox(g, idx, zs[i], shared[i])) &&
    forall z :: IsZone(z, |g.size|) && SharedFlag(SharedMarks(g, idx), z) ==> z in zs
  }

  ghost predicate GhostBoxes(g: Grid, idx: seq<nat>, zs: seq<seq<nat>>, ghosts: seq<ColoredBox>)
    requires Ok(g) && IsIndex(g.blocks, idx)
  {
    |zs| == |ghosts| && Distinct(zs) && AscendingZones(zs) &&
    (forall i :: 0 <= i < |zs| ==> GhostBox(g, idx, zs[i], ghosts[i])) &&
    forall z :: GhostZone(g, idx, z) ==> z in zs
  }

  ghost predicate HaloBoxes(g: Grid, idx: seq<nat>, zs: seq<seq<nat>>, halo: seq<Box>)
    requires Ok(g) && IsIndex(g.blocks, idx)
  {
    |zs| == |halo| && Distinct(zs) && AscendingZones(zs) &&
    (forall i :: 0 <= i < |zs| ==> HaloBox(g, idx, zs[i], halo[i])) &&
    forall z :: IsZone(z, |g.size|) && OuterFlag(DomainMarks(g, idx), z) ==> z in zs
  }
}
