/** Computing the boxes of one rank. */
module BoxColorer {
  import opened Base
  import opened Boxes
  import opened BoxZones
  import opened BoxDuality
  import opened BoxTiling

  // ----- visiting all zones, first direction fastest -----------------------------------------------

  function Zones(D: nat): nat {
    if D == 2 then 9 else 27
  }

  function ZoneOf(D: nat, id: nat): (z: seq<nat>)
    requires 2 <= D <= 3 && id < Zones(D)
    ensures |z| == D && forall d :: 0 <= d < D ==> z[d] < 3
  {
    if D == 2 then [id % 3, id / 3] else [id % 3, id / 3 % 3, id / 9]
  }

  lemma ZoneIdOf(D: nat, id: nat)
    requires 2 <= D <= 3 && id < Zones(D)
    ensures ZoneId(ZoneOf(D, id)) == id
  {}

  lemma ZoneOfId(D: nat, z: seq<nat>)
    requires 2 <= D <= 3 && IsZone(z, D)
    ensures ZoneId(z) < Zones(D) && ZoneOf(D, ZoneId(z)) == z
  {}

  /** The wanted zones below id are listed, once each and in their order. */
  ghost predicate Visited(D: nat, id: nat, zs: seq<seq<nat>>, want: seq<nat> -> bool)
    requires 2 <= D <= 3
  {
    id <= Zones(D) && Distinct(zs) && AscendingZones(zs) &&
    (forall i :: 0 <= i < |zs| ==> IsZone(zs[i], D) && ZoneId(zs[i]) < id) &&
    forall k: nat :: k < id && want(ZoneOf(D, k)) ==> ZoneOf(D, k) in zs
  }

  lemma VisitNext(D: nat, id: nat, zs: seq<seq<nat>>, want: seq<nat> -> bool)
    requires 2 <= D <= 3 && id < Zones(D) && Visited(D, id, zs, want)
    ensures Visited(D, id + 1, zs + [ZoneOf(D, id)], want)
    ensures !want(ZoneOf(D, id)) ==> Visited(D, id + 1, zs, want)
  {
    ZoneIdOf(D, id);
  }

  lemma VisitedAll(D: nat, zs: seq<seq<nat>>, want: seq<nat> -> bool, z: seq<nat>)
    requires 2 <= D <= 3 && Visited(D, Zones(D), zs, want) && IsZone(z, D) && want(z)
    ensures z in zs
  {
    ZoneOfId(D, z);
  }

  // ----- the primary box and its place in the domain --------------------------------------------------

  method PrimaryOf(g: Grid, idx: seq<nat>) returns (b: Box)
    requires Ok(g) && IsIndex(g.blocks, idx)
    ensures b == PrimaryBox(g, idx)
  {
    var lo: seq<int>, hi: seq<int> := [], [];
    var d := 0;
    while d < |g.size|
      invariant 0 <= d <= |g.size| == |idx| && |lo| == |hi| == d
      invariant forall k :: 0 <= k < d ==> lo[k] == BlockLo(g, k, idx[k]) && hi[k] == BlockHi(g, k, idx[k])
    {
      assert EachHasCells(g.size[d], g.blocks[d]);
      var width := g.size[d] / g.blocks[d];
      lo := lo + [g.domainHalo + width * idx[d]];
      if idx[d] != g.blocks[d] - 1 {
        hi := hi + [g.domainHalo + width * (idx[d] + 1) - 1];
      } else {
        hi := hi + [g.size[d] + g.domainHalo - 1];
      }
      d := d + 1;
    }
    b := Box(lo, hi);
  }

  /** Which sides of a primary box lie on the boundary of the domain. */
  method Boundary(g: Grid, b: Box, ghost idx: seq<nat>) returns (low: seq<bool>, high: seq<bool>)
    requires Ok(g) && IsIndex(g.blocks, idx) && b == PrimaryBox(g, idx)
    ensures |low| == |high| == |g.size|
    ensures forall d :: 0 <= d < |g.size| ==> (low[d] <==> First(idx[d])) && (high[d] <==> Last(g, d, idx[d]))
  {
    low, high := [], [];
    var d := 0;
    while d < |g.size|
      invariant 0 <= d <= |g.size| && |low| == |high| == d
      invariant forall k :: 0 <= k < d ==> (low[k] <==> First(idx[k])) && (high[k] <==> Last(g, k, idx[k]))
    {
      assert EachHasCells(g.size[d], g.blocks[d]);
      BlockAt(g.size[d], g.blocks[d], g.domainHalo, idx[d]);
      low := low + [b.lo[d] == g.domainHalo];
      high := high + [b.hi[d] == g.size[d] + g.domainHalo - 1];
      d := d + 1;
    }
  }

  ghost predicate Bounded(g: Grid, idx: seq<nat>, b: Box, low: seq<bool>, high: seq<bool>)
    requires Ok(g) && IsIndex(g.blocks, idx)
  {
    b == PrimaryBox(g, idx) && |low| == |high| == |g.size| &&
    forall d :: 0 <= d < |g.size| ==> (low[d] <==> First(idx[d])) && (high[d] <==> Last(g, d, idx[d]))
  }

  method SharedMarksOf(g: Grid, b: Box, low: seq<bool>, high: seq<bool>, ghost idx: seq<nat>) returns (ms: seq<Marks>)
    requires Ok(g) && IsIndex(g.blocks, idx) && Bounded(g, idx, b, low, high)
    ensures ms == SharedMarks(g, idx)
  {
    ms := [];
    var d := 0;
    while d < |g.size|
      invariant 0 <= d <= |g.size| && |ms| == d && forall k :: 0 <= k < d ==> ms[k] == SharedMark(g, k, idx[k])
    {
      var lo, hi := b.lo[d], b.hi[d];
      if !low[d] { lo := lo + g.halo; }
      if !high[d] { hi := Minus(g.word, hi, g.halo); }
      ms := ms + [[b.lo[d], lo, hi, b.hi[d]]];
      d := d + 1;
    }
  }

  method GhostMarksOf(g: Grid, b: Box, low: seq<bool>, high: seq<bool>, ghost idx: seq<nat>) returns (ms: seq<Marks>)
    requires Ok(g) && IsIndex(g.blocks, idx) && Bounded(g, idx, b, low, high)
    ensures ms == GhostMarks(g, idx)
  {
    ms := [];
    var d := 0;
    while d < |g.size|
      invariant 0 <= d <= |g.size| && |ms| == d && forall k :: 0 <= k < d ==> ms[k] == GhostMark(g, k, idx[k])
    {
      var lo, hi := b.lo[d], b.hi[d];
      if !low[d] { lo := Minus(g.word, lo, g.halo); }
      if !high[d] { hi := hi + g.halo; }
      ms := ms + [[lo, b.lo[d], b.hi[d], hi]];
      d := d + 1;
    }
  }

  method DomainMarksOf(g: Grid, b: Box, low: seq<bool>, high: seq<bool>, ghost idx: seq<nat>) returns (ms: seq<Marks>)
    requires Ok(g) && IsIndex(g.blocks, idx) && Bounded(g, idx, b, low, high)
    ensures ms == DomainMarks(g, idx)
  {
    ms := [];
    var d := 0;
    while d < |g.size|
      invariant 0 <= d <= |g.size| && |ms| == d && forall k :: 0 <= k < d ==> ms[k] == DomainMark(g, k, idx[k])
    {
      var lo, hi := b.lo[d], b.hi[d];
      if low[d] { lo := Minus(g.word, lo, g.domainHalo); }
      if high[d] { hi := hi + g.domainHalo; }
      ms := ms + [[lo, b.lo[d], b.hi[d], hi]];
      d := d + 1;
    }
  }

  // ----- which zones have boxes ---------------------------------------------------------------------------

  predicate Differs(ms: seq<Marks>, z: seq<nat>, d: nat)
    requires AllMarks(ms) && IsZone(z, |ms|) && d < |ms|
  {
    ms[d][z[d]] != ms[d][z[d] + 1]
  }

  /** The case distinction of the two-dimensional colorer. */
  predicate Flag2(ms: seq<Marks>, z: seq<nat>)
    requires AllMarks(ms) && IsZone(z, |ms|) && |ms| == 2
  {
    var i, j := z[0], z[1];
    if i == 1 && j == 1 then false
    else if Differs(ms, z, 0) && Differs(ms, z, 1) then true
    else if i == 1 && !Differs(ms, z, 0) && Differs(ms, z, 1) then true
    else if j == 1 && Differs(ms, z, 0) && !Differs(ms, z, 1) then true
    else false
  }

  /** ... and of the three-dimensional one. */
  predicate Flag3(ms: seq<Marks>, z: seq<nat>)
    requires AllMarks(ms) && IsZone(z, |ms|) && |ms| == 3
  {
    var i, j, k := z[0], z[1], z[2];
    var di, dj, dk := Differs(ms, z, 0), Differs(ms, z, 1), Differs(ms, z, 2);
    if i == 1 && j == 1 && k == 1 then false
    else if di && dj && dk then true
    else if i == 1 && !di && dj && dk then true
    else if j == 1 && !dj && di && dk then true
    else if k == 1 && !dk && di && dj then true
    else if i == 1 && !di && j == 1 && !dj && dk then true
    else if j == 1 && !dj && k == 1 && !dk && di then true
    else if k == 1 && !dk && i == 1 && !di && dj then true
    else false
  }

  predicate Flag(ms: seq<Marks>, z: seq<nat>)
    requires AllMarks(ms) && IsZone(z, |ms|) && 2 <= |ms| <= 3
  {
    if |ms| == 2 then Flag2(ms, z) else Flag3(ms, z)
  }

  lemma FlagMeans(ms: seq<Marks>, z: seq<nat>)
    requires AllMarks(ms) && IsZone(z, |ms|) && 2 <= |ms| <= 3
    ensures Flag(ms, z) <==> SharedFlag(ms, z)
  {
    assert forall d :: 0 <= d < |ms| ==> (Differs(ms, z, d) <==> ms[d][z[d]] != ms[d][z[d] + 1]);
  }

  /** The halo colorers skip the middle and every zone cut away in some direction. */
  predicate Outer(ms: seq<Marks>, z: seq<nat>)
    requires AllMarks(ms) && IsZone(z, |ms|) && 2 <= |ms| <= 3
  {
    if Center(z) then false
    else Differs(ms, z, 0) && Differs(ms, z, 1) && (|ms| == 2 || Differs(ms, z, 2))
  }

  lemma OuterMeans(ms: seq<Marks>, z: seq<nat>)
    requires AllMarks(ms) && IsZone(z, |ms|) && 2 <= |ms| <= 3
    ensures Outer(ms, z) <==> OuterFlag(ms, z)
  {
    assert forall d :: 0 <= d < |ms| ==> (Differs(ms, z, d) <==> ms[d][z[d]] != ms[d][z[d] + 1]);
  }

  // ----- colours of a shared box ----------------------------------------------------------------------------

  /** The sides on which neighbours are looked for: single directions, then pairs if
      neighbours count through edges, then all three if they count through corners. */
  function Sides(D: nat, thruDim: nat): seq<seq<nat>>
    requires 2 <= D <= 3
  {
    if D == 2 then [[0], [1]] + if thruDim == 0 then [[0, 1]] else []
    else
      [[0], [1], [2]] + (if thruDim <= 1 then [[0, 1], [1, 2], [2, 0]] else []) +
      if thruDim == 0 then [[0, 1, 2]] else []
  }

  predicate OffMiddle(z: seq<nat>, side: seq<nat>)
    requires forall i :: 0 <= i < |side| ==> side[i] < |z|
  {
    forall i :: 0 <= i < |side| ==> z[side[i]] != 1
  }

  /** One step down in the directions with zone 0, one up in those with zone 2. */
  function Towards(idx: seq<nat>, z: seq<nat>, side: seq<nat>): (to: seq<nat>)
    requires |idx| == |z| && forall d :: 0 <= d < |z| ==> z[d] < 3 && (z[d] == 0 ==> idx[d] > 0)
    ensures |to| == |idx|
    ensures forall d :: 0 <= d < |idx| ==> to[d] == if d in side then idx[d] + z[d] - 1 else idx[d]
  {
    seq(|idx|, d requires 0 <= d < |idx| =>
      if d in side then (if z[d] == 0 then idx[d] - 1 else if z[d] == 2 then idx[d] + 1 else idx[d]) else idx[d])
  }

  ghost predicate SidesOk(D: nat, sides: seq<seq<nat>>) {
    forall k, i :: 0 <= k < |sides| && 0 <= i < |sides[k]| ==> sides[k][i] < D
  }

  lemma SidesInRange(D: nat, thruDim: nat)
    requires 2 <= D <= 3
    ensures SidesOk(D, Sides(D, thruDim))
  {}

  /** A flagged zone has neighbours in all the directions in which it is off the middle. */
  lemma ZoneHasNeighbors(g: Grid, idx: seq<nat>, z: seq<nat>, d: nat)
    requires Ok(g) && IsIndex(g.blocks, idx) && IsZone(z, |g.size|) && SharedFlag(SharedMarks(g, idx), z) && d < |z|
    ensures z[d] == 0 ==> idx[d] > 0
    ensures z[d] == 2 ==> idx[d] + 1 < g.blocks[d]
  {
    var m := SharedMarks(g, idx)[d];
    assert z[d] == 1 || m[z[d]] != m[z[d] + 1];
  }

  ghost function StepOf(z: seq<nat>, side: seq<nat>): (delta: seq<int>)
    ensures |delta| == |z| && forall d :: 0 <= d < |z| ==> delta[d] == if d in side then z[d] as int - 1 else 0
  {
    seq(|z|, d requires 0 <= d < |z| => if d in side then z[d] as int - 1 else 0)
  }

  lemma Count2(delta: seq<int>)
    requires |delta| == 2
    ensures NonZero(delta, 2) == (if delta[0] != 0 then 1 else 0) + (if delta[1] != 0 then 1 else 0)
  {
    assert NonZero(delta, 1) == if delta[0] != 0 then 1 else 0;
  }

  lemma Count3(delta: seq<int>)
    requires |delta| == 3
    ensures NonZero(delta, 3) ==
      (if delta[0] != 0 then 1 else 0) + (if delta[1] != 0 then 1 else 0) + (if delta[2] != 0 then 1 else 0)
  {
    assert NonZero(delta, 1) == if delta[0] != 0 then 1 else 0;
    assert NonZero(delta, 2) == NonZero(delta, 1) + if delta[1] != 0 then 1 else 0;
  }

  /** Stepping on a side gives a neighbour that shares the zone. */
  lemma SideShares(z: seq<nat>, thruDim: nat, k: nat)
    requires 2 <= |z| <= 3 && thruDim < |z| && k < |Sides(|z|, thruDim)|
    requires SidesOk(|z|, Sides(|z|, thruDim)) && OffMiddle(z, Sides(|z|, thruDim)[k])
    ensures Sharing(z, StepOf(z, Sides(|z|, thruDim)[k]), thruDim)
  {
    var delta := StepOf(z, Sides(|z|, thruDim)[k]);
    if |z| == 2 { Count2(delta); } else { Count3(delta); }
  }

  /** ... and every such neighbour is a step on one of the sides. */
  lemma SharesOnSide2(z: seq<nat>, delta: seq<int>, thruDim: nat) returns (k: nat)
    requires |z| == 2 && thruDim < |z| && Sharing(z, delta, thruDim)
    ensures k < |Sides(2, thruDim)| && SidesOk(2, Sides(2, thruDim)) && OffMiddle(z, Sides(2, thruDim)[k])
    ensures delta == StepOf(z, Sides(2, thruDim)[k])
  {
    SidesInRange(2, thruDim);
    Count2(delta);
    k := if delta[1] == 0 then 0 else if delta[0] == 0 then 1 else 2;
  }

  lemma SharesOnSide3(z: seq<nat>, delta: seq<int>, thruDim: nat) returns (k: nat)
    requires |z| == 3 && thruDim < |z| && Sharing(z, delta, thruDim)
    ensures k < |Sides(3, thruDim)| && SidesOk(3, Sides(3, thruDim)) && OffMiddle(z, Sides(3, thruDim)[k])
    ensures delta == StepOf(z, Sides(3, thruDim)[k])
  {
    SidesInRange(3, thruDim);
    Count3(delta);
    var a, b, c := delta[0] != 0, delta[1] != 0, delta[2] != 0;
    k := if a && b && c then 6 else if a && b then 3 else if b && c then 4 else if a && c then 5
         else if a then 0 else if b then 1 else 2;
  }

  method SharedColors(g: Grid, idx: seq<nat>, z: seq<nat>) returns (colors: seq<nat>)
    requires Ok(g) && IsIndex(g.blocks, idx) && IsZone(z, |g.size|) && SharedFlag(SharedMarks(g, idx), z)
    ensures forall c :: c in colors <==>
      exists other :: IsIndex(g.blocks, other) && SharedWith(g, idx, z, other) && c == RankOf(g, other)
    ensures Distinct(colors)
  {
    var sides := Sides(|g.size|, g.thruDim);
    SidesInRange(|g.size|, g.thruDim);
    FlaggedFits(g, idx, z);
    colors := [];
    var k := 0;
    while k < |sides|
      invariant 0 <= k <= |sides|
      invariant ColorsUpTo(g, idx, z, k, colors)
    {
      ColorsNext(g, idx, z, k, colors);
      if OffMiddle(z, sides[k]) {
        colors := colors + [RankOf(g, Towards(idx, z, sides[k]))];
      }
      k := k + 1;
    }
    ColorsOfAllSides(g, idx, z, colors);
  }

  lemma FlaggedFits(g: Grid, idx: seq<nat>, z: seq<nat>)
    requires Ok(g) && IsIndex(g.blocks, idx) && IsZone(z, |g.size|) && SharedFlag(SharedMarks(g, idx), z)
    ensures Fits(g, idx, z)
  {
    forall d | 0 <= d < |z| ensures (z[d] == 0 ==> idx[d] > 0) && (z[d] == 2 ==> idx[d] + 1 < g.blocks[d]) {
      ZoneHasNeighbors(g, idx, z, d);
    }
  }

  lemma ColorsOfAllSides(g: Grid, idx: seq<nat>, z: seq<nat>, colors: seq<nat>)
    requires Ok(g) && IsIndex(g.blocks, idx) && Fits(g, idx, z) && SidesOk(|z|, Sides(|z|, g.thruDim))
    requires ColorsUpTo(g, idx, z, |Sides(|z|, g.thruDim)|, colors)
    ensures forall c :: c in colors <==>
      exists other :: IsIndex(g.blocks, other) && SharedWith(g, idx, z, other) && c == RankOf(g, other)
  {
    forall c ensures c in colors <==>
      exists other :: IsIndex(g.blocks, other) && SharedWith(g, idx, z, other) && c == RankOf(g, other)
    {
      ColorsOfSides(g, idx, z, c);
    }
  }

  ghost predicate Fits(g: Grid, idx: seq<nat>, z: seq<nat>)
    requires Ok(g) && IsIndex(g.blocks, idx)
  {
    |z| == |idx| && forall d :: 0 <= d < |z| ==>
      z[d] < 3 && (z[d] == 0 ==> idx[d] > 0) && (z[d] == 2 ==> idx[d] + 1 < g.blocks[d])
  }

  /** c is the rank reached on one of the first n sides. */
  ghost predicate ColorUpTo(g: Grid, idx: seq<nat>, z: seq<nat>, sides: seq<seq<nat>>, n: nat, c: nat)
    requires Ok(g) && IsIndex(g.blocks, idx) && Fits(g, idx, z) && SidesOk(|z|, sides) && n <= |sides|
  {
    exists k :: 0 <= k < n && OffMiddle(z, sides[k]) && c == RankOf(g, Towards(idx, z, sides[k]))
  }

  /** colors are those of the first n sides, each once. */
  ghost predicate ColorsUpTo(g: Grid, idx: seq<nat>, z: seq<nat>, n: nat, colors: seq<nat>)
    requires Ok(g) && IsIndex(g.blocks, idx) && Fits(g, idx, z) && SidesOk(|z|, Sides(|z|, g.thruDim))
    requires n <= |Sides(|z|, g.thruDim)|
  {
    Distinct(colors) && forall c :: c in colors <==> ColorUpTo(g, idx, z, Sides(|z|, g.thruDim), n, c)
  }

  lemma ColorsNext(g: Grid, idx: seq<nat>, z: seq<nat>, k: nat, colors: seq<nat>)
    requires Ok(g) && IsIndex(g.blocks, idx) && Fits(g, idx, z) && k < |Sides(|z|, g.thruDim)|
    requires SidesOk(|z|, Sides(|z|, g.thruDim)) && ColorsUpTo(g, idx, z, k, colors)
    ensures
      var side := Sides(|z|, g.thruDim)[k];
      ColorsUpTo(g, idx, z, k + 1,
        if OffMiddle(z, side) then colors + [RankOf(g, Towards(idx, z, side))] else colors)
  {
    if OffMiddle(z, Sides(|z|, g.thruDim)[k]) { NewColor(g, idx, z, k); }
  }

  /** Different sides lead to different neighbours. */
  lemma NewColor(g: Grid, idx: seq<nat>, z: seq<nat>, k: nat)
    requires Ok(g) && IsIndex(g.blocks, idx) && Fits(g, idx, z) && k < |Sides(|z|, g.thruDim)|
    requires SidesOk(|z|, Sides(|z|, g.thruDim)) && OffMiddle(z, Sides(|z|, g.thruDim)[k])
    ensures
      var sides := Sides(|z|, g.thruDim);
      !ColorUpTo(g, idx, z, sides, k, RankOf(g, Towards(idx, z, sides[k])))
  {
    var sides := Sides(|z|, g.thruDim);
    forall j | 0 <= j < k && OffMiddle(z, sides[j])
      ensures RankOf(g, Towards(idx, z, sides[j])) != RankOf(g, Towards(idx, z, sides[k]))
    {
      var a, b := Towards(idx, z, sides[j]), Towards(idx, z, sides[k]);
      var d := SidesDiffer(|z|, g.thruDim, j, k);
      assert a[d] != b[d];
      if RankOf(g, a) == RankOf(g, b) { SameRankSameIndex(g, a, b); }
    }
  }

  lemma SidesDiffer(D: nat, thruDim: nat, j: nat, k: nat) returns (d: nat)
    requires 2 <= D <= 3 && j < k < |Sides(D, thruDim)|
    ensures d < D && (d in Sides(D, thruDim)[j] <==> d !in Sides(D, thruDim)[k])
  {
    var a, b := Sides(D, thruDim)[j], Sides(D, thruDim)[k];
    d := if (0 in a) != (0 in b) then 0 else if (1 in a) != (1 in b) then 1 else 2;
  }

  lemma ColorsOfSides(g: Grid, idx: seq<nat>, z: seq<nat>, c: nat)
    requires Ok(g) && IsIndex(g.blocks, idx) && Fits(g, idx, z)
    ensures SidesOk(|z|, Sides(|z|, g.thruDim))
    ensures ColorUpTo(g, idx, z, Sides(|z|, g.thruDim), |Sides(|z|, g.thruDim)|, c) <==>
      exists other :: IsIndex(g.blocks, other) && SharedWith(g, idx, z, other) && c == RankOf(g, other)
  {
    var sides := Sides(|z|, g.thruDim);
    SidesInRange(|z|, g.thruDim);
    if k :| 0 <= k < |sides| && OffMiddle(z, sides[k]) && c == RankOf(g, Towards(idx, z, sides[k])) {
      SideShares(z, g.thruDim, k);
      var other := Towards(idx, z, sides[k]);
      assert Moved(idx, StepOf(z, sides[k]), other) && IsIndex(g.blocks, other);
      assert SharedWith(g, idx, z, other);
    }
    if other :| IsIndex(g.blocks, other) && SharedWith(g, idx, z, other) && c == RankOf(g, other) {
      SharedOnSide(g, idx, z, other);
    }
  }

  lemma SharedOnSide(g: Grid, idx: seq<nat>, z: seq<nat>, other: seq<nat>)
    requires Ok(g) && IsIndex(g.blocks, idx) && Fits(g, idx, z) && IsIndex(g.blocks, other) &&
      SharedWith(g, idx, z, other)
    ensures SidesOk(|z|, Sides(|z|, g.thruDim))
    ensures ColorUpTo(g, idx, z, Sides(|z|, g.thruDim), |Sides(|z|, g.thruDim)|, RankOf(g, other))
  {
    var delta :| Sharing(z, delta, g.thruDim) && Moved(idx, delta, other);
    var k;
    if |z| == 2 { k := SharesOnSide2(z, delta, g.thruDim); } else { k := SharesOnSide3(z, delta, g.thruDim); }
    assert other == Towards(idx, z, Sides(|z|, g.thruDim)[k]);
  }

  // ----- the lists of boxes ---------------------------------------------------------------------------------

  method SharedOf(g: Grid, idx: seq<nat>, ms: seq<Marks>) returns (shared: seq<ColoredBox>)
    requires Ok(g) && IsIndex(g.blocks, idx) && ms == SharedMarks(g, idx)
    ensures exists zs :: SharedBoxes(g, idx, zs, shared)
  {
    var D := |g.size|;
    ghost var want := (z: seq<nat>) => IsZone(z, D) && SharedFlag(ms, z);
    shared := [];
    ghost var zs: seq<seq<nat>> := [];
    var id := 0;
    while id < Zones(D)
      invariant 0 <= id <= Zones(D) && |zs| == |shared| && Visited(D, id, zs, want)
      invariant forall i :: 0 <= i < |zs| ==> SharedBox(g, idx, zs[i], shared[i])
    {
      var z := ZoneOf(D, id);
      VisitNext(D, id, zs, want);
      FlagMeans(ms, z);
      if Flag(ms, z) {
        var colors := SharedColors(g, idx, z);
        shared, zs := shared + [ColoredBox(ZoneBox(g.word, ms, z), colors)], zs + [z];
      }
      id := id + 1;
    }
    forall z | IsZone(z, D) && SharedFlag(ms, z) ensures z in zs { VisitedAll(D, zs, want, z); }
    assert SharedBoxes(g, idx, zs, shared);
  }

  /** Dimension of the part in which a neighbour on the zone's side meets the block, and
      the steps to it. */
  const RANKMAP2: seq<seq<int>> := [
    [0, -1, -1], [1, 0, -1], [0, 1, -1], [1, -1, 0], [2, 0, 0], [1, 1, 0], [0, -1, 1], [1, 0, 1], [0, 1, 1]]

  const RANKMAP3: seq<seq<int>> := [
    [0, -1, -1, -1], [1, 0, -1, -1], [0, 1, -1, -1], [1, -1, 0, -1], [2, 0, 0, -1], [1, 1, 0, -1],
    [0, -1, 1, -1], [1, 0, 1, -1], [0, 1, 1, -1], [1, -1, -1, 0], [2, 0, -1, 0], [1, 1, -1, 0],
    [2, -1, 0, 0], [3, 0, 0, 0], [2, 1, 0, 0], [1, -1, 1, 0], [2, 0, 1, 0], [1, 1, 1, 0],
    [0, -1, -1, 1], [1, 0, -1, 1], [0, 1, -1, 1], [1, -1, 0, 1], [2, 0, 0, 1], [1, 1, 0, 1],
    [0, -1, 1, 1], [1, 0, 1, 1], [0, 1, 1, 1]]

  function RankMap(D: nat, id: nat): seq<int>
    requires 2 <= D <= 3 && id < Zones(D)
  {
    if D == 2 then RANKMAP2[id] else RANKMAP3[id]
  }

  function Off(t: nat): int {
    if t == 1 then 0 else 1
  }

  lemma RankMapRow2(id: nat)
    requires id < 9
    ensures RANKMAP2[id] == [2 - Off(id % 3) - Off(id / 3), id % 3 - 1, id / 3 - 1]
  {}

  lemma RankMapRow3(id: nat)
    requires id < 27
    ensures RANKMAP3[id] == [3 - Off(id % 3) - Off(id / 3 % 3) - Off(id / 9), id % 3 - 1, id / 3 % 3 - 1, id / 9 - 1]
  {
    if id < 9 {} else if id < 18 {} else {}
  }

  /** The table holds the offset of each zone and the dimension that goes with it. */
  lemma RankMapMeans(D: nat, id: nat)
    requires 2 <= D <= 3 && id < Zones(D)
    ensures |RankMap(D, id)| == D + 1 && RankMap(D, id)[1..] == Offset(ZoneOf(D, id))
    ensures RankMap(D, id)[0] + NonZero(Offset(ZoneOf(D, id)), D) == D
  {
    if D == 2 {
      RankMapRow2(id);
      Count2(Offset(ZoneOf(D, id)));
    } else {
      RankMapRow3(id);
      Count3(Offset(ZoneOf(D, id)));
    }
  }

  lemma GhostNeighbor(g: Grid, idx: seq<nat>, z: seq<nat>, d: nat)
    requires Ok(g) && IsIndex(g.blocks, idx) && GhostZone(g, idx, z) && d < |z|
    ensures 0 <= idx[d] + z[d] - 1 < g.blocks[d]
  {
    var m := GhostMarks(g, idx)[d];
    assert m[z[d]] != m[z[d] + 1];
    GhostSide(g, d, idx[d], z[d]);
  }

  function Stepped(idx: seq<nat>, entry: seq<int>): (to: seq<nat>)
    requires |entry| == |idx| + 1 && forall d :: 0 <= d < |idx| ==> idx[d] + entry[d + 1] >= 0
    ensures |to| == |idx| && forall d :: 0 <= d < |idx| ==> to[d] == idx[d] + entry[d + 1]
  {
    seq(|idx|, d requires 0 <= d < |idx| => idx[d] + entry[d + 1])
  }

  method OneGhost(g: Grid, idx: seq<nat>, ms: seq<Marks>, id: nat) returns (b: ColoredBox)
    requires Ok(g) && IsIndex(g.blocks, idx) && ms == GhostMarks(g, idx) && id < Zones(|g.size|)
    requires GhostZone(g, idx, ZoneOf(|g.size|, id))
    ensures GhostBox(g, idx, ZoneOf(|g.size|, id), b)
  {
    var D := |g.size|;
    var z, entry := ZoneOf(D, id), RankMap(D, id);
    RankMapMeans(D, id);
    forall d | 0 <= d < D ensures entry[d + 1] == z[d] as int - 1 && 0 <= idx[d] + entry[d + 1] < g.blocks[d] {
      GhostNeighbor(g, idx, z, d);
      assert entry[1..][d] == Offset(z)[d];
    }
    var other := Stepped(idx, entry);
    assert Moved(idx, Offset(z), other) && IsIndex(g.blocks, other);
    b := ColoredBox(ZoneBox(g.word, ms, z), [RankOf(g, other)]);
  }

  method GhostsOf(g: Grid, idx: seq<nat>, ms: seq<Marks>) returns (ghosts: seq<ColoredBox>)
    requires Ok(g) && IsIndex(g.blocks, idx) && ms == GhostMarks(g, idx)
    ensures exists zs :: GhostBoxes(g, idx, zs, ghosts)
  {
    var D := |g.size|;
    ghost var want := (z: seq<nat>) => GhostZone(g, idx, z);
    ghosts := [];
    ghost var zs: seq<seq<nat>> := [];
    var id := 0;
    while id < Zones(D)
      invariant 0 <= id <= Zones(D) && |zs| == |ghosts| && Visited(D, id, zs, want)
      invariant forall i :: 0 <= i < |zs| ==> GhostBox(g, idx, zs[i], ghosts[i])
    {
      var z := ZoneOf(D, id);
      VisitNext(D, id, zs, want);
      OuterMeans(ms, z);
      RankMapMeans(D, id);
      if Outer(ms, z) && g.thruDim <= RankMap(D, id)[0] {
        var b := OneGhost(g, idx, ms, id);
        ghosts, zs := ghosts + [b], zs + [z];
      }
      id := id + 1;
    }
    forall z | GhostZone(g, idx, z) ensures z in zs { VisitedAll(D, zs, want, z); }
    assert GhostBoxes(g, idx, zs, ghosts);
  }

  method DomainHaloOf(g: Grid, idx: seq<nat>, ms: seq<Marks>) returns (halo: seq<Box>)
    requires Ok(g) && IsIndex(g.blocks, idx) && ms == DomainMarks(g, idx)
    ensures exists zs :: HaloBoxes(g, idx, zs, halo)
  {
    var D := |g.size|;
    ghost var want := (z: seq<nat>) => IsZone(z, D) && OuterFlag(ms, z);
    halo := [];
    ghost var zs: seq<seq<nat>> := [];
    var id := 0;
    while id < Zones(D)
      invariant 0 <= id <= Zones(D) && |zs| == |halo| && Visited(D, id, zs, want)
      invariant forall i :: 0 <= i < |zs| ==> HaloBox(g, idx, zs[i], halo[i])
    {
      var z := ZoneOf(D, id);
      VisitNext(D, id, zs, want);
      OuterMeans(ms, z);
      if Outer(ms, z) {
        halo, zs := halo + [ZoneBox(g.word, ms, z)], zs + [z];
      }
      id := id + 1;
    }
    forall z | IsZone(z, D) && OuterFlag(ms, z) ensures z in zs { VisitedAll(D, zs, want, z); }
    assert HaloBoxes(g, idx, zs, halo);
  }

  /** All boxes of one rank. */
  method Color(g: Grid, rank: nat) returns (k: Coloring, idx: seq<nat>)
    requires Ok(g) && rank < Prod(g.blocks, |g.blocks|)
    ensures IsIndex(g.blocks, idx) && RankOf(g, idx) == rank
    ensures IsColoring(g, idx, k)
  {
    idx := GetIndices(g.blocks, rank);
    var primary := PrimaryOf(g, idx);
    var low, high := Boundary(g, primary, idx);
    var inner := SharedMarksOf(g, primary, low, high, idx);
    var shared := SharedOf(g, idx, inner);
    var exclusive :=
      Box(seq(|inner|, d requires 0 <= d < |inner| => inner[d][1]),
        seq(|inner|, d requires 0 <= d < |inner| => inner[d][2]));
    var outer := GhostMarksOf(g, primary, low, high, idx);
    var ghosts := GhostsOf(g, idx, outer);
    var edge := DomainMarksOf(g, primary, low, high, idx);
    var halo := DomainHaloOf(g, idx, edge);
    k := Coloring(primary, exclusive, shared, ghosts, halo);
  }

  // ----- all ranks ---------------------------------------------------------------------------------------------

  /** ks holds the boxes of the ranks below |ks|; at says where their blocks are. */
  ghost predicate ColorsRanks(g: Grid, ks: seq<Coloring>, at: seq<seq<nat>>)
    requires Ok(g)
  {
    |ks| == |at| &&
    forall r :: 0 <= r < |ks| ==> IsIndex(g.blocks, at[r]) && RankOf(g, at[r]) == r && IsColoring(g, at[r], ks[r])
  }

  /** Every block has a rank. */
  lemma HasRank(g: Grid, ks: seq<Coloring>, at: seq<seq<nat>>, idx: seq<nat>)
    requires Ok(g) && ColorsRanks(g, ks, at) && |ks| == Prod(g.blocks, |g.blocks|) && IsIndex(g.blocks, idx)
    ensures RankOf(g, idx) < |ks| && at[RankOf(g, idx)] == idx
  {
    RankBound(g.blocks, idx, |idx|);
    SameRankSameIndex(g, at[RankOf(g, idx)], idx);
  }

  ghost predicate OwnedBy(ks: seq<Coloring>, r: nat, c: seq<int>) {
    r < |ks| && In(ks[r].primary, c)
  }

  /** Each cell of the domain is in the primary box of exactly one rank, and no other cell is in any. */
  ghost predicate OwnedOnce(g: Grid, ks: seq<Coloring>, c: seq<int>) {
    (InDomain(g, c) <==> exists r :: OwnedBy(ks, r, c)) &&
    forall r, s :: OwnedBy(ks, r, c) && OwnedBy(ks, s, c) ==> r == s
  }

  lemma AllOwnedOnce(g: Grid, ks: seq<Coloring>, at: seq<seq<nat>>, c: seq<int>)
    requires Ok(g) && ColorsRanks(g, ks, at) && |ks| == Prod(g.blocks, |g.blocks|) && |c| == |g.size|
    ensures OwnedOnce(g, ks, c)
  {
    PrimariesPartition(g, c);
    if InDomain(g, c) { HasOwner(g, ks, at, c); }
    forall r: nat | OwnedBy(ks, r, c) ensures InDomain(g, c) { OwnedIsIn(g, ks, at, r, c); }
    forall r: nat, s: nat | OwnedBy(ks, r, c) && OwnedBy(ks, s, c) ensures r == s {
      OwnedIsIn(g, ks, at, r, c);
      OwnedIsIn(g, ks, at, s, c);
    }
  }

  lemma OwnedIsIn(g: Grid, ks: seq<Coloring>, at: seq<seq<nat>>, r: nat, c: seq<int>)
    requires Ok(g) && ColorsRanks(g, ks, at) && OwnedBy(ks, r, c)
    ensures IsIndex(g.blocks, at[r]) && RankOf(g, at[r]) == r && In(PrimaryBox(g, at[r]), c)
  {}

  lemma HasOwner(g: Grid, ks: seq<Coloring>, at: seq<seq<nat>>, c: seq<int>)
    requires Ok(g) && ColorsRanks(g, ks, at) && |ks| == Prod(g.blocks, |g.blocks|) && |c| == |g.size| && InDomain(g, c)
    ensures exists r :: OwnedBy(ks, r, c)
  {
    PrimariesPartition(g, c);
    var idx :| IsIndex(g.blocks, idx) && In(PrimaryBox(g, idx), c);
    HasRank(g, ks, at, idx);
    assert OwnedBy(ks, RankOf(g, idx), c);
  }

  /** In direction d cell x lies in block i: i widths from the origin, or beyond the last
      multiple of the width. */
  ghost predicate InBlockNumber(g: Grid, d: nat, i: nat, x: int)
    requires Ok(g) && d < |g.size|
  {
    assert EachHasCells(g.size[d], g.blocks[d]);
    g.domainHalo <= x < g.domainHalo + g.size[d] &&
    var k := (x - g.domainHalo) / (g.size[d] / g.blocks[d]);
    i == if k < g.blocks[d] then k else g.blocks[d] - 1
  }

  /** A block is as wide as the cells divided by the blocks; the last one has the remainder, too. */
  ghost predicate HasWidth(g: Grid, d: nat, i: nat, lo: int, hi: int)
    requires Ok(g) && d < |g.size|
  {
    assert EachHasCells(g.size[d], g.blocks[d]);
    hi - lo + 1 == g.size[d] / g.blocks[d] + if i + 1 < g.blocks[d] then 0 else g.size[d] % g.blocks[d]
  }

  /** The rank with the given block indices, first direction fastest. */
  ghost function RankAt(n: seq<nat>, idx: seq<nat>): int
    requires 2 <= |n| == |idx| <= 3
  {
    if |n| == 2 then idx[0] + n[0] * idx[1] else idx[0] + n[0] * idx[1] + n[0] * n[1] * idx[2]
  }

  /** Which cells a rank owns, and how wide its block is in each direction. */
  lemma OwnedCells(g: Grid, ks: seq<Coloring>, at: seq<seq<nat>>, r: nat, c: seq<int>)
    requires Ok(g) && ColorsRanks(g, ks, at) && r < |ks| && |c| == |g.size|
    ensures |at[r]| == |g.blocks| && r == RankAt(g.blocks, at[r])
    ensures OwnedBy(ks, r, c) <==> forall d :: 0 <= d < |c| ==> InBlockNumber(g, d, at[r][d], c[d])
    ensures |ks[r].primary.lo| == |ks[r].primary.hi| == |g.size|
    ensures forall d :: 0 <= d < |g.size| ==> HasWidth(g, d, at[r][d], ks[r].primary.lo[d], ks[r].primary.hi[d])
  {
    var idx := at[r];
    if |idx| == 2 { RankInTwo(g.blocks, idx); } else { RankInThree(g.blocks, idx); }
    forall d | 0 <= d < |c|
      ensures BlockLo(g, d, idx[d]) <= c[d] <= BlockHi(g, d, idx[d]) <==> InBlockNumber(g, d, idx[d], c[d])
      ensures HasWidth(g, d, idx[d], BlockLo(g, d, idx[d]), BlockHi(g, d, idx[d]))
    {
      assert EachHasCells(g.size[d], g.blocks[d]);
      BlockOfCell(g.size[d], g.blocks[d], g.domainHalo, c[d], idx[d]);
      BlockWidth(g.size[d], g.blocks[d], g.domainHalo, idx[d]);
    }
    assert ks[r].primary == PrimaryBox(g, idx);
  }

  /** Rank s has a ghost box coloured r that holds c. */
  ghost predicate IsGhost(ks: seq<Coloring>, s: nat, r: nat, c: seq<int>)
    requires s < |ks|
  {
    Covered(ks[s].ghosts, c, r)
  }

  /** In direction d the cell is within a halo's depth of the block lo to hi, on the side where
      the neighbour is; level with it, the block must be at least two cells wide. */
  ghost predicate InReach(halo: nat, lo: int, hi: int, from: nat, to: nat, x: int) {
    if to == from then lo <= x <= hi && lo != hi
    else if to + 1 == from then halo <= lo && lo - halo <= x < lo
    else to == from + 1 && hi < x <= hi + halo
  }

  lemma ReachIsBand(g: Grid, d: nat, i: nat, j: nat, x: int)
    requires Ok(g) && d < |g.size| && i < g.blocks[d] && j < g.blocks[d]
    ensures InReach(g.halo, BlockLo(g, d, i), BlockHi(g, d, i), i, j, x) <==>
      InBand(g, d, i, j, x) && (i == j ==> BlockLo(g, d, i) != BlockHi(g, d, i))
  {
    BlockFacts(g, d, i);
    BlockFacts(g, d, j);
  }

  lemma {:induction false} NonZeroCounts(delta: seq<int>, k: nat)
    requires k <= |delta|
    ensures NonZero(delta, k) == |set d | 0 <= d < k && delta[d] != 0|
  {
    if k > 0 {
      NonZeroCounts(delta, k - 1);
      var front := set d | 0 <= d < k - 1 && delta[d] != 0;
      var all := set d | 0 <= d < k && delta[d] != 0;
      assert all == if delta[k - 1] != 0 then front + {k - 1} else front;
    }
  }

  /** The ghost cells of s that belong to r: both blocks are next to each other, they differ in as
      many directions as count, and the cell is in reach of s in every direction. */
  lemma GhostReach(g: Grid, ks: seq<Coloring>, at: seq<seq<nat>>, s: nat, r: nat, c: seq<int>, cut: set<nat>)
    requires Ok(g) && ColorsRanks(g, ks, at) && s < |ks| && r < |ks| && |c| == |g.size|
    requires |at[s]| == |at[r]| == |g.size| && cut == set d: nat | d < |c| && at[s][d] != at[r][d]
    requires |ks[s].primary.lo| == |ks[s].primary.hi| == |g.size|
    ensures IsGhost(ks, s, r, c) <==>
      1 <= |cut| && |cut| + g.thruDim <= |c| &&
      forall d :: 0 <= d < |c| ==>
        InReach(g.halo, ks[s].primary.lo[d], ks[s].primary.hi[d], at[s][d], at[r][d], c[d])
  {
    var from, to := at[s], at[r];
    GhostsAreBands(g, from, to, ks[s], c);
    NonZeroCounts(Difference(from, to), |c|);
    assert cut == set d | 0 <= d < |c| && Difference(from, to)[d] != 0;
    forall d | 0 <= d < |c|
      ensures InReach(g.halo, ks[s].primary.lo[d], ks[s].primary.hi[d], from[d], to[d], c[d]) <==>
        InBand(g, d, from[d], to[d], c[d]) && (from[d] == to[d] ==> BlockLo(g, d, from[d]) != BlockHi(g, d, from[d]))
    {
      assert ks[s].primary == PrimaryBox(g, from);
      ReachIsBand(g, d, from[d], to[d], c[d]);
    }
  }

  /** Rank r shares c with rank s. */
  ghost predicate IsShared(ks: seq<Coloring>, r: nat, s: nat, c: seq<int>)
    requires r < |ks|
  {
    Covered(ks[r].shared, c, s)
  }

  ghost predicate AllDual(g: Grid, ks: seq<Coloring>) {
    forall r, s, c: seq<int> :: 0 <= r < |ks| && 0 <= s < |ks| && |c| == |g.size| ==>
      (IsGhost(ks, s, r, c) <==> IsShared(ks, r, s, c))
  }

  lemma AllDualIffWideEnough(g: Grid, ks: seq<Coloring>, at: seq<seq<nat>>)
    requires Ok(g) && ColorsRanks(g, ks, at) && |ks| == Prod(g.blocks, |g.blocks|)
    ensures AllDual(g, ks) <==> WideEnough(g)
  {
    if WideEnough(g) {
      forall r, s, c: seq<int> | 0 <= r < |ks| && 0 <= s < |ks| && |c| == |g.size|
        ensures IsGhost(ks, s, r, c) <==> IsShared(ks, r, s, c)
      {
        GhostIffShared(g, at[s], at[r], ks[s], ks[r], c);
      }
    } else {
      var d, e :| 0 <= d < |g.size| && 0 <= e < |g.size| && d != e && g.blocks[e] >= 2 && !WideIn(g, d);
      NarrowIsLost(g, ks, at, d, e);
    }
  }

  lemma NarrowIsLost(g: Grid, ks: seq<Coloring>, at: seq<seq<nat>>, d: nat, e: nat)
    requires Ok(g) && ColorsRanks(g, ks, at) && |ks| == Prod(g.blocks, |g.blocks|)
    requires g.halo > 0 && d < |g.size| && e < |g.size| && d != e && g.blocks[e] >= 2 && !WideIn(g, d)
    ensures
      var i, j, c := RankOf(g, FirstBlock(g)), RankOf(g, FirstBlock(g)[e := 1]), LostCell(g, d, e);
      i < |ks| && j < |ks| && IsShared(ks, j, i, c) && !IsGhost(ks, i, j, c)
  {
    var s := FirstBlock(g);
    LostCellIsShared(g, d, e);
    HasRank(g, ks, at, s);
    HasRank(g, ks, at, s[e := 1]);
    NarrowBlocksLoseGhosts(g, d, e, ks[RankOf(g, s)], ks[RankOf(g, s[e := 1])]);
  }

  /** All ranks: each cell of the domain is owned by exactly one rank, every ghost is shared
      by the rank it is coloured with, and shared cells are ghosts as well exactly when
      blocks are wide enough. */
  method ColorAll(g: Grid) returns (ks: seq<Coloring>, ghost at: seq<seq<nat>>)
    requires Ok(g)
    ensures |ks| == Prod(g.blocks, |g.blocks|) && ColorsRanks(g, ks, at)
    ensures forall c: seq<int> :: |c| == |g.size| ==> OwnedOnce(g, ks, c)
    ensures forall r, s, c: seq<int> :: 0 <= r < |ks| && 0 <= s < |ks| && |c| == |g.size| && IsGhost(ks, s, r, c) ==>
      IsShared(ks, r, s, c)
    ensures AllDual(g, ks) <==> WideEnough(g)
  {
    ks, at := [], [];
    while |ks| < Prod(g.blocks, |g.blocks|)
      invariant |ks| <= Prod(g.blocks, |g.blocks|) && ColorsRanks(g, ks, at)
    {
      var k, idx := Color(g, |ks|);
      ks, at := ks + [k], at + [idx];
    }
    forall c: seq<int> | |c| == |g.size| ensures OwnedOnce(g, ks, c) { AllOwnedOnce(g, ks, at, c); }
    forall r, s, c: seq<int> | 0 <= r < |ks| && 0 <= s < |ks| && |c| == |g.size| && IsGhost(ks, s, r, c)
      ensures IsShared(ks, r, s, c)
    {
      GhostIsShared(g, at[s], at[r], ks[s], ks[r], c);
    }
    AllDualIffWideEnough(g, ks, at);
  }
}
