/** Splitting each rank's cells into exclusive, shared and ghost from the
    distributed cell graph. */
module OwnerInfo {
  import opened Distribution
  import opened Coloring

  /** One rank's rows of the distributed graph; columns are global cell ids. */
  datatype Dcrs = Dcrs(distribution: seq<nat>, crs: Crs)

  ghost predicate ValidDcrs(d: Dcrs, P: nat, me: nat) {
    && IsDistribution(d.distribution, P) && me < P
    && d.crs.Valid() && d.crs.Size() == d.distribution[me + 1] - d.distribution[me]
    && forall i :: 0 <= i < |d.crs.indices| ==> d.crs.indices[i] < d.distribution[P]
  }

  function LocalSize(d: Dcrs, P: nat, me: nat): nat
    requires ValidDcrs(d, P, me)
  {
    d.distribution[me + 1] - d.distribution[me]
  }

  /** Ranks other than mine that own a cell of the row. */
  ghost function OtherRanks(dist: seq<nat>, P: nat, me: nat, row: seq<nat>): set<nat>
    requires IsDistribution(dist, P) && forall j :: 0 <= j < |row| ==> row[j] < dist[P]
  {
    set j | 0 <= j < |row| && Owner(dist, P, row[j]) != me :: Owner(dist, P, row[j])
  }

  ghost predicate IsSharedCell(d: Dcrs, P: nat, me: nat, e: EntityInfo)
    requires ValidDcrs(d, P, me)
  {
    e.offset < LocalSize(d, P, me) && e.id == d.distribution[me] + e.offset && e.rank == me &&
    e.shared == OtherRanks(d.distribution, P, me, d.crs.Row(e.offset)) != {}
  }

  ghost predicate IsExclusiveCell(d: Dcrs, P: nat, me: nat, e: EntityInfo)
    requires ValidDcrs(d, P, me)
  {
    e.offset < LocalSize(d, P, me) && e.id == d.distribution[me] + e.offset && e.rank == me &&
    e.shared == OtherRanks(d.distribution, P, me, d.crs.Row(e.offset)) == {}
  }

  /** A ghost is a neighbour owned elsewhere, with its local id at its owner. */
  ghost predicate IsGhostOf(dist: seq<nat>, P: nat, me: nat, row: seq<nat>, e: EntityInfo)
    requires IsDistribution(dist, P)
  {
    e.id < dist[P] && e.id in row && Owner(dist, P, e.id) != me && e == GhostInfo(dist, P, me, e.id)
  }

  ghost function GhostInfo(dist: seq<nat>, P: nat, me: nat, n: nat): EntityInfo
    requires IsDistribution(dist, P) && n < dist[P]
  {
    EntityInfo(n, Owner(dist, P, n), n - dist[Owner(dist, P, n)], {me})
  }

  ghost predicate IsGhostCell(d: Dcrs, P: nat, me: nat, upto: nat, e: EntityInfo)
    requires ValidDcrs(d, P, me)
  {
    exists i :: 0 <= i < upto <= LocalSize(d, P, me) && IsGhostOf(d.distribution, P, me, d.crs.Row(i), e)
  }

  ghost predicate IsOwnerInfo(d: Dcrs, P: nat, me: nat, col: IndexColoring, info: ColoringInfo)
    requires ValidDcrs(d, P, me)
  {
    && AscendingIds(col.exclusive) && AscendingIds(col.shared) && AscendingIds(col.ghosts)
    && (forall e :: e in col.exclusive <==> IsExclusiveCell(d, P, me, e))
    && (forall e :: e in col.shared <==> IsSharedCell(d, P, me, e))
    && (forall e :: e in col.ghosts <==> IsGhostCell(d, P, me, LocalSize(d, P, me), e))
    && info == Summary(col)
  }

  /** One row: adds the ghosts it reveals and returns the ranks it touches. */
  method ScanRow(dist: seq<nat>, P: nat, me: nat, row: seq<nat>, ghosts: seq<EntityInfo>, owners: set<nat>)
    returns (ghosts': seq<EntityInfo>, sharedRanks: set<nat>, owners': set<nat>)
    requires IsDistribution(dist, P) && forall j :: 0 <= j < |row| ==> row[j] < dist[P]
    requires owners == Owners(ghosts)
    ensures owners' == Owners(ghosts')
    ensures sharedRanks == OtherRanks(dist, P, me, row)
    ensures forall e :: e in ghosts' <==> e in ghosts || IsGhostOf(dist, P, me, row, e)
  {
    ghosts', sharedRanks, owners' := ghosts, {}, owners;
    var j := 0;
    while j < |row|
      invariant 0 <= j <= |row|
      invariant forall k :: 0 <= k < j ==> row[k] < dist[P]
      invariant sharedRanks == OtherRanks(dist, P, me, row[..j])
      invariant owners' == Owners(ghosts')
      invariant forall e :: e in ghosts' <==> e in ghosts || IsGhostOf(dist, P, me, row[..j], e)
    {
      var neighbor := row[j];
      var rank := RankOwner(dist, P, neighbor);
      RanksOneMore(dist, P, me, row, j);
      if rank != me {
        var e := EntityInfo(neighbor, rank, neighbor - dist[rank], {me});
        if e !in ghosts' {
          OwnersSnoc(ghosts', e);
          ghosts', owners' := ghosts' + [e], owners' + {rank};
        }
        sharedRanks := sharedRanks + {rank};
      }
      j := j + 1;
    }
    assert row[..j] == row;
  }

  lemma RanksOneMore(dist: seq<nat>, P: nat, me: nat, row: seq<nat>, j: nat)
    requires IsDistribution(dist, P) && j < |row| && forall k :: 0 <= k < |row| ==> row[k] < dist[P]
    ensures row[..j + 1] == row[..j] + [row[j]]
    ensures OtherRanks(dist, P, me, row[..j + 1]) == OtherRanks(dist, P, me, row[..j]) +
      if Owner(dist, P, row[j]) != me then {Owner(dist, P, row[j])} else {}
  {
    var o := Owner(dist, P, row[j]);
    forall s
      ensures s in OtherRanks(dist, P, me, row[..j + 1]) <==>
        s in OtherRanks(dist, P, me, row[..j]) || (o != me && s == o)
    {
      if k :| 0 <= k < j && Owner(dist, P, row[..j][k]) == s && s != me {
        assert row[..j + 1][k] == row[k];
      }
      if o != me { assert row[..j + 1][j] == row[j]; }
    }
  }

  ghost predicate Classified(d: Dcrs, P: nat, me: nat, upto: nat, ex: seq<EntityInfo>, sh: seq<EntityInfo>,
        gh: seq<EntityInfo>)
    requires ValidDcrs(d, P, me)
  {
    CellsDone(d, P, me, upto, ex, sh) && forall e :: e in gh <==> IsGhostCell(d, P, me, upto, e)
  }

  method ScanCell(d: Dcrs, P: nat, me: nat, localId: nat, ex: seq<EntityInfo>, sh: seq<EntityInfo>, gh: seq<EntityInfo>,
        users: set<nat>, owners: set<nat>)
    returns (ex': seq<EntityInfo>, sh': seq<EntityInfo>, gh': seq<EntityInfo>, users': set<nat>, owners': set<nat>)
    requires ValidDcrs(d, P, me) && localId < LocalSize(d, P, me)
    requires Classified(d, P, me, localId, ex, sh, gh) && users == Users(sh) && owners == Owners(gh)
    ensures Classified(d, P, me, localId + 1, ex', sh', gh') && users' == Users(sh') && owners' == Owners(gh')
  {
    var row := d.crs.Row(localId);
    var globalId := d.distribution[me] + localId;
    var ranks;
    gh', ranks, owners' := ScanRow(d.distribution, P, me, row, gh, owners);
    ex', sh', users' := ex, sh, users;
    if ranks == {} {
      ex' := ex + [EntityInfo(globalId, me, localId, {})];
    } else {
      UsersSnoc(sh, EntityInfo(globalId, me, localId, ranks));
      sh' := sh + [EntityInfo(globalId, me, localId, ranks)];
      users' := users + ranks;
    }
    CellsOneMore(d, P, me, localId, ex, sh, ranks);
    GhostsOneMore(d, P, me, localId, gh, gh');
  }

  ghost predicate CellsDone(d: Dcrs, P: nat, me: nat, upto: nat, ex: seq<EntityInfo>, sh: seq<EntityInfo>)
    requires ValidDcrs(d, P, me)
  {
    && (forall e :: e in ex <==> IsExclusiveCell(d, P, me, e) && e.offset < upto)
    && (forall e :: e in sh <==> IsSharedCell(d, P, me, e) && e.offset < upto)
  }

  lemma CellsOneMore(d: Dcrs, P: nat, me: nat, localId: nat, ex: seq<EntityInfo>, sh: seq<EntityInfo>, ranks: set<nat>)
    requires ValidDcrs(d, P, me) && localId < LocalSize(d, P, me) && CellsDone(d, P, me, localId, ex, sh)
    requires ranks == OtherRanks(d.distribution, P, me, d.crs.Row(localId))
    ensures
      var e := EntityInfo(d.distribution[me] + localId, me, localId, ranks);
      if ranks == {} then CellsDone(d, P, me, localId + 1, ex + [e], sh)
        else CellsDone(d, P, me, localId + 1, ex, sh + [e])
  {
    var x := EntityInfo(d.distribution[me] + localId, me, localId, ranks);
    forall e | (IsExclusiveCell(d, P, me, e) || IsSharedCell(d, P, me, e)) && e.offset == localId ensures e == x {}
  }

  lemma GhostsOneMore(d: Dcrs, P: nat, me: nat, localId: nat, gh: seq<EntityInfo>, gh': seq<EntityInfo>)
    requires ValidDcrs(d, P, me) && localId < LocalSize(d, P, me)
    requires forall e :: e in gh <==> IsGhostCell(d, P, me, localId, e)
    requires forall e :: e in gh' <==> e in gh || IsGhostOf(d.distribution, P, me, d.crs.Row(localId), e)
    ensures forall e :: e in gh' <==> IsGhostCell(d, P, me, localId + 1, e)
  {
    var next := localId + 1;
    forall e ensures e in gh' <==> IsGhostCell(d, P, me, next, e) {
      if i :| 0 <= i < next && IsGhostOf(d.distribution, P, me, d.crs.Row(i), e) {
        assert i < localId ==> IsGhostCell(d, P, me, localId, e);
      }
    }
  }

  method GetOwnerInfo(d: Dcrs, P: nat, me: nat) returns (col: IndexColoring, info: ColoringInfo)
    requires ValidDcrs(d, P, me)
    ensures IsOwnerInfo(d, P, me, col, info)
  {
    var ex: seq<EntityInfo>, sh: seq<EntityInfo>, gh: seq<EntityInfo> := [], [], [];
    var users: set<nat>, owners: set<nat> := {}, {};
    var n := LocalSize(d, P, me);
    var localId := 0;
    while localId < n
      invariant 0 <= localId <= n
      invariant Classified(d, P, me, localId, ex, sh, gh) && users == Users(sh) && owners == Owners(gh)
    {
      ex, sh, gh, users, owners := ScanCell(d, P, me, localId, ex, sh, gh, users, owners);
      localId := localId + 1;
    }
    GhostIdsDetermine(d, P, me, gh);
    ghost var sh0, gh0 := sh, gh;
    ex := RemoveUnique(ex);
    sh := RemoveUnique(sh);
    gh := RemoveUnique(gh);
    col := IndexColoring(ex, sh, gh);
    info := ColoringInfo(|ex|, |sh|, |gh|, users, owners);
    assert Users(sh0) == Users(sh) && Owners(gh0) == Owners(gh);
  }

  lemma GhostIdsDetermine(d: Dcrs, P: nat, me: nat, gh: seq<EntityInfo>)
    requires ValidDcrs(d, P, me) && forall e :: e in gh ==> IsGhostCell(d, P, me, LocalSize(d, P, me), e)
    ensures IdsDetermine(gh)
  {
    forall e | e in gh ensures e.id < d.distribution[P] && e == GhostInfo(d.distribution, P, me, e.id) {}
  }

  // ----- the joint result -----------------------------------------------------------

  /** All ranks hold their rows of one graph over the same distribution. */
  ghost predicate ValidGraph(ds: seq<Dcrs>) {
    forall r :: 0 <= r < |ds| ==> ValidDcrs(ds[r], |ds|, r) && ds[r].distribution == ds[0].distribution
  }

  /** Global cell a lists global cell b. */
  ghost predicate Edge(ds: seq<Dcrs>, a: nat, b: nat)
    requires ValidGraph(ds)
  {
    exists r :: 0 <= r < |ds| && HoldsEdge(ds[r], |ds|, r, a, b)
  }

  ghost predicate HoldsEdge(d: Dcrs, P: nat, me: nat, a: nat, b: nat)
    requires ValidDcrs(d, P, me)
  {
    d.distribution[me] <= a < d.distribution[me + 1] && b in d.crs.Row(a - d.distribution[me])
  }

  ghost predicate Symmetric(ds: seq<Dcrs>)
    requires ValidGraph(ds)
  {
    forall a: nat, b: nat :: Edge(ds, a, b) ==> Edge(ds, b, a)
  }

  ghost predicate AllOwnerInfo(ds: seq<Dcrs>, cols: seq<IndexColoring>, infos: seq<ColoringInfo>)
    requires ValidGraph(ds)
  {
    |cols| == |infos| == |ds| && forall r :: 0 <= r < |ds| ==> IsOwnerInfo(ds[r], |ds|, r, cols[r], infos[r])
  }

  lemma EdgeOwner(ds: seq<Dcrs>, r: nat, a: nat, b: nat)
    requires ValidGraph(ds) && r < |ds| && Edge(ds, a, b) && Owns(ds[0].distribution, a, r)
    ensures HoldsEdge(ds[r], |ds|, r, a, b)
  {
    var q :| 0 <= q < |ds| && HoldsEdge(ds[q], |ds|, q, a, b);
    OwnerUnique(ds[0].distribution, a, q, r);
  }

  /** r's cell a has s among its other ranks exactly when some edge leads to s. */
  lemma OtherRankIsEdge(d: Dcrs, P: nat, me: nat, a: nat, s: nat)
    requires ValidDcrs(d, P, me) && d.distribution[me] <= a < d.distribution[me + 1]
    ensures s in OtherRanks(d.distribution, P, me, d.crs.Row(a - d.distribution[me])) <==>
      s != me && exists b: nat :: HoldsEdge(d, P, me, a, b) && b < d.distribution[P] && Owner(d.distribution, P, b) == s
  {
    var row := d.crs.Row(a - d.distribution[me]);
    if s in OtherRanks(d.distribution, P, me, row) {
      var j :| 0 <= j < |row| && Owner(d.distribution, P, row[j]) == s;
      assert HoldsEdge(d, P, me, a, row[j]);
    }
    if b: nat :| HoldsEdge(d, P, me, a, b) && b < d.distribution[P] && Owner(d.distribution, P, b) == s {
      var j :| 0 <= j < |row| && row[j] == b;
    }
  }

  lemma GhostIsEdge(d: Dcrs, P: nat, me: nat, e: EntityInfo)
    requires ValidDcrs(d, P, me)
    ensures IsGhostCell(d, P, me, LocalSize(d, P, me), e) <==>
      e.id < d.distribution[P] && Owner(d.distribution, P, e.id) != me && e == GhostInfo(d.distribution, P, me, e.id) &&
      exists a: nat :: HoldsEdge(d, P, me, a, e.id)
  {
    var start := d.distribution[me];
    if IsGhostCell(d, P, me, LocalSize(d, P, me), e) {
      var i :| 0 <= i < LocalSize(d, P, me) && IsGhostOf(d.distribution, P, me, d.crs.Row(i), e);
      assert HoldsEdge(d, P, me, start + i, e.id);
    }
    if e.id < d.distribution[P] && Owner(d.distribution, P, e.id) != me && e == GhostInfo(d.distribution, P, me, e.id) {
      if a: nat :| HoldsEdge(d, P, me, a, e.id) {
        assert IsGhostOf(d.distribution, P, me, d.crs.Row(a - start), e);
      }
    }
  }

  /** Some edge leads from cell g into rank s. */
  ghost predicate EdgeInto(ds: seq<Dcrs>, g: nat, s: nat)
    requires ValidGraph(ds) && |ds| > 0
  {
    ValidDcrs(ds[0], |ds|, 0) &&
    exists b: nat :: Edge(ds, g, b) && b < ds[0].distribution[|ds|] && Owner(ds[0].distribution, |ds|, b) == s
  }

  lemma SharesIffRow(d: Dcrs, P: nat, r: nat, col: IndexColoring, info: ColoringInfo, g: nat, offset: nat, s: nat)
    requires ValidDcrs(d, P, r) && IsOwnerInfo(d, P, r, col, info)
    ensures SharesWith(col, r, g, offset, s) <==>
      offset < LocalSize(d, P, r) && g == d.distribution[r] + offset &&
      s in OtherRanks(d.distribution, P, r, d.crs.Row(offset))
  {
    if offset < LocalSize(d, P, r) && g == d.distribution[r] + offset {
      var e := EntityInfo(g, r, offset, OtherRanks(d.distribution, P, r, d.crs.Row(offset)));
      assert e.shared != {} ==> e in col.shared;
    }
  }

  /** The two sides of the halo, both in terms of graph edges. */
  lemma SharesIffEdge(ds: seq<Dcrs>, col: IndexColoring, info: ColoringInfo, r: nat, g: nat, offset: nat, s: nat)
    requires ValidGraph(ds) && r < |ds| && IsOwnerInfo(ds[r], |ds|, r, col, info)
    ensures SharesWith(col, r, g, offset, s) <==>
      Owns(ds[r].distribution, g, r) && offset == g - ds[r].distribution[r] && s != r && EdgeInto(ds, g, s)
  {
    var P, dist := |ds|, ds[0].distribution;
    assert ValidDcrs(ds[r], P, r) && ValidDcrs(ds[0], P, 0);
    SharesIffRow(ds[r], P, r, col, info, g, offset, s);
    if Owns(dist, g, r) {
      OtherRankIsEdge(ds[r], P, r, g, s);
      if b: nat :| HoldsEdge(ds[r], P, r, g, b) && b < dist[P] && Owner(dist, P, b) == s {
        assert Edge(ds, g, b);
      }
      if b: nat :| Edge(ds, g, b) && b < dist[P] && Owner(dist, P, b) == s {
        EdgeOwner(ds, r, g, b);
      }
    }
  }

  lemma SeesIffEdge(ds: seq<Dcrs>, col: IndexColoring, info: ColoringInfo, s: nat, g: nat, r: nat, offset: nat)
    requires ValidGraph(ds) && s < |ds| && IsOwnerInfo(ds[s], |ds|, s, col, info)
    ensures SeesGhost(col, g, r, offset, {s}) <==>
      Owns(ds[s].distribution, g, r) && offset == g - ds[s].distribution[r] && s != r &&
      exists a: nat :: Owns(ds[s].distribution, a, s) && Edge(ds, a, g)
  {
    var P, dist := |ds|, ds[0].distribution;
    assert ValidDcrs(ds[s], P, s);
    var e := EntityInfo(g, r, offset, {s});
    GhostIsEdge(ds[s], P, s, e);
    if SeesGhost(col, g, r, offset, {s}) {
      var a: nat :| HoldsEdge(ds[s], P, s, a, g);
      assert Owns(dist, a, s) && Edge(ds, a, g);
    }
    if Owns(dist, g, r) && offset == g - dist[r] && s != r {
      assert dist[r + 1] <= dist[P];
      OwnerUnique(dist, g, r, Owner(dist, P, g));
      if a: nat :| Owns(dist, a, s) && Edge(ds, a, g) {
        EdgeOwner(ds, s, a, g);
      }
    }
  }

  /** Halo duality: s is a sharer of cell g on rank r exactly when s lists g as a
      ghost with owner r and r's local id. */
  lemma HaloDual(ds: seq<Dcrs>, cols: seq<IndexColoring>, infos: seq<ColoringInfo>, r: nat, s: nat, g: nat, offset: nat)
    requires ValidGraph(ds) && Symmetric(ds) && AllOwnerInfo(ds, cols, infos) && r < |ds| && s < |ds|
    ensures SharesWith(cols[r], r, g, offset, s) <==> SeesGhost(cols[s], g, r, offset, {s})
  {
    var P, dist := |ds|, ds[0].distribution;
    assert ValidDcrs(ds[0], P, 0);
    SharesIffEdge(ds, cols[r], infos[r], r, g, offset, s);
    SeesIffEdge(ds, cols[s], infos[s], s, g, r, offset);
    if EdgeInto(ds, g, s) {
      var b: nat :| Edge(ds, g, b) && b < dist[P] && Owner(dist, P, b) == s;
      assert Owns(dist, b, s) && Edge(ds, b, g);
    }
    if a: nat :| Owns(dist, a, s) && Edge(ds, a, g) {
      assert dist[s + 1] <= dist[P];
      OwnerUnique(dist, a, s, Owner(dist, P, a));
      assert Edge(ds, g, a);
    }
  }

  /** Users and owners are converse: s uses cells of r exactly when s counts r
      among the owners of its ghosts. */
  lemma UsersOwnersConverse(ds: seq<Dcrs>, cols: seq<IndexColoring>, infos: seq<ColoringInfo>, r: nat, s: nat)
    requires ValidGraph(ds) && Symmetric(ds) && AllOwnerInfo(ds, cols, infos) && r < |ds| && s < |ds|
    ensures s in infos[r].sharedUsers <==> r in infos[s].ghostOwners
  {
    if s in infos[r].sharedUsers {
      var e :| e in cols[r].shared && s in e.shared;
      assert IsSharedCell(ds[r], |ds|, r, e);
      assert SharesWith(cols[r], r, e.id, e.offset, s);
      HaloDual(ds, cols, infos, r, s, e.id, e.offset);
    }
    if r in infos[s].ghostOwners {
      var e :| e in cols[s].ghosts && e.rank == r;
      GhostIsEdge(ds[s], |ds|, s, e);
      assert e == EntityInfo(e.id, r, e.offset, {s});
      HaloDual(ds, cols, infos, r, s, e.id, e.offset);
      var f :| f in cols[r].shared && f.id == e.id && s in f.shared;
      assert s in Users(cols[r].shared);
    }
  }

  // ----- the lists and the summary, in terms of the graph ---------------------------------------

  /** An edge leads from cell a to a cell of rank s. */
  ghost predicate Reaches(ds: seq<Dcrs>, a: nat, s: nat)
    requires ValidGraph(ds) && |ds| > 0
  {
    exists b: nat :: Owns(ds[0].distribution, b, s) && Edge(ds, a, b)
  }

  /** Cell g is reached from a cell of rank s. */
  ghost predicate ReachedFrom(ds: seq<Dcrs>, g: nat, s: nat)
    requires ValidGraph(ds) && |ds| > 0
  {
    exists a: nat :: Owns(ds[0].distribution, a, s) && Edge(ds, a, g)
  }

  /** Cell g is cell l of rank r. */
  ghost predicate LocalCell(ds: seq<Dcrs>, r: nat, l: nat, g: nat)
    requires |ds| > 0
  {
    Owns(ds[0].distribution, g, r) && g == ds[0].distribution[r] + l
  }

  lemma ReachesIsInto(ds: seq<Dcrs>, g: nat, s: nat)
    requires ValidGraph(ds) && s < |ds|
    ensures Reaches(ds, g, s) <==> EdgeInto(ds, g, s)
  {
    var P, dist := |ds|, ds[0].distribution;
    assert ValidDcrs(ds[0], P, 0);
    if b: nat :| Owns(dist, b, s) && Edge(ds, g, b) {
      assert dist[s + 1] <= dist[P];
      OwnerUnique(dist, b, s, Owner(dist, P, b));
    }
    if b: nat :| Edge(ds, g, b) && b < dist[P] && Owner(dist, P, b) == s { assert Owns(dist, b, s); }
  }

  lemma OthersReached(ds: seq<Dcrs>, r: nat, a: nat, s: nat)
    requires ValidGraph(ds) && r < |ds| && Owns(ds[0].distribution, a, r)
    ensures s in OtherRanks(ds[r].distribution, |ds|, r, ds[r].crs.Row(a - ds[r].distribution[r])) <==>
      s < |ds| && s != r && Reaches(ds, a, s)
  {
    var P, dist := |ds|, ds[r].distribution;
    assert ValidDcrs(ds[r], P, r) && ValidDcrs(ds[0], P, 0);
    OtherRankIsEdge(ds[r], P, r, a, s);
    if s < P { ReachesIsInto(ds, a, s); }
    if b: nat :| HoldsEdge(ds[r], P, r, a, b) && b < dist[P] && Owner(dist, P, b) == s { assert Edge(ds, a, b); }
    if b: nat :| Edge(ds, a, b) && b < dist[P] && Owner(dist, P, b) == s { EdgeOwner(ds, r, a, b); }
  }

  /** A cell is shared by its rank with the other ranks that its edges lead to. */
  lemma SharedCellMeans(ds: seq<Dcrs>, col: IndexColoring, info: ColoringInfo, r: nat, e: EntityInfo)
    requires ValidGraph(ds) && r < |ds| && IsOwnerInfo(ds[r], |ds|, r, col, info)
    ensures e in col.shared <==>
      e.rank == r && LocalCell(ds, r, e.offset, e.id) && e.shared != {} &&
      forall s: nat :: s in e.shared <==> s < |ds| && s != r && Reaches(ds, e.id, s)
    ensures e in col.exclusive <==>
      e.rank == r && LocalCell(ds, r, e.offset, e.id) && e.shared == {} &&
      forall s: nat :: s < |ds| && s != r ==> !Reaches(ds, e.id, s)
  {
    var P, dist := |ds|, ds[r].distribution;
    assert ValidDcrs(ds[r], P, r) && ValidDcrs(ds[0], P, 0) && dist == ds[0].distribution;
    assert e in col.shared <==> IsSharedCell(ds[r], P, r, e);
    assert e in col.exclusive <==> IsExclusiveCell(ds[r], P, r, e);
    if LocalCell(ds, r, e.offset, e.id) { AllOthersReached(ds, r, e.id, e.offset); }
  }

  lemma AllOthersReached(ds: seq<Dcrs>, r: nat, a: nat, l: nat)
    requires ValidGraph(ds) && r < |ds| && LocalCell(ds, r, l, a)
    ensures l < LocalSize(ds[r], |ds|, r)
    ensures forall s: nat :: s in OtherRanks(ds[r].distribution, |ds|, r, ds[r].crs.Row(l)) <==>
      s < |ds| && s != r && Reaches(ds, a, s)
  {
    forall s: nat
      ensures s in OtherRanks(ds[r].distribution, |ds|, r, ds[r].crs.Row(l)) <==> s < |ds| && s != r && Reaches(ds, a, s)
    {
      OthersReached(ds, r, a, s);
    }
  }

  /** A ghost is a cell of another rank that an edge leads to, with its place there. */
  lemma GhostCellMeans(ds: seq<Dcrs>, col: IndexColoring, info: ColoringInfo, s: nat, e: EntityInfo)
    requires ValidGraph(ds) && s < |ds| && IsOwnerInfo(ds[s], |ds|, s, col, info)
    ensures e in col.ghosts <==>
      e.rank != s && LocalCell(ds, e.rank, e.offset, e.id) && ReachedFrom(ds, e.id, s) && e.shared == {s}
  {
    assert ValidDcrs(ds[s], |ds|, s);
    if e in col.ghosts { GhostIsEdge(ds[s], |ds|, s, e); }
    if e.shared == {s} {
      SeesIffEdge(ds, col, info, s, e.id, e.rank, e.offset);
      assert e == EntityInfo(e.id, e.rank, e.offset, {s});
    }
  }

  /** The users of r's cells and the owners of its ghosts are the other ranks that an edge leads
      to. */
  lemma CellSummaryMeans(ds: seq<Dcrs>, col: IndexColoring, info: ColoringInfo, r: nat, s: nat)
    requires ValidGraph(ds) && r < |ds| && IsOwnerInfo(ds[r], |ds|, r, col, info)
    ensures s in info.sharedUsers <==>
      s < |ds| && s != r && exists a: nat :: Owns(ds[0].distribution, a, r) && Reaches(ds, a, s)
    ensures s in info.ghostOwners <==>
      s != r && exists g: nat :: Owns(ds[0].distribution, g, s) && ReachedFrom(ds, g, r)
  {
    var dist := ds[0].distribution;
    forall e ensures e in col.shared && s in e.shared ==>
      s < |ds| && s != r && Owns(dist, e.id, r) && Reaches(ds, e.id, s)
    {
      SharedCellMeans(ds, col, info, r, e);
    }
    forall e ensures e in col.ghosts ==> e.rank != r && Owns(dist, e.id, e.rank) && ReachedFrom(ds, e.id, r) {
      GhostCellMeans(ds, col, info, r, e);
    }
    if s < |ds| && s != r {
      if a: nat :| Owns(dist, a, r) && Reaches(ds, a, s) {
        ReachesIsInto(ds, a, s);
        assert ds[r].distribution == dist;
        SharesIffEdge(ds, col, info, r, a, a - dist[r], s);
        var e :| e in col.shared && e.id == a && s in e.shared;
      }
    }
    if s != r {
      if g: nat :| Owns(dist, g, s) && ReachedFrom(ds, g, r) {
        var e := EntityInfo(g, s, g - dist[s], {r});
        GhostCellMeans(ds, col, info, r, e);
        assert e in col.ghosts;
      }
    }
  }

  /** The sizes count the cells without an edge to another rank, those with one, and the cells
      of other ranks that an edge leads to. */
  lemma CellSizesMean(ds: seq<Dcrs>, col: IndexColoring, info: ColoringInfo, r: nat, exclusive: set<nat>,
        shared: set<nat>, ghosts: set<nat>)
    requires ValidGraph(ds) && r < |ds| && IsOwnerInfo(ds[r], |ds|, r, col, info)
    requires forall g :: g in exclusive <==> Owns(ds[0].distribution, g, r) && !LeavesRank(ds, g, r)
    requires forall g :: g in shared <==> Owns(ds[0].distribution, g, r) && LeavesRank(ds, g, r)
    requires forall g :: g in ghosts <==>
      ReachedFrom(ds, g, r) && exists q: nat :: q != r && Owns(ds[0].distribution, g, q)
    ensures info.exclusive == |exclusive| && info.shared == |shared| && info.ghosts == |ghosts|
  {
    forall g
      ensures g in exclusive <==> Lists(col.exclusive, g)
      ensures g in shared <==> Lists(col.shared, g)
      ensures g in ghosts <==> Lists(col.ghosts, g)
    {
      CellsListed(ds, col, info, r, g);
    }
    ListedIds(col.exclusive, exclusive);
    ListedIds(col.shared, shared);
    ListedIds(col.ghosts, ghosts);
  }

  ghost predicate LeavesRank(ds: seq<Dcrs>, g: nat, r: nat)
    requires ValidGraph(ds) && |ds| > 0
  {
    exists s: nat :: s < |ds| && s != r && Reaches(ds, g, s)
  }

  lemma CellsListed(ds: seq<Dcrs>, col: IndexColoring, info: ColoringInfo, r: nat, g: nat)
    requires ValidGraph(ds) && r < |ds| && IsOwnerInfo(ds[r], |ds|, r, col, info)
    ensures Lists(col.exclusive, g) <==> Owns(ds[0].distribution, g, r) && !LeavesRank(ds, g, r)
    ensures Lists(col.shared, g) <==> Owns(ds[0].distribution, g, r) && LeavesRank(ds, g, r)
    ensures Lists(col.ghosts, g) <==>
      ReachedFrom(ds, g, r) && exists q: nat :: q != r && Owns(ds[0].distribution, g, q)
  {
    var dist := ds[0].distribution;
    forall e ensures e in col.exclusive ==> Owns(dist, e.id, r) && !LeavesRank(ds, e.id, r)
      ensures e in col.shared ==> Owns(dist, e.id, r) && LeavesRank(ds, e.id, r)
    {
      SharedCellMeans(ds, col, info, r, e);
      if e in col.shared { var s :| s in e.shared; }
    }
    forall e ensures e in col.ghosts ==> e.rank != r && Owns(dist, e.id, e.rank) && ReachedFrom(ds, e.id, r) {
      GhostCellMeans(ds, col, info, r, e);
    }
    if Owns(dist, g, r) {
      var all := OtherRanks(ds[r].distribution, |ds|, r, ds[r].crs.Row(g - ds[r].distribution[r]));
      var e := EntityInfo(g, r, g - dist[r], all);
      assert IsSharedCell(ds[r], |ds|, r, e) || IsExclusiveCell(ds[r], |ds|, r, e);
      assert e in col.shared || e in col.exclusive;
    }
    if q: nat :| q != r && Owns(dist, g, q) && ReachedFrom(ds, g, r) {
      var e := EntityInfo(g, q, g - dist[q], {r});
      GhostCellMeans(ds, col, info, r, e);
      assert e in col.ghosts;
    }
  }
}
