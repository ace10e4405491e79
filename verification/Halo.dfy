/** What a colored index space guarantees across ranks. */
module Halo {
  import opened Coloring
  import opened Directory
  import opened ColorSpec

  ghost predicate AllColored(ins: seq<RankInput>, cols: seq<IndexColoring>, infos: seq<ColoringInfo>)
    requires ValidInputs(ins)
  {
    |cols| == |infos| == |ins| && forall r :: 0 <= r < |ins| ==> IsColoring(ins, r, cols[r], infos[r])
  }

  /** Halo duality, for every rank, id and local id. */
  lemma EntityHaloDual(ins: seq<RankInput>, cols: seq<IndexColoring>, infos: seq<ColoringInfo>, r: nat, s: nat, g: nat,
        offset: nat)
    requires ValidInputs(ins) && AllColored(ins, cols, infos) && r < |ins| && s < |ins|
    ensures SharesWith(cols[r], r, g, offset, s) <==> SeesGhost(cols[s], g, r, offset, {})
  {
    var claims, wants := AllClaims(ins), AllWants(ins);
    var x := EntityInfo(g, r, offset, {});
    assert x in cols[s].ghosts <==> IsGhostEntry(ins, s, x);
    if SharesWith(cols[r], r, g, offset, s) {
      var e :| e in cols[r].shared && e.id == g && e.rank == r && e.offset == offset && s in e.shared;
      assert IsSharedEntry(ins, r, e);
      assert s in Sharers(ins, g);
    }
    if SeesGhost(cols[s], g, r, offset, {}) {
      assert IsOwner(claims, g, r) && s in Sharers(ins, g);
      var e := EntityInfo(g, r, offset, Sharers(ins, g));
      assert IsSharedEntry(ins, r, e);
      assert e in cols[r].shared;
    }
  }

  /** No entity is owned twice: neither by two ranks nor twice by one. */
  lemma SharedOnce(ins: seq<RankInput>, cols: seq<IndexColoring>, infos: seq<ColoringInfo>, r: nat, s: nat,
        e: EntityInfo, f: EntityInfo)
    requires ValidInputs(ins) && AllColored(ins, cols, infos) && r < |ins| && s < |ins|
    requires e in cols[r].shared && f in cols[s].shared && e.id == f.id
    ensures r == s && e == f && IsOwner(AllClaims(ins), e.id, r)
  {
    assert IsSharedEntry(ins, r, e) && IsSharedEntry(ins, s, f);
    OwnerIsUnique(AllClaims(ins), e.id, r, s);
  }

  /** Users and owners are converse. */
  lemma EntityUsersOwnersConverse(ins: seq<RankInput>, cols: seq<IndexColoring>, infos: seq<ColoringInfo>, r: nat,
        s: nat)
    requires ValidInputs(ins) && AllColored(ins, cols, infos) && r < |ins| && s < |ins|
    ensures s in infos[r].sharedUsers <==> r in infos[s].ghostOwners
  {
    if s in infos[r].sharedUsers {
      var e :| e in cols[r].shared && s in e.shared;
      assert IsSharedEntry(ins, r, e);
      assert SharesWith(cols[r], r, e.id, e.offset, s);
      EntityHaloDual(ins, cols, infos, r, s, e.id, e.offset);
      assert r in Owners(cols[s].ghosts);
    }
    if r in infos[s].ghostOwners {
      var e :| e in cols[s].ghosts && e.rank == r;
      assert IsGhostEntry(ins, s, e);
      assert e == EntityInfo(e.id, r, e.offset, {});
      EntityHaloDual(ins, cols, infos, r, s, e.id, e.offset);
      var f :| f in cols[r].shared && f.id == e.id && s in f.shared;
      assert s in Users(cols[r].shared);
    }
  }

  // ----- nothing is lost ----------------------------------------------------------------

  /** Local cell i of rank r uses g. */
  ghost predicate Uses(ins: seq<RankInput>, r: nat, i: nat, g: nat)
    requires ValidInputs(ins) && r < |ins|
  {
    assert ValidInput(ins[r], |ins|);
    i < ins[r].cells2entity.Size() && g in CellEntities(ins[r], i)
  }

  ghost predicate SharesCell(inp: RankInput, i: nat, s: nat) {
    exists k :: 0 <= k < |inp.cells.shared| && inp.cells.shared[k].offset == i && s in inp.cells.shared[k].shared
  }

  /** Two cells of different ranks with a common entity are neighbours, so that each
      is shared with the other's rank. */
  ghost predicate EntitiesFollowCells(ins: seq<RankInput>)
    requires ValidInputs(ins)
  {
    forall r, s, i: nat, j: nat, g ::
      0 <= r < |ins| && 0 <= s < |ins| && r != s && Uses(ins, r, i, g) && Uses(ins, s, j, g) ==>
      SharesCell(ins[r], i, s)
  }

  /** A rank numbers only entities of its own cells. */
  ghost predicate NumbersUsed(ins: seq<RankInput>)
    requires ValidInputs(ins)
  {
    forall r, g :: 0 <= r < |ins| && g in ins[r].local2global ==> exists i: nat :: Uses(ins, r, i, g)
  }

  ghost predicate UsesSome(ins: seq<RankInput>, r: nat, g: nat)
    requires ValidInputs(ins) && r < |ins|
  {
    exists i: nat :: Uses(ins, r, i, g)
  }

  lemma UsedIsLocal(ins: seq<RankInput>, r: nat, g: nat) returns (l: nat)
    requires ValidInputs(ins) && r < |ins| && UsesSome(ins, r, g)
    ensures l < |ins[r].local2global| && ins[r].local2global[l] == g
  {
    var i: nat :| Uses(ins, r, i, g);
    var row := ins[r].cells2entity.Row(i);
    var j :| 0 <= j < |row| && CellEntities(ins[r], i)[j] == g;
    assert forall k :: 0 <= k < |row| ==> row[k] in ins[r].cells2entity.indices;
    l := row[j];
  }

  lemma ClaimIsUse(ins: seq<RankInput>, r: nat, g: nat)
    requires ValidInputs(ins) && r < |ins| && Claims(ins[r], |ins|, g)
    ensures UsesSome(ins, r, g)
  {
    var k: nat :| SharedCellHas(ins[r], |ins|, k, g);
    assert SharedCellOk(ins[r], k, |ins|);
    assert Uses(ins, r, ins[r].cells.shared[k].offset, g);
  }

  /** Two ranks that both use g share it both ways. */
  lemma BothWays(ins: seq<RankInput>, r: nat, s: nat, g: nat)
    requires ValidInputs(ins) && EntitiesFollowCells(ins) && r < |ins| && s < |ins| && r != s
    requires UsesSome(ins, r, g) && UsesSome(ins, s, g)
    ensures Claims(ins[r], |ins|, g) && Sends(ins[r], |ins|, s, g) && PotentialGhost(ins, s, g)
  {
    var i: nat :| Uses(ins, r, i, g);
    var j: nat :| Uses(ins, s, j, g);
    assert SharesCell(ins[r], i, s);
    var k :| 0 <= k < |ins[r].cells.shared| && ins[r].cells.shared[k].offset == i && s in ins[r].cells.shared[k].shared;
    assert SharedCellOk(ins[r], k, |ins|);
    assert SharedCellHas(ins[r], |ins|, k, g);
  }

  lemma SentIsUsed(ins: seq<RankInput>, s: nat, g: nat) returns (r: nat)
    requires ValidInputs(ins) && PotentialGhost(ins, s, g)
    ensures r < |ins| && r != s && Claims(ins[r], |ins|, g) && UsesSome(ins, r, g)
  {
    r := GhostIsClaimed(ins, s, g);
    ClaimIsUse(ins, r, g);
  }

  lemma ListsExclusive(ins: seq<RankInput>, r: nat, col: IndexColoring, info: ColoringInfo, g: nat)
    requires ValidInputs(ins) && r < |ins| && IsColoring(ins, r, col, info)
    ensures Lists(col.exclusive, g) <==> g in ins[r].local2global && !Claims(ins[r], |ins|, g)
  {
    if g in ins[r].local2global && !Claims(ins[r], |ins|, g) {
      var l :| 0 <= l < |ins[r].local2global| && ins[r].local2global[l] == g;
      assert IsExclusiveEntry(ins, r, EntityInfo(g, r, l, {}));
    }
  }

  lemma ListsShared(ins: seq<RankInput>, r: nat, col: IndexColoring, info: ColoringInfo, g: nat)
    requires ValidInputs(ins) && r < |ins| && IsColoring(ins, r, col, info)
    ensures Lists(col.shared, g) <==> IsOwner(AllClaims(ins), g, r)
  {
    var claims := AllClaims(ins);
    if IsOwner(claims, g, r) {
      assert IsSharedEntry(ins, r, EntityInfo(g, r, claims[r][g], Sharers(ins, g)));
    }
  }

  lemma ListsGhost(ins: seq<RankInput>, r: nat, col: IndexColoring, info: ColoringInfo, g: nat)
    requires ValidInputs(ins) && r < |ins| && IsColoring(ins, r, col, info)
    ensures Lists(col.ghosts, g) <==> IsSharer(AllClaims(ins), AllWants(ins), g, r)
  {
    var claims, wants := AllClaims(ins), AllWants(ins);
    if IsSharer(claims, wants, g, r) {
      var o := SharerHasOwner(ins, r, g);
      var e := EntityInfo(g, o, claims[o][g], {});
      assert e in col.ghosts <==> IsGhostEntry(ins, r, e);
    }
  }

  lemma SharerHasOwner(ins: seq<RankInput>, r: nat, g: nat) returns (o: nat)
    requires ValidInputs(ins) && r < |ins| && IsSharer(AllClaims(ins), AllWants(ins), g, r)
    ensures IsOwner(AllClaims(ins), g, o)
  {
    WantedIds(ins, r, g);
    var q := GhostIsClaimed(ins, r, g);
    ClaimMapKeys(ins[q], |ins|, g);
    o := OwnerFrom(AllClaims(ins), g, q);
  }

  /** Membership in the three lists of rank r, in terms of the inputs. */
  lemma ListsMean(ins: seq<RankInput>, cols: seq<IndexColoring>, infos: seq<ColoringInfo>, r: nat, g: nat)
    requires ValidInputs(ins) && AllColored(ins, cols, infos) && r < |ins|
    ensures Lists(cols[r].exclusive, g) <==> g in ins[r].local2global && !Claims(ins[r], |ins|, g)
    ensures Lists(cols[r].shared, g) <==> IsOwner(AllClaims(ins), g, r)
    ensures Lists(cols[r].ghosts, g) <==> IsSharer(AllClaims(ins), AllWants(ins), g, r)
  {
    ListsExclusive(ins, r, cols[r], infos[r], g);
    ListsShared(ins, r, cols[r], infos[r], g);
    ListsGhost(ins, r, cols[r], infos[r], g);
  }

  /** A rank that holds g, through its own cells or a ghost cell, lists it under
      exactly one heading. */
  lemma ListedOnce(ins: seq<RankInput>, cols: seq<IndexColoring>, infos: seq<ColoringInfo>, r: nat, g: nat)
    requires ValidInputs(ins) && AllColored(ins, cols, infos) && r < |ins|
    requires EntitiesFollowCells(ins) && NumbersUsed(ins)
    requires UsesSome(ins, r, g) || PotentialGhost(ins, r, g)
    ensures Lists(cols[r].exclusive, g) || Lists(cols[r].shared, g) || Lists(cols[r].ghosts, g)
    ensures !(Lists(cols[r].exclusive, g) && Lists(cols[r].shared, g))
    ensures !(Lists(cols[r].exclusive, g) && Lists(cols[r].ghosts, g))
    ensures !(Lists(cols[r].shared, g) && Lists(cols[r].ghosts, g))
  {
    ListsMean(ins, cols, infos, r, g);
    ClaimMapKeys(ins[r], |ins|, g);
    WantedIds(ins, r, g);
    if PotentialGhost(ins, r, g) {
      if g in ins[r].local2global {
        var s := SentIsUsed(ins, r, g);
        BothWays(ins, r, s, g);
      }
    } else {
      var l := UsedIsLocal(ins, r, g);
      if Claims(ins[r], |ins|, g) {
        var o := OwnerFrom(AllClaims(ins), g, r);
        if o != r {
          ClaimMapKeys(ins[o], |ins|, g);
          ClaimIsUse(ins, o, g);
          BothWays(ins, o, r, g);
        }
      }
    }
  }

  // ----- the lists and the summary, in terms of the inputs ----------------------------------

  /** The lowest rank that claims g, and no other, is r. */
  ghost predicate LowestClaim(ins: seq<RankInput>, g: nat, r: nat)
    requires ValidInputs(ins)
  {
    r < |ins| && Claims(ins[r], |ins|, g) && forall q :: 0 <= q < r ==> !Claims(ins[q], |ins|, g)
  }

  lemma OwnerIsLowest(ins: seq<RankInput>, g: nat, r: nat)
    requires ValidInputs(ins)
    ensures IsOwner(AllClaims(ins), g, r) <==> LowestClaim(ins, g, r)
  {
    forall q: nat | q < |ins| ensures ClaimedBy(AllClaims(ins), q, g) <==> Claims(ins[q], |ins|, g) {
      ClaimMapKeys(ins[q], |ins|, g);
    }
  }

  lemma SharerMeans(ins: seq<RankInput>, g: nat, r: nat, s: nat)
    requires ValidInputs(ins) && LowestClaim(ins, g, r)
    ensures IsSharer(AllClaims(ins), AllWants(ins), g, s) <==> s < |ins| && s != r && PotentialGhost(ins, s, g)
  {
    OwnerIsLowest(ins, g, r);
    OwnerIsLowest(ins, g, s);
    if s < |ins| { WantedIds(ins, s, g); }
  }

  /** Local id l of rank r stands for g. */
  ghost predicate LocalId(ins: seq<RankInput>, r: nat, l: nat, g: nat) {
    r < |ins| && l < |ins[r].local2global| && ins[r].local2global[l] == g
  }

  lemma LocalIdIsClaim(ins: seq<RankInput>, r: nat, l: nat, g: nat)
    requires ValidInputs(ins) && r < |ins| && Claims(ins[r], |ins|, g)
    ensures g in AllClaims(ins)[r] && (LocalId(ins, r, l, g) <==> l == AllClaims(ins)[r][g])
  {
    ClaimMapKeys(ins[r], |ins|, g);
    assert ValidInput(ins[r], |ins|);
  }

  /** An entity is shared by the lowest rank that claims it, under that rank's local id, with
      the other ranks that see it through one of their ghost cells. */
  lemma SharedMeans(ins: seq<RankInput>, cols: seq<IndexColoring>, infos: seq<ColoringInfo>, r: nat, e: EntityInfo)
    requires ValidInputs(ins) && AllColored(ins, cols, infos) && r < |ins|
    ensures e in cols[r].shared <==>
      e.rank == r && LowestClaim(ins, e.id, r) && LocalId(ins, r, e.offset, e.id) &&
      forall s: nat :: s in e.shared <==> s < |ins| && s != r && PotentialGhost(ins, s, e.id)
  {
    assert e in cols[r].shared <==> IsSharedEntry(ins, r, e);
    OwnerIsLowest(ins, e.id, r);
    if LowestClaim(ins, e.id, r) {
      LocalIdIsClaim(ins, r, e.offset, e.id);
      forall s: nat ensures s in Sharers(ins, e.id) <==> s < |ins| && s != r && PotentialGhost(ins, s, e.id) {
        SharerMeans(ins, e.id, r, s);
      }
    }
  }

  /** It is a ghost on those other ranks, which know the owner and the owner's local id. */
  lemma GhostMeans(ins: seq<RankInput>, cols: seq<IndexColoring>, infos: seq<ColoringInfo>, s: nat, e: EntityInfo)
    requires ValidInputs(ins) && AllColored(ins, cols, infos) && s < |ins|
    ensures e in cols[s].ghosts <==>
      e.rank != s && LowestClaim(ins, e.id, e.rank) && LocalId(ins, e.rank, e.offset, e.id) &&
      PotentialGhost(ins, s, e.id) && e.shared == {}
  {
    assert e in cols[s].ghosts <==> IsGhostEntry(ins, s, e);
    OwnerIsLowest(ins, e.id, e.rank);
    if LowestClaim(ins, e.id, e.rank) {
      LocalIdIsClaim(ins, e.rank, e.offset, e.id);
      SharerMeans(ins, e.id, e.rank, s);
    }
  }

  /** What nobody claims is exclusive. */
  lemma ExclusiveMeans(ins: seq<RankInput>, cols: seq<IndexColoring>, infos: seq<ColoringInfo>, r: nat,
        e: EntityInfo)
    requires ValidInputs(ins) && AllColored(ins, cols, infos) && r < |ins|
    ensures e in cols[r].exclusive <==>
      e.rank == r && LocalId(ins, r, e.offset, e.id) && !Claims(ins[r], |ins|, e.id) && e.shared == {}
  {
    assert e in cols[r].exclusive <==> IsExclusiveEntry(ins, r, e);
  }

  /** The users of r are the ranks that see an entity it owns, its owners those that own an
      entity it sees. */
  lemma UsersAndOwnersMean(ins: seq<RankInput>, cols: seq<IndexColoring>, infos: seq<ColoringInfo>, r: nat, s: nat)
    requires ValidInputs(ins) && AllColored(ins, cols, infos) && r < |ins|
    ensures s in infos[r].sharedUsers <==>
      s < |ins| && s != r && exists g :: LowestClaim(ins, g, r) && PotentialGhost(ins, s, g)
    ensures s in infos[r].ghostOwners <==>
      s != r && exists g :: LowestClaim(ins, g, s) && PotentialGhost(ins, r, g)
  {
    forall e ensures e in cols[r].shared && s in e.shared ==>
      s < |ins| && s != r && LowestClaim(ins, e.id, r) && PotentialGhost(ins, s, e.id)
    {
      SharedMeans(ins, cols, infos, r, e);
    }
    forall e ensures e in cols[r].ghosts ==>
      e.rank != r && LowestClaim(ins, e.id, e.rank) && PotentialGhost(ins, r, e.id)
    {
      GhostMeans(ins, cols, infos, r, e);
    }
    if s < |ins| && s != r {
      if g :| LowestClaim(ins, g, r) && PotentialGhost(ins, s, g) {
        SharedFor(ins, cols, infos, r, s, g);
      }
      if g :| LowestClaim(ins, g, s) && PotentialGhost(ins, r, g) {
        SharedFor(ins, cols, infos, s, r, g);
      }
    }
  }

  lemma SharedFor(ins: seq<RankInput>, cols: seq<IndexColoring>, infos: seq<ColoringInfo>, r: nat, s: nat, g: nat)
    requires ValidInputs(ins) && AllColored(ins, cols, infos) && r < |ins| && s < |ins| && r != s
    requires LowestClaim(ins, g, r) && PotentialGhost(ins, s, g)
    ensures s in infos[r].sharedUsers && r in infos[s].ghostOwners
  {
    LocalIdIsClaim(ins, r, 0, g);
    var l := AllClaims(ins)[r][g];
    LocalIdIsClaim(ins, r, l, g);
    var x := EntityInfo(g, r, l, {});
    GhostMeans(ins, cols, infos, s, x);
    assert x in cols[s].ghosts;
    EntityUsersOwnersConverse(ins, cols, infos, r, s);
  }

  /** The sizes count what a rank numbers but does not claim, what it is the lowest to claim,
      and what it sees of other ranks. */
  lemma SizesMean(ins: seq<RankInput>, cols: seq<IndexColoring>, infos: seq<ColoringInfo>, r: nat, exclusive: set<nat>,
        shared: set<nat>, ghosts: set<nat>)
    requires ValidInputs(ins) && AllColored(ins, cols, infos) && r < |ins|
    requires forall g :: g in exclusive <==> g in ins[r].local2global && !Claims(ins[r], |ins|, g)
    requires forall g :: g in shared <==> LowestClaim(ins, g, r)
    requires forall g :: g in ghosts <==> PotentialGhost(ins, r, g) && !LowestClaim(ins, g, r)
    ensures infos[r].exclusive == |exclusive| && infos[r].shared == |shared| && infos[r].ghosts == |ghosts|
  {
    forall g
      ensures g in exclusive <==> Lists(cols[r].exclusive, g)
      ensures g in shared <==> Lists(cols[r].shared, g)
      ensures g in ghosts <==> Lists(cols[r].ghosts, g)
    {
      ListsMean(ins, cols, infos, r, g);
      OwnerIsLowest(ins, g, r);
      WantedIds(ins, r, g);
    }
    ListedIds(cols[r].exclusive, exclusive);
    ListedIds(cols[r].shared, shared);
    ListedIds(cols[r].ghosts, ghosts);
  }

  ghost predicate OwnedOn(col: IndexColoring, g: nat) {
    Lists(col.exclusive, g) || Lists(col.shared, g)
  }

  /** Every entity of some cell is owned, exclusively or shared, by some rank ... */
  lemma OwnedSomewhere(ins: seq<RankInput>, cols: seq<IndexColoring>, infos: seq<ColoringInfo>, r: nat, g: nat)
    returns (o: nat)
    requires ValidInputs(ins) && AllColored(ins, cols, infos) && r < |ins| && UsesSome(ins, r, g)
    ensures o < |ins| && OwnedOn(cols[o], g)
  {
    var l := UsedIsLocal(ins, r, g);
    ListsMean(ins, cols, infos, r, g);
    o := r;
    if Claims(ins[r], |ins|, g) {
      ClaimMapKeys(ins[r], |ins|, g);
      o := OwnerFrom(AllClaims(ins), g, r);
      ListsMean(ins, cols, infos, o, g);
    }
  }

  /** ... and by only one. */
  lemma OwnedNowhereElse(ins: seq<RankInput>, cols: seq<IndexColoring>, infos: seq<ColoringInfo>, r: nat, s: nat,
        g: nat)
    requires ValidInputs(ins) && AllColored(ins, cols, infos) && r < |ins| && s < |ins|
    requires EntitiesFollowCells(ins) && NumbersUsed(ins)
    requires OwnedOn(cols[r], g) && OwnedOn(cols[s], g)
    ensures r == s
  {
    OwnedIsUsed(ins, cols, infos, r, g);
    OwnedIsUsed(ins, cols, infos, s, g);
    ListsMean(ins, cols, infos, r, g);
    ListsMean(ins, cols, infos, s, g);
    if r != s {
      BothWays(ins, r, s, g);
      BothWays(ins, s, r, g);
    }
  }

  lemma OwnedIsUsed(ins: seq<RankInput>, cols: seq<IndexColoring>, infos: seq<ColoringInfo>, r: nat, g: nat)
    requires ValidInputs(ins) && AllColored(ins, cols, infos) && r < |ins| && NumbersUsed(ins) && OwnedOn(cols[r], g)
    ensures UsesSome(ins, r, g)
  {
    ListsMean(ins, cols, infos, r, g);
    ClaimMapKeys(ins[r], |ins|, g);
    if Claims(ins[r], |ins|, g) {
      ClaimIsUse(ins, r, g);
    }
  }
}
