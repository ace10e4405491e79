/** Renumbering shared entities by position, and telling every ghost the new position
    of its owner. Messages carry positions only: the two sides agree because both
    lists are sorted by id and the halo is dual. */
module RemapShared {
  import opened Base
  import opened Coloring
  import opened ColorSpec
  import Halo
  import OwnerInfo

  /** Positions of the entries shared with peer, in order. */
  ghost function Positions(shared: seq<EntityInfo>, peer: nat): seq<nat> {
    if shared == [] then []
    else
      var k := |shared| - 1;
      Positions(shared[..k], peer) + if peer in shared[k].shared then [k] else []
  }

  /** Positions of the ghosts owned by rank, in order. */
  ghost function Sources(ghosts: seq<EntityInfo>, rank: nat): seq<nat> {
    if ghosts == [] then []
    else
      var k := |ghosts| - 1;
      Sources(ghosts[..k], rank) + if ghosts[k].rank == rank then [k] else []
  }

  lemma {:induction false} PositionsAre(shared: seq<EntityInfo>, peer: nat)
    ensures StrictlyAscending(Positions(shared, peer))
    ensures forall i: nat :: i in Positions(shared, peer) <==> i < |shared| && peer in shared[i].shared
  {
    if shared != [] {
      var k := |shared| - 1;
      PositionsAre(shared[..k], peer);
      AscendingSnoc(Positions(shared[..k], peer), k);
    }
  }

  lemma {:induction false} SourcesAre(ghosts: seq<EntityInfo>, rank: nat)
    ensures StrictlyAscending(Sources(ghosts, rank))
    ensures forall i: nat :: i in Sources(ghosts, rank) <==> i < |ghosts| && ghosts[i].rank == rank
  {
    if ghosts != [] {
      var k := |ghosts| - 1;
      SourcesAre(ghosts[..k], rank);
      AscendingSnoc(Sources(ghosts[..k], rank), k);
    }
  }

  lemma {:induction false} SourcesPrefix(ghosts: seq<EntityInfo>, j: nat, rank: nat)
    requires j <= |ghosts|
    ensures Sources(ghosts[..j], rank) <= Sources(ghosts, rank)
    ensures j < |ghosts| && ghosts[j].rank == rank ==>
      |Sources(ghosts[..j], rank)| < |Sources(ghosts, rank)| && Sources(ghosts, rank)[|Sources(ghosts[..j], rank)|] == j
    decreases |ghosts| - j
  {
    if j < |ghosts| {
      assert ghosts[..j + 1][..j] == ghosts[..j];
      SourcesPrefix(ghosts, j + 1, rank);
    } else {
      assert ghosts[..j] == ghosts;
    }
  }

  // ----- what the ranks must agree on before -----------------------------------------------

  ghost predicate ListsShared(col: IndexColoring, g: nat, s: nat) {
    exists e :: e in col.shared && e.id == g && s in e.shared
  }

  ghost predicate ListsGhost(col: IndexColoring, g: nat, r: nat) {
    exists e :: e in col.ghosts && e.id == g && e.rank == r
  }

  /** Both lists sorted by id, nothing shared with or received from oneself. */
  ghost predicate RankReady(col: IndexColoring, me: nat, P: nat) {
    AscendingIds(col.shared) && AscendingIds(col.ghosts) &&
    (forall e, s :: e in col.shared && s in e.shared ==> s < P && s != me) &&
    forall e :: e in col.ghosts ==> e.rank < P && e.rank != me
  }

  ghost predicate Ready(cols: seq<IndexColoring>) {
    (forall r :: 0 <= r < |cols| ==> RankReady(cols[r], r, |cols|)) &&
    forall r, s, g :: 0 <= r < |cols| && 0 <= s < |cols| ==> (ListsShared(cols[r], g, s) <==> ListsGhost(cols[s], g, r))
  }

  ghost function IdsAt(es: seq<EntityInfo>, at: seq<nat>): (ids: seq<nat>)
    requires forall k :: 0 <= k < |at| ==> at[k] < |es|
    ensures |ids| == |at| && forall k :: 0 <= k < |at| ==> ids[k] == es[at[k]].id
  {
    seq(|at|, k requires 0 <= k < |at| => es[at[k]].id)
  }

  lemma InRange(at: seq<nat>, n: nat)
    requires forall i: nat :: i in at ==> i < n
    ensures forall k :: 0 <= k < |at| ==> at[k] < n
  {
    assert forall k :: 0 <= k < |at| ==> at[k] in at;
  }

  /** Sender and receiver enumerate the same ids in the same order. */
  lemma SidesAgree(cols: seq<IndexColoring>, r: nat, s: nat)
    requires Ready(cols) && r < |cols| && s < |cols|
    ensures
      var send, take := Positions(cols[r].shared, s), Sources(cols[s].ghosts, r);
      |send| == |take| &&
      forall k :: 0 <= k < |send| ==>
        send[k] < |cols[r].shared| && take[k] < |cols[s].ghosts| &&
        cols[r].shared[send[k]].id == cols[s].ghosts[take[k]].id
  {
    var sh, gh := cols[r].shared, cols[s].ghosts;
    var send, take := Positions(sh, s), Sources(gh, r);
    PositionsAre(sh, s);
    SourcesAre(gh, r);
    InRange(send, |sh|);
    InRange(take, |gh|);
    assert RankReady(cols[r], r, |cols|) && RankReady(cols[s], s, |cols|);
    forall g ensures g in IdsAt(sh, send) <==> ListsShared(cols[r], g, s) {
      SentIds(cols[r], s, g);
    }
    forall g ensures g in IdsAt(gh, take) <==> ListsGhost(cols[s], g, r) {
      TakenIds(cols[s], r, g);
    }
    AscendingUnique(IdsAt(sh, send), IdsAt(gh, take));
  }

  lemma SentIds(col: IndexColoring, s: nat, g: nat)
    ensures
      var send := Positions(col.shared, s);
      (forall k :: 0 <= k < |send| ==> send[k] < |col.shared|) &&
      (g in IdsAt(col.shared, send) <==> ListsShared(col, g, s))
  {
    var send := Positions(col.shared, s);
    PositionsAre(col.shared, s);
    InRange(send, |col.shared|);
    if g in IdsAt(col.shared, send) {
      var k :| 0 <= k < |send| && col.shared[send[k]].id == g;
      assert send[k] in send;
      assert col.shared[send[k]] in col.shared;
    }
    if e :| e in col.shared && e.id == g && s in e.shared {
      var i: nat :| i < |col.shared| && col.shared[i] == e;
      assert i in send;
      var k :| 0 <= k < |send| && send[k] == i;
      assert IdsAt(col.shared, send)[k] == g;
    }
  }

  lemma TakenIds(col: IndexColoring, r: nat, g: nat)
    ensures
      var take := Sources(col.ghosts, r);
      (forall k :: 0 <= k < |take| ==> take[k] < |col.ghosts|) &&
      (g in IdsAt(col.ghosts, take) <==> ListsGhost(col, g, r))
  {
    var take := Sources(col.ghosts, r);
    SourcesAre(col.ghosts, r);
    InRange(take, |col.ghosts|);
    if g in IdsAt(col.ghosts, take) {
      var k :| 0 <= k < |take| && col.ghosts[take[k]].id == g;
      assert take[k] in take;
      assert col.ghosts[take[k]] in col.ghosts;
    }
    if e :| e in col.ghosts && e.id == g && e.rank == r {
      var i: nat :| i < |col.ghosts| && col.ghosts[i] == e;
      assert i in take;
      var k :| 0 <= k < |take| && take[k] == i;
      assert IdsAt(col.ghosts, take)[k] == g;
    }
  }

  // ----- one rank ---------------------------------------------------------------------------

  ghost predicate Renumbered(shared: seq<EntityInfo>, shared': seq<EntityInfo>) {
    |shared'| == |shared| &&
    forall i :: 0 <= i < |shared| ==> shared'[i] == EntityInfo(shared[i].id, shared[i].rank, i, shared[i].shared)
  }

  /** Positions per peer, and the shared list renumbered by position. */
  method GatherPositions(shared: seq<EntityInfo>, P: nat) returns (sends: seq<seq<nat>>, shared': seq<EntityInfo>)
    requires AscendingIds(shared) && forall e, s :: e in shared && s in e.shared ==> s < P
    ensures |sends| == P && forall s :: 0 <= s < P ==> sends[s] == Positions(shared, s)
    ensures Renumbered(shared, shared')
  {
    sends := seq(P, _ => []);
    var list: seq<EntityInfo> := [];
    var index := 0;
    while index < |shared|
      invariant 0 <= index <= |shared| && |sends| == P
      invariant forall s :: 0 <= s < P ==> sends[s] == Positions(shared[..index], s)
      invariant Renumbered(shared[..index], list)
    {
      var e := shared[index];
      assert shared[..index + 1][..index] == shared[..index];
      sends := AppendForAll(sends, e.shared, index);
      list := list + [EntityInfo(e.id, e.rank, index, e.shared)];
      index := index + 1;
    }
    assert shared[..index] == shared;
    assert AscendingIds(list);
    AscendingIdsDetermine(list);
    shared' := RemoveUnique(list);
    AscendingIdsUnique(shared', list);
  }

  method AppendForAll(sends: seq<seq<nat>>, peers: set<nat>, index: nat) returns (sends': seq<seq<nat>>)
    requires forall s :: s in peers ==> s < |sends|
    ensures |sends'| == |sends|
    ensures forall s :: 0 <= s < |sends| ==> sends'[s] == sends[s] + if s in peers then [index] else []
  {
    sends' := sends;
    var order := Ascending(peers);
    var i := 0;
    while i < |order|
      invariant 0 <= i <= |order| && |sends'| == |sends|
      invariant forall s :: 0 <= s < |sends| ==> sends'[s] == sends[s] + if s in order[..i] then [index] else []
    {
      NextElement(order, i);
      sends' := sends'[order[i] := sends'[order[i]] + [index]];
      i := i + 1;
    }
    assert order[..i] == order;
  }

  /** How many positions are expected from every rank. */
  method CountSources(ghosts: seq<EntityInfo>, P: nat) returns (counts: seq<nat>)
    requires forall e :: e in ghosts ==> e.rank < P
    ensures |counts| == P && forall r :: 0 <= r < P ==> counts[r] == |Sources(ghosts, r)|
  {
    counts := seq(P, _ => 0);
    var j := 0;
    while j < |ghosts|
      invariant 0 <= j <= |ghosts| && |counts| == P
      invariant forall r :: 0 <= r < P ==> counts[r] == |Sources(ghosts[..j], r)|
    {
      assert ghosts[..j + 1][..j] == ghosts[..j];
      assert ghosts[j] in ghosts;
      counts := counts[ghosts[j].rank := counts[ghosts[j].rank] + 1];
      j := j + 1;
    }
    assert ghosts[..j] == ghosts;
  }

  /** The k-th ghost of a rank takes the k-th position that rank sent. */
  ghost predicate Placed(ghosts: seq<EntityInfo>, recv: seq<seq<nat>>, j: nat, e: EntityInfo)
    requires j < |ghosts|
  {
    var k := |Sources(ghosts[..j], ghosts[j].rank)|;
    ghosts[j].rank < |recv| && k < |recv[ghosts[j].rank]| &&
    e == EntityInfo(ghosts[j].id, ghosts[j].rank, recv[ghosts[j].rank][k], {})
  }

  method PlaceGhosts(ghosts: seq<EntityInfo>, P: nat, recv: seq<seq<nat>>) returns (ghosts': seq<EntityInfo>)
    requires AscendingIds(ghosts) && |recv| == P
    requires forall e :: e in ghosts ==> e.rank < P
    requires forall r :: 0 <= r < P ==> |recv[r]| == |Sources(ghosts, r)|
    ensures |ghosts'| == |ghosts| && forall j :: 0 <= j < |ghosts| ==> Placed(ghosts, recv, j, ghosts'[j])
  {
    var counts := seq(P, _ => 0);
    var list: seq<EntityInfo> := [];
    var j := 0;
    while j < |ghosts|
      invariant 0 <= j <= |ghosts| && |counts| == P && |list| == j
      invariant forall r :: 0 <= r < P ==> counts[r] == |Sources(ghosts[..j], r)|
      invariant forall i :: 0 <= i < j ==> Placed(ghosts, recv, i, list[i])
    {
      var e := ghosts[j];
      assert e in ghosts;
      assert ghosts[..j + 1][..j] == ghosts[..j];
      SourcesPrefix(ghosts, j, e.rank);
      list := list + [EntityInfo(e.id, e.rank, recv[e.rank][counts[e.rank]], {})];
      counts := counts[e.rank := counts[e.rank] + 1];
      j := j + 1;
    }
    assert AscendingIds(list);
    AscendingIdsDetermine(list);
    ghosts' := RemoveUnique(list);
    AscendingIdsUnique(ghosts', list);
  }

  // ----- all ranks ----------------------------------------------------------------------------

  /** Ghost e of rank s now carries the position, in its owner's shared list, of the
      entry with the same id. */
  ghost predicate PointsToOwner(cols: seq<IndexColoring>, e: EntityInfo) {
    e.rank < |cols| && e.offset < |cols[e.rank].shared| && cols[e.rank].shared[e.offset].id == e.id
  }

  ghost predicate Remapped(cols: seq<IndexColoring>, cols': seq<IndexColoring>) {
    |cols'| == |cols| &&
    forall r :: 0 <= r < |cols| ==>
      cols'[r].exclusive == cols[r].exclusive &&
      Renumbered(cols[r].shared, cols'[r].shared) &&
      |cols'[r].ghosts| == |cols[r].ghosts| &&
      forall j :: 0 <= j < |cols[r].ghosts| ==>
        cols'[r].ghosts[j].id == cols[r].ghosts[j].id && cols'[r].ghosts[j].rank == cols[r].ghosts[j].rank &&
        PointsToOwner(cols', cols'[r].ghosts[j])
  }

  method RemapAll(cols: seq<IndexColoring>) returns (cols': seq<IndexColoring>)
    requires Ready(cols)
    ensures Remapped(cols, cols')
  {
    var P := |cols|;
    var sends: seq<seq<seq<nat>>> := [];
    var shareds: seq<seq<EntityInfo>> := [];
    var r := 0;
    while r < P
      invariant 0 <= r <= P && |sends| == |shareds| == r
      invariant forall q :: 0 <= q < r ==> |sends[q]| == P && Renumbered(cols[q].shared, shareds[q])
      invariant forall q, s :: 0 <= q < r && 0 <= s < P ==> sends[q][s] == Positions(cols[q].shared, s)
    {
      assert RankReady(cols[r], r, P);
      var out, sh := GatherPositions(cols[r].shared, P);
      sends, shareds, r := sends + [out], shareds + [sh], r + 1;
    }
    var ghosts: seq<seq<EntityInfo>> := [];
    r := 0;
    while r < P
      invariant 0 <= r <= P && |ghosts| == r
      invariant forall q :: 0 <= q < r ==> GhostsPlaced(cols, q, ghosts[q])
    {
      assert RankReady(cols[r], r, P);
      var counts := CountSources(cols[r].ghosts, P);
      var recv := seq(P, q requires 0 <= q < P => sends[q][r]);
      forall q | 0 <= q < P ensures |recv[q]| == counts[q] {
        SidesAgree(cols, q, r);  // every receive is posted with the length that arrives
      }
      var gh := PlaceGhosts(cols[r].ghosts, P, recv);
      PlacedPointsToOwner(cols, r, recv, gh);
      ghosts, r := ghosts + [gh], r + 1;
    }
    cols' := seq(P, q requires 0 <= q < P => IndexColoring(cols[q].exclusive, shareds[q], ghosts[q]));
    forall q | 0 <= q < P ensures GhostsPlaced(cols, q, cols'[q].ghosts) {}
  }

  ghost predicate GhostPlaced(cols: seq<IndexColoring>, e: EntityInfo, e': EntityInfo) {
    e'.id == e.id && e'.rank == e.rank && PointsToOwner(cols, e')
  }

  ghost predicate GhostsPlaced(cols: seq<IndexColoring>, s: nat, gh: seq<EntityInfo>) {
    s < |cols| && |gh| == |cols[s].ghosts| &&
    forall j :: 0 <= j < |gh| ==> GhostPlaced(cols, cols[s].ghosts[j], gh[j])
  }

  lemma PlacedPointsToOwner(cols: seq<IndexColoring>, s: nat, recv: seq<seq<nat>>, gh: seq<EntityInfo>)
    requires Ready(cols) && s < |cols| && |recv| == |cols|
    requires forall r :: 0 <= r < |cols| ==> recv[r] == Positions(cols[r].shared, s)
    requires |gh| == |cols[s].ghosts| && forall j :: 0 <= j < |gh| ==> Placed(cols[s].ghosts, recv, j, gh[j])
    ensures GhostsPlaced(cols, s, gh)
  {
    forall j | 0 <= j < |gh| ensures GhostPlaced(cols, cols[s].ghosts[j], gh[j]) {
      var r := cols[s].ghosts[j].rank;
      SourcesPrefix(cols[s].ghosts, j, r);
      SidesAgree(cols, r, s);
    }
  }

  /** A colored index space is ready to be remapped. */
  lemma ColoredIsReady(ins: seq<RankInput>, cols: seq<IndexColoring>, infos: seq<ColoringInfo>)
    requires ValidInputs(ins) && Halo.AllColored(ins, cols, infos)
    ensures Ready(cols)
  {
    forall r | 0 <= r < |cols| ensures RankReady(cols[r], r, |cols|) {
      ColoredRankReady(ins, cols, infos, r);
    }
    forall r, s, g | 0 <= r < |cols| && 0 <= s < |cols|
      ensures ListsShared(cols[r], g, s) <==> ListsGhost(cols[s], g, r)
    {
      if e :| e in cols[r].shared && e.id == g && s in e.shared {
        assert IsSharedEntry(ins, r, e);
        assert SharesWith(cols[r], r, g, e.offset, s);
        Halo.EntityHaloDual(ins, cols, infos, r, s, g, e.offset);
      }
      if e :| e in cols[s].ghosts && e.id == g && e.rank == r {
        assert IsGhostEntry(ins, s, e);
        assert e == EntityInfo(g, r, e.offset, {});
        Halo.EntityHaloDual(ins, cols, infos, r, s, g, e.offset);
      }
    }
  }

  lemma ColoredRankReady(ins: seq<RankInput>, cols: seq<IndexColoring>, infos: seq<ColoringInfo>, r: nat)
    requires ValidInputs(ins) && Halo.AllColored(ins, cols, infos) && r < |cols|
    ensures RankReady(cols[r], r, |cols|)
  {
    forall e, s | e in cols[r].shared && s in e.shared ensures s < |cols| && s != r {
      assert IsSharedEntry(ins, r, e);
    }
    forall e | e in cols[r].ghosts ensures e.rank < |cols| && e.rank != r {
      assert IsGhostEntry(ins, r, e);
    }
  }

  /** So are the cells themselves. */
  lemma CellsAreReady(ds: seq<OwnerInfo.Dcrs>, cols: seq<IndexColoring>, infos: seq<ColoringInfo>)
    requires OwnerInfo.ValidGraph(ds) && OwnerInfo.Symmetric(ds) && OwnerInfo.AllOwnerInfo(ds, cols, infos)
    ensures Ready(cols)
  {
    forall r | 0 <= r < |cols| ensures RankReady(cols[r], r, |cols|) {
      forall e, s | e in cols[r].shared && s in e.shared ensures s < |cols| && s != r {
        assert OwnerInfo.IsSharedCell(ds[r], |ds|, r, e);
      }
      forall e | e in cols[r].ghosts ensures e.rank < |cols| && e.rank != r {
        OwnerInfo.GhostIsEdge(ds[r], |ds|, r, e);
      }
    }
    forall r, s, g | 0 <= r < |cols| && 0 <= s < |cols|
      ensures ListsShared(cols[r], g, s) <==> ListsGhost(cols[s], g, r)
    {
      if e :| e in cols[r].shared && e.id == g && s in e.shared {
        assert OwnerInfo.IsSharedCell(ds[r], |ds|, r, e);
        assert SharesWith(cols[r], r, g, e.offset, s);
        OwnerInfo.HaloDual(ds, cols, infos, r, s, g, e.offset);
      }
      if e :| e in cols[s].ghosts && e.id == g && e.rank == r {
        OwnerInfo.GhostIsEdge(ds[s], |ds|, s, e);
        assert e == EntityInfo(g, r, e.offset, {s});
        OwnerInfo.HaloDual(ds, cols, infos, r, s, g, e.offset);
      }
    }
  }
}
