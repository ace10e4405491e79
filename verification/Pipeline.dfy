/** From a partitioned mesh to its halo: all ranks build the cell graph, split their
    cells, and color their vertices. */
module Pipeline {
  import opened Base
  import opened Distribution
  import opened Coloring
  import opened Neighbors
  import opened CellGraph
  import opened ColorSpec
  import ColorEntities
  import OwnerInfo
  import Halo
  import RemapShared

  /** Every rank numbers its vertices once, and only vertices of its own cells. */
  ghost predicate ProperParts(parts: seq<MeshPart>) {
    ValidMesh(parts) && EachOnce(AllCells(parts)) && forall r :: 0 <= r < |parts| ==> ProperPart(parts[r])
  }

  ghost predicate ProperPart(m: MeshPart)
    requires ValidPart(m)
  {
    Distinct(m.local2global) &&
    forall v :: v in m.local2global ==> exists i: nat :: i < m.cells2vertex.Size() && v in GlobalRow(m, i)
  }

  /** The vertex-coloring input that follows from colored cells. */
  function VertexInputs(parts: seq<MeshPart>, cells: seq<IndexColoring>): (ins: seq<RankInput>)
    requires |parts| == |cells|
    ensures |ins| == |parts|
  {
    seq(|parts|, r requires 0 <= r < |parts| => RankInput(parts[r].cells2vertex, parts[r].local2global, cells[r]))
  }

  lemma InputValid(parts: seq<MeshPart>, ds: seq<OwnerInfo.Dcrs>, r: nat, col: IndexColoring, info: ColoringInfo)
    requires ProperParts(parts) && |ds| == |parts| && r < |parts|
    requires OwnerInfo.ValidDcrs(ds[r], |ds|, r) && NumbersCells(ds[r].distribution, parts)
    requires OwnerInfo.IsOwnerInfo(ds[r], |ds|, r, col, info)
    ensures ValidInput(RankInput(parts[r].cells2vertex, parts[r].local2global, col), |parts|)
    ensures ColorEntities.SharedElsewhere(col, r)
  {
    assert ProperPart(parts[r]);
    forall k | 0 <= k < |col.shared|
      ensures col.shared[k].offset < parts[r].cells2vertex.Size()
      ensures forall s :: s in col.shared[k].shared ==> s < |parts| && s != r
      ensures ColorEntities.OtherThan(col.shared[k].shared, r)
    {
      assert col.shared[k] in col.shared;
      assert OwnerInfo.IsSharedCell(ds[r], |ds|, r, col.shared[k]);
      var s :| s in col.shared[k].shared;
    }
  }

  /** One coloring entry per owned cell, sharing as the graph demands. */
  lemma SharedBySharing(col: IndexColoring, ins: seq<RankInput>, r: nat, g: nat, i: nat, s: nat)
    requires r < |ins| && ins[r].cells == col && SharesWith(col, r, g, i, s)
    ensures Halo.SharesCell(ins[r], i, s)
  {
    var e :| e in col.shared && e.id == g && e.rank == r && e.offset == i && s in e.shared;
    var k :| 0 <= k < |col.shared| && col.shared[k] == e;
  }

  /** Cells with a common vertex are neighbours in the vertex graph. */
  lemma CommonVertexIsEdge(cells: seq<seq<nat>>, a: nat, b: nat, v: nat)
    requires a < |cells| && b < |cells| && a != b && v in cells[a] && v in cells[b]
    ensures Adjacent(cells, 1, a, b)
  {
    assert v in ToSet(cells[a]) * ToSet(cells[b]);
  }

  ghost predicate CellsColored(parts: seq<MeshPart>, ds: seq<OwnerInfo.Dcrs>, cells: seq<IndexColoring>,
        infos: seq<ColoringInfo>)
    requires ValidMesh(parts)
  {
    |ds| == |parts| > 0 && HoldGraph(ds, GraphRows(AllCells(parts), 1)) && NumbersCells(ds[0].distribution, parts) &&
    OwnerInfo.AllOwnerInfo(ds, cells, infos)
  }

  lemma InputsValid(parts: seq<MeshPart>, ds: seq<OwnerInfo.Dcrs>, cells: seq<IndexColoring>, infos: seq<ColoringInfo>)
    requires ProperParts(parts) && CellsColored(parts, ds, cells, infos)
    ensures ValidInputs(VertexInputs(parts, cells)) && ColorEntities.SharersProper(VertexInputs(parts, cells))
  {
    var ins := VertexInputs(parts, cells);
    forall r | 0 <= r < |ins|
      ensures ValidInput(ins[r], |ins|)
      ensures ColorEntities.SharedElsewhere(ins[r].cells, r)
    {
      assert ds[r].distribution == ds[0].distribution;
      InputValid(parts, ds, r, cells[r], infos[r]);
    }
  }

  lemma CellEntitiesAreRow(parts: seq<MeshPart>, cells: seq<IndexColoring>, r: nat, i: nat)
    requires ValidMesh(parts) && |cells| == |parts| && r < |parts| && ValidInputs(VertexInputs(parts, cells))
    requires i < parts[r].cells2vertex.Size()
    ensures ValidInput(VertexInputs(parts, cells)[r], |parts|)
    ensures CellEntities(VertexInputs(parts, cells)[r], i) == GlobalRow(parts[r], i)
  {
    assert ValidInput(VertexInputs(parts, cells)[r], |parts|);
  }

  /** The condition under which coloring loses nothing holds for vertices. */
  lemma VerticesFollowCells(parts: seq<MeshPart>, ds: seq<OwnerInfo.Dcrs>, cells: seq<IndexColoring>,
        infos: seq<ColoringInfo>)
    requires ProperParts(parts) && CellsColored(parts, ds, cells, infos)
    requires ValidInputs(VertexInputs(parts, cells))
    ensures Halo.EntitiesFollowCells(VertexInputs(parts, cells))
  {
    var ins := VertexInputs(parts, cells);
    forall r, s, i: nat, j: nat, v | 0 <= r < |ins| && 0 <= s < |ins| && r != s && Halo.Uses(ins, r, i, v) &&
      Halo.Uses(ins, s, j, v)
      ensures Halo.SharesCell(ins[r], i, s)
    {
      CellEntitiesAreRow(parts, cells, r, i);
      CellEntitiesAreRow(parts, cells, s, j);
      VertexShared(parts, ds, cells, infos, r, s, i, j, v);
      SharedBySharing(cells[r], ins, r, ds[0].distribution[r] + i, i, s);
    }
  }

  lemma OwnersDiffer(dist: seq<nat>, a: nat, r: nat, b: nat, s: nat)
    requires Monotone(dist) && Owns(dist, a, r) && Owns(dist, b, s) && r != s
    ensures a != b
  {
    if a == b { Distribution.OwnerUnique(dist, a, r, s); }
  }

  /** Two cells of different ranks with a common vertex are neighbours in the graph. */
  lemma CellsAreNeighbors(parts: seq<MeshPart>, ds: seq<OwnerInfo.Dcrs>, cells: seq<IndexColoring>,
        infos: seq<ColoringInfo>, r: nat, s: nat, i: nat, j: nat, v: nat)
    requires ValidMesh(parts) && CellsColored(parts, ds, cells, infos) && r < |parts| && s < |parts| && r != s
    requires i < parts[r].cells2vertex.Size() && j < parts[s].cells2vertex.Size()
    requires v in GlobalRow(parts[r], i) && v in GlobalRow(parts[s], j)
    ensures OwnerInfo.EdgeInto(ds, ds[0].distribution[r] + i, s)
  {
    var all, dist := AllCells(parts), ds[0].distribution;
    var a: nat, b: nat := dist[r] + i, dist[s] + j;
    CellAt(dist, parts, r, i);
    CellAt(dist, parts, s, j);
    CellsLength(dist, parts, |parts|);
    OwnersDiffer(dist, a, r, b, s);
    CommonVertexIsEdge(all, a, b, v);
    EdgeIsAdjacency(ds, all, 1, a, b);
    Distribution.OwnerUnique(dist, b, s, Owner(dist, |ds|, b));
    assert OwnerInfo.ValidDcrs(ds[0], |ds|, 0);
  }

  lemma VertexShared(parts: seq<MeshPart>, ds: seq<OwnerInfo.Dcrs>, cells: seq<IndexColoring>, infos: seq<ColoringInfo>,
        r: nat, s: nat, i: nat, j: nat, v: nat)
    requires ValidMesh(parts) && CellsColored(parts, ds, cells, infos) && r < |parts| && s < |parts| && r != s
    requires i < parts[r].cells2vertex.Size() && j < parts[s].cells2vertex.Size()
    requires v in GlobalRow(parts[r], i) && v in GlobalRow(parts[s], j)
    ensures SharesWith(cells[r], r, ds[0].distribution[r] + i, i, s)
  {
    var dist := ds[0].distribution;
    var a: nat := dist[r] + i;
    CellsAreNeighbors(parts, ds, cells, infos, r, s, i, j, v);
    CellAt(dist, parts, r, i);
    CellsLength(dist, parts, |parts|);
    assert Owns(dist, a, r);
    assert OwnerInfo.ValidDcrs(ds[0], |ds|, 0) && ds[r].distribution == dist;
    OwnerInfo.SharesIffEdge(ds, cells[r], infos[r], r, a, i, s);
  }

  lemma VerticesUsed(parts: seq<MeshPart>, cells: seq<IndexColoring>)
    requires ProperParts(parts) && |cells| == |parts| && ValidInputs(VertexInputs(parts, cells))
    ensures Halo.NumbersUsed(VertexInputs(parts, cells))
  {
    var ins := VertexInputs(parts, cells);
    forall r, v | 0 <= r < |ins| && v in ins[r].local2global ensures exists i: nat :: Halo.Uses(ins, r, i, v) {
      assert ProperPart(parts[r]);
      var i: nat :| i < parts[r].cells2vertex.Size() && v in GlobalRow(parts[r], i);
      CellEntitiesAreRow(parts, cells, r, i);
      assert Halo.Uses(ins, r, i, v);
    }
  }

  // ----- the whole run ----------------------------------------------------------------------

  /** The cells' halo and the vertices' halo, with everything the lemmas of OwnerInfo
      and Halo need. */
  ghost predicate MeshColored(parts: seq<MeshPart>, ds: seq<OwnerInfo.Dcrs>, cells: seq<IndexColoring>,
        cellInfos: seq<ColoringInfo>, verts: seq<IndexColoring>, vertInfos: seq<ColoringInfo>)
  {
    ProperParts(parts) && CellsColored(parts, ds, cells, cellInfos) && OwnerInfo.Symmetric(ds) &&
    var ins := VertexInputs(parts, cells);
    ValidInputs(ins) && Halo.AllColored(ins, verts, vertInfos) && Halo.EntitiesFollowCells(ins) && Halo.NumbersUsed(ins)
  }

  method ColorMesh(parts: seq<MeshPart>, chunk: nat)
    returns (ds: seq<OwnerInfo.Dcrs>, cells: seq<IndexColoring>, cellInfos: seq<ColoringInfo>,
             verts: seq<IndexColoring>, vertInfos: seq<ColoringInfo>)
    requires |parts| > 0 && chunk > 0 && ProperParts(parts)
    ensures MeshColored(parts, ds, cells, cellInfos, verts, vertInfos)
  {
    ds := MakeDcrsDistributed(parts, 1, chunk);
    cells, cellInfos := [], [];
    var r := 0;
    while r < |ds|
      invariant 0 <= r <= |ds| && |cells| == |cellInfos| == r
      invariant forall q :: 0 <= q < r ==> OwnerInfo.IsOwnerInfo(ds[q], |ds|, q, cells[q], cellInfos[q])
    {
      var col, info := OwnerInfo.GetOwnerInfo(ds[r], |ds|, r);
      cells, cellInfos, r := cells + [col], cellInfos + [info], r + 1;
    }
    CellGraphSymmetric(ds, AllCells(parts), 1);
    InputsValid(parts, ds, cells, cellInfos);
    VerticesFollowCells(parts, ds, cells, cellInfos);
    VerticesUsed(parts, cells);
    verts, vertInfos := ColorEntities.ColorAll(VertexInputs(parts, cells), chunk);
  }

  /** After the run, every vertex of every cell is owned by exactly one rank. */
  lemma VertexOwnedOnce(parts: seq<MeshPart>, ds: seq<OwnerInfo.Dcrs>, cells: seq<IndexColoring>,
        cellInfos: seq<ColoringInfo>, verts: seq<IndexColoring>, vertInfos: seq<ColoringInfo>, c: nat, v: nat)
    returns (o: nat)
    requires MeshColored(parts, ds, cells, cellInfos, verts, vertInfos)
    requires c < |AllCells(parts)| && v in AllCells(parts)[c]
    ensures o < |parts| && Halo.OwnedOn(verts[o], v)
    ensures forall q :: 0 <= q < |parts| && Halo.OwnedOn(verts[q], v) ==> q == o
  {
    var ins := VertexInputs(parts, cells);
    var r, k := UsedSomewhere(parts, ds[0].distribution, c);
    CellEntitiesAreRow(parts, cells, r, k);
    assert Halo.Uses(ins, r, k, v);
    o := Halo.OwnedSomewhere(ins, verts, vertInfos, r, v);
    forall q | 0 <= q < |parts| && Halo.OwnedOn(verts[q], v) ensures q == o {
      Halo.OwnedNowhereElse(ins, verts, vertInfos, q, o, v);
    }
  }

  /** The run followed by the renumbering of cells and vertices: afterwards every ghost
      cell and ghost vertex points at its entry in the owner's shared list. */
  method ColorAndRemap(parts: seq<MeshPart>, chunk: nat)
    returns (cells: seq<IndexColoring>, verts: seq<IndexColoring>)
    requires |parts| > 0 && chunk > 0 && ProperParts(parts)
    ensures exists ds, cells0, cellInfos, verts0, vertInfos ::
      MeshColored(parts, ds, cells0, cellInfos, verts0, vertInfos) &&
      RemapShared.Remapped(cells0, cells) && RemapShared.Remapped(verts0, verts)
  {
    var ds, cells0, cellInfos, verts0, vertInfos := ColorMesh(parts, chunk);
    RemapShared.CellsAreReady(ds, cells0, cellInfos);
    RemapShared.ColoredIsReady(VertexInputs(parts, cells0), verts0, vertInfos);
    cells := RemapShared.RemapAll(cells0);
    verts := RemapShared.RemapAll(verts0);
    assert MeshColored(parts, ds, cells0, cellInfos, verts0, vertInfos);
  }
}
