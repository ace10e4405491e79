/** The distributed cell graph: built on one rank from the whole mesh, or by all
    ranks together from their parts; both give the same rows. */
module CellGraph {
  import opened Base
  import opened Distribution
  import opened Coloring
  import opened Directory
  import opened Neighbors
  import opened OwnerInfo
  import Incidence

  /** The graph of a mesh: for every cell the ascending list of its neighbours. */
  ghost function GraphRows(cells: seq<seq<nat>>, least: nat): (rows: seq<seq<nat>>)
    ensures |rows| == |cells|
    ensures forall c :: 0 <= c < |rows| ==> rows[c] == Ascending(NeighborSet(cells, least, c))
  {
    seq(|cells|, c requires 0 <= c => Ascending(NeighborSet(cells, least, c)))
  }

  lemma GraphRowsAreAdjacency(cells: seq<seq<nat>>, least: nat, a: nat, b: nat)
    ensures a < |cells| && b in GraphRows(cells, least)[a] <==> Adjacent(cells, least, a, b)
  {}

  ghost predicate HoldsRow(d: Dcrs, P: nat, me: nat, rows: seq<seq<nat>>, i: nat)
    requires ValidDcrs(d, P, me) && i < LocalSize(d, P, me)
  {
    d.distribution[me] + i < |rows| && d.crs.Row(i) == rows[d.distribution[me] + i]
  }

  /** d holds the block of rank me of the given rows. */
  ghost predicate HoldsRows(d: Dcrs, P: nat, me: nat, rows: seq<seq<nat>>) {
    ValidDcrs(d, P, me) && d.distribution[P] == |rows| &&
    forall i: nat :: i < LocalSize(d, P, me) ==> HoldsRow(d, P, me, rows, i)
  }

  /** All ranks together hold the rows. */
  ghost predicate HoldGraph(ds: seq<Dcrs>, rows: seq<seq<nat>>) {
    ValidGraph(ds) && forall r :: 0 <= r < |ds| ==> HoldsRows(ds[r], |ds|, r, rows)
  }

  // ----- stored rows ---------------------------------------------------------------------

  lemma StoredRowsBounded(crs: Crs, rows: seq<seq<nat>>, n: nat)
    requires StoresRows(crs, rows) && forall i, x :: 0 <= i < |rows| && x in rows[i] ==> x < n
    ensures forall k :: 0 <= k < |crs.indices| ==> crs.indices[k] < n
    decreases |rows|
  {
    forall k | 0 <= k < |crs.indices| ensures crs.indices[k] < n {
      var i := RowHolding(crs.offsets, |rows|, k);
      assert crs.Row(i)[k - crs.offsets[i]] == crs.indices[k];
      assert crs.indices[k] in rows[i];
    }
  }

  lemma RowHolding(offsets: seq<nat>, parts: nat, k: nat) returns (i: nat)
    requires IsDistribution(offsets, parts) && k < offsets[parts]
    ensures i < parts && offsets[i] <= k < offsets[i + 1]
  {
    i := Owner(offsets, parts, k);
  }

  // ----- one rank knows the whole mesh --------------------------------------------------------

  /** Builds the whole graph and keeps the block of this rank. */
  method MakeDcrs(cells: seq<seq<nat>>, thru: nat, P: nat, me: nat) returns (d: Dcrs)
    requires EachOnce(cells) && me < P
    ensures HoldsBlock(d, P, me, GraphRows(cells, thru + 1))
  {
    var dist := Subdivide(|cells|, P);
    var rows := BuildNeighbors(cells, thru);
    ghost var target := GraphRows(cells, thru + 1);
    assert forall c: nat :: c < |cells| ==> Get(rows, c) == target[c];
    GraphRowsBounded(cells, thru + 1);
    d := TakeBlock(dist, P, me, rows, target);
  }

  /** All ranks do the same: they agree on the blocks without speaking to each other, and
      together they hold the graph. */
  method MakeDcrsOnAll(cells: seq<seq<nat>>, thru: nat, P: nat) returns (ds: seq<Dcrs>)
    requires EachOnce(cells) && P > 0
    ensures |ds| == P && HoldGraph(ds, GraphRows(cells, thru + 1)) && EvenBlocks(ds[0].distribution, P, |cells|)
  {
    ghost var rows := GraphRows(cells, thru + 1);
    ds := [];
    var me := 0;
    while me < P
      invariant 0 <= me <= P && |ds| == me
      invariant forall r :: 0 <= r < me ==> HoldsBlock(ds[r], P, r, rows)
    {
      var d := MakeDcrs(cells, thru, P, me);
      ds, me := ds + [d], me + 1;
    }
    BlocksMakeGraph(ds, rows);
  }

  /** d holds one of the even blocks that the rows are cut into. */
  ghost predicate HoldsBlock(d: Dcrs, P: nat, me: nat, rows: seq<seq<nat>>) {
    HoldsRows(d, P, me, rows) && EvenBlocks(d.distribution, P, |rows|)
  }

  lemma BlocksMakeGraph(ds: seq<Dcrs>, rows: seq<seq<nat>>)
    requires |ds| > 0 && forall r :: 0 <= r < |ds| ==> HoldsBlock(ds[r], |ds|, r, rows)
    ensures HoldGraph(ds, rows) && EvenBlocks(ds[0].distribution, |ds|, |rows|)
  {
    assert HoldsBlock(ds[0], |ds|, 0, rows);
    forall r | 0 <= r < |ds| ensures HoldsRows(ds[r], |ds|, r, rows) && ds[r].distribution == ds[0].distribution {
      assert HoldsBlock(ds[r], |ds|, r, rows);
      EvenBlocksUnique(ds[r].distribution, ds[0].distribution, |ds|, |rows|);
    }
  }

  method TakeBlock(dist: seq<nat>, P: nat, me: nat, rows: map<nat, seq<nat>>, ghost target: seq<seq<nat>>)
    returns (d: Dcrs)
    requires IsDistribution(dist, P) && me < P && dist[P] == |target| && RowsBounded(target)
    requires forall c: nat :: c < |target| ==> Get(rows, c) == target[c]
    ensures HoldsRows(d, P, me, target) && d.distribution == dist
  {
    var crs := Crs([0], []);
    var i := 0;
    assert dist[me + 1] <= dist[P];
    while i < dist[me + 1] - dist[me]
      invariant 0 <= i <= dist[me + 1] - dist[me]
      invariant StoresRows(crs, target[dist[me]..dist[me] + i])
    {
      var row := Get(rows, dist[me] + i);
      crs := StoreNext(crs, target, dist[me], i, row);
      i := i + 1;
    }
    d := Dcrs(dist, crs);
    FinishRows(d, P, me, target);
  }

  ghost predicate RowsBounded(rows: seq<seq<nat>>) {
    forall c, x :: 0 <= c < |rows| && x in rows[c] ==> x < |rows|
  }

  lemma GraphRowsBounded(cells: seq<seq<nat>>, least: nat)
    ensures RowsBounded(GraphRows(cells, least))
  {
    var rows := GraphRows(cells, least);
    forall c, x | 0 <= c < |rows| && x in rows[c] ensures x < |rows| {
      assert x in NeighborSet(cells, least, c);
    }
  }

  lemma FinishRows(d: Dcrs, P: nat, me: nat, rows: seq<seq<nat>>)
    requires IsDistribution(d.distribution, P) && me < P && d.distribution[P] == |rows| && RowsBounded(rows)
    requires d.distribution[me + 1] <= |rows| && StoresRows(d.crs, rows[d.distribution[me]..d.distribution[me + 1]])
    ensures HoldsRows(d, P, me, rows)
  {
    var stored := rows[d.distribution[me]..d.distribution[me + 1]];
    forall i, x | 0 <= i < |stored| && x in stored[i] ensures x < |rows| {
      assert stored[i] == rows[d.distribution[me] + i];
    }
    StoredRowsBounded(d.crs, stored, |rows|);
    assert ValidDcrs(d, P, me);
    forall i: nat | i < LocalSize(d, P, me) ensures HoldsRow(d, P, me, rows, i) {
      assert stored[i] == rows[d.distribution[me] + i];
    }
  }

  // ----- every rank knows its own cells ---------------------------------------------------------

  /** A rank's cells by local vertex ids, and the global ids of its vertices. */
  datatype MeshPart = MeshPart(cells2vertex: Crs, local2global: seq<nat>)

  ghost predicate ValidPart(m: MeshPart) {
    m.cells2vertex.Valid() &&
    forall k :: 0 <= k < |m.cells2vertex.indices| ==> m.cells2vertex.indices[k] < |m.local2global|
  }

  ghost predicate ValidMesh(parts: seq<MeshPart>) {
    forall r :: 0 <= r < |parts| ==> ValidPart(parts[r])
  }

  function GlobalRow(m: MeshPart, i: nat): (row: seq<nat>)
    requires ValidPart(m) && i < m.cells2vertex.Size()
    ensures |row| == |m.cells2vertex.Row(i)|
    ensures forall j :: 0 <= j < |row| ==> row[j] in m.local2global
  {
    var row := m.cells2vertex.Row(i);
    seq(|row|, j requires 0 <= j < |row| => m.local2global[row[j]])
  }

  function PartCells(m: MeshPart): seq<seq<nat>>
    requires ValidPart(m)
  {
    seq(m.cells2vertex.Size(), i requires 0 <= i < m.cells2vertex.Size() => GlobalRow(m, i))
  }

  /** The mesh as one list of cells: rank by rank, in local order. */
  function AllCells(parts: seq<MeshPart>): seq<seq<nat>>
    requires ValidMesh(parts)
  {
    CellsUpTo(parts, |parts|)
  }

  function CellsUpTo(parts: seq<MeshPart>, n: nat): seq<seq<nat>>
    requires ValidMesh(parts) && n <= |parts|
  {
    if n == 0 then [] else CellsUpTo(parts, n - 1) + PartCells(parts[n - 1])
  }

  ghost predicate NumbersCells(dist: seq<nat>, parts: seq<MeshPart>)
    requires ValidMesh(parts)
  {
    IsDistribution(dist, |parts|) &&
    forall r :: 0 <= r < |parts| ==> dist[r + 1] == dist[r] + parts[r].cells2vertex.Size()
  }

  lemma {:induction false} CellsLength(dist: seq<nat>, parts: seq<MeshPart>, n: nat)
    requires ValidMesh(parts) && NumbersCells(dist, parts) && n <= |parts|
    ensures |CellsUpTo(parts, n)| == dist[n]
    decreases n
  {
    if n > 0 {
      var r := n - 1;
      CellsLength(dist, parts, r);
      assert dist[r + 1] == dist[r] + parts[r].cells2vertex.Size();
    }
  }

  lemma InFront<T>(a: seq<T>, b: seq<T>, i: nat)
    requires i < |a|
    ensures i < |a + b| && (a + b)[i] == a[i]
  {}

  lemma InBack<T>(a: seq<T>, b: seq<T>, i: nat)
    requires i < |b|
    ensures |a| + i < |a + b| && (a + b)[|a| + i] == b[i]
  {}

  lemma {:induction false} CellUpTo(dist: seq<nat>, parts: seq<MeshPart>, r: nat, i: nat, n: nat)
    requires ValidMesh(parts) && NumbersCells(dist, parts) && r < n <= |parts| && i < parts[r].cells2vertex.Size()
    ensures dist[r] + i < |CellsUpTo(parts, n)| && CellsUpTo(parts, n)[dist[r] + i] == GlobalRow(parts[r], i)
    decreases n
  {
    var front, last := CellsUpTo(parts, n - 1), PartCells(parts[n - 1]);
    if r < n - 1 {
      CellUpTo(dist, parts, r, i, n - 1);
      InFront(front, last, dist[r] + i);
    } else {
      CellsLength(dist, parts, r);
      InBack(front, last, i);
    }
  }

  /** Local cell i of rank r has global id dist[r] + i. */
  lemma CellAt(dist: seq<nat>, parts: seq<MeshPart>, r: nat, i: nat)
    requires ValidMesh(parts) && NumbersCells(dist, parts) && r < |parts| && i < parts[r].cells2vertex.Size()
    ensures dist[r] + i < |AllCells(parts)| && AllCells(parts)[dist[r] + i] == GlobalRow(parts[r], i)
  {
    CellUpTo(dist, parts, r, i, |parts|);
  }

  // ----- local incidence ---------------------------------------------------------------------------

  /** Cells of this part among the first i that use v, by global cell id. */
  ghost function CellsUsing(m: MeshPart, start: nat, i: nat, v: nat): set<nat>
    requires ValidPart(m)
  {
    set k | 0 <= k < i && k < m.cells2vertex.Size() && v in GlobalRow(m, k) :: start + k
  }

  ghost predicate IsIncidence(m: MeshPart, start: nat, i: nat, inc: map<nat, set<nat>>)
    requires ValidPart(m)
  {
    forall v: nat :: Incidence.Values(inc, v) == CellsUsing(m, start, i, v) &&
      (v in inc <==> CellsUsing(m, start, i, v) != {})
  }

  method AddCell(inc: map<nat, set<nat>>, row: seq<nat>, cell: nat) returns (inc': map<nat, set<nat>>)
    ensures forall v: nat :: v in inc' <==> v in inc || v in row
    ensures forall v: nat :: Incidence.Values(inc', v) == Incidence.Values(inc, v) + if v in row then {cell} else {}
  {
    inc' := inc;
    var j := 0;
    while j < |row|
      invariant 0 <= j <= |row|
      invariant forall v: nat :: v in inc' <==> v in inc || v in row[..j]
      invariant forall v: nat :: Incidence.Values(inc', v) == Incidence.Values(inc, v) + if v in row[..j] then {cell}
        else {}
    {
      assert row[..j + 1] == row[..j] + [row[j]];
      inc' := inc'[row[j] := Incidence.Values(inc', row[j]) + {cell}];
      j := j + 1;
    }
    assert row[..j] == row;
  }

  lemma CellsUsingNext(m: MeshPart, start: nat, i: nat, v: nat)
    requires ValidPart(m) && i < m.cells2vertex.Size()
    ensures CellsUsing(m, start, i + 1, v) == CellsUsing(m, start, i, v) + if v in GlobalRow(m, i) then {start + i}
      else {}
  {}

  method LocalIncidence(m: MeshPart, start: nat) returns (inc: map<nat, set<nat>>)
    requires ValidPart(m)
    ensures IsIncidence(m, start, m.cells2vertex.Size(), inc)
  {
    inc := map[];
    var i := 0;
    while i < m.cells2vertex.Size()
      invariant 0 <= i <= m.cells2vertex.Size()
      invariant IsIncidence(m, start, i, inc)
    {
      ghost var was := inc;
      inc := AddCell(inc, GlobalRow(m, i), start + i);
      forall v: nat
        ensures Incidence.Values(inc, v) == CellsUsing(m, start, i + 1, v) &&
          (v in inc <==> CellsUsing(m, start, i + 1, v) != {})
      {
        CellsUsingNext(m, start, i, v);
        assert v in was <==> CellsUsing(m, start, i, v) != {};
      }
      i := i + 1;
    }
  }

  // ----- counting with the completed table ------------------------------------------------------------

  ghost predicate CountedAll(cells: seq<seq<nat>>, cell: nat, row: seq<nat>, counts: map<nat, nat>) {
    Positive(counts) &&
    forall d: nat :: Count(counts, d) == if d != cell && d < |cells| then Common(row, cells[d]) else 0
  }

  method CountUse(ghost cells: seq<seq<nat>>, cell: nat, row: seq<nat>, j: nat, users: set<nat>, counts: map<nat, nat>)
    returns (counts': map<nat, nat>)
    requires Distinct(row) && j < |row| && CountedAll(cells, cell, row[..j], counts)
    requires forall d: nat :: d in users <==> d < |cells| && row[j] in cells[d]
    ensures CountedAll(cells, cell, row[..j + 1], counts')
  {
    var order := Ascending(users);
    AscendingDistinct(order);
    counts' := CountOthers(counts, order, cell);
    forall d: nat
      ensures Count(counts', d) == if d != cell && d < |cells| then Common(row[..j + 1], cells[d]) else 0
    {
      if d < |cells| { CommonSnoc(row, j, cells[d]); }
    }
  }

  lemma ServesAt(table: map<nat, set<nat>>, cells: seq<seq<nat>>, row: seq<nat>, j: nat)
    requires Serves(table, cells, row) && j < |row|
    ensures row[j] in table && forall d: nat :: d in table[row[j]] <==> d < |cells| && row[j] in cells[d]
  {
    assert row[j] in row;
  }

  /** The row of one cell: the others it shares at least least vertices with. */
  method CountRow(ghost cells: seq<seq<nat>>, cell: nat, row: seq<nat>, table: map<nat, set<nat>>, least: nat)
    returns (neighbors: seq<nat>)
    requires least > 0 && cell < |cells| && row == cells[cell] && Distinct(row)
    requires Serves(table, cells, row)
    ensures neighbors == Ascending(NeighborSet(cells, least, cell))
  {
    var counts := CountUses(cells, cell, row, table);
    neighbors := SelectCounts(counts, least);
    SelectedAreNeighbors(cells, cell, row, counts, least, neighbors);
  }

  method CountUses(ghost cells: seq<seq<nat>>, cell: nat, row: seq<nat>, table: map<nat, set<nat>>)
    returns (counts: map<nat, nat>)
    requires Distinct(row) && Serves(table, cells, row)
    ensures CountedAll(cells, cell, row, counts)
  {
    counts := map[];
    var j := 0;
    assert row[..0] == [];
    while j < |row|
      invariant 0 <= j <= |row|
      invariant CountedAll(cells, cell, row[..j], counts)
    {
      ServesAt(table, cells, row, j);
      counts := CountUse(cells, cell, row, j, table[row[j]], counts);
      j := j + 1;
    }
    assert row[..j] == row;
  }

  lemma SelectedAreNeighbors(cells: seq<seq<nat>>, cell: nat, row: seq<nat>, counts: map<nat, nat>, least: nat,
        neighbors: seq<nat>)
    requires least > 0 && cell < |cells| && row == cells[cell] && CountedAll(cells, cell, row, counts)
    requires StrictlyAscending(neighbors) && forall d :: d in neighbors <==> d in counts && counts[d] >= least
    ensures neighbors == Ascending(NeighborSet(cells, least, cell))
  {
    forall d: nat ensures d in neighbors <==> d in NeighborSet(cells, least, cell) {
      assert Count(counts, d) == if d != cell && d < |cells| then Common(row, cells[d]) else 0;
    }
    AscendingUnique(neighbors, Ascending(NeighborSet(cells, least, cell)));
  }

  method SelectCounts(counts: map<nat, nat>, least: nat) returns (neighbors: seq<nat>)
    ensures StrictlyAscending(neighbors)
    ensures forall d :: d in neighbors <==> d in counts && counts[d] >= least
  {
    neighbors := [];
    var order := Ascending(counts.Keys);
    var i := 0;
    while i < |order|
      invariant 0 <= i <= |order|
      invariant StrictlyAscending(neighbors)
      invariant forall d :: d in neighbors <==> d in order[..i] && counts[d] >= least
    {
      NextElement(order, i);
      if counts[order[i]] >= least {
        AscendingSnoc(neighbors, order[i]);
        neighbors := neighbors + [order[i]];
      }
      i := i + 1;
    }
    assert order[..i] == order;
  }

  // ----- all ranks -------------------------------------------------------------------------------------

  lemma UsedSomewhere(parts: seq<MeshPart>, dist: seq<nat>, d: nat) returns (r: nat, k: nat)
    requires ValidMesh(parts) && NumbersCells(dist, parts) && d < |AllCells(parts)|
    ensures r < |parts| && k < parts[r].cells2vertex.Size() && d == dist[r] + k
    ensures AllCells(parts)[d] == GlobalRow(parts[r], k)
  {
    CellsLength(dist, parts, |parts|);
    r := Owner(dist, |parts|, d);
    k := d - dist[r];
    CellAt(dist, parts, r, k);
  }

  lemma UnionIsUsed(parts: seq<MeshPart>, dist: seq<nat>, incs: seq<map<nat, set<nat>>>, v: nat, d: nat)
    requires ValidMesh(parts) && NumbersCells(dist, parts) && |incs| == |parts|
    requires forall r :: 0 <= r < |parts| ==> IsIncidence(parts[r], dist[r], parts[r].cells2vertex.Size(), incs[r])
    requires d in Incidence.Union(incs, v)
    ensures d < |AllCells(parts)| && v in AllCells(parts)[d]
  {
    var r :| 0 <= r < |incs| && d in Incidence.Values(incs[r], v);
    UsedByPart(parts, dist, r, incs[r], v, d);
  }

  lemma UsedByPart(parts: seq<MeshPart>, dist: seq<nat>, r: nat, inc: map<nat, set<nat>>, v: nat, d: nat)
    requires ValidMesh(parts) && NumbersCells(dist, parts) && r < |parts|
    requires IsIncidence(parts[r], dist[r], parts[r].cells2vertex.Size(), inc) && d in Incidence.Values(inc, v)
    ensures d < |AllCells(parts)| && v in AllCells(parts)[d]
  {
    var k := CellInIncidence(parts[r], dist[r], inc, v, d);
    CellAt(dist, parts, r, k);
  }

  lemma CellInIncidence(m: MeshPart, start: nat, inc: map<nat, set<nat>>, v: nat, d: nat) returns (k: nat)
    requires ValidPart(m) && IsIncidence(m, start, m.cells2vertex.Size(), inc) && d in Incidence.Values(inc, v)
    ensures k < m.cells2vertex.Size() && v in GlobalRow(m, k) && d == start + k
  {
    assert d in CellsUsing(m, start, m.cells2vertex.Size(), v);
    k :| 0 <= k < m.cells2vertex.Size() && v in GlobalRow(m, k) && d == start + k;
  }

  lemma UnionIsUsers(parts: seq<MeshPart>, dist: seq<nat>, incs: seq<map<nat, set<nat>>>, v: nat, d: nat)
    requires ValidMesh(parts) && NumbersCells(dist, parts) && |incs| == |parts|
    requires forall r :: 0 <= r < |parts| ==> IsIncidence(parts[r], dist[r], parts[r].cells2vertex.Size(), incs[r])
    ensures d in Incidence.Union(incs, v) <==> d < |AllCells(parts)| && v in AllCells(parts)[d]
  {
    if d in Incidence.Union(incs, v) {
      UnionIsUsed(parts, dist, incs, v, d);
    }
    if d < |AllCells(parts)| && v in AllCells(parts)[d] {
      var r, k := UsedSomewhere(parts, dist, d);
      assert IsIncidence(parts[r], dist[r], parts[r].cells2vertex.Size(), incs[r]);
      assert d in CellsUsing(parts[r], dist[r], parts[r].cells2vertex.Size(), v);
    }
  }

  method LocalIncidences(parts: seq<MeshPart>, dist: seq<nat>) returns (incs: seq<map<nat, set<nat>>>)
    requires ValidMesh(parts) && NumbersCells(dist, parts)
    ensures |incs| == |parts|
    ensures forall r :: 0 <= r < |parts| ==> IsIncidence(parts[r], dist[r], parts[r].cells2vertex.Size(), incs[r])
  {
    incs := [];
    var r := 0;
    while r < |parts|
      invariant 0 <= r <= |parts| && |incs| == r
      invariant forall q :: 0 <= q < r ==> IsIncidence(parts[q], dist[q], parts[q].cells2vertex.Size(), incs[q])
    {
      var inc := LocalIncidence(parts[r], dist[r]);
      incs, r := incs + [inc], r + 1;
    }
  }

  function VertexIds(parts: seq<MeshPart>): (lists: seq<seq<nat>>)
    ensures |lists| == |parts| && forall r :: 0 <= r < |parts| ==> lists[r] == parts[r].local2global
  {
    seq(|parts|, r requires 0 <= r < |parts| => parts[r].local2global)
  }

  /** Splits the vertex ids up to the largest in use into directory blocks. */
  method VertexDistribution(parts: seq<MeshPart>) returns (dist: seq<nat>)
    requires |parts| > 0
    ensures IsDistribution(dist, |parts|) && dist[|parts|] > 0 && EvenBlocks(dist, |parts|, dist[|parts|])
    ensures HighestId(VertexIds(parts), dist[|parts|] - 1)
    ensures forall r, v :: 0 <= r < |parts| && v in parts[r].local2global ==> v < dist[|parts|]
  {
    var lists := VertexIds(parts);
    dist := SubdivideIds(lists);
  }

  lemma IncidenceInRange(m: MeshPart, start: nat, inc: map<nat, set<nat>>, dist: seq<nat>, P: nat)
    requires ValidPart(m) && IsIncidence(m, start, m.cells2vertex.Size(), inc) && IsDistribution(dist, P)
    requires forall v :: v in m.local2global ==> v < dist[P]
    ensures InRange(inc.Keys, dist, P)
  {
    forall v | v in inc ensures v < dist[P] {
      assert CellsUsing(m, start, m.cells2vertex.Size(), v) != {};
      var c :| c in CellsUsing(m, start, m.cells2vertex.Size(), v);
      var k :| 0 <= k < m.cells2vertex.Size() && v in GlobalRow(m, k);
      var j :| 0 <= j < |GlobalRow(m, k)| && GlobalRow(m, k)[j] == v;
    }
  }

  ghost predicate SitsAt(m: MeshPart, i: nat, cells: seq<seq<nat>>, start: nat)
    requires ValidPart(m) && i < m.cells2vertex.Size()
  {
    start + i < |cells| && cells[start + i] == GlobalRow(m, i)
  }

  /** The completed table is right for every vertex of this part. */
  ghost predicate Serves(table: map<nat, set<nat>>, cells: seq<seq<nat>>, row: seq<nat>) {
    forall v :: v in row ==> ServesVertex(table, cells, v)
  }

  ghost predicate ServesVertex(table: map<nat, set<nat>>, cells: seq<seq<nat>>, v: nat) {
    v in table && forall d: nat :: d in table[v] <==> d < |cells| && v in cells[d]
  }

  /** The rows of one rank, counted with its completed incidence table. */
  method CountPart(m: MeshPart, dist: seq<nat>, P: nat, me: nat, table: map<nat, set<nat>>, least: nat,
        ghost cells: seq<seq<nat>>, ghost target: seq<seq<nat>>)
    returns (d: Dcrs)
    requires ValidPart(m) && IsDistribution(dist, P) && me < P && least > 0 && EachOnce(cells)
    requires dist[P] == |cells| && dist[me + 1] == dist[me] + m.cells2vertex.Size()
    requires forall i: nat :: i < m.cells2vertex.Size() ==> SitsAt(m, i, cells, dist[me])
    requires forall i: nat :: i < m.cells2vertex.Size() ==> Serves(table, cells, GlobalRow(m, i))
    requires target == GraphRows(cells, least)
    ensures HoldsRows(d, P, me, target) && d.distribution == dist
  {
    GraphRowsBounded(cells, least);
    var crs := Crs([0], []);
    var i := 0;
    assert dist[me + 1] <= dist[P];
    while i < m.cells2vertex.Size()
      invariant 0 <= i <= m.cells2vertex.Size()
      invariant StoresRows(crs, target[dist[me]..dist[me] + i])
    {
      crs := CountNext(m, i, table, least, crs, cells, target, dist[me]);
      i := i + 1;
    }
    d := Dcrs(dist, crs);
    FinishRows(d, P, me, target);
  }

  method CountNext(m: MeshPart, i: nat, table: map<nat, set<nat>>, least: nat, crs: Crs, ghost cells: seq<seq<nat>>,
        ghost target: seq<seq<nat>>, start: nat)
    returns (crs': Crs)
    requires ValidPart(m) && i < m.cells2vertex.Size() && least > 0 && EachOnce(cells) &&
      target == GraphRows(cells, least)
    requires SitsAt(m, i, cells, start) && Serves(table, cells, GlobalRow(m, i))
    requires StoresRows(crs, target[start..start + i])
    ensures StoresRows(crs', target[start..start + i + 1])
  {
    var row := CountRow(cells, start + i, GlobalRow(m, i), table, least);
    crs' := StoreNext(crs, target, start, i, row);
  }

  method StoreNext(crs: Crs, ghost target: seq<seq<nat>>, ghost start: nat, ghost i: nat, row: seq<nat>)
    returns (crs': Crs)
    requires start + i < |target| && row == target[start + i] && StoresRows(crs, target[start..start + i])
    ensures StoresRows(crs', target[start..start + i + 1])
  {
    RowAppended(crs, target[start..start + i], row);
    assert target[start..start + i + 1] == target[start..start + i] + [row];
    crs' := AppendRow(crs, row);
  }

  ghost predicate ServesPart(parts: seq<MeshPart>, r: nat, table: map<nat, set<nat>>)
    requires ValidMesh(parts) && r < |parts|
  {
    forall i: nat :: i < parts[r].cells2vertex.Size() ==> Serves(table, AllCells(parts), GlobalRow(parts[r], i))
  }

  lemma TableServes(parts: seq<MeshPart>, dist: seq<nat>, incs: seq<map<nat, set<nat>>>, r: nat,
        table: map<nat, set<nat>>, i: nat, v: nat)
    requires ValidMesh(parts) && NumbersCells(dist, parts) && |incs| == |parts| && r < |parts|
    requires forall q :: 0 <= q < |parts| ==> IsIncidence(parts[q], dist[q], parts[q].cells2vertex.Size(), incs[q])
    requires Incidence.Completed(incs, r, table)
    requires i < parts[r].cells2vertex.Size() && v in GlobalRow(parts[r], i)
    ensures v in table && forall d: nat :: d in table[v] <==> d < |AllCells(parts)| && v in AllCells(parts)[d]
  {
    assert dist[r] + i in CellsUsing(parts[r], dist[r], parts[r].cells2vertex.Size(), v);
    assert v in incs[r];
    forall d: nat ensures d in table[v] <==> d < |AllCells(parts)| && v in AllCells(parts)[d] {
      UnionIsUsers(parts, dist, incs, v, d);
    }
  }

  /** Local tables, then the exchanges that complete them. */
  method CompleteTables(parts: seq<MeshPart>, dist: seq<nat>, chunk: nat) returns (tables: seq<map<nat, set<nat>>>)
    requires |parts| > 0 && chunk > 0 && ValidMesh(parts) && NumbersCells(dist, parts)
    ensures |tables| == |parts|
    ensures forall r :: 0 <= r < |parts| ==> ServesPart(parts, r, tables[r])
  {
    var vertDist := VertexDistribution(parts);
    var incs := LocalIncidences(parts, dist);
    forall r | 0 <= r < |parts| ensures InRange(incs[r].Keys, vertDist, |parts|) {
      IncidenceInRange(parts[r], dist[r], incs[r], vertDist, |parts|);
    }
    tables := Incidence.Complete(incs, vertDist, chunk);
    forall r | 0 <= r < |parts| ensures ServesPart(parts, r, tables[r]) {
      forall i: nat, v | i < parts[r].cells2vertex.Size() && v in GlobalRow(parts[r], i)
        ensures v in tables[r] && forall d: nat :: d in tables[r][v] <==>
          d < |AllCells(parts)| && v in AllCells(parts)[d]
      {
        TableServes(parts, dist, incs, r, tables[r], i, v);
      }
    }
  }

  lemma PartOfCells(parts: seq<MeshPart>, dist: seq<nat>, r: nat)
    requires ValidMesh(parts) && NumbersCells(dist, parts) && r < |parts|
    ensures |AllCells(parts)| == dist[|parts|]
    ensures forall i: nat :: i < parts[r].cells2vertex.Size() ==> SitsAt(parts[r], i, AllCells(parts), dist[r])
  {
    CellsLength(dist, parts, |parts|);
    forall i: nat | i < parts[r].cells2vertex.Size() ensures SitsAt(parts[r], i, AllCells(parts), dist[r]) {
      CellAt(dist, parts, r, i);
    }
  }

  method CountParts(parts: seq<MeshPart>, dist: seq<nat>, tables: seq<map<nat, set<nat>>>, least: nat,
        ghost cells: seq<seq<nat>>, ghost target: seq<seq<nat>>)
    returns (ds: seq<Dcrs>)
    requires least > 0 && ValidMesh(parts) && NumbersCells(dist, parts) && EachOnce(cells)
    requires |tables| == |parts| && cells == AllCells(parts) && target == GraphRows(cells, least)
    requires forall r :: 0 <= r < |parts| ==> ServesPart(parts, r, tables[r])
    ensures |ds| == |parts|
    ensures forall q :: 0 <= q < |parts| ==> HoldsRows(ds[q], |parts|, q, target) && ds[q].distribution == dist
  {
    ds := [];
    var r := 0;
    while r < |parts|
      invariant 0 <= r <= |parts| && |ds| == r
      invariant forall q :: 0 <= q < r ==> HoldsRows(ds[q], |parts|, q, target) && ds[q].distribution == dist
    {
      PartOfCells(parts, dist, r);
      assert ServesPart(parts, r, tables[r]);
      var d := CountPart(parts[r], dist, |parts|, r, tables[r], least, cells, target);
      ds, r := ds + [d], r + 1;
    }
  }

  /** All ranks build their rows; together they hold the graph of the whole mesh. */
  method MakeDcrsDistributed(parts: seq<MeshPart>, least: nat, chunk: nat) returns (ds: seq<Dcrs>)
    requires |parts| > 0 && chunk > 0 && least > 0 && ValidMesh(parts) && EachOnce(AllCells(parts))
    ensures |ds| == |parts| && HoldGraph(ds, GraphRows(AllCells(parts), least))
    ensures NumbersCells(ds[0].distribution, parts)
  {
    var dist := PrefixSums(seq(|parts|, r requires 0 <= r < |parts| => parts[r].cells2vertex.Size()));
    var tables := CompleteTables(parts, dist, chunk);
    ds := CountParts(parts, dist, tables, least, AllCells(parts), GraphRows(AllCells(parts), least));
  }

  /** Distributed rows are the rows of the sequential graph, whatever the blocks. */
  lemma SameRows(rows: seq<seq<nat>>, d: Dcrs, P: nat, r: nat, i: nat, e: Dcrs, Q: nat, s: nat, k: nat)
    requires HoldsRows(d, P, r, rows) && HoldsRows(e, Q, s, rows)
    requires i < LocalSize(d, P, r) && k < LocalSize(e, Q, s) && d.distribution[r] + i == e.distribution[s] + k
    ensures d.crs.Row(i) == e.crs.Row(k)
  {
    assert HoldsRow(d, P, r, rows, i) && HoldsRow(e, Q, s, rows, k);
  }

  /** The graph built by one rank that knows the whole mesh and the graph built by all ranks
      from their parts have the same rows, however each is cut into blocks. */
  method SameGraph(parts: seq<MeshPart>, thru: nat, chunk: nat, P: nat, me: nat) returns (d: Dcrs, ds: seq<Dcrs>)
    requires |parts| > 0 && chunk > 0 && ValidMesh(parts) && EachOnce(AllCells(parts)) && me < P
    ensures |ds| == |parts| && ValidGraph(ds) && ValidDcrs(d, P, me)
    ensures forall r, c: nat :: 0 <= r < |ds| && Owns(ds[r].distribution, c, r) && Owns(d.distribution, c, me) ==>
      ds[r].crs.Row(c - ds[r].distribution[r]) == d.crs.Row(c - d.distribution[me])
  {
    var cells := AllCells(parts);
    d := MakeDcrs(cells, thru, P, me);
    ds := MakeDcrsDistributed(parts, thru + 1, chunk);
    forall r, c: nat | 0 <= r < |ds| && Owns(ds[r].distribution, c, r) && Owns(d.distribution, c, me)
      ensures ds[r].crs.Row(c - ds[r].distribution[r]) == d.crs.Row(c - d.distribution[me])
    {
      SameRows(GraphRows(cells, thru + 1), ds[r], |ds|, r, c - ds[r].distribution[r], d, P, me, c - d.distribution[me]);
    }
  }

  lemma HeldEdgeIsRow(d: Dcrs, P: nat, me: nat, rows: seq<seq<nat>>, a: nat, b: nat)
    requires HoldsRows(d, P, me, rows) && Owns(d.distribution, a, me)
    ensures HoldsEdge(d, P, me, a, b) <==> a < |rows| && b in rows[a]
  {
    assert HoldsRow(d, P, me, rows, a - d.distribution[me]);
  }

  lemma EdgeIsRow(ds: seq<Dcrs>, rows: seq<seq<nat>>, a: nat, b: nat)
    requires HoldGraph(ds, rows) && |ds| > 0
    ensures Edge(ds, a, b) <==> a < |rows| && b in rows[a]
  {
    assert HoldsRows(ds[0], |ds|, 0, rows);
    if r :| 0 <= r < |ds| && HoldsEdge(ds[r], |ds|, r, a, b) {
      HeldEdgeIsRow(ds[r], |ds|, r, rows, a, b);
    }
    if a < |rows| {
      var r := Owner(ds[0].distribution, |ds|, a);
      HeldEdgeIsRow(ds[r], |ds|, r, rows, a, b);
    }
  }

  /** An edge of the distributed graph is adjacency of the two cells ... */
  lemma EdgeIsAdjacency(ds: seq<Dcrs>, cells: seq<seq<nat>>, least: nat, a: nat, b: nat)
    requires HoldGraph(ds, GraphRows(cells, least)) && |ds| > 0
    ensures Edge(ds, a, b) <==> Adjacent(cells, least, a, b)
  {
    EdgeIsRow(ds, GraphRows(cells, least), a, b);
    GraphRowsAreAdjacency(cells, least, a, b);
  }

  /** ... and therefore symmetric. */
  lemma CellGraphSymmetric(ds: seq<Dcrs>, cells: seq<seq<nat>>, least: nat)
    requires HoldGraph(ds, GraphRows(cells, least)) && |ds| > 0
    ensures Symmetric(ds)
  {
    forall a: nat, b: nat | Edge(ds, a, b) ensures Edge(ds, b, a) {
      EdgeIsAdjacency(ds, cells, least, a, b);
      AdjacentSymmetric(cells, least, a, b);
      EdgeIsAdjacency(ds, cells, least, b, a);
    }
  }
}
