/** What coloring an auxiliary index space (vertices, edges) must produce, stated
    over the inputs of all ranks at once. */
module ColorSpec {
  import opened Base
  import opened Coloring
  import opened Directory

  /** One rank's view: its own cells' entities (local ids), the entities' global
      ids, and how its cells were colored. */
  datatype RankInput = RankInput(cells2entity: Crs, local2global: seq<nat>, cells: IndexColoring)

  ghost predicate ValidInput(inp: RankInput, P: nat) {
    && inp.cells2entity.Valid()
    && Distinct(inp.local2global)
    && (forall i :: 0 <= i < |inp.cells2entity.indices| ==> inp.cells2entity.indices[i] < |inp.local2global|)
    && (forall k :: 0 <= k < |inp.cells.shared| ==> SharedCellOk(inp, k, P))
  }

  ghost predicate SharedCellOk(inp: RankInput, k: nat, P: nat)
    requires k < |inp.cells.shared|
  {
    inp.cells.shared[k].offset < inp.cells2entity.Size() &&
    forall s :: s in inp.cells.shared[k].shared ==> s < P
  }

  ghost predicate ValidInputs(ins: seq<RankInput>) {
    forall r :: 0 <= r < |ins| ==> ValidInput(ins[r], |ins|)
  }

  /** Global ids of the entities of local cell i. */
  function CellEntities(inp: RankInput, i: nat): (q: seq<nat>)
    requires inp.cells2entity.Valid() && i < inp.cells2entity.Size()
    requires forall j :: 0 <= j < |inp.cells2entity.indices| ==> inp.cells2entity.indices[j] < |inp.local2global|
  {
    var row := inp.cells2entity.Row(i);
    seq(|row|, j requires 0 <= j < |row| => inp.local2global[row[j]])
  }

  /** Entity g belongs to the k-th shared cell of this rank. */
  ghost predicate SharedCellHas(inp: RankInput, P: nat, k: nat, g: nat)
    requires ValidInput(inp, P)
  {
    k < |inp.cells.shared| &&
    (assert SharedCellOk(inp, k, P); g in CellEntities(inp, inp.cells.shared[k].offset))
  }

  /** The rank claims g: one of its shared cells uses it. */
  ghost predicate Claims(inp: RankInput, P: nat, g: nat)
    requires ValidInput(inp, P)
  {
    exists k: nat :: SharedCellHas(inp, P, k, g)
  }

  /** g belongs to a cell that this rank shares with rank s. */
  ghost predicate Sends(inp: RankInput, P: nat, s: nat, g: nat)
    requires ValidInput(inp, P)
  {
    exists k: nat :: SharedCellHas(inp, P, k, g) && s in inp.cells.shared[k].shared
  }

  /** g reaches rank s through a ghost cell. */
  ghost predicate PotentialGhost(ins: seq<RankInput>, s: nat, g: nat)
    requires ValidInputs(ins)
  {
    exists r :: 0 <= r < |ins| && r != s && Sends(ins[r], |ins|, s, g)
  }

  /** The ids this rank claims, with its local id for each. */
  ghost function ClaimMap(inp: RankInput, P: nat): map<nat, nat>
    requires ValidInput(inp, P)
  {
    map l | 0 <= l < |inp.local2global| && Claims(inp, P, inp.local2global[l]) :: inp.local2global[l] := l
  }

  ghost function AllClaims(ins: seq<RankInput>): seq<map<nat, nat>>
    requires ValidInputs(ins)
  {
    seq(|ins|, r requires 0 <= r < |ins| => ClaimMap(ins[r], |ins|))
  }

  ghost function Wanted(ins: seq<RankInput>, s: nat): set<nat>
    requires ValidInputs(ins)
  {
    set r, l | 0 <= r < |ins| && 0 <= l < |ins[r].local2global| && r != s &&
               Sends(ins[r], |ins|, s, ins[r].local2global[l]) :: ins[r].local2global[l]
  }

  ghost function AllWants(ins: seq<RankInput>): seq<set<nat>>
    requires ValidInputs(ins)
  {
    seq(|ins|, s requires 0 <= s < |ins| => Wanted(ins, s))
  }

  lemma SharedCellIsLocal(inp: RankInput, P: nat, k: nat, g: nat) returns (l: nat)
    requires ValidInput(inp, P) && SharedCellHas(inp, P, k, g)
    ensures l < |inp.local2global| && inp.local2global[l] == g
  {
    assert SharedCellOk(inp, k, P);
    var row := inp.cells2entity.Row(inp.cells.shared[k].offset);
    var j :| 0 <= j < |row| && inp.local2global[row[j]] == g;
    l := row[j];
  }

  /** Claims are exactly the entities of shared cells. */
  lemma ClaimMapKeys(inp: RankInput, P: nat, g: nat)
    requires ValidInput(inp, P)
    ensures g in ClaimMap(inp, P) <==> Claims(inp, P, g)
    ensures g in ClaimMap(inp, P) ==>
      ClaimMap(inp, P)[g] < |inp.local2global| && inp.local2global[ClaimMap(inp, P)[g]] == g
  {
    if k: nat :| SharedCellHas(inp, P, k, g) {
      var l := SharedCellIsLocal(inp, P, k, g);
    }
  }

  lemma WantedIds(ins: seq<RankInput>, s: nat, g: nat)
    requires ValidInputs(ins)
    ensures g in Wanted(ins, s) <==> PotentialGhost(ins, s, g)
  {
    if r :| 0 <= r < |ins| && r != s && Sends(ins[r], |ins|, s, g) {
      var k: nat :| SharedCellHas(ins[r], |ins|, k, g) && s in ins[r].cells.shared[k].shared;
      var l := SharedCellIsLocal(ins[r], |ins|, k, g);
    }
  }

  lemma GhostIsClaimed(ins: seq<RankInput>, s: nat, g: nat) returns (r: nat)
    requires ValidInputs(ins) && PotentialGhost(ins, s, g)
    ensures r < |ins| && r != s && Claims(ins[r], |ins|, g)
  {
    r :| 0 <= r < |ins| && r != s && Sends(ins[r], |ins|, s, g);
    var k: nat :| SharedCellHas(ins[r], |ins|, k, g) && s in ins[r].cells.shared[k].shared;
  }

  ghost function Sharers(ins: seq<RankInput>, g: nat): (ss: set<nat>)
    requires ValidInputs(ins)
  {
    set s | 0 <= s < |ins| && IsSharer(AllClaims(ins), AllWants(ins), g, s)
  }

  /** Rank me owns e: the lowest claimer, with its own local id and all sharers. */
  ghost predicate IsSharedEntry(ins: seq<RankInput>, me: nat, e: EntityInfo)
    requires ValidInputs(ins) && me < |ins|
  {
    IsOwner(AllClaims(ins), e.id, me) && e.rank == me && e.offset == AllClaims(ins)[me][e.id] &&
      e.shared == Sharers(ins, e.id)
  }

  /** Rank me sees e as a ghost: the owner's rank and the owner's local id. */
  ghost predicate IsGhostEntry(ins: seq<RankInput>, me: nat, e: EntityInfo)
    requires ValidInputs(ins) && me < |ins|
  {
    IsSharer(AllClaims(ins), AllWants(ins), e.id, me) && IsOwner(AllClaims(ins), e.id, e.rank) &&
    e.offset == AllClaims(ins)[e.rank][e.id] && e.shared == {}
  }

  ghost predicate IsExclusiveEntry(ins: seq<RankInput>, me: nat, e: EntityInfo)
    requires ValidInputs(ins) && me < |ins|
  {
    e.offset < |ins[me].local2global| && ins[me].local2global[e.offset] == e.id &&
    !Claims(ins[me], |ins|, e.id) && e.rank == me && e.shared == {}
  }

  /** The whole coloring of one rank. */
  ghost predicate IsColoring(ins: seq<RankInput>, me: nat, col: IndexColoring, info: ColoringInfo)
    requires ValidInputs(ins) && me < |ins|
  {
    && AscendingIds(col.exclusive) && AscendingIds(col.shared) && AscendingIds(col.ghosts)
    && (forall e :: e in col.exclusive <==> IsExclusiveEntry(ins, me, e))
    && (forall e :: e in col.shared <==> IsSharedEntry(ins, me, e))
    && (forall e :: e in col.ghosts <==> IsGhostEntry(ins, me, e))
    && info == Summary(col)
  }
}
