/** Coloring an auxiliary index space on all ranks. */
module ColorEntities {
  import opened Base
  import opened Distribution
  import opened Exchange
  import opened Coloring
  import opened Directory
  import opened Rendezvous
  import opened ColorSpec
  import opened ColorCells

  // ----- cells to sharers -----------------------------------------------------------

  method MarkAll(ins: seq<RankInput>) returns (exclusives: seq<seq<bool>>, locals: seq<seq<nat>>)
    requires ValidInputs(ins)
    ensures |exclusives| == |locals| == |ins|
    ensures forall r :: 0 <= r < |ins| ==> Marked(ins[r], |ins|, exclusives[r], locals[r])
  {
    exclusives, locals := [], [];
    var r := 0;
    while r < |ins|
      invariant 0 <= r <= |ins| && |exclusives| == |locals| == r
      invariant forall q :: 0 <= q < r ==> Marked(ins[q], |ins|, exclusives[q], locals[q])
    {
      var ex, sh := MarkShared(ins[r], |ins|);
      exclusives, locals, r := exclusives + [ex], locals + [sh], r + 1;
    }
  }

  ghost predicate ArePotentialGhosts(ins: seq<RankInput>, me: nat, ids: seq<nat>)
    requires ValidInputs(ins)
  {
    StrictlyAscending(ids) && forall g :: g in ids <==> PotentialGhost(ins, me, g)
  }

  method CellsToSharers(ins: seq<RankInput>, chunk: nat) returns (ghosts: seq<seq<nat>>)
    requires ValidInputs(ins) && chunk > 0
    ensures |ghosts| == |ins|
    ensures forall r :: 0 <= r < |ins| ==> ArePotentialGhosts(ins, r, ghosts[r])
  {
    var outs := PackAllCells(ins);
    var recv := AllToAll(|ins|, chunk, outs);
    ghosts := [];
    var r := 0;
    while r < |ins|
      invariant 0 <= r <= |ins| && |ghosts| == r
      invariant forall q :: 0 <= q < r ==> ArePotentialGhosts(ins, q, ghosts[q])
    {
      var ids := PotentialGhostsOf(ins, outs, r, recv[r]);
      ghosts, r := ghosts + [ids], r + 1;
    }
  }

  method PackAllCells(ins: seq<RankInput>) returns (outs: seq<seq<Message>>)
    requires ValidInputs(ins)
    ensures |outs| == |ins|
    ensures forall q :: 0 <= q < |ins| ==> CellMessages(ins[q], |ins|, q, outs[q])
  {
    outs := [];
    var r := 0;
    while r < |ins|
      invariant 0 <= r <= |ins| && |outs| == r
      invariant forall q :: 0 <= q < r ==> CellMessages(ins[q], |ins|, q, outs[q])
    {
      var msgs := PackCells(ins[r], |ins|, r);
      outs, r := outs + [msgs], r + 1;
    }
  }

  method PotentialGhostsOf(ghost ins: seq<RankInput>, ghost outs: seq<seq<Message>>, r: nat, recv: seq<seq<nat>>)
    returns (ids: seq<nat>)
    requires ValidInputs(ins) && r < |ins| && |outs| == |recv| == |ins|
    requires forall s :: 0 <= s < |ins| ==> CellMessages(ins[s], |ins|, s, outs[s]) && recv[s] == Block(outs[s], r)
    ensures ArePotentialGhosts(ins, r, ids)
  {
    ghost var recs := seq(|ins|, s requires 0 <= s < |outs| => RecordsTo(outs[s], r));
    CellRecordsDelivered(ins, outs, r, recs);
    ids := UnpackCells(recv, recs);
  }

  lemma CellRecordsDelivered(ins: seq<RankInput>, outs: seq<seq<Message>>, r: nat, recs: seq<seq<seq<nat>>>)
    requires ValidInputs(ins) && |outs| == |recs| == |ins|
    requires forall s :: 0 <= s < |ins| ==> CellMessages(ins[s], |ins|, s, outs[s]) && recs[s] == RecordsTo(outs[s], r)
    ensures forall s, rec :: 0 <= s < |recs| && rec in recs[s] ==> Framed(rec)
    ensures forall g :: PotentialGhost(ins, r, g) <==> Carried(recs, g)
  {
    forall s, rec | 0 <= s < |ins| ensures rec in recs[s] <==> IsSent(ins[s], |ins|, s, r, rec) {
      RecordsToMember(outs[s], r);
      assert Message(r, rec) in outs[s] <==> IsSent(ins[s], |ins|, s, r, rec);
    }
    forall s, rec | 0 <= s < |recs| && rec in recs[s] ensures Framed(rec) {
      SentRecord(ins[s], |ins|, s, r, rec);
    }
    forall g ensures PotentialGhost(ins, r, g) <==> Carried(recs, g) {
      if s :| 0 <= s < |ins| && s != r && Sends(ins[s], |ins|, r, g) {
        var rec := SentEntity(ins[s], |ins|, s, r, g);
        assert rec in recs[s];
      }
      if s, rec :| 0 <= s < |recs| && rec in recs[s] && g in Payload(rec) {
        SentRecord(ins[s], |ins|, s, r, rec);
      }
    }
  }

  // ----- the id space and its directory ---------------------------------------------

  ghost predicate CoversAll(ins: seq<RankInput>, dist: seq<nat>) {
    IsDistribution(dist, |ins|) &&
    forall r, l :: 0 <= r < |ins| && 0 <= l < |ins[r].local2global| ==> ins[r].local2global[l] < dist[|ins|]
  }

  /** Splits the ids up to the largest in use into one directory block per rank. */
  method DirectoryDistribution(ins: seq<RankInput>) returns (dist: seq<nat>)
    requires |ins| > 0
    ensures CoversAll(ins, dist)
  {
    var lists := seq(|ins|, r requires 0 <= r < |ins| => ins[r].local2global);
    dist := SubdivideIds(lists);
    forall r, l | 0 <= r < |ins| && 0 <= l < |ins[r].local2global| ensures ins[r].local2global[l] < dist[|ins|] {
      assert ins[r].local2global[l] in lists[r];
    }
  }

  // ----- all steps -------------------------------------------------------------------

  /** A shared cell names at least one other rank. */
  ghost predicate SharersProper(ins: seq<RankInput>) {
    forall r :: 0 <= r < |ins| ==> SharedElsewhere(ins[r].cells, r)
  }

  ghost predicate SharedElsewhere(cells: IndexColoring, r: nat) {
    forall k :: 0 <= k < |cells.shared| ==> OtherThan(cells.shared[k].shared, r)
  }

  ghost predicate OtherThan(ranks: set<nat>, r: nat) {
    exists s :: s in ranks && s != r
  }

  lemma PartyIsOk(ins: seq<RankInput>, dist: seq<nat>, r: nat, exclusive: seq<bool>, locals: seq<nat>, ids: seq<nat>)
    requires ValidInputs(ins) && CoversAll(ins, dist) && r < |ins|
    requires Marked(ins[r], |ins|, exclusive, locals) && ArePotentialGhosts(ins, r, ids)
    ensures PartyOk(Party(ins[r].local2global, locals, ids), ClaimMap(ins[r], |ins|), Wanted(ins, r), dist, |ins|)
  {
    var claim := ClaimMap(ins[r], |ins|);
    forall g | g in claim ensures claim[g] in locals && g < dist[|ins|] {
      ClaimMapKeys(ins[r], |ins|, g);
    }
    forall g ensures g in ids <==> g in Wanted(ins, r) {
      WantedIds(ins, r, g);
    }
    forall g | g in Wanted(ins, r) ensures g < dist[|ins|] {}
  }

  lemma WantedIsClaimed(ins: seq<RankInput>)
    requires ValidInputs(ins)
    ensures WantsClaimed(AllClaims(ins), AllWants(ins))
  {
    forall s, g | 0 <= s < |ins| && g in AllWants(ins)[s] ensures Claimed(AllClaims(ins), g) {
      WantedIds(ins, s, g);
      var r := GhostIsClaimed(ins, s, g);
      ClaimMapKeys(ins[r], |ins|, g);
      assert ClaimedBy(AllClaims(ins), r, g);
    }
  }

  /** Owners of shared entities always have a ghost somewhere. */
  lemma OwnerHasSharer(ins: seq<RankInput>, g: nat, r: nat)
    requires ValidInputs(ins) && SharersProper(ins) && IsOwner(AllClaims(ins), g, r)
    ensures exists s :: IsSharer(AllClaims(ins), AllWants(ins), g, s)
  {
    ClaimMapKeys(ins[r], |ins|, g);
    var k: nat :| SharedCellHas(ins[r], |ins|, k, g);
    assert SharedCellOk(ins[r], k, |ins|);
    assert SharedElsewhere(ins[r].cells, r) && OtherThan(ins[r].cells.shared[k].shared, r);
    var s :| s in ins[r].cells.shared[k].shared && s != r;
    assert Sends(ins[r], |ins|, s, g) && PotentialGhost(ins, s, g);
    WantedIds(ins, s, g);
    if IsOwner(AllClaims(ins), g, s) { OwnerIsUnique(AllClaims(ins), g, r, s); }
    assert IsSharer(AllClaims(ins), AllWants(ins), g, s);
  }

  ghost predicate KnownRight(ins: seq<RankInput>, me: nat, table: map<nat, Entry>)
    requires ValidInputs(ins)
  {
    (forall g :: g in table ==> EntryRight(AllClaims(ins), AllWants(ins), g, table[g])) &&
    forall g :: Concerns(AllClaims(ins), AllWants(ins), g, me) ==> g in table
  }

  lemma TableIsKnown(ins: seq<RankInput>, dist: seq<nat>, me: nat, table: map<nat, Entry>)
    requires ValidInputs(ins) && CoversAll(ins, dist) && me < |ins|
    requires TableRight(AllClaims(ins), AllWants(ins), dist, me, |ins|, table)
    ensures KnownRight(ins, me, table)
  {
    var claims, wants := AllClaims(ins), AllWants(ins);
    WantedIsClaimed(ins);
    forall g | Concerns(claims, wants, g, me) ensures g in table {
      if IsOwner(claims, g, me) { assert ClaimedBy(claims, me, g); }
      assert Claimed(claims, g);
      var r: nat :| ClaimedBy(claims, r, g);
      ClaimMapKeys(ins[r], |ins|, g);
      assert g < dist[|ins|];
    }
  }

  method Meeting(ins: seq<RankInput>, ghost exclusives: seq<seq<bool>>, locals: seq<seq<nat>>, ghosts: seq<seq<nat>>,
        chunk: nat)
    returns (tables: seq<map<nat, Entry>>)
    requires |ins| > 0 && chunk > 0 && ValidInputs(ins)
    requires |exclusives| == |locals| == |ghosts| == |ins|
    requires forall r :: 0 <= r < |ins| ==>
      Marked(ins[r], |ins|, exclusives[r], locals[r]) && ArePotentialGhosts(ins, r, ghosts[r])
    ensures |tables| == |ins|
    ensures forall r :: 0 <= r < |ins| ==> KnownRight(ins, r, tables[r])
  {
    var dist := DirectoryDistribution(ins);
    var parties := seq(|ins|, r requires 0 <= r < |ins| => Party(ins[r].local2global, locals[r], ghosts[r]));
    forall r | 0 <= r < |ins|
      ensures PartyOk(parties[r], AllClaims(ins)[r], AllWants(ins)[r], dist, |ins|)
    {
      PartyIsOk(ins, dist, r, exclusives[r], locals[r], ghosts[r]);
    }
    WantedIsClaimed(ins);
    tables := Meet(parties, AllClaims(ins), AllWants(ins), dist, chunk);
    forall r | 0 <= r < |ins| ensures KnownRight(ins, r, tables[r]) {
      TableIsKnown(ins, dist, r, tables[r]);
    }
  }

  /** Colors an index space on all ranks. */
  method ColorAll(ins: seq<RankInput>, chunk: nat) returns (cols: seq<IndexColoring>, infos: seq<ColoringInfo>)
    requires |ins| > 0 && chunk > 0 && ValidInputs(ins) && SharersProper(ins)
    ensures |cols| == |infos| == |ins|
    ensures forall r :: 0 <= r < |ins| ==> IsColoring(ins, r, cols[r], infos[r])
  {
    var exclusives, locals := MarkAll(ins);
    var ghosts := CellsToSharers(ins, chunk);
    var tables := Meeting(ins, exclusives, locals, ghosts, chunk);
    cols, infos := [], [];
    var r := 0;
    while r < |ins|
      invariant 0 <= r <= |ins| && |cols| == |infos| == r
      invariant forall q :: 0 <= q < r ==> IsColoring(ins, q, cols[q], infos[q])
    {
      var table := tables[r];
      forall g | g in table && table[g].rank == r ensures table[g].ghostRanks != [] {
        OwnerHasSharer(ins, g, r);
      }
      var col, info := Classify(r, ins[r].local2global, exclusives[r], table, ghosts[r]);
      Classified(ins, r, exclusives[r], locals[r], table, ghosts[r], col, info);
      cols, infos, r := cols + [col], infos + [info], r + 1;
    }
  }

  lemma Classified(ins: seq<RankInput>, me: nat, exclusive: seq<bool>, locals: seq<nat>, table: map<nat, Entry>,
        ids: seq<nat>, col: IndexColoring, info: ColoringInfo)
    requires ValidInputs(ins) && me < |ins| && KnownRight(ins, me, table)
    requires Marked(ins[me], |ins|, exclusive, locals) && ArePotentialGhosts(ins, me, ids)
    requires IsClassified(me, ins[me].local2global, exclusive, table, ids, col, info)
    ensures IsColoring(ins, me, col, info)
  {
    forall e ensures e in col.shared <==> IsSharedEntry(ins, me, e) {
      SharedClassified(ins, me, table, e);
    }
    forall e ensures e in col.ghosts <==> IsGhostEntry(ins, me, e) {
      GhostClassified(ins, me, table, ids, e);
    }
    forall e ensures e in col.exclusive <==> IsExclusiveEntry(ins, me, e) {}
  }

  lemma SharedClassified(ins: seq<RankInput>, me: nat, table: map<nat, Entry>, e: EntityInfo)
    requires ValidInputs(ins) && me < |ins| && KnownRight(ins, me, table)
    ensures OwnedHere(me, table, e) <==> IsSharedEntry(ins, me, e)
  {
    var claims, wants, g := AllClaims(ins), AllWants(ins), e.id;
    if IsOwner(claims, g, me) {
      assert Concerns(claims, wants, g, me);
      OwnerIsUnique(claims, g, me, table[g].rank);
    }
    if g in table {
      assert EntryRight(claims, wants, g, table[g]);
      forall s ensures s in ToSet(table[g].ghostRanks) <==> s in Sharers(ins, g) {
        assert s in table[g].ghostRanks <==> IsSharer(claims, wants, g, s);
      }
    }
  }

  lemma GhostClassified(ins: seq<RankInput>, me: nat, table: map<nat, Entry>, ids: seq<nat>, e: EntityInfo)
    requires ValidInputs(ins) && me < |ins| && KnownRight(ins, me, table) && ArePotentialGhosts(ins, me, ids)
    ensures GhostHere(me, table, ids, e) <==> IsGhostEntry(ins, me, e)
  {
    WantedIds(ins, me, e.id);
    GhostEntryRight(AllClaims(ins), AllWants(ins), me, table, e);
    assert e.id in ids <==> e.id in AllWants(ins)[me];
  }

  lemma GhostEntryRight(claims: seq<map<nat, nat>>, wants: seq<set<nat>>, me: nat, table: map<nat, Entry>,
        e: EntityInfo)
    requires me < |wants|
    requires e.id in table ==> EntryRight(claims, wants, e.id, table[e.id])
    requires Concerns(claims, wants, e.id, me) ==> e.id in table
    ensures (e.id in table && table[e.id].rank != me && e.id in wants[me] &&
             e == EntityInfo(e.id, table[e.id].rank, table[e.id].localId, {}))
            <==>
            (IsSharer(claims, wants, e.id, me) && IsOwner(claims, e.id, e.rank) &&
             e.offset == claims[e.rank][e.id] && e.shared == {})
  {
    if e.id in table {
      if IsOwner(claims, e.id, me) { OwnerIsUnique(claims, e.id, me, table[e.id].rank); }
      if IsOwner(claims, e.id, e.rank) { OwnerIsUnique(claims, e.id, e.rank, table[e.id].rank); }
    }
  }
}
