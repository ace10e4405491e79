/** Rank-local work of coloring an auxiliary index space: which entities belong to
    shared cells, and the cell records sent to and received from other ranks. */
module ColorCells {
  import opened Base
  import opened Exchange
  import opened Coloring
  import opened Directory
  import opened ColorSpec

  // ----- entities of shared cells -------------------------------------------

  lemma RowHasLocal(inp: RankInput, P: nat, k: nat, l: nat)
    requires ValidInput(inp, P) && k < |inp.cells.shared| && SharedCellOk(inp, k, P) && l < |inp.local2global|
    ensures l in inp.cells2entity.Row(inp.cells.shared[k].offset) <==> SharedCellHas(inp, P, k, inp.local2global[l])
  {
    var row := inp.cells2entity.Row(inp.cells.shared[k].offset);
    var q := CellEntities(inp, inp.cells.shared[k].offset);
    if l in row {
      var j :| 0 <= j < |row| && row[j] == l;
      assert q[j] in q;
    }
    if inp.local2global[l] in q {
      var j :| 0 <= j < |q| && q[j] == inp.local2global[l];
      assert row[j] == l;
    }
  }

  ghost predicate ClaimedBefore(inp: RankInput, P: nat, k: nat, g: nat)
    requires ValidInput(inp, P)
  {
    exists j: nat :: j < k && SharedCellHas(inp, P, j, g)
  }

  ghost predicate Marked(inp: RankInput, P: nat, exclusive: seq<bool>, locals: seq<nat>)
    requires ValidInput(inp, P)
  {
    |exclusive| == |inp.local2global| && StrictlyAscending(locals) &&
    (forall l :: 0 <= l < |exclusive| ==> (exclusive[l] <==> !Claims(inp, P, inp.local2global[l]))) &&
    forall l: nat :: l in locals <==> l < |inp.local2global| && Claims(inp, P, inp.local2global[l])
  }

  /** Entities of shared cells are not exclusive; all others are. */
  method MarkShared(inp: RankInput, P: nat) returns (exclusive: seq<bool>, potentialShared: seq<nat>)
    requires ValidInput(inp, P)
    ensures Marked(inp, P, exclusive, potentialShared)
  {
    exclusive := seq(|inp.local2global|, _ => true);
    var list: seq<nat> := [];
    var k := 0;
    while k < |inp.cells.shared|
      invariant 0 <= k <= |inp.cells.shared| && |exclusive| == |inp.local2global|
      invariant forall l: nat :: l in list <==> l < |exclusive| && !exclusive[l]
      invariant forall l: nat :: l < |exclusive| ==> (!exclusive[l] <==> ClaimedBefore(inp, P, k, inp.local2global[l]))
    {
      assert SharedCellOk(inp, k, P);
      var row := inp.cells2entity.Row(inp.cells.shared[k].offset);
      ghost var was := exclusive;
      exclusive, list := MarkRow(exclusive, list, row);
      forall l: nat | l < |exclusive|
        ensures !exclusive[l] <==> ClaimedBefore(inp, P, k + 1, inp.local2global[l])
      {
        RowHasLocal(inp, P, k, l);
        assert was[l] <==> !ClaimedBefore(inp, P, k, inp.local2global[l]);
      }
      k := k + 1;
    }
    potentialShared := SortUnique(list);
  }

  method MarkRow(exclusive: seq<bool>, list: seq<nat>, row: seq<nat>) returns (exclusive': seq<bool>, list': seq<nat>)
    requires forall j :: 0 <= j < |row| ==> row[j] < |exclusive|
    requires forall l: nat :: l in list <==> l < |exclusive| && !exclusive[l]
    ensures |exclusive'| == |exclusive|
    ensures forall l: nat :: l in list' <==> l < |exclusive| && !exclusive'[l]
    ensures forall l: nat :: l < |exclusive| ==> (exclusive'[l] <==> exclusive[l] && l !in row)
  {
    exclusive', list' := exclusive, list;
    var i := 0;
    while i < |row|
      invariant 0 <= i <= |row| && |exclusive'| == |exclusive|
      invariant forall l: nat :: l in list' <==> l < |exclusive| && !exclusive'[l]
      invariant forall l: nat :: l < |exclusive| ==> (exclusive'[l] <==> exclusive[l] && l !in row[..i])
    {
      assert row[..i + 1] == row[..i] + [row[i]];
      exclusive' := exclusive'[row[i] := false];
      list' := list' + [row[i]];
      i := i + 1;
    }
    assert row[..i] == row;
  }

  // ----- shared cells to their sharers --------------------------------------

  /** A record of unknown length starts with the number of words that follow. */
  ghost predicate Framed(rec: seq<nat>) {
    rec != [] && rec[0] == |rec| - 1
  }

  ghost function Payload(rec: seq<nat>): seq<nat> {
    if rec == [] then [] else rec[1..]
  }

  ghost predicate IsCellMessage(inp: RankInput, P: nat, me: nat, k: nat, s: nat, rec: seq<nat>)
    requires ValidInput(inp, P) && k < |inp.cells.shared|
  {
    assert SharedCellOk(inp, k, P);
    var ids := CellEntities(inp, inp.cells.shared[k].offset);
    s in inp.cells.shared[k].shared && s != me && rec == [|ids|] + ids
  }

  ghost predicate IsSent(inp: RankInput, P: nat, me: nat, s: nat, rec: seq<nat>)
    requires ValidInput(inp, P)
  {
    exists k: nat :: k < |inp.cells.shared| && IsCellMessage(inp, P, me, k, s, rec)
  }

  ghost predicate CellMessages(inp: RankInput, P: nat, me: nat, msgs: seq<Message>)
    requires ValidInput(inp, P)
  {
    Addressed(msgs, P) &&
    forall s, rec :: Message(s, rec) in msgs <==> IsSent(inp, P, me, s, rec)
  }

  lemma SentEntity(inp: RankInput, P: nat, me: nat, s: nat, g: nat) returns (rec: seq<nat>)
    requires ValidInput(inp, P) && me != s && Sends(inp, P, s, g)
    ensures IsSent(inp, P, me, s, rec) && g in Payload(rec)
  {
    var k: nat :| SharedCellHas(inp, P, k, g) && s in inp.cells.shared[k].shared;
    assert SharedCellOk(inp, k, P);
    var ids := CellEntities(inp, inp.cells.shared[k].offset);
    rec := [|ids|] + ids;
    assert Payload(rec) == ids;
    assert IsCellMessage(inp, P, me, k, s, rec);
  }

  lemma SentRecord(inp: RankInput, P: nat, me: nat, s: nat, rec: seq<nat>)
    requires ValidInput(inp, P) && IsSent(inp, P, me, s, rec)
    ensures s != me && Framed(rec)
    ensures forall g :: g in Payload(rec) ==> Sends(inp, P, s, g)
  {
    var k: nat :| k < |inp.cells.shared| && IsCellMessage(inp, P, me, k, s, rec);
    assert SharedCellOk(inp, k, P);
    var ids := CellEntities(inp, inp.cells.shared[k].offset);
    assert Payload(rec) == ids;
    forall g | g in Payload(rec) ensures Sends(inp, P, s, g) {
      assert SharedCellHas(inp, P, k, g);
    }
  }

  method PackCells(inp: RankInput, P: nat, me: nat) returns (msgs: seq<Message>)
    requires ValidInput(inp, P)
    ensures CellMessages(inp, P, me, msgs)
  {
    msgs := [];
    var k := 0;
    while k < |inp.cells.shared|
      invariant 0 <= k <= |inp.cells.shared|
      invariant Addressed(msgs, P)
      invariant forall s, rec :: Message(s, rec) in msgs <==>
        exists j: nat :: j < k && IsCellMessage(inp, P, me, j, s, rec)
    {
      assert SharedCellOk(inp, k, P);
      var ids := CellEntities(inp, inp.cells.shared[k].offset);
      var more := ToSharers(inp.cells.shared[k].shared, P, me, [|ids|] + ids);
      ghost var was := msgs;
      msgs := msgs + more;
      forall s, rec
        ensures Message(s, rec) in msgs <==> exists j: nat :: j < k + 1 && IsCellMessage(inp, P, me, j, s, rec)
      {
        assert Message(s, rec) in more <==> IsCellMessage(inp, P, me, k, s, rec);
        assert Message(s, rec) in msgs <==> Message(s, rec) in was || Message(s, rec) in more;
      }
      k := k + 1;
    }
  }

  /** The same record for every listed rank but this one. */
  method ToSharers(ranks: set<nat>, P: nat, me: nat, rec: seq<nat>) returns (msgs: seq<Message>)
    requires forall s :: s in ranks ==> s < P
    ensures Addressed(msgs, P)
    ensures forall s, w :: Message(s, w) in msgs <==> s in ranks && s != me && w == rec
  {
    msgs := [];
    var order := Ascending(ranks);
    var i := 0;
    while i < |order|
      invariant 0 <= i <= |order|
      invariant Addressed(msgs, P)
      invariant forall s, w :: Message(s, w) in msgs <==> s in order[..i] && s != me && w == rec
    {
      assert order[..i + 1] == order[..i] + [order[i]];
      assert order[i] in order;
      if order[i] != me {
        msgs := msgs + [Message(order[i], rec)];
      }
      i := i + 1;
    }
    assert order[..i] == order;
  }

  ghost predicate Carried(recs: seq<seq<seq<nat>>>, g: nat) {
    exists r, rec :: 0 <= r < |recs| && rec in recs[r] && g in Payload(rec)
  }

  /** All ids found in the received cell records. */
  method UnpackCells(recv: seq<seq<nat>>, ghost recs: seq<seq<seq<nat>>>) returns (potentialGhost: seq<nat>)
    requires |recv| == |recs|
    requires forall r :: 0 <= r < |recs| ==> recv[r] == Flatten(recs[r])
    requires forall r, rec :: 0 <= r < |recs| && rec in recs[r] ==> Framed(rec)
    ensures StrictlyAscending(potentialGhost)
    ensures forall g :: g in potentialGhost <==> Carried(recs, g)
  {
    var list: seq<nat> := [];
    var r := 0;
    while r < |recv|
      invariant 0 <= r <= |recv|
      invariant forall g :: g in list <==> exists q, rec :: 0 <= q < r && rec in recs[q] && g in Payload(rec)
    {
      var ids := UnpackCellsFrom(recv[r], recs[r]);
      list := list + ids;
      r := r + 1;
    }
    potentialGhost := SortUnique(list);
  }

  method UnpackCellsFrom(words: seq<nat>, ghost recs: seq<seq<nat>>) returns (list: seq<nat>)
    requires words == Flatten(recs)
    requires forall rec :: rec in recs ==> Framed(rec)
    ensures forall g :: g in list <==> exists rec :: rec in recs && g in Payload(rec)
  {
    list := [];
    var i := 0;
    ghost var k := 0;
    assert forall j :: 0 <= j < |recs| ==> Framed(recs[j]);
    NextRecord(words, 0, recs, 0);
    while i < |words|
      invariant 0 <= i <= |words| && 0 <= k <= |recs| && words[i..] == Flatten(recs[k..])
      invariant forall g :: g in list <==> exists j :: 0 <= j < k && g in Payload(recs[j])
      decreases |words| - i
    {
      NextRecord(words, i, recs, k);
      ghost var rec := recs[k];
      assert rec == words[i..i + |rec|] && Framed(rec);
      var n := words[i];
      list := list + words[i + 1..i + 1 + n];
      assert words[i + 1..i + 1 + n] == rec[1..];
      i, k := i + 1 + n, k + 1;
    }
    NextRecord(words, i, recs, k);
    forall g ensures g in list <==> exists rec :: rec in recs && g in Payload(rec) {
      if rec :| rec in recs && g in Payload(rec) {
        var j :| 0 <= j < |recs| && recs[j] == rec;
      }
    }
  }

  // ----- classification -------------------------------------------------------------

  ghost predicate ExclusiveHere(me: nat, local2global: seq<nat>, exclusive: seq<bool>, e: EntityInfo)
    requires |exclusive| == |local2global|
  {
    e.offset < |exclusive| && exclusive[e.offset] && e == EntityInfo(local2global[e.offset], me, e.offset, {})
  }

  ghost predicate OwnedHere(me: nat, table: map<nat, Entry>, e: EntityInfo) {
    e.id in table && table[e.id].rank == me &&
    e == EntityInfo(e.id, me, table[e.id].localId, ToSet(table[e.id].ghostRanks))
  }

  ghost predicate GhostHere(me: nat, table: map<nat, Entry>, potentialGhost: seq<nat>, e: EntityInfo) {
    e.id in table && table[e.id].rank != me && e.id in potentialGhost &&
    e == EntityInfo(e.id, table[e.id].rank, table[e.id].localId, {})
  }

  ghost predicate IsClassified(me: nat, local2global: seq<nat>, exclusive: seq<bool>, table: map<nat, Entry>,
        potentialGhost: seq<nat>, col: IndexColoring, info: ColoringInfo)
    requires |exclusive| == |local2global|
  {
    && AscendingIds(col.exclusive) && AscendingIds(col.shared) && AscendingIds(col.ghosts)
    && (forall e :: e in col.exclusive <==> ExclusiveHere(me, local2global, exclusive, e))
    && (forall e :: e in col.shared <==> OwnedHere(me, table, e))
    && (forall e :: e in col.ghosts <==> GhostHere(me, table, potentialGhost, e))
    && info == Summary(col)
  }

  method Classify(me: nat, local2global: seq<nat>, exclusive: seq<bool>, table: map<nat, Entry>,
        potentialGhost: seq<nat>)
    returns (col: IndexColoring, info: ColoringInfo)
    requires |exclusive| == |local2global| && Distinct(local2global)
    requires forall g :: g in table && table[g].rank == me ==> table[g].ghostRanks != []
    ensures IsClassified(me, local2global, exclusive, table, potentialGhost, col, info)
  {
    var ex := CollectExclusive(me, local2global, exclusive);
    var sh, gh, users, owners := CollectShared(me, table, potentialGhost);
    ghost var sh0, gh0 := sh, gh;
    ex := RemoveUnique(ex);
    sh := RemoveUnique(sh);
    gh := RemoveUnique(gh);
    col := IndexColoring(ex, sh, gh);
    info := ColoringInfo(|ex|, |sh|, |gh|, users, owners);
    assert Users(sh0) == Users(sh) && Owners(gh0) == Owners(gh);
  }

  method CollectExclusive(me: nat, local2global: seq<nat>, exclusive: seq<bool>) returns (ex: seq<EntityInfo>)
    requires |exclusive| == |local2global| && Distinct(local2global)
    ensures IdsDetermine(ex)
    ensures forall e :: e in ex <==> ExclusiveHere(me, local2global, exclusive, e)
  {
    ex := [];
    var l := 0;
    while l < |local2global|
      invariant 0 <= l <= |local2global|
      invariant forall e :: e in ex <==> e.offset < l && ExclusiveHere(me, local2global, exclusive, e)
    {
      if exclusive[l] {
        ex := ex + [EntityInfo(local2global[l], me, l, {})];
      }
      l := l + 1;
    }
  }

  method CollectShared(me: nat, table: map<nat, Entry>, potentialGhost: seq<nat>)
    returns (sh: seq<EntityInfo>, gh: seq<EntityInfo>, users: set<nat>, owners: set<nat>)
    requires forall g :: g in table && table[g].rank == me ==> table[g].ghostRanks != []
    ensures forall e :: e in sh <==> OwnedHere(me, table, e)
    ensures forall e :: e in gh <==> GhostHere(me, table, potentialGhost, e)
    ensures users == Users(sh) && owners == Owners(gh)
  {
    sh, gh, users, owners := [], [], {}, {};
    var order := Ascending(table.Keys);
    var i := 0;
    while i < |order|
      invariant 0 <= i <= |order|
      invariant forall e :: e in sh <==> e.id in order[..i] && OwnedHere(me, table, e)
      invariant forall e :: e in gh <==> e.id in order[..i] && GhostHere(me, table, potentialGhost, e)
      invariant users == Users(sh) && owners == Owners(gh)
    {
      var g := order[i];
      NextElement(order, i);
      var e := table[g];
      if e.rank == me {
        assert e.ghostRanks != [];  // a shared entity has a ghost somewhere
        var x := EntityInfo(g, e.rank, e.localId, set s | s in e.ghostRanks);
        UsersSnoc(sh, x);
        sh, users := sh + [x], users + x.shared;
      } else if g in potentialGhost {
        var x := EntityInfo(g, e.rank, e.localId, {});
        OwnersSnoc(gh, x);
        gh, owners := gh + [x], owners + {x.rank};
      }
      i := i + 1;
    }
    assert order[..i] == order;
  }
}
