/** Compressed rows and the coloring records produced for every index space. */
module Coloring {
  import opened Base

  /** Row i is indices[offsets[i]..offsets[i + 1]]. */
  datatype Crs = Crs(offsets: seq<nat>, indices: seq<nat>) {
    function Size(): nat {
      if offsets == [] then 0 else |offsets| - 1
    }

    ghost predicate Valid() {
      Monotone(offsets) && (offsets != [] ==> offsets[0] == 0 && offsets[|offsets| - 1] == |indices|)
    }

    function Row(i: nat): seq<nat>
      requires Valid() && i < Size()
    {
      assert offsets[i] <= offsets[i + 1] <= offsets[|offsets| - 1];
      indices[offsets[i]..offsets[i + 1]]
    }
  }

  // ----- rows appended one after the other ------------------------------------------------

  /** offsets and indices hold exactly the given rows. */
  ghost predicate StoresRows(crs: Crs, rows: seq<seq<nat>>) {
    crs.Valid() && |crs.offsets| == |rows| + 1 && forall i :: 0 <= i < |rows| ==> crs.Row(i) == rows[i]
  }

  ghost function RowsOf(crs: Crs): (rows: seq<seq<nat>>)
    requires crs.Valid()
    ensures |rows| == crs.Size()
  {
    seq(crs.Size(), i requires 0 <= i < crs.Size() => crs.Row(i))
  }

  lemma StoredRowsAre(crs: Crs, rows: seq<seq<nat>>)
    requires crs.Valid() && crs.offsets != []
    ensures StoresRows(crs, rows) <==> rows == RowsOf(crs)
  {}

  function AppendRow(crs: Crs, row: seq<nat>): Crs
    requires crs.offsets != []
  {
    Crs(crs.offsets + [crs.offsets[|crs.offsets| - 1] + |row|], crs.indices + row)
  }

  lemma RowAppended(crs: Crs, rows: seq<seq<nat>>, row: seq<nat>)
    requires StoresRows(crs, rows)
    ensures StoresRows(AppendRow(crs, row), rows + [row])
  {
    var crs' := AppendRow(crs, row);
    assert crs'.Valid();
    forall i | 0 <= i < |rows| + 1 ensures crs'.Row(i) == (rows + [row])[i] {
      if i < |rows| {
        assert crs.Row(i) == rows[i];
        assert crs.offsets[i] <= crs.offsets[i + 1] <= |crs.indices|;
        assert crs'.Row(i) == crs.Row(i);
      }
    }
  }

  /** An entity, the rank that owns it, its local id there, and its sharers. */
  datatype EntityInfo = EntityInfo(id: nat, rank: nat, offset: nat, shared: set<nat>)

  datatype IndexColoring = IndexColoring(exclusive: seq<EntityInfo>, shared: seq<EntityInfo>, ghosts: seq<EntityInfo>)

  datatype ColoringInfo = ColoringInfo(exclusive: nat, shared: nat, ghosts: nat,
                                       sharedUsers: set<nat>, ghostOwners: set<nat>)

  /** Rank r owns g and shares it with s under local id offset. */
  ghost predicate SharesWith(col: IndexColoring, r: nat, g: nat, offset: nat, s: nat) {
    exists e :: e in col.shared && e.id == g && e.rank == r && e.offset == offset && s in e.shared
  }

  /** g is seen as a ghost of rank r under r's local id offset; a ghost cell names the ranks
      that see it, other ghosts name none. */
  ghost predicate SeesGhost(col: IndexColoring, g: nat, r: nat, offset: nat, seers: set<nat>) {
    EntityInfo(g, r, offset, seers) in col.ghosts
  }

  ghost predicate AscendingIds(es: seq<EntityInfo>) {
    forall i, j :: 0 <= i < j < |es| ==> es[i].id < es[j].id
  }

  ghost predicate IdsDetermine(es: seq<EntityInfo>) {
    forall a, b :: a in es && b in es && a.id == b.id ==> a == b
  }

  lemma AscendingIdsDetermine(es: seq<EntityInfo>)
    requires AscendingIds(es)
    ensures IdsDetermine(es)
  {
    forall a, b | a in es && b in es && a.id == b.id ensures a == b {
      var i :| 0 <= i < |es| && es[i] == a;
      var j :| 0 <= j < |es| && es[j] == b;
    }
  }

  ghost function Ids(es: seq<EntityInfo>): (ids: seq<nat>)
    ensures |ids| == |es| && forall i :: 0 <= i < |es| ==> ids[i] == es[i].id
  {
    seq(|es|, i requires 0 <= i < |es| => es[i].id)
  }

  /** Two id-ascending lists with the same entries are the same list. */
  lemma AscendingIdsUnique(p: seq<EntityInfo>, q: seq<EntityInfo>)
    requires AscendingIds(p) && AscendingIds(q) && forall e :: e in p <==> e in q
    ensures p == q
  {
    forall x ensures x in Ids(p) <==> x in Ids(q) {
      if x in Ids(p) { var i :| 0 <= i < |p| && p[i].id == x; assert p[i] in q; }
      if x in Ids(q) { var i :| 0 <= i < |q| && q[i].id == x; assert q[i] in p; }
    }
    AscendingUnique(Ids(p), Ids(q));
    forall i | 0 <= i < |p| ensures p[i] == q[i] {
      assert p[i] in q;
      var j :| 0 <= j < |q| && q[j] == p[i];
      assert Ids(q)[j] == Ids(p)[i] == Ids(q)[i];
    }
  }

  method InsertById(r: seq<EntityInfo>, e: EntityInfo) returns (r': seq<EntityInfo>)
    requires AscendingIds(r)
    requires forall x :: x in r && x.id == e.id ==> x == e
    ensures AscendingIds(r')
    ensures forall x :: x in r' <==> x in r || x == e
  {
    var k := 0;
    while k < |r| && r[k].id < e.id
      invariant 0 <= k <= |r|
      invariant forall j :: 0 <= j < k ==> r[j].id < e.id
    {
      k := k + 1;
    }
    if k < |r| && r[k].id == e.id {
      assert r[k] in r;
      return r;
    }
    r' := r[..k] + [e] + r[k..];
    forall x ensures x in r' <==> x in r || x == e {
      assert r == r[..k] + r[k..];
    }
  }

  /** Sort by id and drop repetitions; entries with equal ids are equal here, so
      the result does not depend on the order of the input. */
  method RemoveUnique(es: seq<EntityInfo>) returns (r: seq<EntityInfo>)
    requires IdsDetermine(es)
    ensures AscendingIds(r)
    ensures forall e :: e in r <==> e in es
  {
    r := [];
    var i := 0;
    while i < |es|
      invariant 0 <= i <= |es|
      invariant AscendingIds(r)
      invariant forall e :: e in r <==> e in es[..i]
    {
      assert es[..i + 1] == es[..i] + [es[i]];
      r := InsertById(r, es[i]);
      i := i + 1;
    }
    assert es[..i] == es;
  }

  ghost predicate Lists(es: seq<EntityInfo>, g: nat) {
    exists e :: e in es && e.id == g
  }

  /** The length of an id-ascending list is the number of ids it lists. */
  lemma ListedIds(es: seq<EntityInfo>, ids: set<nat>)
    requires AscendingIds(es) && forall g :: g in ids <==> Lists(es, g)
    ensures |es| == |ids|
  {
    forall g ensures g in ToSet(Ids(es)) <==> Lists(es, g) {
      if g in Ids(es) { var i :| 0 <= i < |es| && Ids(es)[i] == g; assert es[i] in es; }
      if e :| e in es && e.id == g { var i :| 0 <= i < |es| && es[i] == e; assert Ids(es)[i] == g; }
    }
    assert ToSet(Ids(es)) == ids;
    DistinctSize(Ids(es));
  }

  // ----- summaries ------------------------------------------------------------------

  ghost function Users(sh: seq<EntityInfo>): set<nat> {
    set e, s | e in sh && s in e.shared :: s
  }

  ghost function Owners(gh: seq<EntityInfo>): set<nat> {
    set e | e in gh :: e.rank
  }

  lemma UsersSnoc(sh: seq<EntityInfo>, e: EntityInfo)
    ensures Users(sh + [e]) == Users(sh) + e.shared
  {
    forall s ensures s in Users(sh + [e]) <==> s in Users(sh) + e.shared {
      assert e in sh + [e];
      if x :| x in sh && s in x.shared { assert x in sh + [e]; }
    }
  }

  lemma OwnersSnoc(gh: seq<EntityInfo>, e: EntityInfo)
    ensures Owners(gh + [e]) == Owners(gh) + {e.rank}
  {
    forall s ensures s in Owners(gh + [e]) <==> s in Owners(gh) + {e.rank} {
      assert e in gh + [e];
      if x :| x in gh && s == x.rank { assert x in gh + [e]; }
    }
  }

  /** Sizes, every rank that sees one of our shared entities, and every rank that
      owns one of our ghosts. */
  ghost function Summary(col: IndexColoring): ColoringInfo {
    ColoringInfo(|col.exclusive|, |col.shared|, |col.ghosts|, Users(col.shared), Owners(col.ghosts))
  }
}
