/** Inverting a mesh connectivity by counting, in place in one array of slots. */
module Transpose {
  import opened Base

  datatype Slot = Unset | Set(to: nat)

  // ----- what the transpose of rows is -------------------------------------------------------------

  ghost function Copies(t: nat, n: nat): seq<nat> {
    if n == 0 then [] else Copies(t, n - 1) + [t]
  }

  lemma {:induction false} CopiesCount(t: nat, n: nat, x: nat)
    ensures |Copies(t, n)| == n && multiset(Copies(t, n))[x] == if x == t then n else 0
  {
    if n > 0 { CopiesCount(t, n - 1, x); }
  }

  /** How often f occurs in a row. */
  ghost function Occurs(row: seq<nat>, f: nat): nat {
    if row == [] then 0 else Occurs(row[..|row| - 1], f) + if row[|row| - 1] == f then 1 else 0
  }

  lemma {:induction false} OccursIsCount(row: seq<nat>, f: nat)
    ensures Occurs(row, f) == multiset(row)[f]
  {
    if row != [] {
      OccursIsCount(row[..|row| - 1], f);
      assert row == row[..|row| - 1] + [row[|row| - 1]];
    }
  }

  /** The entities t below n whose rows hold f, each as often as its row holds f. */
  ghost function Column(rows: seq<seq<nat>>, f: nat, n: nat): seq<nat>
    requires n <= |rows|
  {
    if n == 0 then [] else Column(rows, f, n - 1) + Copies(n - 1, Occurs(rows[n - 1], f))
  }

  /** ... and the first j entries of row n. */
  ghost function Partial(rows: seq<seq<nat>>, f: nat, n: nat, j: nat): seq<nat>
    requires n < |rows| && j <= |rows[n]|
  {
    Column(rows, f, n) + Copies(n, Occurs(rows[n][..j], f))
  }

  lemma PartialStep(rows: seq<seq<nat>>, f: nat, n: nat, j: nat)
    requires n < |rows| && j < |rows[n]|
    ensures Partial(rows, f, n, j + 1) == Partial(rows, f, n, j) + if rows[n][j] == f then [n] else []
  {
    assert rows[n][..j + 1][..j] == rows[n][..j];
  }

  lemma PartialEnds(rows: seq<seq<nat>>, f: nat, n: nat)
    requires n < |rows|
    ensures Partial(rows, f, n, 0) == Column(rows, f, n)
    ensures Partial(rows, f, n, |rows[n]|) == Column(rows, f, n + 1)
  {
    assert rows[n][..|rows[n]|] == rows[n];
    assert rows[n][..0] == [];
  }

  /** t occurs in column f as often as f occurs in row t. */
  lemma {:induction false} ColumnCount(rows: seq<seq<nat>>, f: nat, n: nat, t: nat)
    requires n <= |rows|
    ensures multiset(Column(rows, f, n))[t] == if t < n then multiset(rows[t])[f] else 0
  {
    if n > 0 {
      var m := Occurs(rows[n - 1], f);
      ColumnCount(rows, f, n - 1, t);
      OccursIsCount(rows[n - 1], f);
      CopiesCount(n - 1, m, t);
      assert multiset(Column(rows, f, n))[t] == multiset(Column(rows, f, n - 1))[t] + multiset(Copies(n - 1, m))[t];
    }
  }

  lemma {:induction false} ColumnGrows(rows: seq<seq<nat>>, f: nat, n: nat, m: nat)
    requires n <= m <= |rows|
    ensures |Column(rows, f, n)| <= |Column(rows, f, m)|
  {
    if n < m { ColumnGrows(rows, f, n, m - 1); }
  }

  lemma {:induction false} OccursGrows(row: seq<nat>, f: nat, j: nat)
    requires j <= |row|
    ensures Occurs(row[..j], f) <= Occurs(row, f)
    decreases |row|
  {
    if j < |row| {
      OccursGrows(row[..|row| - 1], f, j);
      assert row[..|row| - 1][..j] == row[..j];
    } else {
      assert row[..j] == row;
    }
  }

  /** While there are entries of f to come, column f is not complete. */
  lemma RoomLeft(rows: seq<seq<nat>>, n: nat, j: nat)
    requires n < |rows| && j < |rows[n]|
    ensures |Partial(rows, rows[n][j], n, j)| < |Column(rows, rows[n][j], |rows|)|
  {
    var f := rows[n][j];
    PartialStep(rows, f, n, j);
    OccursGrows(rows[n], f, j + 1);
    CopiesCount(n, Occurs(rows[n][..j + 1], f), 0);
    CopiesCount(n, Occurs(rows[n], f), 0);
    ColumnGrows(rows, f, n + 1, |rows|);
  }

  // ----- the storage ------------------------------------------------------------------------------------

  /** The slots of one group: the first ones set, the others not yet. */
  ghost predicate Group(slots: seq<Slot>, offsets: seq<nat>, f: nat, content: seq<nat>) {
    f + 1 < |offsets| && offsets[f] + |content| <= offsets[f + 1] <= |slots| &&
    (forall k :: 0 <= k < |content| ==> slots[offsets[f] + k] == Set(content[k])) &&
    forall k :: offsets[f] + |content| <= k < offsets[f + 1] ==> slots[k] == Unset
  }

  ghost predicate Holds(slots: seq<Slot>, offsets: seq<nat>, cs: seq<seq<nat>>) {
    |cs| + 1 == |offsets| && forall g :: 0 <= g < |cs| ==> Group(slots, offsets, g, cs[g])
  }

  class Connectivity {
    var offsets: seq<nat>
    var ids: array<Slot>

    ghost predicate Valid()
      reads this
    {
      |offsets| >= 1 && offsets[0] == 0 && Monotone(offsets) && offsets[|offsets| - 1] == ids.Length
    }

    constructor ()
      ensures Valid() && offsets == [0] && fresh(ids)
    {
      offsets := [0];
      ids := new Slot[0];
    }

    /** Makes one group of slots for each count. */
    method Resize(counts: seq<nat>)
      modifies this
      ensures Valid() && fresh(ids) && |offsets| == |counts| + 1
      ensures forall f :: 0 <= f < |counts| ==> offsets[f + 1] == offsets[f] + counts[f]
      ensures forall f :: 0 <= f < |counts| ==> Group(ids[..], offsets, f, [])
    {
      var offs: seq<nat>, n: nat := [0], 0;
      var i := 0;
      while i < |counts|
        invariant 0 <= i <= |counts| && |offs| == i + 1 && offs[0] == 0 && Monotone(offs) && offs[i] == n
        invariant forall f :: 0 <= f < i ==> offs[f + 1] == offs[f] + counts[f]
      {
        n := n + counts[i];
        offs := offs + [n];
        i := i + 1;
      }
      offsets := offs;
      ids := new Slot[n](_ => Unset);
    }

    /** Fills the next slot of group f, which must not have been filled before. */
    method SetOne(f: nat, to: nat, pos: nat, ghost contents: seq<seq<nat>>)
      requires Valid() && |contents| + 1 == |offsets| && f < |contents| && pos == |contents[f]|
      requires offsets[f] + pos < offsets[f + 1]
      requires Holds(ids[..], offsets, contents)
      modifies ids
      ensures old(ids[offsets[f] + pos]) == Unset
      ensures Holds(ids[..], offsets, contents[f := contents[f] + [to]])
    {
      ghost var before := ids[..];
      assert Group(before, offsets, f, contents[f]);
      assert offsets[f + 1] <= offsets[|offsets| - 1];
      assert before[offsets[f] + pos] == Unset;
      ids[offsets[f] + pos] := Set(to);
      ghost var after := ids[..];
      ghost var contents' := contents[f := contents[f] + [to]];
      forall g | 0 <= g < |contents| ensures Group(after, offsets, g, contents'[g]) {
        GroupAfterSet(before, after, offsets, f, to, g, contents);
      }
    }
  }

  lemma GroupAfterSet(before: seq<Slot>, after: seq<Slot>, offsets: seq<nat>, f: nat, to: nat, g: nat,
        contents: seq<seq<nat>>)
    requires |contents| + 1 == |offsets| && f < |contents| && g < |contents| && Monotone(offsets)
    requires Group(before, offsets, g, contents[g]) && offsets[f] + |contents[f]| < offsets[f + 1] <= |before|
    requires after == before[offsets[f] + |contents[f]| := Set(to)]
    ensures Group(after, offsets, g, contents[f := contents[f] + [to]][g])
  {
    if g < f {
      assert offsets[g + 1] <= offsets[f];
    } else if f < g {
      assert offsets[f + 1] <= offsets[g];
    }
  }

  // ----- the transpose ------------------------------------------------------------------------------------

  ghost predicate InRange(rows: seq<seq<nat>>, nf: nat) {
    forall t, j :: 0 <= t < |rows| && 0 <= j < |rows[t]| ==> rows[t][j] < nf
  }

  ghost function Columns(rows: seq<seq<nat>>, nf: nat, n: nat): (cs: seq<seq<nat>>)
    requires n <= |rows|
    ensures |cs| == nf && forall f :: 0 <= f < nf ==> cs[f] == Column(rows, f, n)
  {
    seq(nf, f requires 0 <= f < nf => Column(rows, f, n))
  }

  ghost function Partials(rows: seq<seq<nat>>, nf: nat, n: nat, j: nat): (cs: seq<seq<nat>>)
    requires n < |rows| && j <= |rows[n]|
    ensures |cs| == nf && forall f :: 0 <= f < nf ==> cs[f] == Partial(rows, f, n, j)
  {
    seq(nf, f requires 0 <= f < nf => Partial(rows, f, n, j))
  }

  lemma PartialsStep(rows: seq<seq<nat>>, nf: nat, n: nat, j: nat)
    requires n < |rows| && j < |rows[n]| && rows[n][j] < nf
    ensures
      var cs, f := Partials(rows, nf, n, j), rows[n][j];
      Partials(rows, nf, n, j + 1) == cs[f := cs[f] + [n]]
  {
    var cs, cs', g := Partials(rows, nf, n, j), Partials(rows, nf, n, j + 1), rows[n][j];
    forall f | 0 <= f < nf ensures cs'[f] == cs[g := cs[g] + [n]][f] {
      PartialStep(rows, f, n, j);
      assert cs[f] + [] == cs[f];
    }
  }

  lemma PartialsEnd(rows: seq<seq<nat>>, nf: nat, n: nat)
    requires n < |rows|
    ensures Partials(rows, nf, n, 0) == Columns(rows, nf, n)
    ensures Partials(rows, nf, n, |rows[n]|) == Columns(rows, nf, n + 1)
  {
    forall f | 0 <= f < nf
      ensures Partials(rows, nf, n, 0)[f] == Columns(rows, nf, n)[f]
      ensures Partials(rows, nf, n, |rows[n]|)[f] == Columns(rows, nf, n + 1)[f]
    {
      PartialEnds(rows, f, n);
    }
  }

  ghost function Sizes(cs: seq<seq<nat>>): (r: seq<nat>)
    ensures |r| == |cs| && forall f :: 0 <= f < |cs| ==> r[f] == |cs[f]|
  {
    seq(|cs|, f requires 0 <= f < |cs| => |cs[f]|)
  }

  /** How many entries go into each group. */
  method Count(rows: seq<seq<nat>>, nf: nat) returns (pos: seq<nat>)
    requires InRange(rows, nf)
    ensures pos == Sizes(Columns(rows, nf, |rows|))
  {
    pos := seq(nf, _ => 0);
    var t := 0;
    while t < |rows|
      invariant 0 <= t <= |rows| && pos == Sizes(Columns(rows, nf, t))
    {
      PartialsEnd(rows, nf, t);
      var j := 0;
      while j < |rows[t]|
        invariant 0 <= j <= |rows[t]| && pos == Sizes(Partials(rows, nf, t, j))
      {
        PartialsStep(rows, nf, t, j);
        pos := pos[rows[t][j] := pos[rows[t][j]] + 1];
        j := j + 1;
      }
      t := t + 1;
    }
  }

  /** There is room in every group for its whole column. */
  ghost predicate Roomy(offsets: seq<nat>, cs: seq<seq<nat>>) {
    |cs| + 1 == |offsets| && forall g :: 0 <= g < |cs| ==> offsets[g + 1] == offsets[g] + |cs[g]|
  }

  method PlaceRow(out: Connectivity, rows: seq<seq<nat>>, nf: nat, t: nat, pos: seq<nat>) returns (pos': seq<nat>)
    requires InRange(rows, nf) && t < |rows| && out.Valid() && |pos| == nf
    requires Roomy(out.offsets, Columns(rows, nf, |rows|))
    requires Holds(out.ids[..], out.offsets, Columns(rows, nf, t)) && pos == Sizes(Columns(rows, nf, t))
    modifies out.ids
    ensures Holds(out.ids[..], out.offsets, Columns(rows, nf, t + 1)) && pos' == Sizes(Columns(rows, nf, t + 1))
  {
    pos' := pos;
    PartialsEnd(rows, nf, t);
    var j := 0;
    while j < |rows[t]|
      invariant 0 <= j <= |rows[t]| && pos' == Sizes(Partials(rows, nf, t, j))
      invariant Holds(out.ids[..], out.offsets, Partials(rows, nf, t, j))
    {
      var f := rows[t][j];
      RoomLeft(rows, t, j);
      PartialsStep(rows, nf, t, j);
      out.SetOne(f, t, pos'[f], Partials(rows, nf, t, j));
      pos' := pos'[f := pos'[f] + 1];
      j := j + 1;
    }
  }

  /** Counts, makes room, and places every entry; each slot is written exactly once. */
  method Place(out: Connectivity, rows: seq<seq<nat>>, nf: nat)
    requires InRange(rows, nf) && out.Valid()
    modifies out
    ensures out.Valid() && fresh(out.ids) && Roomy(out.offsets, Columns(rows, nf, |rows|))
    ensures Holds(out.ids[..], out.offsets, Columns(rows, nf, |rows|))
  {
    var pos := Count(rows, nf);
    out.Resize(pos);
    pos := seq(nf, _ => 0);
    var t := 0;
    while t < |rows|
      invariant 0 <= t <= |rows| && out.Valid() && fresh(out.ids) && Roomy(out.offsets, Columns(rows, nf, |rows|))
      invariant Holds(out.ids[..], out.offsets, Columns(rows, nf, t)) && pos == Sizes(Columns(rows, nf, t))
    {
      pos := PlaceRow(out, rows, nf, t, pos);
      t := t + 1;
    }
  }

  // ----- ordering the groups -------------------------------------------------------------------------------

  /** An entity with its global id. */
  datatype Pair = Pair(gid: nat, id: nat)

  function Insert(x: Pair, q: seq<Pair>): seq<Pair> {
    if q == [] || x.gid <= q[0].gid then [x] + q else [q[0]] + Insert(x, q[1..])
  }

  /** Sorting by the first component. */
  function SortPairs(q: seq<Pair>): seq<Pair> {
    if q == [] then [] else Insert(q[0], SortPairs(q[1..]))
  }

  ghost predicate OrderedPairs(q: seq<Pair>) {
    forall i, j :: 0 <= i < j < |q| ==> q[i].gid <= q[j].gid
  }

  lemma MemberOf(r: seq<Pair>, x: Pair, q: seq<Pair>, y: Pair)
    requires multiset(r) == multiset{x} + multiset(q) && y in r
    ensures y == x || y in q
  {
    assert y in multiset(r);
  }

  lemma {:induction false} InsertElements(x: Pair, q: seq<Pair>)
    ensures multiset(Insert(x, q)) == multiset{x} + multiset(q)
  {
    if !(q == [] || x.gid <= q[0].gid) {
      InsertElements(x, q[1..]);
      assert q == [q[0]] + q[1..];
    }
  }

  lemma {:induction false} InsertOrders(x: Pair, q: seq<Pair>)
    requires OrderedPairs(q)
    ensures OrderedPairs(Insert(x, q))
  {
    if !(q == [] || x.gid <= q[0].gid) {
      var rest := Insert(x, q[1..]);
      InsertOrders(x, q[1..]);
      InsertElements(x, q[1..]);
      forall k | 0 <= k < |rest| ensures q[0].gid <= rest[k].gid {
        MemberOf(rest, x, q[1..], rest[k]);
      }
    }
  }

  lemma {:induction false} SortSorts(q: seq<Pair>)
    ensures multiset(SortPairs(q)) == multiset(q) && OrderedPairs(SortPairs(q))
  {
    if q != [] {
      SortSorts(q[1..]);
      InsertElements(q[0], SortPairs(q[1..]));
      InsertOrders(q[0], SortPairs(q[1..]));
      assert q == [q[0]] + q[1..];
    }
  }

  ghost predicate OrderedBy(q: seq<nat>, gid: seq<nat>) {
    (forall i :: 0 <= i < |q| ==> q[i] < |gid|) && forall i, j :: 0 <= i < j < |q| ==> gid[q[i]] <= gid[q[j]]
  }

  function Ids(q: seq<Pair>): (r: seq<nat>)
    ensures |r| == |q| && forall i :: 0 <= i < |q| ==> r[i] == q[i].id
  {
    seq(|q|, i requires 0 <= i < |q| => q[i].id)
  }

  lemma {:induction false} InsertIds(x: Pair, q: seq<Pair>)
    ensures multiset(Ids(Insert(x, q))) == multiset{x.id} + multiset(Ids(q))
  {
    if q == [] || x.gid <= q[0].gid {
      assert Ids([x] + q) == [x.id] + Ids(q);
    } else {
      InsertIds(x, q[1..]);
      assert Ids([q[0]] + Insert(x, q[1..])) == [q[0].id] + Ids(Insert(x, q[1..]));
      assert Ids(q) == [q[0].id] + Ids(q[1..]);
    }
  }

  lemma {:induction false} SortIds(q: seq<Pair>)
    ensures multiset(Ids(SortPairs(q))) == multiset(Ids(q))
  {
    if q != [] {
      SortIds(q[1..]);
      InsertIds(q[0], SortPairs(q[1..]));
      assert Ids(q) == [q[0].id] + Ids(q[1..]);
    }
  }

  /** Packs a group into pairs, sorts them by global id, and unpacks them again. */
  method SortGroup(q: seq<nat>, gid: seq<nat>) returns (r: seq<nat>)
    requires forall i :: 0 <= i < |q| ==> q[i] < |gid|
    ensures OrderedBy(r, gid) && multiset(r) == multiset(q)
  {
    var pairs := seq(|q|, i requires 0 <= i < |q| => Pair(gid[q[i]], q[i]));
    var sorted := SortPairs(pairs);
    SortSorts(pairs);
    SortIds(pairs);
    assert Ids(pairs) == q;
    r := Ids(sorted);
    forall i | 0 <= i < |sorted| ensures sorted[i].id < |gid| && sorted[i].gid == gid[sorted[i].id] {
      assert sorted[i] in multiset(pairs);
      assert sorted[i] in pairs;
    }
  }

  lemma ColumnInRange(rows: seq<seq<nat>>, f: nat)
    ensures forall i :: 0 <= i < |Column(rows, f, |rows|)| ==> Column(rows, f, |rows|)[i] < |rows|
  {
    var col := Column(rows, f, |rows|);
    forall i | 0 <= i < |col| ensures col[i] < |rows| {
      ColumnCount(rows, f, |rows|, col[i]);
      assert col[i] in multiset(col);
    }
  }

  /** The rows of a transpose: every group sorted by global id. */
  ghost predicate IsTranspose(rows: seq<seq<nat>>, nf: nat, gid: seq<nat>, out: seq<seq<nat>>) {
    |out| == nf && forall f :: 0 <= f < nf ==> IsColumn(rows, gid, f, out[f])
  }

  ghost predicate IsColumn(rows: seq<seq<nat>>, gid: seq<nat>, f: nat, q: seq<nat>) {
    OrderedBy(q, gid) && multiset(q) == multiset(Column(rows, f, |rows|))
  }

  /** Reads a group back; every slot of it has been set. */
  method ReadGroup(out: Connectivity, f: nat, ghost content: seq<nat>) returns (q: seq<nat>)
    requires out.Valid() && f + 1 < |out.offsets| && Group(out.ids[..], out.offsets, f, content)
    requires out.offsets[f + 1] == out.offsets[f] + |content|
    ensures q == content
  {
    q := [];
    var k := out.offsets[f];
    assert forall i :: 0 <= i < |content| ==> out.ids[..][out.offsets[f] + i] == Set(content[i]);
    while k < out.offsets[f + 1]
      invariant out.offsets[f] <= k <= out.offsets[f + 1] && q == content[..k - out.offsets[f]]
    {
      assert out.ids[..][out.offsets[f] + (k - out.offsets[f])] == Set(content[k - out.offsets[f]]);
      q := q + [out.ids[k].to];
      k := k + 1;
    }
  }

  method OneGroup(c: Connectivity, rows: seq<seq<nat>>, f: nat, gid: seq<nat>) returns (r: seq<nat>)
    requires c.Valid() && f + 1 < |c.offsets| && |gid| == |rows|
    requires Group(c.ids[..], c.offsets, f, Column(rows, f, |rows|))
    requires c.offsets[f + 1] == c.offsets[f] + |Column(rows, f, |rows|)|
    ensures IsColumn(rows, gid, f, r)
  {
    var q := ReadGroup(c, f, Column(rows, f, |rows|));
    ColumnInRange(rows, f);
    r := SortGroup(q, gid);
  }

  /** The transpose, ordered by the global ids of the entities; nothing is done when the
      output is there already, which is why it starts out empty. */
  method TransposeRows(rows: seq<seq<nat>>, nf: nat, gid: seq<nat>) returns (out: seq<seq<nat>>)
    requires InRange(rows, nf) && |gid| == |rows|
    ensures IsTranspose(rows, nf, gid, out)
  {
    var c := new Connectivity();
    Place(c, rows, nf);
    out := [];
    var f := 0;
    while f < nf
      invariant 0 <= f <= nf && |out| == f && c.Valid() && Roomy(c.offsets, Columns(rows, nf, |rows|))
      invariant Holds(c.ids[..], c.offsets, Columns(rows, nf, |rows|))
      invariant forall k :: 0 <= k < f ==> IsColumn(rows, gid, k, out[k])
    {
      var r := OneGroup(c, rows, f, gid);
      out := out + [r];
      f := f + 1;
    }
  }

  /** Transposing turns incidence around. */
  lemma TransposeCounts(rows: seq<seq<nat>>, nf: nat, gid: seq<nat>, out: seq<seq<nat>>, f: nat, t: nat)
    requires IsTranspose(rows, nf, gid, out) && f < nf
    ensures multiset(out[f])[t] == if t < |rows| then multiset(rows[t])[f] else 0
  {
    assert IsColumn(rows, gid, f, out[f]);
    ColumnCount(rows, f, |rows|, t);
  }

  lemma SameCounts(a: seq<nat>, b: seq<nat>)
    requires forall x :: multiset(a)[x] == multiset(b)[x]
    ensures multiset(a) == multiset(b)
  {}

  /** Transposing twice restores each row up to order. */
  lemma TransposeTwice(rows: seq<seq<nat>>, nf: nat, gid: seq<nat>, out: seq<seq<nat>>, gid': seq<nat>,
        back: seq<seq<nat>>, t: nat)
    requires InRange(rows, nf) && IsTranspose(rows, nf, gid, out) && IsTranspose(out, |rows|, gid', back) && t < |rows|
    ensures multiset(back[t]) == multiset(rows[t])
  {
    forall f: nat ensures multiset(back[t])[f] == multiset(rows[t])[f] {
      TransposeCounts(out, |rows|, gid', back, t, f);
      if f < nf {
        TransposeCounts(rows, nf, gid, out, f, t);
      } else {
        assert f !in rows[t];
      }
    }
    SameCounts(back[t], rows[t]);
  }
}
