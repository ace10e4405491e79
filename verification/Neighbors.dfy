/** Cells that share enough vertices: the definition, the one-pass counting
    algorithm, and the quadratic one it replaces. */
module Neighbors {
  import opened Base

  function Get<V>(m: map<nat, seq<V>>, k: nat): seq<V> {
    if k in m then m[k] else []
  }

  function Count(m: map<nat, nat>, k: nat): nat {
    if k in m then m[k] else 0
  }

  /** Number of vertices two cells have in common. */
  ghost function Common(a: seq<nat>, b: seq<nat>): nat {
    |ToSet(a) * ToSet(b)|
  }

  ghost predicate Adjacent(cells: seq<seq<nat>>, least: nat, c: nat, d: nat) {
    c < |cells| && d < |cells| && c != d && Common(cells[c], cells[d]) >= least
  }

  ghost function NeighborSet(cells: seq<seq<nat>>, least: nat, c: nat): (s: set<nat>)
    ensures forall d :: d in s <==> Adjacent(cells, least, c, d)
  {
    set d | 0 <= d < |cells| && Adjacent(cells, least, c, d)
  }

  lemma AdjacentSymmetric(cells: seq<seq<nat>>, least: nat, c: nat, d: nat)
    requires Adjacent(cells, least, c, d)
    ensures Adjacent(cells, least, d, c)
  {
    assert ToSet(cells[c]) * ToSet(cells[d]) == ToSet(cells[d]) * ToSet(cells[c]);
  }

  /** Every cell lists each of its vertices once. */
  ghost predicate EachOnce(cells: seq<seq<nat>>) {
    forall c :: 0 <= c < |cells| ==> Distinct(cells[c])
  }

  lemma CommonSnoc(row: seq<nat>, j: nat, other: seq<nat>)
    requires Distinct(row) && j < |row|
    ensures Common(row[..j + 1], other) == Common(row[..j], other) + if row[j] in other then 1 else 0
  {
    assert row[..j + 1] == row[..j] + [row[j]];
    assert row[j] !in row[..j];
    if row[j] in other {
      assert ToSet(row[..j + 1]) * ToSet(other) == ToSet(row[..j]) * ToSet(other) + {row[j]};
    } else {
      assert ToSet(row[..j + 1]) * ToSet(other) == ToSet(row[..j]) * ToSet(other);
    }
  }

  /** Counters exist only once they have been incremented. */
  ghost predicate Positive(counts: map<nat, nat>) {
    forall d :: d in counts ==> counts[d] > 0
  }

  /** One more for every listed cell but the cell itself. */
  method CountOthers(counts: map<nat, nat>, others: seq<nat>, self: nat) returns (counts': map<nat, nat>)
    requires Distinct(others) && Positive(counts)
    ensures Positive(counts')
    ensures forall d: nat :: Count(counts', d) == Count(counts, d) + if d in others && d != self then 1 else 0
  {
    counts' := counts;
    var i := 0;
    while i < |others|
      invariant 0 <= i <= |others| && Positive(counts')
      invariant forall d: nat :: Count(counts', d) == Count(counts, d) + if d in others[..i] && d != self then 1 else 0
    {
      assert others[..i + 1] == others[..i] + [others[i]];
      assert others[i] !in others[..i];
      if others[i] != self {
        counts' := counts'[others[i] := Count(counts', others[i]) + 1];
      }
      i := i + 1;
    }
    assert others[..i] == others;
  }

  // ----- one pass over all cells -------------------------------------------------------

  /** Cells below c that use v, and c itself once its vertex v has been passed. */
  ghost predicate UsersOf(cells: seq<seq<nat>>, c: nat, j: nat, v: nat, list: seq<nat>)
    requires c < |cells| && j <= |cells[c]|
  {
    StrictlyAscending(list) &&
    forall x: nat :: x in list <==> (x < c && v in cells[x]) || (x == c && v in cells[c][..j])
  }

  ghost predicate UsersBelow(cells: seq<seq<nat>>, c: nat, v: nat, list: seq<nat>)
    requires c <= |cells|
  {
    StrictlyAscending(list) && forall x: nat :: x in list <==> x < c && v in cells[x]
  }

  ghost predicate Passed(cells: seq<seq<nat>>, c: nat, v2c: map<nat, seq<nat>>) {
    c <= |cells| && forall v: nat :: UsersBelow(cells, c, v, Get(v2c, v))
  }

  lemma UsersBelowNext(cells: seq<seq<nat>>, c: nat, v: nat, list: seq<nat>)
    requires c < |cells|
    ensures UsersBelow(cells, c, v, list) <==> UsersOf(cells, c, 0, v, list)
    ensures UsersOf(cells, c, |cells[c]|, v, list) <==> UsersBelow(cells, c + 1, v, list)
  {
    assert cells[c][..|cells[c]|] == cells[c];
  }

  lemma UsersOfSnoc(cells: seq<seq<nat>>, c: nat, j: nat, v: nat, list: seq<nat>)
    requires c < |cells| && j < |cells[c]| && Distinct(cells[c]) && UsersOf(cells, c, j, v, list)
    ensures UsersOf(cells, c, j + 1, v, if v == cells[c][j] then list + [c] else list)
  {
    var row := cells[c];
    assert row[..j + 1] == row[..j] + [row[j]] && row[j] !in row[..j];
    assert forall k :: 0 <= k < |list| ==> list[k] in list;
  }

  ghost predicate CountedUpTo(cells: seq<seq<nat>>, c: nat, row: seq<nat>, counts: map<nat, nat>) {
    c <= |cells| && Positive(counts) &&
    forall d: nat :: Count(counts, d) == if d < c then Common(row, cells[d]) else 0
  }

  method CountCell(cells: seq<seq<nat>>, c: nat, v2c: map<nat, seq<nat>>)
    returns (v2c': map<nat, seq<nat>>, counts: map<nat, nat>)
    requires EachOnce(cells) && c < |cells| && Passed(cells, c, v2c)
    ensures Passed(cells, c + 1, v2c') && CountedUpTo(cells, c, cells[c], counts)
  {
    var row := cells[c];
    assert Distinct(row);
    v2c', counts := v2c, map[];
    var j := 0;
    forall v: nat ensures UsersOf(cells, c, 0, v, Get(v2c, v)) { UsersBelowNext(cells, c, v, Get(v2c, v)); }
    while j < |row|
      invariant 0 <= j <= |row|
      invariant forall v: nat :: UsersOf(cells, c, j, v, Get(v2c', v))
      invariant CountedUpTo(cells, c, row[..j], counts)
    {
      var v := row[j];
      ghost var was := v2c';
      v2c' := v2c'[v := Get(v2c', v) + [c]];
      forall w: nat ensures UsersOf(cells, c, j + 1, w, Get(v2c', w)) {
        UsersOfSnoc(cells, c, j, w, Get(was, w));
      }
      var users := Get(v2c', v);
      assert UsersOf(cells, c, j + 1, v, users);
      counts := CountVertex(cells, c, j, users, counts);
      j := j + 1;
    }
    assert row[..j] == row;
    forall v: nat ensures UsersBelow(cells, c + 1, v, Get(v2c', v)) { UsersBelowNext(cells, c, v, Get(v2c', v)); }
  }

  method CountVertex(cells: seq<seq<nat>>, c: nat, j: nat, users: seq<nat>, counts: map<nat, nat>)
    returns (counts': map<nat, nat>)
    requires c < |cells| && j < |cells[c]| && Distinct(cells[c]) && UsersOf(cells, c, j + 1, cells[c][j], users)
    requires CountedUpTo(cells, c, cells[c][..j], counts)
    ensures CountedUpTo(cells, c, cells[c][..j + 1], counts')
  {
    AscendingDistinct(users);
    counts' := CountOthers(counts, users, c);
    forall d: nat ensures Count(counts', d) == if d < c then Common(cells[c][..j + 1], cells[d]) else 0 {
      if d < c { CommonSnoc(cells[c], j, cells[d]); }
    }
  }

  /** Row x of the graph restricted to the cells below c. */
  ghost predicate RowBelow(cells: seq<seq<nat>>, least: nat, c: nat, x: nat, row: seq<nat>) {
    StrictlyAscending(row) && forall y: nat :: y in row <==> x < c && y < c && Adjacent(cells, least, x, y)
  }

  ghost predicate Linked(cells: seq<seq<nat>>, least: nat, c: nat, rows: map<nat, seq<nat>>) {
    forall x: nat :: RowBelow(cells, least, c, x, Get(rows, x))
  }

  /** ... and also to the edges between c and the cells in seen. */
  ghost predicate RowPartly(cells: seq<seq<nat>>, least: nat, c: nat, seen: seq<nat>, x: nat, row: seq<nat>) {
    StrictlyAscending(row) &&
    forall y: nat :: y in row <==>
      Adjacent(cells, least, x, y) && ((x < c && y < c) || (x == c && y in seen) || (y == c && x in seen))
  }

  ghost predicate PartlyLinked(cells: seq<seq<nat>>, least: nat, c: nat, seen: seq<nat>, rows: map<nat, seq<nat>>) {
    forall x: nat :: RowPartly(cells, least, c, seen, x, Get(rows, x))
  }

  lemma LinkOne(cells: seq<seq<nat>>, least: nat, c: nat, seen: seq<nat>, x: nat, row: seq<nat>, d: nat)
    requires RowPartly(cells, least, c, seen, x, row)
    requires d < c && d !in seen && forall y :: y in seen ==> y < d
    ensures RowPartly(cells, least, c, seen + [d], x,
                      if !Adjacent(cells, least, c, d) then row
                      else if x == c then row + [d] else if x == d then row + [c] else row)
  {
    if Adjacent(cells, least, c, d) { AdjacentSymmetric(cells, least, c, d); }
    if Adjacent(cells, least, d, c) { AdjacentSymmetric(cells, least, d, c); }
    assert forall k :: 0 <= k < |row| ==> row[k] in row;
  }

  lemma AllLinked(cells: seq<seq<nat>>, least: nat, c: nat, seen: seq<nat>, x: nat, row: seq<nat>)
    requires RowPartly(cells, least, c, seen, x, row)
    requires forall d: nat :: d < c && Adjacent(cells, least, c, d) ==> d in seen
    requires forall d :: d in seen ==> d < c
    ensures RowBelow(cells, least, c + 1, x, row)
  {
    if Adjacent(cells, least, x, c) { AdjacentSymmetric(cells, least, x, c); }
  }

  lemma NothingLinkedYet(cells: seq<seq<nat>>, least: nat, c: nat, rows: map<nat, seq<nat>>)
    requires Linked(cells, least, c, rows)
    ensures PartlyLinked(cells, least, c, [], rows)
  {
    forall x: nat ensures RowPartly(cells, least, c, [], x, Get(rows, x)) {
      assert RowBelow(cells, least, c, x, Get(rows, x));
    }
  }

  function WithEdge(rows: map<nat, seq<nat>>, c: nat, d: nat): map<nat, seq<nat>> {
    var rows1 := rows[c := Get(rows, c) + [d]];
    rows1[d := Get(rows1, d) + [c]]
  }

  lemma EdgeLinked(cells: seq<seq<nat>>, least: nat, c: nat, seen: seq<nat>, rows: map<nat, seq<nat>>, d: nat)
    requires PartlyLinked(cells, least, c, seen, rows)
    requires d < c && d !in seen && forall y :: y in seen ==> y < d
    ensures PartlyLinked(cells, least, c, seen + [d], if Adjacent(cells, least, c, d) then WithEdge(rows, c, d)
      else rows)
  {
    var rows' := if Adjacent(cells, least, c, d) then WithEdge(rows, c, d) else rows;
    forall x: nat ensures RowPartly(cells, least, c, seen + [d], x, Get(rows', x)) {
      LinkOne(cells, least, c, seen, x, Get(rows, x), d);
    }
  }

  lemma CountsAreCommon(cells: seq<seq<nat>>, c: nat, counts: map<nat, nat>)
    requires c < |cells| && CountedUpTo(cells, c, cells[c], counts)
    ensures forall d :: d in counts ==> d < c && counts[d] == Common(cells[c], cells[d])
    ensures forall d: nat :: d < c && Common(cells[c], cells[d]) > 0 ==> d in counts
  {
    forall d | d in counts ensures d < c && counts[d] == Common(cells[c], cells[d]) {
      assert Count(counts, d) == if d < c then Common(cells[c], cells[d]) else 0;
    }
    forall d: nat | d < c && Common(cells[c], cells[d]) > 0 ensures d in counts {
      assert Count(counts, d) == Common(cells[c], cells[d]);
    }
  }

  lemma EverythingLinked(cells: seq<seq<nat>>, least: nat, c: nat, seen: seq<nat>, rows: map<nat, seq<nat>>)
    requires PartlyLinked(cells, least, c, seen, rows)
    requires forall d: nat :: d < c && Adjacent(cells, least, c, d) ==> d in seen
    requires forall d :: d in seen ==> d < c
    ensures Linked(cells, least, c + 1, rows)
  {
    forall x: nat ensures RowBelow(cells, least, c + 1, x, Get(rows, x)) {
      AllLinked(cells, least, c, seen, x, Get(rows, x));
    }
  }

  /** Both directions of every edge between c and an earlier cell. */
  method LinkCell(cells: seq<seq<nat>>, thru: nat, c: nat, counts: map<nat, nat>, rows: map<nat, seq<nat>>)
    returns (rows': map<nat, seq<nat>>)
    requires c < |cells| && Linked(cells, thru + 1, c, rows) && CountedUpTo(cells, c, cells[c], counts)
    ensures Linked(cells, thru + 1, c + 1, rows')
  {
    CountsAreCommon(cells, c, counts);
    NothingLinkedYet(cells, thru + 1, c, rows);
    rows' := rows;
    var order := Ascending(counts.Keys);
    var i := 0;
    while i < |order|
      invariant 0 <= i <= |order|
      invariant PartlyLinked(cells, thru + 1, c, order[..i], rows')
    {
      var d := order[i];
      NextElement(order, i);
      EdgeLinked(cells, thru + 1, c, order[..i], rows', d);
      if counts[d] > thru {
        rows' := rows'[c := Get(rows', c) + [d]];
        rows' := rows'[d := Get(rows', d) + [c]];
      }
      i := i + 1;
    }
    assert order[..i] == order;
    EverythingLinked(cells, thru + 1, c, order, rows');
  }

  /** All rows of the cell graph in one pass: row c is the ascending list of the
      other cells sharing more than thru vertices with c. */
  method BuildNeighbors(cells: seq<seq<nat>>, thru: nat) returns (rows: map<nat, seq<nat>>)
    requires EachOnce(cells)
    ensures forall c: nat :: Get(rows, c) == Ascending(NeighborSet(cells, thru + 1, c))
  {
    var v2c: map<nat, seq<nat>> := map[];
    rows := map[];
    var c := 0;
    while c < |cells|
      invariant 0 <= c <= |cells|
      invariant Passed(cells, c, v2c)
      invariant Linked(cells, thru + 1, c, rows)
    {
      var counts;
      v2c, counts := CountCell(cells, c, v2c);
      rows := LinkCell(cells, thru, c, counts, rows);
      c := c + 1;
    }
    forall c: nat ensures Get(rows, c) == Ascending(NeighborSet(cells, thru + 1, c)) {
      assert RowBelow(cells, thru + 1, |cells|, c, Get(rows, c));
      AscendingUnique(Get(rows, c), Ascending(NeighborSet(cells, thru + 1, c)));
    }
  }

  // ----- closures ------------------------------------------------------------------------

  /** Neighbours of one cell by intersecting vertex sets with every other cell. */
  method EntityNeighbors(cells: seq<seq<nat>>, thru: nat, c: nat) returns (neighbors: set<nat>)
    requires c < |cells|
    ensures neighbors == NeighborSet(cells, thru + 1, c)
  {
    var vertices := set v | v in cells[c];
    neighbors := {};
    var e := 0;
    while e < |cells|
      invariant 0 <= e <= |cells|
      invariant forall d: nat :: d in neighbors <==> d < e && Adjacent(cells, thru + 1, c, d)
    {
      if e != c {
        var other := set v | v in cells[e];
        assert vertices == ToSet(cells[c]) && other == ToSet(cells[e]);
        assert |vertices * other| == Common(cells[c], cells[e]);
        if |vertices * other| > thru {
          neighbors := neighbors + {e};
        }
      }
      e := e + 1;
    }
  }

  ghost function Closure(cells: seq<seq<nat>>, least: nat, indices: seq<nat>): set<nat> {
    ToSet(indices) + set i, d | i in indices && d in NeighborSet(cells, least, i) :: d
  }

  lemma ClosureSnoc(cells: seq<seq<nat>>, least: nat, indices: seq<nat>, k: nat)
    requires k < |indices|
    ensures Closure(cells, least, indices[..k + 1]) ==
      Closure(cells, least, indices[..k]) + {indices[k]} + NeighborSet(cells, least, indices[k])
  {
    assert indices[..k + 1] == indices[..k] + [indices[k]];
    assert indices[k] in indices[..k + 1];
  }

  /** The listed cells and all their neighbours, through one pass over the mesh. */
  method NeighborClosure(cells: seq<seq<nat>>, thru: nat, indices: seq<nat>) returns (closure: set<nat>)
    requires EachOnce(cells)
    ensures closure == Closure(cells, thru + 1, indices)
  {
    var rows := BuildNeighbors(cells, thru);
    closure := set i | i in indices;
    var k := 0;
    while k < |indices|
      invariant 0 <= k <= |indices|
      invariant closure == ToSet(indices) + Closure(cells, thru + 1, indices[..k])
    {
      var row := Get(rows, indices[k]);
      ClosureSnoc(cells, thru + 1, indices, k);
      ghost var was := closure;
      closure := closure + set d | d in row;
      RowJoins(cells, thru + 1, indices, k, row, was, closure);
      k := k + 1;
    }
    assert indices[..k] == indices;
    assert ToSet(indices) <= closure;
  }

  lemma RowJoins(cells: seq<seq<nat>>, least: nat, indices: seq<nat>, k: nat, row: seq<nat>, was: set<nat>,
        now: set<nat>)
    requires k < |indices| && row == Ascending(NeighborSet(cells, least, indices[k]))
    requires was == ToSet(indices) + Closure(cells, least, indices[..k]) && now == was + set d | d in row
    ensures now == ToSet(indices) + Closure(cells, least, indices[..k + 1])
  {
    ClosureSnoc(cells, least, indices, k);
    assert (set d | d in row) == NeighborSet(cells, least, indices[k]);
    assert indices[k] in ToSet(indices);
  }
}
