/** Moving cells to the ranks that own their partitions. */
module Migrate {
  import opened Base
  import opened Origins
  import opened Distribution
  import opened Exchange
  import opened Coloring
  import opened Sums

  /** A cell: its row of the graph and whatever the mesh attaches to it. */
  datatype Element = Element(row: seq<nat>, payload: seq<nat>)

  // ----- where an element goes -------------------------------------------------------------

  /** The rank whose partitions include pid; an element of no rank's stays. */
  ghost predicate GoesTo(partDist: seq<nat>, P: nat, me: nat, pid: nat, d: nat)
    requires |partDist| == P + 1
  {
    if exists r: nat :: r < P && OwnedBy(partDist, pid, r) then d < P && OwnedBy(partDist, pid, d) else d == me
  }

  lemma GoesToOne(partDist: seq<nat>, P: nat, me: nat, pid: nat, d: nat, e: nat)
    requires |partDist| == P + 1 && Monotone(partDist)
    requires GoesTo(partDist, P, me, pid, d) && GoesTo(partDist, P, me, pid, e)
    ensures d == e
  {
    if exists r: nat :: r < P && OwnedBy(partDist, pid, r) {
      OwnerUnique(partDist, pid, d, e);
    }
  }

  ghost function Target(partDist: seq<nat>, P: nat, me: nat, pid: nat): (d: nat)
    requires |partDist| == P + 1
    ensures GoesTo(partDist, P, me, pid, d)
  {
    if r: nat :| r < P && OwnedBy(partDist, pid, r) then r else me
  }

  ghost function Targets(partDist: seq<nat>, P: nat, me: nat, pids: seq<nat>): (ts: seq<nat>)
    requires |partDist| == P + 1
    ensures |ts| == |pids| && forall i :: 0 <= i < |pids| ==> ts[i] == Target(partDist, P, me, pids[i])
  {
    seq(|pids|, i requires 0 <= i < |pids| => Target(partDist, P, me, pids[i]))
  }

  // ----- erasing -------------------------------------------------------------------------------

  lemma WithoutSnoc<T>(es: seq<T>, ids: set<nat>, k: nat)
    requires k < |es|
    ensures Without(es[..k + 1], ids) == Without(es[..k], ids) + if k in ids then [] else [es[k]]
  {
    assert es[..k + 1][..k] == es[..k];
  }

  /** Erasing what goes elsewhere leaves what stays. */
  lemma {:induction false} WithoutIsSelect<T>(es: seq<T>, ts: seq<nat>, ids: set<nat>, me: nat)
    requires |es| == |ts| && forall i: nat :: i < |es| ==> (i in ids <==> ts[i] != me)
    ensures Without(es, ids) == Select(es, ts, me)
  {
    if es != [] {
      var k := |es| - 1;
      WithoutIsSelect(es[..k], ts[..k], ids, me);
    }
  }

  /** Rows and payloads of the cells a rank holds. */
  class Part {
    var crs: Crs
    var payloads: seq<seq<nat>>

    ghost predicate Valid()
      reads this
    {
      crs.Valid() && |crs.offsets| == |payloads| + 1
    }

    ghost function Contents(): (es: seq<Element>)
      requires Valid()
      reads this
      ensures |es| == |payloads|
    {
      Zip(RowsOf(crs), payloads)
    }

    constructor ()
      ensures Valid() && Contents() == []
    {
      crs, payloads := Crs([0], []), [];
    }

    /** Compacts rows and payloads; ids are ascending positions. */
    method Erase(ids: seq<nat>)
      requires Valid() && StrictlyAscending(ids)
      requires forall i :: i in ids ==> i < |payloads|
      modifies this
      ensures Valid() && Contents() == Without(old(Contents()), ToSet(ids))
    {
      crs, payloads := Compact(crs, payloads, ids);
    }

    method Append(row: seq<nat>, payload: seq<nat>)
      requires Valid()
      modifies this
      ensures Valid() && Contents() == old(Contents()) + [Element(row, payload)]
    {
      crs, payloads := KeepRow(crs, payloads, row, payload);
    }
  }

  /** The new arrays of an erase: a second iterator runs along the sorted ids. */
  method Compact(crs: Crs, payloads: seq<seq<nat>>, ids: seq<nat>) returns (crs': Crs, payloads': seq<seq<nat>>)
    requires crs.Valid() && |crs.offsets| == |payloads| + 1 && StrictlyAscending(ids)
    ensures crs'.Valid() && |crs'.offsets| == |payloads'| + 1
    ensures Zip(RowsOf(crs'), payloads') == Without(Zip(RowsOf(crs), payloads), ToSet(ids))
  {
    ghost var es := Zip(RowsOf(crs), payloads);
    crs', payloads' := Crs([0], []), [];
    var next, i := 0, 0;
    while i < |payloads|
      invariant 0 <= i <= |payloads| && 0 <= next <= |ids|
      invariant forall k :: 0 <= k < next ==> ids[k] < i
      invariant forall k :: next <= k < |ids| ==> i <= ids[k]
      invariant crs'.Valid() && |crs'.offsets| == |payloads'| + 1
      invariant Zip(RowsOf(crs'), payloads') == Without(es[..i], ToSet(ids))
    {
      WithoutSnoc(es, ToSet(ids), i);
      if next < |ids| && ids[next] == i {
        assert i in ids;
        next := next + 1;
      } else {
        assert i !in ids;
        crs', payloads' := KeepRow(crs', payloads', crs.Row(i), payloads[i]);
      }
      i := i + 1;
    }
    assert es[..i] == es;
  }

  method KeepRow(crs: Crs, payloads: seq<seq<nat>>, row: seq<nat>, payload: seq<nat>)
    returns (crs': Crs, payloads': seq<seq<nat>>)
    requires crs.Valid() && |crs.offsets| == |payloads| + 1
    ensures crs'.Valid() && |crs'.offsets| == |payloads'| + 1
    ensures Zip(RowsOf(crs'), payloads') == Zip(RowsOf(crs), payloads) + [Element(row, payload)]
  {
    StoredRowsAre(crs, RowsOf(crs));
    RowAppended(crs, RowsOf(crs), row);
    crs', payloads' := AppendRow(crs, row), payloads + [payload];
    StoredRowsAre(crs', RowsOf(crs) + [row]);
    ZipSnoc(RowsOf(crs), payloads, row, payload);
  }

  ghost function Zip(rows: seq<seq<nat>>, payloads: seq<seq<nat>>): seq<Element>
    requires |rows| == |payloads|
  {
    seq(|rows|, i requires 0 <= i < |rows| => Element(rows[i], payloads[i]))
  }

  lemma ZipSnoc(rows: seq<seq<nat>>, payloads: seq<seq<nat>>, row: seq<nat>, payload: seq<nat>)
    requires |rows| == |payloads|
    ensures Zip(rows + [row], payloads + [payload]) == Zip(rows, payloads) + [Element(row, payload)]
  {}

  // ----- records ----------------------------------------------------------------------------------

  /** Global id, row length, row, payload length, payload. */
  function Record(gid: nat, e: Element): seq<nat> {
    [gid, |e.row|] + e.row + [|e.payload|] + e.payload
  }

  ghost predicate Encodes(rec: seq<nat>, e: Element) {
    rec != [] && rec == Record(rec[0], e)
  }

  /** The records rank me sends to d: one for each selected element, in order. */
  ghost function RecordsFor(es: seq<Element>, ts: seq<nat>, start: nat, d: nat): seq<seq<nat>>
    requires |es| == |ts|
  {
    if es == [] then []
    else
      var k := |es| - 1;
      RecordsFor(es[..k], ts[..k], start, d) + if ts[k] == d then [Record(start + k, es[k])] else []
  }

  lemma RecordsForSnoc(es: seq<Element>, ts: seq<nat>, start: nat, d: nat, k: nat)
    requires |es| == |ts| && k < |es|
    ensures RecordsFor(es[..k + 1], ts[..k + 1], start, d) ==
      RecordsFor(es[..k], ts[..k], start, d) + if ts[k] == d then [Record(start + k, es[k])] else []
  {
    assert es[..k + 1][..k] == es[..k] && ts[..k + 1][..k] == ts[..k];
  }

  ghost predicate EncodeAll(recs: seq<seq<nat>>, es: seq<Element>) {
    |recs| == |es| && forall k :: 0 <= k < |es| ==> Encodes(recs[k], es[k])
  }

  lemma {:induction false} RecordsEncodeSelection(es: seq<Element>, ts: seq<nat>, start: nat, d: nat)
    requires |es| == |ts|
    ensures EncodeAll(RecordsFor(es, ts, start, d), Select(es, ts, d))
  {
    if es != [] {
      var k := |es| - 1;
      RecordsEncodeSelection(es[..k], ts[..k], start, d);
      assert Encodes(Record(start + k, es[k]), es[k]);
    }
  }

  // ----- packing ------------------------------------------------------------------------------------

  lemma TestedTarget(partDist: seq<nat>, P: nat, me: nat, pid: nat, d: nat)
    requires |partDist| == P + 1 && Monotone(partDist) && d < P && me < P && d != me
    ensures Target(partDist, P, me, pid) == d <==> !OwnedBy(partDist, pid, me) && OwnedBy(partDist, pid, d)
  {
    if OwnedBy(partDist, pid, d) { GoesToOne(partDist, P, me, pid, d, Target(partDist, P, me, pid)); }
    if OwnedBy(partDist, pid, me) { GoesToOne(partDist, P, me, pid, me, Target(partDist, P, me, pid)); }
  }

  /** Positions below n that go to d. */
  ghost predicate PositionsFor(ts: seq<nat>, n: nat, d: nat, ids: seq<nat>) {
    n <= |ts| && StrictlyAscending(ids) && forall i: nat :: i in ids <==> i < n && ts[i] == d
  }

  lemma PositionsSnoc(ts: seq<nat>, n: nat, d: nat, ids: seq<nat>)
    requires PositionsFor(ts, n, d, ids) && n < |ts|
    ensures PositionsFor(ts, n + 1, d, if ts[n] == d then ids + [n] else ids)
  {
    assert forall k :: 0 <= k < |ids| ==> ids[k] in ids;
  }

  lemma BlockSnocFor(es: seq<Element>, ts: seq<nat>, start: nat, d: nat, k: nat)
    requires |es| == |ts| && k < |es|
    ensures Flatten(RecordsFor(es[..k + 1], ts[..k + 1], start, d)) ==
      Flatten(RecordsFor(es[..k], ts[..k], start, d)) + if ts[k] == d then Record(start + k, es[k]) else []
  {
    var recs := RecordsFor(es[..k], ts[..k], start, d);
    RecordsForSnoc(es, ts, start, d, k);
    if ts[k] == d {
      FlattenSnoc(recs, Record(start + k, es[k]));
    } else {
      assert recs + [] == recs;
    }
  }

  /** The first n elements are packed. */
  ghost predicate Packed(es: seq<Element>, ts: seq<nat>, start: nat, d: nat, n: nat, block: seq<nat>, ids: seq<nat>) {
    |es| == |ts| && n <= |es| &&
    block == Flatten(RecordsFor(es[..n], ts[..n], start, d)) && PositionsFor(ts, n, d, ids)
  }

  lemma PackedNext(es: seq<Element>, ts: seq<nat>, start: nat, d: nat, n: nat, block: seq<nat>, ids: seq<nat>)
    requires Packed(es, ts, start, d, n, block, ids) && n < |es|
    ensures
      if ts[n] == d then Packed(es, ts, start, d, n + 1, block + Record(start + n, es[n]), ids + [n])
      else Packed(es, ts, start, d, n + 1, block, ids)
  {
    PositionsSnoc(ts, n, d, ids);
    BlockSnocFor(es, ts, start, d, n);
    assert ts[n] != d ==> block + [] == block;
  }

  method ElementAt(part: Part, k: nat) returns (e: Element)
    requires part.Valid() && k < |part.payloads|
    ensures e == part.Contents()[k]
  {
    e := Element(part.crs.Row(k), part.payloads[k]);
  }

  /** One element is tested and, if it goes to d, packed. */
  method PackNext(part: Part, n: nat, goes: bool, start: nat, ghost d: nat, ghost ts: seq<nat>, block: seq<nat>,
        ids: seq<nat>)
    returns (block': seq<nat>, ids': seq<nat>)
    requires part.Valid() && n < |part.payloads|
    requires Packed(part.Contents(), ts, start, d, n, block, ids) && (goes <==> ts[n] == d)
    ensures Packed(part.Contents(), ts, start, d, n + 1, block', ids')
  {
    PackedNext(part.Contents(), ts, start, d, n, block, ids);
    block', ids' := block, ids;
    if goes {
      var e := ElementAt(part, n);
      block', ids' := block + Record(start + n, e), ids + [n];
    }
  }

  method PackFor(part: Part, pids: seq<nat>, partDist: seq<nat>, P: nat, me: nat, start: nat, d: nat)
    returns (block: seq<nat>, ids: seq<nat>)
    requires part.Valid() && |pids| == |part.payloads| && |partDist| == P + 1 && Monotone(partDist)
    requires d < P && me < P && d != me
    ensures Packed(part.Contents(), Targets(partDist, P, me, pids), start, d, |pids|, block, ids)
  {
    ghost var ts := Targets(partDist, P, me, pids);
    block, ids := [], [];
    var localId := 0;
    while localId < |pids|
      invariant 0 <= localId <= |pids|
      invariant Packed(part.Contents(), ts, start, d, localId, block, ids)
    {
      var goes := !OwnedBy(partDist, pids[localId], me) && OwnedBy(partDist, pids[localId], d);
      TestedTarget(partDist, P, me, pids[localId], d);
      block, ids := PackNext(part, localId, goes, start, d, ts, block, ids);
      localId := localId + 1;
    }
  }

  ghost predicate Leavers(ts: seq<nat>, me: nat, upto: nat, ids: seq<nat>) {
    Distinct(ids) && forall i: nat :: i in ids <==> i < |ts| && ts[i] != me && ts[i] < upto
  }

  lemma LeaversGrow(ts: seq<nat>, me: nat, d: nat, ids: seq<nat>, more: seq<nat>)
    requires Leavers(ts, me, d, ids)
    requires if d == me then more == [] else PositionsFor(ts, |ts|, d, more)
    ensures Leavers(ts, me, d + 1, ids + more)
  {
    var all := ids + more;
    forall i, j | 0 <= i < j < |all| ensures all[i] != all[j] {
      if i < |ids| <= j {
        assert all[i] in ids && all[j] in more;
      }
    }
    forall i: nat ensures i in all <==> i < |ts| && ts[i] != me && ts[i] < d + 1 {
      assert i in all <==> i in ids || i in more;
    }
  }

  ghost predicate BlockAt(buf: seq<nat>, displs: seq<nat>, q: nat, want: seq<nat>) {
    q + 1 < |displs| && displs[q] <= displs[q + 1] <= |buf| && buf[displs[q]..displs[q + 1]] == want
  }

  lemma BlockKept(buf: seq<nat>, displs: seq<nat>, q: nat, want: seq<nat>, block: seq<nat>, end: nat)
    requires BlockAt(buf, displs, q, want)
    ensures BlockAt(buf + block, displs + [end], q, want)
  {}

  lemma BlockNew(buf: seq<nat>, displs: seq<nat>, d: nat, block: seq<nat>)
    requires |displs| == d + 1 && displs[d] == |buf|
    ensures BlockAt(buf + block, displs + [|buf + block|], d, block)
  {}

  /** The block of rank me for rank d. */
  ghost function BlockFor(es: seq<Element>, ts: seq<nat>, start: nat, me: nat, d: nat): seq<nat>
    requires |es| == |ts|
  {
    if d == me then [] else Flatten(RecordsFor(es, ts, start, d))
  }

  ghost predicate BlocksBelow(buf: seq<nat>, displs: seq<nat>, es: seq<Element>, ts: seq<nat>, start: nat, me: nat,
        d: nat)
    requires |es| == |ts|
  {
    |displs| == d + 1 && displs[0] == 0 && displs[d] == |buf| &&
    forall q :: 0 <= q < d ==> BlockAt(buf, displs, q, BlockFor(es, ts, start, me, q))
  }

  lemma BlocksGrow(buf: seq<nat>, displs: seq<nat>, es: seq<Element>, ts: seq<nat>, start: nat, me: nat, d: nat,
        block: seq<nat>)
    requires |es| == |ts| && BlocksBelow(buf, displs, es, ts, start, me, d) && block == BlockFor(es, ts, start, me, d)
    ensures BlocksBelow(buf + block, displs + [|buf + block|], es, ts, start, me, d + 1)
  {
    forall q | 0 <= q < d ensures BlockAt(buf + block, displs + [|buf + block|], q, BlockFor(es, ts, start, me, q)) {
      BlockKept(buf, displs, q, BlockFor(es, ts, start, me, q), block, |buf + block|);
    }
    BlockNew(buf, displs, d, block);
  }

  /** One flat buffer, block after block, and the positions of all that leave. */
  method PackLeavers(part: Part, pids: seq<nat>, partDist: seq<nat>, P: nat, me: nat, start: nat)
    returns (sent: seq<seq<nat>>, ids: seq<nat>)
    requires part.Valid() && |pids| == |part.payloads| && |partDist| == P + 1 && Monotone(partDist) && me < P
    ensures |sent| == P
    ensures
      var ts := Targets(partDist, P, me, pids);
      (forall d :: 0 <= d < P ==> sent[d] == BlockFor(part.Contents(), ts, start, me, d)) && Leavers(ts, me, P, ids)
  {
    ghost var es, ts := part.Contents(), Targets(partDist, P, me, pids);
    var buf: seq<nat>, displs: seq<nat> := [], [0];
    ids := [];
    var d := 0;
    while d < P
      invariant 0 <= d <= P && BlocksBelow(buf, displs, es, ts, start, me, d)
      invariant Leavers(ts, me, d, ids)
    {
      var block, more: seq<nat> := [], [];
      if d != me {
        block, more := PackFor(part, pids, partDist, P, me, start, d);
        assert es[..|pids|] == es && ts[..|pids|] == ts;
      }
      LeaversGrow(ts, me, d, ids, more);
      BlocksGrow(buf, displs, es, ts, start, me, d, block);
      buf, ids := buf + block, ids + more;
      displs := displs + [|buf|];
      d := d + 1;
    }
    sent := CutBlocks(buf, displs, P, seq(P, q requires 0 <= q < P => BlockFor(es, ts, start, me, q)));
  }

  method CutBlocks(buf: seq<nat>, displs: seq<nat>, P: nat, ghost want: seq<seq<nat>>) returns (sent: seq<seq<nat>>)
    requires |want| == P && forall q :: 0 <= q < P ==> BlockAt(buf, displs, q, want[q])
    ensures sent == want
  {
    sent := [];
    var q := 0;
    while q < P
      invariant 0 <= q <= P && sent == want[..q]
    {
      assert BlockAt(buf, displs, q, want[q]);
      sent, q := sent + [buf[displs[q]..displs[q + 1]]], q + 1;
    }
  }

  /** Elements that leave are packed, then erased; each leaves to one rank only. */
  method PackAndErase(part: Part, pids: seq<nat>, partDist: seq<nat>, P: nat, me: nat, start: nat)
    returns (sent: seq<seq<nat>>)
    requires part.Valid() && |pids| == |part.payloads| && |partDist| == P + 1 && Monotone(partDist) && me < P
    modifies part
    ensures part.Valid() && |sent| == P
    ensures
      var ts := Targets(partDist, P, me, pids);
      part.Contents() == Select(old(part.Contents()), ts, me) &&
      forall d :: 0 <= d < P ==> sent[d] == BlockFor(old(part.Contents()), ts, start, me, d)
  {
    ghost var es, ts := part.Contents(), Targets(partDist, P, me, pids);
    var ids;
    sent, ids := PackLeavers(part, pids, partDist, P, me, start);
    var sorted := SortUnique(ids);
    DistinctSize(ids);
    assert ToSet(sorted) == ToSet(ids);
    AscendingDistinct(sorted);
    DistinctSize(sorted);
    assert |sorted| == |ids|;  // no id is to be deleted twice
    part.Erase(sorted);
    WithoutIsSelect(es, ts, ToSet(sorted), me);
  }

  // ----- unpacking ------------------------------------------------------------------------------------

  lemma RecordParts(rec: seq<nat>, e: Element)
    requires Encodes(rec, e)
    ensures
      var n := |e.row|;
      |rec| == 3 + n + |e.payload| && rec[1] == n && rec[2..2 + n] == e.row &&
      rec[2 + n] == |e.payload| && rec[3 + n..] == e.payload
  {}

  method ReadRecord(words: seq<nat>, i: nat, ghost rec: seq<nat>, ghost e: Element)
    returns (row: seq<nat>, payload: seq<nat>, next: nat)
    requires Encodes(rec, e) && i + |rec| <= |words| && words[i..i + |rec|] == rec
    ensures Element(row, payload) == e && next == i + |rec|
  {
    assert forall j :: 0 <= j < |rec| ==> words[i + j] == rec[j];
    RecordParts(rec, e);
    var n := words[i + 1];
    row := words[i + 2..i + 2 + n];
    assert row == rec[2..2 + n];
    var m := words[i + 2 + n];
    payload := words[i + 3 + n..i + 3 + n + m];
    assert payload == rec[3 + n..];
    next := i + 3 + n + m;
  }

  /** Appends the elements of one sender; the buffer is used up exactly. */
  method UnpackFrom(part: Part, words: seq<nat>, ghost recs: seq<seq<nat>>, ghost es: seq<Element>)
    requires part.Valid() && words == Flatten(recs) && EncodeAll(recs, es)
    modifies part
    ensures part.Valid() && part.Contents() == old(part.Contents()) + es
  {
    var i := 0;
    ghost var k := 0;
    forall j | 0 <= j < |recs| ensures recs[j] != [] { assert Encodes(recs[j], es[j]); }
    NextRecord(words, 0, recs, 0);
    while i < |words|
      invariant 0 <= i <= |words| && 0 <= k <= |recs| && words[i..] == Flatten(recs[k..])
      invariant part.Valid() && part.Contents() == old(part.Contents()) + es[..k]
      decreases |words| - i
    {
      NextRecord(words, i, recs, k);
      assert Encodes(recs[k], es[k]);
      var row, payload, next := ReadRecord(words, i, recs[k], es[k]);
      part.Append(row, payload);
      assert es[..k + 1] == es[..k] + [es[k]];
      i, k := next, k + 1;
    }
    NextRecord(words, i, recs, k);
    assert es[..k] == es;
  }

  // ----- all ranks --------------------------------------------------------------------------------------

  lemma IncomingNext<T>(all: seq<seq<T>>, ts: seq<seq<nat>>, me: nat, r: nat)
    requires SameShape(all, ts) && r < |all| && me < |all|
    ensures
      var more := if r == me then [] else Select(all[r], ts[r], me);
      Select(all[me], ts[me], me) + Incoming(all, ts, me, r + 1) == Select(all[me], ts[me], me) +
        Incoming(all, ts, me, r) + more
  {}

  method UnpackRank(part: Part, me: nat, r: nat, words: seq<nat>, ghost all: seq<seq<Element>>, ghost ts: seq<seq<nat>>,
        ghost start: nat)
    requires part.Valid() && SameShape(all, ts) && r < |all| && me < |all|
    requires words == BlockFor(all[r], ts[r], start, r, me)
    requires part.Contents() == Select(all[me], ts[me], me) + Incoming(all, ts, me, r)
    modifies part
    ensures part.Valid() && part.Contents() == Select(all[me], ts[me], me) + Incoming(all, ts, me, r + 1)
  {
    IncomingNext(all, ts, me, r);
    if r == me {
      UnpackFrom(part, words, [], []);
    } else {
      RecordsEncodeSelection(all[r], ts[r], start, me);
      UnpackFrom(part, words, RecordsFor(all[r], ts[r], start, me), Select(all[r], ts[r], me));
    }
  }

  method UnpackAll(part: Part, me: nat, recv: seq<seq<nat>>, ghost all: seq<seq<Element>>, ghost ts: seq<seq<nat>>,
        ghost starts: seq<nat>)
    requires part.Valid() && SameShape(all, ts) && |all| == |recv| <= |starts| && me < |all|
    requires forall q :: 0 <= q < |all| ==> recv[q] == BlockFor(all[q], ts[q], starts[q], q, me)
    requires part.Contents() == Select(all[me], ts[me], me)
    modifies part
    ensures part.Valid() && part.Contents() == Final(all, ts, me)
  {
    var r := 0;
    assert part.Contents() == Select(all[me], ts[me], me) + Incoming(all, ts, me, 0);
    while r < |recv|
      invariant 0 <= r <= |recv|
      invariant part.Valid() && part.Contents() == Select(all[me], ts[me], me) + Incoming(all, ts, me, r)
    {
      UnpackRank(part, me, r, recv[r], all, ts, starts[r]);
      r := r + 1;
    }
  }

  ghost predicate DistinctParts(parts: seq<Part>) {
    forall i, j :: 0 <= i < j < |parts| ==> parts[i] != parts[j]
  }

  ghost predicate Holds(part: Part, es: seq<Element>)
    reads part
  {
    part.Valid() && part.Contents() == es
  }

  ghost predicate HoldAll(parts: seq<Part>, all: seq<seq<Element>>)
    reads set p | p in parts
  {
    |all| == |parts| && forall r :: 0 <= r < |parts| ==> Holds(parts[r], all[r])
  }

  ghost function AllTargets(partDist: seq<nat>, pids: seq<seq<nat>>): (ts: seq<seq<nat>>)
    requires |partDist| == |pids| + 1
    ensures |ts| == |pids| && forall r :: 0 <= r < |pids| ==> ts[r] == Targets(partDist, |pids|, r, pids[r])
  {
    seq(|pids|, r requires 0 <= r < |pids| => Targets(partDist, |pids|, r, pids[r]))
  }

  /** What each rank keeps. */
  ghost function Kept<T>(all: seq<seq<T>>, ts: seq<seq<nat>>): (kept: seq<seq<T>>)
    requires SameShape(all, ts)
    ensures |kept| == |all| && forall r :: 0 <= r < |all| ==> kept[r] == Select(all[r], ts[r], r)
  {
    seq(|all|, r requires 0 <= r < |all| => Select(all[r], ts[r], r))
  }

  /** The ranks below r are done. */
  ghost function Mixed<T>(done: seq<seq<T>>, todo: seq<seq<T>>, r: nat): seq<seq<T>>
    requires |done| == |todo| && r <= |done|
  {
    done[..r] + todo[r..]
  }

  lemma MixedNext<T>(done: seq<seq<T>>, todo: seq<seq<T>>, r: nat)
    requires |done| == |todo| && r < |done|
    ensures |Mixed(done, todo, r)| == |done| && Mixed(done, todo, r)[r] == todo[r]
    ensures Mixed(done, todo, r)[r := done[r]] == Mixed(done, todo, r + 1)
  {}

  lemma MixedEnds<T>(done: seq<seq<T>>, todo: seq<seq<T>>)
    requires |done| == |todo|
    ensures Mixed(done, todo, 0) == todo && Mixed(done, todo, |done|) == done
  {}

  ghost predicate SentRight(out: seq<seq<nat>>, P: nat, es: seq<Element>, ts: seq<nat>, start: nat, me: nat) {
    |out| == P && |es| == |ts| && forall d :: 0 <= d < P ==> out[d] == BlockFor(es, ts, start, me, d)
  }

  /** One rank's packing, seen by all: the other ranks are left alone. */
  method PackRank(parts: seq<Part>, r: nat, pids: seq<nat>, partDist: seq<nat>, start: nat,
        ghost now: seq<seq<Element>>)
    returns (out: seq<seq<nat>>)
    requires DistinctParts(parts) && HoldAll(parts, now) && r < |parts|
    requires |pids| == |now[r]| && |partDist| == |parts| + 1 && Monotone(partDist)
    modifies parts[r]
    ensures
      var ts := Targets(partDist, |parts|, r, pids);
      SentRight(out, |parts|, now[r], ts, start, r) && HoldAll(parts, now[r := Select(now[r], ts, r)])
  {
    ghost var ts := Targets(partDist, |parts|, r, pids);
    assert Holds(parts[r], now[r]);
    out := PackAndErase(parts[r], pids, partDist, |parts|, r, start);
    forall q | 0 <= q < |parts| ensures Holds(parts[q], now[r := Select(now[r], ts, r)][q]) {
      if q != r {
        assert parts[q] != parts[r];
        assert old(Holds(parts[q], now[q]));
      }
    }
  }

  method PackEverything(parts: seq<Part>, pids: seq<seq<nat>>, partDist: seq<nat>, starts: seq<nat>,
        ghost all: seq<seq<Element>>)
    returns (sent: seq<seq<seq<nat>>>)
    requires DistinctParts(parts) && HoldAll(parts, all)
    requires |pids| == |parts| <= |starts| && |partDist| == |parts| + 1 && Monotone(partDist)
    requires SameShape(all, AllTargets(partDist, pids))
    modifies set p | p in parts
    ensures |sent| == |parts| && HoldAll(parts, Kept(all, AllTargets(partDist, pids)))
    ensures forall q :: 0 <= q < |parts| ==>
      SentRight(sent[q], |parts|, all[q], AllTargets(partDist, pids)[q], starts[q], q)
  {
    var P := |parts|;
    ghost var ts := AllTargets(partDist, pids);
    ghost var kept := Kept(all, ts);
    MixedEnds(kept, all);
    sent := [];
    var r := 0;
    while r < P
      invariant 0 <= r <= P && |sent| == r && HoldAll(parts, Mixed(kept, all, r))
      invariant forall q :: 0 <= q < r ==> SentRight(sent[q], P, all[q], ts[q], starts[q], q)
    {
      MixedNext(kept, all, r);
      var out := PackRank(parts, r, pids[r], partDist, starts[r], Mixed(kept, all, r));
      sent, r := sent + [out], r + 1;
    }
  }

  method UnpackAt(parts: seq<Part>, r: nat, recv: seq<seq<nat>>, ghost now: seq<seq<Element>>,
        ghost all: seq<seq<Element>>, ghost ts: seq<seq<nat>>, ghost starts: seq<nat>)
    requires DistinctParts(parts) && HoldAll(parts, now) && r < |parts|
    requires SameShape(all, ts) && |all| == |parts| == |recv| <= |starts| && now[r] == Select(all[r], ts[r], r)
    requires forall q :: 0 <= q < |parts| ==> recv[q] == BlockFor(all[q], ts[q], starts[q], q, r)
    modifies parts[r]
    ensures HoldAll(parts, now[r := Final(all, ts, r)])
  {
    assert Holds(parts[r], now[r]);
    UnpackAll(parts[r], r, recv, all, ts, starts);
    forall q | 0 <= q < |parts| ensures Holds(parts[q], now[r := Final(all, ts, r)][q]) {
      if q != r {
        assert parts[q] != parts[r];
        assert old(Holds(parts[q], now[q]));
      }
    }
  }

  method UnpackEverything(parts: seq<Part>, recv: seq<seq<seq<nat>>>, ghost all: seq<seq<Element>>,
        ghost ts: seq<seq<nat>>, ghost starts: seq<nat>)
    requires DistinctParts(parts) && SameShape(all, ts) && |all| == |parts| == |recv| <= |starts|
    requires HoldAll(parts, Kept(all, ts))
    requires forall r :: 0 <= r < |parts| ==> |recv[r]| == |parts|
    requires forall r, q :: 0 <= r < |parts| && 0 <= q < |parts| ==>
      recv[r][q] == BlockFor(all[q], ts[q], starts[q], q, r)
    modifies set p | p in parts
    ensures HoldAll(parts, Finals(all, ts))
  {
    ghost var kept, finals := Kept(all, ts), Finals(all, ts);
    MixedEnds(finals, kept);
    var r := 0;
    while r < |parts|
      invariant 0 <= r <= |parts| && HoldAll(parts, Mixed(finals, kept, r))
    {
      MixedNext(finals, kept, r);
      UnpackAt(parts, r, recv[r], Mixed(finals, kept, r), all, ts, starts);
      r := r + 1;
    }
  }

  /** The new block sizes, and the final check that no rank ends up empty. */
  method Sizes(parts: seq<Part>, ghost all: seq<seq<Element>>) returns (sizes: seq<nat>, ok: bool)
    requires HoldAll(parts, all)
    ensures |sizes| == |parts| && forall q :: 0 <= q < |parts| ==> sizes[q] == |all[q]|
    ensures ok <==> forall q :: 0 <= q < |parts| ==> all[q] != []
  {
    sizes, ok := [], true;
    var r := 0;
    while r < |parts|
      invariant 0 <= r <= |parts| && |sizes| == r
      invariant forall q :: 0 <= q < r ==> sizes[q] == |all[q]|
      invariant ok <==> forall q :: 0 <= q < r ==> all[q] != []
    {
      assert Holds(parts[r], all[r]);
      sizes := sizes + [|parts[r].payloads|];
      ok := ok && |parts[r].payloads| > 0;
      r := r + 1;
    }
  }

  method SwapBlocks(P: nat, chunk: nat, sent: seq<seq<seq<nat>>>, ghost all: seq<seq<Element>>, ghost ts: seq<seq<nat>>,
        ghost starts: seq<nat>)
    returns (recv: seq<seq<seq<nat>>>)
    requires chunk > 0 && SameShape(all, ts) && |sent| == |all| == P <= |starts|
    requires forall q :: 0 <= q < P ==> SentRight(sent[q], P, all[q], ts[q], starts[q], q)
    ensures |recv| == P && forall r :: 0 <= r < P ==> |recv[r]| == P
    ensures forall r, q :: 0 <= r < P && 0 <= q < P ==> recv[r][q] == BlockFor(all[q], ts[q], starts[q], q, r)
  {
    assert forall q :: 0 <= q < P ==> SentRight(sent[q], P, all[q], ts[q], starts[q], q);
    recv := Swap(P, chunk, sent);
  }

  /** Migrates all ranks; all is what they hold before. */
  method MigrateAll(parts: seq<Part>, pids: seq<seq<nat>>, partDist: seq<nat>, starts: seq<nat>, chunk: nat,
        ghost all: seq<seq<Element>>)
    returns (distribution: seq<nat>, ok: bool)
    requires chunk > 0 && DistinctParts(parts) && HoldAll(parts, all)
    requires |pids| == |parts| <= |starts| && |partDist| == |parts| + 1 && Monotone(partDist)
    requires SameShape(all, AllTargets(partDist, pids))
    modifies set p | p in parts
    ensures HoldAll(parts, Finals(all, AllTargets(partDist, pids)))
    ensures
      var finals := Finals(all, AllTargets(partDist, pids));
      IsDistribution(distribution, |parts|) &&
      (forall r :: 0 <= r < |parts| ==> distribution[r + 1] == distribution[r] + |finals[r]|) &&
      (ok <==> forall r :: 0 <= r < |parts| ==> finals[r] != [])
  {
    ghost var ts := AllTargets(partDist, pids);
    var sent := PackEverything(parts, pids, partDist, starts, all);
    var recv := SwapBlocks(|parts|, chunk, sent, all, ts, starts);
    UnpackEverything(parts, recv, all, ts, starts);
    var sizes;
    sizes, ok := Sizes(parts, Finals(all, ts));
    distribution := PrefixSums(sizes);
  }

  // ----- conservation ---------------------------------------------------------------------------------

  ghost function Hits<T>(e: T, x: T): nat {
    if e == x then 1 else 0
  }

  /** How often x occurs. */
  ghost function Count<T>(es: seq<T>, x: T): nat {
    if es == [] then 0 else Count(es[..|es| - 1], x) + Hits(es[|es| - 1], x)
  }

  lemma CountSnoc<T>(es: seq<T>, e: T, x: T)
    ensures Count(es + [e], x) == Count(es, x) + Hits(e, x)
  {
    assert (es + [e])[..|es|] == es;
  }

  lemma {:induction false} CountConcat<T>(a: seq<T>, b: seq<T>, x: T)
    ensures Count(a + b, x) == Count(a, x) + Count(b, x)
    decreases |b|
  {
    if b == [] {
      assert a + b == a;
    } else {
      var k := |b| - 1;
      CountConcat(a, b[..k], x);
      CountSnoc(a + b[..k], b[k], x);
      assert a + b == a + b[..k] + [b[k]];
    }
  }

  lemma {:induction false} CountIsMultiset<T>(es: seq<T>, x: T)
    ensures Count(es, x) == multiset(es)[x]
    decreases |es|
  {
    if es != [] {
      var k := |es| - 1;
      CountIsMultiset(es[..k], x);
      assert es == es[..k] + [es[k]];
    }
  }

  /** How often x occurs on each rank. */
  ghost function Occurrences<T>(all: seq<seq<T>>, x: T): (n: seq<nat>)
    ensures |n| == |all| && forall q :: 0 <= q < |all| ==> n[q] == Count(all[q], x)
  {
    seq(|all|, q requires 0 <= q < |all| => Count(all[q], x))
  }

  ghost function Total<T>(all: seq<seq<T>>, x: T): nat {
    Sum(Occurrences(all, x))
  }

  /** How often x occurs among the elements of one rank bound for each rank. */
  ghost function Bound<T>(es: seq<T>, ts: seq<nat>, x: T, P: nat): (n: seq<nat>)
    requires |es| == |ts|
    ensures |n| == P && forall d :: 0 <= d < P ==> n[d] == Count(Select(es, ts, d), x)
  {
    seq(P, d requires 0 <= d < P => Count(Select(es, ts, d), x))
  }

  lemma SelectCount<T>(es: seq<T>, ts: seq<nat>, e: T, t: nat, x: T, d: nat)
    requires |es| == |ts|
    ensures Count(Select(es + [e], ts + [t], d), x) == Count(Select(es, ts, d), x) + if d == t then Hits(e, x) else 0
  {
    assert (es + [e])[..|es|] == es && (ts + [t])[..|es|] == ts;
    var front := Select(es, ts, d);
    if t == d {
      CountSnoc(front, e, x);
    } else {
      assert Select(es + [e], ts + [t], d) == front;
    }
  }

  lemma BoundNext<T>(es: seq<T>, ts: seq<nat>, e: T, t: nat, x: T, P: nat)
    requires |es| == |ts| && t < P
    ensures Raised(Bound(es, ts, x, P), Bound(es + [e], ts + [t], x, P), t, Hits(e, x))
  {
    var n, n' := Bound(es, ts, x, P), Bound(es + [e], ts + [t], x, P);
    forall d | 0 <= d < P ensures n'[d] == n[d] + if d == t then Hits(e, x) else 0 { SelectCount(es, ts, e, t, x, d); }
  }

  lemma SplitNext<T>(es: seq<T>, ts: seq<nat>, e: T, t: nat, x: T, P: nat)
    requires |es| == |ts| && t < P && Sum(Bound(es, ts, x, P)) == Count(es, x)
    ensures Sum(Bound(es + [e], ts + [t], x, P)) == Count(es + [e], x)
  {
    BoundNext(es, ts, e, t, x, P);
    SumRaised(Bound(es, ts, x, P), Bound(es + [e], ts + [t], x, P), t, Hits(e, x));
    CountSnoc(es, e, x);
  }

  /** Elements of one rank split by target without loss. */
  lemma {:induction false} SplitByTarget<T>(es: seq<T>, ts: seq<nat>, x: T, P: nat)
    requires |es| == |ts| && forall i :: 0 <= i < |ts| ==> ts[i] < P
    ensures Sum(Bound(es, ts, x, P)) == Count(es, x)
    decreases |es|
  {
    if es == [] {
      SumZero(Bound(es, ts, x, P));
    } else {
      var k := |es| - 1;
      var front, others := es[..k], ts[..k];
      assert es == front + [es[k]] && ts == others + [ts[k]];
      SplitByTarget(front, others, x, P);
      SplitNext(front, others, es[k], ts[k], x, P);
    }
  }

  ghost predicate TargetsInRange(ts: seq<seq<nat>>, P: nat) {
    forall q, i :: 0 <= q < |ts| && 0 <= i < |ts[q]| ==> ts[q][i] < P
  }

  /** Row q, column r: how often x goes from rank q to rank r, or stays for q == r. */
  ghost function Traffic<T>(all: seq<seq<T>>, ts: seq<seq<nat>>, x: T): (m: seq<seq<nat>>)
    requires SameShape(all, ts)
    ensures |m| == |all| && Table(m, |all|) && forall q :: 0 <= q < |all| ==> m[q] == Bound(all[q], ts[q], x, |all|)
  {
    seq(|all|, q requires 0 <= q < |all| => Bound(all[q], ts[q], x, |all|))
  }

  lemma TrafficAt<T>(all: seq<seq<T>>, ts: seq<seq<nat>>, x: T, q: nat, r: nat)
    requires SameShape(all, ts) && q < |all| && r < |all|
    ensures Column(Traffic(all, ts, x), |all|, r)[q] == Count(Select(all[q], ts[q], r), x)
  {
    assert Traffic(all, ts, x)[q] == Bound(all[q], ts[q], x, |all|);
  }

  lemma IncomingStep<T>(all: seq<seq<T>>, ts: seq<seq<nat>>, x: T, r: nat, q: nat)
    requires SameShape(all, ts) && r < |all| && q < |all|
    ensures Count(Incoming(all, ts, r, q + 1), x) ==
      Count(Incoming(all, ts, r, q), x) + if q == r then 0 else Count(Select(all[q], ts[q], r), x)
  {
    CountConcat(Incoming(all, ts, r, q), if q == r then [] else Select(all[q], ts[q], r), x);
  }

  /** What arrives at r from the ranks below n is what is bound for it there, except for
      what it keeps itself. */
  lemma {:induction false} ArrivalsRun<T>(all: seq<seq<T>>, ts: seq<seq<nat>>, x: T, r: nat, c: seq<nat>, n: nat)
    requires SameShape(all, ts) && r < |all| && c == Column(Traffic(all, ts, x), |all|, r) && n <= |all|
    ensures Count(Incoming(all, ts, r, n), x) + (if r < n then c[r] else 0) == Sum(c[..n])
    decreases n
  {
    if n > 0 {
      var q := n - 1;
      ArrivalsRun(all, ts, x, r, c, q);
      IncomingStep(all, ts, x, r, q);
      TrafficAt(all, ts, x, q, r);
      SumPrefix(c, q);
    }
  }

  /** A rank ends with exactly the elements of all ranks that were bound for it. */
  lemma FinalIsBound<T>(all: seq<seq<T>>, ts: seq<seq<nat>>, x: T, r: nat)
    requires SameShape(all, ts) && r < |all|
    ensures Count(Final(all, ts, r), x) == Sum(Column(Traffic(all, ts, x), |all|, r))
  {
    var c := Column(Traffic(all, ts, x), |all|, r);
    ArrivalsRun(all, ts, x, r, c, |all|);
    assert c[..|all|] == c;
    TrafficAt(all, ts, x, r, r);
    CountConcat(Select(all[r], ts[r], r), Incoming(all, ts, r, |all|), x);
  }

  /** Migration neither loses, duplicates nor invents elements: over all ranks, every
      element occurs afterwards as often as before. */
  lemma Conserved<T>(all: seq<seq<T>>, ts: seq<seq<nat>>, x: T)
    requires SameShape(all, ts) && TargetsInRange(ts, |all|)
    ensures Total(Finals(all, ts), x) == Total(all, x)
  {
    var m := Traffic(all, ts, x);
    forall r | 0 <= r < |all| ensures Occurrences(Finals(all, ts), x)[r] == ColumnSums(m, |all|)[r] {
      FinalIsBound(all, ts, x, r);
    }
    assert Occurrences(Finals(all, ts), x) == ColumnSums(m, |all|);
    forall q | 0 <= q < |all| ensures RowSums(m)[q] == Occurrences(all, x)[q] {
      SplitByTarget(all[q], ts[q], x, |all|);
    }
    assert RowSums(m) == Occurrences(all, x);
    SumBothWays(m, |all|);
  }

  /** Targets always are ranks, so conservation needs no further condition; when the
      partition distribution covers every partition id, each element ends on the rank
      that owns its partition. */
  lemma TargetsAreRanks(partDist: seq<nat>, pids: seq<seq<nat>>)
    requires |partDist| == |pids| + 1 && Monotone(partDist)
    ensures TargetsInRange(AllTargets(partDist, pids), |pids|)
    ensures forall r, i :: 0 <= r < |pids| && 0 <= i < |pids[r]| && partDist[0] <= pids[r][i] < partDist[|pids|] ==>
      OwnedBy(partDist, pids[r][i], AllTargets(partDist, pids)[r][i])
  {
    var P := |pids|;
    forall r, i | 0 <= r < P && 0 <= i < |pids[r]| && partDist[0] <= pids[r][i] < partDist[P]
      ensures OwnedBy(partDist, pids[r][i], Target(partDist, P, r, pids[r][i]))
    {
      var q := CoveredBy(partDist, P, pids[r][i]);
    }
  }

  lemma {:induction false} CoveredBy(dist: seq<nat>, P: nat, i: nat) returns (r: nat)
    requires |dist| >= P + 1 && dist[0] <= i < dist[P]
    ensures r < P && OwnedBy(dist, i, r)
  {
    if dist[P - 1] <= i {
      r := P - 1;
    } else {
      r := CoveredBy(dist, P - 1, i);
    }
  }
}
