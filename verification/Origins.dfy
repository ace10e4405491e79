/** Picking elements of sequences, on one rank or for one rank from all, and where in those
    sequences the elements of the result come from. */
module Origins {
  import opened Base

  ghost predicate SameShape<T>(all: seq<seq<T>>, ts: seq<seq<nat>>) {
    |all| == |ts| && forall q :: 0 <= q < |all| ==> |all[q]| == |ts[q]|
  }

  /** The elements with target d, in order. */
  ghost function Select<T>(es: seq<T>, ts: seq<nat>, d: nat): seq<T>
    requires |es| == |ts|
  {
    if es == [] then []
    else
      var k := |es| - 1;
      Select(es[..k], ts[..k], d) + if ts[k] == d then [es[k]] else []
  }

  /** The elements whose positions are not listed, in order. */
  ghost function Without<T>(es: seq<T>, ids: set<nat>): seq<T> {
    if es == [] then []
    else
      var k := |es| - 1;
      Without(es[..k], ids) + if k in ids then [] else [es[k]]
  }

  /** What rank r receives from the ranks below upto, in that order. */
  ghost function Incoming<T>(all: seq<seq<T>>, ts: seq<seq<nat>>, r: nat, upto: nat): seq<T>
    requires SameShape(all, ts) && upto <= |all|
  {
    if upto == 0 then []
    else
      Incoming(all, ts, r, upto - 1) + if upto - 1 == r then [] else Select(all[upto - 1], ts[upto - 1], r)
  }

  /** Kept elements first, then the received ones by source rank. */
  ghost function Final<T>(all: seq<seq<T>>, ts: seq<seq<nat>>, r: nat): seq<T>
    requires SameShape(all, ts) && r < |all|
  {
    Select(all[r], ts[r], r) + Incoming(all, ts, r, |all|)
  }

  ghost function Finals<T>(all: seq<seq<T>>, ts: seq<seq<nat>>): (finals: seq<seq<T>>)
    requires SameShape(all, ts)
    ensures |finals| == |all| && forall r :: 0 <= r < |all| ==> finals[r] == Final(all, ts, r)
  {
    seq(|all|, r requires 0 <= r < |all| => Final(all, ts, r))
  }

  // ----- positions that are picked --------------------------------------------------------------------

  /** picked holds the elements at the given positions, in order. */
  ghost predicate PickedAt<T>(es: seq<T>, at: seq<nat>, picked: seq<T>) {
    StrictlyAscending(at) && |at| == |picked| && forall k :: 0 <= k < |at| ==> at[k] < |es| && picked[k] == es[at[k]]
  }

  lemma PickedSnoc<T>(es: seq<T>, at: seq<nat>, picked: seq<T>, e: T)
    requires PickedAt(es, at, picked)
    ensures PickedAt(es + [e], at, picked) && PickedAt(es + [e], at + [|es|], picked + [e])
  {}

  /** An erase keeps the elements at the positions that are not listed, in order. */
  lemma {:induction false} KeptAt<T>(es: seq<T>, ids: set<nat>) returns (at: seq<nat>)
    ensures PickedAt(es, at, Without(es, ids)) && forall i: nat :: i in at <==> i < |es| && i !in ids
  {
    if es == [] {
      at := [];
    } else {
      var k := |es| - 1;
      at := KeptAt(es[..k], ids);
      PickedSnoc(es[..k], at, Without(es[..k], ids), es[k]);
      assert es == es[..k] + [es[k]];
      if k !in ids { at := at + [k]; }
    }
  }

  lemma {:induction false} SelectedAt<T>(es: seq<T>, ts: seq<nat>, d: nat) returns (at: seq<nat>)
    requires |es| == |ts|
    ensures PickedAt(es, at, Select(es, ts, d)) && forall i: nat :: i in at <==> i < |es| && ts[i] == d
  {
    if es == [] {
      at := [];
    } else {
      var k := |es| - 1;
      at := SelectedAt(es[..k], ts[..k], d);
      PickedSnoc(es[..k], at, Select(es[..k], ts[..k], d), es[k]);
      assert es == es[..k] + [es[k]];
      if ts[k] == d { at := at + [k]; }
    }
  }

  // ----- ranks and positions --------------------------------------------------------------------------

  /** Position index of rank rank. */
  datatype Origin = Origin(rank: nat, index: nat)

  ghost predicate BoundFor(ts: seq<seq<nat>>, r: nat, o: Origin) {
    o.rank < |ts| && o.index < |ts[o.rank]| && ts[o.rank][o.index] == r
  }

  /** On rank r its own elements come first, then those of the other ranks by ascending rank; the
      elements of one rank keep their order. */
  ghost predicate ComesBefore(r: nat, a: Origin, b: Origin) {
    if a.rank == b.rank then a.index < b.index
    else a.rank == r || (b.rank != r && a.rank < b.rank)
  }

  ghost predicate FromOrigins<T>(all: seq<seq<T>>, ts: seq<seq<nat>>, r: nat, os: seq<Origin>, es: seq<T>)
    requires SameShape(all, ts)
  {
    |os| == |es| &&
    (forall k :: 0 <= k < |os| ==> BoundFor(ts, r, os[k]) && es[k] == all[os[k].rank][os[k].index]) &&
    forall j, k :: 0 <= j < k < |os| ==> ComesBefore(r, os[j], os[k])
  }

  /** The origins on one rank of what goes to r. */
  lemma RankOrigins<T>(all: seq<seq<T>>, ts: seq<seq<nat>>, r: nat, q: nat) returns (os: seq<Origin>)
    requires SameShape(all, ts) && q < |all|
    ensures FromOrigins(all, ts, r, os, Select(all[q], ts[q], r))
    ensures forall o :: o in os <==> o.rank == q && BoundFor(ts, r, o)
  {
    var at := SelectedAt(all[q], ts[q], r);
    os := seq(|at|, k requires 0 <= k < |at| => Origin(q, at[k]));
    forall o ensures o in os <==> o.rank == q && BoundFor(ts, r, o) {
      if o.rank == q && BoundFor(ts, r, o) {
        var k :| 0 <= k < |at| && at[k] == o.index;
        assert os[k] == o;
      }
      if o in os {
        var k :| 0 <= k < |os| && os[k] == o;
        assert at[k] in at;
      }
    }
    assert forall k :: 0 <= k < |os| ==> os[k] in os;
  }

  lemma JoinOrigins<T>(all: seq<seq<T>>, ts: seq<seq<nat>>, r: nat, a: seq<Origin>, es: seq<T>, b: seq<Origin>,
        fs: seq<T>)
    requires SameShape(all, ts) && FromOrigins(all, ts, r, a, es) && FromOrigins(all, ts, r, b, fs)
    requires forall x, y :: x in a && y in b ==> ComesBefore(r, x, y)
    ensures FromOrigins(all, ts, r, a + b, es + fs)
  {
    var os := a + b;
    forall j, k | 0 <= j < k < |os| ensures ComesBefore(r, os[j], os[k]) {
      if j < |a| <= k { assert os[j] in a && os[k] in b; }
    }
  }

  lemma {:induction false} ReceivedOrigins<T>(all: seq<seq<T>>, ts: seq<seq<nat>>, r: nat, upto: nat)
    returns (os: seq<Origin>)
    requires SameShape(all, ts) && upto <= |all|
    ensures FromOrigins(all, ts, r, os, Incoming(all, ts, r, upto))
    ensures forall o :: o in os <==> o.rank < upto && o.rank != r && BoundFor(ts, r, o)
    decreases upto
  {
    if upto == 0 {
      os := [];
    } else {
      var front := ReceivedOrigins(all, ts, r, upto - 1);
      if upto - 1 == r {
        os := front;
        assert Incoming(all, ts, r, upto) == Incoming(all, ts, r, upto - 1);
      } else {
        var more := RankOrigins(all, ts, r, upto - 1);
        JoinOrigins(all, ts, r, front, Incoming(all, ts, r, upto - 1), more, Select(all[upto - 1], ts[upto - 1], r));
        os := front + more;
      }
    }
  }

  /** What a rank holds after a migration: every element bound for it, each once; first its
      own, then those of the other ranks by ascending rank, in the order they had there. */
  lemma OriginsOf<T>(all: seq<seq<T>>, ts: seq<seq<nat>>, r: nat) returns (os: seq<Origin>)
    requires SameShape(all, ts) && r < |all|
    ensures FromOrigins(all, ts, r, os, Finals(all, ts)[r])
    ensures forall o :: o in os <==> BoundFor(ts, r, o)
  {
    var own := RankOrigins(all, ts, r, r);
    var others := ReceivedOrigins(all, ts, r, |all|);
    JoinOrigins(all, ts, r, own, Select(all[r], ts[r], r), others, Incoming(all, ts, r, |all|));
    os := own + others;
  }
}
