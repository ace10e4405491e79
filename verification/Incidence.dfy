/** Completing a distributed incidence table. Every rank knows, for some keys, a set
    of values; the directory rank of a key collects all sets and sends the union
    back to every rank that contributed. */
module Incidence {
  import opened Base
  import opened Distribution
  import opened Exchange
  import opened Directory
  import opened Neighbors

  function Values(table: map<nat, set<nat>>, v: nat): set<nat> {
    if v in table then table[v] else {}
  }

  /** Everything any rank knows about v. */
  ghost function Union(incs: seq<map<nat, set<nat>>>, v: nat): set<nat> {
    set r, x | 0 <= r < |incs| && x in Values(incs[r], v) :: x
  }

  ghost function UnionBelow(incs: seq<map<nat, set<nat>>>, me: nat, upto: nat, v: nat): set<nat> {
    set r, x | 0 <= r < |incs| && (r < upto || r == me) && x in Values(incs[r], v) :: x
  }

  /** Key, number of values, values. */
  function Row(v: nat, xs: set<nat>): seq<nat> {
    [v, |xs|] + Ascending(xs)
  }

  ghost predicate RowShaped(rec: seq<nat>) {
    |rec| >= 2 && rec[1] == |rec| - 2
  }

  ghost predicate IsRow(table: map<nat, set<nat>>, rec: seq<nat>) {
    rec != [] && rec[0] in table && rec == Row(rec[0], table[rec[0]])
  }

  // ----- sending rows -------------------------------------------------------------------

  ghost predicate RowMessages(table: map<nat, set<nat>>, keys: set<nat>, dist: seq<nat>, P: nat, me: nat,
        msgs: seq<Message>)
    requires IsDistribution(dist, P)
  {
    Addressed(msgs, P) && DistinctKeys(msgs) &&
    forall d, rec :: Message(d, rec) in msgs <==>
      d != me && IsRow(table, rec) && rec[0] in keys && InDirectory(dist, P, d, rec[0])
  }

  lemma RowAppended(table: map<nat, set<nat>>, keys: set<nat>, dist: seq<nat>, P: nat, me: nat, msgs: seq<Message>,
        v: nat, d: nat)
    requires IsDistribution(dist, P) && RowMessages(table, keys, dist, P, me, msgs)
    requires v in table && v !in keys && d < P && InDirectory(dist, P, d, v)
    ensures RowMessages(table, keys + {v}, dist, P, me, if d != me then msgs + [Message(d, Row(v, table[v]))] else msgs)
  {
    var more := if d != me then [Message(d, Row(v, table[v]))] else [];
    forall m, n | m in msgs && n in more ensures m.words[0] != n.words[0] {
      assert Message(m.dest, m.words) in msgs;
    }
    DistinctKeysAppend(msgs, more);
    assert msgs + [] == msgs;
    forall q, rec
      ensures Message(q, rec) in msgs + more <==>
        q != me && IsRow(table, rec) && rec[0] in keys + {v} && InDirectory(dist, P, q, rec[0])
    {
      assert Message(q, rec) in msgs + more <==> Message(q, rec) in msgs || Message(q, rec) in more;
    }
  }

  /** Rows of keys kept elsewhere go to their directory rank. */
  method PackRows(P: nat, me: nat, dist: seq<nat>, table: map<nat, set<nat>>) returns (msgs: seq<Message>)
    requires InRange(table.Keys, dist, P)
    ensures RowMessages(table, table.Keys, dist, P, me, msgs)
  {
    msgs := [];
    ghost var seen: set<nat> := {};
    var order := Ascending(table.Keys);
    var i := 0;
    while i < |order|
      invariant 0 <= i <= |order|
      invariant forall v :: v in seen <==> v in order[..i]
      invariant RowMessages(table, seen, dist, P, me, msgs)
    {
      var v := order[i];
      NextElement(order, i);
      var d := RankOwner(dist, P, v);
      RowAppended(table, seen, dist, P, me, msgs, v, d);
      if d != me {
        msgs := msgs + [Message(d, Row(v, table[v]))];
      }
      seen := seen + {v};
      i := i + 1;
    }
    assert order[..i] == order;
    assert seen == table.Keys;
  }

  // ----- receiving rows -----------------------------------------------------------------

  ghost function Brought(recs: seq<seq<nat>>, v: nat): set<nat> {
    set k, x | 0 <= k < |recs| && RowShaped(recs[k]) && recs[k][0] == v && x in recs[k][2..] :: x
  }

  ghost predicate Named(recs: seq<seq<nat>>, v: nat) {
    exists k :: 0 <= k < |recs| && RowShaped(recs[k]) && recs[k][0] == v
  }

  /** What is held for one key: whether it is present, its values, its senders. */
  datatype Held = Held(known: bool, values: set<nat>, ranks: seq<nat>)

  function HeldFor(table: map<nat, set<nat>>, ranks: map<nat, seq<nat>>, v: nat): Held {
    Held(v in table, Values(table, v), Get(ranks, v))
  }

  ghost predicate KeyJoined(recs: seq<seq<nat>>, r: nat, v: nat, h: Held, h': Held) {
    (h'.known <==> h.known || Named(recs, v)) && h'.values == h.values + Brought(recs, v) &&
    forall q: nat :: q in h'.ranks <==> q in h.ranks || (q == r && Named(recs, v))
  }

  ghost predicate Joined(recs: seq<seq<nat>>, r: nat, table: map<nat, set<nat>>, ranks: map<nat, seq<nat>>,
        table': map<nat, set<nat>>, ranks': map<nat, seq<nat>>)
  {
    forall v: nat :: KeyJoined(recs, r, v, HeldFor(table, ranks, v), HeldFor(table', ranks', v))
  }

  lemma JoinedOneMore(recs: seq<seq<nat>>, r: nat, table: map<nat, set<nat>>, ranks: map<nat, seq<nat>>,
        table': map<nat, set<nat>>, ranks': map<nat, seq<nat>>, rec: seq<nat>)
    requires Joined(recs, r, table, ranks, table', ranks') && RowShaped(rec)
    ensures Joined(recs + [rec], r, table, ranks,
                   table'[rec[0] := Values(table', rec[0]) + ToSet(rec[2..])],
                   ranks'[rec[0] := Get(ranks', rec[0]) + [r]])
  {
    var table2 := table'[rec[0] := Values(table', rec[0]) + ToSet(rec[2..])];
    var ranks2 := ranks'[rec[0] := Get(ranks', rec[0]) + [r]];
    forall v: nat ensures KeyJoined(recs + [rec], r, v, HeldFor(table, ranks, v), HeldFor(table2, ranks2, v)) {
      assert KeyJoined(recs, r, v, HeldFor(table, ranks, v), HeldFor(table', ranks', v));
      NamedSnoc(recs, rec, v);
      BroughtSnoc(recs, rec, v);
    }
  }

  lemma NamedSnoc(recs: seq<seq<nat>>, rec: seq<nat>, v: nat)
    requires RowShaped(rec)
    ensures Named(recs + [rec], v) <==> Named(recs, v) || v == rec[0]
  {
    var all := recs + [rec];
    assert all[|recs|] == rec;
    if k :| 0 <= k < |recs| && RowShaped(recs[k]) && recs[k][0] == v { assert all[k] == recs[k]; }
  }

  lemma BroughtSnoc(recs: seq<seq<nat>>, rec: seq<nat>, v: nat)
    requires RowShaped(rec)
    ensures Brought(recs + [rec], v) == Brought(recs, v) + if v == rec[0] then ToSet(rec[2..]) else {}
  {
    var all := recs + [rec];
    forall x ensures x in Brought(all, v) <==> x in Brought(recs, v) || (v == rec[0] && x in rec[2..]) {
      assert all[|recs|] == rec;
      if k :| 0 <= k < |recs| && RowShaped(recs[k]) && recs[k][0] == v && x in recs[k][2..] {
        assert all[k] == recs[k];
      }
    }
  }

  method ReadRow(words: seq<nat>, i: nat, ghost rec: seq<nat>) returns (v: nat, xs: seq<nat>)
    requires RowShaped(rec) && i + |rec| <= |words| && words[i..i + |rec|] == rec
    ensures v == rec[0] && xs == rec[2..]
  {
    assert forall j :: 0 <= j < |rec| ==> words[i + j] == rec[j];
    var n := words[i + 1];
    v, xs := words[i], words[i + 2..i + 2 + n];
  }

  /** Rows of one sender are merged into the table; the sender is remembered. */
  method JoinRows(words: seq<nat>, ghost recs: seq<seq<nat>>, r: nat, table: map<nat, set<nat>>,
        ranks: map<nat, seq<nat>>)
    returns (table': map<nat, set<nat>>, ranks': map<nat, seq<nat>>)
    requires words == Flatten(recs) && forall k :: 0 <= k < |recs| ==> RowShaped(recs[k])
    ensures Joined(recs, r, table, ranks, table', ranks')
  {
    table', ranks' := table, ranks;
    var i := 0;
    ghost var k := 0;
    NextRecord(words, 0, recs, 0);
    while i < |words|
      invariant 0 <= i <= |words| && 0 <= k <= |recs| && words[i..] == Flatten(recs[k..])
      invariant Joined(recs[..k], r, table, ranks, table', ranks')
      decreases |words| - i
    {
      NextRecord(words, i, recs, k);
      ghost var rec := recs[k];
      var v, xs := ReadRow(words, i, rec);
      JoinedOneMore(recs[..k], r, table, ranks, table', ranks', rec);
      assert recs[..k + 1] == recs[..k] + [rec];
      table' := table'[v := Values(table', v) + set x | x in xs];
      ranks' := ranks'[v := Get(ranks', v) + [r]];
      i, k := i + 2 + |xs|, k + 1;
    }
    NextRecord(words, i, recs, k);
    assert recs[..k] == recs;
  }

  /** Records from r to me: its rows of keys in my directory block. */
  ghost predicate ReceivedRows(inc: map<nat, set<nat>>, dist: seq<nat>, P: nat, me: nat, r: nat, recs: seq<seq<nat>>)
    requires IsDistribution(dist, P)
  {
    forall rec :: rec in recs <==> me != r && IsRow(inc, rec) && InDirectory(dist, P, me, rec[0])
  }

  lemma RowIsShaped(v: nat, xs: set<nat>)
    ensures RowShaped(Row(v, xs)) && Row(v, xs)[0] == v && ToSet(Row(v, xs)[2..]) == xs
  {
    assert Row(v, xs)[2..] == Ascending(xs);
  }

  lemma ReceivedRowsMean(inc: map<nat, set<nat>>, dist: seq<nat>, P: nat, me: nat, r: nat, recs: seq<seq<nat>>, v: nat)
    requires IsDistribution(dist, P) && ReceivedRows(inc, dist, P, me, r, recs)
    ensures forall k :: 0 <= k < |recs| ==> RowShaped(recs[k])
    ensures Named(recs, v) <==> me != r && v in inc && InDirectory(dist, P, me, v)
    ensures Brought(recs, v) == if me != r && v in inc && InDirectory(dist, P, me, v) then inc[v] else {}
  {
    forall k | 0 <= k < |recs| ensures RowShaped(recs[k]) && recs[k] == Row(recs[k][0], inc[recs[k][0]]) {
      assert recs[k] in recs;
      RowIsShaped(recs[k][0], inc[recs[k][0]]);
    }
    if me != r && v in inc && InDirectory(dist, P, me, v) {
      var rec := Row(v, inc[v]);
      RowIsShaped(v, inc[v]);
      assert rec in recs;
      var k :| 0 <= k < |recs| && recs[k] == rec;
      forall x ensures x in Brought(recs, v) <==> x in inc[v] {
        assert x in ToSet(rec[2..]) <==> x in inc[v];
      }
    } else {
      forall k | 0 <= k < |recs| ensures recs[k][0] != v { assert recs[k] in recs; }
    }
  }

  lemma RowsAreShaped(inc: map<nat, set<nat>>, dist: seq<nat>, P: nat, me: nat, r: nat, recs: seq<seq<nat>>)
    requires IsDistribution(dist, P) && ReceivedRows(inc, dist, P, me, r, recs)
    ensures forall k :: 0 <= k < |recs| ==> RowShaped(recs[k])
  {
    ReceivedRowsMean(inc, dist, P, me, r, recs, 0);
  }

  /** Held by me for one key, when the ranks below upto have been heard: keys of my
      directory block collect, all others stay as they were. */
  ghost predicate KeyGathered(incs: seq<map<nat, set<nat>>>, mine: bool, me: nat, upto: nat, v: nat, h: Held)
    requires me < |incs|
  {
    h.values == (if mine then UnionBelow(incs, me, upto, v) else Values(incs[me], v)) &&
    (forall q: nat :: q in h.ranks <==> mine && q < upto && q < |incs| && q != me && v in incs[q]) &&
    (h.known <==> v in incs[me] || h.ranks != [])
  }

  ghost predicate Gathered(incs: seq<map<nat, set<nat>>>, dist: seq<nat>, me: nat, upto: nat, table: map<nat, set<nat>>,
        ranks: map<nat, seq<nat>>)
    requires IsDistribution(dist, |incs|) && me < |incs|
  {
    forall v: nat :: KeyGathered(incs, InDirectory(dist, |incs|, me, v), me, upto, v, HeldFor(table, ranks, v))
  }

  lemma KeyGatheredOneMore(incs: seq<map<nat, set<nat>>>, dist: seq<nat>, me: nat, r: nat, recs: seq<seq<nat>>, v: nat,
        h: Held, h': Held)
    requires IsDistribution(dist, |incs|) && me < |incs| && r < |incs|
    requires KeyGathered(incs, InDirectory(dist, |incs|, me, v), me, r, v, h)
    requires ReceivedRows(incs[r], dist, |incs|, me, r, recs) && KeyJoined(recs, r, v, h, h')
    ensures KeyGathered(incs, InDirectory(dist, |incs|, me, v), me, r + 1, v, h')
  {
    ReceivedRowsMean(incs[r], dist, |incs|, me, r, recs, v);
    UnionOneMore(incs, me, r, v);
    assert h'.ranks != [] ==> h'.ranks[0] in h'.ranks;
    assert h.ranks != [] ==> h.ranks[0] in h.ranks && h.ranks[0] in h'.ranks;
    assert Named(recs, v) ==> r in h'.ranks;
  }

  lemma GatheredOneMore(incs: seq<map<nat, set<nat>>>, dist: seq<nat>, me: nat, r: nat, recs: seq<seq<nat>>,
        table: map<nat, set<nat>>, ranks: map<nat, seq<nat>>, table': map<nat, set<nat>>, ranks': map<nat, seq<nat>>)
    requires IsDistribution(dist, |incs|) && me < |incs| && r < |incs|
    requires Gathered(incs, dist, me, r, table, ranks)
    requires ReceivedRows(incs[r], dist, |incs|, me, r, recs) && Joined(recs, r, table, ranks, table', ranks')
    ensures Gathered(incs, dist, me, r + 1, table', ranks')
  {
    forall v: nat
      ensures KeyGathered(incs, InDirectory(dist, |incs|, me, v), me, r + 1, v, HeldFor(table', ranks', v))
    {
      KeyGatheredOneMore(incs, dist, me, r, recs, v, HeldFor(table, ranks, v), HeldFor(table', ranks', v));
    }
  }

  lemma UnionOneMore(incs: seq<map<nat, set<nat>>>, me: nat, r: nat, v: nat)
    requires r < |incs|
    ensures UnionBelow(incs, me, r + 1, v) == UnionBelow(incs, me, r, v) + if r != me then Values(incs[r], v) else {}
  {}

  lemma OwnGathered(incs: seq<map<nat, set<nat>>>, dist: seq<nat>, me: nat)
    requires IsDistribution(dist, |incs|) && me < |incs|
    ensures Gathered(incs, dist, me, 0, incs[me], map[])
  {
    forall v: nat ensures UnionBelow(incs, me, 0, v) == Values(incs[me], v) {}
  }

  method GatherFrom(ghost incs: seq<map<nat, set<nat>>>, ghost dist: seq<nat>, me: nat, r: nat,
        table: map<nat, set<nat>>, ranks: map<nat, seq<nat>>, words: seq<nat>, ghost recs: seq<seq<nat>>)
    returns (table': map<nat, set<nat>>, ranks': map<nat, seq<nat>>)
    requires IsDistribution(dist, |incs|) && me < |incs| && r < |incs| && words == Flatten(recs)
    requires ReceivedRows(incs[r], dist, |incs|, me, r, recs) && Gathered(incs, dist, me, r, table, ranks)
    ensures Gathered(incs, dist, me, r + 1, table', ranks')
  {
    RowsAreShaped(incs[r], dist, |incs|, me, r, recs);
    table', ranks' := JoinRows(words, recs, r, table, ranks);
    GatheredOneMore(incs, dist, me, r, recs, table, ranks, table', ranks');
  }

  method Gather(ghost incs: seq<map<nat, set<nat>>>, ghost dist: seq<nat>, me: nat, table: map<nat, set<nat>>,
        recv: seq<seq<nat>>, ghost recs: seq<seq<seq<nat>>>)
    returns (table': map<nat, set<nat>>, ranks: map<nat, seq<nat>>)
    requires IsDistribution(dist, |incs|) && me < |incs| == |recv| == |recs| && table == incs[me]
    requires forall r :: 0 <= r < |incs| ==>
      recv[r] == Flatten(recs[r]) && ReceivedRows(incs[r], dist, |incs|, me, r, recs[r])
    ensures Gathered(incs, dist, me, |incs|, table', ranks)
  {
    table', ranks := table, map[];
    OwnGathered(incs, dist, me);
    var r := 0;
    while r < |recv|
      invariant 0 <= r <= |recv|
      invariant Gathered(incs, dist, me, r, table', ranks)
    {
      table', ranks := GatherFrom(incs, dist, me, r, table', ranks, recv[r], recs[r]);
      r := r + 1;
    }
  }

  // ----- answering -------------------------------------------------------------------------

  /** The completed row of every key, for each rank that sent one. */
  ghost predicate AnswerMessages(table: map<nat, set<nat>>, ranks: map<nat, seq<nat>>, P: nat, me: nat,
        msgs: seq<Message>)
  {
    Addressed(msgs, P) &&
    forall d, rec :: Message(d, rec) in msgs <==> d != me && IsRow(table, rec) && d in Get(ranks, rec[0])
  }

  ghost predicate AnswersFor(table: map<nat, set<nat>>, ranks: map<nat, seq<nat>>, seen: seq<nat>, P: nat, me: nat,
        msgs: seq<Message>)
  {
    Addressed(msgs, P) &&
    forall d, rec :: Message(d, rec) in msgs <==>
      d != me && IsRow(table, rec) && d in Get(ranks, rec[0]) && rec[0] in seen
  }

  method AnswerOne(P: nat, me: nat, table: map<nat, set<nat>>, ranks: map<nat, seq<nat>>, ghost seen: seq<nat>,
        msgs: seq<Message>, v: nat)
    returns (msgs': seq<Message>)
    requires AnswersFor(table, ranks, seen, P, me, msgs) && v in ranks
    requires forall q :: q in ranks[v] ==> v in table && q < P
    ensures AnswersFor(table, ranks, seen + [v], P, me, msgs')
  {
    var more := AnswerKey(P, me, ranks[v], v, table);
    msgs' := msgs + more;
    forall d, rec
      ensures Message(d, rec) in msgs' <==>
        d != me && IsRow(table, rec) && d in Get(ranks, rec[0]) && rec[0] in seen + [v]
    {
      assert Message(d, rec) in msgs' <==> Message(d, rec) in msgs || Message(d, rec) in more;
    }
  }

  method PackAnswers(P: nat, me: nat, table: map<nat, set<nat>>, ranks: map<nat, seq<nat>>) returns (msgs: seq<Message>)
    requires forall v, q :: v in ranks && q in ranks[v] ==> v in table && q < P
    ensures AnswerMessages(table, ranks, P, me, msgs)
  {
    msgs := [];
    var order := Ascending(ranks.Keys);
    var i := 0;
    while i < |order|
      invariant 0 <= i <= |order|
      invariant AnswersFor(table, ranks, order[..i], P, me, msgs)
    {
      NextElement(order, i);
      msgs := AnswerOne(P, me, table, ranks, order[..i], msgs, order[i]);
      i := i + 1;
    }
    assert order[..i] == order;
  }

  method AnswerKey(P: nat, me: nat, ranks: seq<nat>, v: nat, table: map<nat, set<nat>>) returns (msgs: seq<Message>)
    requires forall q :: q in ranks ==> v in table && q < P
    ensures Addressed(msgs, P)
    ensures forall d, w :: Message(d, w) in msgs <==> d in ranks && d != me && w == Row(v, Values(table, v))
  {
    msgs := [];
    var i := 0;
    while i < |ranks|
      invariant 0 <= i <= |ranks|
      invariant Addressed(msgs, P)
      invariant forall d, w :: Message(d, w) in msgs <==> d in ranks[..i] && d != me && w == Row(v, Values(table, v))
    {
      assert ranks[..i + 1] == ranks[..i] + [ranks[i]];
      assert ranks[i] in ranks;
      if ranks[i] != me {
        msgs := msgs + [Message(ranks[i], Row(v, table[v]))];
      }
      i := i + 1;
    }
    assert ranks[..i] == ranks;
  }

  // ----- taking the answers ----------------------------------------------------------------

  /** Held by me for one of my keys, when the directory ranks below upto have answered:
      never anything foreign, and everything once its directory has spoken. */
  ghost predicate KeyAnswered(incs: seq<map<nat, set<nat>>>, dist: seq<nat>, me: nat, upto: nat, v: nat, known: bool,
        vals: set<nat>)
    requires IsDistribution(dist, |incs|) && me < |incs|
  {
    v in incs[me] ==>
      known && vals <= Union(incs, v) &&
      (v < dist[|incs|] && (Owner(dist, |incs|, v) < upto || Owner(dist, |incs|, v) == me) ==> vals == Union(incs, v))
  }

  ghost predicate Answered(incs: seq<map<nat, set<nat>>>, dist: seq<nat>, me: nat, upto: nat, table: map<nat, set<nat>>)
    requires IsDistribution(dist, |incs|) && me < |incs|
  {
    forall v: nat :: KeyAnswered(incs, dist, me, upto, v, v in table, Values(table, v))
  }

  ghost predicate Completed(incs: seq<map<nat, set<nat>>>, me: nat, table: map<nat, set<nat>>)
    requires me < |incs|
  {
    forall v :: v in incs[me] ==> v in table && table[v] == Union(incs, v)
  }

  /** Records from directory rank r to me: its completed rows of the keys I sent. */
  ghost predicate ReceivedAnswers(table: map<nat, set<nat>>, ranks: map<nat, seq<nat>>, me: nat, r: nat,
        recs: seq<seq<nat>>)
  {
    forall rec :: rec in recs <==> me != r && IsRow(table, rec) && me in Get(ranks, rec[0])
  }

  lemma ReceivedAnswersMean(table: map<nat, set<nat>>, ranks: map<nat, seq<nat>>, me: nat, r: nat, recs: seq<seq<nat>>,
        v: nat)
    requires ReceivedAnswers(table, ranks, me, r, recs)
    requires me in Get(ranks, v) ==> v in table
    ensures forall k :: 0 <= k < |recs| ==> RowShaped(recs[k])
    ensures Named(recs, v) <==> me != r && me in Get(ranks, v)
    ensures Brought(recs, v) == if me != r && me in Get(ranks, v) then table[v] else {}
  {
    forall k | 0 <= k < |recs| ensures RowShaped(recs[k]) && recs[k] == Row(recs[k][0], table[recs[k][0]]) {
      assert recs[k] in recs;
      RowIsShaped(recs[k][0], table[recs[k][0]]);
    }
    if me != r && me in Get(ranks, v) {
      var rec := Row(v, table[v]);
      RowIsShaped(v, table[v]);
      assert rec in recs;
      var k :| 0 <= k < |recs| && recs[k] == rec;
      forall x ensures x in Brought(recs, v) <==> x in table[v] {
        assert x in ToSet(rec[2..]) <==> x in table[v];
      }
    } else {
      forall k | 0 <= k < |recs| ensures recs[k][0] != v { assert recs[k] in recs; }
    }
  }

  lemma UnionIsAll(incs: seq<map<nat, set<nat>>>, me: nat, v: nat)
    ensures UnionBelow(incs, me, |incs|, v) == Union(incs, v)
  {}

  lemma KeyAnsweredOneMore(incs: seq<map<nat, set<nat>>>, dist: seq<nat>, me: nat, r: nat, dirTable: map<nat, set<nat>>,
        dirRanks: map<nat, seq<nat>>, recs: seq<seq<nat>>, v: nat, h: Held, h': Held)
    requires IsDistribution(dist, |incs|) && me < |incs| && r < |incs|
    requires KeyGathered(incs, InDirectory(dist, |incs|, r, v), r, |incs|, v, HeldFor(dirTable, dirRanks, v))
    requires ReceivedAnswers(dirTable, dirRanks, me, r, recs)
    requires KeyAnswered(incs, dist, me, r, v, h.known, h.values) && KeyJoined(recs, r, v, h, h')
    ensures KeyAnswered(incs, dist, me, r + 1, v, h'.known, h'.values)
  {
    ReceivedAnswersMean(dirTable, dirRanks, me, r, recs, v);
    UnionIsAll(incs, r, v);
  }

  method TakeAnswers(ghost incs: seq<map<nat, set<nat>>>, ghost dist: seq<nat>, me: nat, table: map<nat, set<nat>>,
        ranks: map<nat, seq<nat>>, ghost dirs: seq<map<nat, set<nat>>>, ghost dirRanks: seq<map<nat, seq<nat>>>,
        recv: seq<seq<nat>>, ghost recs: seq<seq<seq<nat>>>)
    returns (table': map<nat, set<nat>>)
    requires IsDistribution(dist, |incs|) && me < |incs| == |recv| == |recs| == |dirs| == |dirRanks|
    requires table == dirs[me] && ranks == dirRanks[me] && InRange(incs[me].Keys, dist, |incs|)
    requires forall r :: 0 <= r < |incs| ==> Gathered(incs, dist, r, |incs|, dirs[r], dirRanks[r])
    requires forall r :: 0 <= r < |incs| ==>
      recv[r] == Flatten(recs[r]) && ReceivedAnswers(dirs[r], dirRanks[r], me, r, recs[r])
    ensures Completed(incs, me, table')
  {
    table' := table;
    var ranks' := ranks;
    DirectoryAnswered(incs, dist, me, table, ranks);
    var r := 0;
    while r < |recv|
      invariant 0 <= r <= |recv|
      invariant Answered(incs, dist, me, r, table')
    {
      KnownIfAsked(incs, dist, me, r, dirs[r], dirRanks[r], 0);
      ReceivedAnswersMean(dirs[r], dirRanks[r], me, r, recs[r], 0);
      ghost var was, wasRanks := table', ranks';
      table', ranks' := JoinRows(recv[r], recs[r], r, table', ranks');
      forall v: nat ensures KeyAnswered(incs, dist, me, r + 1, v, v in table', Values(table', v)) {
        KeyAnsweredOneMore(incs, dist, me, r, dirs[r], dirRanks[r], recs[r], v,
                           HeldFor(was, wasRanks, v), HeldFor(table', ranks', v));
      }
      r := r + 1;
    }
    forall v | v in incs[me] ensures v in table' && table'[v] == Union(incs, v) {
      assert KeyAnswered(incs, dist, me, r, v, v in table', Values(table', v));
    }
  }

  lemma KnownIfAsked(incs: seq<map<nat, set<nat>>>, dist: seq<nat>, me: nat, r: nat, dirTable: map<nat, set<nat>>,
        dirRanks: map<nat, seq<nat>>, v: nat)
    requires IsDistribution(dist, |incs|) && r < |incs| && Gathered(incs, dist, r, |incs|, dirTable, dirRanks)
    ensures me in Get(dirRanks, v) ==> v in dirTable
  {
    assert KeyGathered(incs, InDirectory(dist, |incs|, r, v), r, |incs|, v, HeldFor(dirTable, dirRanks, v));
  }

  lemma DirectoryAnswered(incs: seq<map<nat, set<nat>>>, dist: seq<nat>, me: nat, table: map<nat, set<nat>>,
        ranks: map<nat, seq<nat>>)
    requires IsDistribution(dist, |incs|) && me < |incs| && Gathered(incs, dist, me, |incs|, table, ranks)
    ensures Answered(incs, dist, me, 0, table)
  {
    forall v: nat ensures KeyAnswered(incs, dist, me, 0, v, v in table, Values(table, v)) {
      assert KeyGathered(incs, InDirectory(dist, |incs|, me, v), me, |incs|, v, HeldFor(table, ranks, v));
      UnionIsAll(incs, me, v);
    }
  }

  // ----- all ranks ---------------------------------------------------------------------------

  lemma RowsDelivered(inc: map<nat, set<nat>>, dist: seq<nat>, P: nat, r: nat, s: nat, msgs: seq<Message>)
    requires IsDistribution(dist, P) && RowMessages(inc, inc.Keys, dist, P, s, msgs)
    ensures ReceivedRows(inc, dist, P, r, s, RecordsTo(msgs, r))
  {
    RecordsToMember(msgs, r);
    forall rec ensures rec in RecordsTo(msgs, r) <==> r != s && IsRow(inc, rec) && InDirectory(dist, P, r, rec[0]) {
      assert rec in RecordsTo(msgs, r) <==> Message(r, rec) in msgs;
    }
  }

  lemma AnswersDelivered(table: map<nat, set<nat>>, ranks: map<nat, seq<nat>>, P: nat, r: nat, s: nat,
        msgs: seq<Message>)
    requires AnswerMessages(table, ranks, P, s, msgs)
    ensures ReceivedAnswers(table, ranks, r, s, RecordsTo(msgs, r))
  {
    RecordsToMember(msgs, r);
    forall rec ensures rec in RecordsTo(msgs, r) <==> r != s && IsRow(table, rec) && r in Get(ranks, rec[0]) {
      assert rec in RecordsTo(msgs, r) <==> Message(r, rec) in msgs;
    }
  }

  method GatherAll(incs: seq<map<nat, set<nat>>>, dist: seq<nat>, chunk: nat)
    returns (tables: seq<map<nat, set<nat>>>, ranks: seq<map<nat, seq<nat>>>)
    requires chunk > 0 && IsDistribution(dist, |incs|)
    requires forall r :: 0 <= r < |incs| ==> InRange(incs[r].Keys, dist, |incs|)
    ensures |tables| == |ranks| == |incs|
    ensures forall r :: 0 <= r < |incs| ==> Gathered(incs, dist, r, |incs|, tables[r], ranks[r])
  {
    var P := |incs|;
    var outs: seq<seq<Message>> := [];
    var r := 0;
    while r < P
      invariant 0 <= r <= P && |outs| == r
      invariant forall q :: 0 <= q < r ==> RowMessages(incs[q], incs[q].Keys, dist, P, q, outs[q])
    {
      var msgs := PackRows(P, r, dist, incs[r]);
      outs, r := outs + [msgs], r + 1;
    }
    var recv := AllToAll(P, chunk, outs);
    tables, ranks := [], [];
    r := 0;
    while r < P
      invariant 0 <= r <= P && |tables| == |ranks| == r
      invariant forall q :: 0 <= q < r ==> Gathered(incs, dist, q, P, tables[q], ranks[q])
    {
      ghost var recs := seq(P, s requires 0 <= s < |outs| => RecordsTo(outs[s], r));
      forall s | 0 <= s < P ensures ReceivedRows(incs[s], dist, P, r, s, recs[s]) {
        RowsDelivered(incs[s], dist, P, r, s, outs[s]);
      }
      var table, rs := Gather(incs, dist, r, incs[r], recv[r], recs);
      tables, ranks, r := tables + [table], ranks + [rs], r + 1;
    }
  }

  lemma AnswersAddressed(incs: seq<map<nat, set<nat>>>, dist: seq<nat>, r: nat, table: map<nat, set<nat>>,
        ranks: map<nat, seq<nat>>)
    requires IsDistribution(dist, |incs|) && r < |incs| && Gathered(incs, dist, r, |incs|, table, ranks)
    ensures forall v, q :: v in ranks && q in ranks[v] ==> v in table && q < |incs|
  {
    forall v, q | v in ranks && q in ranks[v] ensures v in table && q < |incs| {
      assert KeyGathered(incs, InDirectory(dist, |incs|, r, v), r, |incs|, v, HeldFor(table, ranks, v));
      assert q in Get(ranks, v);
    }
  }

  /** Afterwards every rank knows, for each of its keys, what all ranks know. */
  method Complete(incs: seq<map<nat, set<nat>>>, dist: seq<nat>, chunk: nat) returns (tables: seq<map<nat, set<nat>>>)
    requires chunk > 0 && IsDistribution(dist, |incs|)
    requires forall r :: 0 <= r < |incs| ==> InRange(incs[r].Keys, dist, |incs|)
    ensures |tables| == |incs|
    ensures forall r :: 0 <= r < |incs| ==> Completed(incs, r, tables[r])
  {
    var dirs, ranks := GatherAll(incs, dist, chunk);
    var outs := AnswerAll(incs, dist, dirs, ranks);
    tables := TakeAll(incs, dist, dirs, ranks, outs, chunk);
  }

  method AnswerAll(ghost incs: seq<map<nat, set<nat>>>, ghost dist: seq<nat>, dirs: seq<map<nat, set<nat>>>,
        ranks: seq<map<nat, seq<nat>>>)
    returns (outs: seq<seq<Message>>)
    requires IsDistribution(dist, |incs|) && |dirs| == |ranks| == |incs|
    requires forall r :: 0 <= r < |incs| ==> Gathered(incs, dist, r, |incs|, dirs[r], ranks[r])
    ensures |outs| == |incs|
    ensures forall q :: 0 <= q < |incs| ==> AnswerMessages(dirs[q], ranks[q], |incs|, q, outs[q])
  {
    var P := |dirs|;
    outs := [];
    var r := 0;
    while r < P
      invariant 0 <= r <= P && |outs| == r
      invariant forall q :: 0 <= q < r ==> AnswerMessages(dirs[q], ranks[q], P, q, outs[q])
    {
      AnswersAddressed(incs, dist, r, dirs[r], ranks[r]);
      var msgs := PackAnswers(P, r, dirs[r], ranks[r]);
      outs, r := outs + [msgs], r + 1;
    }
  }

  method TakeAll(ghost incs: seq<map<nat, set<nat>>>, dist: seq<nat>, dirs: seq<map<nat, set<nat>>>,
        ranks: seq<map<nat, seq<nat>>>, outs: seq<seq<Message>>, chunk: nat)
    returns (tables: seq<map<nat, set<nat>>>)
    requires chunk > 0 && IsDistribution(dist, |incs|) && |dirs| == |ranks| == |outs| == |incs|
    requires forall r :: 0 <= r < |incs| ==> Gathered(incs, dist, r, |incs|, dirs[r], ranks[r])
    requires forall q :: 0 <= q < |incs| ==> AnswerMessages(dirs[q], ranks[q], |incs|, q, outs[q])
    requires forall r :: 0 <= r < |incs| ==> InRange(incs[r].Keys, dist, |incs|)
    ensures |tables| == |incs|
    ensures forall r :: 0 <= r < |incs| ==> Completed(incs, r, tables[r])
  {
    var P := |dirs|;
    var recv := AllToAll(P, chunk, outs);
    tables := [];
    var r := 0;
    while r < P
      invariant 0 <= r <= P && |tables| == r
      invariant forall q :: 0 <= q < r ==> Completed(incs, q, tables[q])
    {
      ghost var recs := seq(P, s requires 0 <= s < |outs| => RecordsTo(outs[s], r));
      forall s | 0 <= s < P ensures ReceivedAnswers(dirs[s], ranks[s], r, s, recs[s]) {
        AnswersDelivered(dirs[s], ranks[s], P, r, s, outs[s]);
      }
      var table := TakeAnswers(incs, dist, r, dirs[r], ranks[r], dirs, ranks, recv[r], recs);
      tables, r := tables + [table], r + 1;
    }
  }
}
