/** The directory's answers, and the whole rendezvous on all ranks. */
module Rendezvous {
  import opened Base
  import opened Distribution
  import opened Exchange
  import opened Directory

  // ----- answers ------------------------------------------------------------------

  function ReplyRecord(g: nat, e: Entry): seq<nat> {
    [g, e.rank, e.localId, |e.ghostRanks|] + e.ghostRanks
  }

  ghost predicate IsReply(dir: map<nat, Entry>, d: nat, rec: seq<nat>) {
    rec != [] && rec[0] in dir && rec == ReplyRecord(rec[0], dir[rec[0]]) &&
    (d in dir[rec[0]].ghostRanks || d == dir[rec[0]].rank)
  }

  ghost predicate ReplyMessages(dir: map<nat, Entry>, P: nat, me: nat, msgs: seq<Message>) {
    Addressed(msgs, P) && DistinctKeys(msgs) &&
    forall d, rec :: Message(d, rec) in msgs <==> d != me && IsReply(dir, d, rec)
  }

  method ReplyAll(ranks: seq<nat>, P: nat, me: nat, rec: seq<nat>) returns (msgs: seq<Message>)
    requires Distinct(ranks) && rec != []
    requires forall k :: 0 <= k < |ranks| ==> ranks[k] < P
    ensures Addressed(msgs, P) && DistinctKeys(msgs)
    ensures forall d, w :: Message(d, w) in msgs <==> d in ranks && d != me && w == rec
  {
    msgs := [];
    var i := 0;
    while i < |ranks|
      invariant 0 <= i <= |ranks|
      invariant Addressed(msgs, P) && DistinctKeys(msgs)
      invariant forall d, w :: Message(d, w) in msgs <==> d in ranks[..i] && d != me && w == rec
    {
      assert ranks[..i + 1] == ranks[..i] + [ranks[i]];
      if ranks[i] != me {
        forall j | 0 <= j < |msgs| ensures msgs[j].dest != ranks[i] {
          assert Message(msgs[j].dest, msgs[j].words) in msgs;
        }
        msgs := msgs + [Message(ranks[i], rec)];
      }
      i := i + 1;
    }
    assert ranks[..i] == ranks;
  }

  ghost predicate RepliesFor(dir: map<nat, Entry>, seen: seq<nat>, P: nat, me: nat, msgs: seq<Message>) {
    Addressed(msgs, P) && DistinctKeys(msgs) &&
    forall d, rec :: Message(d, rec) in msgs <==> d != me && IsReply(dir, d, rec) && rec[0] in seen
  }

  ghost predicate EntryReplies(g: nat, e: Entry, P: nat, me: nat, msgs: seq<Message>) {
    Addressed(msgs, P) && DistinctKeys(msgs) &&
    forall d, w :: Message(d, w) in msgs <==> d in e.ghostRanks + [e.rank] && d != me && w == ReplyRecord(g, e)
  }

  lemma RepliesAppended(dir: map<nat, Entry>, seen: seq<nat>, P: nat, me: nat, msgs: seq<Message>, g: nat,
        more: seq<Message>)
    requires RepliesFor(dir, seen, P, me, msgs) && g in dir && g !in seen && EntryReplies(g, dir[g], P, me, more)
    ensures RepliesFor(dir, seen + [g], P, me, msgs + more)
  {
    forall m, n | m in msgs && n in more ensures m.words[0] != n.words[0] {
      assert Message(m.dest, m.words) in msgs;
      assert Message(n.dest, n.words) in more;
    }
    DistinctKeysAppend(msgs, more);
    forall d, rec
      ensures Message(d, rec) in msgs + more <==> d != me && IsReply(dir, d, rec) && rec[0] in seen + [g]
    {
      assert Message(d, rec) in msgs + more <==> Message(d, rec) in msgs || Message(d, rec) in more;
      assert Message(d, rec) in more <==> d != me && IsReply(dir, d, rec) && rec[0] == g;
    }
  }

  ghost predicate Answerable(e: Entry, P: nat) {
    Distinct(e.ghostRanks + [e.rank]) && forall s :: s in e.ghostRanks + [e.rank] ==> s < P
  }

  method ReplyEntry(P: nat, me: nat, g: nat, e: Entry) returns (msgs: seq<Message>)
    requires Answerable(e, P)
    ensures EntryReplies(g, e, P, me, msgs)
  {
    var ranks := e.ghostRanks + [e.rank];
    assert forall k :: 0 <= k < |ranks| ==> ranks[k] in ranks;
    msgs := ReplyAll(ranks, P, me, ReplyRecord(g, e));
  }

  method ReplyOne(dir: map<nat, Entry>, ghost seen: seq<nat>, P: nat, me: nat, msgs: seq<Message>, g: nat)
    returns (msgs': seq<Message>)
    requires RepliesFor(dir, seen, P, me, msgs) && g in dir && g !in seen && Answerable(dir[g], P)
    ensures RepliesFor(dir, seen + [g], P, me, msgs')
  {
    var more := ReplyEntry(P, me, g, dir[g]);
    RepliesAppended(dir, seen, P, me, msgs, g, more);
    msgs' := msgs + more;
  }

  /** Owner and ghosts of every id are told; each rank hears of an id at most once. */
  method PackReplies(P: nat, me: nat, dir: map<nat, Entry>) returns (msgs: seq<Message>)
    requires forall g :: g in dir ==> Answerable(dir[g], P)
    ensures ReplyMessages(dir, P, me, msgs)
  {
    msgs := [];
    var order := Ascending(dir.Keys);
    var i := 0;
    while i < |order|
      invariant 0 <= i <= |order|
      invariant RepliesFor(dir, order[..i], P, me, msgs)
    {
      NextElement(order, i);
      msgs := ReplyOne(dir, order[..i], P, me, msgs, order[i]);
      i := i + 1;
    }
    assert order[..i] == order;
  }

  ghost predicate ReplyShaped(rec: seq<nat>) {
    |rec| >= 4 && rec[3] == |rec| - 4
  }

  ghost function Decoded(rec: seq<nat>): Entry
    requires ReplyShaped(rec)
  {
    Entry(rec[1], rec[2], rec[4..])
  }

  method ReadReply(words: seq<nat>, i: nat, ghost rec: seq<nat>) returns (g: nat, e: Entry, next: nat)
    requires ReplyShaped(rec) && i + |rec| <= |words| && words[i..i + |rec|] == rec
    ensures g == rec[0] && e == Decoded(rec) && next == i + |rec|
  {
    assert forall j :: 0 <= j < |rec| ==> words[i + j] == rec[j];
    var rank, localId, numShared := words[i + 1], words[i + 2], words[i + 3];
    g, e, next := words[i], Entry(rank, localId, words[i + 4..i + 4 + numShared]), i + 4 + numShared;
    assert e.ghostRanks == rec[4..];
  }

  ghost function Heads(recs: seq<seq<nat>>): set<nat> {
    set k | 0 <= k < |recs| && recs[k] != [] :: recs[k][0]
  }

  lemma HeadsSnoc(recs: seq<seq<nat>>, rec: seq<nat>)
    requires rec != []
    ensures Heads(recs + [rec]) == Heads(recs) + {rec[0]}
  {
    var all := recs + [rec];
    forall g ensures g in Heads(all) <==> g in Heads(recs) + {rec[0]} {
      assert all[|recs|] == rec;
      if k :| 0 <= k < |recs| && recs[k] != [] && recs[k][0] == g {
        assert all[k] == recs[k];
      }
    }
  }

  lemma NewHead(recs: seq<seq<nat>>, k: nat)
    requires DistinctHeads(recs) && k < |recs|
    ensures recs[k][0] !in Heads(recs[..k])
  {
    forall j | 0 <= j < k ensures recs[..k][j][0] != recs[k][0] { assert recs[..k][j] == recs[j]; }
  }

  ghost predicate Taken(recs: seq<seq<nat>>, dir: map<nat, Entry>, dir': map<nat, Entry>) {
    dir'.Keys == dir.Keys + Heads(recs) &&
    (forall g :: g in dir ==> dir'[g] == dir[g]) &&
    forall rec :: rec in recs && ReplyShaped(rec) ==> rec[0] in dir' && dir'[rec[0]] == Decoded(rec)
  }

  lemma TakenOneMore(recs: seq<seq<nat>>, dir: map<nat, Entry>, dir': map<nat, Entry>, rec: seq<nat>)
    requires Taken(recs, dir, dir') && ReplyShaped(rec) && rec[0] !in dir'
    ensures Taken(recs + [rec], dir, dir'[rec[0] := Decoded(rec)])
  {
    HeadsSnoc(recs, rec);
    forall x | x in recs && ReplyShaped(x) ensures x[0] != rec[0] {
      assert x[0] in dir';
    }
  }

  /** One reply is read at position i and inserted under a new id. */
  ghost predicate NewReply(rec: seq<nat>, dir: map<nat, Entry>) {
    ReplyShaped(rec) && rec[0] !in dir
  }

  method MergeReply(words: seq<nat>, i: nat, ghost recs: seq<seq<nat>>, ghost k: nat, ghost dir: map<nat, Entry>,
        dir': map<nat, Entry>)
    returns (dir'': map<nat, Entry>, next: nat)
    requires k < |recs| && NewReply(recs[k], dir) && DistinctHeads(recs)
    requires i + |recs[k]| <= |words| && words[i..i + |recs[k]|] == recs[k]
    requires Taken(recs[..k], dir, dir')
    ensures Taken(recs[..k + 1], dir, dir'') && next == i + |recs[k]|
  {
    var g, e, n := ReadReply(words, i, recs[k]);
    NewHead(recs, k);
    assert g !in dir';  // otherwise two owners would have sent it
    TakenOneMore(recs[..k], dir, dir', recs[k]);
    assert recs[..k + 1] == recs[..k] + [recs[k]];
    dir'', next := dir'[g := e], n;
  }

  /** Replies read so far: k records, i words. */
  ghost predicate Merging(words: seq<nat>, i: nat, recs: seq<seq<nat>>, k: nat, dir: map<nat, Entry>,
        dir': map<nat, Entry>)
  {
    i <= |words| && k <= |recs| && words[i..] == Flatten(recs[k..]) && Taken(recs[..k], dir, dir')
  }

  method MergeNext(words: seq<nat>, i: nat, ghost recs: seq<seq<nat>>, ghost k: nat, ghost dir: map<nat, Entry>,
        dir': map<nat, Entry>)
    returns (dir'': map<nat, Entry>, next: nat)
    requires Merging(words, i, recs, k, dir, dir') && i < |words| && DistinctHeads(recs)
    requires forall j :: 0 <= j < |recs| ==> NewReply(recs[j], dir)
    ensures i < next && Merging(words, next, recs, k + 1, dir, dir'')
  {
    NextRecord(words, i, recs, k);
    dir'', next := MergeReply(words, i, recs, k, dir, dir');
  }

  /** Every reply inserts a new id: nobody hears of an id from two directories. */
  method MergeReplies(words: seq<nat>, ghost recs: seq<seq<nat>>, dir: map<nat, Entry>)
    returns (dir': map<nat, Entry>)
    requires words == Flatten(recs) && DistinctHeads(recs)
    requires forall k :: 0 <= k < |recs| ==> NewReply(recs[k], dir)
    ensures Taken(recs, dir, dir')
  {
    dir' := dir;
    var i := 0;
    ghost var k := 0;
    MergingStarts(words, recs, dir);
    while i < |words|
      invariant 0 <= i <= |words| && 0 <= k && Merging(words, i, recs, k, dir, dir')
      decreases |words| - i
    {
      dir', i := MergeNext(words, i, recs, k, dir, dir');
      k := k + 1;
    }
    MergingEnds(words, i, recs, k, dir, dir');
  }

  lemma MergingStarts(words: seq<nat>, recs: seq<seq<nat>>, dir: map<nat, Entry>)
    requires words == Flatten(recs)
    ensures Merging(words, 0, recs, 0, dir, dir)
  {
    assert recs[0..] == recs && words[0..] == words && recs[..0] == [];
  }

  lemma MergingEnds(words: seq<nat>, i: nat, recs: seq<seq<nat>>, k: nat, dir: map<nat, Entry>, dir': map<nat, Entry>)
    requires Merging(words, i, recs, k, dir, dir') && i == |words| && DistinctHeads(recs)
    ensures Taken(recs, dir, dir')
  {
    NextRecord(words, i, recs, k);
    assert recs[..k] == recs;
  }

  // ----- specification of the whole rendezvous --------------------------------------

  /** The directory of rank me when all claims and wishes are in. */
  ghost predicate DirectoryRight(claims: seq<map<nat, nat>>, wants: seq<set<nat>>, dist: seq<nat>, me: nat,
        dir: map<nat, Entry>)
    requires IsDistribution(dist, |claims|)
  {
    (forall g :: g in dir <==> InDirectory(dist, |claims|, me, g) && Claimed(claims, g)) &&
    forall g :: g in dir ==> EntryRight(claims, wants, g, dir[g])
  }

  ghost predicate Concerns(claims: seq<map<nat, nat>>, wants: seq<set<nat>>, g: nat, s: nat) {
    IsOwner(claims, g, s) || IsSharer(claims, wants, g, s)
  }

  /** Ids answered to rank me by the directory ranks below upto. */
  ghost predicate Answered(claims: seq<map<nat, nat>>, wants: seq<set<nat>>, dist: seq<nat>, me: nat, upto: nat, g: nat)
    requires IsDistribution(dist, |claims|)
  {
    Claimed(claims, g) && g < dist[|claims|] && Concerns(claims, wants, g, me) &&
    Owner(dist, |claims|, g) < upto
  }

  /** What rank me knows: the ids of its directory block, and those it owns or shares. */
  ghost predicate TableRight(claims: seq<map<nat, nat>>, wants: seq<set<nat>>, dist: seq<nat>, me: nat, upto: nat,
        table: map<nat, Entry>)
    requires IsDistribution(dist, |claims|)
  {
    (forall g :: g in table <==>
      (InDirectory(dist, |claims|, me, g) && Claimed(claims, g)) || Answered(claims, wants, dist, me, upto, g)) &&
    forall g :: g in table ==> EntryRight(claims, wants, g, table[g])
  }

  ghost predicate ReceivedReplies(dir: map<nat, Entry>, me: nat, r: nat, recs: seq<seq<nat>>) {
    DistinctHeads(recs) && forall rec :: rec in recs <==> me != r && IsReply(dir, me, rec)
  }

  lemma ReplyIsShaped(dir: map<nat, Entry>, d: nat, rec: seq<nat>)
    requires IsReply(dir, d, rec)
    ensures ReplyShaped(rec) && Decoded(rec) == dir[rec[0]]
  {}

  /** Replies name exactly the ids of r's directory that concern me. */
  lemma RepliesHeads(claims: seq<map<nat, nat>>, wants: seq<set<nat>>, dist: seq<nat>, me: nat, r: nat,
        dir: map<nat, Entry>, recs: seq<seq<nat>>, g: nat)
    requires IsDistribution(dist, |claims|)
    requires DirectoryRight(claims, wants, dist, r, dir) && ReceivedReplies(dir, me, r, recs)
    ensures g in Heads(recs) <==>
      me != r && InDirectory(dist, |claims|, r, g) && Claimed(claims, g) && Concerns(claims, wants, g, me)
  {
    if k :| 0 <= k < |recs| && recs[k] != [] && recs[k][0] == g {
      assert recs[k] in recs;
      assert IsReply(dir, me, recs[k]);
    }
    if g in dir && EntryRight(claims, wants, g, dir[g]) && Concerns(claims, wants, g, me) && me != r {
      if IsOwner(claims, g, me) { OwnerIsUnique(claims, g, me, dir[g].rank); }
      var rec := ReplyRecord(g, dir[g]);
      assert rec[0] == g;
      assert IsReply(dir, me, rec);
      assert rec in recs;
    }
  }

  lemma RepliesTaken(claims: seq<map<nat, nat>>, wants: seq<set<nat>>, dist: seq<nat>, me: nat, r: nat,
        dir: map<nat, Entry>, recs: seq<seq<nat>>, table: map<nat, Entry>, table': map<nat, Entry>)
    requires IsDistribution(dist, |claims|)
    requires DirectoryRight(claims, wants, dist, r, dir) && ReceivedReplies(dir, me, r, recs)
    requires TableRight(claims, wants, dist, me, r, table) && Taken(recs, table, table')
    ensures TableRight(claims, wants, dist, me, r + 1, table')
  {
    var next := r + 1;
    forall g
      ensures g in table' <==>
        (InDirectory(dist, |claims|, me, g) && Claimed(claims, g)) || Answered(claims, wants, dist, me, next, g)
    {
      RepliesHeads(claims, wants, dist, me, r, dir, recs, g);
    }
    forall g | g in table' ensures EntryRight(claims, wants, g, table'[g]) {
      if g !in table {
        var k :| 0 <= k < |recs| && recs[k] != [] && recs[k][0] == g;
        assert recs[k] in recs;
        ReplyIsShaped(dir, me, recs[k]);
      }
    }
  }

  lemma RepliesAreNew(claims: seq<map<nat, nat>>, wants: seq<set<nat>>, dist: seq<nat>, me: nat, r: nat,
        dir: map<nat, Entry>, recs: seq<seq<nat>>, table: map<nat, Entry>)
    requires IsDistribution(dist, |claims|)
    requires DirectoryRight(claims, wants, dist, r, dir) && ReceivedReplies(dir, me, r, recs)
    requires TableRight(claims, wants, dist, me, r, table)
    ensures forall k :: 0 <= k < |recs| ==> NewReply(recs[k], table)
  {
    forall k | 0 <= k < |recs| ensures NewReply(recs[k], table) {
      assert recs[k] in recs;
      ReplyIsShaped(dir, me, recs[k]);
      assert InDirectory(dist, |claims|, r, recs[k][0]);
    }
  }

  method UnpackReplies(ghost claims: seq<map<nat, nat>>, ghost wants: seq<set<nat>>, ghost dist: seq<nat>, me: nat,
        dir: map<nat, Entry>, ghost dirs: seq<map<nat, Entry>>, recv: seq<seq<nat>>, ghost recs: seq<seq<seq<nat>>>)
    returns (table: map<nat, Entry>)
    requires IsDistribution(dist, |claims|) && me < |claims|
    requires |dirs| == |recv| == |recs| == |claims| && dir == dirs[me]
    requires forall r :: 0 <= r < |claims| ==> DirectoryRight(claims, wants, dist, r, dirs[r])
    requires forall r :: 0 <= r < |claims| ==> recv[r] == Flatten(recs[r]) && ReceivedReplies(dirs[r], me, r, recs[r])
    ensures TableRight(claims, wants, dist, me, |claims|, table)
  {
    table := dir;
    assert DirectoryRight(claims, wants, dist, me, dirs[me]);
    var r := 0;
    while r < |recv|
      invariant 0 <= r <= |recv|
      invariant TableRight(claims, wants, dist, me, r, table)
    {
      RepliesAreNew(claims, wants, dist, me, r, dirs[r], recs[r], table);
      ghost var was := table;
      table := MergeReplies(recv[r], recs[r], table);
      RepliesTaken(claims, wants, dist, me, r, dirs[r], recs[r], was, table);
      r := r + 1;
    }
  }

  // ----- all ranks --------------------------------------------------------------------

  /** One rank's side: its numbering, the local ids it claims, the ids it wants. */
  datatype Party = Party(local2global: seq<nat>, locals: seq<nat>, ids: seq<nat>)

  ghost predicate PartyOk(p: Party, claim: map<nat, nat>, want: set<nat>, dist: seq<nat>, P: nat) {
    Distinct(p.local2global) && StrictlyAscending(p.locals) && ClaimsOf(claim, p.local2global, p.locals) &&
    InRange(claim.Keys, dist, P) &&
    StrictlyAscending(p.ids) && (forall g :: g in p.ids <==> g in want) && InRange(want, dist, P)
  }

  ghost predicate PartiesOk(parties: seq<Party>, claims: seq<map<nat, nat>>, wants: seq<set<nat>>, dist: seq<nat>) {
    |parties| == |claims| == |wants| && IsDistribution(dist, |claims|) &&
    forall r :: 0 <= r < |parties| ==> PartyOk(parties[r], claims[r], wants[r], dist, |claims|)
  }

  /** Every wanted id is claimed by somebody. */
  ghost predicate WantsClaimed(claims: seq<map<nat, nat>>, wants: seq<set<nat>>) {
    forall r, g :: 0 <= r < |wants| && g in wants[r] ==> Claimed(claims, g)
  }

  lemma ClaimsDelivered(claims: seq<map<nat, nat>>, dist: seq<nat>, r: nat, s: nat, msgs: seq<Message>)
    requires IsDistribution(dist, |claims|) && s < |claims|
    requires ClaimMessages(claims[s], dist, |claims|, s, msgs)
    ensures ReceivedClaims(claims, dist, r, s, RecordsTo(msgs, r))
  {
    RecordsToMember(msgs, r);
    forall rec ensures rec in RecordsTo(msgs, r) <==> r != s && IsClaim(claims[s], dist, |claims|, r, rec) {
      assert rec in RecordsTo(msgs, r) <==> Message(r, rec) in msgs;
    }
  }

  method ClaimAll(parties: seq<Party>, ghost claims: seq<map<nat, nat>>, ghost wants: seq<set<nat>>, dist: seq<nat>,
        chunk: nat)
    returns (dirs: seq<map<nat, Entry>>)
    requires chunk > 0 && PartiesOk(parties, claims, wants, dist)
    ensures |dirs| == |parties|
    ensures forall r :: 0 <= r < |parties| ==> Collected(claims, dist, r, |claims|, dirs[r])
  {
    var P := |parties|;
    var outs: seq<seq<Message>>, owns: seq<map<nat, Entry>> := [], [];
    var r := 0;
    while r < P
      invariant 0 <= r <= P && |outs| == |owns| == r
      invariant forall q :: 0 <= q < r ==> ClaimMessages(claims[q], dist, P, q, outs[q])
      invariant forall q :: 0 <= q < r ==> OwnClaims(claims[q], dist, P, q, owns[q])
    {
      assert PartyOk(parties[r], claims[r], wants[r], dist, P);
      var msgs, own := PackClaims(P, r, dist, parties[r].local2global, parties[r].locals, claims[r]);
      outs, owns, r := outs + [msgs], owns + [own], r + 1;
    }
    var recv := AllToAll(P, chunk, outs);
    dirs := [];
    r := 0;
    while r < P
      invariant 0 <= r <= P && |dirs| == r
      invariant forall q :: 0 <= q < r ==> Collected(claims, dist, q, P, dirs[q])
    {
      ghost var recs := seq(P, s requires 0 <= s < |outs| => RecordsTo(outs[s], r));
      forall s | 0 <= s < P ensures ReceivedClaims(claims, dist, r, s, recs[s]) {
        ClaimsDelivered(claims, dist, r, s, outs[s]);
      }
      var dir := UnpackClaims(claims, dist, r, owns[r], recv[r], recs);
      dirs, r := dirs + [dir], r + 1;
    }
  }

  lemma LowestIsOwner(claims: seq<map<nat, nat>>, me: nat, g: nat, e: Entry)
    requires me < |claims| && LowestHeard(claims, me, |claims|, g, e)
    ensures IsOwner(claims, g, e.rank) && e.localId == claims[e.rank][g]
  {
    var upto := |claims|;
    forall q | 0 <= q < e.rank ensures !ClaimedBy(claims, q, g) {
      assert !Heard(claims, me, upto, q, g);
    }
  }

  lemma HeardIsClaimed(claims: seq<map<nat, nat>>, me: nat, g: nat)
    ensures SomeoneHeard(claims, me, |claims|, g) <==> Claimed(claims, g)
  {
    var upto := |claims|;
    if q: nat :| ClaimedBy(claims, q, g) {
      assert Heard(claims, me, upto, q, g);
    }
  }

  /** The directory knows every id a rank asks about, so its lookup never fails. */
  lemma WantsAreKnown(claims: seq<map<nat, nat>>, wants: seq<set<nat>>, dist: seq<nat>, me: nat, s: nat,
        dir: map<nat, Entry>)
    requires IsDistribution(dist, |claims|) && s < |wants| && WantsClaimed(claims, wants)
    requires Collected(claims, dist, me, |claims|, dir)
    ensures forall g :: g in wants[s] && InDirectory(dist, |claims|, me, g) ==> g in dir
  {
    forall g | g in wants[s] && InDirectory(dist, |claims|, me, g) ensures g in dir {
      HeardIsClaimed(claims, me, g);
    }
  }

  ghost predicate RequestSent(want: set<nat>, dist: seq<nat>, P: nat, r: nat, dir: map<nat, Entry>, msgs: seq<Message>,
        dir': map<nat, Entry>)
    requires IsDistribution(dist, P)
  {
    RequestMessages(want, dist, P, r, msgs) && OwnTaken(want, dist, P, r, dir, dir')
  }

  method SendRequest(parties: seq<Party>, ghost claims: seq<map<nat, nat>>, ghost wants: seq<set<nat>>, dist: seq<nat>,
        dir: map<nat, Entry>, r: nat)
    returns (msgs: seq<Message>, dir': map<nat, Entry>)
    requires PartiesOk(parties, claims, wants, dist) && WantsClaimed(claims, wants) && r < |parties|
    requires Collected(claims, dist, r, |claims|, dir)
    ensures RequestSent(wants[r], dist, |parties|, r, dir, msgs, dir')
  {
    assert PartyOk(parties[r], claims[r], wants[r], dist, |claims|);
    WantsAreKnown(claims, wants, dist, r, r, dir);
    msgs, dir' := PackRequests(|parties|, r, dist, parties[r].ids, wants[r], dir);
  }

  method SendRequests(parties: seq<Party>, ghost claims: seq<map<nat, nat>>, ghost wants: seq<set<nat>>, dist: seq<nat>,
        dirs: seq<map<nat, Entry>>)
    returns (outs: seq<seq<Message>>, asked: seq<map<nat, Entry>>)
    requires PartiesOk(parties, claims, wants, dist) && WantsClaimed(claims, wants)
    requires |dirs| == |parties|
    requires forall r :: 0 <= r < |parties| ==> Collected(claims, dist, r, |claims|, dirs[r])
    ensures |outs| == |asked| == |parties|
    ensures forall q :: 0 <= q < |parties| ==> RequestMessages(wants[q], dist, |parties|, q, outs[q])
    ensures forall q :: 0 <= q < |parties| ==> OwnTaken(wants[q], dist, |parties|, q, dirs[q], asked[q])
  {
    outs, asked := [], [];
    var r := 0;
    while r < |parties|
      invariant 0 <= r <= |parties| && |outs| == |asked| == r
      invariant forall q {:trigger outs[q]} :: 0 <= q < r ==>
        RequestSent(wants[q], dist, |parties|, q, dirs[q], outs[q], asked[q])
    {
      var msgs, dir := SendRequest(parties, claims, wants, dist, dirs[r], r);
      outs, asked, r := outs + [msgs], asked + [dir], r + 1;
    }
  }

  lemma RequestsDelivered(want: set<nat>, dist: seq<nat>, P: nat, r: nat, s: nat, msgs: seq<Message>)
    requires IsDistribution(dist, P) && RequestMessages(want, dist, P, s, msgs)
    ensures ReceivedRequests(want, dist, P, r, s, RecordsTo(msgs, r)) && DistinctHeads(RecordsTo(msgs, r))
  {
    RecordsToMember(msgs, r);
    RecordsToDistinct(msgs, r);
    forall rec ensures rec in RecordsTo(msgs, r) <==> r != s && IsRequest(want, dist, P, r, rec) {
      assert rec in RecordsTo(msgs, r) <==> Message(r, rec) in msgs;
    }
  }

  lemma OwnWishCounted(wants: seq<set<nat>>, dist: seq<nat>, me: nat, dir: map<nat, Entry>, asked: map<nat, Entry>,
        g: nat)
    requires me < |wants| && IsDistribution(dist, |wants|) && OwnTaken(wants[me], dist, |wants|, me, dir, asked)
    requires g in dir && InDirectory(dist, |wants|, me, g) && dir[g].ghostRanks == []
    ensures GhostsOf(wants, me, 0, g, asked[g])
  {
    forall s ensures Asked(wants, me, 0, s, g) <==> s == me && g in wants[me] {}
  }

  method TakeRequests(ghost claims: seq<map<nat, nat>>, ghost wants: seq<set<nat>>, dist: seq<nat>, me: nat,
        ghost dir: map<nat, Entry>, asked: map<nat, Entry>, recv: seq<seq<nat>>, ghost recs: seq<seq<seq<nat>>>)
    returns (dir': map<nat, Entry>)
    requires me < |claims| == |wants| == |recv| == |recs| && IsDistribution(dist, |claims|) &&
      WantsClaimed(claims, wants)
    requires Collected(claims, dist, me, |claims|, dir) && OwnTaken(wants[me], dist, |wants|, me, dir, asked)
    requires forall r :: 0 <= r < |wants| ==>
      recv[r] == Flatten(recs[r]) && DistinctHeads(recs[r]) && ReceivedRequests(wants[r], dist, |wants|, me, r, recs[r])
    ensures DirectoryRight(claims, wants, dist, me, dir')
  {
    forall s, g | 0 <= s < |wants| && g in wants[s] && InDirectory(dist, |wants|, me, g) ensures g in asked {
      WantsAreKnown(claims, wants, dist, me, s, dir);
    }
    forall g | g in asked ensures InDirectory(dist, |wants|, me, g) && GhostsOf(wants, me, 0, g, asked[g]) {
      OwnWishCounted(wants, dist, me, dir, asked, g);
    }
    dir' := UnpackRequests(wants, dist, me, asked, recv, recs);
    FinishedDirectory(claims, wants, dist, me, dir, asked, dir');
  }

  lemma FinishedDirectory(claims: seq<map<nat, nat>>, wants: seq<set<nat>>, dist: seq<nat>, me: nat,
        dir: map<nat, Entry>, asked: map<nat, Entry>, dir': map<nat, Entry>)
    requires me < |claims| == |wants| && IsDistribution(dist, |claims|)
    requires Collected(claims, dist, me, |claims|, dir) && OwnTaken(wants[me], dist, |wants|, me, dir, asked)
    requires SameOwners(asked, dir')
    requires forall g :: g in dir' ==> GhostsOf(wants, me, |wants|, g, dir'[g])
    ensures DirectoryRight(claims, wants, dist, me, dir')
  {
    forall g ensures g in dir' <==> InDirectory(dist, |claims|, me, g) && Claimed(claims, g) {
      HeardIsClaimed(claims, me, g);
    }
    forall g | g in dir' ensures EntryRight(claims, wants, g, dir'[g]) {
      LowestIsOwner(claims, me, g, dir[g]);
      GhostsAreSharers(claims, wants, me, g, dir'[g]);
    }
  }

  lemma GhostsAreSharers(claims: seq<map<nat, nat>>, wants: seq<set<nat>>, me: nat, g: nat, e: Entry)
    requires me < |wants| && GhostsOf(wants, me, |wants|, g, e)
    requires IsOwner(claims, g, e.rank) && e.localId == claims[e.rank][g]
    ensures EntryRight(claims, wants, g, e)
  {
    var upto := |wants|;
    forall s ensures s in e.ghostRanks <==> IsSharer(claims, wants, g, s) {
      assert s in e.ghostRanks <==> Asked(wants, me, upto, s, g) && s != e.rank;
      if IsOwner(claims, g, s) { OwnerIsUnique(claims, g, s, e.rank); }
    }
  }

  method RequestAll(parties: seq<Party>, ghost claims: seq<map<nat, nat>>, ghost wants: seq<set<nat>>, dist: seq<nat>,
        dirs: seq<map<nat, Entry>>, chunk: nat)
    returns (dirs': seq<map<nat, Entry>>)
    requires chunk > 0 && PartiesOk(parties, claims, wants, dist) && WantsClaimed(claims, wants)
    requires |dirs| == |parties|
    requires forall r :: 0 <= r < |parties| ==> Collected(claims, dist, r, |claims|, dirs[r])
    ensures |dirs'| == |parties|
    ensures forall r :: 0 <= r < |parties| ==> DirectoryRight(claims, wants, dist, r, dirs'[r])
  {
    var outs, asked := SendRequests(parties, claims, wants, dist, dirs);
    dirs' := TakeAllRequests(claims, wants, dist, dirs, asked, outs, chunk);
  }

  method TakeAllRequests(ghost claims: seq<map<nat, nat>>, ghost wants: seq<set<nat>>, dist: seq<nat>,
        ghost dirs: seq<map<nat, Entry>>, asked: seq<map<nat, Entry>>, outs: seq<seq<Message>>, chunk: nat)
    returns (dirs': seq<map<nat, Entry>>)
    requires chunk > 0 && IsDistribution(dist, |claims|) && WantsClaimed(claims, wants)
    requires |claims| == |wants| == |dirs| == |asked| == |outs|
    requires forall r :: 0 <= r < |claims| ==> Collected(claims, dist, r, |claims|, dirs[r])
    requires forall q :: 0 <= q < |claims| ==> RequestMessages(wants[q], dist, |claims|, q, outs[q])
    requires forall q :: 0 <= q < |claims| ==> OwnTaken(wants[q], dist, |claims|, q, dirs[q], asked[q])
    ensures |dirs'| == |claims|
    ensures forall r :: 0 <= r < |claims| ==> DirectoryRight(claims, wants, dist, r, dirs'[r])
  {
    var P := |outs|;
    var recv := AllToAll(P, chunk, outs);
    dirs' := [];
    var r := 0;
    while r < P
      invariant 0 <= r <= P && |dirs'| == r
      invariant forall q :: 0 <= q < r ==> DirectoryRight(claims, wants, dist, q, dirs'[q])
    {
      var dir := TakeDelivered(claims, wants, dist, r, dirs[r], asked[r], recv[r], outs);
      dirs', r := dirs' + [dir], r + 1;
    }
  }

  method TakeDelivered(ghost claims: seq<map<nat, nat>>, ghost wants: seq<set<nat>>, dist: seq<nat>, me: nat,
        ghost dir: map<nat, Entry>, asked: map<nat, Entry>, recv: seq<seq<nat>>, ghost outs: seq<seq<Message>>)
    returns (dir': map<nat, Entry>)
    requires me < |claims| == |wants| == |recv| == |outs| && IsDistribution(dist, |claims|) &&
      WantsClaimed(claims, wants)
    requires Collected(claims, dist, me, |claims|, dir) && OwnTaken(wants[me], dist, |wants|, me, dir, asked)
    requires forall s :: 0 <= s < |outs| ==>
      RequestMessages(wants[s], dist, |wants|, s, outs[s]) && recv[s] == Block(outs[s], me)
    ensures DirectoryRight(claims, wants, dist, me, dir')
  {
    ghost var P := |claims|;
    ghost var recs := seq(P, s requires 0 <= s < |outs| => RecordsTo(outs[s], me));
    forall s | 0 <= s < P ensures ReceivedRequests(wants[s], dist, P, me, s, recs[s]) && DistinctHeads(recs[s]) {
      RequestsDelivered(wants[s], dist, P, me, s, outs[s]);
    }
    dir' := TakeRequests(claims, wants, dist, me, dir, asked, recv, recs);
  }

  lemma EntryIsAnswerable(claims: seq<map<nat, nat>>, wants: seq<set<nat>>, g: nat, e: Entry)
    requires |claims| == |wants| && EntryRight(claims, wants, g, e)
    ensures Answerable(e, |claims|)
  {
    assert e.rank !in e.ghostRanks;
  }

  lemma RepliesDelivered(dir: map<nat, Entry>, P: nat, r: nat, s: nat, msgs: seq<Message>)
    requires ReplyMessages(dir, P, s, msgs)
    ensures ReceivedReplies(dir, r, s, RecordsTo(msgs, r))
  {
    RecordsToMember(msgs, r);
    RecordsToDistinct(msgs, r);
    forall rec ensures rec in RecordsTo(msgs, r) <==> r != s && IsReply(dir, r, rec) {
      assert rec in RecordsTo(msgs, r) <==> Message(r, rec) in msgs;
    }
  }

  method ReplyToAll(ghost claims: seq<map<nat, nat>>, ghost wants: seq<set<nat>>, ghost dist: seq<nat>,
        dirs: seq<map<nat, Entry>>, chunk: nat)
    returns (tables: seq<map<nat, Entry>>)
    requires chunk > 0 && |dirs| == |claims| == |wants| && IsDistribution(dist, |claims|)
    requires forall r :: 0 <= r < |dirs| ==> DirectoryRight(claims, wants, dist, r, dirs[r])
    ensures |tables| == |dirs|
    ensures forall r :: 0 <= r < |dirs| ==> TableRight(claims, wants, dist, r, |claims|, tables[r])
  {
    var P := |dirs|;
    var outs: seq<seq<Message>> := [];
    var r := 0;
    while r < P
      invariant 0 <= r <= P && |outs| == r
      invariant forall q :: 0 <= q < r ==> ReplyMessages(dirs[q], P, q, outs[q])
    {
      forall g | g in dirs[r] ensures Answerable(dirs[r][g], P) {
        EntryIsAnswerable(claims, wants, g, dirs[r][g]);
      }
      var msgs := PackReplies(P, r, dirs[r]);
      outs, r := outs + [msgs], r + 1;
    }
    var recv := AllToAll(P, chunk, outs);
    tables := [];
    r := 0;
    while r < P
      invariant 0 <= r <= P && |tables| == r
      invariant forall q :: 0 <= q < r ==> TableRight(claims, wants, dist, q, P, tables[q])
    {
      ghost var recs := seq(P, s requires 0 <= s < |outs| => RecordsTo(outs[s], r));
      forall s | 0 <= s < P ensures ReceivedReplies(dirs[s], r, s, recs[s]) {
        RepliesDelivered(dirs[s], P, r, s, outs[s]);
      }
      var table := UnpackReplies(claims, wants, dist, r, dirs[r], dirs, recv[r], recs);
      tables, r := tables + [table], r + 1;
    }
  }

  /** The whole rendezvous: afterwards rank r knows, for every id it owns, shares or
      keeps the directory of, the owner, the owner's local id and all sharers. */
  method Meet(parties: seq<Party>, ghost claims: seq<map<nat, nat>>, ghost wants: seq<set<nat>>, dist: seq<nat>,
        chunk: nat)
    returns (tables: seq<map<nat, Entry>>)
    requires chunk > 0 && PartiesOk(parties, claims, wants, dist) && WantsClaimed(claims, wants)
    ensures |tables| == |parties|
    ensures forall r :: 0 <= r < |parties| ==> TableRight(claims, wants, dist, r, |claims|, tables[r])
  {
    var dirs := ClaimAll(parties, claims, wants, dist, chunk);
    dirs := RequestAll(parties, claims, wants, dist, dirs, chunk);
    tables := ReplyToAll(claims, wants, dist, dirs, chunk);
  }
}
