/** The rendezvous by which ranks agree on owners and sharers. Every id has a
    directory rank. Ranks send it their claims, then the ids they need as ghosts;
    it answers the owner and every ghost with the owner, the owner's local id and
    the list of ghosts. Claims and wishes are arbitrary here. */
module Directory {
  import opened Base
  import opened Distribution
  import opened Exchange

  /** What is known about an id: its owner, the owner's local id, its ghosts. */
  datatype Entry = Entry(rank: nat, localId: nat, ghostRanks: seq<nat>)

  ghost predicate InDirectory(dist: seq<nat>, P: nat, d: nat, g: nat)
    requires IsDistribution(dist, P)
  {
    g < dist[P] && Owner(dist, P, g) == d
  }

  /** Every id in use falls into some directory block. */
  ghost predicate InRange(ids: set<nat>, dist: seq<nat>, P: nat) {
    IsDistribution(dist, P) && forall g :: g in ids ==> g < dist[P]
  }

  // ----- specification: claims[r] maps the ids claimed by r to its local ids ----

  ghost predicate ClaimedBy(claims: seq<map<nat, nat>>, r: nat, g: nat) {
    r < |claims| && g in claims[r]
  }

  /** The owner is the lowest rank that claims the id. */
  ghost predicate IsOwner(claims: seq<map<nat, nat>>, g: nat, r: nat) {
    ClaimedBy(claims, r, g) && forall q :: 0 <= q < r ==> !ClaimedBy(claims, q, g)
  }

  ghost predicate Claimed(claims: seq<map<nat, nat>>, g: nat) {
    exists r: nat :: ClaimedBy(claims, r, g)
  }

  ghost predicate IsSharer(claims: seq<map<nat, nat>>, wants: seq<set<nat>>, g: nat, s: nat) {
    s < |wants| && g in wants[s] && !IsOwner(claims, g, s)
  }

  lemma OwnerIsUnique(claims: seq<map<nat, nat>>, g: nat, r: nat, s: nat)
    requires IsOwner(claims, g, r) && IsOwner(claims, g, s)
    ensures r == s
  {}

  lemma {:induction false} OwnerFrom(claims: seq<map<nat, nat>>, g: nat, r: nat) returns (o: nat)
    requires ClaimedBy(claims, r, g)
    ensures o <= r && IsOwner(claims, g, o)
    decreases r
  {
    if q :| 0 <= q < r && ClaimedBy(claims, q, g) {
      o := OwnerFrom(claims, g, q);
    } else {
      o := r;
    }
  }

  /** A finished entry: owner, the owner's local id, and exactly the sharers. */
  ghost predicate EntryRight(claims: seq<map<nat, nat>>, wants: seq<set<nat>>, g: nat, e: Entry) {
    IsOwner(claims, g, e.rank) && e.localId == claims[e.rank][g] && Distinct(e.ghostRanks) &&
    forall s :: s in e.ghostRanks <==> IsSharer(claims, wants, g, s)
  }

  // ----- claims: global and local id to the directory ----------------------------

  ghost predicate IsClaim(claim: map<nat, nat>, dist: seq<nat>, P: nat, d: nat, rec: seq<nat>)
    requires IsDistribution(dist, P)
  {
    |rec| == 2 && rec[0] in claim && rec[1] == claim[rec[0]] && InDirectory(dist, P, d, rec[0])
  }

  ghost predicate ClaimMessages(claim: map<nat, nat>, dist: seq<nat>, P: nat, me: nat, msgs: seq<Message>)
    requires IsDistribution(dist, P)
  {
    Addressed(msgs, P) && DistinctKeys(msgs) &&
    forall d, rec :: Message(d, rec) in msgs <==> d != me && IsClaim(claim, dist, P, d, rec)
  }

  ghost predicate OwnClaims(claim: map<nat, nat>, dist: seq<nat>, P: nat, me: nat, own: map<nat, Entry>)
    requires IsDistribution(dist, P)
  {
    (forall g :: g in own <==> g in claim && InDirectory(dist, P, me, g)) &&
    forall g :: g in own ==> own[g] == Entry(me, claim[g], [])
  }

  lemma ClaimAppended(claim: map<nat, nat>, dist: seq<nat>, P: nat, me: nat, msgs: seq<Message>, g: nat, l: nat, d: nat)
    requires IsDistribution(dist, P) && ClaimMessages(claim, dist, P, me, msgs)
    requires g !in claim && d < P && InDirectory(dist, P, d, g)
    ensures ClaimMessages(claim[g := l], dist, P, me, if d != me then msgs + [Message(d, [g, l])] else msgs)
  {
    var more := if d != me then [Message(d, [g, l])] else [];
    forall m, n | m in msgs && n in more ensures m.words[0] != n.words[0] {
      assert Message(m.dest, m.words) in msgs;
    }
    DistinctKeysAppend(msgs, more);
    assert msgs + [] == msgs;
    forall q, rec
      ensures Message(q, rec) in msgs + more <==> q != me && IsClaim(claim[g := l], dist, P, q, rec)
    {
      assert |rec| == 2 ==> rec == [rec[0], rec[1]];
      assert Message(q, rec) in msgs + more <==> Message(q, rec) in msgs || Message(q, rec) in more;
    }
  }

  /** The part of a numbering that the listed local ids stand for. */
  ghost predicate ClaimsOf(claim: map<nat, nat>, local2global: seq<nat>, locals: seq<nat>) {
    (forall l :: l in locals ==> l < |local2global| && local2global[l] in claim && claim[local2global[l]] == l) &&
    forall g :: g in claim ==> claim[g] in locals && claim[g] < |local2global| && local2global[claim[g]] == g
  }

  lemma ClaimsOfOneMore(claim: map<nat, nat>, local2global: seq<nat>, locals: seq<nat>, l: nat)
    requires Distinct(local2global) && ClaimsOf(claim, local2global, locals)
    requires l < |local2global| && l !in locals
    ensures local2global[l] !in claim
    ensures ClaimsOf(claim[local2global[l] := l], local2global, locals + [l])
  {
    forall g | g in claim ensures g != local2global[l] { assert claim[g] in locals; }
  }

  lemma ClaimsOfUnique(a: map<nat, nat>, b: map<nat, nat>, local2global: seq<nat>, locals: seq<nat>)
    requires ClaimsOf(a, local2global, locals) && ClaimsOf(b, local2global, locals)
    ensures a == b
  {
    forall g ensures g in a <==> g in b {}
  }

  /** Claims of one rank: its local ids in ascending order, each with its global
      id; those that fall into its own directory block need no message. */
  method PackClaims(P: nat, me: nat, dist: seq<nat>, local2global: seq<nat>, locals: seq<nat>,
        ghost claim: map<nat, nat>)
    returns (msgs: seq<Message>, own: map<nat, Entry>)
    requires Distinct(local2global) && StrictlyAscending(locals)
    requires ClaimsOf(claim, local2global, locals) && InRange(claim.Keys, dist, P)
    ensures ClaimMessages(claim, dist, P, me, msgs)
    ensures OwnClaims(claim, dist, P, me, own)
  {
    msgs, own := [], map[];
    ghost var seen: map<nat, nat> := map[];
    var i := 0;
    while i < |locals|
      invariant 0 <= i <= |locals|
      invariant ClaimsOf(seen, local2global, locals[..i])
      invariant ClaimMessages(seen, dist, P, me, msgs)
      invariant OwnClaims(seen, dist, P, me, own)
    {
      var l := locals[i];
      assert l in locals && l !in locals[..i];
      assert locals[..i + 1] == locals[..i] + [l];
      var g := local2global[l];
      var d := RankOwner(dist, P, g);
      ClaimsOfOneMore(seen, local2global, locals[..i], l);
      ClaimAppended(seen, dist, P, me, msgs, g, l, d);
      if d != me {
        msgs := msgs + [Message(d, [g, l])];
      } else {
        own := own[g := Entry(me, l, [])];
      }
      seen := seen[g := l];
      i := i + 1;
    }
    assert locals[..i] == locals;
    ClaimsOfUnique(seen, claim, local2global, locals);
  }

  // ----- the directory collects claims -------------------------------------------

  /** Ranks heard by the directory rank me: itself, and those below upto. */
  ghost predicate Heard(claims: seq<map<nat, nat>>, me: nat, upto: nat, q: nat, g: nat) {
    (q < upto || q == me) && ClaimedBy(claims, q, g)
  }

  ghost predicate SomeoneHeard(claims: seq<map<nat, nat>>, me: nat, upto: nat, g: nat) {
    exists q: nat :: Heard(claims, me, upto, q, g)
  }

  ghost predicate LowestHeard(claims: seq<map<nat, nat>>, me: nat, upto: nat, g: nat, e: Entry) {
    Heard(claims, me, upto, e.rank, g) && e.localId == claims[e.rank][g] && e.ghostRanks == [] &&
    forall q :: 0 <= q < e.rank ==> !Heard(claims, me, upto, q, g)
  }

  /** For every id it is responsible for, the lowest rank heard so far. */
  ghost predicate Collected(claims: seq<map<nat, nat>>, dist: seq<nat>, me: nat, upto: nat, dir: map<nat, Entry>)
    requires IsDistribution(dist, |claims|)
  {
    (forall g :: g in dir <==> InDirectory(dist, |claims|, me, g) && SomeoneHeard(claims, me, upto, g)) &&
    forall g :: g in dir ==> LowestHeard(claims, me, upto, g, dir[g])
  }

  ghost predicate Pairs(recs: seq<seq<nat>>) {
    forall k :: 0 <= k < |recs| ==> |recs[k]| == 2
  }

  ghost predicate ClaimsId(recs: seq<seq<nat>>, g: nat) {
    exists l: nat :: [g, l] in recs
  }

  /** The entry of g after rank r's records: a lower rank wins. */
  ghost predicate Merged(r: nat, recs: seq<seq<nat>>, dir: map<nat, Entry>, g: nat, e: Entry) {
    if ClaimsId(recs, g) && (g in dir ==> r < dir[g].rank) then
      e.rank == r && e.ghostRanks == [] && [g, e.localId] in recs
    else
      g in dir && e == dir[g]
  }

  ghost predicate AllMerged(r: nat, recs: seq<seq<nat>>, dir: map<nat, Entry>, dir': map<nat, Entry>) {
    (forall g :: g in dir' <==> g in dir || ClaimsId(recs, g)) &&
    forall g :: g in dir' ==> Merged(r, recs, dir, g, dir'[g])
  }

  lemma MergedOneMore(r: nat, recs: seq<seq<nat>>, dir: map<nat, Entry>, dir': map<nat, Entry>, g: nat, l: nat)
    requires AllMerged(r, recs, dir, dir')
    ensures AllMerged(r, recs + [[g, l]], dir, if g !in dir' ||
      r < dir'[g].rank then dir'[g := Entry(r, l, [])] else dir')
  {
    var all := recs + [[g, l]];
    forall x ensures ClaimsId(all, x) <==> ClaimsId(recs, x) || x == g {
      assert [g, l] in all;
      if y: nat :| [x, y] in recs { assert [x, y] in all; }
      if y: nat :| [x, y] in all && x != g { assert [x, y][0] != [g, l][0]; assert [x, y] in recs; }
    }
    forall x | x in dir' ensures Merged(r, recs, dir, x, dir'[x]) {}
  }

  method MergeClaims(r: nat, words: seq<nat>, ghost recs: seq<seq<nat>>, dir: map<nat, Entry>)
    returns (dir': map<nat, Entry>)
    requires words == Flatten(recs) && Pairs(recs)
    ensures AllMerged(r, recs, dir, dir')
  {
    dir' := dir;
    var i := 0;
    ghost var k := 0;
    NextRecord(words, 0, recs, 0);
    while i < |words|
      invariant 0 <= i <= |words| && 0 <= k <= |recs| && words[i..] == Flatten(recs[k..])
      invariant AllMerged(r, recs[..k], dir, dir')
      decreases |words| - i
    {
      NextRecord(words, i, recs, k);
      assert recs[k] == words[i..i + 2];
      var g, l := words[i], words[i + 1];
      assert recs[k] == [g, l];
      assert recs[..k + 1] == recs[..k] + [recs[k]];
      MergedOneMore(r, recs[..k], dir, dir', g, l);
      if g !in dir' || r < dir'[g].rank {
        dir' := dir'[g := Entry(r, l, [])];
      }
      i, k := i + 2, k + 1;
    }
    NextRecord(words, i, recs, k);
    assert recs[..k] == recs;
  }

  ghost predicate ReceivedClaims(claims: seq<map<nat, nat>>, dist: seq<nat>, me: nat, r: nat, recs: seq<seq<nat>>)
    requires IsDistribution(dist, |claims|) && r < |claims|
  {
    forall rec :: rec in recs <==> me != r && IsClaim(claims[r], dist, |claims|, me, rec)
  }

  /** The records of rank r name exactly the ids it claims in my directory. */
  lemma ReceivedIds(claims: seq<map<nat, nat>>, dist: seq<nat>, me: nat, r: nat, recs: seq<seq<nat>>, g: nat)
    requires IsDistribution(dist, |claims|) && r < |claims|
    requires ReceivedClaims(claims, dist, me, r, recs)
    ensures ClaimsId(recs, g) <==> me != r && InDirectory(dist, |claims|, me, g) && ClaimedBy(claims, r, g)
  {
    if l: nat :| [g, l] in recs {
      assert IsClaim(claims[r], dist, |claims|, me, [g, l]);
      assert [g, l][0] == g;
    }
    if me != r && InDirectory(dist, |claims|, me, g) && ClaimedBy(claims, r, g) {
      assert IsClaim(claims[r], dist, |claims|, me, [g, claims[r][g]]);
    }
  }

  lemma HeardOneMore(claims: seq<map<nat, nat>>, me: nat, r: nat, g: nat)
    ensures SomeoneHeard(claims, me, r + 1, g) <==>
      SomeoneHeard(claims, me, r, g) || (me != r && ClaimedBy(claims, r, g))
  {
    var next := r + 1;
    if q: nat :| Heard(claims, me, next, q, g) {
      assert (q == r && me != r) || Heard(claims, me, r, q, g);
    }
    if q: nat :| Heard(claims, me, r, q, g) {
      assert Heard(claims, me, next, q, g);
    }
    if me != r && ClaimedBy(claims, r, g) {
      assert Heard(claims, me, next, r, g);
    }
  }

  lemma LowestStays(claims: seq<map<nat, nat>>, me: nat, r: nat, g: nat, e: Entry)
    requires LowestHeard(claims, me, r, g, e)
    requires r < e.rank ==> me == r || !ClaimedBy(claims, r, g)
    ensures LowestHeard(claims, me, r + 1, g, e)
  {
    var next := r + 1;
    forall q | 0 <= q < e.rank ensures !Heard(claims, me, next, q, g) {
      assert !Heard(claims, me, r, q, g);
    }
  }

  lemma LowestNew(claims: seq<map<nat, nat>>, me: nat, r: nat, g: nat, e: Entry)
    requires ClaimedBy(claims, r, g) && e == Entry(r, claims[r][g], [])
    requires forall q :: 0 <= q < r ==> !Heard(claims, me, r, q, g)
    ensures LowestHeard(claims, me, r + 1, g, e)
  {
    var next := r + 1;
    forall q | 0 <= q < r ensures !Heard(claims, me, next, q, g) {
      assert !Heard(claims, me, r, q, g);
    }
  }

  lemma MergeKeepsLowest(claims: seq<map<nat, nat>>, dist: seq<nat>, me: nat, r: nat, dir: map<nat, Entry>,
        recs: seq<seq<nat>>, g: nat, e: Entry)
    requires IsDistribution(dist, |claims|) && r < |claims|
    requires Collected(claims, dist, me, r, dir) && ReceivedClaims(claims, dist, me, r, recs)
    requires Merged(r, recs, dir, g, e)
    ensures LowestHeard(claims, me, r + 1, g, e)
  {
    ReceivedIds(claims, dist, me, r, recs, g);
    assert g in dir ==> LowestHeard(claims, me, r, g, dir[g]);
    if ClaimsId(recs, g) && (g in dir ==> r < dir[g].rank) {
      assert IsClaim(claims[r], dist, |claims|, me, [g, e.localId]);
      assert [g, e.localId][0] == g && [g, e.localId][1] == e.localId;
      if g !in dir {
        assert !SomeoneHeard(claims, me, r, g);
      }
      LowestNew(claims, me, r, g, e);
    } else {
      assert InDirectory(dist, |claims|, me, g);
      LowestStays(claims, me, r, g, e);
    }
  }

  lemma MergeKeepsCollected(claims: seq<map<nat, nat>>, dist: seq<nat>, me: nat, r: nat, dir: map<nat, Entry>,
        recs: seq<seq<nat>>, dir': map<nat, Entry>)
    requires IsDistribution(dist, |claims|) && r < |claims|
    requires Collected(claims, dist, me, r, dir)
    requires ReceivedClaims(claims, dist, me, r, recs) && AllMerged(r, recs, dir, dir')
    ensures Collected(claims, dist, me, r + 1, dir')
  {
    forall g ensures g in dir' <==> InDirectory(dist, |claims|, me, g) && SomeoneHeard(claims, me, r + 1, g) {
      ReceivedIds(claims, dist, me, r, recs, g);
      HeardOneMore(claims, me, r, g);
    }
    forall g | g in dir' ensures LowestHeard(claims, me, r + 1, g, dir'[g]) {
      MergeKeepsLowest(claims, dist, me, r, dir, recs, g, dir'[g]);
    }
  }

  lemma OwnCollected(claims: seq<map<nat, nat>>, dist: seq<nat>, me: nat, own: map<nat, Entry>)
    requires IsDistribution(dist, |claims|) && me < |claims|
    requires OwnClaims(claims[me], dist, |claims|, me, own)
    ensures Collected(claims, dist, me, 0, own)
  {
    forall g ensures SomeoneHeard(claims, me, 0, g) <==> g in claims[me] {
      if g in claims[me] { assert Heard(claims, me, 0, me, g); }
    }
  }

  /** Directory of rank me after all claims have been delivered. */
  method UnpackClaims(ghost claims: seq<map<nat, nat>>, dist: seq<nat>, me: nat, own: map<nat, Entry>,
        recv: seq<seq<nat>>, ghost recs: seq<seq<seq<nat>>>)
    returns (dir: map<nat, Entry>)
    requires me < |claims| && IsDistribution(dist, |claims|)
    requires OwnClaims(claims[me], dist, |claims|, me, own)
    requires |recv| == |recs| == |claims|
    requires forall r :: 0 <= r < |claims| ==>
      recv[r] == Flatten(recs[r]) && ReceivedClaims(claims, dist, me, r, recs[r])
    ensures Collected(claims, dist, me, |claims|, dir)
  {
    dir := own;
    OwnCollected(claims, dist, me, own);
    var r := 0;
    while r < |recv|
      invariant 0 <= r <= |recv|
      invariant Collected(claims, dist, me, r, dir)
    {
      assert Pairs(recs[r]) by {
        forall k | 0 <= k < |recs[r]| ensures |recs[r][k]| == 2 { assert recs[r][k] in recs[r]; }
      }
      ghost var was := dir;
      dir := MergeClaims(r, recv[r], recs[r], dir);
      MergeKeepsCollected(claims, dist, me, r, was, recs[r], dir);
      r := r + 1;
    }
  }

  // ----- requests: ids a rank needs as ghosts -------------------------------------

  ghost predicate IsRequest(want: set<nat>, dist: seq<nat>, P: nat, d: nat, rec: seq<nat>)
    requires IsDistribution(dist, P)
  {
    |rec| == 1 && rec[0] in want && InDirectory(dist, P, d, rec[0])
  }

  ghost predicate RequestMessages(want: set<nat>, dist: seq<nat>, P: nat, me: nat, msgs: seq<Message>)
    requires IsDistribution(dist, P)
  {
    Addressed(msgs, P) && DistinctKeys(msgs) &&
    forall d, rec :: Message(d, rec) in msgs <==> d != me && IsRequest(want, dist, P, d, rec)
  }

  /** The entry after rank r asked to be a ghost; the owner never is. */
  function WithGhost(e: Entry, r: nat): Entry {
    if e.rank != r then e.(ghostRanks := e.ghostRanks + [r]) else e
  }

  ghost predicate OwnTaken(want: set<nat>, dist: seq<nat>, P: nat, me: nat, dir: map<nat, Entry>, dir': map<nat, Entry>)
    requires IsDistribution(dist, P)
  {
    dir'.Keys == dir.Keys &&
    forall g :: g in dir ==>
      dir'[g] == if g in want && InDirectory(dist, P, me, g) then WithGhost(dir[g], me) else dir[g]
  }

  lemma RequestAppended(want: set<nat>, dist: seq<nat>, P: nat, me: nat, msgs: seq<Message>, g: nat, d: nat)
    requires IsDistribution(dist, P) && RequestMessages(want, dist, P, me, msgs)
    requires g !in want && d < P && InDirectory(dist, P, d, g)
    ensures RequestMessages(want + {g}, dist, P, me, if d != me then msgs + [Message(d, [g])] else msgs)
  {
    var more := if d != me then [Message(d, [g])] else [];
    forall m, n | m in msgs && n in more ensures m.words[0] != n.words[0] {
      assert Message(m.dest, m.words) in msgs;
    }
    DistinctKeysAppend(msgs, more);
    assert msgs + [] == msgs;
    forall q, rec
      ensures Message(q, rec) in msgs + more <==> q != me && IsRequest(want + {g}, dist, P, q, rec)
    {
      assert |rec| == 1 ==> rec == [rec[0]];
      assert Message(q, rec) in msgs + more <==> Message(q, rec) in msgs || Message(q, rec) in more;
    }
  }

  lemma OwnTakenOneMore(want: set<nat>, dist: seq<nat>, P: nat, me: nat, dir: map<nat, Entry>, dir': map<nat, Entry>,
        g: nat, d: nat)
    requires IsDistribution(dist, P) && OwnTaken(want, dist, P, me, dir, dir')
    requires g !in want && InDirectory(dist, P, d, g) && (d == me ==> g in dir)
    ensures OwnTaken(want + {g}, dist, P, me, dir, if d == me then dir'[g := WithGhost(dir'[g], me)] else dir')
  {}

  method PackRequests(P: nat, me: nat, dist: seq<nat>, ids: seq<nat>, ghost want: set<nat>, dir: map<nat, Entry>)
    returns (msgs: seq<Message>, dir': map<nat, Entry>)
    requires InRange(want, dist, P) && StrictlyAscending(ids)
    requires forall g :: g in ids <==> g in want
    requires forall g :: g in want && InDirectory(dist, P, me, g) ==> g in dir
    ensures RequestMessages(want, dist, P, me, msgs)
    ensures OwnTaken(want, dist, P, me, dir, dir')
  {
    msgs, dir' := [], dir;
    ghost var seen: set<nat> := {};
    var i := 0;
    while i < |ids|
      invariant 0 <= i <= |ids|
      invariant forall g :: g in seen <==> g in ids[..i]
      invariant RequestMessages(seen, dist, P, me, msgs)
      invariant OwnTaken(seen, dist, P, me, dir, dir')
    {
      var g := ids[i];
      assert g in ids && g !in ids[..i];
      assert ids[..i + 1] == ids[..i] + [g];
      var d := RankOwner(dist, P, g);
      RequestAppended(seen, dist, P, me, msgs, g, d);
      OwnTakenOneMore(seen, dist, P, me, dir, dir', g, d);
      if d != me {
        msgs := msgs + [Message(d, [g])];
      } else {
        dir' := dir'[g := WithGhost(dir'[g], me)];  // the lookup finds it
      }
      seen := seen + {g};
      i := i + 1;
    }
    assert ids[..i] == ids;
    assert seen == want;
  }

  method MergeRequests(r: nat, words: seq<nat>, ghost recs: seq<seq<nat>>, dir: map<nat, Entry>)
    returns (dir': map<nat, Entry>)
    requires words == Flatten(recs) && DistinctHeads(recs)
    requires forall k :: 0 <= k < |recs| ==> |recs[k]| == 1 && recs[k][0] in dir
    ensures dir'.Keys == dir.Keys
    ensures forall g :: g in dir ==> dir'[g] == if [g] in recs then WithGhost(dir[g], r) else dir[g]
  {
    dir' := dir;
    var i := 0;
    NextRecord(words, 0, recs, 0);
    while i < |words|
      invariant 0 <= i <= |words| && i <= |recs| && words[i..] == Flatten(recs[i..])
      invariant dir'.Keys == dir.Keys
      invariant forall g :: g in dir ==> dir'[g] == if [g] in recs[..i] then WithGhost(dir[g], r) else dir[g]
    {
      NextRecord(words, i, recs, i);
      var g := words[i];
      assert recs[i] == words[i..i + 1] == [g];
      assert recs[..i + 1] == recs[..i] + [recs[i]];
      assert [g] !in recs[..i] by {
        forall j | 0 <= j < i ensures recs[j] != [g] { assert recs[j][0] != recs[i][0]; }
      }
      dir' := dir'[g := WithGhost(dir'[g], r)];
      i := i + 1;
    }
    NextRecord(words, i, recs, i);
    assert recs[..i] == recs;
  }

  /** Ranks whose wishes have been taken: my own, and those below upto. */
  ghost predicate Asked(wants: seq<set<nat>>, me: nat, upto: nat, s: nat, g: nat) {
    (s < upto || s == me) && s < |wants| && g in wants[s]
  }

  ghost predicate GhostsOf(wants: seq<set<nat>>, me: nat, upto: nat, g: nat, e: Entry) {
    Distinct(e.ghostRanks) &&
    forall s :: s in e.ghostRanks <==> Asked(wants, me, upto, s, g) && s != e.rank
  }

  ghost predicate SameOwners(dir: map<nat, Entry>, dir': map<nat, Entry>) {
    dir'.Keys == dir.Keys && forall g :: g in dir ==> dir'[g].rank == dir[g].rank && dir'[g].localId == dir[g].localId
  }

  ghost predicate ReceivedRequests(want: set<nat>, dist: seq<nat>, P: nat, me: nat, r: nat, recs: seq<seq<nat>>)
    requires IsDistribution(dist, P)
  {
    forall rec :: rec in recs <==> me != r && IsRequest(want, dist, P, me, rec)
  }

  lemma GhostAdded(wants: seq<set<nat>>, me: nat, r: nat, g: nat, e: Entry)
    requires GhostsOf(wants, me, r, g, e) && r < |wants| && me != r && g in wants[r]
    ensures GhostsOf(wants, me, r + 1, g, WithGhost(e, r))
  {
    var next := r + 1;
    assert r !in e.ghostRanks;
    forall s ensures s in WithGhost(e, r).ghostRanks <==> Asked(wants, me, next, s, g) && s != e.rank {
      assert Asked(wants, me, next, s, g) <==> Asked(wants, me, r, s, g) || s == r;
    }
  }

  lemma GhostNotAdded(wants: seq<set<nat>>, me: nat, r: nat, g: nat, e: Entry)
    requires GhostsOf(wants, me, r, g, e) && r < |wants| && (me == r || g !in wants[r])
    ensures GhostsOf(wants, me, r + 1, g, e)
  {
    var next := r + 1;
    forall s ensures s in e.ghostRanks <==> Asked(wants, me, next, s, g) && s != e.rank {
      assert Asked(wants, me, next, s, g) <==> Asked(wants, me, r, s, g);
    }
  }

  method UnpackRequests(ghost wants: seq<set<nat>>, dist: seq<nat>, me: nat, dir: map<nat, Entry>, recv: seq<seq<nat>>,
        ghost recs: seq<seq<seq<nat>>>)
    returns (dir': map<nat, Entry>)
    requires me < |wants| && IsDistribution(dist, |wants|)
    requires |recv| == |recs| == |wants|
    requires forall r :: 0 <= r < |wants| ==>
      recv[r] == Flatten(recs[r]) && DistinctHeads(recs[r]) && ReceivedRequests(wants[r], dist, |wants|, me, r, recs[r])
    requires forall r, g :: 0 <= r < |wants| && g in wants[r] && InDirectory(dist, |wants|, me, g) ==> g in dir
    requires forall g :: g in dir ==> InDirectory(dist, |wants|, me, g) && GhostsOf(wants, me, 0, g, dir[g])
    ensures SameOwners(dir, dir')
    ensures forall g :: g in dir' ==> GhostsOf(wants, me, |wants|, g, dir'[g])
  {
    dir' := dir;
    var r := 0;
    while r < |recv|
      invariant 0 <= r <= |recv|
      invariant SameOwners(dir, dir')
      invariant forall g :: g in dir' ==> GhostsOf(wants, me, r, g, dir'[g])
    {
      forall k | 0 <= k < |recs[r]| ensures |recs[r][k]| == 1 && recs[r][k][0] in dir' {
        assert recs[r][k] in recs[r];
      }
      ghost var was := dir';
      dir' := MergeRequests(r, recv[r], recs[r], dir');
      forall g | g in dir' ensures GhostsOf(wants, me, r + 1, g, dir'[g]) {
        assert [g] in recs[r] <==> me != r && IsRequest(wants[r], dist, |wants|, me, [g]);
        if [g] in recs[r] {
          GhostAdded(wants, me, r, g, was[g]);
        } else {
          GhostNotAdded(wants, me, r, g, was[g]);
        }
      }
      r := r + 1;
    }
  }
}
