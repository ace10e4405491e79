/** The global numbering of edges and faces on all ranks. */
module GlobalIds {
  import opened Base
  import opened Distribution
  import opened Exchange
  import opened Sorting
  import opened KeyOrder
  import opened Origins
  import opened MatchIds
  import CellGraph

  ghost predicate AllUsable(all: seq<Entities>, dist: seq<nat>) {
    IsDistribution(dist, |all|) && forall r :: 0 <= r < |all| ==> Usable(all[r], dist, |all|)
  }

  lemma EntitiesDelivered(lists: Entities, dist: seq<nat>, P: nat, r: nat, s: nat, msgs: seq<Message>)
    requires IsDistribution(dist, P) && EntitiesSent(lists, |lists|, dist, P, s, msgs)
    ensures ReceivedEntities(lists, dist, P, r, s, RecordsTo(msgs, r))
  {
    RecordsToMember(msgs, r);
    assert lists[..|lists|] == lists;
    assert SentInOrder(lists, |lists|, dist, P, s, msgs, r);
    forall rec ensures rec in RecordsTo(msgs, r) <==> r != s && IsEntity(lists, |lists|, dist, P, r, rec) {
      assert rec in RecordsTo(msgs, r) <==> Message(r, rec) in msgs;
    }
  }

  ghost predicate AskedAll(all: seq<Entities>, dist: seq<nat>, d: nat, asked: seq<seq<Key>>)
    requires IsDistribution(dist, |all|)
  {
    |asked| == |all| && forall r :: 0 <= r < |all| ==> AskedBy(all[r], dist, |all|, d, r, asked[r])
  }

  /** What rank q sends, and the numbers it has given to the keys it is home to itself. */
  ghost predicate Packed(all: seq<Entities>, dist: seq<nat>, q: nat, out: seq<Message>, own: map<Key, nat>)
    requires IsDistribution(dist, |all|) && q < |all|
  {
    EntitiesSent(all[q], |all[q]|, dist, |all|, q, out) && OwnNumbered(all[q], |all[q]|, dist, |all|, q, own)
  }

  method PackAll(all: seq<Entities>, dist: seq<nat>) returns (outs: seq<seq<Message>>, owns: seq<map<Key, nat>>)
    requires AllUsable(all, dist)
    ensures |outs| == |owns| == |all| && forall q :: 0 <= q < |all| ==> Packed(all, dist, q, outs[q], owns[q])
  {
    outs, owns := [], [];
    var r := 0;
    while r < |all|
      invariant 0 <= r <= |all| && |outs| == |owns| == r
      invariant forall q :: 0 <= q < r ==> Packed(all, dist, q, outs[q], owns[q])
    {
      assert Usable(all[r], dist, |all|);
      var msgs, own := PackEntities(all[r], dist, |all|, r);
      outs, owns, r := outs + [msgs], owns + [own], r + 1;
    }
  }

  lemma PackedDelivered(all: seq<Entities>, dist: seq<nat>, r: nat, s: nat, out: seq<Message>, own: map<Key, nat>)
    requires IsDistribution(dist, |all|) && r < |all| && s < |all| && Packed(all, dist, s, out, own)
    ensures RankReceived(all, dist, r, s, Block(out, r), RecordsTo(out, r))
  {
    EntitiesDelivered(all[s], dist, |all|, r, s, out);
  }

  /** Every directory numbers the keys it is home to. */
  method NumberAll(all: seq<Entities>, dist: seq<nat>, chunk: nat)
    returns (tables: seq<map<Key, nat>>, asked: seq<seq<seq<Key>>>)
    requires chunk > 0 && AllUsable(all, dist)
    ensures |tables| == |asked| == |all|
    ensures forall d :: 0 <= d < |all| ==> Numbered(all, dist, d, |all|, tables[d]) && AskedAll(all, dist, d, asked[d])
  {
    var P := |all|;
    var outs, owns := PackAll(all, dist);
    forall q | 0 <= q < P ensures Addressed(outs[q], P) { assert Packed(all, dist, q, outs[q], owns[q]); }
    var recv := AllToAll(P, chunk, outs);
    tables, asked := [], [];
    var r := 0;
    while r < P
      invariant 0 <= r <= P && |tables| == |asked| == r
      invariant forall d :: 0 <= d < r ==> Numbered(all, dist, d, P, tables[d]) && AskedAll(all, dist, d, asked[d])
    {
      var m, ks := NumberAt(all, dist, r, owns, recv[r], outs);
      tables, asked, r := tables + [m], asked + [ks], r + 1;
    }
  }

  method NumberAt(ghost all: seq<Entities>, ghost dist: seq<nat>, r: nat, owns: seq<map<Key, nat>>, recv: seq<seq<nat>>,
        ghost outs: seq<seq<Message>>)
    returns (m: map<Key, nat>, asked: seq<seq<Key>>)
    requires IsDistribution(dist, |all|) && r < |all| == |owns| == |recv| == |outs|
    requires forall q :: 0 <= q < |all| ==> Packed(all, dist, q, outs[q], owns[q])
    requires forall q :: 0 <= q < |all| ==> recv[q] == Block(outs[q], r)
    ensures Numbered(all, dist, r, |all|, m) && AskedAll(all, dist, r, asked)
  {
    ghost var recs := seq(|all|, s requires 0 <= s < |all| => RecordsTo(outs[s], r));
    forall s | 0 <= s < |all| ensures RankReceived(all, dist, r, s, recv[s], recs[s]) {
      PackedDelivered(all, dist, r, s, outs[s], owns[s]);
    }
    assert Packed(all, dist, r, outs[r], owns[r]);
    OwnIsNumbered(all, dist, r, owns[r]);
    m, asked := NumberAllRanks(all, dist, r, owns[r], recv, recs);
  }

  lemma AskedIsKnown(all: seq<Entities>, dist: seq<nat>, d: nat, m: map<Key, nat>, asked: seq<seq<Key>>)
    requires IsDistribution(dist, |all|) && Numbered(all, dist, d, |all|, m) && AskedAll(all, dist, d, asked)
    ensures forall r, k :: 0 <= r < |asked| && k in asked[r] ==> k in m
  {
    forall r, k | 0 <= r < |asked| && k in asked[r] ensures k in m {
      assert OwnKey(all[r], |all[r]|, dist, |all|, d, k);
      assert KnownKey(all, dist, d, |all|, k);
    }
  }

  lemma AnswersDelivered(asked: seq<seq<Key>>, m: map<Key, nat>, base: nat, P: nat, r: nat, d: nat, msgs: seq<Message>)
    requires AnswersSent(asked, m, base, P, d, msgs) && r < |asked|
    ensures ReceivedAnswers(asked[r], m, base, r, d, RecordsTo(msgs, r))
  {
    RecordsToMember(msgs, r);
    forall rec ensures rec in RecordsTo(msgs, r) <==> r != d && exists k :: k in asked[r] && IsAnswer(m, base, k, rec) {
      assert rec in RecordsTo(msgs, r) <==> Message(r, rec) in msgs;
    }
  }

  method SendNumbers(ghost all: seq<Entities>, ghost dist: seq<nat>, tables: seq<map<Key, nat>>,
        asked: seq<seq<seq<Key>>>, base: seq<nat>)
    returns (outs: seq<seq<Message>>)
    requires AllNumbered(all, dist, tables, base) && |asked| == |all|
    requires forall d :: 0 <= d < |all| ==> AskedAll(all, dist, d, asked[d])
    ensures |outs| == |all|
    ensures forall d :: 0 <= d < |all| ==> AnswersSent(asked[d], tables[d], base[d], |all|, d, outs[d])
  {
    outs := [];
    var d := 0;
    while d < |tables|
      invariant 0 <= d <= |tables| && |outs| == d
      invariant forall q :: 0 <= q < d ==> AnswersSent(asked[q], tables[q], base[q], |all|, q, outs[q])
    {
      assert Numbered(all, dist, d, |all|, tables[d]) && AskedAll(all, dist, d, asked[d]);
      AskedIsKnown(all, dist, d, tables[d], asked[d]);
      var msgs := AnswerAll(asked[d], tables[d], base[d], d);
      outs, d := outs + [msgs], d + 1;
    }
  }

  /** A rank starts from its own directory, shifted by its base. */
  lemma OwnLearned(all: seq<Entities>, dist: seq<nat>, tables: seq<map<Key, nat>>, base: seq<nat>, me: nat,
        m: map<Key, nat>)
    requires AllNumbered(all, dist, tables, base) && me < |all|
    requires m == map k | k in tables[me] :: tables[me][k] + base[me]
    ensures Learned(all, dist, tables, base, me, 0, m)
  {
    assert Numbered(all, dist, me, |all|, tables[me]);
    forall k | k in m ensures GlobalId(all, dist, tables, base, k, m[k]) {
      assert KnownKey(all, dist, me, |all|, k);
    }
    forall k | HasKey(all[me], |all[me]|, k) && HomeSpoken(dist, |all|, me, 0, k) ensures k in m {
      assert OwnKey(all[me], |all[me]|, dist, |all|, me, k);
      assert KnownKey(all, dist, me, |all|, k);
    }
  }

  method LearnAll(ghost all: seq<Entities>, ghost dist: seq<nat>, ghost tables: seq<map<Key, nat>>,
        ghost base: seq<nat>, ghost mine: seq<seq<Key>>, me: nat, own: map<Key, nat>, myBase: nat, recv: seq<seq<nat>>,
        ghost recs: seq<seq<seq<nat>>>)
    returns (m: map<Key, nat>)
    requires AllNumbered(all, dist, tables, base) && me < |all| == |mine| == |recv| == |recs|
    requires own == tables[me] && myBase == base[me]
    requires forall d :: 0 <= d < |all| ==> AskedBy(all[me], dist, |all|, d, me, mine[d])
    requires forall d :: 0 <= d < |all| ==>
      recv[d] == Flatten(recs[d]) && ReceivedAnswers(mine[d], tables[d], base[d], me, d, recs[d])
    ensures Learned(all, dist, tables, base, me, |all|, m)
  {
    m := map k | k in own :: own[k] + myBase;
    OwnLearned(all, dist, tables, base, me, m);
    var d := 0;
    while d < |recv|
      invariant 0 <= d <= |recv|
      invariant Learned(all, dist, tables, base, me, d, m)
    {
      m := LearnRank(all, dist, tables, base, me, d, mine[d], m, recv[d], recs[d]);
      d := d + 1;
    }
  }

  // ----- local and global ids -------------------------------------------------------------------

  /** g2l gives the first local index of every id. */
  ghost predicate FirstIndex(l2g: seq<nat>, g2l: map<nat, nat>) {
    (forall g :: g in g2l <==> g in l2g) &&
    forall g :: g in g2l ==> g2l[g] < |l2g| && l2g[g2l[g]] == g && forall i :: 0 <= i < g2l[g] ==> l2g[i] != g
  }

  method AssignIds(lists: Entities, m: map<Key, nat>) returns (l2g: seq<nat>, g2l: map<nat, nat>)
    requires forall i :: 0 <= i < |lists| ==> Sorted(lists[i]) in m
    ensures |l2g| == |lists| && forall i :: 0 <= i < |lists| ==> l2g[i] == m[Sorted(lists[i])]
    ensures FirstIndex(l2g, g2l)
  {
    l2g, g2l := [], map[];
    var i := 0;
    while i < |lists|
      invariant 0 <= i <= |lists| && |l2g| == i
      invariant forall k :: 0 <= k < i ==> l2g[k] == m[Sorted(lists[k])]
      invariant FirstIndex(l2g, g2l)
    {
      var gid := m[Sorted(lists[i])];  // the lookup always finds the entity
      if gid !in g2l {
        g2l := g2l[gid := |l2g|];
      }
      l2g := l2g + [gid];
      i := i + 1;
    }
  }

  // ----- all ranks ---------------------------------------------------------------------------------

  /** ids[r][i] is the agreed id of entity i of rank r. */
  ghost predicate Agreed(all: seq<Entities>, dist: seq<nat>, tables: seq<map<Key, nat>>, base: seq<nat>,
        ids: seq<seq<nat>>)
  {
    AllNumbered(all, dist, tables, base) && |ids| == |all| &&
    forall r :: 0 <= r < |all| ==> RankAgreed(all, dist, tables, base, r, ids[r])
  }

  ghost predicate RankAgreed(all: seq<Entities>, dist: seq<nat>, tables: seq<map<Key, nat>>, base: seq<nat>, r: nat,
        ids: seq<nat>)
    requires AllNumbered(all, dist, tables, base) && r < |all|
  {
    |ids| == |all[r]| && forall i :: 0 <= i < |ids| ==> GlobalId(all, dist, tables, base, Sorted(all[r][i]), ids[i])
  }

  /** Equal ids exactly for equal vertex lists, up to order; ids are 0 .. total - 1. */
  ghost predicate Numbers(all: seq<Entities>, ids: seq<seq<nat>>, total: nat) {
    |ids| == |all| && (forall r :: 0 <= r < |all| ==> |ids[r]| == |all[r]|) &&
    (forall r, i, s, j :: 0 <= r < |all| && 0 <= i < |ids[r]| && 0 <= s < |all| && 0 <= j < |ids[s]| ==>
      (ids[r][i] == ids[s][j] <==> multiset(all[r][i]) == multiset(all[s][j]))) &&
    (forall r, i :: 0 <= r < |all| && 0 <= i < |ids[r]| ==> ids[r][i] < total) &&
    forall g: nat :: g < total ==> IdUsed(ids, g)
  }

  ghost predicate IdUsed(ids: seq<seq<nat>>, g: nat) {
    exists r, i :: 0 <= r < |ids| && 0 <= i < |ids[r]| && ids[r][i] == g
  }

  lemma AgreedNumbers(all: seq<Entities>, dist: seq<nat>, tables: seq<map<Key, nat>>, base: seq<nat>,
        ids: seq<seq<nat>>)
    requires Agreed(all, dist, tables, base, ids)
    ensures Numbers(all, ids, base[|all|])
  {
    forall r | 0 <= r < |all| ensures |ids[r]| == |all[r]| { assert RankAgreed(all, dist, tables, base, r, ids[r]); }
    forall r, i, s, j | 0 <= r < |all| && 0 <= i < |ids[r]| && 0 <= s < |all| && 0 <= j < |ids[s]|
      ensures ids[r][i] == ids[s][j] <==> multiset(all[r][i]) == multiset(all[s][j])
    {
      assert RankAgreed(all, dist, tables, base, r, ids[r]) && RankAgreed(all, dist, tables, base, s, ids[s]);
      IdsAreInjective(all, dist, tables, base, Sorted(all[r][i]), ids[r][i], Sorted(all[s][j]), ids[s][j]);
      SortedIffSameElements(all[r][i], all[s][j]);
    }
    forall r, i | 0 <= r < |all| && 0 <= i < |ids[r]| ensures ids[r][i] < base[|all|] {
      assert RankAgreed(all, dist, tables, base, r, ids[r]);
      IdBelongsTo(all, dist, tables, base, Sorted(all[r][i]), ids[r][i]);
    }
    forall g: nat | g < base[|all|] ensures IdUsed(ids, g) {
      var r, i := IdsAreDense(all, dist, tables, base, g);
      assert RankAgreed(all, dist, tables, base, r, ids[r]);
      IdsAreInjective(all, dist, tables, base, Sorted(all[r][i]), ids[r][i], Sorted(all[r][i]), g);
    }
  }

  /** Ids by home, and for the same home by the order in which the entities are first seen there:
      its own first, then those of the other ranks. */
  ghost predicate IdsInOrder(all: seq<Entities>, dist: seq<nat>, ids: seq<seq<nat>>)
    requires |ids| == |all| && forall r :: 0 <= r < |all| ==> |ids[r]| == |all[r]|
  {
    forall a, b, d: nat, e: nat :: MentionedBefore(all, dist, d, a, e, b) ==>
      ids[a.rank][a.index] < ids[b.rank][b.index]
  }

  /** a is at home on rank d and b on rank e, and a comes first. */
  ghost predicate MentionedBefore(all: seq<Entities>, dist: seq<nat>, d: nat, a: Origin, e: nat, b: Origin) {
    IsEntityAt(all, a) && IsEntityAt(all, b) &&
    LivesAt(dist, EntityAt(all, a), d) && LivesAt(dist, EntityAt(all, b), e) &&
    (d < e || (d == e && FirstUse(all, d, a) && FirstUse(all, d, b) && ComesBefore(d, a, b)))
  }

  lemma AgreedInOrder(all: seq<Entities>, dist: seq<nat>, tables: seq<map<Key, nat>>, base: seq<nat>,
        ids: seq<seq<nat>>)
    requires Agreed(all, dist, tables, base, ids) && forall r :: 0 <= r < |all| ==> |ids[r]| == |all[r]|
    ensures IdsInOrder(all, dist, ids)
  {
    forall a, b, d: nat, e: nat | MentionedBefore(all, dist, d, a, e, b)
      ensures ids[a.rank][a.index] < ids[b.rank][b.index]
    {
      AgreedIdAt(all, dist, tables, base, ids, a, d);
      AgreedIdAt(all, dist, tables, base, ids, b, e);
      if d < e {
        assert base[d + 1] <= base[e];
      } else {
        assert Numbered(all, dist, d, |all|, tables[d]);
        MentionOrder(all, dist, d, tables[d], a, b);
      }
    }
  }

  lemma AgreedIdAt(all: seq<Entities>, dist: seq<nat>, tables: seq<map<Key, nat>>, base: seq<nat>,
        ids: seq<seq<nat>>, a: Origin, d: nat)
    requires Agreed(all, dist, tables, base, ids) && IsEntityAt(all, a) && LivesAt(dist, EntityAt(all, a), d)
    ensures d < |all| && a.index < |ids[a.rank]| && Sorted(EntityAt(all, a)) in tables[d]
    ensures ids[a.rank][a.index] == base[d] + tables[d][Sorted(EntityAt(all, a))] < base[d + 1]
  {
    assert RankAgreed(all, dist, tables, base, a.rank, ids[a.rank]);
    assert GlobalId(all, dist, tables, base, Sorted(all[a.rank][a.index]), ids[a.rank][a.index]);
    LivesHome(dist, |all|, EntityAt(all, a), d);
    assert Numbered(all, dist, d, |all|, tables[d]);
  }

  lemma LearnedOwnEntities(all: seq<Entities>, dist: seq<nat>, tables: seq<map<Key, nat>>, base: seq<nat>, me: nat,
        m: map<Key, nat>)
    requires AllUsable(all, dist) && AllNumbered(all, dist, tables, base) && me < |all|
    requires Learned(all, dist, tables, base, me, |all|, m)
    ensures forall i :: 0 <= i < |all[me]| ==>
      Sorted(all[me][i]) in m && GlobalId(all, dist, tables, base, Sorted(all[me][i]), m[Sorted(all[me][i])])
  {
    forall i | 0 <= i < |all[me]|
      ensures Sorted(all[me][i]) in m && GlobalId(all, dist, tables, base, Sorted(all[me][i]), m[Sorted(all[me][i])])
    {
      var k := Sorted(all[me][i]);
      assert Usable(all[me], dist, |all|);
      HomeIsLeast(dist, |all|, all[me][i]);
      assert HasKey(all[me], |all[me]|, k);
      assert HomeSpoken(dist, |all|, me, |all|, k);
    }
  }

  method MatchRank(all: seq<Entities>, ghost dist: seq<nat>, tables: seq<map<Key, nat>>, base: seq<nat>,
        ghost asked: seq<seq<seq<Key>>>, ghost outs: seq<seq<Message>>, r: nat, recv: seq<seq<nat>>)
    returns (l2g: seq<nat>, g2l: map<nat, nat>)
    requires AllUsable(all, dist) && AllNumbered(all, dist, tables, base) && r < |all| == |asked| == |outs| == |recv|
    requires forall d :: 0 <= d < |all| ==> AskedAll(all, dist, d, asked[d])
    requires forall d :: 0 <= d < |all| ==> AnswersSent(asked[d], tables[d], base[d], |all|, d, outs[d])
    requires forall d :: 0 <= d < |all| ==> recv[d] == Block(outs[d], r)
    ensures RankAgreed(all, dist, tables, base, r, l2g) && FirstIndex(l2g, g2l)
  {
    ghost var P := |all|;
    assert forall d :: 0 <= d < P ==> AskedAll(all, dist, d, asked[d]) && |asked[d]| == P;
    ghost var mine := seq(P, d requires 0 <= d < P => asked[d][r]);
    ghost var recs := seq(P, s requires 0 <= s < P => RecordsTo(outs[s], r));
    forall d | 0 <= d < P
      ensures ReceivedAnswers(mine[d], tables[d], base[d], r, d, recs[d]) && AskedBy(all[r], dist, P, d, r, mine[d])
    {
      AnswersDelivered(asked[d], tables[d], base[d], P, r, d, outs[d]);
    }
    var m := LearnAll(all, dist, tables, base, mine, r, tables[r], base[r], recv, recs);
    LearnedOwnEntities(all, dist, tables, base, r, m);
    l2g, g2l := AssignIds(all[r], m);
  }

  method Distribute(all: seq<Entities>, ghost dist: seq<nat>, tables: seq<map<Key, nat>>, base: seq<nat>,
        asked: seq<seq<seq<Key>>>, chunk: nat)
    returns (ids: seq<seq<nat>>, g2ls: seq<map<nat, nat>>)
    requires chunk > 0 && AllUsable(all, dist) && AllNumbered(all, dist, tables, base) && |asked| == |all|
    requires forall d :: 0 <= d < |all| ==> AskedAll(all, dist, d, asked[d])
    ensures Agreed(all, dist, tables, base, ids)
    ensures |g2ls| == |ids| && forall r :: 0 <= r < |ids| ==> FirstIndex(ids[r], g2ls[r])
  {
    var P := |all|;
    var outs := SendNumbers(all, dist, tables, asked, base);
    var recv := AllToAll(P, chunk, outs);
    ids, g2ls := [], [];
    var r := 0;
    while r < P
      invariant 0 <= r <= P && Matched(all, dist, tables, base, r, ids, g2ls)
    {
      var l2g, g2l := MatchRank(all, dist, tables, base, asked, outs, r, recv[r]);
      MatchedNext(all, dist, tables, base, r, ids, g2ls, l2g, g2l);
      ids, g2ls, r := ids + [l2g], g2ls + [g2l], r + 1;
    }
  }

  /** The ranks below n have their ids. */
  ghost predicate Matched(all: seq<Entities>, dist: seq<nat>, tables: seq<map<Key, nat>>, base: seq<nat>, n: nat,
        ids: seq<seq<nat>>, g2ls: seq<map<nat, nat>>)
  {
    AllNumbered(all, dist, tables, base) && |ids| == |g2ls| == n <= |all| &&
    forall q :: 0 <= q < n ==> RankAgreed(all, dist, tables, base, q, ids[q]) && FirstIndex(ids[q], g2ls[q])
  }

  lemma MatchedNext(all: seq<Entities>, dist: seq<nat>, tables: seq<map<Key, nat>>, base: seq<nat>, n: nat,
        ids: seq<seq<nat>>, g2ls: seq<map<nat, nat>>, l2g: seq<nat>, g2l: map<nat, nat>)
    requires Matched(all, dist, tables, base, n, ids, g2ls) && n < |all|
    requires RankAgreed(all, dist, tables, base, n, l2g) && FirstIndex(l2g, g2l)
    ensures Matched(all, dist, tables, base, n + 1, ids + [l2g], g2ls + [g2l])
  {}

  lemma NumbersLaidOut(all: seq<Entities>, dist: seq<nat>, tables: seq<map<Key, nat>>, base: seq<nat>)
    requires AllUsable(all, dist) && |tables| == |all| && IsDistribution(base, |all|)
    requires forall d :: 0 <= d < |all| ==> Numbered(all, dist, d, |all|, tables[d])
    requires forall d :: 0 <= d < |all| ==> base[d + 1] == base[d] + |tables[d]|
    ensures AllNumbered(all, dist, tables, base)
  {}

  /** Directories number their keys, the numberings are laid end to end, and every
      rank learns the numbers of its own entities. */
  method Match(all: seq<Entities>, dist: seq<nat>, chunk: nat)
    returns (ids: seq<seq<nat>>, g2ls: seq<map<nat, nat>>, total: nat)
    requires chunk > 0 && AllUsable(all, dist)
    ensures Numbers(all, ids, total) && IdsInOrder(all, dist, ids)
    ensures |g2ls| == |ids| && forall r :: 0 <= r < |ids| ==> FirstIndex(ids[r], g2ls[r])
  {
    var tables, asked := NumberAll(all, dist, chunk);
    var base := PrefixSums(seq(|all|, d requires 0 <= d < |all| => |tables[d]|));
    NumbersLaidOut(all, dist, tables, base);
    ids, g2ls := Distribute(all, dist, tables, base, asked, chunk);
    total := base[|all|];
    AgreedNumbers(all, dist, tables, base, ids);
    AgreedInOrder(all, dist, tables, base, ids);
  }

  /** The entities of each rank's part of the mesh, as global vertex lists. */
  function AllEntities(parts: seq<CellGraph.MeshPart>): seq<Entities>
    requires CellGraph.ValidMesh(parts)
  {
    seq(|parts|, r requires 0 <= r < |parts| => CellGraph.PartCells(parts[r]))
  }

  /** Edges and faces of a distributed mesh; every entity has at least one vertex. */
  method MatchAll(parts: seq<CellGraph.MeshPart>, chunk: nat)
    returns (ids: seq<seq<nat>>, g2ls: seq<map<nat, nat>>, total: nat, ghost dist: seq<nat>)
    requires |parts| > 0 && chunk > 0 && CellGraph.ValidMesh(parts)
    requires forall r, i :: 0 <= r < |parts| && 0 <= i < |AllEntities(parts)[r]| ==> AllEntities(parts)[r][i] != []
    ensures Numbers(AllEntities(parts), ids, total)
    ensures dist != [] && dist[|dist| - 1] > 0 && EvenBlocks(dist, |parts|, dist[|dist| - 1])
    ensures HighestId(CellGraph.VertexIds(parts), dist[|dist| - 1] - 1)
    ensures IdsInOrder(AllEntities(parts), dist, ids)
    ensures |g2ls| == |ids| && forall r :: 0 <= r < |ids| ==> FirstIndex(ids[r], g2ls[r])
  {
    var blocks := CellGraph.VertexDistribution(parts);
    dist := blocks;
    ids, g2ls, total := Match(AllEntities(parts), blocks, chunk);
  }
}
