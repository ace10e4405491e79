/** Numbering keys in the order in which they are first mentioned, on one rank after all ranks
    have sent their keys home. */
module KeyOrder {
  import opened Base
  import opened Distribution
  import opened Sorting
  import opened Origins

  type Key = seq<nat>

  /** The entities of one rank, each as its list of global vertex ids. */
  type Entities = seq<seq<nat>>

  ghost function HomeOfKey(dist: seq<nat>, P: nat, k: Key): nat
    requires IsDistribution(dist, P)
  {
    if k != [] && k[0] < dist[P] then Owner(dist, P, k[0]) else P
  }

  /** Sender and directory agree on the home of an entity. */
  lemma HomeIsLeast(dist: seq<nat>, P: nat, list: seq<nat>)
    requires IsDistribution(dist, P) && list != [] && forall v :: v in list ==> v < dist[P]
    ensures HomeOfKey(dist, P, Sorted(list)) == Owner(dist, P, Least(list)) < P
  {
    LeastIsFirst(list);
  }

  /** The map gets the next number unless it already has the key. */
  function Add(m: map<Key, nat>, k: Key): map<Key, nat> {
    if k in m then m else m[k := |m|]
  }

  ghost function AddAll(m: map<Key, nat>, ks: seq<Key>): map<Key, nat> {
    if ks == [] then m else Add(AddAll(m, ks[..|ks| - 1]), ks[|ks| - 1])
  }

  lemma AddAllSnoc(m: map<Key, nat>, ks: seq<Key>, k: Key)
    ensures AddAll(m, ks + [k]) == Add(AddAll(m, ks), k)
  {
    assert (ks + [k])[..|ks|] == ks;
  }

  lemma {:induction false} AddAllTwice(m: map<Key, nat>, a: seq<Key>, b: seq<Key>)
    ensures AddAll(AddAll(m, a), b) == AddAll(m, a + b)
    decreases |b|
  {
    if b == [] {
      assert a + b == a;
    } else {
      var k := |b| - 1;
      AddAllTwice(m, a, b[..k]);
      AddAllSnoc(m, a + b[..k], b[k]);
      assert a + b == a + b[..k] + [b[k]];
    }
  }

  /** Adding leaves earlier numbers alone. */
  lemma {:induction false} AddAllKeeps(m: map<Key, nat>, ks: seq<Key>, n: nat)
    requires n <= |ks|
    ensures |AddAll(m, ks[..n])| <= |AddAll(m, ks)|
    ensures forall k :: k in AddAll(m, ks[..n]) ==> k in AddAll(m, ks) && AddAll(m, ks)[k] == AddAll(m, ks[..n])[k]
    decreases |ks|
  {
    if n < |ks| {
      var front := ks[..|ks| - 1];
      AddAllKeeps(m, front, n);
      assert front[..n] == ks[..n];
      AddSize(AddAll(m, front), ks[|ks| - 1]);
    } else {
      assert ks[..n] == ks;
    }
  }

  lemma AddSize(m: map<Key, nat>, k: Key)
    ensures |Add(m, k)| == if k in m then |m| else |m| + 1
  {
    assert Add(m, k).Keys == m.Keys + {k};
  }

  lemma {:induction false} AddAllKeys(ks: seq<Key>)
    ensures AddAll(map[], ks).Keys == ToSet(ks)
  {
    if ks != [] {
      AddAllKeys(ks[..|ks| - 1]);
      assert ks == ks[..|ks| - 1] + [ks[|ks| - 1]];
    }
  }

  /** A key gets the number of different keys before it. */
  lemma FirstMention(ks: seq<Key>, x: nat)
    requires x < |ks| && ks[x] !in ks[..x]
    ensures ks[x] in AddAll(map[], ks) && AddAll(map[], ks)[ks[x]] == |AddAll(map[], ks[..x])|
    ensures |AddAll(map[], ks[..x + 1])| == |AddAll(map[], ks[..x])| + 1
  {
    AddAllKeys(ks[..x]);
    assert ks[..x + 1] == ks[..x] + [ks[x]];
    AddAllSnoc(map[], ks[..x], ks[x]);
    AddSize(AddAll(map[], ks[..x]), ks[x]);
    AddAllKeeps(map[], ks, x + 1);
  }

  /** So keys are numbered in the order of their first mention. */
  lemma FirstMentionsInOrder(ks: seq<Key>, x: nat, y: nat)
    requires x < y < |ks| && ks[x] !in ks[..x] && ks[y] !in ks[..y]
    ensures ks[x] in AddAll(map[], ks) && ks[y] in AddAll(map[], ks)
    ensures AddAll(map[], ks)[ks[x]] < AddAll(map[], ks)[ks[y]]
  {
    FirstMention(ks, x);
    FirstMention(ks, y);
    MoreAreNumbered(ks, x + 1, y);
  }

  lemma MoreAreNumbered(ks: seq<Key>, n: nat, y: nat)
    requires n <= y <= |ks|
    ensures |AddAll(map[], ks[..n])| <= |AddAll(map[], ks[..y])|
  {
    AddAllKeeps(map[], ks[..y], n);
    assert ks[..y][..n] == ks[..n];
  }

  // ----- all ranks ------------------------------------------------------------------------------------

  ghost function Keys(lists: Entities): (ks: seq<Key>)
    ensures |ks| == |lists| && forall i :: 0 <= i < |lists| ==> ks[i] == Sorted(lists[i])
  {
    seq(|lists|, i requires 0 <= i < |lists| => Sorted(lists[i]))
  }

  ghost function Homes(lists: Entities, dist: seq<nat>, P: nat): (homes: seq<nat>)
    requires IsDistribution(dist, P)
    ensures |homes| == |lists| && forall i :: 0 <= i < |lists| ==> homes[i] == HomeOfKey(dist, P, Sorted(lists[i]))
  {
    seq(|lists|, i requires 0 <= i < |lists| => HomeOfKey(dist, P, Sorted(lists[i])))
  }

  /** The keys of a rank's entities that are at home on rank d. */
  ghost function KeysFor(lists: Entities, dist: seq<nat>, P: nat, d: nat): seq<Key>
    requires IsDistribution(dist, P)
  {
    Select(Keys(lists), Homes(lists, dist, P), d)
  }

  lemma KeysForSnoc(lists: Entities, dist: seq<nat>, P: nat, d: nat, n: nat)
    requires IsDistribution(dist, P) && n < |lists|
    ensures KeysFor(lists[..n + 1], dist, P, d) == KeysFor(lists[..n], dist, P, d) +
      if HomeOfKey(dist, P, Sorted(lists[n])) == d then [Sorted(lists[n])] else []
  {
    assert Keys(lists[..n + 1])[..n] == Keys(lists[..n]);
    assert Homes(lists[..n + 1], dist, P)[..n] == Homes(lists[..n], dist, P);
  }

  ghost function AllKeys(all: seq<Entities>): (ks: seq<seq<Key>>)
    ensures |ks| == |all| && forall r :: 0 <= r < |all| ==> ks[r] == Keys(all[r])
  {
    seq(|all|, r requires 0 <= r < |all| => Keys(all[r]))
  }

  ghost function AllHomes(all: seq<Entities>, dist: seq<nat>): (hs: seq<seq<nat>>)
    requires IsDistribution(dist, |all|)
    ensures |hs| == |all| && forall r :: 0 <= r < |all| ==> hs[r] == Homes(all[r], dist, |all|)
  {
    seq(|all|, r requires 0 <= r < |all| => Homes(all[r], dist, |all|))
  }

  lemma SameShapes(all: seq<Entities>, dist: seq<nat>)
    requires IsDistribution(dist, |all|)
    ensures SameShape(AllKeys(all), AllHomes(all, dist))
  {}

  /** What directory me has been told when it has heard of its own entities and of those of the
      ranks below upto. */
  ghost function Mentions(all: seq<Entities>, dist: seq<nat>, me: nat, upto: nat): seq<Key>
    requires IsDistribution(dist, |all|) && me < |all| && upto <= |all|
  {
    SameShapes(all, dist);
    KeysFor(all[me], dist, |all|, me) + Incoming(AllKeys(all), AllHomes(all, dist), me, upto)
  }

  lemma MentionsNext(all: seq<Entities>, dist: seq<nat>, me: nat, r: nat)
    requires IsDistribution(dist, |all|) && me < |all| && r < |all|
    ensures Mentions(all, dist, me, r + 1) ==
      Mentions(all, dist, me, r) + if r == me then [] else KeysFor(all[r], dist, |all|, me)
  {
    SameShapes(all, dist);
    assert AllKeys(all)[r] == Keys(all[r]) && AllHomes(all, dist)[r] == Homes(all[r], dist, |all|);
  }

  ghost predicate Told(all: seq<Entities>, dist: seq<nat>, me: nat, upto: nat, ks: seq<Key>)
    requires IsDistribution(dist, |all|) && me < |all| && upto <= |all|
  {
    ks == Mentions(all, dist, me, upto)
  }

  /** m numbers the keys at home on rank me by their first mention. */
  ghost predicate ByMention(all: seq<Entities>, dist: seq<nat>, me: nat, upto: nat, m: map<Key, nat>) {
    IsDistribution(dist, |all|) && me < |all| && upto <= |all| &&
    forall ks :: Told(all, dist, me, upto, ks) ==> m == AddAll(map[], ks)
  }

  ghost predicate IsKeysFor(lists: Entities, dist: seq<nat>, P: nat, d: nat, ks: seq<Key>)
    requires IsDistribution(dist, P)
  {
    ks == KeysFor(lists, dist, P, d)
  }

  /** m numbers the keys of one rank's entities that are at home there. */
  ghost predicate InOwnOrder(lists: Entities, dist: seq<nat>, P: nat, me: nat, m: map<Key, nat>)
    requires IsDistribution(dist, P)
  {
    forall ks :: IsKeysFor(lists, dist, P, me, ks) ==> m == AddAll(map[], ks)
  }

  lemma OwnOrderNext(lists: Entities, dist: seq<nat>, P: nat, me: nat, n: nat, m: map<Key, nat>)
    requires IsDistribution(dist, P) && n < |lists| && InOwnOrder(lists[..n], dist, P, me, m)
    ensures InOwnOrder(lists[..n + 1], dist, P, me,
      if HomeOfKey(dist, P, Sorted(lists[n])) == me then Add(m, Sorted(lists[n])) else m)
  {
    var ks := KeysFor(lists[..n], dist, P, me);
    assert IsKeysFor(lists[..n], dist, P, me, ks);
    KeysForSnoc(lists, dist, P, me, n);
    AddAllSnoc(map[], ks, Sorted(lists[n]));
  }

  ghost predicate IsEntityAt(all: seq<Entities>, a: Origin) {
    a.rank < |all| && a.index < |all[a.rank]|
  }

  ghost function EntityAt(all: seq<Entities>, a: Origin): seq<nat>
    requires IsEntityAt(all, a)
  {
    all[a.rank][a.index]
  }

  /** The least vertex of the entity is in the block of rank d. */
  ghost predicate LivesAt(dist: seq<nat>, list: seq<nat>, d: nat) {
    exists v :: v in list && (forall w :: w in list ==> v <= w) && Owns(dist, v, d)
  }

  /** For rank d, no entity that comes before this one has the same vertices. */
  ghost predicate FirstUse(all: seq<Entities>, d: nat, a: Origin)
    requires IsEntityAt(all, a)
  {
    forall b :: IsEntityAt(all, b) && ComesBefore(d, b, a) ==> multiset(EntityAt(all, b)) != multiset(EntityAt(all, a))
  }

  lemma LivesHome(dist: seq<nat>, P: nat, list: seq<nat>, d: nat)
    requires IsDistribution(dist, P) && LivesAt(dist, list, d)
    ensures HomeOfKey(dist, P, Sorted(list)) == d
  {
    var v :| v in list && (forall w :: w in list ==> v <= w) && Owns(dist, v, d);
    LeastIsFirst(list);
    assert dist[d + 1] <= dist[P];
    OwnerUnique(dist, v, d, Owner(dist, P, v));
  }

  /** The place of an entity among what its home is told. */
  lemma MentionOf(all: seq<Entities>, dist: seq<nat>, d: nat, a: Origin, os: seq<Origin>) returns (x: nat)
    requires IsDistribution(dist, |all|) && d < |all| && IsEntityAt(all, a) && LivesAt(dist, EntityAt(all, a), d)
    requires SameShape(AllKeys(all), AllHomes(all, dist))
    requires FromOrigins(AllKeys(all), AllHomes(all, dist), d, os, Mentions(all, dist, d, |all|))
    requires forall o :: o in os <==> BoundFor(AllHomes(all, dist), d, o)
    requires FirstUse(all, d, a)
    ensures x < |os| && os[x] == a && x < |Mentions(all, dist, d, |all|)|
    ensures
      var ks := Mentions(all, dist, d, |all|);
      ks[x] == Sorted(EntityAt(all, a)) && ks[x] !in ks[..x]
  {
    var ks := Mentions(all, dist, d, |all|);
    LivesHome(dist, |all|, EntityAt(all, a), d);
    assert BoundFor(AllHomes(all, dist), d, a);
    x :| 0 <= x < |os| && os[x] == a;
    forall y | 0 <= y < x ensures ks[y] != ks[x] {
      assert os[y] in os && ComesBefore(d, os[y], a) && IsEntityAt(all, os[y]);
      SortedIffSameElements(EntityAt(all, os[y]), EntityAt(all, a));
    }
  }

  /** Of two entities with the same home, the one its home hears of first has the lower
      number. */
  lemma MentionOrder(all: seq<Entities>, dist: seq<nat>, d: nat, m: map<Key, nat>, a: Origin, b: Origin)
    requires ByMention(all, dist, d, |all|, m) && IsEntityAt(all, a) && IsEntityAt(all, b)
    requires LivesAt(dist, EntityAt(all, a), d) && LivesAt(dist, EntityAt(all, b), d)
    requires FirstUse(all, d, a) && FirstUse(all, d, b) && ComesBefore(d, a, b)
    ensures Sorted(EntityAt(all, a)) in m && Sorted(EntityAt(all, b)) in m
    ensures m[Sorted(EntityAt(all, a))] < m[Sorted(EntityAt(all, b))]
  {
    SameShapes(all, dist);
    var os := OriginsOf(AllKeys(all), AllHomes(all, dist), d);
    assert Finals(AllKeys(all), AllHomes(all, dist))[d] == Mentions(all, dist, d, |all|);
    var x := MentionOf(all, dist, d, a, os);
    var y := MentionOf(all, dist, d, b, os);
    assert Told(all, dist, d, |all|, Mentions(all, dist, d, |all|));
    FirstMentionsInOrder(Mentions(all, dist, d, |all|), x, y);
  }
}
