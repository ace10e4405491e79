/** In which order a search on one thread meets the entities of a tree, told from their
    places in the tree. */
module FindOrder {
  import opened ConcurrentFind

  /** Entity number index of the leaf that is reached by following path from child to child. */
  datatype Place = Place(path: seq<nat>, index: nat)

  ghost function Under(i: nat, p: Place): (r: Place)
    ensures r.path != [] && r.path[0] == i && Below(r) == p
  {
    Place([i] + p.path, p.index)
  }

  ghost function Below(p: Place): Place
    requires p.path != []
  {
    Place(p.path[1..], p.index)
  }

  /** e is picked at p, and every branch on the way there is entered. */
  ghost predicate FoundAt(q: Query, t: Tree, p: Place, e: nat)
    decreases |p.path|
  {
    if p.path == [] then t.Leaf? && p.index < |t.entities| && t.entities[p.index] == e && q.picks(e)
    else
      t.Branch? && p.path[0] < |t.children| && q.enters(t.children[p.path[0]].id) &&
      FoundAt(q, t.children[p.path[0]], Below(p), e)
  }

  /** The first children come first, and in a leaf the first entities. */
  ghost predicate Earlier(a: Place, b: Place)
    decreases |a.path|
  {
    if a.path == [] || b.path == [] then a.path == b.path && a.index < b.index
    else a.path[0] < b.path[0] || (a.path[0] == b.path[0] && Earlier(Below(a), Below(b)))
  }

  ghost predicate InOrder(ps: seq<Place>) {
    forall j, k :: 0 <= j < k < |ps| ==> Earlier(ps[j], ps[k])
  }

  /** The k-th entity of es is found at the k-th place. */
  ghost predicate FoundAll(q: Query, t: Tree, ps: seq<Place>, es: seq<nat>) {
    |ps| == |es| && forall k :: 0 <= k < |ps| ==> FoundAt(q, t, ps[k], es[k])
  }

  lemma {:induction false} PickedPlaces(q: Query, t: Tree, n: nat) returns (ps: seq<Place>)
    requires t.Leaf? && n <= |t.entities|
    ensures FoundAll(q, t, ps, Picked(q, t.entities[..n])) && InOrder(ps)
    ensures forall p :: p in ps ==> p.path == [] && p.index < n
    ensures forall p, e :: FoundAt(q, t, p, e) && p.index < n ==> p in ps
  {
    if n == 0 {
      ps := [];
    } else {
      var k := n - 1;
      ps := PickedPlaces(q, t, k);
      assert t.entities[..n][..k] == t.entities[..k];
      assert forall j :: 0 <= j < |ps| ==> ps[j] in ps;
      if q.picks(t.entities[k]) { ps := ps + [Place([], k)]; }
    }
  }

  ghost function AllUnder(i: nat, ps: seq<Place>): (r: seq<Place>)
    ensures |r| == |ps| && forall k :: 0 <= k < |ps| ==> r[k] == Under(i, ps[k])
  {
    seq(|ps|, k requires 0 <= k < |ps| => Under(i, ps[k]))
  }

  lemma ChildPlaces(q: Query, t: Tree, i: nat, ps: seq<Place>, es: seq<nat>)
    requires t.Branch? && i < |t.children| && q.enters(t.children[i].id)
    requires FoundAll(q, t.children[i], ps, es) && InOrder(ps)
    ensures FoundAll(q, t, AllUnder(i, ps), es) && InOrder(AllUnder(i, ps))
  {
    forall k | 0 <= k < |ps| ensures FoundAt(q, t, AllUnder(i, ps)[k], es[k]) {
      assert FoundAt(q, t.children[i], ps[k], es[k]);
    }
    forall j, k | 0 <= j < k < |ps| ensures Earlier(AllUnder(i, ps)[j], AllUnder(i, ps)[k]) {
      assert Earlier(ps[j], ps[k]);
    }
  }

  /** Places below the first n children. */
  ghost predicate OnlyBelow(ps: seq<Place>, n: nat) {
    forall p :: p in ps ==> p.path != [] && p.path[0] < n
  }

  ghost predicate AllBelow(q: Query, t: Tree, ps: seq<Place>, n: nat) {
    forall p, e :: FoundAt(q, t, p, e) && p.path != [] && p.path[0] < n ==> p in ps
  }

  lemma JoinPlaces(q: Query, t: Tree, n: nat, a: seq<Place>, es: seq<nat>, b: seq<Place>, fs: seq<nat>)
    requires FoundAll(q, t, a, es) && InOrder(a) && OnlyBelow(a, n)
    requires FoundAll(q, t, b, fs) && InOrder(b) && forall p :: p in b ==> p.path != [] && p.path[0] == n
    ensures FoundAll(q, t, a + b, es + fs) && InOrder(a + b) && OnlyBelow(a + b, n + 1)
  {
    var ps := a + b;
    forall j, k | 0 <= j < k < |ps| ensures Earlier(ps[j], ps[k]) {
      if j < |a| <= k { assert ps[j] in a && ps[k] in b; }
    }
  }

  lemma UnderAll(q: Query, t: Tree, i: nat, ps: seq<Place>)
    requires t.Branch? && i < |t.children| && forall p, e :: FoundAt(q, t.children[i], p, e) ==> p in ps
    ensures forall p :: p in AllUnder(i, ps) ==> p.path != [] && p.path[0] == i
    ensures forall p, e :: FoundAt(q, t, p, e) && p.path != [] && p.path[0] == i ==> p in AllUnder(i, ps)
  {
    forall p, e | FoundAt(q, t, p, e) && p.path != [] && p.path[0] == i ensures p in AllUnder(i, ps) {
      assert FoundAt(q, t.children[i], Below(p), e);
      var k :| 0 <= k < |ps| && ps[k] == Below(p);
      assert [i] + p.path[1..] == p.path;
      assert AllUnder(i, ps)[k] == p;
    }
  }

  lemma {:induction false} BelowPlaces(q: Query, t: Tree, n: nat) returns (ps: seq<Place>)
    requires t.Branch? && n <= |t.children|
    ensures FoundAll(q, t, ps, FoundBelow(q, t, n)) && InOrder(ps) && OnlyBelow(ps, n) && AllBelow(q, t, ps, n)
    decreases t, 0, n
  {
    if n == 0 {
      ps := [];
    } else {
      var i := n - 1;
      ps := BelowPlaces(q, t, i);
      if q.enters(t.children[i].id) {
        var more := FoundPlaces(q, t.children[i]);
        ChildPlaces(q, t, i, more, Found(q, t.children[i]));
        UnderAll(q, t, i, more);
        JoinPlaces(q, t, i, ps, FoundBelow(q, t, i), AllUnder(i, more), Found(q, t.children[i]));
        ps := ps + AllUnder(i, more);
      } else {
        assert FoundBelow(q, t, n) == FoundBelow(q, t, i);
      }
    }
  }

  /** The search meets what is picked in leaves it can reach, all of it, each place once, child
      by child and entity by entity. */
  lemma {:induction false} FoundPlaces(q: Query, t: Tree) returns (ps: seq<Place>)
    ensures FoundAll(q, t, ps, Found(q, t)) && InOrder(ps)
    ensures forall p, e :: FoundAt(q, t, p, e) ==> p in ps
    decreases t, 1
  {
    if t.Leaf? {
      assert t.entities[..|t.entities|] == t.entities;
      ps := PickedPlaces(q, t, |t.entities|);
    } else {
      ps := BelowPlaces(q, t, |t.children|);
    }
  }
}
