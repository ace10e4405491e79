/** What the branches of a tree list, all together and with repetitions, and what insertion
    and refinement do to any tree whose branches list only what is in their regions,
    whether it is in order or not. */
module TreeLists {
  import opened Base
  import opened MortonId
  import opened TreeState
  import opened TreeCoarsen

  // ----- listings ---------------------------------------------------------------------------------

  ghost function ListedBy(nodes: map<Path, Node>, ps: set<Path>): multiset<nat>
    requires ps <= nodes.Keys
  {
    if ps == {} then multiset{} else
      var p :| p in ps;
      multiset(nodes[p].entities) + ListedBy(nodes, ps - {p})
  }

  lemma {:induction false} ListedByPick(nodes: map<Path, Node>, ps: set<Path>, p: Path)
    requires ps <= nodes.Keys && p in ps
    ensures ListedBy(nodes, ps) == multiset(nodes[p].entities) + ListedBy(nodes, ps - {p})
    decreases ps
  {
    var q :| q in ps && ListedBy(nodes, ps) == multiset(nodes[q].entities) + ListedBy(nodes, ps - {q});
    if q != p {
      ListedByPick(nodes, ps - {q}, p);
      ListedByPick(nodes, ps - {p}, q);
      assert ps - {q} - {p} == ps - {p} - {q};
    }
  }

  lemma {:induction false} ListedBySame(a: map<Path, Node>, b: map<Path, Node>, ps: set<Path>)
    requires ps <= a.Keys && ps <= b.Keys && forall p :: p in ps ==> a[p].entities == b[p].entities
    ensures ListedBy(a, ps) == ListedBy(b, ps)
    decreases ps
  {
    if ps != {} {
      var p :| p in ps;
      ListedByPick(a, ps, p);
      ListedByPick(b, ps, p);
      ListedBySame(a, b, ps - {p});
    }
  }

  lemma {:induction false} ListedByEmpty(nodes: map<Path, Node>, ps: set<Path>, more: set<Path>)
    requires ps <= nodes.Keys && more <= nodes.Keys && forall p :: p in more ==> nodes[p].entities == []
    ensures ListedBy(nodes, ps + more) == ListedBy(nodes, ps)
    decreases more
  {
    if more == {} {
      assert ps + more == ps;
    } else {
      var p :| p in more;
      ListedByEmpty(nodes, ps, more - {p});
      if p in ps {
        assert ps + more == ps + (more - {p});
      } else {
        ListedByPick(nodes, ps + more, p);
        assert ps + more - {p} == ps + (more - {p});
      }
    }
  }

  /** Everything listed by branches that are not open, with repetitions. */
  ghost function Listings(s: State, open: set<Path>): multiset<nat> {
    ListedBy(s.nodes, s.nodes.Keys - open)
  }

  lemma PutListings(k: Config, s: State, open: set<Path>, e: nat, b: Path)
    requires b in s.nodes && b !in open
    ensures Listings(Put(k, s, e, b), open) == Listings(s, open) + multiset{e}
  {
    var s' := Put(k, s, e, b);
    var ps := s.nodes.Keys - open;
    assert s'.nodes.Keys == s.nodes.Keys;
    ListedByPick(s.nodes, ps, b);
    ListedByPick(s'.nodes, ps, b);
    ListedBySame(s.nodes, s'.nodes, ps - {b});
    assert multiset(s'.nodes[b].entities) == multiset(s.nodes[b].entities) + multiset{e};
  }

  lemma SplitListings(k: Config, s: State, s': State, open: set<Path>, b: Path)
    requires Splits(k, s, s', b) && b !in open && open <= s.nodes.Keys
    ensures Listings(s', open + {b}) + multiset(s.nodes[b].entities) == Listings(s, open)
  {
    var ps := s.nodes.Keys - open;
    ListedByPick(s.nodes, ps, b);
    ListedBySame(s.nodes, s'.nodes, ps - {b});
    ListedByEmpty(s'.nodes, ps - {b}, Kids(b, k.fan));
    assert s'.nodes.Keys - (open + {b}) == ps - {b} + Kids(b, k.fan);
  }

  lemma ClearListings(s: State, open: set<Path>, b: Path)
    requires b in s.nodes && b !in open
    ensures Listings(Clear(s, b), open) == Listings(s, open + {b})
  {
    var s' := Clear(s, b);
    var ps := s.nodes.Keys - open;
    assert s'.nodes.Keys == s.nodes.Keys;
    ListedByPick(s'.nodes, ps, b);
    ListedBySame(s.nodes, s'.nodes, ps - {b});
    assert ps - {b} == s.nodes.Keys - (open + {b});
  }

  lemma ListedIsListing(s: State, open: set<Path>, p: Path)
    requires p in s.nodes && p !in open
    ensures multiset(s.nodes[p].entities) <= Listings(s, open)
  {
    ListedByPick(s.nodes, s.nodes.Keys - open, p);
  }

  /** Two branches that list e make two listings of e. */
  lemma TwoListings(s: State, p: Path, q: Path, e: nat)
    requires p in s.nodes && q in s.nodes && p != q && e in s.nodes[p].entities && e in s.nodes[q].entities
    ensures Listings(s, {})[e] >= 2
  {
    var ps := s.nodes.Keys - {};
    ListedByPick(s.nodes, ps, p);
    ListedByPick(s.nodes, ps - {p}, q);
    assert multiset(s.nodes[p].entities)[e] >= 1 && multiset(s.nodes[q].entities)[e] >= 1;
  }

  lemma {:induction false} DistinctCount(q: seq<nat>, e: nat)
    requires Distinct(q)
    ensures multiset(q)[e] == if e in q then 1 else 0
  {
    if q != [] {
      var n := |q| - 1;
      DistinctCount(q[..n], e);
      assert q == q[..n] + [q[n]];
    }
  }

  lemma {:induction false} RecordedCount(k: Config, s: State, ps: set<Path>, e: nat)
    requires Recorded(k, s) && ps <= s.nodes.Keys
    ensures ListedBy(s.nodes, ps)[e] == if e in s.branchIds && s.branchIds[e] in ps then 1 else 0
    decreases ps
  {
    if ps != {} {
      var p :| p in ps;
      ListedByPick(s.nodes, ps, p);
      RecordedCount(k, s, ps - {p}, e);
      ListedExactly(k, s, p);
      DistinctCount(s.nodes[p].entities, e);
    }
  }

  /** Each entity that is recorded is listed exactly once. */
  lemma RecordedListings(k: Config, s: State)
    requires Recorded(k, s)
    ensures Listings(s, {}) == multiset(s.branchIds.Keys)
  {
    forall e ensures Listings(s, {})[e] == multiset(s.branchIds.Keys)[e] {
      RecordedCount(k, s, s.nodes.Keys - {}, e);
      if e in s.branchIds { assert Listed(s, e, {}); }
    }
  }

  // ----- room ----------------------------------------------------------------------------------------

  ghost predicate SameCell(codes: map<nat, Path>, part: multiset<nat>, q: Path) {
    forall e :: e in part ==> e in codes && q <= codes[e]
  }

  /** No more entities of w than a leaf may hold share a full code. */
  ghost predicate Roomy(k: Config, codes: map<nat, Path>, w: multiset<nat>) {
    forall q, part :: |q| == k.depth && part <= w && SameCell(codes, part, q) ==> |part| <= k.limit
  }

  lemma {:induction false} MultisetOfSet(part: multiset<nat>, all: set<nat>)
    requires part <= multiset(all)
    ensures |part| <= |all|
    decreases all
  {
    if all == {} {
      assert part == multiset{};
    } else {
      var e :| e in all;
      var rest := part[e := 0];
      assert part == rest + multiset{e} || part == rest;
      assert rest <= multiset(all - {e});
      MultisetOfSet(rest, all - {e});
      assert all == (all - {e}) + {e};
    }
  }

  lemma UncrowdedIsRoomy(k: Config, codes: map<nat, Path>, valid: set<nat>)
    requires Uncrowded(k, codes, valid)
    ensures Roomy(k, codes, multiset(valid))
  {
    forall q, part | |q| == k.depth && part <= multiset(valid) && SameCell(codes, part, q) ensures |part| <= k.limit {
      assert part <= multiset(Inside(codes, valid, q));
      MultisetOfSet(part, Inside(codes, valid, q));
    }
  }

  lemma FewerRoomy(k: Config, codes: map<nat, Path>, v: multiset<nat>, w: multiset<nat>)
    requires Roomy(k, codes, w) && v <= w
    ensures Roomy(k, codes, v)
  {}

  // ----- any tree --------------------------------------------------------------------------------------

  /** What p lists is inside its region, and a leaf was refined when it asked for it. */
  ghost predicate Tidy(s: State, p: Path, over: set<Path>)
    requires p in s.nodes
  {
    (forall e :: e in s.nodes[p].entities ==> e in s.codes && p <= s.codes[e]) &&
    (!s.nodes[p].hasChildren && p !in over ==> s.nodes[p].action != Refine)
  }

  /** Entities may be listed twice, by branches with children, or not be recorded at all. */
  ghost predicate Loose(k: Config, s: State, open: set<Path>, over: set<Path>) {
    Shape(k, s) && open <= s.nodes.Keys && (forall e :: e in s.codes ==> CodeOk(k, s.codes[e])) &&
    forall p {:trigger Tidy(s, p, over)} :: p in s.nodes && p !in open ==> Tidy(s, p, over)
  }

  lemma RecordedIsLoose(k: Config, s: State)
    requires Recorded(k, s)
    ensures Loose(k, s, {}, {})
  {
    forall p | p in s.nodes ensures Tidy(s, p, {}) {
      assert Lists(s, p, {}) && (!s.nodes[p].hasChildren ==> Settled(k, s.nodes[p]));
      forall e | e in s.nodes[p].entities ensures e in s.codes && p <= s.codes[e] { assert At(s, e, p); }
    }
  }

  /** A leaf that is too full is above full depth. */
  lemma RoomBelow(k: Config, s: State, open: set<Path>, over: set<Path>, w: multiset<nat>, b: Path)
    requires Loose(k, s, open, over) && b in s.nodes && b !in open
    requires Listings(s, open) <= w && Roomy(k, s.codes, w) && |s.nodes[b].entities| > k.limit
    ensures |b| < k.depth
  {
    var part := multiset(s.nodes[b].entities);
    ListedIsListing(s, open, b);
    assert Tidy(s, b, over);
    assert SameCell(s.codes, part, b);
    assert |part| == |s.nodes[b].entities|;
  }

  /** Branches outside the region of b are left alone. */
  ghost predicate SameElsewhere(before: State, after: State, b: Path) {
    forall p :: p in before.nodes ==> p in after.nodes && (b <= p || after.nodes[p] == before.nodes[p])
  }

  /** No branch newly asks to be coarser. */
  ghost predicate NoNewRequests(before: State, after: State) {
    forall p :: p in after.nodes && after.nodes[p].action == Coarsen ==>
      p in before.nodes && before.nodes[p].action == Coarsen
  }

  /** The depth of the tree grows only to that of a branch it now has. */
  ghost predicate DepthReached(before: State, after: State) {
    before.maxDepth <= after.maxDepth &&
    (before.maxDepth < after.maxDepth ==> exists p :: p in after.nodes && |p| == after.maxDepth)
  }

  /** Nothing changes outside the region of b, branches keep their children, what is
      stranded stays stranded, and only entities of w are recorded. */
  ghost predicate Changed(s: State, s': State, w: multiset<nat>, b: Path) {
    s'.codes == s.codes && s.branchIds.Keys <= s'.branchIds.Keys &&
    (forall e :: e in s'.branchIds ==> e in s.branchIds || e in w) &&
    SameElsewhere(s, s', b) && NoNewRequests(s, s') && DepthReached(s, s') &&
    (forall p :: p in s.nodes && s.nodes[p].hasChildren ==> s'.nodes[p].hasChildren) &&
    forall p, e :: Stranded(s, p, e) ==> Stranded(s', p, e)
  }

  lemma ChangedTrans(s0: State, s1: State, s2: State, w: multiset<nat>, b: Path)
    requires Changed(s0, s1, w, b) && Changed(s1, s2, w, b)
    ensures Changed(s0, s2, w, b)
  {
    assert forall p :: p in s1.nodes ==> p in s2.nodes;
  }

  lemma ChangedBelow(s: State, s': State, w: multiset<nat>, b: Path, kid: Path)
    requires Changed(s, s', w, kid) && b <= kid
    ensures Changed(s, s', w, b)
  {}

  // ----- insertion -----------------------------------------------------------------------------------------

  /** The branch an insertion at the given depth ends up at. */
  ghost predicate Target(s: State, e: nat, depth: nat, b: Path) {
    e in s.codes && depth <= |s.codes[e]| && b in s.nodes && b <= s.codes[e][..depth] &&
    (|b| < depth ==> s.codes[e][..depth][..|b| + 1] !in s.nodes)
  }

  ghost predicate CanReach(k: Config, s: State, open: set<Path>, w: multiset<nat>, e: nat, depth: nat, b: Path) {
    Loose(k, s, open, {}) && Target(s, e, depth, b) && b !in open &&
    Listings(s, open) + multiset{e} <= w
  }

  /** e is listed once more. A leaf with room for it, or a branch with children, just adds
      it to its list; a full leaf gets children. */
  ghost predicate Added(k: Config, s: State, s': State, open: set<Path>, w: multiset<nat>, e: nat, b: Path) {
    Loose(k, s', open, {}) && Changed(s, s', w, b) && b in s.nodes && e in s'.branchIds &&
    Listings(s', open) == Listings(s, open) + multiset{e} &&
    (s.nodes[b].hasChildren || |s.nodes[b].entities| < k.limit ==> s' == Put(k, s, e, b)) &&
    (!s.nodes[b].hasChildren && |s.nodes[b].entities| >= k.limit ==> s'.nodes[b] == Node(true, [], None))
  }

  ghost predicate CanSplit(k: Config, s: State, open: set<Path>, w: multiset<nat>, b: Path) {
    Loose(k, s, open, {b}) && b in s.nodes && b !in open && Listings(s, open) <= w &&
    (!s.nodes[b].hasChildren ==> |s.nodes[b].entities| > k.limit)
  }

  /** The same entities are listed. A branch that has children is not split again. */
  ghost predicate Rebuilt(k: Config, s: State, s': State, open: set<Path>, w: multiset<nat>, b: Path) {
    Loose(k, s', open, {}) && Changed(s, s', w, b) && b in s.nodes && Listings(s', open) == Listings(s, open) &&
    if s.nodes[b].hasChildren then s' == s else s'.nodes[b] == Node(true, [], None)
  }

  lemma PutIsLoose(k: Config, s: State, open: set<Path>, w: multiset<nat>, e: nat, depth: nat, b: Path)
    requires CanReach(k, s, open, w, e, depth, b)
    ensures
      var s' := Put(k, s, e, b);
      Loose(k, s', open, {b}) && Changed(s, s', w, b) && Listings(s', open) == Listings(s, open) + multiset{e} &&
      (s'.nodes[b].action != Refine || s.nodes[b].hasChildren ==> Loose(k, s', open, {}))
  {
    var s' := Put(k, s, e, b);
    PutShape(k, s, e, b);
    PutListings(k, s, open, e, b);
    assert b <= s.codes[e] by { assert s.codes[e][..depth] <= s.codes[e]; }
    forall p | p in s'.nodes && p !in open
      ensures Tidy(s', p, {b})
      ensures s'.nodes[b].action != Refine || s.nodes[b].hasChildren ==> Tidy(s', p, {})
    {
      assert Tidy(s, p, {});
    }
    assert e in multiset{e};
  }

  lemma PutIsAdded(k: Config, s: State, open: set<Path>, w: multiset<nat>, e: nat, depth: nat, b: Path)
    requires CanReach(k, s, open, w, e, depth, b) && Put(k, s, e, b).nodes[b].action != Refine
    ensures Added(k, s, Put(k, s, e, b), open, w, e, b)
  {
    PutIsLoose(k, s, open, w, e, depth, b);
  }

  lemma SplitIsNext(k: Config, s: State, open: set<Path>, w: multiset<nat>, e: nat, depth: nat, b: Path)
    requires CanReach(k, s, open, w, e, depth, b) && (s.nodes[b].hasChildren || |s.nodes[b].entities| >= k.limit)
    ensures CanSplit(k, Put(k, s, e, b), open, w, b)
  {
    PutIsLoose(k, s, open, w, e, depth, b);
  }

  lemma AddedByRefining(k: Config, s: State, s': State, open: set<Path>, w: multiset<nat>, e: nat, depth: nat, b: Path)
    requires CanReach(k, s, open, w, e, depth, b) && (s.nodes[b].hasChildren || |s.nodes[b].entities| >= k.limit)
    requires Rebuilt(k, Put(k, s, e, b), s', open, w, b)
    ensures Added(k, s, s', open, w, e, b)
  {
    PutIsLoose(k, s, open, w, e, depth, b);
    ChangedTrans(s, Put(k, s, e, b), s', w, b);
  }

  // ----- moving the entities of a split leaf ------------------------------------------------------------

  /** Since leaf b was split, the first i of its entities es were inserted again. */
  ghost predicate Carried(k: Config, s0: State, s: State, open: set<Path>, w: multiset<nat>, b: Path, es: seq<nat>,
        i: nat)
  {
    CanSplit(k, s0, open, w, b) && !s0.nodes[b].hasChildren && es == s0.nodes[b].entities && i <= |es| &&
      |b| < k.depth &&
    Loose(k, s, open + {b}, {}) && Changed(s0, s, w, b) && s.nodes[b].hasChildren &&
    Listings(s, open + {b}) + multiset(es[i..]) == Listings(s0, open)
  }

  lemma SplitDeeper(k: Config, s: State, open: set<Path>, w: multiset<nat>, b: Path)
    requires CanSplit(k, s, open, w, b) && !s.nodes[b].hasChildren && |b| < k.depth
    ensures DepthReached(s, Split(k, s, b))
  {
    assert Tidy(s, b, {b});
    var c := s.codes[s.nodes[b].entities[0]];
    assert CodeOk(k, c) && c[|b|] < k.fan;
    assert IsKid(b, k.fan, b + [0]);
    assert b + [0] in Split(k, s, b).nodes && |b + [0]| == |b| + 1;
  }

  lemma SplitIsCarried(k: Config, s: State, open: set<Path>, w: multiset<nat>, b: Path)
    requires CanSplit(k, s, open, w, b) && !s.nodes[b].hasChildren && |b| < k.depth
    ensures Carried(k, s, Split(k, s, b), open, w, b, s.nodes[b].entities, 0)
  {
    var s', es := Split(k, s, b), s.nodes[b].entities;
    SplitSplits(k, s, b);
    SplitShape(k, s, s', b);
    SplitDeeper(k, s, open, w, b);
    SplitListings(k, s, s', open, b);
    assert es[0..] == es;
    forall p | p in s'.nodes && p !in open + {b} ensures Tidy(s', p, {}) {
      if p !in Kids(b, k.fan) { assert Tidy(s, p, {b}); }
    }
  }

  /** A branch that has children is left as it is. */
  lemma NotSplitAgain(k: Config, s: State, open: set<Path>, w: multiset<nat>, b: Path)
    requires CanSplit(k, s, open, w, b) && s.nodes[b].hasChildren
    ensures Rebuilt(k, s, s, open, w, b)
  {
    forall p | p in s.nodes && p !in open ensures Tidy(s, p, {}) { assert Tidy(s, p, {b}); }
  }

  /** Child kid of b is on the way to e. */
  ghost predicate KidFor(k: Config, s: State, b: Path, e: nat, kid: Path) {
    e in s.codes && |b| < |s.codes[e]| && kid == s.codes[e][..|b| + 1] && kid in Kids(b, k.fan) &&
      |kid| == |b| + 1 <= k.depth
  }

  /** The child that the next entity goes to. */
  lemma CarryTo(k: Config, s0: State, s: State, open: set<Path>, w: multiset<nat>, b: Path, es: seq<nat>, i: nat)
    returns (kid: Path)
    requires Carried(k, s0, s, open, w, b, es, i) && i < |es|
    ensures KidFor(k, s, b, es[i], kid) && CanReach(k, s, open + {b}, w, es[i], |b| + 1, kid) && kid !in s0.nodes
    ensures s.nodes[kid].action != Coarsen
  {
    var e := es[i];
    assert Tidy(s0, b, {b}) && e in es;
    var c := s.codes[e];
    assert CodeOk(k, c);
    kid := c[..|b| + 1];
    assert kid == b + [c[|b|]];
    assert IsKid(b, k.fan, kid);
    NoKidsYet(k, s0, b, kid);
    assert HasAllChildren(k, s, b);
    RestNext(es, i);
  }

  lemma CarriedNext(k: Config, s0: State, s: State, s': State, open: set<Path>, w: multiset<nat>, b: Path, es: seq<nat>,
        i: nat, kid: Path)
    requires Carried(k, s0, s, open, w, b, es, i) && i < |es| && kid in Kids(b, k.fan)
    requires Added(k, s, s', open + {b}, w, es[i], kid)
    ensures Carried(k, s0, s', open, w, b, es, i + 1)
  {
    assert IsKid(b, k.fan, kid);
    ChangedByKid(s0, s, s', w, b, kid);
    RestNext(es, i);
    assert s'.nodes[b].hasChildren;
  }

  lemma ChangedByKid(s0: State, s: State, s': State, w: multiset<nat>, b: Path, kid: Path)
    requires Changed(s0, s, w, b) && Changed(s, s', w, kid) && b <= kid
    ensures Changed(s0, s', w, b)
  {
    ChangedBelow(s, s', w, b, kid);
    ChangedTrans(s0, s, s', w, b);
  }

  lemma RestNext(es: seq<nat>, i: nat)
    requires i < |es|
    ensures multiset(es[i..]) == multiset{es[i]} + multiset(es[i + 1..])
  {
    assert es[i..] == [es[i]] + es[i + 1..];
  }

  lemma ClearedIsRebuilt(k: Config, s0: State, s: State, open: set<Path>, w: multiset<nat>, b: Path, es: seq<nat>)
    requires Carried(k, s0, s, open, w, b, es, |es|)
    ensures Rebuilt(k, s0, Clear(s, b), open, w, b)
  {
    var s' := Clear(s, b);
    assert multiset(es[|es|..]) == multiset{};
    ClearListings(s, open, b);
    ClearShape(k, s, b);
    forall p | p in s'.nodes && p !in open ensures Tidy(s', p, {}) {
      if p != b { assert Tidy(s, p, {}); }
    }
    ClearChanged(s0, s, w, b);
  }

  lemma ClearChanged(s0: State, s: State, w: multiset<nat>, b: Path)
    requires Changed(s0, s, w, b) && b in s0.nodes && !s0.nodes[b].hasChildren
    ensures Changed(s0, Clear(s, b), w, b)
  {
    forall p, e | Stranded(s0, p, e) ensures Stranded(Clear(s, b), p, e) { assert p != b; }
  }
}
