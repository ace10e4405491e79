/** What a search finds in a hashed tree. */
module TreeSearch {
  import opened Base
  import opened MortonId
  import opened TreeState
  import opened TreeCoarsen
  import opened TreeMoves
  import Find = ConcurrentFind

  /** The branches below p as the search sees them: child arrays and entity lists. */
  ghost function TreeAt(m: Layout, k: Config, s: State, p: Path): (t: Find.Tree)
    requires m.Ok() && k.fan == m.Fan() && Shape(k, s) && p in s.nodes
    decreases k.depth - |p|
  {
    if s.nodes[p].hasChildren then
      RootIsSmall(m);
      BranchIsShallow(k, s, p);
      assert HasAllChildren(k, s, p);
      Find.Branch(Encode(m, p), seq(k.fan, d requires 0 <= d < k.fan => TreeAt(m, k, s, p + [d])))
    else Find.Leaf(Encode(m, p), s.nodes[p].entities)
  }

  /** Every branch on the way from p down to b is entered. */
  ghost predicate Entered(q: Find.Query, m: Layout, p: Path, b: Path)
    requires m.Ok()
  {
    forall n :: |p| < n <= |b| ==> q.enters(Encode(m, b[..n]))
  }

  /** e is in a leaf below p, picked, and every branch on the way to it is entered. */
  ghost predicate Reached(q: Find.Query, m: Layout, s: State, p: Path, e: nat)
    requires m.Ok()
  {
    e in s.branchIds && s.branchIds[e] in s.nodes && !s.nodes[s.branchIds[e]].hasChildren &&
    p <= s.branchIds[e] && Entered(q, m, p, s.branchIds[e]) && q.picks(e)
  }

  lemma {:induction false} PickedCount(q: Find.Query, es: seq<nat>, e: nat)
    requires Distinct(es)
    ensures multiset(Find.Picked(q, es))[e] == if e in es && q.picks(e) then 1 else 0
  {
    if es != [] {
      var n := |es| - 1;
      PickedCount(q, es[..n], e);
      assert es == es[..n] + [es[n]];
    }
  }

  lemma ReachedLeaf(q: Find.Query, m: Layout, k: Config, s: State, p: Path, e: nat)
    requires m.Ok() && k.fan == m.Fan() && Recorded(k, s) && p in s.nodes && !s.nodes[p].hasChildren
    ensures multiset(Find.Found(q, TreeAt(m, k, s, p)))[e] == if Reached(q, m, s, p, e) then 1 else 0
  {
    ListedExactly(k, s, p);
    PickedCount(q, s.nodes[p].entities, e);
    if e in s.branchIds && p <= s.branchIds[e] {
      assert Listed(s, e, {});
      BelowAll(k, s, p);
      assert s.branchIds[e] !in BelowSet(s, p);
    }
  }

  lemma ReachedThrough(q: Find.Query, m: Layout, s: State, p: Path, d: nat, e: nat)
    requires m.Ok() && e in s.branchIds && p + [d] <= s.branchIds[e]
    ensures Reached(q, m, s, p, e) <==> q.enters(Encode(m, p + [d])) && Reached(q, m, s, p + [d], e)
  {
    var b := s.branchIds[e];
    assert b[..|p| + 1] == p + [d];
  }

  ghost predicate ReachedUpTo(q: Find.Query, m: Layout, s: State, p: Path, n: nat, e: nat)
    requires m.Ok()
  {
    Reached(q, m, s, p, e) && |p| < |s.branchIds[e]| && s.branchIds[e][|p|] < n
  }

  lemma ReachedNext(q: Find.Query, m: Layout, s: State, p: Path, n: nat, e: nat)
    requires m.Ok()
    ensures ReachedUpTo(q, m, s, p, n + 1, e) <==>
      ReachedUpTo(q, m, s, p, n, e) || (q.enters(Encode(m, p + [n])) && Reached(q, m, s, p + [n], e))
    ensures ReachedUpTo(q, m, s, p, n, e) ==> !Reached(q, m, s, p + [n], e)
  {
    if e in s.branchIds {
      var b := s.branchIds[e];
      assert p <= b && |p| < |b| && b[|p|] == n <==> p + [n] <= b;
      if p + [n] <= b { ReachedThrough(q, m, s, p, n, e); }
    }
  }

  lemma FoundNext(q: Find.Query, t: Find.Tree, i: nat, e: nat)
    requires t.Branch? && i < |t.children|
    ensures multiset(Find.FoundBelow(q, t, i + 1))[e] == multiset(Find.FoundBelow(q, t, i))[e] +
      if q.enters(t.children[i].id) then multiset(Find.Found(q, t.children[i]))[e] else 0
  {}

  /** What the search finds of e below child d. */
  ghost predicate ChildExact(q: Find.Query, m: Layout, s: State, p: Path, t: Find.Tree, d: nat, e: nat)
    requires m.Ok() && t.Branch? && d < |t.children|
  {
    t.children[d].id == Encode(m, p + [d]) &&
    multiset(Find.Found(q, t.children[d]))[e] == if Reached(q, m, s, p + [d], e) then 1 else 0
  }

  /** The part of a search below a branch that the first n children account for. */
  lemma {:induction false} ReachedBelow(q: Find.Query, m: Layout, s: State, p: Path, t: Find.Tree, n: nat, e: nat)
    requires m.Ok() && t.Branch? && n <= |t.children|
    requires forall d: nat :: d < |t.children| ==> ChildExact(q, m, s, p, t, d, e)
    ensures multiset(Find.FoundBelow(q, t, n))[e] == if ReachedUpTo(q, m, s, p, n, e) then 1 else 0
  {
    if n > 0 {
      var i := n - 1;
      ReachedBelow(q, m, s, p, t, i, e);
      assert ChildExact(q, m, s, p, t, i, e);
      FoundNext(q, t, i, e);
      ReachedNext(q, m, s, p, i, e);
    }
  }

  lemma ChildTree(m: Layout, k: Config, s: State, p: Path, i: nat)
    requires m.Ok() && k.fan == m.Fan() && Shape(k, s) && p in s.nodes && s.nodes[p].hasChildren && i < k.fan
    ensures p + [i] in s.nodes
    ensures
      var t := TreeAt(m, k, s, p);
      t.Branch? && |t.children| == k.fan && t.children[i] == TreeAt(m, k, s, p + [i]) &&
        t.children[i].id == Encode(m, p + [i])
  {
    assert HasAllChildren(k, s, p);
    TreeId(m, k, s, p + [i]);
  }

  lemma TreeId(m: Layout, k: Config, s: State, p: Path)
    requires m.Ok() && k.fan == m.Fan() && Shape(k, s) && p in s.nodes
    ensures TreeAt(m, k, s, p).id == Encode(m, p)
  {}

  /** A search from any branch meets each entity below it exactly once if it picks it and
      enters every branch on the way to it, and otherwise not at all. */
  lemma {:induction false} ReachedCount(q: Find.Query, m: Layout, k: Config, s: State, p: Path, e: nat)
    requires m.Ok() && k.fan == m.Fan() && Recorded(k, s) && p in s.nodes
    ensures multiset(Find.Found(q, TreeAt(m, k, s, p)))[e] == if Reached(q, m, s, p, e) then 1 else 0
    decreases k.depth - |p|
  {
    if !s.nodes[p].hasChildren {
      ReachedLeaf(q, m, k, s, p, e);
    } else {
      var t := TreeAt(m, k, s, p);
      RootIsSmall(m);
      BranchIsShallow(k, s, p);
      forall d: nat | d < k.fan ensures |t.children| == k.fan && ChildExact(q, m, s, p, t, d, e) {
        ChildTree(m, k, s, p, d);
        ReachedCount(q, m, k, s, p + [d], e);
      }
      ReachedBelow(q, m, s, p, t, k.fan, e);
      if Reached(q, m, s, p, e) { BelowBranch(k, s, p, e); }
    }
  }

  lemma BelowBranch(k: Config, s: State, p: Path, e: nat)
    requires Recorded(k, s) && p in s.nodes && s.nodes[p].hasChildren && e in s.branchIds && p <= s.branchIds[e]
    requires s.branchIds[e] != p
    ensures |p| < |s.branchIds[e]| && s.branchIds[e][|p|] < k.fan
  {
    assert Listed(s, e, {});
    DigitsSmall(k, s, s.branchIds[e], |p|);
  }

  lemma RestsInLeaf(q: Find.Query, m: Layout, k: Config, s: State, e: nat)
    requires m.Ok() && Recorded(k, s) && e in s.branchIds && q.picks(e) && Entered(q, m, [], s.branchIds[e])
    ensures Reached(q, m, s, [], e) <==> !exists p :: Stranded(s, p, e)
  {
    assert Listed(s, e, {});
    forall p | Stranded(s, p, e) ensures p == s.branchIds[e] {
      assert Lists(s, p, {});
      assert At(s, e, p);
    }
    assert s.nodes[s.branchIds[e]].hasChildren ==> Stranded(s, s.branchIds[e], e);
    assert [] <= s.branchIds[e];
  }

  /** The concurrent search, in every interleaving: when it returns, an entity has been
      collected once if it is in a leaf below the start branch, is picked, and every
      branch on the way to it was entered, and has not been collected otherwise. */
  lemma ConcurrentSearchIsExact(q: Find.Query, m: Layout, k: Config, s: State, p: Path, queueDepth: nat,
        run: seq<Find.State>, i: nat, e: nat)
    requires m.Ok() && q.dim == m.dim && k.fan == m.Fan() && Recorded(k, s) && p in s.nodes
    requires Find.Run(run, q, queueDepth, TreeAt(m, k, s, p), |p|) && i < |run| && run[i].returned
    ensures multiset(run[i].ents)[e] == if Reached(q, m, s, p, e) then 1 else 0
  {
    Find.ReturnsWhatIsFound(run, q, queueDepth, TreeAt(m, k, s, p), |p|, i);
    ReachedCount(q, m, k, s, p, e);
  }

  /** A search that prunes nothing finds every entity of the tree exactly once, but for the
      lost ones; in a tree in order there are none of those. */
  lemma EverythingIsFound(m: Layout, k: Config, s: State, e: nat)
    requires m.Ok() && k.fan == m.Fan() && Recorded(k, s)
    ensures multiset(Find.Found(Find.Query(_ => true, _ => true, m.dim), TreeAt(m, k, s, [])))[e] ==
      if e in s.branchIds && !Lost(s, e) then 1 else 0
    ensures Inv(k, s) ==> !Lost(s, e)
  {
    var q := Find.Query(_ => true, _ => true, m.dim);
    ReachedCount(q, m, k, s, [], e);
    InOrderIffNoneLost(k, s);
    StrandedIsLost(k, s, e);
    if e in s.branchIds { RestsInLeaf(q, m, k, s, e); }
  }

  // ----- lost entities ----------------------------------------------------------------------------------

  lemma {:induction false} NotPicked(q: Find.Query, es: seq<nat>, e: nat)
    requires e !in es
    ensures multiset(Find.Picked(q, es))[e] == 0
  {
    if es != [] {
      var n := |es| - 1;
      NotPicked(q, es[..n], e);
      assert es == es[..n] + [es[n]];
    }
  }

  ghost predicate NotInChild(q: Find.Query, t: Find.Tree, d: nat, e: nat)
    requires t.Branch? && d < |t.children|
  {
    multiset(Find.Found(q, t.children[d]))[e] == 0
  }

  lemma {:induction false} NotBelow(q: Find.Query, t: Find.Tree, n: nat, e: nat)
    requires t.Branch? && n <= |t.children| && forall d: nat :: d < |t.children| ==> NotInChild(q, t, d, e)
    ensures multiset(Find.FoundBelow(q, t, n))[e] == 0
  {
    if n > 0 {
      assert NotInChild(q, t, n - 1, e);
      NotBelow(q, t, n - 1, e);
      FoundNext(q, t, n - 1, e);
    }
  }

  /** No search, from wherever it starts and whatever it picks and enters, finds a lost
      entity. */
  lemma {:induction false} LostIsNotFound(q: Find.Query, m: Layout, k: Config, s: State, p: Path, e: nat)
    requires m.Ok() && k.fan == m.Fan() && Shape(k, s) && p in s.nodes && Lost(s, e)
    ensures multiset(Find.Found(q, TreeAt(m, k, s, p)))[e] == 0
    decreases k.depth - |p|
  {
    if !s.nodes[p].hasChildren {
      LostFromLeaves(s, e, p);
      NotPicked(q, s.nodes[p].entities, e);
    } else {
      var t := TreeAt(m, k, s, p);
      RootIsSmall(m);
      BranchIsShallow(k, s, p);
      forall d: nat | d < k.fan ensures |t.children| == k.fan && NotInChild(q, t, d, e) {
        ChildTree(m, k, s, p, d);
        LostIsNotFound(q, m, k, s, p + [d], e);
      }
      NotBelow(q, t, k.fan, e);
    }
  }
}
