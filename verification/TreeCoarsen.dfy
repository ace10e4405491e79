/** Coarsening: a branch takes over the entities of everything below it and becomes a
    leaf again. */
module TreeCoarsen {
  import opened Base
  import opened MortonId
  import opened TreeState

  /** The branch objects strictly below b. */
  ghost function BelowSet(s: State, b: Path): set<Path> {
    set q | q in s.nodes && Below(b, q)
  }

  /** ... reached through the first n children. */
  ghost function BelowUpTo(s: State, b: Path, n: nat): set<Path> {
    set q | q in s.nodes && Below(b, q) && q[|b|] < n
  }

  lemma BelowNothing(s: State, b: Path)
    ensures BelowUpTo(s, b, 0) == {}
  {}

  /** Child n and all below it come next. */
  lemma BelowNext(s: State, b: Path, n: nat)
    requires b + [n] in s.nodes
    ensures BelowUpTo(s, b, n + 1) == BelowUpTo(s, b, n) + {b + [n]} + BelowSet(s, b + [n])
    ensures b + [n] !in BelowUpTo(s, b, n) && BelowSet(s, b + [n]) !! BelowUpTo(s, b, n) + {b + [n]}
  {
    var c := b + [n];
    forall q | q in BelowUpTo(s, b, n + 1) && q !in BelowUpTo(s, b, n) ensures q == c || q in BelowSet(s, c) {
      assert c <= q;
    }
  }

  lemma {:induction false} DigitsSmall(k: Config, s: State, q: Path, i: nat)
    requires Shape(k, s) && q in s.nodes && i < |q|
    ensures q[i] < k.fan && q[..i] in s.nodes && s.nodes[q[..i]].hasChildren
    decreases |q|
  {
    assert HasParent(k, s, q);
    if i < |q| - 1 {
      DigitsSmall(k, s, Parent(q), i);
      assert Parent(q)[..i] == q[..i];
    }
  }

  lemma BelowAll(k: Config, s: State, b: Path)
    requires Shape(k, s) && b in s.nodes
    ensures BelowUpTo(s, b, k.fan) == BelowSet(s, b)
    ensures !s.nodes[b].hasChildren ==> BelowSet(s, b) == {}
  {
    forall q | q in BelowSet(s, b) ensures q[|b|] < k.fan && s.nodes[b].hasChildren {
      DigitsSmall(k, s, q, |b|);
      assert q[..|b|] == b;
    }
  }

  // ----- the leaf on the way to a code ------------------------------------------------------------

  lemma {:induction false} LeafOnWay(k: Config, s: State, c: Path, n: nat) returns (b: Path)
    requires k.fan > 0 && Shape(k, s) && CodeOk(k, c) && n <= |c| && s.maxDepth <= |c|
    requires forall i :: n < i <= |c| ==> c[..i] !in s.nodes
    ensures b in s.nodes && b <= c && !s.nodes[b].hasChildren && (|b| < |c| ==> c[..|b| + 1] !in s.nodes)
  {
    if c[..n] in s.nodes {
      b := c[..n];
      DeepestIsLeaf(k, s, c, b);
    } else {
      assert c[..0] == [];
      b := LeafOnWay(k, s, c, n - 1);
    }
  }

  /** There is only one. */
  lemma LeafUnique(k: Config, s: State, c: Path, a: Path, b: Path)
    requires Shape(k, s) && a in s.nodes && b in s.nodes && a <= c && b <= c
    requires !s.nodes[a].hasChildren && !s.nodes[b].hasChildren
    ensures a == b
  {
    if |a| < |b| {
      assert b[..|a|] == a;
      DigitsSmall(k, s, b, |a|);
    } else if |b| < |a| {
      assert a[..|b|] == b;
      DigitsSmall(k, s, a, |b|);
    }
  }

  lemma LeafOnWayTo(k: Config, s: State, c: Path) returns (b: Path)
    requires k.fan > 0 && Shape(k, s) && CodeOk(k, c)
    ensures b in s.nodes && b <= c[..s.maxDepth] && b <= c && !s.nodes[b].hasChildren
    ensures |b| < s.maxDepth ==> c[..s.maxDepth][..|b| + 1] !in s.nodes
  {
    forall i | s.maxDepth < i <= |c| ensures c[..i] !in s.nodes { assert |c[..i]| == i; }
    b := LeafOnWay(k, s, c, s.maxDepth);
    assert |b| <= s.maxDepth;
    assert |b| < s.maxDepth ==> c[..s.maxDepth][..|b| + 1] == c[..|b| + 1];
  }

  // ----- taking over ------------------------------------------------------------------------------

  /** p has taken over the entities of the branches in done, and the hash map has lost
      those in erased. */
  ghost predicate TakenBelow(s0: State, s: State, p: Path, done: set<Path>, erased: set<Path>) {
    p in s0.nodes && p !in done && s.nodes.Keys == s0.nodes.Keys &&
    s.codes == s0.codes && s.maxDepth == s0.maxDepth && s.branchMap == s0.branchMap - erased &&
    (forall q {:trigger s.nodes[q]} :: q in s0.nodes && q != p ==> s.nodes[q] == s0.nodes[q]) &&
    s.branchIds.Keys == s0.branchIds.Keys &&
    (forall e {:trigger s.branchIds[e]} :: e in s0.branchIds ==>
      s.branchIds[e] == if s0.branchIds[e] in done then p else s0.branchIds[e]) &&
    s.nodes[p].hasChildren == s0.nodes[p].hasChildren && Distinct(s.nodes[p].entities) &&
    forall e :: e in s.nodes[p].entities <==> IsTaken(s0, p, done, e)
  }

  ghost predicate IsTaken(s0: State, p: Path, done: set<Path>, e: nat) {
    e in s0.branchIds && (s0.branchIds[e] in done || s0.branchIds[e] == p)
  }

  lemma TakenBelowStart(k: Config, s: State, p: Path)
    requires Recorded(k, s) && p in s.nodes && s.nodes[p].hasChildren
    ensures TakenBelow(s, s, p, {}, {})
  {
    ListedExactly(k, s, p);
  }

  /** p takes over the entities of one branch, one after the other. */
  ghost function TakenOver(k: Config, s: State, p: Path, es: seq<nat>): (r: State)
    requires p in s.nodes
    ensures p in r.nodes
  {
    if es == [] then s else Put(k, TakenOver(k, s, p, es[..|es| - 1]), es[|es| - 1], p)
  }

  lemma {:induction false} TakenOverMeans(k: Config, s: State, p: Path, es: seq<nat>)
    requires p in s.nodes
    ensures
      var r := TakenOver(k, s, p, es);
      r.nodes.Keys == s.nodes.Keys && r.nodes[p].entities == s.nodes[p].entities + es &&
        r.nodes[p].hasChildren == s.nodes[p].hasChildren &&
      r.codes == s.codes && r.maxDepth == s.maxDepth && r.branchMap == s.branchMap &&
      (forall q {:trigger r.nodes[q]} :: q in s.nodes && q != p ==> r.nodes[q] == s.nodes[q]) &&
      (forall e :: e in r.branchIds <==> e in s.branchIds || e in es) &&
      forall e {:trigger r.branchIds[e]} :: e in r.branchIds ==> r.branchIds[e] == if e in es then p else s.branchIds[e]
  {
    if es != [] {
      TakenOverMeans(k, s, p, es[..|es| - 1]);
      assert es == es[..|es| - 1] + [es[|es| - 1]];
    }
  }

  /** The entities a branch lists are exactly those recorded at it. */
  lemma ListedExactly(k: Config, s: State, c: Path)
    requires Recorded(k, s) && c in s.nodes
    ensures Distinct(s.nodes[c].entities)
    ensures forall e :: e in s.nodes[c].entities <==> e in s.branchIds && s.branchIds[e] == c
  {
    assert Lists(s, c, {});
    forall e | e in s.branchIds && s.branchIds[e] == c ensures e in s.nodes[c].entities { assert Listed(s, e, {}); }
    forall e | e in s.nodes[c].entities ensures e in s.branchIds && s.branchIds[e] == c { assert At(s, e, c); }
  }

  lemma TakenBelowChild(k: Config, s0: State, s: State, p: Path, done: set<Path>, erased: set<Path>, c: Path)
    requires Recorded(k, s0) && TakenBelow(s0, s, p, done, erased) && c in s0.nodes && c !in done && c != p
    ensures TakenBelow(s0, TakenOver(k, s, p, s0.nodes[c].entities), p, done + {c}, erased)
  {
    var es := s0.nodes[c].entities;
    var r := TakenOver(k, s, p, es);
    TakenOverMeans(k, s, p, es);
    ListedExactly(k, s0, c);
    ChildTaken(s0, p, done, c, s.nodes[p].entities, es);
    assert r.branchIds.Keys == s0.branchIds.Keys;
    forall e | e in s0.branchIds
      ensures r.branchIds[e] == if s0.branchIds[e] in done + {c} then p else s0.branchIds[e]
    {
      assert e in r.branchIds && e in s.branchIds;
    }
  }

  lemma ChildTaken(s0: State, p: Path, done: set<Path>, c: Path, before: seq<nat>, es: seq<nat>)
    requires c !in done && c != p && Distinct(before) && Distinct(es)
    requires forall e :: e in before <==> IsTaken(s0, p, done, e)
    requires forall e :: e in es <==> e in s0.branchIds && s0.branchIds[e] == c
    ensures Distinct(before + es) && forall e :: e in before + es <==> IsTaken(s0, p, done + {c}, e)
  {
    DistinctAppend(before, es);
  }

  lemma DistinctAppend(a: seq<nat>, b: seq<nat>)
    requires Distinct(a) && Distinct(b) && forall e :: e in b ==> e !in a
    ensures Distinct(a + b)
  {
    var ab := a + b;
    forall i, j | 0 <= i < j < |ab| ensures ab[i] != ab[j] {
      if i < |a| <= j { assert ab[i] in a && ab[j] in b; }
    }
  }

  /** After all below p is gathered: the child arrays go, and p is a quiet leaf. */
  ghost function AsLeaf(s: State, p: Path): State
    requires p in s.nodes
  {
    s.(nodes := map q | q in s.nodes && !Below(p, q) ::
      if q == p then Node(false, s.nodes[p].entities, None) else s.nodes[q])
  }

  ghost predicate Coarsened(s: State, s': State, p: Path) {
    p in s.nodes && s'.codes == s.codes && s'.maxDepth == s.maxDepth &&
    s'.nodes.Keys == s.nodes.Keys - BelowSet(s, p) &&
    (forall q {:trigger s'.nodes[q]} :: q in s'.nodes && q != p ==> s'.nodes[q] == s.nodes[q]) &&
    !s'.nodes[p].hasChildren && s'.nodes[p].action == None && s'.branchIds.Keys == s.branchIds.Keys &&
    forall e {:trigger s'.branchIds[e]} :: e in s.branchIds ==>
      s'.branchIds[e] == if Below(p, s.branchIds[e]) then p else s.branchIds[e]
  }

  lemma LeafIsCoarsened(k: Config, s: State, s1: State, p: Path)
    requires Recorded(k, s) && p in s.nodes && s.nodes[p].hasChildren
    requires TakenBelow(s, s1, p, BelowSet(s, p), BelowSet(s, p))
    ensures Coarsened(s, AsLeaf(s1, p), p)
  {
    var s' := AsLeaf(s1, p);
    forall e | e in s.branchIds ensures s'.branchIds[e] == if Below(p, s.branchIds[e]) then p else s.branchIds[e] {
      assert Listed(s, e, {});
      assert s'.branchIds[e] == s1.branchIds[e];
    }
  }

  lemma LeafShape(k: Config, s: State, s': State, p: Path)
    requires Shape(k, s) && Coarsened(s, s', p) && s'.branchMap == s.branchMap - BelowSet(s, p)
    ensures Shape(k, s')
  {
    forall q | q in s'.nodes && q != [] ensures HasParent(k, s', q) {
      assert HasParent(k, s, q);
      assert !Below(p, Parent(q)) && Parent(q) != p;
    }
    forall q | q in s'.nodes && s'.nodes[q].hasChildren ensures HasAllChildren(k, s', q) {
      assert HasAllChildren(k, s, q);
      forall d: nat | d < k.fan ensures q + [d] in s'.nodes {
        if |p| <= |q| { assert (q + [d])[..|p|] == q[..|p|]; }
      }
    }
  }

  lemma LeafLists(k: Config, s: State, s1: State, p: Path)
    requires Recorded(k, s) && p in s.nodes && TakenBelow(s, s1, p, BelowSet(s, p), BelowSet(s, p))
    ensures
      var es := s1.nodes[p].entities;
      Distinct(es) && (forall e :: e in es ==> At(AsLeaf(s1, p), e, p)) &&
        |es| <= |Inside(s.codes, s.branchIds.Keys, p)|
  {
    var es, s' := s1.nodes[p].entities, AsLeaf(s1, p);
    forall e | e in es ensures At(s', e, p) && e in Inside(s.codes, s.branchIds.Keys, p) {
      assert Listed(s, e, {});
      assert Lists(s, s.branchIds[e], {});
      assert At(s, e, s.branchIds[e]);
      assert s1.branchIds[e] == p;
    }
    DistinctSize(es);
    SubsetSize(ToSet(es), Inside(s.codes, s.branchIds.Keys, p));
  }

  /** Coarsening keeps every entity recorded; under a strict policy the branch may hold no
      more than a leaf. */
  lemma CoarsenKeeps(k: Config, s: State, s1: State, p: Path)
    requires Recorded(k, s) && p in s.nodes && s.nodes[p].hasChildren
    requires TakenBelow(s, s1, p, BelowSet(s, p), BelowSet(s, p))
    requires k.strict ==> |Inside(s.codes, s.branchIds.Keys, p)| <= k.limit
    ensures Recorded(k, AsLeaf(s1, p)) && Coarsened(s, AsLeaf(s1, p), p)
  {
    var s' := AsLeaf(s1, p);
    LeafIsCoarsened(k, s, s1, p);
    LeafShape(k, s, s', p);
    LeafLists(k, s, s1, p);
    forall q | q in s'.nodes ensures Lists(s', q, {}) && (s'.nodes[q].hasChildren || Settled(k, s'.nodes[q])) {
      if q != p { OthersList(k, s, s', p, q); }
    }
    forall e | e in s'.branchIds ensures Listed(s', e, {}) { OthersListed(k, s, s1, p, e); }
  }

  lemma OthersListed(k: Config, s: State, s1: State, p: Path, e: nat)
    requires Recorded(k, s) && p in s.nodes && s.nodes[p].hasChildren
    requires TakenBelow(s, s1, p, BelowSet(s, p), BelowSet(s, p))
    requires e in s.branchIds
    ensures e in s1.branchIds && Listed(AsLeaf(s1, p), e, {})
  {
    assert Listed(s, e, {});
    var b := s.branchIds[e];
    assert s1.branchIds[e] == if b in BelowSet(s, p) then p else b;
    assert b in BelowSet(s, p) || b == p ==> IsTaken(s, p, BelowSet(s, p), e);
  }

  lemma OthersList(k: Config, s: State, s': State, p: Path, q: Path)
    requires Recorded(k, s) && Coarsened(s, s', p) && q in s'.nodes && q != p
    ensures Lists(s', q, {}) && (s'.nodes[q].hasChildren || Settled(k, s'.nodes[q]))
  {
    assert s'.nodes[q] == s.nodes[q] && Lists(s, q, {}) && (s.nodes[q].hasChildren || Settled(k, s.nodes[q]));
    forall e | e in s.nodes[q].entities ensures At(s', e, q) {
      assert At(s, e, q);
      assert s'.branchIds[e] == q;
    }
  }

  /** It brings back what was stranded at p or below, and strands nothing. */
  lemma CoarseningRecovers(s: State, s': State, p: Path)
    requires Coarsened(s, s', p)
    ensures forall q, e :: Stranded(s', q, e) <==> Stranded(s, q, e) && !(p <= q)
  {
    forall q, e ensures Stranded(s', q, e) <==> Stranded(s, q, e) && !(p <= q) {
      if q in s'.nodes && q != p { assert s'.nodes[q] == s.nodes[q]; }
    }
  }
}
