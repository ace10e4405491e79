/** Insertion and refinement: they keep every entity recorded, and strand one exactly when a
    child gets more than one entity above a leaf's limit. */
module TreeMoves {
  import opened Base
  import opened MortonId
  import opened TreeState
  import opened TreeLists

  /** Branches that got children hold more entities than a leaf may. */
  ghost predicate NeededOnly(k: Config, before: State, after: State) {
    forall p :: p in after.nodes && after.nodes[p].hasChildren ==>
      (p in before.nodes && before.nodes[p].hasChildren) || |Inside(after.codes, after.branchIds.Keys, p)| > k.limit
  }

  lemma NeededTrans(k: Config, s0: State, s1: State, s2: State)
    requires NeededOnly(k, s0, s1) && NeededOnly(k, s1, s2)
    requires s1.codes == s2.codes && s1.branchIds.Keys <= s2.branchIds.Keys
    ensures NeededOnly(k, s0, s2)
  {
    forall p | p in s2.nodes && s2.nodes[p].hasChildren && p in s1.nodes && s1.nodes[p].hasChildren
      ensures (p in s0.nodes && s0.nodes[p].hasChildren) || |Inside(s2.codes, s2.branchIds.Keys, p)| > k.limit
    {
      SubsetSize(Inside(s1.codes, s1.branchIds.Keys, p), Inside(s2.codes, s2.branchIds.Keys, p));
    }
  }

  // ----- where the entities of a leaf go when it is refined ----------------------------------------

  /** How many of the first n entities are in the region of p. */
  ghost function Going(codes: map<nat, Path>, es: seq<nat>, n: nat, p: Path): (c: nat)
    requires n <= |es|
    ensures c <= n
  {
    if n == 0 then 0
    else Going(codes, es, n - 1, p) + if es[n - 1] in codes && p <= codes[es[n - 1]] then 1 else 0
  }

  /** Of the first n entities no child's region holds more than a leaf's worth and one. */
  ghost predicate KidsFit(k: Config, codes: map<nat, Path>, b: Path, es: seq<nat>, n: nat)
    requires n <= |es|
  {
    forall p :: p in Kids(b, k.fan) ==> Going(codes, es, n, p) <= k.limit + 1
  }

  /** Leaf b has room for e, or its children will. */
  ghost predicate Fits(k: Config, s: State, e: nat, b: Path)
    requires b in s.nodes
  {
    |s.nodes[b].entities| < k.limit ||
    KidsFit(k, s.codes, b, s.nodes[b].entities + [e], |s.nodes[b].entities| + 1)
  }

  // ----- entities stay recorded ------------------------------------------------------------------------

  ghost predicate CanInsert(k: Config, s: State, open: set<Path>, todo: set<nat>, e: nat, depth: nat, b: Path) {
    Shape(k, s) && Entities(k, s, open, todo, {}) && Target(s, e, depth, b) && b !in open &&
    (e in todo || e !in s.branchIds)
  }

  ghost predicate Inserted(k: Config, s: State, s': State, open: set<Path>, todo: set<nat>, e: nat) {
    Shape(k, s') && Entities(k, s', open, todo - {e}, {}) &&
    s'.codes == s.codes && s'.branchIds.Keys == s.branchIds.Keys + {e} && NeededOnly(k, s, s')
  }

  ghost predicate CanRefine(k: Config, s: State, open: set<Path>, todo: set<nat>, b: Path) {
    Shape(k, s) && Entities(k, s, open, todo, {b}) && b in s.nodes && b !in open &&
    (!s.nodes[b].hasChildren ==> |s.nodes[b].entities| > k.limit)
  }

  ghost predicate Refined(k: Config, s: State, s': State, open: set<Path>, todo: set<nat>) {
    Shape(k, s') && Entities(k, s', open, todo, {}) &&
    s'.codes == s.codes && s'.branchIds.Keys == s.branchIds.Keys && NeededOnly(k, s, s')
  }

  ghost predicate InsertedIfCan(k: Config, s: State, s': State, open: set<Path>, todo: set<nat>, e: nat, depth: nat,
        b: Path)
  {
    CanInsert(k, s, open, todo, e, depth, b) ==> Inserted(k, s, s', open, todo, e)
  }

  ghost predicate RefinedIfCan(k: Config, s: State, s': State, open: set<Path>, todo: set<nat>, b: Path) {
    CanRefine(k, s, open, todo, b) ==> Refined(k, s, s', open, todo)
  }

  lemma PutReady(k: Config, s: State, open: set<Path>, todo: set<nat>, e: nat, depth: nat, b: Path)
    requires CanInsert(k, s, open, todo, e, depth, b)
    ensures
      var s' := Put(k, s, e, b);
      s'.codes == s.codes && s'.branchIds.Keys == s.branchIds.Keys + {e} && NeededOnly(k, s, s') &&
      if s'.nodes[b].action != Refine then Inserted(k, s, s', open, todo, e)
      else CanRefine(k, s', open, todo - {e}, b)
  {
    var s' := Put(k, s, e, b);
    assert b <= s.codes[e] by { assert s.codes[e][..depth] <= s.codes[e]; }
    PutShape(k, s, e, b);
    PutEntities(k, s, open, todo, e, b);
    assert !s.nodes[b].hasChildren ==> Settled(k, s.nodes[b]);
    assert s'.branchIds.Keys == s.branchIds.Keys + {e};
    OneMoreOver(k, s', open, todo - {e}, b);
  }

  lemma OneMoreOver(k: Config, s: State, open: set<Path>, todo: set<nat>, b: Path)
    ensures Entities(k, s, open, todo, {}) ==> Entities(k, s, open, todo, {b})
  {}

  lemma PutInserts(k: Config, s: State, open: set<Path>, todo: set<nat>, e: nat, depth: nat, b: Path)
    requires b in s.nodes && Put(k, s, e, b).nodes[b].action != Refine
    ensures InsertedIfCan(k, s, Put(k, s, e, b), open, todo, e, depth, b)
  {
    if CanInsert(k, s, open, todo, e, depth, b) { PutReady(k, s, open, todo, e, depth, b); }
  }

  lemma RefiningInserts(k: Config, s: State, s': State, open: set<Path>, todo: set<nat>, e: nat, depth: nat, b: Path)
    requires b in s.nodes && Put(k, s, e, b).nodes[b].action == Refine
    requires RefinedIfCan(k, Put(k, s, e, b), s', open, todo - {e}, b)
    ensures InsertedIfCan(k, s, s', open, todo, e, depth, b)
  {
    if CanInsert(k, s, open, todo, e, depth, b) {
      PutReady(k, s, open, todo, e, depth, b);
      NeededTrans(k, s, Put(k, s, e, b), s');
    }
  }

  lemma NotSplitRefined(k: Config, s: State, open: set<Path>, todo: set<nat>, b: Path)
    requires b in s.nodes && s.nodes[b].hasChildren
    ensures RefinedIfCan(k, s, s, open, todo, b)
  {}

  ghost predicate Movable(s: State, b: Path, todo: set<nat>, e: nat) {
    e in s.codes && e in s.branchIds && b <= s.codes[e] && e !in todo
  }

  /** The first i entities were moved, the others are still to come. */
  ghost predicate MovedFirst(k: Config, s: State, open: set<Path>, todo: set<nat>, b: Path, es: seq<nat>, i: nat) {
    i <= |es| && Shape(k, s) && Entities(k, s, open + {b}, todo + ToSet(es[i..]), {}) &&
    b in s.nodes && b !in open && Distinct(es) &&
    forall e {:trigger Movable(s, b, todo, e)} :: e in es ==> Movable(s, b, todo, e)
  }

  ghost predicate Moving(k: Config, s0: State, s: State, open: set<Path>, todo: set<nat>, b: Path, es: seq<nat>,
        i: nat)
  {
    MovedFirst(k, s, open, todo, b, es, i) &&
    s.codes == s0.codes && s.branchIds.Keys == s0.branchIds.Keys && NeededOnly(k, s0, s)
  }

  ghost predicate MovingIfCan(k: Config, s0: State, s: State, open: set<Path>, todo: set<nat>, b: Path, es: seq<nat>,
        i: nat)
  {
    CanRefine(k, s0, open, todo, b) && !s0.nodes[b].hasChildren && es == s0.nodes[b].entities && i <= |es| ==>
      Moving(k, s0, s, open, todo, b, es, i)
  }

  lemma MovingStarts(k: Config, s: State, open: set<Path>, todo: set<nat>, b: Path)
    requires b in s.nodes && |b| < k.depth && !s.nodes[b].hasChildren
    ensures MovingIfCan(k, s, Split(k, s, b), open, todo, b, s.nodes[b].entities, 0)
  {
    if CanRefine(k, s, open, todo, b) {
      var es, s' := s.nodes[b].entities, Split(k, s, b);
      SplitSplits(k, s, b);
      SplitShape(k, s, s', b);
      SplitEntities(k, s, s', open, todo, b);
      assert es[0..] == es;
      assert Lists(s, b, todo);
      forall e | e in es ensures Movable(s', b, todo, e) { assert At(s, e, b); }
      SplitNeeded(k, s, s', todo, b);
    }
  }

  lemma SplitNeeded(k: Config, s: State, s': State, todo: set<nat>, b: Path)
    requires Shape(k, s) && Splits(k, s, s', b) && Lists(s, b, todo) && |s.nodes[b].entities| > k.limit
    ensures NeededOnly(k, s, s')
  {
    ListedInside(k, s, todo, b);
    assert forall p :: p in s.nodes ==> p !in Kids(b, k.fan);
  }

  lemma DropFirst(es: seq<nat>, i: nat, todo: set<nat>)
    requires i < |es| && Distinct(es) && es[i] !in todo
    ensures (todo + ToSet(es[i..])) - {es[i]} == todo + ToSet(es[i + 1..])
  {
    var rest := es[i + 1..];
    assert es[i..] == [es[i]] + rest;
    assert forall j :: 0 <= j < |rest| ==> rest[j] == es[i + 1 + j];
    assert es[i] !in rest;
  }

  lemma ReadyForKid(k: Config, s0: State, s: State, open: set<Path>, todo: set<nat>, b: Path, es: seq<nat>, i: nat,
        kid: Path)
    requires Moving(k, s0, s, open, todo, b, es, i) && i < |es| && kid !in open + {b}
    requires Target(s, es[i], |b| + 1, kid)
    ensures CanInsert(k, s, open + {b}, todo + ToSet(es[i..]), es[i], |b| + 1, kid) && es[i] in s.branchIds
  {
    assert es[i] in es && es[i..][0] == es[i] && es[i] in es[i..];
    assert Movable(s, b, todo, es[i]);
  }

  lemma StillMovable(s: State, s': State, b: Path, todo: set<nat>, es: seq<nat>)
    requires s'.codes == s.codes && s.branchIds.Keys <= s'.branchIds.Keys
    requires forall e {:trigger Movable(s, b, todo, e)} :: e in es ==> Movable(s, b, todo, e)
    ensures forall e {:trigger Movable(s', b, todo, e)} :: e in es ==> Movable(s', b, todo, e)
  {
    forall e | e in es ensures Movable(s', b, todo, e) { assert Movable(s, b, todo, e); }
  }

  lemma KeptOnMoving(k: Config, s0: State, s: State, s': State, e: nat)
    requires s.codes == s0.codes && s.branchIds.Keys == s0.branchIds.Keys && NeededOnly(k, s0, s) && e in s.branchIds
    requires s'.codes == s.codes && s'.branchIds.Keys == s.branchIds.Keys + {e} && NeededOnly(k, s, s')
    ensures s'.codes == s0.codes && s'.branchIds.Keys == s0.branchIds.Keys && NeededOnly(k, s0, s')
  {
    assert s.branchIds.Keys + {e} == s.branchIds.Keys;
    NeededTrans(k, s0, s, s');
  }

  lemma MovedOneMore(k: Config, s: State, s': State, open: set<Path>, todo: set<nat>, b: Path, es: seq<nat>, i: nat)
    requires MovedFirst(k, s, open, todo, b, es, i) && i < |es| && b in s'.nodes
    requires Inserted(k, s, s', open + {b}, todo + ToSet(es[i..]), es[i])
    ensures MovedFirst(k, s', open, todo, b, es, i + 1)
  {
    assert es[i] in es && Movable(s, b, todo, es[i]);
    DropFirst(es, i, todo);
    StillMovable(s, s', b, todo, es);
  }

  lemma MovedIfCan(k: Config, s0: State, s: State, s': State, open: set<Path>, todo: set<nat>, b: Path, es: seq<nat>,
        i: nat, kid: Path)
    requires MovingIfCan(k, s0, s, open, todo, b, es, i) && i < |es| && kid !in open + {b} && b in s'.nodes
    requires Target(s, es[i], |b| + 1, kid)
    requires InsertedIfCan(k, s, s', open + {b}, todo + ToSet(es[i..]), es[i], |b| + 1, kid)
    ensures MovingIfCan(k, s0, s', open, todo, b, es, i + 1)
  {
    if CanRefine(k, s0, open, todo, b) && !s0.nodes[b].hasChildren && es == s0.nodes[b].entities {
      ReadyForKid(k, s0, s, open, todo, b, es, i, kid);
      MovedOneMore(k, s, s', open, todo, b, es, i);
      KeptOnMoving(k, s0, s, s', es[i]);
    }
  }

  lemma RefinesIfCan(k: Config, s0: State, s: State, open: set<Path>, todo: set<nat>, b: Path, es: seq<nat>)
    requires b in s0.nodes && !s0.nodes[b].hasChildren && b in s.nodes && es == s0.nodes[b].entities
    requires MovingIfCan(k, s0, s, open, todo, b, es, |es|)
    ensures RefinedIfCan(k, s0, Clear(s, b), open, todo, b)
  {
    if CanRefine(k, s0, open, todo, b) {
      assert todo + ToSet(es[|es|..]) == todo;
      ClearKeeps(k, s, open, todo, b);
      ClearNeeded(k, s0, s, b);
    }
  }

  lemma ClearNeeded(k: Config, s0: State, s: State, b: Path)
    requires b in s.nodes && NeededOnly(k, s0, s)
    ensures NeededOnly(k, s0, Clear(s, b))
  {
    forall p | p in s.nodes && s.nodes[p].hasChildren
      ensures (p in s0.nodes && s0.nodes[p].hasChildren) || |Inside(s.codes, s.branchIds.Keys, p)| > k.limit {}
  }

  // ----- what is stranded ------------------------------------------------------------------------------

  ghost predicate NewStrand(s: State, s': State) {
    exists p, e :: Stranded(s', p, e) && !Stranded(s, p, e)
  }

  ghost predicate NoNewStrands(s: State, s': State) {
    forall p, e :: Stranded(s', p, e) ==> Stranded(s, p, e)
  }

  /** An insertion into a leaf strands something exactly when the leaf does not fit. */
  ghost predicate StrandsUnlessFits(k: Config, s: State, s': State, e: nat, b: Path)
    requires b in s.nodes
  {
    !s.nodes[b].hasChildren ==> if Fits(k, s, e, b) then NoNewStrands(s, s') else NewStrand(s, s')
  }

  ghost predicate RefiningStrands(k: Config, s: State, s': State, b: Path)
    requires b in s.nodes
  {
    var es := s.nodes[b].entities;
    !s.nodes[b].hasChildren ==> if KidsFit(k, s.codes, b, es, |es|) then NoNewStrands(s, s') else NewStrand(s, s')
  }

  lemma PutStrands(k: Config, s: State, e: nat, b: Path)
    requires b in s.nodes && !s.nodes[b].hasChildren
    ensures forall p, x :: Stranded(Put(k, s, e, b), p, x) <==> Stranded(s, p, x)
  {}

  lemma PutUnlessFits(k: Config, s: State, e: nat, b: Path)
    requires b in s.nodes && (!s.nodes[b].hasChildren ==> |s.nodes[b].entities| < k.limit)
    ensures StrandsUnlessFits(k, s, Put(k, s, e, b), e, b)
  {
    if !s.nodes[b].hasChildren { PutStrands(k, s, e, b); }
  }

  lemma RefiningUnlessFits(k: Config, s: State, s': State, e: nat, b: Path)
    requires b in s.nodes && (!s.nodes[b].hasChildren ==> |s.nodes[b].entities| >= k.limit)
    requires RefiningStrands(k, Put(k, s, e, b), s', b)
    ensures StrandsUnlessFits(k, s, s', e, b)
  {
    if !s.nodes[b].hasChildren { PutStrands(k, s, e, b); }
  }

  /** A child that got n of the entities is a leaf that lists n, or was refined at the last one. */
  ghost predicate KidAt(k: Config, s: State, b: Path, n: nat, p: Path, open: set<Path>) {
    p in s.nodes && p !in open + {b} && n <= k.limit + 1 &&
    if n <= k.limit then !s.nodes[p].hasChildren && s.nodes[p].action == None && |s.nodes[p].entities| == n
    else s.nodes[p].hasChildren
  }

  ghost predicate KidsAt(k: Config, s: State, b: Path, es: seq<nat>, i: nat, open: set<Path>)
    requires i <= |es|
  {
    forall p :: p in Kids(b, k.fan) ==> KidAt(k, s, b, Going(s.codes, es, i, p), p, open)
  }

  /** Only the child the entity goes to counts one more. */
  lemma KidsNext(k: Config, s: State, s': State, open: set<Path>, b: Path, es: seq<nat>, i: nat, kid: Path)
    requires i < |es| && KidsAt(k, s, b, es, i, open) && s'.codes == s.codes && SameElsewhere(s, s', kid)
    requires KidFor(k, s, b, es[i], kid)
    requires KidAt(k, s', b, Going(s.codes, es, i, kid) + 1, kid, open)
    ensures KidsAt(k, s', b, es, i + 1, open)
  {
    forall p | p in Kids(b, k.fan) ensures KidAt(k, s', b, Going(s'.codes, es, i + 1, p), p, open) {
      assert IsKid(b, k.fan, p) && IsKid(b, k.fan, kid);
      assert KidAt(k, s, b, Going(s.codes, es, i, p), p, open);
      if p != kid {
        SameLength(p, kid, s.codes[es[i]]);
      }
    }
  }

  lemma SameLength(p: Path, kid: Path, c: Path)
    requires |p| == |kid| && p != kid && kid <= c
    ensures !(p <= c) && !(kid <= p)
  {}

  lemma KidTook(k: Config, s: State, s': State, open: set<Path>, w: multiset<nat>, b: Path, n: nat, e: nat, kid: Path)
    requires KidAt(k, s, b, n, kid, open) && n <= k.limit && Added(k, s, s', open + {b}, w, e, kid)
    ensures KidAt(k, s', b, n + 1, kid, open)
  {}

  lemma KidsTook(k: Config, s: State, s': State, open: set<Path>, b: Path, es: seq<nat>, i: nat, w: multiset<nat>,
        kid: Path)
    requires i < |es| && KidsAt(k, s, b, es, i, open) && KidFor(k, s, b, es[i], kid)
    requires Going(s.codes, es, i, kid) <= k.limit && Added(k, s, s', open + {b}, w, es[i], kid)
    ensures KidsAt(k, s', b, es, i + 1, open)
  {
    var n := Going(s.codes, es, i, kid);
    assert KidAt(k, s, b, n, kid, open);
    KidTook(k, s, s', open, w, b, n, es[i], kid);
    KidsNext(k, s, s', open, b, es, i, kid);
  }

  /** As long as the children fit nothing is stranded but what b is about to give up; from
      then on something is. */
  ghost predicate MovingStrands(k: Config, s0: State, s: State, open: set<Path>, b: Path, es: seq<nat>, i: nat) {
    i <= |es| ==>
      if KidsFit(k, s0.codes, b, es, i) then
        KidsAt(k, s, b, es, i, open) && forall p, e :: Stranded(s, p, e) && p != b ==> Stranded(s0, p, e)
      else exists p, e :: p != b && Stranded(s, p, e) && !Stranded(s0, p, e)
  }

  lemma MovingStrandsStarts(k: Config, s: State, open: set<Path>, b: Path)
    requires Shape(k, s) && b in s.nodes && !s.nodes[b].hasChildren && b !in open && open <= s.nodes.Keys
    ensures MovingStrands(k, s, Split(k, s, b), open, b, s.nodes[b].entities, 0)
  {
    var s' := Split(k, s, b);
    SplitSplits(k, s, b);
    forall p, e | Stranded(s', p, e) && p != b ensures Stranded(s, p, e) { assert p !in Kids(b, k.fan); }
  }

  lemma {:induction false} FewerFit(k: Config, codes: map<nat, Path>, b: Path, es: seq<nat>, i: nat)
    requires i < |es| && KidsFit(k, codes, b, es, i + 1)
    ensures KidsFit(k, codes, b, es, i)
  {
    forall p | p in Kids(b, k.fan) ensures Going(codes, es, i, p) <= k.limit + 1 {
      assert Going(codes, es, i + 1, p) <= k.limit + 1;
    }
  }

  /** The next entity goes to a child that is still a leaf, or stays with one that was refined. */
  lemma MovedWhileFits(k: Config, s0: State, s: State, s': State, open: set<Path>, b: Path, es: seq<nat>, i: nat,
        w: multiset<nat>, kid: Path)
    requires i < |es| && s.codes == s0.codes && KidsFit(k, s0.codes, b, es, i)
    requires MovingStrands(k, s0, s, open, b, es, i)
    requires KidFor(k, s, b, es[i], kid) && kid !in s0.nodes
    requires Added(k, s, s', open + {b}, w, es[i], kid) && StrandsUnlessFits(k, s, s', es[i], kid)
    ensures MovingStrands(k, s0, s', open, b, es, i + 1)
  {
    if Going(s.codes, es, i, kid) <= k.limit {
      assert KidAt(k, s, b, Going(s.codes, es, i, kid), kid, open);
      assert Fits(k, s, es[i], kid);
      KidsTook(k, s, s', open, b, es, i, w, kid);
      AllAtFit(k, s', b, es, i + 1, open);
    } else {
      KidOverflows(k, s, s', open, b, es, i, w, kid);
      assert !Stranded(s0, kid, es[i]);
    }
  }

  /** Moving one entity: nothing new is stranded as long as the children fit, and from then on
      something is. */
  lemma MovedStrands(k: Config, s0: State, s: State, s': State, open: set<Path>, b: Path, es: seq<nat>, i: nat,
        w: multiset<nat>, kid: Path)
    requires i < |es| && s.codes == s0.codes && MovingStrands(k, s0, s, open, b, es, i)
    requires KidFor(k, s, b, es[i], kid) && kid !in s0.nodes
    requires Added(k, s, s', open + {b}, w, es[i], kid) && StrandsUnlessFits(k, s, s', es[i], kid)
    ensures MovingStrands(k, s0, s', open, b, es, i + 1)
  {
    if KidsFit(k, s0.codes, b, es, i) {
      MovedWhileFits(k, s0, s, s', open, b, es, i, w, kid);
    } else {
      if KidsFit(k, s0.codes, b, es, i + 1) { FewerFit(k, s0.codes, b, es, i); }
      var p, e :| p != b && Stranded(s, p, e) && !Stranded(s0, p, e);
      assert Stranded(s', p, e);
    }
  }

  /** A child that was refined at its last entity lists the next one itself. */
  lemma KidOverflows(k: Config, s: State, s': State, open: set<Path>, b: Path, es: seq<nat>, i: nat, w: multiset<nat>,
        kid: Path)
    requires i < |es| && KidsAt(k, s, b, es, i, open) && KidFor(k, s, b, es[i], kid) &&
      Going(s.codes, es, i, kid) > k.limit
    requires Added(k, s, s', open + {b}, w, es[i], kid)
    ensures !KidsFit(k, s.codes, b, es, i + 1) && kid != b && Stranded(s', kid, es[i])
  {
    assert KidAt(k, s, b, Going(s.codes, es, i, kid), kid, open);
    assert Going(s.codes, es, i + 1, kid) == Going(s.codes, es, i, kid) + 1;
  }

  lemma AllAtFit(k: Config, s: State, b: Path, es: seq<nat>, i: nat, open: set<Path>)
    requires i <= |es| && KidsAt(k, s, b, es, i, open)
    ensures KidsFit(k, s.codes, b, es, i)
  {
    forall p | p in Kids(b, k.fan) ensures Going(s.codes, es, i, p) <= k.limit + 1 {
      assert KidAt(k, s, b, Going(s.codes, es, i, p), p, open);
    }
  }

  lemma MovingStrandsEnds(k: Config, s0: State, s: State, open: set<Path>, b: Path, es: seq<nat>)
    requires b in s0.nodes && b in s.nodes && es == s0.nodes[b].entities && MovingStrands(k, s0, s, open, b, es, |es|)
    ensures RefiningStrands(k, s0, Clear(s, b), b)
  {
    if KidsFit(k, s0.codes, b, es, |es|) {
      assert forall p, e :: Stranded(Clear(s, b), p, e) ==> p != b && Stranded(s, p, e);
    } else {
      var p, e :| p != b && Stranded(s, p, e) && !Stranded(s0, p, e);
      assert Stranded(Clear(s, b), p, e);
    }
  }

  // ----- lost entities ------------------------------------------------------------------------------------

  /** e is in the tree, but only a branch that has children lists it. */
  ghost predicate Lost(s: State, e: nat) {
    e in s.branchIds && Listings(s, {})[e] == 1 && exists p :: Stranded(s, p, e)
  }

  /** No leaf lists a lost entity. */
  lemma LostFromLeaves(s: State, e: nat, q: Path)
    requires Lost(s, e) && q in s.nodes && !s.nodes[q].hasChildren
    ensures e !in s.nodes[q].entities
  {
    var p :| Stranded(s, p, e);
    if e in s.nodes[q].entities { TwoListings(s, p, q, e); }
  }

  /** Where entities are recorded, the lost ones are those that are stranded. */
  lemma StrandedIsLost(k: Config, s: State, e: nat)
    requires Recorded(k, s)
    ensures Lost(s, e) <==> exists p :: Stranded(s, p, e)
  {
    RecordedListings(k, s);
    if p :| Stranded(s, p, e) {
      assert Lists(s, p, {});
      assert At(s, e, p);
    }
  }

  /** A tree in which entities are recorded is in order exactly when none is lost. */
  lemma InOrderIffNoneLost(k: Config, s: State)
    requires Recorded(k, s)
    ensures Inv(k, s) <==> forall e :: !Lost(s, e)
  {
    CleanIsUnstranded(s);
    if forall e :: !Lost(s, e) {
      forall p, e ensures !Stranded(s, p, e) { StrandedIsLost(k, s, e); }
    } else {
      var e :| Lost(s, e);
      StrandedIsLost(k, s, e);
    }
  }
}
