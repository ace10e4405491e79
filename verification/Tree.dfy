/** The hashed tree: insertion with refinement, removal with coarsening, update. */
module Tree {
  import opened Base
  import opened MortonId
  import opened TreeState
  import opened TreeCoarsen
  import opened TreeLists
  import opened TreeMoves
  import opened TreeRoom

  /** Every branch stays, and only those on the way to c may change. */
  ghost predicate OnTheWayOnly(before: State, after: State, c: Path) {
    forall p :: p in before.nodes ==> p in after.nodes && (p <= c || after.nodes[p] == before.nodes[p])
  }

  ghost predicate LeafFor(s: State, e: nat, b: Path) {
    e in s.codes && b in s.nodes && !s.nodes[b].hasChildren && b <= s.codes[e]
  }

  /** The leaf on e's way had a coarsening requested that was not carried out, and still
      has room: inserting e there finds that stale request. */
  ghost predicate StaleOnWay(k: Config, s: State, e: nat) {
    exists b :: LeafFor(s, e, b) && s.nodes[b].action == Coarsen && |s.nodes[b].entities| < k.limit
  }

  /** The leaf on e's way has room, or its children will. */
  ghost predicate FitsBelow(k: Config, s: State, e: nat) {
    forall b :: LeafFor(s, e, b) ==> Fits(k, s, e, b)
  }

  /** Under a strict policy there always is room. */
  lemma StrictFits(k: Config, s: State, e: nat)
    requires k.strict && Recorded(k, s)
    ensures FitsBelow(k, s, e)
  {
    forall b | LeafFor(s, e, b) ensures Fits(k, s, e, b) { assert Settled(k, s.nodes[b]); }
  }

  // ----- what an insertion may rely on, and what it does --------------------------------------------

  /** Any tree whose branches list what is in their regions. */
  ghost predicate CanAdd(k: Config, s: State, e: nat) {
    k.fan > 0 && e in s.codes && Loose(k, s, {}, {})
  }

  /** With e added, full-depth cells hold no more than a leaf may. */
  ghost predicate RoomFor(k: Config, s: State, e: nat) {
    Roomy(k, s.codes, Listings(s, {}) + multiset{e})
  }

  lemma ReadyToAdd(k: Config, s: State, e: nat)
    requires k.fan > 0 && Recorded(k, s) && e in s.codes && e !in s.branchIds
    ensures CanAdd(k, s, e)
    ensures Uncrowded(k, s.codes, s.branchIds.Keys + {e}) ==> RoomFor(k, s, e)
  {
    RecordedIsLoose(k, s);
    RecordedListings(k, s);
    if Uncrowded(k, s.codes, s.branchIds.Keys + {e}) { UncrowdedIsRoomy(k, s.codes, s.branchIds.Keys + {e}); }
    assert multiset(s.branchIds.Keys + {e}) == multiset(s.branchIds.Keys) + multiset{e};
  }

  /** e is listed once more, and every other entity as often as before. */
  ghost predicate ListedMore(k: Config, s: State, s': State, e: nat) {
    Loose(k, s', {}, {}) && s'.codes == s.codes && Listings(s', {}) == Listings(s, {}) + multiset{e} &&
    s.branchIds.Keys + {e} <= s'.branchIds.Keys &&
    (forall x :: x in s'.branchIds ==> x in s.branchIds || x in Listings(s', {})) &&
    NoNewRequests(s, s') && DepthReached(s, s') && forall p, x :: Stranded(s, p, x) ==> Stranded(s', p, x)
  }

  /** What is lost stays lost: a branch with children is not refined again. */
  lemma LostStays(k: Config, s: State, s': State, e: nat, x: nat)
    requires ListedMore(k, s, s', e) && Lost(s, x) && x != e
    ensures Lost(s', x)
  {
    var p :| Stranded(s, p, x);
    assert Stranded(s', p, x);
  }

  /** A leaf with room just adds e to its list; a full leaf gets children. */
  ghost predicate LeafTook(k: Config, s: State, s': State, e: nat, b: Path)
    requires b in s.nodes
  {
    if |s.nodes[b].entities| < k.limit then s' == Put(k, s, e, b)
    else b in s'.nodes && s'.nodes[b] == Node(true, [], None)
  }

  /** Where entities are recorded, e joins them. What was lost before still is, and nothing
      else is exactly when the leaf or its children have room. */
  ghost predicate Joined(k: Config, s: State, s': State, e: nat) {
    Recorded(k, s') && s'.branchIds.Keys == s.branchIds.Keys + {e} && NeededOnly(k, s, s') &&
    (forall x :: Lost(s, x) ==> Lost(s', x)) &&
    (FitsBelow(k, s, e) <==> forall x :: Lost(s', x) ==> Lost(s, x))
  }

  /** So a tree in order stays so exactly when there is that room. */
  lemma InOrderIfFits(k: Config, s: State, s': State, e: nat)
    requires Inv(k, s) && Joined(k, s, s', e)
    ensures Inv(k, s') <==> FitsBelow(k, s, e)
  {
    InOrderIffNoneLost(k, s);
    InOrderIffNoneLost(k, s');
  }

  lemma ReadyToInsert(k: Config, s: State, e: nat) returns (b: Path)
    requires CanAdd(k, s, e)
    ensures LeafFor(s, e, b) && forall x :: LeafFor(s, e, x) ==> x == b
    ensures CanReach(k, s, {}, Listings(s, {}) + multiset{e}, e, s.maxDepth, b)
    ensures Recorded(k, s) && e !in s.branchIds ==> CanInsert(k, s, {}, {}, e, s.maxDepth, b)
  {
    var c := s.codes[e];
    assert CodeOk(k, c);
    b := LeafOnWayTo(k, s, c);
    forall x | LeafFor(s, e, x) ensures x == b { LeafUnique(k, s, c, x, b); }
  }

  /** What an insertion with room for it does. */
  ghost predicate EnteredWell(k: Config, s: State, s': State, e: nat)
    requires e in s.codes
  {
    ListedMore(k, s, s', e) && OnTheWayOnly(s, s', s.codes[e]) &&
    (forall b :: LeafFor(s, e, b) ==> LeafTook(k, s, s', e, b)) &&
    (Recorded(k, s) && e !in s.branchIds ==> Joined(k, s, s', e))
  }

  lemma InsertDone(k: Config, s: State, s': State, e: nat, b: Path)
    requires CanAdd(k, s, e) && LeafFor(s, e, b) && forall x :: LeafFor(s, e, x) ==> x == b
    requires AddedWell(k, s, s', {}, {}, Listings(s, {}) + multiset{e}, e, s.maxDepth, b)
    requires Recorded(k, s) && e !in s.branchIds ==> CanInsert(k, s, {}, {}, e, s.maxDepth, b)
    ensures EnteredWell(k, s, s', e)
    ensures Tight(k, s, {}, {}) ==> Tight(k, s', {}, {}) && RoomFor(k, s, e)
  {
    InsertLists(k, s, s', e, b);
    if Recorded(k, s) && e !in s.branchIds { InsertJoins(k, s, s', e, b); }
    if Tight(k, s, {}, {}) { TightIsRoomy(k, s'); }
  }

  lemma InsertLists(k: Config, s: State, s': State, e: nat, b: Path)
    requires LeafFor(s, e, b) && Loose(k, s, {}, {}) && Added(k, s, s', {}, Listings(s, {}) + multiset{e}, e, b)
    ensures ListedMore(k, s, s', e) && OnTheWayOnly(s, s', s.codes[e]) && LeafTook(k, s, s', e, b)
  {
    ListedKeys(s, s', Listings(s, {}), e);
    BelowAll(k, s, b);
    forall p | p in s.nodes && b <= p ensures p == b { assert p !in BelowSet(s, b); }
  }

  lemma ListedKeys(s: State, s': State, m: multiset<nat>, e: nat)
    requires (forall x :: x in s'.branchIds ==> x in s.branchIds || x in m + multiset{e}) &&
      Listings(s', {}) == m + multiset{e}
    ensures forall x :: x in s'.branchIds ==> x in s.branchIds || x in Listings(s', {})
  {}

  lemma InsertJoins(k: Config, s: State, s': State, e: nat, b: Path)
    requires Recorded(k, s) && e !in s.branchIds && LeafFor(s, e, b) && (forall x :: LeafFor(s, e, x) ==> x == b)
    requires ListedMore(k, s, s', e) && OnTheWayOnly(s, s', s.codes[e]) && LeafTook(k, s, s', e, b)
    requires InsertedIfCan(k, s, s', {}, {}, e, s.maxDepth, b) && StrandsUnlessFits(k, s, s', e, b)
    requires CanInsert(k, s, {}, {}, e, s.maxDepth, b) && SameElsewhere(s, s', b)
    ensures Joined(k, s, s', e)
  {
    assert {} - {e} == {};
    RootStays(k, s, s', b);
    JoinedLost(k, s, s', e, b);
  }

  /** A root that has children is left alone; one that gets them is cleared. */
  lemma RootStays(k: Config, s: State, s': State, b: Path)
    requires Shape(k, s) && b in s.nodes && !s.nodes[b].hasChildren && SameElsewhere(s, s', b)
    ensures s.nodes[[]].hasChildren ==> s'.nodes[[]] == s.nodes[[]]
  {
    assert b <= [] ==> b == [];
  }

  lemma JoinedLost(k: Config, s: State, s': State, e: nat, b: Path)
    requires Recorded(k, s) && Recorded(k, s') && e !in s.branchIds && LeafFor(s, e, b)
    requires (forall x :: LeafFor(s, e, x) ==> x == b) && (forall p, x :: Stranded(s, p, x) ==> Stranded(s', p, x))
    requires StrandsUnlessFits(k, s, s', e, b)
    ensures forall x :: Lost(s, x) ==> Lost(s', x)
    ensures FitsBelow(k, s, e) <==> forall x :: Lost(s', x) ==> Lost(s, x)
  {
    forall x ensures Lost(s, x) <==> exists p :: Stranded(s, p, x) { StrandedIsLost(k, s, x); }
    forall x ensures Lost(s', x) <==> exists p :: Stranded(s', p, x) { StrandedIsLost(k, s', x); }
    if !Fits(k, s, e, b) {
      var p, x :| Stranded(s', p, x) && !Stranded(s, p, x);
      if q :| Stranded(s, q, x) { StrandedOnce(k, s', p, q, x); }
      assert Lost(s', x) && !Lost(s, x);
    }
  }

  lemma StrandedOnce(k: Config, s: State, p: Path, q: Path, x: nat)
    requires Recorded(k, s) && Stranded(s, p, x) && Stranded(s, q, x)
    ensures p == q
  {
    assert Lists(s, p, {}) && Lists(s, q, {});
    assert At(s, x, p) && At(s, x, q);
  }

  class TreeTopology {
    var nodes: map<Path, Node>
    var branchMap: set<Path>
    var maxDepth: nat
    var codes: map<nat, Path>
    var branchIds: map<nat, Path>

    ghost function View(): State
      reads this
    {
      State(nodes, branchMap, maxDepth, codes, branchIds)
    }

    constructor (k: Config, codes: map<nat, Path>)
      requires forall e :: e in codes ==> CodeOk(k, codes[e])
      ensures Inv(k, View()) && View() == State(map[[] := Node(false, [], None)], {[]}, 0, codes, map[])
    {
      nodes, branchMap, maxDepth := map[[] := Node(false, [], None)], {[]}, 0;
      this.codes, branchIds := codes, map[];
    }

    /** Pops levels off an id until the hash map knows it. */
    method FindParent(k: Config, id: Path) returns (b: Path)
      requires Shape(k, View())
      ensures b in nodes && b <= id && (|b| < |id| ==> id[..|b| + 1] !in nodes)
    {
      b := id;
      while b !in branchMap
        invariant b <= id && (|b| < |id| ==> id[..|b| + 1] !in nodes)
        decreases |b|
      {
        assert b != [];
        assert id[..|b|] == b;
        b := b[..|b| - 1];
      }
    }

    /** Gives b its child array and enters the children into the hash map. */
    method IntoBranch(k: Config, b: Path)
      requires b in nodes && !nodes[b].hasChildren
      modifies this
      ensures View() == Split(k, old(View()), b)
    {
      nodes := nodes[b := nodes[b].(hasChildren := true)];
      ghost var nodes0, map0 := nodes, branchMap;
      var i := 0;
      while i < k.fan
        invariant 0 <= i <= k.fan
        invariant nodes == WithKids(nodes0, b, i) && branchMap == map0 + Kids(b, i)
        invariant maxDepth == old(maxDepth) && codes == old(codes) && branchIds == old(branchIds)
      {
        OneMoreKid(nodes0, b, i);
        nodes := nodes[b + [i] := Node(false, [], None)];
        branchMap := branchMap + {b + [i]};
        i := i + 1;
      }
      if maxDepth < |b| + 1 { maxDepth := |b| + 1; }
    }

    /** Puts an entity into the branch that is found for it; if that got too full it is
        refined. The result is false when the requested action is one that cannot follow an
        insertion; there is no room when a refinement runs out of levels. */
    method InsertAt(k: Config, e: nat, depth: nat, ghost b: Path, ghost open: set<Path>, ghost todo: set<nat>,
          ghost w: multiset<nat>)
      returns (ok: bool, room: bool)
      requires CanReach(k, View(), open, w, e, depth, b)
      modifies this
      ensures room ==> AddedWell(k, old(View()), View(), open, todo, w, e, depth, b)
      ensures room ==> (ok <==> (old(nodes[b]).action == Coarsen ==> |old(nodes[b]).entities| >= k.limit))
      ensures Roomy(k, old(codes), w) ==> room
      decreases k.depth - |b|, 3
    {
      var found := FindParent(k, codes[e][..depth]);
      SameWay(k, View(), codes[e][..depth], found, b);
      ghost var s0 := View();
      branchIds := branchIds[e := found];
      var n := nodes[found];
      var entities := n.entities + [e];
      nodes := nodes[found := Node(n.hasChildren, entities, if |entities| > k.limit then Refine else n.action)];
      assert View() == Put(k, s0, e, b);
      if nodes[found].action == Refine {
        assert Tidy(s0, b, {});
        SplitIsNext(k, s0, open, w, e, depth, b);
        room := RefineLeaf(k, found, open, todo - {e}, w);
        if room { RefiningWell(k, s0, View(), open, todo, w, e, depth, b); }
        ok := true;
      } else {
        PutWell(k, s0, open, todo, w, e, depth, b);
        ok, room := nodes[found].action == None, true;
      }
    }

    /** Inserts an entity into the leaf on its way. From a tight tree refinement runs out of
        levels exactly when too many entities share a full-depth cell. */
    method Insert(k: Config, e: nat) returns (ok: bool, room: bool)
      requires CanAdd(k, View(), e)
      modifies this
      ensures room ==> EnteredWell(k, old(View()), View(), e) && (ok <==> !old(StaleOnWay(k, View(), e)))
      ensures old(RoomFor(k, View(), e)) ==> room
      ensures old(Tight(k, View(), {}, {})) && room ==> Tight(k, View(), {}, {}) && old(RoomFor(k, View(), e))
    {
      ghost var s0 := View();
      ghost var b := ReadyToInsert(k, s0, e);
      ok, room := InsertAt(k, e, maxDepth, b, {}, {}, Listings(s0, {}) + multiset{e});
      if room { InsertDone(k, s0, View(), e, b); }
    }

    method MoveOne(k: Config, b: Path, es: seq<nat>, i: nat, ghost s0: State, ghost open: set<Path>,
          ghost todo: set<nat>, ghost w: multiset<nat>)
      returns (room: bool)
      requires i < |es| && Carries(k, s0, View(), open, todo, w, b, es, i)
      modifies this
      ensures room ==> Carries(k, s0, View(), open, todo, w, b, es, i + 1)
      ensures Roomy(k, s0.codes, w) ==> room
      decreases k.depth - |b|, 0
    {
      ghost var s := View();
      ghost var kid := CarryTo(k, s0, s, open, w, b, es, i);
      var ok;
      ok, room := InsertAt(k, es[i], |b| + 1, kid, open + {b}, todo + ToSet(es[i..]), w);
      assert room ==> ok;
      if room { CarryNext(k, s0, s, View(), open, todo, b, es, i, w, kid); }
    }

    method MoveAll(k: Config, b: Path, es: seq<nat>, ghost s0: State, ghost open: set<Path>, ghost todo: set<nat>,
          ghost w: multiset<nat>)
      returns (room: bool)
      requires Carries(k, s0, View(), open, todo, w, b, es, 0)
      modifies this
      ensures room ==> Carries(k, s0, View(), open, todo, w, b, es, |es|)
      ensures Roomy(k, s0.codes, w) ==> room
      decreases k.depth - |b|, 1
    {
      room := true;
      var i := 0;
      while i < |es|
        invariant 0 <= i <= |es| && Carries(k, s0, View(), open, todo, w, b, es, i) && room
      {
        room := MoveOne(k, b, es, i, s0, open, todo, w);
        if !room { return; }
        i := i + 1;
      }
      assert i == |es|;
    }

    /** Makes b a branch and moves its entities into the children; a branch that has children
        already is left as it is. At full depth there is no room. */
    method RefineLeaf(k: Config, b: Path, ghost open: set<Path>, ghost todo: set<nat>, ghost w: multiset<nat>)
      returns (room: bool)
      requires CanSplit(k, View(), open, w, b)
      modifies this
      ensures room ==> RebuiltWell(k, old(View()), View(), open, todo, w, b)
      ensures Roomy(k, old(codes), w) ==> room
      decreases k.depth - |b|, 2
    {
      if nodes[b].hasChildren {
        NotSplitWell(k, View(), open, todo, w, b);
        return true;
      }
      ghost var s0 := View();
      if |b| == k.depth {
        if Roomy(k, codes, w) { RoomBelow(k, s0, open, {b}, w, b); }
        return false;
      }
      CarryStarts(k, s0, open, todo, w, b);
      var es := nodes[b].entities;
      IntoBranch(k, b);
      room := MoveAll(k, b, es, s0, open, todo, w);
      if !room { return; }
      CarryEnds(k, s0, View(), open, todo, w, b, es);
      nodes := nodes[b := Node(nodes[b].hasChildren, [], None)];
    }

    /** Every entity has moved: the branches are freed and all entities inserted again. The
        root keeps what it listed, so the tree is in order afterwards exactly when that
        was nothing. Refinement runs out of levels exactly when what the root listed and
        the entities inserted again are too many for some full-depth cell, unless the root
        listed more than a leaf may to begin with. */
    method UpdateAll(k: Config, newCodes: map<nat, Path>, order: seq<nat>) returns (ok: bool, room: bool)
      requires k.fan > 0 && Recorded(k, View())
      requires Distinct(order) && forall e :: e in order ==> e in newCodes
      requires forall e :: e in nodes[[]].entities ==> e in order
      requires forall e :: e in newCodes ==> CodeOk(k, newCodes[e])
      modifies this
      ensures room ==> Updated(k, old(nodes[[]]), newCodes, order, View())
      ensures room ==> if old(nodes[[]]).entities == [] then Inv(k, View()) else !Recorded(k, View())
      ensures room ==>
        (ok <==> (old(nodes[[]]).action == Coarsen ==> order == [] || |old(nodes[[]]).entities| >= k.limit))
      ensures Roomy(k, newCodes, multiset(old(nodes[[]]).entities) + multiset(order)) ==> room
      ensures room && |old(nodes[[]]).entities| <= k.limit ==>
        Roomy(k, newCodes, multiset(old(nodes[[]]).entities) + multiset(order))
    {
      ghost var root := nodes[[]];
      assert Lists(View(), [], {}) && (root.hasChildren || Settled(k, root));
      nodes := map[[] := nodes[[]].(hasChildren := false)];
      branchMap, maxDepth, codes, branchIds := {[]}, 0, newCodes, map[];
      ResetStarts(k, View(), root);
      ghost var s0 := View();
      StrictRoom(k, newCodes, multiset(root.entities) + multiset(order));
      ok, room := Refill(Strict(k), order, root);
      if room { RefillDone(k, s0, View(), root, order); }
    }

    /** Inserts all entities, starting with a tree that is a single leaf. */
    method Refill(k: Config, order: seq<nat>, ghost root: Node) returns (ok: bool, room: bool)
      requires k.strict && CanRefill(k, View(), root, order)
      modifies this
      ensures room ==> Refilling(k, old(View()), View(), root, order, |order|)
      ensures room ==> (ok <==> order == [] || !Stale(k, root))
      ensures Roomy(k, old(codes), multiset(root.entities) + multiset(order)) ==> room
    {
      ok, room := true, true;
      var i := 0;
      ghost var s0 := View();
      RefillStarts(k, s0, root, order);
      while i < |order|
        invariant 0 <= i <= |order| && Refilling(k, s0, View(), root, order, i) && room
        invariant ok <==> i == 0 || !Stale(k, root)
      {
        var one;
        one, room := RefillOne(k, order, i, s0, root);
        if !room { return; }
        ok := ok && one;
        i := i + 1;
      }
      assert i == |order|;
    }

    method RefillOne(k: Config, order: seq<nat>, i: nat, ghost s0: State, ghost root: Node)
      returns (ok: bool, room: bool)
      requires i < |order| && Refilling(k, s0, View(), root, order, i)
      modifies this
      ensures room ==> Refilling(k, s0, View(), root, order, i + 1)
      ensures room ==> if i == 0 then ok <==> !Stale(k, root) else !Stale(k, root) ==> ok
      ensures Roomy(k, s0.codes, multiset(root.entities) + multiset(order)) ==> room
    {
      ghost var s := View();
      RefillNext(k, s0, s, root, order, i);
      ok, room := Insert(k, order[i]);
      if room { RefillInserted(k, s0, s, View(), root, order, i); }
    }

    // ----- removing ------------------------------------------------------------------------------------

    /** Takes an entity off the branch that lists it. If that has asked to be coarser, now or
        at an earlier removal, and the policy agrees, the parent becomes a leaf, which brings
        back all that is lost at it or below; otherwise the request stays. */
    method Remove(k: Config, e: nat, wantsCoarser: bool, agrees: bool)
      requires Recorded(k, View()) && e in branchIds && AgreesOnlyWithRoom(k, View(), e, agrees)
      modifies this
      ensures Recorded(k, View()) && codes == old(codes) && branchIds.Keys == old(branchIds.Keys) - {e}
      ensures old(branchIds[e]) in old(nodes) && Removed(k, old(View()), View(), e, wantsCoarser, agrees)
      ensures forall x :: Lost(View(), x) <==> StillLost(old(View()), e, wantsCoarser, agrees, x)
      ensures old(Inv(k, View())) ==> Inv(k, View())
    {
      ghost var s0 := View();
      TakeKeeps(k, s0, e, wantsCoarser);
      var b := branchIds[e];
      TakeOff(e, wantsCoarser);
      assert View() == Take(s0, e, wantsCoarser);
      if nodes[b].action == Coarsen && b != [] && agrees {
        ReadyToCoarsen(k, s0, e, wantsCoarser);
        CoarsenBranch(k, b[..|b| - 1]);
      }
      RemovedLost(k, s0, View(), e, wantsCoarser, agrees);
    }

    method TakeOff(e: nat, wantsCoarser: bool)
      requires e in branchIds && branchIds[e] in nodes && e in nodes[branchIds[e]].entities
      modifies this
      ensures View() == Take(old(View()), e, wantsCoarser)
    {
      var b := branchIds[e];
      var n := nodes[b];
      var rest := Drop(n.entities, e);
      nodes := nodes[b := Node(n.hasChildren, rest, AfterRemoval(n.action, wantsCoarser))];
      branchIds := branchIds - {e};
    }

    /** An entity has moved to code c. If its leaf no longer holds it, it is taken out and
        inserted again; the removal does not look at where it is now. */
    method Update(k: Config, e: nat, c: Path, wantsCoarser: bool, agrees: bool)
      returns (ok: bool, room: bool, ghost mid: State)
      requires k.fan > 0 && Recorded(k, View()) && e in branchIds && CodeOk(k, c)
      requires AgreesOnlyWithRoom(k, View(), e, agrees)
      modifies this
      ensures old(branchIds[e]) <= c ==>
        ok && room && View() == old(View()).(codes := old(codes)[e := c]) && Recorded(k, View())
      ensures !(old(branchIds[e]) <= c) ==>
        old(branchIds[e]) in old(nodes) && Removed(k, old(View()), mid, e, wantsCoarser, agrees)
      ensures !(old(branchIds[e]) <= c) && room ==>
        var s := mid.(codes := old(codes)[e := c]);
        EnteredWell(k, s, View(), e) && Joined(k, s, View(), e) && (ok <==> !StaleOnWay(k, s, e))
      ensures Uncrowded(k, old(codes)[e := c], old(branchIds).Keys) ==> room
    {
      mid := View();
      var b := branchIds[e];
      InTree(k, View(), e);
      if c[..|b|] == b {
        MoveInside(k, View(), e, c);
        codes := codes[e := c];
        return true, true, mid;
      }
      Remove(k, e, wantsCoarser, agrees);
      mid := View();
      MoveOutside(k, View(), e, c);
      codes := codes[e := c];
      assert branchIds.Keys + {e} == old(branchIds.Keys);
      ReadyToAdd(k, View(), e);
      ok, room := Insert(k, e);
    }

    method Drop(q: seq<nat>, e: nat) returns (r: seq<nat>)
      requires e in q
      ensures r == Dropped(q, e)
    {
      var i := 0;
      while q[i] != e
        invariant 0 <= i < |q| && e in q[i..] && Dropped(q, e) == q[..i] + Dropped(q[i..], e)
        decreases |q| - i
      {
        DroppedLater(q, e, i);
        i := i + 1;
      }
      r := q[..i] + q[i + 1..];
      assert q[i..][1..] == q[i + 1..];
    }

    /** p takes over what c lists. */
    method TakeOver(k: Config, p: Path, c: Path)
      requires p in nodes && c in nodes && p != c
      modifies this
      ensures View() == TakenOver(k, old(View()), p, old(nodes[c].entities))
    {
      var es := nodes[c].entities;
      var j := 0;
      while j < |es|
        invariant 0 <= j <= |es| && View() == TakenOver(k, old(View()), p, es[..j])
      {
        var n := nodes[p];
        var entities := n.entities + [es[j]];
        nodes := nodes[p := Node(n.hasChildren, entities, if |entities| > k.limit then Refine else n.action)];
        branchIds := branchIds[es[j] := p];
        assert es[..j + 1][..j] == es[..j];
        j := j + 1;
      }
      assert es[..j] == es;
    }

    /** p takes over everything below b. */
    method GatherBelow(k: Config, p: Path, b: Path, ghost s0: State, ghost done: set<Path>, ghost erased: set<Path>)
      requires Recorded(k, s0) && TakenBelow(s0, View(), p, done, erased) && b in s0.nodes && p <= b
      requires BelowSet(s0, b) !! done
      modifies this
      ensures TakenBelow(s0, View(), p, done + BelowSet(s0, b), erased + BelowSet(s0, b))
      decreases k.depth - |b|
    {
      BelowAll(k, s0, b);
      BelowNothing(s0, b);
      assert done + {} == done && erased + {} == erased;
      if !nodes[b].hasChildren {
        return;
      }
      var i := 0;
      while i < k.fan
        invariant 0 <= i <= k.fan
        invariant TakenBelow(s0, View(), p, done + BelowUpTo(s0, b, i), erased + BelowUpTo(s0, b, i))
      {
        GatherChild(k, p, b, i, s0, done, erased);
        i := i + 1;
      }
      assert i == k.fan;
    }

    method GatherChild(k: Config, p: Path, b: Path, i: nat, ghost s0: State, ghost done: set<Path>,
          ghost erased: set<Path>)
      requires Recorded(k, s0) && b in s0.nodes && s0.nodes[b].hasChildren && p <= b && i < k.fan
      requires BelowSet(s0, b) !! done
      requires TakenBelow(s0, View(), p, done + BelowUpTo(s0, b, i), erased + BelowUpTo(s0, b, i))
      modifies this
      ensures TakenBelow(s0, View(), p, done + BelowUpTo(s0, b, i + 1), erased + BelowUpTo(s0, b, i + 1))
      decreases k.depth - |b|, 0
    {
      var c := b + [i];
      ChildIsNew(k, s0, p, b, i, done);
      ghost var done', erased' := done + BelowUpTo(s0, b, i), erased + BelowUpTo(s0, b, i);
      TakenBelowChild(k, s0, View(), p, done', erased', c);
      assert nodes[c] == s0.nodes[c];
      TakeOver(k, p, c);
      GatherBelow(k, p, c, s0, done' + {c}, erased');
      BelowNext(s0, b, i);
      assert done' + {c} + BelowSet(s0, c) == done + BelowUpTo(s0, b, i + 1);
      assert erased' + BelowSet(s0, c) + {c} == erased + BelowUpTo(s0, b, i + 1);
      branchMap := branchMap - {c};
    }

    /** A branch becomes a leaf that holds everything below it. */
    method CoarsenBranch(k: Config, p: Path)
      requires Recorded(k, View()) && p in nodes && nodes[p].hasChildren
      requires k.strict ==> |Inside(codes, branchIds.Keys, p)| <= k.limit
      modifies this
      ensures Recorded(k, View()) && Coarsened(old(View()), View(), p)
    {
      ghost var s0 := View();
      TakenBelowStart(k, s0, p);
      GatherBelow(k, p, p, s0, {}, {});
      assert {} + BelowSet(s0, p) == BelowSet(s0, p);
      CoarsenKeeps(k, s0, View(), p);
      IntoLeaf(p);
    }

    /** Frees the child arrays below p and clears its request. */
    method IntoLeaf(p: Path)
      requires p in nodes
      modifies this
      ensures View() == AsLeaf(old(View()), p)
    {
      nodes := map q | q in nodes && !(p <= q && p != q) ::
        if q == p then Node(false, nodes[p].entities, None) else nodes[q];
    }
  }

  /** A removal asks its leaf whether it wants to be coarser; agrees is the policy's answer
      for the parent. */
  ghost predicate Removed(k: Config, s: State, s': State, e: nat, wantsCoarser: bool, agrees: bool)
    requires e in s.branchIds && s.branchIds[e] in s.nodes
  {
    var taken := Take(s, e, wantsCoarser);
    if Coarsens(s, e, wantsCoarser, agrees) then Coarsened(taken, s', Parent(s.branchIds[e])) else s' == taken
  }

  ghost predicate Coarsens(s: State, e: nat, wantsCoarser: bool, agrees: bool)
    requires e in s.branchIds && s.branchIds[e] in s.nodes
    ensures Coarsens(s, e, wantsCoarser, agrees) ==> s.branchIds[e] != []
  {
    (wantsCoarser || s.nodes[s.branchIds[e]].action == Coarsen) && s.branchIds[e] != [] && agrees
  }

  /** x was lost, and not below the branch that becomes a leaf. */
  ghost predicate StillLost(s: State, e: nat, wantsCoarser: bool, agrees: bool, x: nat)
    requires e in s.branchIds && s.branchIds[e] in s.nodes
  {
    Lost(s, x) && x != e && !(Coarsens(s, e, wantsCoarser, agrees) && Parent(s.branchIds[e]) <= s.branchIds[x])
  }

  lemma RemovedLost(k: Config, s: State, s': State, e: nat, wantsCoarser: bool, agrees: bool)
    requires Recorded(k, s) && Recorded(k, s') && e in s.branchIds && s.branchIds[e] in s.nodes
    requires Removed(k, s, s', e, wantsCoarser, agrees)
    ensures forall x :: Lost(s', x) <==> StillLost(s, e, wantsCoarser, agrees, x)
    ensures Inv(k, s) ==> Inv(k, s')
  {
    TakeKeeps(k, s, e, wantsCoarser);
    if Coarsens(s, e, wantsCoarser, agrees) {
      CoarseningRecovers(Take(s, e, wantsCoarser), s', Parent(s.branchIds[e]));
    }
    forall x ensures Lost(s', x) <==> StillLost(s, e, wantsCoarser, agrees, x) {
      StrandedIsLost(k, s', x);
      StrandedIsLost(k, s, x);
      StrandedAt(k, s, x);
    }
    InOrderIffNoneLost(k, s);
    InOrderIffNoneLost(k, s');
  }

  lemma StrandedAt(k: Config, s: State, x: nat)
    requires Recorded(k, s)
    ensures forall p :: Stranded(s, p, x) ==> x in s.branchIds && s.branchIds[x] == p
  {
    forall p | Stranded(s, p, x) ensures x in s.branchIds && s.branchIds[x] == p {
      assert Lists(s, p, {});
      assert At(s, x, p);
    }
  }

  /** A strict policy lets a parent be coarsened only if a leaf has room for all below it. */
  ghost predicate AgreesOnlyWithRoom(k: Config, s: State, e: nat, agrees: bool)
    requires e in s.branchIds
  {
    k.strict && agrees && s.branchIds[e] != [] ==>
      |Inside(s.codes, s.branchIds.Keys - {e}, Parent(s.branchIds[e]))| <= k.limit
  }

  lemma ReadyToCoarsen(k: Config, s: State, e: nat, wantsCoarser: bool)
    requires Recorded(k, s) && e in s.branchIds && s.branchIds[e] != []
    requires AgreesOnlyWithRoom(k, s, e, true) && s.branchIds[e] in s.nodes
    ensures
      var taken, p := Take(s, e, wantsCoarser), Parent(s.branchIds[e]);
      Recorded(k, taken) && p in taken.nodes && taken.nodes[p].hasChildren &&
      (k.strict ==> |Inside(taken.codes, taken.branchIds.Keys, p)| <= k.limit)
  {
    TakeKeeps(k, s, e, wantsCoarser);
    assert HasParent(k, s, s.branchIds[e]);
    assert (s.branchIds - {e}).Keys == s.branchIds.Keys - {e};
  }

  /** Nothing in the tree depends on where an entity outside the tree is. */
  lemma MoveOutside(k: Config, s: State, e: nat, c: Path)
    requires Recorded(k, s) && e !in s.branchIds && CodeOk(k, c)
    ensures Recorded(k, s.(codes := s.codes[e := c]))
  {
    MoveShape(k, s, e, c);
    var s' := s.(codes := s.codes[e := c]);
    forall p | p in s'.nodes ensures Lists(s', p, {}) {
      assert Lists(s, p, {});
      forall x | x in s'.nodes[p].entities ensures At(s', x, p) { assert At(s, x, p); }
    }
    forall x | x in s'.branchIds ensures Listed(s', x, {}) { assert Listed(s, x, {}); }
  }

  lemma MoveShape(k: Config, s: State, e: nat, c: Path)
    requires Shape(k, s)
    ensures Shape(k, s.(codes := s.codes[e := c]))
  {
    var s' := s.(codes := s.codes[e := c]);
    forall p | p in s'.nodes && p != [] ensures HasParent(k, s', p) { assert HasParent(k, s, p); }
    forall p | p in s'.nodes && s'.nodes[p].hasChildren
      ensures HasAllChildren(k, s', p)
    {
      assert HasAllChildren(k, s, p);
    }
  }

  /** An entity may move within the region of its leaf. */
  lemma MoveInside(k: Config, s: State, e: nat, c: Path)
    requires Recorded(k, s) && e in s.branchIds && CodeOk(k, c) && s.branchIds[e] <= c
    ensures Recorded(k, s.(codes := s.codes[e := c]))
  {
    MoveShape(k, s, e, c);
    var s' := s.(codes := s.codes[e := c]);
    forall p | p in s'.nodes ensures Lists(s', p, {}) {
      assert Lists(s, p, {});
      forall x | x in s'.nodes[p].entities ensures At(s', x, p) { assert At(s, x, p); }
    }
    forall x | x in s'.branchIds ensures Listed(s', x, {}) { assert Listed(s, x, {}); }
  }

  /** Exactly when re-inserting a removed entity fails: its leaf listed no more than a leaf
      may, had asked to be coarser, at this removal or earlier, and was not coarsened
      because it is the root or because the policy disagreed. */
  lemma ReinsertionFails(k: Config, s: State, s': State, e: nat, wantsCoarser: bool, agrees: bool)
    requires Inv(k, s) && e in s.branchIds && s.branchIds[e] in s.nodes && e in s'.codes && Inv(k, s')
    requires Removed(k, s, s', e, wantsCoarser, agrees)
    ensures StaleOnWay(k, s', e) <==>
      (wantsCoarser || s.nodes[s.branchIds[e]].action == Coarsen) && (s.branchIds[e] == [] || !agrees) &&
      |s.nodes[s.branchIds[e]].entities| <= k.limit
  {
    var b := s.branchIds[e];
    TakeKeeps(k, s, e, wantsCoarser);
    assert Lists(s, b, {}) && At(s, e, b);
    assert Listed(s, e, {});
    DroppedSize(s.nodes[b].entities, e);
    var leaf := if (wantsCoarser || s.nodes[b].action == Coarsen) && b != [] && agrees then Parent(b) else b;
    if b != [] { assert HasParent(k, s, b); }
    assert LeafFor(s', e, leaf);
    forall x | LeafFor(s', e, x) ensures x == leaf { LeafUnique(k, s', s'.codes[e], x, leaf); }
  }

  // ----- inserting all entities again --------------------------------------------------------------------

  function Strict(k: Config): Config {
    k.(strict := true)
  }

  lemma StrictIsMore(k: Config, s: State)
    requires Inv(Strict(k), s)
    ensures Inv(k, s)
  {
    forall p | p in s.nodes && p != [] ensures HasParent(k, s, p) { assert HasParent(Strict(k), s, p); }
    forall p | p in s.nodes && s.nodes[p].hasChildren
      ensures HasAllChildren(k, s, p)
    {
      assert HasAllChildren(Strict(k), s, p);
    }
    forall p | p in s.nodes && !s.nodes[p].hasChildren ensures Settled(k, s.nodes[p]) {
      assert Settled(Strict(k), s.nodes[p]);
    }
    forall e | e in s.codes ensures CodeOk(k, s.codes[e]) { assert CodeOk(Strict(k), s.codes[e]); }
  }

  /** A tree that is just a leaf, which lists entities that are not recorded. */
  ghost predicate Starts(k: Config, s: State, root: Node) {
    k.fan > 0 && s == State(map[[] := Node(false, root.entities, root.action)], {[]}, 0, s.codes, map[]) &&
    Loose(k, s, {}, {})
  }

  /** Its request survives the next insertion. */
  ghost predicate Stale(k: Config, root: Node) {
    root.action == Coarsen && |root.entities| < k.limit
  }

  /** Nobody asks to be coarser. */
  ghost predicate NoRequests(s: State) {
    forall p :: p in s.nodes ==> s.nodes[p].action != Coarsen
  }

  lemma ResetStarts(k: Config, s: State, root: Node)
    requires k.fan > 0 && s == State(map[[] := Node(false, root.entities, root.action)], {[]}, 0, s.codes, map[])
    requires root.action != Refine && (forall e :: e in root.entities ==> e in s.codes)
    requires forall e :: e in s.codes ==> CodeOk(k, s.codes[e])
    ensures Starts(Strict(k), s, root)
  {
    forall e | e in s.codes ensures CodeOk(Strict(k), s.codes[e]) { assert CodeOk(k, s.codes[e]); }
    assert Tidy(s, [], {});
  }

  ghost predicate CanRefill(k: Config, s: State, root: Node, order: seq<nat>) {
    Starts(k, s, root) && Distinct(order) && (forall e :: e in order ==> e in s.codes) &&
    (forall e :: e in root.entities ==> e in order)
  }

  /** The first i entities were inserted. */
  ghost predicate Refilled(k: Config, s0: State, s: State, root: Node, order: seq<nat>, i: nat) {
    i <= |order| && s.codes == s0.codes && Loose(k, s, {}, {}) &&
    ToSet(order[..i]) <= s.branchIds.Keys && (forall e :: e in s.branchIds ==> e in order) &&
    Listings(s, {}) == multiset(root.entities) + multiset(order[..i]) &&
    (root.entities == [] ==> Inv(k, s) && s.branchIds.Keys == ToSet(order[..i])) &&
    (|root.entities| + i <= k.limit ==> s.nodes == map[[] := Node(false, root.entities + order[..i], root.action)]) &&
    (i == 0 ==> s == s0) && (i > 0 && !Stale(k, root) ==> NoRequests(s))
  }

  ghost predicate Refilling(k: Config, s0: State, s: State, root: Node, order: seq<nat>, i: nat) {
    k.strict && CanRefill(k, s0, root, order) && Refilled(k, s0, s, root, order, i) &&
    (|root.entities| <= k.limit ==> Tight(k, s, {}, {}))
  }

  lemma RefillStarts(k: Config, s: State, root: Node, order: seq<nat>)
    requires k.strict && CanRefill(k, s, root, order)
    ensures Refilling(k, s, s, root, order, 0)
  {
    assert order[..0] == [] && root.entities + [] == root.entities;
    ListedByPick(s.nodes, s.nodes.Keys - {}, []);
    assert Tidy(s, [], {});
    if |root.entities| <= k.limit { assert TightAt(k, s, [], {}); }
  }

  lemma OneMore(order: seq<nat>, i: nat)
    requires i < |order|
    ensures order[..i + 1] == order[..i] + [order[i]] &&
      multiset(order[..i + 1]) == multiset(order[..i]) + multiset{order[i]}
    ensures multiset(order[..i + 1]) <= multiset(order) && ToSet(order[..i + 1]) == ToSet(order[..i]) + {order[i]}
  {
    assert order == order[..i + 1] + order[i + 1..];
    assert order[..i + 1] == order[..i] + [order[i]];
  }

  lemma RefillNext(k: Config, s0: State, s: State, root: Node, order: seq<nat>, i: nat)
    requires CanRefill(k, s0, root, order) && Refilled(k, s0, s, root, order, i) && i < |order|
    ensures CanAdd(k, s, order[i])
    ensures Roomy(k, s0.codes, multiset(root.entities) + multiset(order)) ==> RoomFor(k, s, order[i])
    ensures i == 0 ==> (StaleOnWay(k, s, order[i]) <==> Stale(k, root))
    ensures i > 0 && !Stale(k, root) ==> !StaleOnWay(k, s, order[i])
    ensures root.entities == [] ==> order[i] !in s.branchIds
  {
    OneMore(order, i);
    assert order[i] in order;
    if Roomy(k, s0.codes, multiset(root.entities) + multiset(order)) {
      FewerRoomy(k, s.codes, Listings(s, {}) + multiset{order[i]}, multiset(root.entities) + multiset(order));
    }
    if i == 0 { assert LeafFor(s, order[i], []); }
  }

  lemma RefillInserted(k: Config, s0: State, s: State, s': State, root: Node, order: seq<nat>, i: nat)
    requires k.strict && CanRefill(k, s0, root, order) && Refilled(k, s0, s, root, order, i) && i < |order|
    requires order[i] in s.codes && EnteredWell(k, s, s', order[i])
    requires root.entities == [] ==> order[i] !in s.branchIds
    ensures Refilled(k, s0, s', root, order, i + 1)
  {
    OneMore(order, i);
    assert order[i] in order;
    if root.entities == [] { RefillInOrder(k, s, s', order[i]); }
    RefillKeys(s, s', root, order, i);
    RefillRequests(k, s0, s, s', root, order, i);
    RefillAtRoot(k, s0, s, s', root, order, i);
  }

  lemma RefillInOrder(k: Config, s: State, s': State, e: nat)
    requires k.strict && Inv(k, s) && e in s.codes && e !in s.branchIds && EnteredWell(k, s, s', e)
    ensures Inv(k, s') && s'.branchIds.Keys == s.branchIds.Keys + {e}
  {
    StrictFits(k, s, e);
    InOrderIfFits(k, s, s', e);
  }

  lemma RefillAtRoot(k: Config, s0: State, s: State, s': State, root: Node, order: seq<nat>, i: nat)
    requires Refilled(k, s0, s, root, order, i) && i < |order| && order[i] in s.codes
    requires forall b :: LeafFor(s, order[i], b) ==> LeafTook(k, s, s', order[i], b)
    ensures |root.entities| + i + 1 <= k.limit ==>
      s'.nodes == map[[] := Node(false, root.entities + order[..i + 1], root.action)]
  {
    if |root.entities| + i < k.limit {
      assert LeafFor(s, order[i], []);
      assert LeafTook(k, s, s', order[i], []);
      assert root.entities + order[..i] + [order[i]] == root.entities + order[..i + 1];
    }
  }

  lemma RefillKeys(s: State, s': State, root: Node, order: seq<nat>, i: nat)
    requires i < |order| && (forall e :: e in s.branchIds ==> e in order) &&
      (forall e :: e in root.entities ==> e in order)
    requires Listings(s, {}) == multiset(root.entities) + multiset(order[..i])
    requires Listings(s', {}) == Listings(s, {}) + multiset{order[i]}
    requires forall x :: x in s'.branchIds ==> x in s.branchIds || x in Listings(s', {})
    ensures forall e :: e in s'.branchIds ==> e in order
  {
    forall e | e in Listings(s', {}) ensures e in order {
      assert e in multiset(root.entities) || e in multiset(order[..i]) || e == order[i];
    }
  }

  lemma RefillRequests(k: Config, s0: State, s: State, s': State, root: Node, order: seq<nat>, i: nat)
    requires Starts(k, s0, root) && Refilled(k, s0, s, root, order, i) && i < |order| && order[i] in s0.codes
    requires ListedMore(k, s, s', order[i]) && forall b :: LeafFor(s, order[i], b) ==> LeafTook(k, s, s', order[i], b)
    ensures !Stale(k, root) ==> NoRequests(s')
  {
    if i == 0 {
      assert LeafFor(s, order[i], []);
      assert LeafTook(k, s, s', order[i], []);
    }
  }

  lemma RecordedOnce(k: Config, s: State, e: nat)
    requires Recorded(k, s)
    ensures Listings(s, {})[e] <= 1
  {
    RecordedListings(k, s);
  }

  /** What the root kept is listed twice afterwards. */
  lemma TwiceListed(k: Config, s: State, es: seq<nat>, order: seq<nat>)
    requires Listings(s, {}) == multiset(es) + multiset(order) && es != [] && es[0] in order
    ensures !Recorded(k, s)
  {
    assert es[0] in multiset(es) && es[0] in multiset(order);
    assert Listings(s, {})[es[0]] >= 2;
    if Recorded(k, s) { RecordedOnce(k, s, es[0]); }
  }

  /** After an update: what the root listed before, and all entities inserted. */
  ghost predicate Updated(k: Config, root: Node, codes: map<nat, Path>, order: seq<nat>, s: State) {
    s.codes == codes && s.branchIds.Keys == ToSet(order) &&
    Listings(s, {}) == multiset(root.entities) + multiset(order) &&
    (|root.entities| + |order| <= k.limit ==>
      s.nodes.Keys == {[]} && s.nodes[[]].entities == root.entities + order)
  }

  lemma StrictRoom(k: Config, codes: map<nat, Path>, w: multiset<nat>)
    ensures Roomy(Strict(k), codes, w) <==> Roomy(k, codes, w)
  {}

  lemma RefillDone(k: Config, s0: State, s: State, root: Node, order: seq<nat>)
    requires Refilling(Strict(k), s0, s, root, order, |order|)
    ensures Updated(k, root, s0.codes, order, s) && if root.entities == [] then Inv(k, s) else !Recorded(k, s)
    ensures |root.entities| <= k.limit ==> Roomy(k, s0.codes, multiset(root.entities) + multiset(order))
  {
    assert order[..|order|] == order;
    if |root.entities| <= k.limit {
      TightIsRoomy(Strict(k), s);
      StrictRoom(k, s.codes, Listings(s, {}));
    }
    if root.entities == [] {
      StrictIsMore(k, s);
    } else {
      assert root.entities[0] in root.entities;
      TwiceListed(k, s, root.entities, order);
    }
  }

  lemma InTree(k: Config, s: State, e: nat)
    requires Recorded(k, s) && e in s.branchIds
    ensures s.branchIds[e] in s.nodes && |s.branchIds[e]| <= k.depth
  {
    assert Listed(s, e, {});
  }

  lemma DroppedLater(q: seq<nat>, e: nat, i: nat)
    requires i < |q| && e in q[i..] && q[i] != e
    ensures i + 1 < |q| && e in q[i + 1..]
    ensures q[..i] + Dropped(q[i..], e) == q[..i + 1] + Dropped(q[i + 1..], e)
  {
    assert q[i..] == [q[i]] + q[i + 1..];
    assert q[i..][1..] == q[i + 1..];
    assert q[..i + 1] == q[..i] + [q[i]];
  }

  lemma ChildIsNew(k: Config, s: State, p: Path, b: Path, i: nat, done: set<Path>)
    requires Shape(k, s) && b in s.nodes && s.nodes[b].hasChildren && p <= b && i < k.fan && BelowSet(s, b) !! done
    ensures
      var c := b + [i];
      c in s.nodes && c != p && p <= c && |c| <= k.depth && c !in done + BelowUpTo(s, b, i) &&
      BelowSet(s, c) !! done + BelowUpTo(s, b, i) + {c}
  {
    var c := b + [i];
    assert HasAllChildren(k, s, b);
    BelowNext(s, b, i);
    assert Below(b, c);
    forall q | q in BelowSet(s, c) ensures q in BelowSet(s, b) { assert c <= q; assert b <= q; }
  }

  lemma {:induction false} PrefixKnown(k: Config, s: State, p: Path, n: nat)
    requires Shape(k, s) && p in s.nodes && n <= |p|
    ensures p[..n] in s.nodes
    decreases |p|
  {
    if n < |p| {
      assert HasParent(k, s, p);
      PrefixKnown(k, s, Parent(p), n);
      assert Parent(p)[..n] == p[..n];
    } else {
      assert p[..n] == p;
    }
  }

  /** The longest known prefix of an id is unique. */
  lemma SameWay(k: Config, s: State, id: Path, a: Path, b: Path)
    requires Shape(k, s) && a in s.nodes && b in s.nodes && a <= id && b <= id
    requires (|a| < |id| ==> id[..|a| + 1] !in s.nodes) && (|b| < |id| ==> id[..|b| + 1] !in s.nodes)
    ensures a == b
  {
    if |a| < |b| {
      assert b[..|a| + 1] == id[..|a| + 1];
      PrefixKnown(k, s, b, |a| + 1);
    } else if |b| < |a| {
      assert a[..|b| + 1] == id[..|b| + 1];
      PrefixKnown(k, s, a, |b| + 1);
    }
  }

  lemma OneMoreKid(nodes: map<Path, Node>, b: Path, i: nat)
    ensures WithKids(nodes, b, i)[b + [i] := Node(false, [], None)] == WithKids(nodes, b, i + 1)
    ensures Kids(b, i + 1) == Kids(b, i) + {b + [i]}
  {}
}
