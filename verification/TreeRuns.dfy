/** Short runs after which a tree is not what its user expects. */
module TreeRuns {
  import opened Base
  import opened MortonId
  import opened TreeState
  import opened TreeCoarsen
  import opened TreeLists
  import opened TreeMoves
  import opened TreeRoom
  import opened Tree

  lemma ReadyForFirst(k: Config, s: State, e: nat)
    requires k.fan > 0 && k.limit > 0 && Inv(k, s) && e in s.codes && s.branchIds.Keys == {}
    ensures CanAdd(k, s, e) && RoomFor(k, s, e)
  {
    var valid := s.branchIds.Keys + {e};
    forall p: Path | |p| == k.depth ensures |Inside(s.codes, valid, p)| <= k.limit {
      SubsetSize(Inside(s.codes, valid, p), {e});
    }
    ReadyToAdd(k, s, e);
  }

  lemma TwiceInCell(k: Config, codes: map<nat, Path>, e: nat)
    requires k.limit > 0 && e in codes && CodeOk(k, codes[e])
    ensures Roomy(k, codes, multiset{e, e}) <==> k.limit >= 2
  {
    var w := multiset{e, e};
    if k.limit >= 2 {
      forall q, part | |q| == k.depth && part <= w && SameCell(codes, part, q) ensures |part| <= k.limit {
        FewerParts(part, w);
      }
    } else {
      assert SameCell(codes, w, codes[e]) && w <= w && |w| == 2;
    }
  }

  /** The first entity of a tree is listed by the root. */
  method InsertFirst(k: Config, e: nat, c: Path) returns (t: TreeTopology)
    requires k.fan > 0 && k.limit > 0 && CodeOk(k, c)
    ensures fresh(t) && Inv(k, t.View())
    ensures t.View() == State(map[[] := Node(false, [e], None)], {[]}, 0, map[e := c], map[e := []])
  {
    t := new TreeTopology(k, map[e := c]);
    ghost var s := t.View();
    ReadyForFirst(k, s, e);
    var ok, room := t.Insert(k, e);
    RootTakes(k, s, t.View(), e);
  }

  lemma RootTakes(k: Config, s: State, s': State, e: nat)
    requires k.limit > 0 && s == State(map[[] := Node(false, [], None)], {[]}, 0, s.codes, map[]) && e in s.codes
    requires (forall b :: LeafFor(s, e, b) ==> LeafTook(k, s, s', e, b)) && Inv(k, s) && Joined(k, s, s', e)
    ensures Inv(k, s') && s' == State(map[[] := Node(false, [e], None)], {[]}, 0, s.codes, map[e := []])
  {
    assert LeafFor(s, e, []);
    assert [] + [e] == [e];
    InOrderIfFits(k, s, s', e);
  }

  /** An entity is put into an empty tree, taken out, which makes the root ask to be coarser,
      and put in again: that fails. */
  method InsertAgain(k: Config, e: nat, c: Path, agrees: bool) returns (ok: bool)
    requires k.fan > 0 && k.limit > 0 && CodeOk(k, c)
    ensures !ok
  {
    var t := InsertFirst(k, e, c);
    ghost var s := t.View();
    t.Remove(k, e, true, agrees);
    ReinsertionFails(k, s, t.View(), e, true, agrees);
    assert t.branchIds.Keys == {};
    ReadyForFirst(k, t.View(), e);
    var room;
    ok, room := t.Insert(k, e);
  }

  /** A tree of one entity is updated: the root lists the entity twice, or, when a leaf may
      hold no more than one, refinement runs out of levels. */
  method UpdateOne(k: Config, e: nat, c: Path) returns (t: TreeTopology, room: bool)
    requires k.fan > 0 && k.limit > 0 && CodeOk(k, c)
    ensures room <==> k.limit >= 2
    ensures room ==> t.nodes.Keys == {[]} && t.nodes[[]].entities == [e, e] && !Recorded(k, t.View())
  {
    t := InsertFirst(k, e, c);
    TwiceInCell(k, map[e := c], e);
    assert multiset([e]) + multiset([e]) == multiset{e, e};
    var ok;
    ok, room := t.UpdateAll(k, map[e := c], [e]);
    assert [e] + [e] == [e, e];
  }

  // ----- an entity gets lost ---------------------------------------------------------------------------

  /** Four codes of depth four, three of them below the first child of the root. */
  function FourCodes(): map<nat, Path> {
    map[0 := [0, 0, 0, 0], 1 := [0, 0, 1, 0], 2 := [0, 1, 0, 0], 3 := [1, 0, 0, 0]]
  }

  function Four(strict: bool): Config {
    Config(2, 4, 1, strict)
  }

  ghost function UpTo(n: nat): (r: set<nat>)
    ensures |r| == n && forall x: nat :: x in r <==> x < n
  {
    if n == 0 then {} else UpTo(n - 1) + {n - 1}
  }

  lemma OneOnly(a: set<nat>)
    requires forall x, y :: x in a && y in a ==> x == y
    ensures |a| <= 1
  {
    if x :| x in a { SubsetSize(a, {x}); }
  }

  lemma FourUncrowded(strict: bool, valid: set<nat>)
    ensures Uncrowded(Four(strict), FourCodes(), valid)
  {
    forall p: Path | |p| == 4 ensures |Inside(FourCodes(), valid, p)| <= 1 {
      var inside := Inside(FourCodes(), valid, p);
      forall x, y | x in inside && y in inside ensures x == y {
        assert FourCodes()[x] == p && FourCodes()[y] == p;
      }
      OneOnly(inside);
    }
  }

  /** Branches with children hold more than a leaf may. */
  ghost predicate AllNeeded(k: Config, s: State) {
    forall p :: p in s.nodes && s.nodes[p].hasChildren ==> |Inside(s.codes, s.branchIds.Keys, p)| > k.limit
  }

  lemma StillNeeded(k: Config, s: State, s': State)
    requires AllNeeded(k, s) && NeededOnly(k, s, s') && s'.codes == s.codes && s.branchIds.Keys <= s'.branchIds.Keys
    ensures AllNeeded(k, s')
  {
    forall p | p in s'.nodes && s'.nodes[p].hasChildren && p in s.nodes && s.nodes[p].hasChildren
      ensures |Inside(s'.codes, s'.branchIds.Keys, p)| > k.limit
    {
      SubsetSize(Inside(s.codes, s.branchIds.Keys, p), Inside(s'.codes, s'.branchIds.Keys, p));
    }
  }

  method InsertFour() returns (t: TreeTopology)
    ensures fresh(t) && FirstOfFour(t.View(), 4)
  {
    t := new TreeTopology(Four(true), FourCodes());
    var i := 0;
    while i < 4
      invariant 0 <= i <= 4 && fresh(t) && FirstOfFour(t.View(), i)
    {
      InsertOneOfFour(t, i);
      i := i + 1;
    }
  }

  method InsertOneOfFour(t: TreeTopology, i: nat)
    requires i < 4 && FirstOfFour(t.View(), i)
    modifies t
    ensures FirstOfFour(t.View(), i + 1)
  {
    ghost var s := t.View();
    FourUncrowded(true, s.branchIds.Keys + {i});
    ReadyToAdd(Four(true), s, i);
    StrictFits(Four(true), s, i);
    var ok, room := t.Insert(Four(true), i);
    InOrderIfFits(Four(true), s, t.View(), i);
    StillNeeded(Four(true), s, t.View());
  }

  /** The first n of the four entities were inserted. */
  ghost predicate FirstOfFour(s: State, n: nat) {
    Inv(Four(true), s) && AllNeeded(Four(true), s) && s.codes == FourCodes() && s.branchIds.Keys == UpTo(n)
  }

  /** The fourth entity is alone in the second child of the root. */
  lemma FourthAlone(s: State)
    requires FirstOfFour(s, 4)
    ensures s.branchIds[3] == [1]
  {
    var k, b := Four(true), s.branchIds[3];
    assert Listed(s, 3, {}) && Lists(s, b, {}) && At(s, 3, b);
    assert Settled(k, s.nodes[b]);
    if |b| >= 2 {
      DigitsSmall(k, s, b, 1);
      assert b[..1] == [1];
      SecondHasOne(s);
    } else if b == [] {
      RootListsAll(k, s);
    } else {
      assert b == [1];
    }
  }

  lemma SecondHasOne(s: State)
    requires s.codes == FourCodes()
    ensures |Inside(s.codes, s.branchIds.Keys, [1])| <= 1
  {
    var inside := Inside(s.codes, s.branchIds.Keys, [1]);
    forall x | x in inside ensures x == 3 { assert FourCodes()[x][0] == 1; }
    OneOnly(inside);
  }

  /** A root that is a leaf lists all entities. */
  lemma RootListsAll(k: Config, s: State)
    requires Inv(k, s) && !s.nodes[[]].hasChildren
    ensures s.nodes.Keys == {[]} && ToSet(s.nodes[[]].entities) == s.branchIds.Keys
    ensures |s.nodes[[]].entities| == |s.branchIds.Keys|
  {
    BelowAll(k, s, []);
    forall q | q in s.nodes ensures q == [] { assert q !in BelowSet(s, []); }
    ListedExactly(k, s, []);
    forall e | e in s.branchIds ensures s.branchIds[e] == [] { assert Listed(s, e, {}); }
    DistinctSize(s.nodes[[]].entities);
  }

  /** The root has become a leaf that lists the other three. */
  lemma RootHasThree(s: State, s': State)
    requires s.branchIds.Keys == UpTo(3) && Coarsened(s, s', []) && Inv(Four(false), s')
    ensures s'.branchIds.Keys == UpTo(3) && s'.nodes.Keys == {[]} && !s'.nodes[[]].hasChildren
    ensures |s'.nodes[[]].entities| == 3 && forall e :: e in s'.nodes[[]].entities ==> e < 3
  {
    RootListsAll(Four(false), s');
    forall e | e in s'.nodes[[]].entities ensures e < 3 { assert e in ToSet(s'.nodes[[]].entities); }
  }

  lemma {:induction false} AllGoing(codes: map<nat, Path>, es: seq<nat>, n: nat, p: Path)
    requires n <= |es| && forall i :: 0 <= i < n ==> es[i] in codes && p <= codes[es[i]]
    ensures Going(codes, es, n, p) == n
  {
    if n > 0 { AllGoing(codes, es, n - 1, p); }
  }

  lemma DoesNotFit(s: State)
    requires s.codes == FourCodes() && s.nodes.Keys == {[]} && !s.nodes[[]].hasChildren
    requires |s.nodes[[]].entities| == 3 && forall e :: e in s.nodes[[]].entities ==> e < 3
    ensures !FitsBelow(Four(false), s, 3)
  {
    var k, es := Four(false), s.nodes[[]].entities + [3];
    var root: Path := [];
    forall i | 0 <= i < 3 ensures es[i] in s.codes && [0] <= s.codes[es[i]] { assert es[i] in s.nodes[[]].entities; }
    AllGoing(s.codes, es, 3, [0]);
    assert Going(s.codes, es, 4, [0]) >= 3;
    assert IsKid(root, k.fan, [0]);
    assert !KidsFit(k, s.codes, root, es, 4);
    assert LeafFor(s, 3, root);
    assert !Fits(k, s, 3, root);
  }

  /** Four entities are inserted, the fourth is taken out, which makes the root a leaf that
      lists the other three, and is put in again: the root is refined, and one of the three
      that go to its first child is lost. */
  method LoseEntity() returns (t: TreeTopology)
    ensures Recorded(Four(false), t.View()) && t.branchIds.Keys == UpTo(4)
    ensures exists e :: Lost(t.View(), e)
  {
    var k := Four(false);
    t := InsertFour();
    FourthAlone(t.View());
    assert Strict(k) == Four(true);
    StrictIsMore(k, t.View());
    ghost var s := t.View();
    t.Remove(k, 3, true, true);
    ThreeAtRoot(s, t.View());
    var ok, room := t.Insert(k, 3);
  }

  lemma ThreeAtRoot(s: State, s': State)
    requires FirstOfFour(s, 4) && s.branchIds[3] == [1] && [1] in s.nodes && Removed(Four(false), s, s', 3, true, true)
    requires Inv(Four(false), s') && s'.codes == s.codes
    ensures CanAdd(Four(false), s', 3) && RoomFor(Four(false), s', 3) && !FitsBelow(Four(false), s', 3)
    ensures s'.branchIds.Keys == UpTo(3)
  {
    var taken := Take(s, 3, true);
    assert taken.branchIds.Keys == UpTo(3);
    assert Parent([1]) == [];
    RootHasThree(taken, s');
    FourUncrowded(false, s'.branchIds.Keys + {3});
    ReadyToAdd(Four(false), s', 3);
    DoesNotFit(s');
  }
}
