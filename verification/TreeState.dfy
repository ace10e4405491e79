/** The branches and entities of a hashed tree, and the atomic changes that
    insertion, refinement and coarsening are made of. Branches are named by their
    paths, which stand for their ids. */
module TreeState {
  import opened Base
  import opened MortonId

  datatype Action = None | Refine | Coarsen

  /** A branch object; it is a leaf while it has no child array. */
  datatype Node = Node(hasChildren: bool, entities: seq<nat>, action: Action)

  /** fan children for each branch, codes of the given depth, and at most limit
      entities in a leaf before the policy asks for a refinement. A strict policy agrees
      to a coarsening only if the entities fit a leaf. */
  datatype Config = Config(fan: nat, depth: nat, limit: nat, strict: bool)

  /** nodes: the branch objects that the child arrays hold, and the root.
      branchMap: the keys of the hash map. codes: where the entities are, down to full
      depth. branchIds: the branch id of each entity that is in the tree. */
  datatype State = State(
    nodes: map<Path, Node>,
    branchMap: set<Path>,
    maxDepth: nat,
    codes: map<nat, Path>,
    branchIds: map<nat, Path>)

  ghost function Parent(p: Path): Path
    requires p != []
  {
    p[..|p| - 1]
  }

  ghost predicate Below(p: Path, q: Path) {
    p <= q && p != q
  }

  // ----- shape ---------------------------------------------------------------------------------

  ghost predicate HasParent(k: Config, s: State, p: Path)
    requires p != []
  {
    Parent(p) in s.nodes && s.nodes[Parent(p)].hasChildren && p[|p| - 1] < k.fan
  }

  ghost predicate HasAllChildren(k: Config, s: State, p: Path) {
    forall d: nat :: d < k.fan ==> p + [d] in s.nodes
  }

  /** The hash map holds exactly the branches of a tree in which every branch object has
      either no children or all of them. */
  ghost predicate Shape(k: Config, s: State) {
    s.branchMap == s.nodes.Keys && [] in s.nodes && s.maxDepth <= k.depth &&
    (forall p {:trigger HasParent(k, s, p)} :: p in s.nodes && p != [] ==> HasParent(k, s, p)) &&
    (forall p {:trigger HasAllChildren(k, s, p)} :: p in s.nodes && s.nodes[p].hasChildren ==>
      HasAllChildren(k, s, p)) &&
    (forall p :: p in s.nodes ==> |p| <= s.maxDepth)
  }

  // ----- entities -------------------------------------------------------------------------------

  ghost predicate CodeOk(k: Config, c: Path) {
    |c| == k.depth && forall i :: 0 <= i < |c| ==> c[i] < k.fan
  }

  /** e is recorded at p, and p is on the way to where e is. */
  ghost predicate At(s: State, e: nat, p: Path) {
    e in s.codes && e in s.branchIds && s.branchIds[e] == p && p <= s.codes[e]
  }

  /** What a branch lists is recorded there, once. */
  ghost predicate Lists(s: State, p: Path, todo: set<nat>)
    requires p in s.nodes
  {
    var n := s.nodes[p];
    Distinct(n.entities) && forall e :: e in n.entities ==> At(s, e, p) && e !in todo
  }

  ghost predicate Settled(k: Config, n: Node) {
    n.action != Refine && (k.strict ==> |n.entities| <= k.limit)
  }

  /** e is listed by the branch that its branch id names. */
  ghost predicate Listed(s: State, e: nat, open: set<Path>)
    requires e in s.branchIds
  {
    e in s.codes && s.branchIds[e] in s.nodes && s.branchIds[e] !in open && e in s.nodes[s.branchIds[e]].entities
  }

  /** While a branch is being refined it is open: its own list is about to be cleared.
      todo are the entities still to be moved, over the leaves that are too full. */
  ghost predicate Entities(k: Config, s: State, open: set<Path>, todo: set<nat>, over: set<Path>) {
    (forall e :: e in s.codes ==> CodeOk(k, s.codes[e])) &&
    (forall p :: p in open ==> p in s.nodes && s.nodes[p].hasChildren) &&
    (forall p {:trigger Lists(s, p, todo)} :: p in s.nodes && p !in open ==> Lists(s, p, todo)) &&
    (forall p :: p in s.nodes && p !in open && p !in over && !s.nodes[p].hasChildren ==> Settled(k, s.nodes[p])) &&
    (forall e {:trigger Listed(s, e, open)} :: e in s.branchIds && e !in todo ==> Listed(s, e, open))
  }

  /** What every run keeps: each entity of the tree is listed by the branch it is recorded
      at. A branch with children may list entities, but for the root. */
  ghost predicate Recorded(k: Config, s: State) {
    Shape(k, s) && Entities(k, s, {}, {}, {}) &&
    (s.nodes[[]].hasChildren ==> s.nodes[[]].entities == [] && s.nodes[[]].action != Refine)
  }

  /** Only leaves list anything. */
  ghost predicate Clean(s: State) {
    forall p :: p in s.nodes && s.nodes[p].hasChildren ==> s.nodes[p].entities == []
  }

  /** A tree in order. */
  ghost predicate Inv(k: Config, s: State) {
    Recorded(k, s) && Clean(s)
  }

  /** A branch that has children lists e: no search looks there. */
  ghost predicate Stranded(s: State, p: Path, e: nat) {
    p in s.nodes && s.nodes[p].hasChildren && e in s.nodes[p].entities
  }

  lemma CleanIsUnstranded(s: State)
    ensures Clean(s) <==> forall p, e :: !Stranded(s, p, e)
  {
    forall p | p in s.nodes && s.nodes[p].hasChildren && s.nodes[p].entities != []
      ensures Stranded(s, p, s.nodes[p].entities[0]) {}
  }

  /** The given entities that are inside a branch's region. */
  ghost function Inside(codes: map<nat, Path>, valid: set<nat>, p: Path): set<nat> {
    set e | e in valid && e in codes && p <= codes[e]
  }

  /** Full-depth cells hold no more entities than a leaf may. */
  ghost predicate Uncrowded(k: Config, codes: map<nat, Path>, valid: set<nat>) {
    forall p :: |p| == k.depth ==> |Inside(codes, valid, p)| <= k.limit
  }

  // ----- finding the branch of a code ----------------------------------------------------------------

  lemma ChildOnTheWay(k: Config, s: State, c: Path, b: Path)
    requires HasAllChildren(k, s, b) && b <= c && |b| < |c| && c[|b|] < k.fan
    ensures c[..|b| + 1] in s.nodes
  {
    assert c[..|b| + 1] == b + [c[|b|]];
  }

  lemma BranchIsShallow(k: Config, s: State, b: Path)
    requires k.fan > 0 && Shape(k, s) && b in s.nodes && s.nodes[b].hasChildren
    ensures |b| < s.maxDepth
  {
    assert HasAllChildren(k, s, b);
    assert b + [0] in s.nodes;
  }

  /** The deepest branch on the way to a full enough code is a leaf. */
  lemma DeepestIsLeaf(k: Config, s: State, c: Path, b: Path)
    requires k.fan > 0 && Shape(k, s) && b in s.nodes && b <= c && s.maxDepth <= |c|
    requires forall i :: 0 <= i < |c| ==> c[i] < k.fan
    requires |b| < |c| ==> c[..|b| + 1] !in s.nodes
    ensures !s.nodes[b].hasChildren
  {
    if s.nodes[b].hasChildren {
      BranchIsShallow(k, s, b);
      ChildOnTheWay(k, s, c, b);
    }
  }

  // ----- one entity is put into a leaf --------------------------------------------------------------------

  function Put(k: Config, s: State, e: nat, b: Path): State
    requires b in s.nodes
  {
    var n := s.nodes[b];
    var entities := n.entities + [e];
    s.(branchIds := s.branchIds[e := b],
       nodes := s.nodes[b := Node(n.hasChildren, entities, if |entities| > k.limit then Refine else n.action)])
  }

  lemma PutShape(k: Config, s: State, e: nat, b: Path)
    requires Shape(k, s) && b in s.nodes
    ensures Shape(k, Put(k, s, e, b))
  {
    var s' := Put(k, s, e, b);
    assert forall p :: p in s'.nodes <==> p in s.nodes;
    assert forall p :: p in s.nodes ==> s'.nodes[p].hasChildren == s.nodes[p].hasChildren;
    forall p | p in s'.nodes && p != [] ensures HasParent(k, s', p) { assert HasParent(k, s, p); }
    forall p | p in s'.nodes && s'.nodes[p].hasChildren
      ensures HasAllChildren(k, s', p)
    {
      assert HasAllChildren(k, s, p);
    }
  }

  lemma PutEntities(k: Config, s: State, open: set<Path>, todo: set<nat>, e: nat, b: Path)
    requires Entities(k, s, open, todo, {}) && b in s.nodes && b !in open
    requires e in s.codes && b <= s.codes[e] && (e in todo || e !in s.branchIds)
    ensures
      var s' := Put(k, s, e, b);
      Entities(k, s', open, todo - {e}, if |s.nodes[b].entities| >= k.limit then {b} else {})
  {
    var s' := Put(k, s, e, b);
    var n, n' := s.nodes[b], s'.nodes[b];
    assert Lists(s, b, todo);
    forall p | p in s'.nodes && p !in open ensures Lists(s', p, todo - {e}) {
      assert Lists(s, p, todo);
      forall x | x in s'.nodes[p].entities ensures At(s', x, p) && x !in todo - {e} {
        if p != b || x != e {
          assert x in s.nodes[p].entities;
          assert At(s, x, p);
        }
      }
      if p == b {
        assert e in n.entities ==> At(s, e, b) && e !in todo;
        assert forall i :: 0 <= i < |n.entities| ==> n.entities[i] in n.entities;
      }
    }
    forall x | x in s'.branchIds && x !in todo - {e} ensures Listed(s', x, open) {
      if x != e { assert Listed(s, x, open); }
    }
  }

  // ----- a full leaf gets children ----------------------------------------------------------------------

  ghost predicate IsKid(b: Path, n: nat, p: Path) {
    p != [] && Parent(p) == b && p[|p| - 1] < n
  }

  function Kids(b: Path, n: nat): (kids: set<Path>)
    ensures forall p :: p in kids <==> IsKid(b, n, p)
  {
    if n == 0 then {} else
      var kids := Kids(b, n - 1) + {b + [n - 1]};
      assert forall p :: IsKid(b, n, p) && p[|p| - 1] == n - 1 ==> p == b + [n - 1];
      kids
  }

  /** Children 0 to n - 1 are new and empty. */
  function WithKids(nodes: map<Path, Node>, b: Path, n: nat): map<Path, Node> {
    map p | p in nodes.Keys + Kids(b, n) :: if p in Kids(b, n) then Node(false, [], None) else nodes[p]
  }

  function Split(k: Config, s: State, b: Path): State
    requires b in s.nodes
  {
    s.(nodes := WithKids(s.nodes[b := s.nodes[b].(hasChildren := true)], b, k.fan),
       branchMap := s.branchMap + Kids(b, k.fan),
       maxDepth := if s.maxDepth < |b| + 1 then |b| + 1 else s.maxDepth)
  }

  lemma NoKidsYet(k: Config, s: State, b: Path, p: Path)
    requires Shape(k, s) && b in s.nodes && !s.nodes[b].hasChildren && p in Kids(b, k.fan)
    ensures p !in s.nodes && |p| == |b| + 1 && p != b
  {
    assert IsKid(b, k.fan, p);
    assert p in s.nodes ==> HasParent(k, s, p);
  }

  /** s' is s after b got empty children. */
  ghost predicate Splits(k: Config, s: State, s': State, b: Path) {
    b in s.nodes && b in s'.nodes && s'.codes == s.codes && s'.branchIds == s.branchIds &&
    s'.branchMap == s.branchMap + Kids(b, k.fan) &&
    s'.maxDepth == (if s.maxDepth < |b| + 1 then |b| + 1 else s.maxDepth) &&
    (forall p :: p in s'.nodes <==> p in s.nodes || p in Kids(b, k.fan)) &&
    (forall p :: p in Kids(b, k.fan) ==>
      p !in s.nodes && p in s'.nodes && |p| == |b| + 1 && s'.nodes[p] == Node(false, [], None)) &&
    (forall p :: p in s.nodes && p != b ==> p in s'.nodes && s'.nodes[p] == s.nodes[p]) &&
    s'.nodes[b] == s.nodes[b].(hasChildren := true)
  }

  lemma SplitSplits(k: Config, s: State, b: Path)
    requires Shape(k, s) && b in s.nodes && !s.nodes[b].hasChildren
    ensures Splits(k, s, Split(k, s, b), b)
  {
    forall p | p in Kids(b, k.fan) ensures p !in s.nodes && |p| == |b| + 1 && p != b { NoKidsYet(k, s, b, p); }
  }

  lemma SplitParent(k: Config, s: State, s': State, b: Path, p: Path)
    requires Shape(k, s) && Splits(k, s, s', b) && p in s'.nodes && p != []
    ensures HasParent(k, s', p)
  {
    if p in Kids(b, k.fan) {
      assert IsKid(b, k.fan, p);
    } else {
      assert HasParent(k, s, p);
    }
  }

  lemma SplitChildren(k: Config, s: State, s': State, b: Path, p: Path)
    requires Shape(k, s) && Splits(k, s, s', b) && p in s'.nodes && s'.nodes[p].hasChildren
    ensures HasAllChildren(k, s', p)
  {
    if p != b {
      assert p !in Kids(b, k.fan);
      assert HasAllChildren(k, s, p);
    } else {
      forall d: nat | d < k.fan ensures p + [d] in s'.nodes { assert IsKid(b, k.fan, p + [d]); }
    }
  }

  lemma SplitShape(k: Config, s: State, s': State, b: Path)
    requires Shape(k, s) && Splits(k, s, s', b) && |b| < k.depth
    ensures Shape(k, s')
  {
    forall p | p in s'.nodes && p != [] ensures HasParent(k, s', p) { SplitParent(k, s, s', b, p); }
    forall p | p in s'.nodes && s'.nodes[p].hasChildren
      ensures HasAllChildren(k, s', p)
    {
      SplitChildren(k, s, s', b, p);
    }
  }

  lemma SplitLists(k: Config, s: State, s': State, open: set<Path>, todo: set<nat>, b: Path, p: Path)
    requires Entities(k, s, open, todo, {b}) && Splits(k, s, s', b) && b !in open && b != p
    requires p in s.nodes && p !in open
    ensures Lists(s', p, todo + ToSet(s.nodes[b].entities))
  {
    var es := s.nodes[b].entities;
    assert Lists(s, p, todo) && s'.nodes[p] == s.nodes[p];
    forall e | e in s.nodes[p].entities ensures At(s', e, p) && e !in todo + ToSet(es) {
      assert At(s, e, p);
      assert Lists(s, b, todo);
      assert e in es ==> At(s, e, b);
    }
  }

  lemma SplitListed(k: Config, s: State, s': State, open: set<Path>, todo: set<nat>, b: Path, e: nat)
    requires Entities(k, s, open, todo, {b}) && Splits(k, s, s', b) && e in s.branchIds
    requires e !in todo + ToSet(s.nodes[b].entities)
    ensures Listed(s', e, open + {b})
  {
    assert Listed(s, e, open);
  }

  lemma SplitEntities(k: Config, s: State, s': State, open: set<Path>, todo: set<nat>, b: Path)
    requires Entities(k, s, open, todo, {b}) && Splits(k, s, s', b) && b !in open
    ensures Entities(k, s', open + {b}, todo + ToSet(s.nodes[b].entities), {})
  {
    var todo' := todo + ToSet(s.nodes[b].entities);
    forall p | p in s'.nodes && p !in open + {b} ensures Lists(s', p, todo') {
      if p !in Kids(b, k.fan) { SplitLists(k, s, s', open, todo, b, p); }
    }
    forall p | p in s'.nodes && p !in open + {b} && !s'.nodes[p].hasChildren ensures Settled(k, s'.nodes[p]) {
      assert p !in Kids(b, k.fan) ==> Settled(k, s.nodes[p]);
    }
    forall e | e in s'.branchIds && e !in todo' ensures Listed(s', e, open + {b}) {
      SplitListed(k, s, s', open, todo, b, e);
    }
  }

  // ----- a refined branch is cleared ---------------------------------------------------------------------

  function Clear(s: State, b: Path): State
    requires b in s.nodes
  {
    s.(nodes := s.nodes[b := Node(s.nodes[b].hasChildren, [], None)])
  }

  lemma ClearShape(k: Config, s: State, b: Path)
    requires Shape(k, s) && b in s.nodes
    ensures Shape(k, Clear(s, b))
  {
    var s' := Clear(s, b);
    forall p | p in s'.nodes && p != [] ensures HasParent(k, s', p) { assert HasParent(k, s, p); }
    forall p | p in s'.nodes && s'.nodes[p].hasChildren
      ensures HasAllChildren(k, s', p)
    {
      assert HasAllChildren(k, s, p);
    }
  }

  lemma ClearKeeps(k: Config, s: State, open: set<Path>, todo: set<nat>, b: Path)
    requires Shape(k, s) && Entities(k, s, open + {b}, todo, {}) && b !in open
    ensures Shape(k, Clear(s, b)) && Entities(k, Clear(s, b), open, todo, {})
  {
    var s' := Clear(s, b);
    assert b in open + {b};
    ClearShape(k, s, b);
    forall p | p in s'.nodes && p !in open ensures Lists(s', p, todo) {
      if p != b {
        assert Lists(s, p, todo);
        forall e | e in s.nodes[p].entities ensures At(s', e, p) { assert At(s, e, p); }
      }
    }
    forall e | e in s'.branchIds && e !in todo ensures Listed(s', e, open) { assert Listed(s, e, open + {b}); }
  }

  /** What a branch lists is inside its region. */
  lemma ListedInside(k: Config, s: State, todo: set<nat>, b: Path)
    requires b in s.nodes && Lists(s, b, todo)
    ensures |s.nodes[b].entities| <= |Inside(s.codes, s.branchIds.Keys, b)|
  {
    var es, inside := s.nodes[b].entities, Inside(s.codes, s.branchIds.Keys, b);
    DistinctSize(es);
    forall e | e in ToSet(es) ensures e in inside { assert At(s, e, b); }
    SubsetSize(ToSet(es), inside);
  }

  // ----- an entity is taken out ------------------------------------------------------------------------------

  ghost function Dropped(q: seq<nat>, e: nat): seq<nat> {
    if q == [] then [] else if q[0] == e then q[1..] else [q[0]] + Dropped(q[1..], e)
  }

  lemma {:induction false} DroppedIsRest(q: seq<nat>, e: nat)
    requires Distinct(q)
    ensures Distinct(Dropped(q, e)) && ToSet(Dropped(q, e)) == ToSet(q) - {e}
    ensures |Dropped(q, e)| <= |q|
  {
    if q != [] {
      assert q == [q[0]] + q[1..];
      DroppedIsRest(q[1..], e);
      assert ToSet(q) == {q[0]} + ToSet(q[1..]);
      assert q[0] !in q[1..];
      if q[0] != e {
        var rest := Dropped(q[1..], e);
        assert q[0] !in ToSet(rest);
        assert forall i :: 0 <= i < |rest| ==> rest[i] in ToSet(rest);
        assert ToSet([q[0]] + rest) == {q[0]} + ToSet(rest);
      }
    }
  }

  /** The others keep their order. */
  lemma {:induction false} DroppedAt(q: seq<nat>, e: nat) returns (i: nat)
    requires e in q
    ensures i < |q| && q[i] == e && e !in q[..i] && Dropped(q, e) == q[..i] + q[i + 1..]
  {
    if q[0] == e {
      i := 0;
    } else {
      assert q == [q[0]] + q[1..];
      var j := DroppedAt(q[1..], e);
      i := j + 1;
      assert q[..i] == [q[0]] + q[1..][..j] && q[i + 1..] == q[1..][j + 1..];
    }
  }

  lemma {:induction false} DroppedSize(q: seq<nat>, e: nat)
    requires e in q
    ensures |Dropped(q, e)| == |q| - 1
  {
    if q[0] != e {
      assert q == [q[0]] + q[1..];
      DroppedSize(q[1..], e);
    }
  }

  /** A removal clears a request to refine, unless it asks to be coarser. */
  function AfterRemoval(action: Action, wantsCoarser: bool): Action {
    if wantsCoarser then Coarsen else if action == Refine then None else action
  }

  /** e is taken off the branch that lists it. */
  ghost function Take(s: State, e: nat, wantsCoarser: bool): State
    requires e in s.branchIds && s.branchIds[e] in s.nodes
  {
    var b := s.branchIds[e];
    var n := s.nodes[b];
    s.(branchIds := s.branchIds - {e},
       nodes := s.nodes[b := Node(n.hasChildren, Dropped(n.entities, e), AfterRemoval(n.action, wantsCoarser))])
  }

  lemma TakeKeeps(k: Config, s: State, e: nat, wantsCoarser: bool)
    requires Recorded(k, s) && e in s.branchIds
    ensures Listed(s, e, {}) && Recorded(k, Take(s, e, wantsCoarser))
    ensures forall q, x :: Stranded(Take(s, e, wantsCoarser), q, x) <==> Stranded(s, q, x) && x != e
  {
    assert Listed(s, e, {});
    var b := s.branchIds[e];
    var s', n := Take(s, e, wantsCoarser), s.nodes[b];
    assert Lists(s, b, {});
    DroppedIsRest(n.entities, e);
    TakeShape(k, s, e, wantsCoarser);
    forall p | p in s'.nodes ensures Lists(s', p, {}) { TakeLists(k, s, e, wantsCoarser, p); }
    forall x | x in s'.branchIds ensures Listed(s', x, {}) {
      assert Listed(s, x, {});
      if s.branchIds[x] == b { assert x in ToSet(n.entities) - {e}; assert x in ToSet(Dropped(n.entities, e)); }
    }
    TakeStrands(k, s, e, wantsCoarser);
  }

  lemma TakeStrands(k: Config, s: State, e: nat, wantsCoarser: bool)
    requires Recorded(k, s) && e in s.branchIds && Listed(s, e, {})
    ensures forall q, x :: Stranded(Take(s, e, wantsCoarser), q, x) <==> Stranded(s, q, x) && x != e
  {
    var b, s' := s.branchIds[e], Take(s, e, wantsCoarser);
    assert Lists(s, b, {});
    DroppedIsRest(s.nodes[b].entities, e);
    forall q, x ensures Stranded(s', q, x) <==> Stranded(s, q, x) && x != e {
      if q == b {
        assert x in ToSet(Dropped(s.nodes[b].entities, e)) <==> x in ToSet(s.nodes[b].entities) && x != e;
      } else if Stranded(s, q, x) {
        assert Lists(s, q, {});
        assert At(s, x, q);
      }
    }
  }

  lemma TakeShape(k: Config, s: State, e: nat, wantsCoarser: bool)
    requires Shape(k, s) && e in s.branchIds && s.branchIds[e] in s.nodes
    ensures Shape(k, Take(s, e, wantsCoarser))
  {
    var s' := Take(s, e, wantsCoarser);
    forall p | p in s'.nodes && p != [] ensures HasParent(k, s', p) { assert HasParent(k, s, p); }
    forall p | p in s'.nodes && s'.nodes[p].hasChildren
      ensures HasAllChildren(k, s', p)
    {
      assert HasAllChildren(k, s, p);
    }
  }

  lemma TakeLists(k: Config, s: State, e: nat, wantsCoarser: bool, p: Path)
    requires Recorded(k, s) && e in s.branchIds && p in s.nodes && s.branchIds[e] in s.nodes
    ensures Lists(Take(s, e, wantsCoarser), p, {})
  {
    var b, s' := s.branchIds[e], Take(s, e, wantsCoarser);
    assert Lists(s, p, {});
    DroppedIsRest(s.nodes[p].entities, e);
    forall x | x in s'.nodes[p].entities ensures At(s', x, p) {
      if p == b { assert x in ToSet(Dropped(s.nodes[b].entities, e)); }
      assert x in s.nodes[p].entities;
      assert At(s, x, p);
    }
  }
}
