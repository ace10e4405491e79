/** Trees whose leaves hold no more than they may, listed twice or not, and what insertion and
    refinement do to any tree, to a tree in order, and to such a tree. */
module TreeRoom {
  import opened Base
  import opened MortonId
  import opened TreeState
  import opened TreeCoarsen
  import opened TreeLists
  import opened TreeMoves

  /** No leaf lists more than it may, but for those in over, and branches with children list
      nothing. */
  ghost predicate Tight(k: Config, s: State, open: set<Path>, over: set<Path>) {
    forall p {:trigger TightAt(k, s, p, over)} :: p in s.nodes && p !in open ==> TightAt(k, s, p, over)
  }

  ghost predicate TightAt(k: Config, s: State, p: Path, over: set<Path>)
    requires p in s.nodes
  {
    if s.nodes[p].hasChildren then s.nodes[p].entities == [] else p in over || |s.nodes[p].entities| <= k.limit
  }

  ghost predicate InsertedTight(k: Config, s: State, s': State, open: set<Path>, b: Path)
    requires b in s.nodes
  {
    Tight(k, s, open, {}) && !s.nodes[b].hasChildren ==> Tight(k, s', open, {})
  }

  /** One entity too many is what a leaf that was full lists when it is refined. */
  ghost predicate OneTooMany(k: Config, s: State, open: set<Path>, b: Path)
    requires b in s.nodes
  {
    Tight(k, s, open, {b}) && !s.nodes[b].hasChildren && |s.nodes[b].entities| == k.limit + 1
  }

  ghost predicate RefinedTight(k: Config, s: State, s': State, open: set<Path>, b: Path)
    requires b in s.nodes
  {
    OneTooMany(k, s, open, b) ==> Tight(k, s', open, {})
  }

  lemma PutTight(k: Config, s: State, open: set<Path>, e: nat, b: Path)
    requires b in s.nodes && b !in open && !s.nodes[b].hasChildren && Tight(k, s, open, {})
    ensures if |s.nodes[b].entities| < k.limit then Tight(k, Put(k, s, e, b), open, {})
      else OneTooMany(k, Put(k, s, e, b), open, b)
  {
    var s' := Put(k, s, e, b);
    assert TightAt(k, s, b, {});
    forall p | p in s'.nodes && p !in open
      ensures TightAt(k, s', p, if |s.nodes[b].entities| < k.limit then {} else {b})
    {
      assert TightAt(k, s, p, {});
    }
  }

  ghost predicate MovingTight(k: Config, s0: State, s: State, open: set<Path>, b: Path, es: seq<nat>) {
    b in s0.nodes && OneTooMany(k, s0, open, b) && es == s0.nodes[b].entities ==> Tight(k, s, open + {b}, {})
  }

  lemma MovingTightStarts(k: Config, s: State, open: set<Path>, b: Path)
    requires Shape(k, s) && b in s.nodes && !s.nodes[b].hasChildren && open <= s.nodes.Keys
    ensures MovingTight(k, s, Split(k, s, b), open, b, s.nodes[b].entities)
  {
    var s' := Split(k, s, b);
    SplitSplits(k, s, b);
    if OneTooMany(k, s, open, b) {
      forall p | p in s'.nodes && p !in open + {b} ensures TightAt(k, s', p, {}) {
        assert p !in Kids(b, k.fan) ==> TightAt(k, s, p, {b});
      }
    }
  }

  /** The child the next entity goes to is a leaf: all it got before are fewer than all. */
  lemma MovedTight(k: Config, s0: State, s: State, s': State, open: set<Path>, b: Path, es: seq<nat>, i: nat, kid: Path)
    requires i < |es| && s.codes == s0.codes && MovingStrands(k, s0, s, open, b, es, i) && KidFor(k, s, b, es[i], kid)
    requires kid in s.nodes && InsertedTight(k, s, s', open + {b}, kid) && MovingTight(k, s0, s, open, b, es)
    ensures MovingTight(k, s0, s', open, b, es)
  {
    if b in s0.nodes && OneTooMany(k, s0, open, b) && es == s0.nodes[b].entities {
      assert KidsFit(k, s0.codes, b, es, i);
      assert KidAt(k, s, b, Going(s.codes, es, i, kid), kid, open);
    }
  }

  lemma MovingTightEnds(k: Config, s0: State, s: State, open: set<Path>, b: Path, es: seq<nat>)
    requires b in s0.nodes && es == s0.nodes[b].entities && b in s.nodes && s.nodes[b].hasChildren
    requires MovingTight(k, s0, s, open, b, es)
    ensures RefinedTight(k, s0, Clear(s, b), open, b)
  {
    if OneTooMany(k, s0, open, b) {
      forall p | p in s.nodes && p !in open ensures TightAt(k, Clear(s, b), p, {}) {
        assert p != b ==> TightAt(k, s, p, {});
      }
    }
  }

  // ----- all at once --------------------------------------------------------------------------------------

  /** What an insertion does: to any tree, to one whose entities are recorded, what it strands,
      and what it does to a tight tree. */
  ghost predicate AddedWell(k: Config, s: State, s': State, open: set<Path>, todo: set<nat>, w: multiset<nat>, e: nat,
        depth: nat, b: Path)
  {
    Added(k, s, s', open, w, e, b) && InsertedIfCan(k, s, s', open, todo, e, depth, b) &&
    StrandsUnlessFits(k, s, s', e, b) && InsertedTight(k, s, s', open, b)
  }

  ghost predicate RebuiltWell(k: Config, s: State, s': State, open: set<Path>, todo: set<nat>, w: multiset<nat>,
        b: Path)
  {
    Rebuilt(k, s, s', open, w, b) && RefinedIfCan(k, s, s', open, todo, b) &&
    RefiningStrands(k, s, s', b) && RefinedTight(k, s, s', open, b)
  }

  ghost predicate Carries(k: Config, s0: State, s: State, open: set<Path>, todo: set<nat>, w: multiset<nat>, b: Path,
        es: seq<nat>, i: nat)
  {
    Carried(k, s0, s, open, w, b, es, i) && MovingIfCan(k, s0, s, open, todo, b, es, i) &&
    MovingStrands(k, s0, s, open, b, es, i) && MovingTight(k, s0, s, open, b, es)
  }

  lemma CarryStarts(k: Config, s: State, open: set<Path>, todo: set<nat>, w: multiset<nat>, b: Path)
    requires CanSplit(k, s, open, w, b) && !s.nodes[b].hasChildren && |b| < k.depth
    ensures Carries(k, s, Split(k, s, b), open, todo, w, b, s.nodes[b].entities, 0)
  {
    SplitIsCarried(k, s, open, w, b);
    MovingStarts(k, s, open, todo, b);
    MovingStrandsStarts(k, s, open, b);
    MovingTightStarts(k, s, open, b);
  }

  lemma CarryNext(k: Config, s0: State, s: State, s': State, open: set<Path>, todo: set<nat>, b: Path, es: seq<nat>,
        i: nat, w: multiset<nat>, kid: Path)
    requires Carries(k, s0, s, open, todo, w, b, es, i) && i < |es| && kid !in s0.nodes
    requires KidFor(k, s, b, es[i], kid) && CanReach(k, s, open + {b}, w, es[i], |b| + 1, kid)
    requires AddedWell(k, s, s', open + {b}, todo + ToSet(es[i..]), w, es[i], |b| + 1, kid)
    ensures Carries(k, s0, s', open, todo, w, b, es, i + 1)
  {
    CarriedNext(k, s0, s, s', open, w, b, es, i, kid);
    MovedIfCan(k, s0, s, s', open, todo, b, es, i, kid);
    MovedStrands(k, s0, s, s', open, b, es, i, w, kid);
    MovedTight(k, s0, s, s', open, b, es, i, kid);
  }

  lemma CarryEnds(k: Config, s0: State, s: State, open: set<Path>, todo: set<nat>, w: multiset<nat>, b: Path,
        es: seq<nat>)
    requires Carries(k, s0, s, open, todo, w, b, es, |es|)
    ensures b in s.nodes && RebuiltWell(k, s0, Clear(s, b), open, todo, w, b)
  {
    ClearedIsRebuilt(k, s0, s, open, w, b, es);
    RefinesIfCan(k, s0, s, open, todo, b, es);
    MovingStrandsEnds(k, s0, s, open, b, es);
    MovingTightEnds(k, s0, s, open, b, es);
  }

  lemma NotSplitWell(k: Config, s: State, open: set<Path>, todo: set<nat>, w: multiset<nat>, b: Path)
    requires CanSplit(k, s, open, w, b) && s.nodes[b].hasChildren
    ensures RebuiltWell(k, s, s, open, todo, w, b)
  {
    NotSplitAgain(k, s, open, w, b);
    NotSplitRefined(k, s, open, todo, b);
  }

  lemma PutWell(k: Config, s: State, open: set<Path>, todo: set<nat>, w: multiset<nat>, e: nat, depth: nat, b: Path)
    requires CanReach(k, s, open, w, e, depth, b) && Put(k, s, e, b).nodes[b].action != Refine
    ensures AddedWell(k, s, Put(k, s, e, b), open, todo, w, e, depth, b)
  {
    PutIsAdded(k, s, open, w, e, depth, b);
    PutInserts(k, s, open, todo, e, depth, b);
    PutUnlessFits(k, s, e, b);
    if Tight(k, s, open, {}) && !s.nodes[b].hasChildren { PutTight(k, s, open, e, b); }
  }

  lemma RefiningWell(k: Config, s: State, s': State, open: set<Path>, todo: set<nat>, w: multiset<nat>, e: nat,
        depth: nat, b: Path)
    requires CanReach(k, s, open, w, e, depth, b) && Put(k, s, e, b).nodes[b].action == Refine
    requires s.nodes[b].hasChildren || |s.nodes[b].entities| >= k.limit
    requires RebuiltWell(k, Put(k, s, e, b), s', open, todo - {e}, w, b)
    ensures AddedWell(k, s, s', open, todo, w, e, depth, b)
  {
    AddedByRefining(k, s, s', open, w, e, depth, b);
    RefiningInserts(k, s, s', open, todo, e, depth, b);
    RefiningUnlessFits(k, s, s', e, b);
    if Tight(k, s, open, {}) && !s.nodes[b].hasChildren { PutTight(k, s, open, e, b); }
  }

  // ----- room at full depth ----------------------------------------------------------------------------------

  lemma {:induction false} NotListedBy(nodes: map<Path, Node>, ps: set<Path>, e: nat)
    requires ps <= nodes.Keys && forall p :: p in ps ==> e !in nodes[p].entities
    ensures ListedBy(nodes, ps)[e] == 0
    decreases ps
  {
    if ps != {} {
      var p :| p in ps;
      ListedByPick(nodes, ps, p);
      NotListedBy(nodes, ps - {p}, e);
    }
  }

  /** In a tight tree only the leaf on its way lists an entity. */
  lemma OnlyLeafLists(k: Config, s: State, b: Path, e: nat)
    requires Loose(k, s, {}, {}) && Tight(k, s, {}, {}) && b in s.nodes && !s.nodes[b].hasChildren
    requires e in s.codes && b <= s.codes[e]
    ensures Listings(s, {})[e] == multiset(s.nodes[b].entities)[e]
  {
    var ps := s.nodes.Keys - {};
    ListedByPick(s.nodes, ps, b);
    forall p | p in ps - {b} ensures e !in s.nodes[p].entities {
      assert Tidy(s, p, {}) && TightAt(k, s, p, {});
      if e in s.nodes[p].entities { LeafUnique(k, s, s.codes[e], p, b); }
    }
    NotListedBy(s.nodes, ps - {b}, e);
  }

  /** So no full-depth cell holds more than a leaf may. */
  lemma TightIsRoomy(k: Config, s: State)
    requires k.fan > 0 && Loose(k, s, {}, {}) && Tight(k, s, {}, {})
    ensures Roomy(k, s.codes, Listings(s, {}))
  {
    forall q, part | |q| == k.depth && part <= Listings(s, {}) && SameCell(s.codes, part, q) ensures |part| <= k.limit {
      if part != multiset{} {
        var e :| e in part;
        assert CodeOk(k, s.codes[e]);
        assert s.codes[e] == q;
        var b := LeafOnWayTo(k, s, q);
        forall x ensures part[x] <= multiset(s.nodes[b].entities)[x] {
          if x in part { OnlyLeafLists(k, s, b, x); }
        }
        FewerParts(part, multiset(s.nodes[b].entities));
        assert TightAt(k, s, b, {});
      }
    }
  }

  lemma FewerParts(a: multiset<nat>, b: multiset<nat>)
    requires a <= b
    ensures |a| <= |b|
  {
    assert b == a + (b - a);
  }
}
