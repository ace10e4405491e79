/** A dependency graph built edge by edge, and its topological sort. */
module Dag {
  import opened Base

  /** A node lists the nodes it depends on, in the order in which the edges were added and
      as often as they were added. */
  datatype Node = Node(hash: nat, title: nat, edges: seq<nat>)

  /** What the sort depends on: a node and its dependencies as a set. */
  datatype Item = Item(hash: nat, deps: set<nat>)

  ghost predicate ValidNodes(nodes: map<nat, Node>) {
    forall h :: h in nodes ==> nodes[h].hash == h && forall d :: d in nodes[h].edges ==> d in nodes
  }

  // ----- the order, as a function of the dependency sets -------------------------------------------

  ghost function Kept(items: seq<Item>, root: nat): seq<Item> {
    if items == [] then []
    else
      var k := |items| - 1;
      var deps := items[k].deps - {root};
      Kept(items[..k], root) + if deps != {} then [Item(items[k].hash, deps)] else []
  }

  ghost function Freed(items: seq<Item>, root: nat): seq<nat> {
    if items == [] then []
    else
      var k := |items| - 1;
      Freed(items[..k], root) + if items[k].deps - {root} == {} then [items[k].hash] else []
  }

  lemma {:induction false} KeptAndFreed(items: seq<Item>, root: nat)
    ensures |Kept(items, root)| + |Freed(items, root)| == |items|
  {
    if items != [] { KeptAndFreed(items[..|items| - 1], root); }
  }

  /** Takes the queue's first node, strikes it from all dependencies, and queues the nodes
      that are left without any. */
  ghost function Order(queue: seq<nat>, rest: seq<Item>, sorted: seq<nat>): seq<nat>
    decreases |queue| + |rest|
  {
    if queue == [] then sorted
    else
      KeptAndFreed(rest, queue[0]);
      Order(queue[1..] + Freed(rest, queue[0]), Kept(rest, queue[0]), sorted + [queue[0]])
  }

  ghost function ItemOf(n: Node): Item {
    Item(n.hash, ToSet(n.edges))
  }

  ghost function ItemsOf(ns: seq<Node>): (items: seq<Item>)
    ensures |items| == |ns| && forall i :: 0 <= i < |ns| ==> items[i] == ItemOf(ns[i])
  {
    seq(|ns|, i requires 0 <= i < |ns| => ItemOf(ns[i]))
  }

  /** All nodes of a graph by ascending hash. */
  ghost function AllItems(nodes: map<nat, Node>): (items: seq<Item>)
    ensures |items| == |nodes.Keys|
  {
    var keys := Ascending(nodes.Keys);
    seq(|keys|, i requires 0 <= i < |keys| => Item(keys[i], ToSet(nodes[keys[i]].edges)))
  }

  ghost function Waiting(items: seq<Item>): seq<Item> {
    if items == [] then []
    else
      var k := |items| - 1;
      Waiting(items[..k]) + if items[k].deps != {} then [items[k]] else []
  }

  ghost function Free(items: seq<Item>): seq<nat> {
    if items == [] then []
    else
      var k := |items| - 1;
      Free(items[..k]) + if items[k].deps == {} then [items[k].hash] else []
  }

  /** The order in which the sort returns the nodes of a graph. */
  ghost function SortOrder(nodes: map<nat, Node>): seq<nat> {
    var items := AllItems(nodes);
    Order(Free(items), Waiting(items), [])
  }

  /** Same nodes, same dependencies. */
  ghost predicate SameDependencies(a: map<nat, Node>, b: map<nat, Node>) {
    a.Keys == b.Keys && forall h :: h in a ==> ToSet(a[h].edges) == ToSet(b[h].edges)
  }

  /** The order depends neither on the order in which edges were added nor on repetitions. */
  lemma OrderIsCanonical(a: map<nat, Node>, b: map<nat, Node>)
    requires SameDependencies(a, b)
    ensures SortOrder(a) == SortOrder(b)
  {
    assert AllItems(a) == AllItems(b);
  }

  ghost function HashesOf(ns: seq<Node>): (hs: seq<nat>)
    ensures |hs| == |ns| && forall i :: 0 <= i < |ns| ==> hs[i] == ns[i].hash
  {
    seq(|ns|, i requires 0 <= i < |ns| => ns[i].hash)
  }

  lemma HashesOfSnoc(ns: seq<Node>, n: Node)
    ensures HashesOf(ns + [n]) == HashesOf(ns) + [n.hash]
  {}

  /** Copies of nodes of the graph, up to their edges. */
  ghost predicate Copies(nodes: map<nat, Node>, ns: seq<Node>) {
    forall i :: 0 <= i < |ns| ==> ns[i].hash in nodes && ns[i] == nodes[ns[i].hash].(edges := ns[i].edges)
  }

  ghost predicate Bare(ns: seq<Node>) {
    forall i :: 0 <= i < |ns| ==> ns[i].edges == []
  }

  // ----- the sort -------------------------------------------------------------------------------------

  /** Looks for x and erases its first occurrence. */
  method EraseFirst(q: seq<nat>, x: nat) returns (found: bool, r: seq<nat>)
    ensures found <==> x in q
    ensures !found ==> r == q
    ensures found ==> |r| == |q| - 1 && ToSet(r) - {x} == ToSet(q) - {x}
  {
    var i := 0;
    while i < |q| && q[i] != x
      invariant 0 <= i <= |q| && x !in q[..i]
    {
      i := i + 1;
    }
    if i == |q| {
      assert q[..i] == q;
      return false, q;
    }
    found, r := true, q[..i] + q[i + 1..];
    assert q == q[..i] + [x] + q[i + 1..];
  }

  /** cur is what is left of node orig while occurrences of root are being erased. */
  ghost predicate PartOf(cur: Node, orig: Node, root: nat) {
    cur.hash == orig.hash && cur.edges != [] && ToSet(cur.edges) - {root} == ToSet(orig.edges) - {root}
  }

  lemma NonEmptySet(q: seq<nat>)
    ensures q == [] <==> ToSet(q) == {}
  {
    assert q != [] ==> q[0] in ToSet(q);
  }

  lemma KeptNext(nodes: seq<Node>, k: nat, root: nat)
    requires k < |nodes|
    ensures
      var deps := ToSet(nodes[k].edges) - {root};
      Kept(ItemsOf(nodes[..k + 1]), root) == Kept(ItemsOf(nodes[..k]), root) +
        (if deps != {} then [Item(nodes[k].hash, deps)] else []) &&
      Freed(ItemsOf(nodes[..k + 1]), root) == Freed(ItemsOf(nodes[..k]), root) +
        if deps == {} then [nodes[k].hash] else []
  {
    assert ItemsOf(nodes[..k + 1])[..k] == ItemsOf(nodes[..k]);
  }

  /** The first k nodes were looked at: those in front are kept, the others freed. */
  ghost predicate Struck(nodes: map<nat, Node>, list: seq<Node>, k: nat, root: nat, front: seq<Node>, freed: seq<Node>)
    requires k <= |list|
  {
    ItemsOf(front) == Kept(ItemsOf(list[..k]), root) && HashesOf(freed) == Freed(ItemsOf(list[..k]), root) &&
    (forall i :: 0 <= i < |front| ==> front[i].edges != []) &&
    Copies(nodes, front) && Copies(nodes, freed) && Bare(freed)
  }

  lemma StruckFreed(nodes: map<nat, Node>, list: seq<Node>, k: nat, root: nat, front: seq<Node>, freed: seq<Node>,
        n: Node)
    requires k < |list| && Struck(nodes, list, k, root, front, freed) && n.hash == list[k].hash && n.edges == []
    requires Copies(nodes, [n]) && ToSet(list[k].edges) - {root} == ToSet(n.edges) - {root}
    ensures Struck(nodes, list, k + 1, root, front, freed + [n])
  {
    KeptNext(list, k, root);
    NonEmptySet(n.edges);
    HashesOfSnoc(freed, n);
    CopiesAppend(nodes, freed, [n]);
  }

  lemma StruckKept(nodes: map<nat, Node>, list: seq<Node>, k: nat, root: nat, front: seq<Node>, freed: seq<Node>,
        n: Node)
    requires k < |list| && Struck(nodes, list, k, root, front, freed) && PartOf(n, list[k], root) && root !in n.edges
    requires Copies(nodes, [n])
    ensures Struck(nodes, list, k + 1, root, front + [n], freed)
  {
    KeptNext(list, k, root);
    NonEmptySet(n.edges);
    ItemsSnoc(front, n);
    assert ToSet(n.edges) - {root} == ToSet(n.edges);
  }

  lemma CopiesAppend(nodes: map<nat, Node>, a: seq<Node>, b: seq<Node>)
    requires Copies(nodes, a) && Copies(nodes, b) && Bare(a) && Bare(b)
    ensures Copies(nodes, a + b) && Bare(a + b)
  {}

  /** Strikes root from all dependencies. A node is looked at again until root no longer
      occurs in it; a node left without dependencies moves to the queue. */
  method Strike(list: seq<Node>, root: nat, ghost nodes: map<nat, Node>) returns (list': seq<Node>, freed: seq<Node>)
    requires forall i :: 0 <= i < |list| ==> list[i].edges != []
    requires Copies(nodes, list)
    ensures ItemsOf(list') == Kept(ItemsOf(list), root) && HashesOf(freed) == Freed(ItemsOf(list), root)
    ensures forall i :: 0 <= i < |list'| ==> list'[i].edges != []
    ensures Copies(nodes, list') && Copies(nodes, freed) && Bare(freed)
  {
    var front: seq<Node>, tail := [], list;
    freed := [];
    ghost var k := 0;
    while tail != []
      invariant 0 <= k <= |list| && |tail| == |list| - k
      invariant tail != [] ==> PartOf(tail[0], list[k], root) && tail[1..] == list[k + 1..]
      invariant Struck(nodes, list, k, root, front, freed) && Copies(nodes, tail)
      decreases |tail|, if tail != [] then |tail[0].edges| else 0
    {
      var n := tail[0];
      var found, edges := EraseFirst(n.edges, root);
      if found && edges != [] {
        tail := [n.(edges := edges)] + tail[1..];
      } else {
        if found {
          StruckFreed(nodes, list, k, root, front, freed, n.(edges := edges));
          freed := freed + [n.(edges := edges)];
        } else {
          StruckKept(nodes, list, k, root, front, freed, n);
          front := front + [n];
        }
        tail := tail[1..];
        k := k + 1;
      }
    }
    assert list[..k] == list;
    list' := front;
  }

  lemma ItemsSnoc(ns: seq<Node>, n: Node)
    ensures ItemsOf(ns + [n]) == ItemsOf(ns) + [ItemOf(n)]
  {}

  /** Splits the nodes into those without dependencies and the others. */
  method Start(list: seq<Node>, ghost nodes: map<nat, Node>) returns (queue: seq<Node>, rest: seq<Node>)
    requires Copies(nodes, list)
    ensures HashesOf(queue) == Free(ItemsOf(list)) && ItemsOf(rest) == Waiting(ItemsOf(list))
    ensures forall i :: 0 <= i < |rest| ==> rest[i].edges != []
    ensures Copies(nodes, queue) && Copies(nodes, rest) && Bare(queue)
  {
    queue, rest := [], [];
    var i := 0;
    while i < |list|
      invariant 0 <= i <= |list|
      invariant HashesOf(queue) == Free(ItemsOf(list[..i])) && ItemsOf(rest) == Waiting(ItemsOf(list[..i]))
      invariant forall k :: 0 <= k < |rest| ==> rest[k].edges != []
      invariant Copies(nodes, queue) && Copies(nodes, rest) && Bare(queue)
    {
      assert ItemsOf(list[..i + 1])[..i] == ItemsOf(list[..i]);
      NonEmptySet(list[i].edges);
      if |list[i].edges| == 0 {
        HashesOfSnoc(queue, list[i]);
        queue := queue + [list[i]];
        assert Bare(queue);
      } else {
        ItemsSnoc(rest, list[i]);
        rest := rest + [list[i]];
      }
      i := i + 1;
    }
    assert list[..i] == list;
  }

  lemma KeysInside(keys: seq<nat>, all: set<nat>)
    requires forall x :: x in keys <==> x in all
    ensures forall k :: 0 <= k < |keys| ==> keys[k] in all
  {}

  lemma ListIsAll(nodes: map<nat, Node>, keys: seq<nat>, list: seq<Node>)
    requires ValidNodes(nodes) && keys == Ascending(nodes.Keys) && |list| == |keys|
    requires forall k :: 0 <= k < |keys| ==> keys[k] in nodes && list[k] == nodes[keys[k]]
    ensures ItemsOf(list) == AllItems(nodes) && Copies(nodes, list)
  {}

  method NodesOf(nodes: map<nat, Node>, keys: seq<nat>) returns (list: seq<Node>)
    requires forall k :: 0 <= k < |keys| ==> keys[k] in nodes
    ensures |list| == |keys| && forall k :: 0 <= k < |keys| ==> list[k] == nodes[keys[k]]
  {
    list := [];
    var i := 0;
    while i < |keys|
      invariant 0 <= i <= |keys| && |list| == i && forall k :: 0 <= k < i ==> list[k] == nodes[keys[k]]
    {
      list := list + [nodes[keys[i]]];
      i := i + 1;
    }
  }

  lemma OrderNext(queue: seq<Node>, rest: seq<Node>, rest': seq<Node>, freed: seq<Node>, sorted: seq<Node>)
    requires queue != []
    requires ItemsOf(rest') == Kept(ItemsOf(rest), queue[0].hash) &&
      HashesOf(freed) == Freed(ItemsOf(rest), queue[0].hash)
    ensures |rest'| + |freed| == |rest|
    ensures Order(HashesOf(queue), ItemsOf(rest), HashesOf(sorted)) ==
      Order(HashesOf(queue[1..] + freed), ItemsOf(rest'), HashesOf(sorted + [queue[0]]))
  {
    KeptAndFreed(ItemsOf(rest), queue[0].hash);
    assert |rest'| == |ItemsOf(rest')| && |rest| == |ItemsOf(rest)| && |freed| == |HashesOf(freed)|;
    assert HashesOf(queue)[1..] + HashesOf(freed) == HashesOf(queue[1..] + freed);
    HashesOfSnoc(sorted, queue[0]);
  }

  /** The nodes taken so far, those that are ready, and those that still have dependencies. */
  ghost predicate SortingNodes(nodes: map<nat, Node>, queue: seq<Node>, rest: seq<Node>, sorted: seq<Node>) {
    Order(HashesOf(queue), ItemsOf(rest), HashesOf(sorted)) == SortOrder(nodes) &&
    (forall i :: 0 <= i < |rest| ==> rest[i].edges != []) &&
    Copies(nodes, sorted) && Copies(nodes, queue) && Copies(nodes, rest) && Bare(sorted) && Bare(queue)
  }

  lemma SortNext(nodes: map<nat, Node>, queue: seq<Node>, rest: seq<Node>, rest': seq<Node>, freed: seq<Node>,
        sorted: seq<Node>)
    requires SortingNodes(nodes, queue, rest, sorted) && queue != []
    requires ItemsOf(rest') == Kept(ItemsOf(rest), queue[0].hash) &&
      HashesOf(freed) == Freed(ItemsOf(rest), queue[0].hash)
    requires forall i :: 0 <= i < |rest'| ==> rest'[i].edges != []
    requires Copies(nodes, rest') && Copies(nodes, freed) && Bare(freed)
    ensures |rest'| + |freed| == |rest|
    ensures SortingNodes(nodes, queue[1..] + freed, rest', sorted + [queue[0]])
  {
    OrderNext(queue, rest, rest', freed, sorted);
    CopiesAppend(nodes, queue[1..], freed);
    CopiesAppend(nodes, sorted, [queue[0]]);
  }

  class Graph {
    var nodes: map<nat, Node>

    constructor ()
      ensures nodes == map[]
    {
      nodes := map[];
    }

    /** Names a node without touching its edges. */
    method InitializeNode(hash: nat, title: nat)
      requires ValidNodes(nodes)
      modifies this
      ensures ValidNodes(nodes) && nodes.Keys == old(nodes).Keys + {hash} && nodes[hash].title == title
      ensures nodes[hash].edges == if hash in old(nodes) then old(nodes)[hash].edges else []
      ensures forall h :: h in old(nodes) && h != hash ==> nodes[h] == old(nodes)[h]
    {
      nodes := nodes[hash := Node(hash, title, if hash in nodes then nodes[hash].edges else [])];
    }

    /** to depends on from; nodes not seen before are added. */
    method AddEdge(to: nat, from: nat)
      requires ValidNodes(nodes)
      modifies this
      ensures ValidNodes(nodes) && nodes.Keys == old(nodes).Keys + {to, from}
      ensures nodes[to].edges == (if to in old(nodes) then old(nodes)[to].edges else []) + [from]
      ensures forall h :: h in nodes && h != to ==>
        nodes[h].edges == if h in old(nodes) then old(nodes)[h].edges else []
      ensures forall h :: h in nodes ==> nodes[h].title == if h in old(nodes) then old(nodes)[h].title else 0
    {
      if to !in nodes { nodes := nodes[to := Node(to, 0, [])]; }
      if from !in nodes { nodes := nodes[from := Node(from, 0, [])]; }
      nodes := nodes[to := nodes[to].(edges := nodes[to].edges + [from])];
    }

    /** Kahn's algorithm; ok tells whether all nodes could be sorted. The nodes that come back
        are copies whose edges were used up. */
    method Sort() returns (sorted: seq<Node>, ok: bool)
      requires ValidNodes(nodes)
      ensures HashesOf(sorted) == SortOrder(nodes) && (ok <==> |sorted| == |nodes.Keys|)
      ensures Copies(nodes, sorted) && Bare(sorted)
    {
      var list := ListNodes();
      var queue, rest := Start(list, nodes);
      assert ItemsOf(list) == AllItems(nodes);
      sorted := [];
      var count := 0;
      while queue != []
        invariant SortingNodes(nodes, queue, rest, sorted) && count == |sorted|
        decreases |queue| + |rest|
      {
        var root := queue[0];
        var rest', freed := Strike(rest, root.hash, nodes);
        SortNext(nodes, queue, rest, rest', freed, sorted);
        sorted, queue, rest := sorted + [root], queue[1..] + freed, rest';
        count := count + 1;
      }
      ok := count == |nodes|;
    }

    method ListNodes() returns (list: seq<Node>)
      requires ValidNodes(nodes)
      ensures ItemsOf(list) == AllItems(nodes) && Copies(nodes, list)
    {
      var keys := Ascending(nodes.Keys);
      KeysInside(keys, nodes.Keys);
      list := NodesOf(nodes, keys);
      ListIsAll(nodes, keys, list);
    }
  }

  // ----- what the order is good for -----------------------------------------------------------------------

  ghost function Hashes(items: seq<Item>): set<nat> {
    set i | 0 <= i < |items| :: items[i].hash
  }

  ghost function Deps(nodes: map<nat, Node>, h: nat): set<nat>
    requires h in nodes
  {
    ToSet(nodes[h].edges)
  }

  /** Every node comes after all it depends on. */
  ghost predicate Respects(nodes: map<nat, Node>, sorted: seq<nat>) {
    forall i :: 0 <= i < |sorted| ==> sorted[i] in nodes && Deps(nodes, sorted[i]) <= ToSet(sorted[..i])
  }

  ghost predicate QueueOk(nodes: map<nat, Node>, queue: seq<nat>, done: set<nat>) {
    forall h :: h in queue ==> h in nodes && Deps(nodes, h) <= done
  }

  ghost predicate RestOk(nodes: map<nat, Node>, rest: seq<Item>, done: set<nat>) {
    forall i :: 0 <= i < |rest| ==>
      rest[i].hash in nodes && rest[i].deps == Deps(nodes, rest[i].hash) - done && rest[i].deps != {}
  }

  ghost predicate Sorting(nodes: map<nat, Node>, queue: seq<nat>, rest: seq<Item>, sorted: seq<nat>) {
    Respects(nodes, sorted) && QueueOk(nodes, queue, ToSet(sorted)) && RestOk(nodes, rest, ToSet(sorted)) &&
    ToSet(sorted) + ToSet(queue) + Hashes(rest) == nodes.Keys &&
    |sorted| + |queue| + |rest| == |nodes.Keys|
  }

  lemma HashesSnoc(items: seq<Item>, x: Item)
    ensures Hashes(items + [x]) == Hashes(items) + {x.hash}
  {
    var all := items + [x];
    assert forall i :: 0 <= i < |items| ==> all[i] == items[i];
    assert all[|items|] == x;
  }

  lemma ToSetAppend(a: seq<nat>, b: seq<nat>)
    ensures ToSet(a + b) == ToSet(a) + ToSet(b)
  {}

  lemma ToSetSnoc(q: seq<nat>, x: nat)
    ensures ToSet(q + [x]) == ToSet(q) + {x}
  {}

  lemma {:induction false} StrikeKeeps(nodes: map<nat, Node>, items: seq<Item>, root: nat, done: set<nat>)
    requires RestOk(nodes, items, done)
    ensures RestOk(nodes, Kept(items, root), done + {root}) && QueueOk(nodes, Freed(items, root), done + {root})
    ensures Hashes(Kept(items, root)) + ToSet(Freed(items, root)) == Hashes(items)
  {
    if items == [] {
      assert Hashes(Kept(items, root)) == {} && ToSet(Freed(items, root)) == {} && Hashes(items) == {};
    } else {
      var k := |items| - 1;
      var x := items[k];
      var deps := x.deps - {root};
      StrikeKeeps(nodes, items[..k], root, done);
      assert items == items[..k] + [x];
      HashesSnoc(items[..k], x);
      if deps != {} {
        HashesSnoc(Kept(items[..k], root), Item(x.hash, deps));
        assert Freed(items, root) == Freed(items[..k], root);
      } else {
        assert Kept(items, root) == Kept(items[..k], root);
        ToSetSnoc(Freed(items[..k], root), x.hash);
      }
    }
  }

  lemma RespectsSnoc(nodes: map<nat, Node>, sorted: seq<nat>, x: nat)
    requires Respects(nodes, sorted) && x in nodes && Deps(nodes, x) <= ToSet(sorted)
    ensures Respects(nodes, sorted + [x])
  {
    var longer := sorted + [x];
    forall i | 0 <= i < |longer| ensures longer[i] in nodes && Deps(nodes, longer[i]) <= ToSet(longer[..i]) {
      assert longer[..i] == sorted[..i];
      assert sorted[..|sorted|] == sorted;
    }
  }

  lemma QueueNext(nodes: map<nat, Node>, queue: seq<nat>, freed: seq<nat>, done: set<nat>)
    requires queue != [] && QueueOk(nodes, queue, done) && QueueOk(nodes, freed, done + {queue[0]})
    ensures QueueOk(nodes, queue[1..] + freed, done + {queue[0]})
    ensures ToSet(queue[1..] + freed) + {queue[0]} == ToSet(queue) + ToSet(freed)
  {
    assert queue == [queue[0]] + queue[1..];
    ToSetAppend(queue[1..], freed);
  }

  lemma SortingNext(nodes: map<nat, Node>, queue: seq<nat>, rest: seq<Item>, sorted: seq<nat>)
    requires Sorting(nodes, queue, rest, sorted) && queue != []
    ensures Sorting(nodes, queue[1..] + Freed(rest, queue[0]), Kept(rest, queue[0]), sorted + [queue[0]])
  {
    var root := queue[0];
    assert root in queue;
    StrikeKeeps(nodes, rest, root, ToSet(sorted));
    KeptAndFreed(rest, root);
    ToSetSnoc(sorted, root);
    RespectsSnoc(nodes, sorted, root);
    QueueNext(nodes, queue, Freed(rest, root), ToSet(sorted));
  }

  lemma {:induction false} OrderEnds(nodes: map<nat, Node>, queue: seq<nat>, rest: seq<Item>, sorted: seq<nat>)
    returns (left: seq<Item>)
    requires Sorting(nodes, queue, rest, sorted)
    ensures Sorting(nodes, [], left, Order(queue, rest, sorted))
    decreases |queue| + |rest|
  {
    if queue == [] {
      left := rest;
    } else {
      SortingNext(nodes, queue, rest, sorted);
      KeptAndFreed(rest, queue[0]);
      left := OrderEnds(nodes, queue[1..] + Freed(rest, queue[0]), Kept(rest, queue[0]), sorted + [queue[0]]);
    }
  }

  lemma {:induction false} StartSplits(nodes: map<nat, Node>, items: seq<Item>)
    requires forall i :: 0 <= i < |items| ==> items[i].hash in nodes && items[i].deps == Deps(nodes, items[i].hash)
    ensures QueueOk(nodes, Free(items), {}) && RestOk(nodes, Waiting(items), {})
    ensures ToSet(Free(items)) + Hashes(Waiting(items)) == Hashes(items) && |Free(items)| + |Waiting(items)| == |items|
  {
    if items == [] {
      assert Hashes(items) == {} && ToSet(Free(items)) == {} && Hashes(Waiting(items)) == {};
    } else {
      var k := |items| - 1;
      StartSplits(nodes, items[..k]);
      assert items == items[..k] + [items[k]];
      HashesSnoc(items[..k], items[k]);
      if items[k].deps != {} {
        HashesSnoc(Waiting(items[..k]), items[k]);
        assert Free(items) == Free(items[..k]);
      } else {
        assert Waiting(items) == Waiting(items[..k]);
        ToSetSnoc(Free(items[..k]), items[k].hash);
      }
    }
  }

  lemma StartSorting(nodes: map<nat, Node>, items: seq<Item>)
    requires Hashes(items) == nodes.Keys && |items| == |nodes.Keys|
    requires forall i :: 0 <= i < |items| ==> items[i].hash in nodes && items[i].deps == Deps(nodes, items[i].hash)
    ensures Sorting(nodes, Free(items), Waiting(items), [])
  {
    StartSplits(nodes, items);
    assert ToSet<nat>([]) == {};
  }

  lemma HashesOfAll(nodes: map<nat, Node>)
    ensures Hashes(AllItems(nodes)) == nodes.Keys
    ensures forall i :: 0 <= i < |AllItems(nodes)| ==>
      AllItems(nodes)[i].hash in nodes && AllItems(nodes)[i].deps == Deps(nodes, AllItems(nodes)[i].hash)
  {
    var items, keys := AllItems(nodes), Ascending(nodes.Keys);
    assert forall i :: 0 <= i < |items| ==> keys[i] in keys && items[i].hash == keys[i];
    forall h | h in nodes.Keys ensures h in Hashes(items) {
      var i :| 0 <= i < |keys| && keys[i] == h;
      assert items[i].hash == h;
    }
  }

  lemma SortingStarts(nodes: map<nat, Node>)
    ensures Sorting(nodes, Free(AllItems(nodes)), Waiting(AllItems(nodes)), [])
  {
    HashesOfAll(nodes);
    StartSorting(nodes, AllItems(nodes));
  }

  /** A cycle of dependencies. */
  ghost predicate Cycle(nodes: map<nat, Node>, c: seq<nat>) {
    c != [] && Walk(nodes, c) && c[0] in Deps(nodes, c[|c| - 1])
  }

  ghost predicate Walk(nodes: map<nat, Node>, c: seq<nat>) {
    (forall i :: 0 <= i < |c| ==> c[i] in nodes) &&
    forall i, j :: 0 <= i && j == i + 1 < |c| ==> c[j] in Deps(nodes, c[i])
  }

  /** Following dependencies leads ever further towards the front of a respected order. */
  lemma {:induction false} WalkGoesBack(nodes: map<nat, Node>, sorted: seq<nat>, c: seq<nat>, i: nat, first: nat)
    returns (at: nat)
    requires Respects(nodes, sorted) && Walk(nodes, c) && i < |c| && first < |sorted| && sorted[first] == c[0]
    ensures at < |sorted| && sorted[at] == c[i] && at + i <= first
  {
    if i == 0 {
      at := first;
    } else {
      var before := WalkGoesBack(nodes, sorted, c, i - 1, first);
      assert c[i] in Deps(nodes, c[i - 1]);
      at :| 0 <= at < before && sorted[at] == c[i];
    }
  }

  lemma NoCycleInOrder(nodes: map<nat, Node>, sorted: seq<nat>, c: seq<nat>)
    requires Respects(nodes, sorted) && Distinct(sorted) && ToSet(sorted) == nodes.Keys
    ensures !Cycle(nodes, c)
  {
    if Cycle(nodes, c) {
      assert c[0] in ToSet(sorted);
      var first :| 0 <= first < |sorted| && sorted[first] == c[0];
      var last := WalkGoesBack(nodes, sorted, c, |c| - 1, first);
    }
  }

  lemma WalkCloses(nodes: map<nat, Node>, walk: seq<nat>, j: nat) returns (c: seq<nat>)
    requires j < |walk| && Walk(nodes, walk) && walk[j] in Deps(nodes, walk[|walk| - 1])
    ensures Cycle(nodes, c)
  {
    c := walk[j..];
    forall a, b | 0 <= a && b == a + 1 < |c| ensures c[b] in Deps(nodes, c[a]) {
      assert c[a] == walk[j + a] && c[b] == walk[j + b];
    }
  }

  lemma WalkExtends(nodes: map<nat, Node>, walk: seq<nat>, d: nat)
    requires walk != [] && Walk(nodes, walk) && Distinct(walk) && d !in walk && d in nodes &&
      d in Deps(nodes, walk[|walk| - 1])
    ensures Walk(nodes, walk + [d]) && Distinct(walk + [d])
  {}

  /** Nodes that all depend on one another contain a cycle. */
  lemma {:induction false} FindCycle(nodes: map<nat, Node>, stuck: set<nat>, walk: seq<nat>) returns (c: seq<nat>)
    requires stuck <= nodes.Keys && forall h :: h in stuck ==> Deps(nodes, h) * stuck != {}
    requires walk != [] && Walk(nodes, walk) && Distinct(walk) && ToSet(walk) <= stuck
    ensures Cycle(nodes, c)
    decreases |stuck| - |walk|
  {
    DistinctSize(walk);
    SubsetSize(ToSet(walk), stuck);
    var last := walk[|walk| - 1];
    assert last in ToSet(walk);
    var d :| d in Deps(nodes, last) * stuck;
    if d in walk {
      var j :| 0 <= j < |walk| && walk[j] == d;
      c := WalkCloses(nodes, walk, j);
    } else {
      WalkExtends(nodes, walk, d);
      ToSetSnoc(walk, d);
      DistinctSize(walk + [d]);
      SubsetSize(ToSet(walk + [d]), stuck);
      c := FindCycle(nodes, stuck, walk + [d]);
    }
  }

  lemma {:induction false} FullSizeDistinct(q: seq<nat>)
    ensures |ToSet(q)| <= |q|
    ensures |ToSet(q)| == |q| ==> Distinct(q)
  {
    if q != [] {
      var front := q[..|q| - 1];
      FullSizeDistinct(front);
      assert q == front + [q[|q| - 1]];
      ToSetAppend(front, [q[|q| - 1]]);
      assert ToSet([q[|q| - 1]]) == {q[|q| - 1]};
    }
  }

  lemma StuckDepend(nodes: map<nat, Node>, left: seq<Item>, sorted: seq<nat>)
    requires ValidNodes(nodes) && Sorting(nodes, [], left, sorted)
    ensures Hashes(left) <= nodes.Keys && forall h :: h in Hashes(left) ==> Deps(nodes, h) * Hashes(left) != {}
  {
    forall h | h in Hashes(left) ensures h in nodes && Deps(nodes, h) * Hashes(left) != {} {
      var i :| 0 <= i < |left| && left[i].hash == h;
      var d :| d in left[i].deps;
      assert d in Deps(nodes, h) && d in nodes.Keys && d !in ToSet(sorted);
      assert d in Deps(nodes, h) * Hashes(left);
    }
  }

  /** The sort returns every node exactly once, after all it depends on, when the graph has
      no cycle, and comes up short exactly when it has one. */
  lemma SortedIffAcyclic(nodes: map<nat, Node>)
    requires ValidNodes(nodes)
    ensures
      var sorted := SortOrder(nodes);
      Respects(nodes, sorted) && |sorted| <= |nodes.Keys| && ToSet(sorted) <= nodes.Keys &&
      (|sorted| == |nodes.Keys| <==> !exists c :: Cycle(nodes, c)) &&
      (|sorted| == |nodes.Keys| ==> Distinct(sorted) && ToSet(sorted) == nodes.Keys)
  {
    var sorted := SortOrder(nodes);
    SortingStarts(nodes);
    var left := OrderEnds(nodes, Free(AllItems(nodes)), Waiting(AllItems(nodes)), []);
    if left == [] {
      assert ToSet(sorted) == nodes.Keys by { assert Hashes(left) == {} && ToSet<nat>([]) == {}; }
      FullSizeDistinct(sorted);
      forall c ensures !Cycle(nodes, c) { NoCycleInOrder(nodes, sorted, c); }
    } else {
      StuckDepend(nodes, left, sorted);
      assert left[0].hash in Hashes(left);
      var c := FindCycle(nodes, Hashes(left), [left[0].hash]);
    }
  }

  // ----- what is left of the edges ----------------------------------------------------------------------

  /** The nodes of a graph that could be sorted come back as they were exactly when the
      graph has no edges. */
  lemma EdgesSurvive(nodes: map<nat, Node>, sorted: seq<Node>)
    requires ValidNodes(nodes) && HashesOf(sorted) == SortOrder(nodes) && |sorted| == |nodes.Keys|
    requires Copies(nodes, sorted) && Bare(sorted)
    ensures (forall i :: 0 <= i < |sorted| ==> sorted[i] == nodes[sorted[i].hash]) <==>
      forall h :: h in nodes ==> nodes[h].edges == []
  {
    SortedIffAcyclic(nodes);
    forall h | h in nodes ensures exists i :: 0 <= i < |sorted| && sorted[i].hash == h {
      assert h in ToSet(HashesOf(sorted));
      var i :| 0 <= i < |sorted| && HashesOf(sorted)[i] == h;
      assert sorted[i].hash == h;
    }
  }

  lemma OneEdgeAcyclic(nodes: map<nat, Node>, c: seq<nat>)
    requires nodes.Keys == {0, 1} && nodes[1].edges == [0] && nodes[0].edges == []
    ensures !Cycle(nodes, c)
  {
    assert |c| > 1 && Walk(nodes, c) ==> c[1] in Deps(nodes, c[0]);
  }

  /** One edge is added; the sort returns its node without it. */
  method SortOneEdge() returns (g: Graph, sorted: seq<Node>)
    ensures g.nodes.Keys == {0, 1} && g.nodes[1] == Node(1, 0, [0])
    ensures Node(1, 0, []) in sorted && Node(1, 0, [0]) !in sorted
  {
    g := new Graph();
    g.InitializeNode(1, 0);
    g.AddEdge(1, 0);
    forall c ensures !Cycle(g.nodes, c) { OneEdgeAcyclic(g.nodes, c); }
    SortedIffAcyclic(g.nodes);
    var ok;
    sorted, ok := g.Sort();
    assert 1 in ToSet(HashesOf(sorted));
    ghost var i :| 0 <= i < |sorted| && HashesOf(sorted)[i] == 1;
    assert sorted[i] == Node(1, 0, []);
  }
}
