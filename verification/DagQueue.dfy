/** The order in which a topological sort returns the nodes, told from positions alone. */
module DagQueue {
  import opened Base
  import opened Dag

  /** h has no dependencies left once the first n of all have been taken, and not before. */
  ghost predicate ReadyAfter(nodes: map<nat, Node>, all: seq<nat>, n: nat, h: nat) {
    h in nodes && n <= |all| && ToSet(nodes[h].edges) <= ToSet(all[..n]) &&
    (n > 0 ==> !(ToSet(nodes[h].edges) <= ToSet(all[..n - 1])))
  }

  lemma ReadyOnce(nodes: map<nat, Node>, all: seq<nat>, m: nat, n: nat, h: nat)
    requires ReadyAfter(nodes, all, m, h) && ReadyAfter(nodes, all, n, h)
    ensures m == n
  {}

  /** at[i] tells after how many nodes all[i] was ready, at most taken; nodes that were ready at
      the same time follow each other by hash. */
  ghost predicate Queued(nodes: map<nat, Node>, all: seq<nat>, at: seq<nat>, taken: nat) {
    |at| == |all| && taken <= |all| &&
    (forall i :: 0 <= i < |all| ==> at[i] <= taken && at[i] <= i && ReadyAfter(nodes, all, at[i], all[i])) &&
    forall i, j :: 0 <= i < j < |all| ==> at[i] < at[j] || (at[i] == at[j] && all[i] < all[j])
  }

  lemma ReadyLonger(nodes: map<nat, Node>, all: seq<nat>, more: seq<nat>, n: nat, h: nat)
    requires ReadyAfter(nodes, all, n, h)
    ensures ReadyAfter(nodes, all + more, n, h)
  {
    assert (all + more)[..n] == all[..n];
    assert n > 0 ==> (all + more)[..n - 1] == all[..n - 1];
  }

  lemma QueuedNext(nodes: map<nat, Node>, all: seq<nat>, at: seq<nat>, taken: nat, freed: seq<nat>)
    requires Queued(nodes, all, at, taken) && taken < |all| && StrictlyAscending(freed)
    requires forall h :: h in freed ==> ReadyAfter(nodes, all, taken + 1, h)
    ensures Queued(nodes, all + freed, at + seq(|freed|, _ => taken + 1), taken + 1)
  {
    var all', at' := all + freed, at + seq(|freed|, _ => taken + 1);
    forall i | 0 <= i < |all'| ensures at'[i] <= taken + 1 && at'[i] <= i && ReadyAfter(nodes, all', at'[i], all'[i]) {
      if i >= |all| { assert freed[i - |all|] in freed; }
      ReadyLonger(nodes, all, freed, at'[i], all'[i]);
    }
  }

  /** By ascending hash, and all below bound. */
  ghost predicate ByHash(items: seq<Item>, bound: nat) {
    forall i :: 0 <= i < |items| ==>
      items[i].hash < bound && forall j :: i < j < |items| ==> items[i].hash < items[j].hash
  }

  ghost predicate AscendingBelow(q: seq<nat>, bound: nat) {
    forall i :: 0 <= i < |q| ==> q[i] < bound && forall j :: i < j < |q| ==> q[i] < q[j]
  }

  lemma {:induction false} StrikeKeepsOrder(items: seq<Item>, root: nat, bound: nat)
    requires ByHash(items, bound)
    ensures ByHash(Kept(items, root), bound) && AscendingBelow(Freed(items, root), bound)
  {
    if items != [] { StrikeKeepsOrder(items[..|items| - 1], root, items[|items| - 1].hash); }
  }

  lemma {:induction false} SplitKeepsOrder(items: seq<Item>, bound: nat)
    requires ByHash(items, bound)
    ensures ByHash(Waiting(items), bound) && AscendingBelow(Free(items), bound)
  {
    if items != [] { SplitKeepsOrder(items[..|items| - 1], items[|items| - 1].hash); }
  }

  /** A node that is freed was not ready before. */
  lemma {:induction false} FreedWaited(nodes: map<nat, Node>, items: seq<Item>, root: nat, done: set<nat>)
    requires RestOk(nodes, items, done)
    ensures forall h :: h in Freed(items, root) ==> h in nodes && !(Deps(nodes, h) <= done)
  {
    if items != [] { FreedWaited(nodes, items[..|items| - 1], root, done); }
  }

  lemma FreedIsReady(nodes: map<nat, Node>, queue: seq<nat>, rest: seq<Item>, sorted: seq<nat>)
    requires Sorting(nodes, queue, rest, sorted) && queue != []
    ensures forall h :: h in Freed(rest, queue[0]) ==> ReadyAfter(nodes, sorted + queue, |sorted| + 1, h)
  {
    var all := sorted + queue;
    assert all[..|sorted|] == sorted && all[..|sorted| + 1] == sorted + [queue[0]];
    StrikeKeeps(nodes, rest, queue[0], ToSet(sorted));
    FreedWaited(nodes, rest, queue[0], ToSet(sorted));
    ToSetSnoc(sorted, queue[0]);
  }

  /** The state of the sort: what was taken and what is queued, with the times of getting
      ready, and the rest by hash. */
  ghost predicate Queueing(nodes: map<nat, Node>, queue: seq<nat>, rest: seq<Item>, sorted: seq<nat>, at: seq<nat>,
        bound: nat)
  {
    Sorting(nodes, queue, rest, sorted) && ByHash(rest, bound) && Queued(nodes, sorted + queue, at, |sorted|)
  }

  lemma QueueingNext(nodes: map<nat, Node>, queue: seq<nat>, rest: seq<Item>, sorted: seq<nat>, at: seq<nat>,
        bound: nat)
    returns (at': seq<nat>)
    requires Queueing(nodes, queue, rest, sorted, at, bound) && queue != []
    ensures Queueing(nodes, queue[1..] + Freed(rest, queue[0]), Kept(rest, queue[0]), sorted + [queue[0]], at', bound)
  {
    StrikeKeepsOrder(rest, queue[0], bound);
    FreedIsReady(nodes, queue, rest, sorted);
    at' := FreedAreQueued(nodes, queue, sorted, at, Freed(rest, queue[0]), bound);
    SortingNext(nodes, queue, rest, sorted);
  }

  lemma FreedAreQueued(nodes: map<nat, Node>, queue: seq<nat>, sorted: seq<nat>, at: seq<nat>, freed: seq<nat>,
        bound: nat)
    returns (at': seq<nat>)
    requires queue != [] && Queued(nodes, sorted + queue, at, |sorted|) && AscendingBelow(freed, bound)
    requires forall h :: h in freed ==> ReadyAfter(nodes, sorted + queue, |sorted| + 1, h)
    ensures Queued(nodes, sorted + [queue[0]] + (queue[1..] + freed), at', |sorted + [queue[0]]|)
  {
    QueuedNext(nodes, sorted + queue, at, |sorted|, freed);
    at' := at + seq(|freed|, _ => |sorted| + 1);
    assert sorted + [queue[0]] + (queue[1..] + freed) == (sorted + queue) + freed;
  }

  lemma {:induction false} OrderQueues(nodes: map<nat, Node>, queue: seq<nat>, rest: seq<Item>, sorted: seq<nat>,
        at: seq<nat>, bound: nat)
    returns (at': seq<nat>)
    requires Queueing(nodes, queue, rest, sorted, at, bound)
    ensures Queued(nodes, Order(queue, rest, sorted), at', |Order(queue, rest, sorted)|)
    decreases |queue| + |rest|
  {
    if queue == [] {
      assert sorted + queue == sorted;
      at' := at;
    } else {
      at' := QueueingNext(nodes, queue, rest, sorted, at, bound);
      KeptAndFreed(rest, queue[0]);
      at' := OrderQueues(nodes, queue[1..] + Freed(rest, queue[0]), Kept(rest, queue[0]), sorted + [queue[0]], at',
        bound);
    }
  }

  lemma AllByHash(nodes: map<nat, Node>) returns (bound: nat)
    ensures ByHash(AllItems(nodes), bound)
  {
    var keys := Ascending(nodes.Keys);
    bound := if keys == [] then 0 else keys[|keys| - 1] + 1;
    KeysByHash(AllItems(nodes), keys, bound);
  }

  lemma KeysByHash(items: seq<Item>, keys: seq<nat>, bound: nat)
    requires StrictlyAscending(keys) && (keys != [] ==> keys[|keys| - 1] < bound) && |items| == |keys|
    requires forall i :: 0 <= i < |keys| ==> items[i].hash == keys[i]
    ensures ByHash(items, bound)
  {}

  lemma FreeIsQueued(nodes: map<nat, Node>, free: seq<nat>)
    requires StrictlyAscending(free) && QueueOk(nodes, free, {})
    ensures Queued(nodes, free, seq(|free|, _ => 0), 0)
  {
    forall i | 0 <= i < |free| ensures ReadyAfter(nodes, free, 0, free[i]) {
      assert free[i] in free;
      assert Deps(nodes, free[i]) <= {};
    }
  }

  lemma SortQueues(nodes: map<nat, Node>) returns (at: seq<nat>)
    ensures Queued(nodes, SortOrder(nodes), at, |SortOrder(nodes)|)
  {
    var items := AllItems(nodes);
    var bound := AllByHash(nodes);
    SplitKeepsOrder(items, bound);
    SortingStarts(nodes);
    assert ToSet<nat>([]) == {} && [] + Free(items) == Free(items);
    FreeIsQueued(nodes, Free(items));
    at := OrderQueues(nodes, Free(items), Waiting(items), [], seq(|Free(items)|, _ => 0), bound);
  }

  /** Every node that comes back was ready at some point before its turn. */
  lemma ReadyBefore(nodes: map<nat, Node>, i: nat) returns (n: nat)
    requires i < |SortOrder(nodes)|
    ensures n <= i && ReadyAfter(nodes, SortOrder(nodes), n, SortOrder(nodes)[i])
  {
    var at := SortQueues(nodes);
    n := at[i];
  }

  /** Nodes come back in the order in which they became ready: first those without
      dependencies, then each after the last node it had to wait for; nodes that waited for
      the same one follow each other by hash. */
  lemma FirstInFirstOut(nodes: map<nat, Node>, i: nat, j: nat, m: nat, n: nat)
    requires i < j < |SortOrder(nodes)|
    requires ReadyAfter(nodes, SortOrder(nodes), m, SortOrder(nodes)[i])
    requires ReadyAfter(nodes, SortOrder(nodes), n, SortOrder(nodes)[j])
    ensures m < n || (m == n && SortOrder(nodes)[i] < SortOrder(nodes)[j])
  {
    var at := SortQueues(nodes);
    BothReady(nodes, SortOrder(nodes), at, i, j, m, n);
  }

  lemma BothReady(nodes: map<nat, Node>, all: seq<nat>, at: seq<nat>, i: nat, j: nat, m: nat, n: nat)
    requires Queued(nodes, all, at, |all|) && i < j < |all|
    requires ReadyAfter(nodes, all, m, all[i]) && ReadyAfter(nodes, all, n, all[j])
    ensures m < n || (m == n && all[i] < all[j])
  {
    ReadyOnce(nodes, all, m, at[i], all[i]);
    ReadyOnce(nodes, all, n, at[j], all[j]);
  }
}
