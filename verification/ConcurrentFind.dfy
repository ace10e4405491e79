/** Searching a tree, on one thread and with a pool of workers. */
module ConcurrentFind {
  import opened Tallies
  import opened Powers
  import Pool = ThreadPool

  /** Branches carry the id that the pruning test looks at; leaves hold entities. */
  datatype Tree = Leaf(id: nat, entities: seq<nat>) | Branch(id: nat, children: seq<Tree>)

  /** enters: a branch's region meets the searched one; picks: an entity lies in it. */
  datatype Query = Query(enters: nat -> bool, picks: nat -> bool, dim: nat)

  /** Every branch has 2^dim children. */
  ghost predicate Shaped(q: Query, t: Tree) {
    t.Branch? ==> |t.children| == Pow2(q.dim) && forall i :: 0 <= i < |t.children| ==> Shaped(q, t.children[i])
  }

  // ----- one thread ------------------------------------------------------------------------------

  ghost function Picked(q: Query, entities: seq<nat>): seq<nat> {
    if entities == [] then []
    else
      var k := |entities| - 1;
      Picked(q, entities[..k]) + if q.picks(entities[k]) then [entities[k]] else []
  }

  /** Everything picked below the entered children of a branch. */
  ghost function Found(q: Query, t: Tree): seq<nat>
    decreases t, 0
  {
    match t
    case Leaf(_, entities) => Picked(q, entities)
    case Branch(_, children) => FoundBelow(q, t, |children|)
  }

  ghost function FoundBelow(q: Query, t: Tree, n: nat): seq<nat>
    requires t.Branch? && n <= |t.children|
    decreases t, 0, n
  {
    if n == 0 then []
    else
      FoundBelow(q, t, n - 1) + if q.enters(t.children[n - 1].id) then Found(q, t.children[n - 1]) else []
  }

  method PickInto(q: Query, leaf: seq<nat>, ents: seq<nat>) returns (ents': seq<nat>)
    ensures ents' == ents + Picked(q, leaf)
  {
    ents' := ents;
    var i := 0;
    while i < |leaf|
      invariant 0 <= i <= |leaf| && ents' == ents + Picked(q, leaf[..i])
    {
      assert leaf[..i + 1][..i] == leaf[..i];
      if q.picks(leaf[i]) {
        ents' := ents' + [leaf[i]];
      }
      i := i + 1;
    }
    assert leaf[..i] == leaf;
  }

  /** The sequential search appends what it finds. */
  method FindInto(q: Query, t: Tree, ents: seq<nat>) returns (ents': seq<nat>)
    ensures ents' == ents + Found(q, t)
    decreases t
  {
    if t.Leaf? {
      ents' := PickInto(q, t.entities, ents);
      return;
    }
    ents' := ents;
    var i := 0;
    while i < |t.children|
      invariant 0 <= i <= |t.children| && ents' == ents + FoundBelow(q, t, i)
    {
      var child := t.children[i];
      if q.enters(child.id) {
        ents' := FindInto(q, child, ents');
      }
      i := i + 1;
    }
  }

  // ----- many threads ------------------------------------------------------------------------------

  /** What the traversing thread has still to do. Queue is the first half of queueing a
      job, Announce the second. */
  datatype Task =
    | Visit(tree: Tree, depth: nat)
    | Release(times: nat)
    | Queue(tree: Tree)
    | Announce

  /** A worker running a job appends what it found under the mutex and then releases the
      semaphore; appended says which workers have done the first. */
  datatype State = State(
    work: seq<Task>,
    returned: bool,
    count: int,
    ents: seq<nat>,
    pool: Pool.State<Tree>,
    appended: seq<bool>)

  /** One task for each child, in order; depth is that of the children. */
  ghost function ChildTask(q: Query, queueDepth: nat, depth: nat, child: Tree): Task
    requires depth <= queueDepth
  {
    if q.enters(child.id) then
      if depth == queueDepth then Queue(child) else Visit(child, depth)
    else Release(Pow2((queueDepth - depth) * q.dim))
  }

  ghost function ChildTasks(q: Query, queueDepth: nat, depth: nat, children: seq<Tree>): seq<Task>
    requires depth <= queueDepth
  {
    seq(|children|, i requires 0 <= i < |children| => ChildTask(q, queueDepth, depth, children[i]))
  }

  ghost predicate StartState(s: State, q: Query, queueDepth: nat, start: Tree, depth: nat) {
    depth < queueDepth && s.work == [Visit(start, depth)] && !s.returned &&
    s.count == 1 - Pow2((queueDepth - depth) * q.dim) && s.ents == [] &&
    Pool.Started(s.pool) && |s.pool.producers| == 1 && |s.appended| == |s.pool.workers| &&
    forall w :: 0 <= w < |s.appended| ==> !s.appended[w]
  }

  // ----- steps of the traversing thread ---------------------------------------------------------------

  ghost predicate VisitLeaf(s: State, s': State, q: Query, queueDepth: nat) {
    s.work != [] && s.work[0].Visit? && s.work[0].tree.Leaf? && s.work[0].depth <= queueDepth &&
    s' == s.(
      ents := s.ents + Picked(q, s.work[0].tree.entities),
      work := [Release(Pow2((queueDepth - s.work[0].depth) * q.dim))] + s.work[1..])
  }

  ghost predicate VisitBranch(s: State, s': State, q: Query, queueDepth: nat) {
    s.work != [] && s.work[0].Visit? && s.work[0].tree.Branch? && s.work[0].depth + 1 <= queueDepth &&
    s' == s.(work := ChildTasks(q, queueDepth, s.work[0].depth + 1, s.work[0].tree.children) + s.work[1..])
  }

  ghost predicate ReleaseOne(s: State, s': State) {
    s.work != [] && s.work[0].Release? &&
    s' == if s.work[0].times == 0 then s.(work := s.work[1..])
          else s.(count := s.count + 1, work := [Release(s.work[0].times - 1)] + s.work[1..])
  }

  ghost predicate QueueJob(s: State, s': State) {
    s.work != [] && s.work[0].Queue? &&
    Pool.Push(s.pool, s'.pool, 0, s.work[0].tree) &&
    s' == s.(work := [Announce] + s.work[1..], pool := s'.pool)
  }

  ghost predicate AnnounceJob(s: State, s': State) {
    s.work != [] && s.work[0].Announce? &&
    Pool.Announce(s.pool, s'.pool, 0) &&
    s' == s.(work := s.work[1..], pool := s'.pool)
  }

  /** The last acquire: the search returns. */
  ghost predicate Return(s: State, s': State) {
    s.work == [] && !s.returned && s.count > 0 && s' == s.(count := s.count - 1, returned := true)
  }

  // ----- steps of a worker -------------------------------------------------------------------------------

  ghost predicate WorkerWakes(s: State, s': State, w: nat) {
    (Pool.Acquire(s.pool, s'.pool, w) || Pool.Take(s.pool, s'.pool, w)) && s' == s.(pool := s'.pool)
  }

  ghost predicate WorkerAppends(s: State, s': State, q: Query, w: nat) {
    w < |s.appended| == |s.pool.workers| && s.pool.workers[w].Running? && !s.appended[w] &&
    s' == s.(ents := s.ents + Found(q, s.pool.workers[w].job), appended := s.appended[w := true])
  }

  ghost predicate WorkerReleases(s: State, s': State, w: nat) {
    w < |s.appended| == |s.pool.workers| && s.appended[w] &&
    Pool.Finish(s.pool, s'.pool, w) &&
    s' == s.(count := s.count + 1, appended := s.appended[w := false], pool := s'.pool)
  }

  ghost predicate Next(s: State, s': State, q: Query, queueDepth: nat) {
    VisitLeaf(s, s', q, queueDepth) || VisitBranch(s, s', q, queueDepth) ||
    ReleaseOne(s, s') || QueueJob(s, s') || AnnounceJob(s, s') || Return(s, s') ||
    (exists w: nat :: WorkerWakes(s, s', w)) ||
    (exists w: nat :: WorkerAppends(s, s', q, w)) ||
    (exists w: nat :: WorkerReleases(s, s', w))
  }

  // ----- completion slots ------------------------------------------------------------------------------------

  /** The releases a task still stands for, its jobs' releases included. */
  ghost function TaskSlots(q: Query, queueDepth: nat, t: Task): nat {
    match t
    case Visit(_, depth) => if depth <= queueDepth then Pow2((queueDepth - depth) * q.dim) else 0
    case Release(times) => times
    case Queue(_) => 1
    case Announce => 0
  }

  ghost function Slots(q: Query, queueDepth: nat, work: seq<Task>): nat {
    Tally((t: Task) => TaskSlots(q, queueDepth, t), work)
  }

  lemma SlotsFirst(q: Query, queueDepth: nat, t: Task, rest: seq<Task>)
    ensures Slots(q, queueDepth, [t] + rest) == TaskSlots(q, queueDepth, t) + Slots(q, queueDepth, rest)
  {
    assert ([t] + rest)[1..] == rest;
  }

  lemma ChildTasksSnoc(q: Query, queueDepth: nat, depth: nat, children: seq<Tree>, n: nat)
    requires depth <= queueDepth && n < |children|
    ensures ChildTasks(q, queueDepth, depth, children[..n + 1]) ==
      ChildTasks(q, queueDepth, depth, children[..n]) + [ChildTask(q, queueDepth, depth, children[n])]
  {}

  /** Every child stands for the same number of slots, entered or not. */
  lemma {:induction false} ChildSlots(q: Query, queueDepth: nat, depth: nat, children: seq<Tree>, n: nat)
    requires depth <= queueDepth && n <= |children|
    ensures Slots(q, queueDepth, ChildTasks(q, queueDepth, depth, children[..n])) ==
      n * Pow2((queueDepth - depth) * q.dim)
  {
    if n > 0 {
      var k := n - 1;
      ChildSlots(q, queueDepth, depth, children, k);
      ChildTasksSnoc(q, queueDepth, depth, children, k);
      var c := ChildTask(q, queueDepth, depth, children[k]);
      TallySnoc((t: Task) => TaskSlots(q, queueDepth, t), ChildTasks(q, queueDepth, depth, children[..k]), c);
      assert depth == queueDepth ==> (queueDepth - depth) * q.dim == 0;
      assert TaskSlots(q, queueDepth, c) == Pow2((queueDepth - depth) * q.dim);
    }
  }

  lemma SlotsAppend(q: Query, queueDepth: nat, a: seq<Task>, b: seq<Task>)
    ensures Slots(q, queueDepth, a + b) == Slots(q, queueDepth, a) + Slots(q, queueDepth, b)
  {
    TallyAppend((t: Task) => TaskSlots(q, queueDepth, t), a, b);
  }

  lemma OneLevel(dim: nat, below: nat)
    ensures Pow2((below + 1) * dim) == Pow2(dim) * Pow2(below * dim)
  {
    Pow2Add(dim, below * dim);
    assert (below + 1) * dim == dim + below * dim;
  }

  /** The children of a branch stand for exactly the slots of the branch. */
  lemma BranchSlots(q: Query, queueDepth: nat, t: Tree, depth: nat, rest: seq<Task>)
    requires t.Branch? && |t.children| == Pow2(q.dim) && depth < queueDepth
    ensures Slots(q, queueDepth, ChildTasks(q, queueDepth, depth + 1, t.children) + rest) ==
      Slots(q, queueDepth, [Visit(t, depth)] + rest)
  {
    var below := queueDepth - (depth + 1);
    ChildSlots(q, queueDepth, depth + 1, t.children, |t.children|);
    assert t.children[..|t.children|] == t.children;
    SlotsAppend(q, queueDepth, ChildTasks(q, queueDepth, depth + 1, t.children), rest);
    SlotsFirst(q, queueDepth, Visit(t, depth), rest);
    OneLevel(q.dim, below);
    assert queueDepth - depth == below + 1;
  }

  ghost function Active(workers: seq<Pool.Worker<Tree>>): nat {
    Tally((w: Pool.Worker<Tree>) => if w.Running? then 1 else 0, workers)
  }

  lemma ActiveUpdate(workers: seq<Pool.Worker<Tree>>, w: nat, x: Pool.Worker<Tree>)
    requires w < |workers|
    ensures Active(workers[w := x]) ==
      Active(workers) - (if workers[w].Running? then 1 else 0) + (if x.Running? then 1 else 0)
  {
    TallyUpdate((w: Pool.Worker<Tree>) => if w.Running? then 1 else 0, workers, w, x);
  }

  // ----- entities --------------------------------------------------------------------------------------------

  /** What a task will still collect, its jobs included. */
  ghost function TaskFinds(q: Query, t: Task): seq<nat> {
    match t
    case Visit(tree, _) => Found(q, tree)
    case Release(_) => []
    case Queue(tree) => Found(q, tree)
    case Announce => []
  }

  ghost function WorkHas(q: Query, work: seq<Task>, x: nat): nat {
    Tally((t: Task) => multiset(TaskFinds(q, t))[x], work)
  }

  ghost function QueueHas(q: Query, queue: seq<Tree>, x: nat): nat {
    Tally((t: Tree) => multiset(Found(q, t))[x], queue)
  }

  /** What each worker still has to append. */
  ghost function InHand(q: Query, s: State): (r: seq<seq<nat>>)
    requires |s.appended| == |s.pool.workers|
    ensures |r| == |s.appended|
  {
    seq(|s.appended|, w requires 0 <= w < |s.appended| =>
      if s.pool.workers[w].Running? && !s.appended[w] then Found(q, s.pool.workers[w].job) else [])
  }

  ghost function HandsHave(hands: seq<seq<nat>>, x: nat): nat {
    Tally((es: seq<nat>) => multiset(es)[x], hands)
  }

  lemma HandsUpdate(hands: seq<seq<nat>>, w: nat, es: seq<nat>, x: nat)
    requires w < |hands|
    ensures HandsHave(hands[w := es], x) == HandsHave(hands, x) - multiset(hands[w])[x] + multiset(es)[x]
  {
    TallyUpdate((es: seq<nat>) => multiset(es)[x], hands, w, es);
  }

  /** The entities collected so far and those still to come. */
  ghost function Accounted(q: Query, s: State, x: nat): nat
    requires |s.appended| == |s.pool.workers|
  {
    multiset(s.ents)[x] + WorkHas(q, s.work, x) + QueueHas(q, s.pool.queue, x) + HandsHave(InHand(q, s), x)
  }

  lemma WorkFirst(q: Query, t: Task, rest: seq<Task>, x: nat)
    ensures WorkHas(q, [t] + rest, x) == multiset(TaskFinds(q, t))[x] + WorkHas(q, rest, x)
  {
    assert ([t] + rest)[1..] == rest;
  }

  lemma {:induction false} ChildrenFind(q: Query, queueDepth: nat, depth: nat, t: Tree, n: nat, x: nat)
    requires depth <= queueDepth && t.Branch? && n <= |t.children|
    ensures WorkHas(q, ChildTasks(q, queueDepth, depth, t.children[..n]), x) == multiset(FoundBelow(q, t, n))[x]
  {
    if n > 0 {
      var k := n - 1;
      ChildrenFind(q, queueDepth, depth, t, k, x);
      ChildTasksSnoc(q, queueDepth, depth, t.children, k);
      var c := ChildTask(q, queueDepth, depth, t.children[k]);
      TallySnoc((t: Task) => multiset(TaskFinds(q, t))[x], ChildTasks(q, queueDepth, depth, t.children[..k]), c);
    }
  }

  lemma WorkAppend(q: Query, a: seq<Task>, b: seq<Task>, x: nat)
    ensures WorkHas(q, a + b, x) == WorkHas(q, a, x) + WorkHas(q, b, x)
  {
    TallyAppend((t: Task) => multiset(TaskFinds(q, t))[x], a, b);
  }

  lemma BranchFinds(q: Query, queueDepth: nat, t: Tree, depth: nat, rest: seq<Task>, x: nat)
    requires t.Branch? && depth < queueDepth
    ensures WorkHas(q, ChildTasks(q, queueDepth, depth + 1, t.children) + rest, x) ==
      WorkHas(q, [Visit(t, depth)] + rest, x)
  {
    ChildrenFind(q, queueDepth, depth + 1, t, |t.children|, x);
    assert t.children[..|t.children|] == t.children;
    WorkAppend(q, ChildTasks(q, queueDepth, depth + 1, t.children), rest, x);
    WorkFirst(q, Visit(t, depth), rest, x);
  }

  // ----- the invariant -----------------------------------------------------------------------------------------

  ghost predicate TaskOk(q: Query, queueDepth: nat, t: Task) {
    t.Visit? ==> t.depth < queueDepth && Shaped(q, t.tree)
  }

  /** A job is announced before anything else is done. */
  ghost predicate WorkOk(q: Query, queueDepth: nat, work: seq<Task>) {
    (forall i :: 0 <= i < |work| ==> TaskOk(q, queueDepth, work[i])) &&
    forall i :: 1 <= i < |work| ==> !work[i].Announce?
  }

  ghost predicate PoolOk(s: State) {
    Pool.Inv(s.pool) && !s.pool.done && |s.appended| == |s.pool.workers| &&
    s.pool.producers == [if s.work != [] && s.work[0].Announce? then Pool.Pushed else Pool.Ready] &&
    forall w :: 0 <= w < |s.appended| && s.appended[w] ==> s.pool.workers[w].Running?
  }

  /** Releases still to come: the traversal's, the queued jobs' and the running jobs'. */
  ghost function Outstanding(q: Query, queueDepth: nat, s: State): nat {
    Slots(q, queueDepth, s.work) + |s.pool.queue| + Active(s.pool.workers)
  }

  ghost predicate Inv(s: State, q: Query, queueDepth: nat, start: Tree) {
    WorkOk(q, queueDepth, s.work) && PoolOk(s) && (s.returned ==> s.work == [] && s.count >= 0) &&
    s.count + Outstanding(q, queueDepth, s) == (if s.returned then 0 else 1) &&
    forall x :: Accounted(q, s, x) == multiset(Found(q, start))[x]
  }

  // ----- every step keeps the invariant ----------------------------------------------------------------------------

  lemma StartInv(s: State, q: Query, queueDepth: nat, start: Tree, depth: nat)
    requires StartState(s, q, queueDepth, start, depth) && Shaped(q, start)
    ensures Inv(s, q, queueDepth, start)
  {
    Pool.StartedInv(s.pool);
    SlotsFirst(q, queueDepth, Visit(start, depth), []);
    TallyZero((w: Pool.Worker<Tree>) => if w.Running? then 1 else 0, s.pool.workers);
    assert [Visit(start, depth)] + [] == s.work;
    forall x ensures Accounted(q, s, x) == multiset(Found(q, start))[x] {
      WorkFirst(q, Visit(start, depth), [], x);
      TallyZero((es: seq<nat>) => multiset(es)[x], InHand(q, s));
    }
  }

  lemma HeadAndRest(work: seq<Task>)
    requires work != []
    ensures [work[0]] + work[1..] == work
  {}

  lemma VisitLeafKeeps(s: State, s': State, q: Query, queueDepth: nat, start: Tree)
    requires Inv(s, q, queueDepth, start) && VisitLeaf(s, s', q, queueDepth)
    ensures Inv(s', q, queueDepth, start)
  {
    var t, rest := s.work[0], s.work[1..];
    var r := Release(Pow2((queueDepth - t.depth) * q.dim));
    HeadAndRest(s.work);
    SlotsFirst(q, queueDepth, t, rest);
    SlotsFirst(q, queueDepth, r, rest);
    assert InHand(q, s') == InHand(q, s);
    forall x ensures Accounted(q, s', x) == multiset(Found(q, start))[x] {
      assert Accounted(q, s, x) == multiset(Found(q, start))[x];
      WorkFirst(q, t, rest, x);
      WorkFirst(q, r, rest, x);
    }
  }

  lemma VisitBranchWork(work: seq<Task>, q: Query, queueDepth: nat)
    requires work != [] && work[0].Visit? && work[0].tree.Branch? && WorkOk(q, queueDepth, work)
    ensures work[0].depth < queueDepth
    ensures
      var work' := ChildTasks(q, queueDepth, work[0].depth + 1, work[0].tree.children) + work[1..];
      WorkOk(q, queueDepth, work') && (work' != [] ==> !work'[0].Announce?) &&
      Slots(q, queueDepth, work') == Slots(q, queueDepth, work)
  {
    HeadAndRest(work);
    assert TaskOk(q, queueDepth, work[0]);
    BranchSlots(q, queueDepth, work[0].tree, work[0].depth, work[1..]);
    ChildTasksOk(q, queueDepth, work[0].tree, work[0].depth + 1, work[1..]);
  }

  lemma VisitBranchKeeps(s: State, s': State, q: Query, queueDepth: nat, start: Tree)
    requires Inv(s, q, queueDepth, start) && VisitBranch(s, s', q, queueDepth)
    ensures Inv(s', q, queueDepth, start)
  {
    var t, rest := s.work[0], s.work[1..];
    HeadAndRest(s.work);
    VisitBranchWork(s.work, q, queueDepth);
    assert InHand(q, s') == InHand(q, s);
    forall x ensures Accounted(q, s', x) == multiset(Found(q, start))[x] {
      assert Accounted(q, s, x) == multiset(Found(q, start))[x];
      BranchFinds(q, queueDepth, t.tree, t.depth, rest, x);
    }
  }

  lemma ChildTasksOk(q: Query, queueDepth: nat, t: Tree, depth: nat, rest: seq<Task>)
    requires t.Branch? && Shaped(q, t) && depth <= queueDepth
    requires (forall i :: 0 <= i < |rest| ==> TaskOk(q, queueDepth, rest[i])) &&
      forall i :: 0 <= i < |rest| ==> !rest[i].Announce?
    ensures
      var work := ChildTasks(q, queueDepth, depth, t.children) + rest;
      WorkOk(q, queueDepth, work) && (work != [] ==> !work[0].Announce?)
  {
    var work := ChildTasks(q, queueDepth, depth, t.children) + rest;
    forall i | 0 <= i < |work| ensures TaskOk(q, queueDepth, work[i]) && !work[i].Announce? {
      if i < |t.children| {
        assert work[i] == ChildTask(q, queueDepth, depth, t.children[i]);
      } else {
        assert work[i] == rest[i - |t.children|];
      }
    }
  }

  lemma ReleaseOneKeeps(s: State, s': State, q: Query, queueDepth: nat, start: Tree)
    requires Inv(s, q, queueDepth, start) && ReleaseOne(s, s')
    ensures Inv(s', q, queueDepth, start)
  {
    var t, rest := s.work[0], s.work[1..];
    HeadAndRest(s.work);
    SlotsFirst(q, queueDepth, t, rest);
    assert InHand(q, s') == InHand(q, s);
    if t.times > 0 {
      SlotsFirst(q, queueDepth, Release(t.times - 1), rest);
    }
    forall x ensures Accounted(q, s', x) == multiset(Found(q, start))[x] {
      assert Accounted(q, s, x) == multiset(Found(q, start))[x];
      WorkFirst(q, t, rest, x);
      if t.times > 0 { WorkFirst(q, Release(t.times - 1), rest, x); }
    }
  }

  lemma QueueJobKeeps(s: State, s': State, q: Query, queueDepth: nat, start: Tree)
    requires Inv(s, q, queueDepth, start) && QueueJob(s, s')
    ensures Inv(s', q, queueDepth, start)
  {
    var t, rest := s.work[0], s.work[1..];
    HeadAndRest(s.work);
    SlotsFirst(q, queueDepth, t, rest);
    SlotsFirst(q, queueDepth, Announce, rest);
    Pool.PushKeeps(s.pool, s'.pool, 0, t.tree);
    assert InHand(q, s') == InHand(q, s);
    forall x ensures Accounted(q, s', x) == multiset(Found(q, start))[x] {
      assert Accounted(q, s, x) == multiset(Found(q, start))[x];
      WorkFirst(q, t, rest, x);
      WorkFirst(q, Announce, rest, x);
      TallySnoc((t: Tree) => multiset(Found(q, t))[x], s.pool.queue, t.tree);
    }
  }

  lemma AnnounceJobKeeps(s: State, s': State, q: Query, queueDepth: nat, start: Tree)
    requires Inv(s, q, queueDepth, start) && AnnounceJob(s, s')
    ensures Inv(s', q, queueDepth, start)
  {
    var rest := s.work[1..];
    HeadAndRest(s.work);
    SlotsFirst(q, queueDepth, Announce, rest);
    Pool.AnnounceKeeps(s.pool, s'.pool, 0);
    assert InHand(q, s') == InHand(q, s);
    forall x ensures Accounted(q, s', x) == multiset(Found(q, start))[x] {
      assert Accounted(q, s, x) == multiset(Found(q, start))[x];
      WorkFirst(q, Announce, rest, x);
    }
  }

  lemma ReturnKeeps(s: State, s': State, q: Query, queueDepth: nat, start: Tree)
    requires Inv(s, q, queueDepth, start) && Return(s, s')
    ensures Inv(s', q, queueDepth, start)
  {
    assert InHand(q, s') == InHand(q, s);
    forall x ensures Accounted(q, s', x) == multiset(Found(q, start))[x] {
      assert Accounted(q, s, x) == multiset(Found(q, start))[x];
    }
  }

  lemma WakesKeeps(s: State, s': State, q: Query, queueDepth: nat, start: Tree, w: nat)
    requires Inv(s, q, queueDepth, start) && WorkerWakes(s, s', w)
    ensures Inv(s', q, queueDepth, start)
  {
    ActiveUpdate(s.pool.workers, w, s'.pool.workers[w]);
    if Pool.Acquire(s.pool, s'.pool, w) {
      Pool.AcquireKeeps(s.pool, s'.pool, w);
      assert InHand(q, s') == InHand(q, s);
      forall x ensures Accounted(q, s', x) == multiset(Found(q, start))[x] {
        assert Accounted(q, s, x) == multiset(Found(q, start))[x];
      }
    } else {
      Pool.TakeKeeps(s.pool, s'.pool, w);
      Pool.FrontExists(s.pool, w);
      assert InHand(q, s') == InHand(q, s)[w := Found(q, s.pool.queue[0])];
      forall x ensures Accounted(q, s', x) == multiset(Found(q, start))[x] {
        assert Accounted(q, s, x) == multiset(Found(q, start))[x];
        HandsUpdate(InHand(q, s), w, Found(q, s.pool.queue[0]), x);
      }
    }
  }

  lemma AppendsKeeps(s: State, s': State, q: Query, queueDepth: nat, start: Tree, w: nat)
    requires Inv(s, q, queueDepth, start) && WorkerAppends(s, s', q, w)
    ensures Inv(s', q, queueDepth, start)
  {
    assert InHand(q, s') == InHand(q, s)[w := []];
    forall x ensures Accounted(q, s', x) == multiset(Found(q, start))[x] {
      assert Accounted(q, s, x) == multiset(Found(q, start))[x];
      HandsUpdate(InHand(q, s), w, [], x);
    }
  }

  lemma ReleasesKeeps(s: State, s': State, q: Query, queueDepth: nat, start: Tree, w: nat)
    requires Inv(s, q, queueDepth, start) && WorkerReleases(s, s', w)
    ensures Inv(s', q, queueDepth, start)
  {
    ActiveUpdate(s.pool.workers, w, Pool.Waiting);
    Pool.FinishKeeps(s.pool, s'.pool, w);
    assert InHand(q, s') == InHand(q, s);
    forall x ensures Accounted(q, s', x) == multiset(Found(q, start))[x] {
      assert Accounted(q, s, x) == multiset(Found(q, start))[x];
    }
  }

  lemma NextKeeps(s: State, s': State, q: Query, queueDepth: nat, start: Tree)
    requires Inv(s, q, queueDepth, start) && Next(s, s', q, queueDepth)
    ensures Inv(s', q, queueDepth, start)
  {
    if VisitLeaf(s, s', q, queueDepth) {
      VisitLeafKeeps(s, s', q, queueDepth, start);
    } else if VisitBranch(s, s', q, queueDepth) {
      VisitBranchKeeps(s, s', q, queueDepth, start);
    } else if ReleaseOne(s, s') {
      ReleaseOneKeeps(s, s', q, queueDepth, start);
    } else if QueueJob(s, s') {
      QueueJobKeeps(s, s', q, queueDepth, start);
    } else if AnnounceJob(s, s') {
      AnnounceJobKeeps(s, s', q, queueDepth, start);
    } else if Return(s, s') {
      ReturnKeeps(s, s', q, queueDepth, start);
    } else if w: nat :| WorkerWakes(s, s', w) {
      WakesKeeps(s, s', q, queueDepth, start, w);
    } else if w: nat :| WorkerAppends(s, s', q, w) {
      AppendsKeeps(s, s', q, queueDepth, start, w);
    } else {
      var w: nat :| WorkerReleases(s, s', w);
      ReleasesKeeps(s, s', q, queueDepth, start, w);
    }
  }

  // ----- whole runs ------------------------------------------------------------------------------

  ghost predicate Run(run: seq<State>, q: Query, queueDepth: nat, start: Tree, depth: nat) {
    run != [] && StartState(run[0], q, queueDepth, start, depth) && Shaped(q, start) &&
    forall i, j :: 0 <= i && j == i + 1 < |run| ==> Next(run[i], run[j], q, queueDepth)
  }

  lemma {:induction false} RunKeeps(run: seq<State>, q: Query, queueDepth: nat, start: Tree, depth: nat, k: nat)
    requires Run(run, q, queueDepth, start, depth) && k < |run|
    ensures Inv(run[k], q, queueDepth, start)
  {
    if k == 0 {
      StartInv(run[0], q, queueDepth, start, depth);
    } else {
      var i := k - 1;
      RunKeeps(run, q, queueDepth, start, depth, i);
      assert Next(run[i], run[k], q, queueDepth);
      NextKeeps(run[i], run[k], q, queueDepth, start);
    }
  }

  /** Semaphore count and outstanding releases always add up to one, until the search
      returns. */
  lemma CountIsBalanced(run: seq<State>, q: Query, queueDepth: nat, start: Tree, depth: nat, k: nat)
    requires Run(run, q, queueDepth, start, depth) && k < |run|
    ensures run[k].count + Outstanding(q, queueDepth, run[k]) == if run[k].returned then 0 else 1
  {
    RunKeeps(run, q, queueDepth, start, depth, k);
  }

  lemma Occurrences(a: seq<nat>, b: seq<nat>)
    requires forall x :: multiset(a)[x] == multiset(b)[x]
    ensures multiset(a) == multiset(b)
  {}

  /** When the search returns, no job is queued or running, and what was collected is a
      rearrangement of what the sequential search finds from the same branch. */
  lemma ReturnsWhatIsFound(run: seq<State>, q: Query, queueDepth: nat, start: Tree, depth: nat, k: nat)
    requires Run(run, q, queueDepth, start, depth) && k < |run| && run[k].returned
    ensures run[k].pool.queue == []
    ensures forall w :: 0 <= w < |run[k].pool.workers| ==> !run[k].pool.workers[w].Running?
    ensures multiset(run[k].ents) == multiset(Found(q, start))
  {
    var s := run[k];
    RunKeeps(run, q, queueDepth, start, depth, k);
    TallyZero((w: Pool.Worker<Tree>) => if w.Running? then 1 else 0, s.pool.workers);
    forall x ensures multiset(s.ents)[x] == multiset(Found(q, start))[x] {
      assert Accounted(q, s, x) == multiset(Found(q, start))[x];
      TallyZero((es: seq<nat>) => multiset(es)[x], InHand(q, s));
    }
    Occurrences(s.ents, Found(q, start));
  }

  // ----- every run ends by returning -------------------------------------------------------------

  /** Steps a task can still cause. */
  ghost function TaskWeight(q: Query, queueDepth: nat, t: Task): nat
    decreases if t.Visit? then t.tree else Leaf(0, []), 2, 0
  {
    match t
    case Visit(tree, depth) => VisitWeight(q, queueDepth, tree, depth)
    case Release(times) => times + 1
    case Queue(_) => 6
    case Announce => 2
  }

  ghost function VisitWeight(q: Query, queueDepth: nat, t: Tree, depth: nat): nat
    decreases t, 1, 0
  {
    if depth >= queueDepth then 0
    else if t.Leaf? then 2 + Pow2((queueDepth - depth) * q.dim)
    else 1 + ChildrenWeight(q, queueDepth, t, depth + 1, |t.children|)
  }

  ghost function ChildrenWeight(q: Query, queueDepth: nat, t: Tree, depth: nat, n: nat): nat
    requires t.Branch? && n <= |t.children| && depth <= queueDepth
    decreases t, 0, n
  {
    if n == 0 then 0
    else
      var child := t.children[n - 1];
      ChildrenWeight(q, queueDepth, t, depth, n - 1) +
      (if !q.enters(child.id) then Pow2((queueDepth - depth) * q.dim) + 1
       else if depth == queueDepth then 6
       else VisitWeight(q, queueDepth, child, depth))
  }

  ghost function WorkWeight(q: Query, queueDepth: nat, work: seq<Task>): nat {
    Tally((t: Task) => TaskWeight(q, queueDepth, t), work)
  }

  lemma WeightFirst(q: Query, queueDepth: nat, t: Task, rest: seq<Task>)
    ensures WorkWeight(q, queueDepth, [t] + rest) == TaskWeight(q, queueDepth, t) + WorkWeight(q, queueDepth, rest)
  {
    assert ([t] + rest)[1..] == rest;
  }

  lemma {:induction false} ChildrenWeigh(q: Query, queueDepth: nat, t: Tree, depth: nat, n: nat)
    requires t.Branch? && n <= |t.children| && depth <= queueDepth
    ensures WorkWeight(q, queueDepth, ChildTasks(q, queueDepth, depth, t.children[..n])) ==
      ChildrenWeight(q, queueDepth, t, depth, n)
  {
    if n > 0 {
      var k := n - 1;
      ChildrenWeigh(q, queueDepth, t, depth, k);
      ChildTasksSnoc(q, queueDepth, depth, t.children, k);
      TallySnoc((t: Task) => TaskWeight(q, queueDepth, t), ChildTasks(q, queueDepth, depth, t.children[..k]),
        ChildTask(q, queueDepth, depth, t.children[k]));
    }
  }

  lemma BranchWeighs(q: Query, queueDepth: nat, t: Tree, depth: nat, rest: seq<Task>)
    requires t.Branch? && depth < queueDepth
    ensures WorkWeight(q, queueDepth, ChildTasks(q, queueDepth, depth + 1, t.children) + rest) <
      WorkWeight(q, queueDepth, [Visit(t, depth)] + rest)
  {
    ChildrenWeigh(q, queueDepth, t, depth + 1, |t.children|);
    assert t.children[..|t.children|] == t.children;
    TallyAppend((t: Task) => TaskWeight(q, queueDepth, t), ChildTasks(q, queueDepth, depth + 1, t.children), rest);
    WeightFirst(q, queueDepth, Visit(t, depth), rest);
  }

  ghost function FreshWeight(appended: seq<bool>, workers: seq<Pool.Worker<Tree>>): nat
    requires |appended| == |workers|
  {
    Tally((b: bool) => if b then 1 else 0,
      seq(|appended|, w requires 0 <= w < |appended| => workers[w].Running? && !appended[w]))
  }

  lemma FreshUpdate(appended: seq<bool>, workers: seq<Pool.Worker<Tree>>, w: nat, b: bool, x: Pool.Worker<Tree>)
    requires |appended| == |workers| && w < |workers|
    ensures FreshWeight(appended[w := b], workers[w := x]) == FreshWeight(appended, workers)
      - (if workers[w].Running? && !appended[w] then 1 else 0) + (if x.Running? && !b then 1 else 0)
  {
    var before := seq(|appended|, w requires 0 <= w < |appended| => workers[w].Running? && !appended[w]);
    var appended', workers' := appended[w := b], workers[w := x];
    var after := seq(|appended'|, w requires 0 <= w < |appended'| => workers'[w].Running? && !appended'[w]);
    assert after == before[w := x.Running? && !b];
    TallyUpdate((b: bool) => if b then 1 else 0, before, w, x.Running? && !b);
  }

  ghost function Weight(q: Query, queueDepth: nat, s: State): int
    requires |s.appended| == |s.pool.workers|
  {
    WorkWeight(q, queueDepth, s.work) + 3 * |s.pool.queue| + s.pool.count + Active(s.pool.workers) +
    FreshWeight(s.appended, s.pool.workers) + if s.returned then 0 else 1
  }

  lemma TraversalLightens(s: State, s': State, q: Query, queueDepth: nat, start: Tree)
    requires Inv(s, q, queueDepth, start)
    requires VisitLeaf(s, s', q, queueDepth) || VisitBranch(s, s', q, queueDepth) || ReleaseOne(s, s') ||
      QueueJob(s, s') || AnnounceJob(s, s') || Return(s, s')
    ensures Weight(q, queueDepth, s') < Weight(q, queueDepth, s)
  {
    if s.work != [] {
      var t, rest := s.work[0], s.work[1..];
      HeadAndRest(s.work);
      assert TaskOk(q, queueDepth, t);
      WeightFirst(q, queueDepth, t, rest);
      match t
      case Visit(tree, depth) =>
        if tree.Leaf? {
          WeightFirst(q, queueDepth, Release(Pow2((queueDepth - depth) * q.dim)), rest);
        } else {
          BranchWeighs(q, queueDepth, tree, depth, rest);
        }
      case Release(times) =>
        if times > 0 { WeightFirst(q, queueDepth, Release(times - 1), rest); }
      case Queue(tree) => WeightFirst(q, queueDepth, Announce, rest);
      case Announce =>
    }
  }

  lemma WorkersLighten(s: State, s': State, q: Query, queueDepth: nat, start: Tree, w: nat)
    requires Inv(s, q, queueDepth, start)
    requires WorkerWakes(s, s', w) || WorkerAppends(s, s', q, w) || WorkerReleases(s, s', w)
    ensures Weight(q, queueDepth, s') < Weight(q, queueDepth, s)
  {
    if WorkerWakes(s, s', w) && Pool.Take(s.pool, s'.pool, w) {
      Pool.FrontExists(s.pool, w);
    }
    ActiveUpdate(s.pool.workers, w, s'.pool.workers[w]);
    FreshUpdate(s.appended, s.pool.workers, w, s'.appended[w], s'.pool.workers[w]);
    assert s'.appended == s.appended[w := s'.appended[w]];
    assert s'.pool.workers == s.pool.workers[w := s'.pool.workers[w]];
  }

  lemma NextLightens(s: State, s': State, q: Query, queueDepth: nat, start: Tree)
    requires Inv(s, q, queueDepth, start) && Next(s, s', q, queueDepth)
    ensures Weight(q, queueDepth, s') < Weight(q, queueDepth, s)
  {
    if w: nat :| WorkerWakes(s, s', w) {
      WorkersLighten(s, s', q, queueDepth, start, w);
    } else if w: nat :| WorkerAppends(s, s', q, w) {
      WorkersLighten(s, s', q, queueDepth, start, w);
    } else if w: nat :| WorkerReleases(s, s', w) {
      WorkersLighten(s, s', q, queueDepth, start, w);
    } else {
      TraversalLightens(s, s', q, queueDepth, start);
    }
  }

  /** A run has at most as many steps as its start state weighs. */
  lemma {:induction false} RunIsBounded(run: seq<State>, q: Query, queueDepth: nat, start: Tree, depth: nat, k: nat)
    requires Run(run, q, queueDepth, start, depth) && k < |run|
    ensures |run[0].appended| == |run[0].pool.workers| && |run[k].appended| == |run[k].pool.workers|
    ensures 0 <= Weight(q, queueDepth, run[k]) <= Weight(q, queueDepth, run[0]) - k
  {
    RunKeeps(run, q, queueDepth, start, depth, k);
    if k > 0 {
      var i := k - 1;
      RunIsBounded(run, q, queueDepth, start, depth, i);
      RunKeeps(run, q, queueDepth, start, depth, i);
      assert Next(run[i], run[k], q, queueDepth);
      NextLightens(run[i], run[k], q, queueDepth, start);
    }
  }

  ghost predicate CanMove(s: State, q: Query, queueDepth: nat) {
    exists s' :: Next(s, s', q, queueDepth)
  }

  /** Somebody can move as long as the search has not returned. */
  lemma NeverStuck(s: State, q: Query, queueDepth: nat, start: Tree)
    requires Inv(s, q, queueDepth, start) && !s.returned && |s.pool.workers| > 0
    ensures CanMove(s, q, queueDepth)
  {
    if s.work != [] {
      TraversalMoves(s, q, queueDepth, start);
    } else if s.count > 0 {
      var s' := s.(count := s.count - 1, returned := true);
      assert Return(s, s') && Next(s, s', q, queueDepth);
    } else {
      WorkersMove(s, q, queueDepth, start);
    }
  }

  lemma TraversalMoves(s: State, q: Query, queueDepth: nat, start: Tree)
    requires Inv(s, q, queueDepth, start) && s.work != []
    ensures CanMove(s, q, queueDepth)
  {
    var t, rest := s.work[0], s.work[1..];
    assert TaskOk(q, queueDepth, t);
    match t
    case Visit(tree, depth) =>
      if tree.Leaf? {
        var s' := s.(ents := s.ents + Picked(q, tree.entities),
                     work := [Release(Pow2((queueDepth - depth) * q.dim))] + rest);
        assert VisitLeaf(s, s', q, queueDepth) && Next(s, s', q, queueDepth);
      } else {
        var s' := s.(work := ChildTasks(q, queueDepth, depth + 1, tree.children) + rest);
        assert VisitBranch(s, s', q, queueDepth) && Next(s, s', q, queueDepth);
      }
    case Release(times) =>
      var s' := if times == 0 then s.(work := rest) else s.(count := s.count + 1, work := [Release(times - 1)] + rest);
      assert ReleaseOne(s, s') && Next(s, s', q, queueDepth);
    case Queue(tree) =>
      var pool := s.pool;
      var pool' := pool.(queue := pool.queue + [tree], pushed := pool.pushed + [tree],
                         producers := pool.producers[0 := Pool.Pushed]);
      var s' := s.(work := [Announce] + rest, pool := pool');
      assert QueueJob(s, s') && Next(s, s', q, queueDepth);
    case Announce =>
      var pool' := s.pool.(count := s.pool.count + 1, producers := s.pool.producers[0 := Pool.Ready]);
      var s' := s.(work := rest, pool := pool');
      assert AnnounceJob(s, s') && Next(s, s', q, queueDepth);
  }

  lemma WorkersMove(s: State, q: Query, queueDepth: nat, start: Tree)
    requires Inv(s, q, queueDepth, start) && s.work == [] && !s.returned && s.count <= 0 && |s.pool.workers| > 0
    ensures CanMove(s, q, queueDepth)
  {
    var pool := s.pool;
    if w :| 0 <= w < |pool.workers| && pool.workers[w].Running? {
      if s.appended[w] {
        var pool' := pool.(workers := pool.workers[w := Pool.Waiting]);
        var s' := s.(count := s.count + 1, appended := s.appended[w := false], pool := pool');
        assert WorkerReleases(s, s', w) && Next(s, s', q, queueDepth);
      } else {
        var s' := s.(ents := s.ents + Found(q, pool.workers[w].job), appended := s.appended[w := true]);
        assert WorkerAppends(s, s', q, w) && Next(s, s', q, queueDepth);
      }
    } else {
      TallyZero((w: Pool.Worker<Tree>) => if w.Running? then 1 else 0, pool.workers);
      assert pool.queue != [];
      SomeoneTakes(s, q, queueDepth);
    }
  }

  lemma SomeoneTakes(s: State, q: Query, queueDepth: nat)
    requires PoolOk(s) && s.work == [] && s.pool.queue != [] && |s.pool.workers| > 0
    requires forall w :: 0 <= w < |s.pool.workers| ==> !s.pool.workers[w].Running?
    ensures CanMove(s, q, queueDepth)
  {
    var pool := s.pool;
    if w :| 0 <= w < |pool.workers| && pool.workers[w].Acquired? {
      var pool' := pool.(queue := pool.queue[1..], taken := pool.taken + [pool.queue[0]],
        workers := pool.workers[w := Pool.Running(|pool.taken|, pool.queue[0])]);
      assert Pool.Take(pool, pool', w);
      var s' := s.(pool := pool');
      assert WorkerWakes(s, s', w) && Next(s, s', q, queueDepth);
    } else {
      Pool.NoTokensHeld(pool);
      assert Pool.WorkerOk(pool, pool.workers[0]);
      var pool' := pool.(count := pool.count - 1, workers := pool.workers[0 := Pool.Acquired(true)]);
      assert Pool.Acquire(pool, pool', 0);
      var s' := s.(pool := pool');
      assert WorkerWakes(s, s', 0) && Next(s, s', q, queueDepth);
    }
  }

  /** With at least one worker the search always comes back: a run that cannot go on has
      returned, and no run goes on for longer than its start state weighs. */
  lemma EveryRunReturns(run: seq<State>, q: Query, queueDepth: nat, start: Tree, depth: nat)
    requires Run(run, q, queueDepth, start, depth) && |run[|run| - 1].pool.workers| > 0
    requires !CanMove(run[|run| - 1], q, queueDepth)
    ensures run[|run| - 1].returned
    ensures |run[0].appended| == |run[0].pool.workers| && |run| <= Weight(q, queueDepth, run[0]) + 1
  {
    var k := |run| - 1;
    RunKeeps(run, q, queueDepth, start, depth, k);
    RunIsBounded(run, q, queueDepth, start, depth, k);
    if !run[k].returned {
      NeverStuck(run[k], q, queueDepth, start);
    }
  }
}
