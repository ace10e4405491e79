/** The thread pool as interleaved steps of its workers, of the threads that queue
    jobs, and of the thread that joins. Every critical section is one step. */
module ThreadPool {
  import opened Tallies

  /** Where a worker is in its loop. An acquire that was interrupted returns without a
      token; a worker that took from an empty queue would have faulted. */
  datatype Worker<T> =
    | Waiting
    | Acquired(token: bool)
    | Running(index: nat, job: T)
    | Stopped
    | Faulted

  /** A thread calling queue() has put its job in, but not yet released the semaphore. */
  datatype Producer = Ready | Pushed

  /** pushed and taken record all jobs ever put in and taken out, in order. */
  datatype State<T> = State(
    queue: seq<T>,
    count: int,
    interrupted: bool,
    done: bool,
    workers: seq<Worker<T>>,
    producers: seq<Producer>,
    pushed: seq<T>,
    taken: seq<T>)

  ghost predicate Started<T>(s: State<T>) {
    s.queue == [] && s.count == 0 && !s.interrupted && !s.done && s.pushed == [] && s.taken == [] &&
    (forall w :: 0 <= w < |s.workers| ==> s.workers[w] == Waiting) &&
    (forall p :: 0 <= p < |s.producers| ==> s.producers[p] == Ready)
  }

  // ----- steps --------------------------------------------------------------------------------

  /** queue(), first half: the job is put in under the mutex. */
  ghost predicate Push<T>(s: State<T>, s': State<T>, p: nat, job: T) {
    p < |s.producers| && s.producers[p] == Ready &&
    s' == s.(queue := s.queue + [job], pushed := s.pushed + [job], producers := s.producers[p := Pushed])
  }

  /** queue(), second half: the semaphore is released. */
  ghost predicate Announce<T>(s: State<T>, s': State<T>, p: nat) {
    p < |s.producers| && s.producers[p] == Pushed &&
    s' == s.(count := s.count + 1, producers := s.producers[p := Ready])
  }

  ghost predicate Acquire<T>(s: State<T>, s': State<T>, w: nat) {
    w < |s.workers| && s.workers[w] == Waiting && s.count > 0 &&
    s' == s.(count := s.count - 1, workers := s.workers[w := Acquired(true)])
  }

  /** An interrupted acquire returns at once; run_ does not look at the result. */
  ghost predicate GiveUp<T>(s: State<T>, s': State<T>, w: nat) {
    w < |s.workers| && s.workers[w] == Waiting && s.interrupted &&
    s' == s.(workers := s.workers[w := Acquired(false)])
  }

  /** Under the mutex: stop when the pool is done, otherwise take the front job. */
  ghost predicate Take<T>(s: State<T>, s': State<T>, w: nat) {
    w < |s.workers| && s.workers[w].Acquired? &&
    s' ==
      if s.done then s.(workers := s.workers[w := Stopped])
      else if s.queue == [] then s.(workers := s.workers[w := Faulted])
      else s.(queue := s.queue[1..], taken := s.taken + [s.queue[0]],
              workers := s.workers[w := Running(|s.taken|, s.queue[0])])
  }

  ghost predicate Finish<T>(s: State<T>, s': State<T>, w: nat) {
    w < |s.workers| && s.workers[w].Running? && s' == s.(workers := s.workers[w := Waiting])
  }

  /** join(): first the pool is marked done, then the semaphore is interrupted. */
  ghost predicate MarkDone<T>(s: State<T>, s': State<T>) {
    s' == s.(done := true)
  }

  ghost predicate Interrupt<T>(s: State<T>, s': State<T>) {
    s.done && s' == s.(interrupted := true)
  }

  ghost predicate Next<T(!new)>(s: State<T>, s': State<T>) {
    (exists p: nat, job: T :: Push(s, s', p, job)) ||
    (exists p: nat :: Announce(s, s', p)) ||
    (exists w: nat :: Acquire(s, s', w)) ||
    (exists w: nat :: GiveUp(s, s', w)) ||
    (exists w: nat :: Take(s, s', w)) ||
    (exists w: nat :: Finish(s, s', w)) ||
    MarkDone(s, s') || Interrupt(s, s')
  }

  // ----- the invariant --------------------------------------------------------------------------

  /** Tokens in the hands of workers that have not yet looked at the queue. */
  ghost function Token<T>(w: Worker<T>): nat {
    if w == Acquired(true) then 1 else 0
  }

  /** Tokens that producers still owe. */
  ghost function Owed(p: Producer): nat {
    if p == Pushed then 1 else 0
  }

  ghost function Held<T>(workers: seq<Worker<T>>): nat {
    Tally((w: Worker<T>) => Token(w), workers)
  }

  lemma HeldUpdate<T>(workers: seq<Worker<T>>, i: nat, x: Worker<T>)
    requires i < |workers|
    ensures Held(workers[i := x]) == Held(workers) - Token(workers[i]) + Token(x)
    ensures Held(workers) >= Token(workers[i])
  {
    TallyUpdate((w: Worker<T>) => Token(w), workers, i, x);
  }

  ghost function Debt(producers: seq<Producer>): nat {
    Tally((p: Producer) => Owed(p), producers)
  }

  lemma DebtUpdate(producers: seq<Producer>, i: nat, x: Producer)
    requires i < |producers|
    ensures Debt(producers[i := x]) == Debt(producers) - Owed(producers[i]) + Owed(x)
  {
    TallyUpdate((p: Producer) => Owed(p), producers, i, x);
  }

  ghost function Tokens<T>(s: State<T>): int {
    s.count + Held(s.workers) + Debt(s.producers)
  }

  /** Every queued job is covered by exactly one token as long as the pool is open. */
  ghost predicate Covered<T>(s: State<T>) {
    s.count >= 0 && |s.queue| >= Tokens(s) && (!s.done ==> |s.queue| == Tokens(s))
  }

  /** Jobs leave in the order in which they were put in, none twice. */
  ghost predicate InOrder<T>(s: State<T>) {
    s.pushed == s.taken + s.queue
  }

  ghost predicate WorkerOk<T>(s: State<T>, w: Worker<T>) {
    match w
    case Waiting => true
    case Acquired(token) => token || s.interrupted
    case Running(index, job) => index < |s.taken| && s.taken[index] == job
    case Stopped => s.done
    case Faulted => false
  }

  ghost predicate WorkersOk<T>(s: State<T>) {
    forall w :: 0 <= w < |s.workers| ==> WorkerOk(s, s.workers[w])
  }

  /** No two workers run the same job. */
  ghost predicate Exclusive<T>(s: State<T>) {
    forall v, w :: 0 <= v < w < |s.workers| && s.workers[v].Running? && s.workers[w].Running? ==>
      s.workers[v].index != s.workers[w].index
  }

  ghost predicate Inv<T>(s: State<T>) {
    (s.interrupted ==> s.done) && Covered(s) && InOrder(s) && WorkersOk(s) && Exclusive(s)
  }

  lemma StartedInv<T>(s: State<T>)
    requires Started(s)
    ensures Inv(s)
  {
    TallyZero((w: Worker<T>) => Token(w), s.workers);
    TallyZero((p: Producer) => Owed(p), s.producers);
  }

  lemma PushKeeps<T>(s: State<T>, s': State<T>, p: nat, job: T)
    requires Inv(s) && Push(s, s', p, job)
    ensures Inv(s')
  {
    DebtUpdate(s.producers, p, Pushed);
    assert forall w :: 0 <= w < |s.workers| ==> WorkerOk(s, s.workers[w]);
  }

  lemma AnnounceKeeps<T>(s: State<T>, s': State<T>, p: nat)
    requires Inv(s) && Announce(s, s', p)
    ensures Inv(s')
  {
    DebtUpdate(s.producers, p, Ready);
    assert forall w :: 0 <= w < |s.workers| ==> WorkerOk(s, s.workers[w]);
  }

  lemma AcquireKeeps<T>(s: State<T>, s': State<T>, w: nat)
    requires Inv(s) && Acquire(s, s', w)
    ensures Inv(s')
  {
    HeldUpdate(s.workers, w, Acquired(true));
    assert forall v :: 0 <= v < |s.workers| ==> WorkerOk(s, s.workers[v]);
  }

  lemma GiveUpKeeps<T>(s: State<T>, s': State<T>, w: nat)
    requires Inv(s) && GiveUp(s, s', w)
    ensures Inv(s')
  {
    HeldUpdate(s.workers, w, Acquired(false));
    assert forall v :: 0 <= v < |s.workers| ==> WorkerOk(s, s.workers[v]);
  }

  /** A worker that reaches the front of an open pool's queue finds a job there. */
  lemma FrontExists<T>(s: State<T>, w: nat)
    requires Inv(s) && w < |s.workers| && s.workers[w].Acquired? && !s.done
    ensures s.queue != [] && s.queue[0] == s.pushed[|s.taken|]
  {
    assert WorkerOk(s, s.workers[w]);
    HeldUpdate(s.workers, w, Waiting);
    assert s.pushed[|s.taken|] == s.queue[0];
  }

  /** An open pool with jobs queued and no job being taken or announced has its
      semaphore up. */
  lemma NoTokensHeld<T>(s: State<T>)
    requires Inv(s) && !s.done && s.queue != []
    requires forall w :: 0 <= w < |s.workers| ==> !s.workers[w].Acquired?
    requires forall p :: 0 <= p < |s.producers| ==> s.producers[p] == Ready
    ensures s.count == |s.queue|
  {
    TallyZero((w: Worker<T>) => Token(w), s.workers);
    TallyZero((p: Producer) => Owed(p), s.producers);
  }

  lemma TakeKeeps<T>(s: State<T>, s': State<T>, w: nat)
    requires Inv(s) && Take(s, s', w)
    ensures Inv(s')
  {
    assert forall v :: 0 <= v < |s.workers| ==> WorkerOk(s, s.workers[v]);
    HeldUpdate(s.workers, w, s'.workers[w]);
    if !s.done {
      FrontExists(s, w);
      assert s.queue == [s.queue[0]] + s.queue[1..];
    }
  }

  lemma FinishKeeps<T>(s: State<T>, s': State<T>, w: nat)
    requires Inv(s) && Finish(s, s', w)
    ensures Inv(s')
  {
    HeldUpdate(s.workers, w, Waiting);
    assert forall v :: 0 <= v < |s.workers| ==> WorkerOk(s, s.workers[v]);
  }

  lemma JoinKeeps<T>(s: State<T>, s': State<T>)
    requires Inv(s) && (MarkDone(s, s') || Interrupt(s, s'))
    ensures Inv(s')
  {
    assert forall v :: 0 <= v < |s.workers| ==> WorkerOk(s, s.workers[v]);
  }

  lemma NextKeeps<T(!new)>(s: State<T>, s': State<T>)
    requires Inv(s) && Next(s, s')
    ensures Inv(s')
  {
    if p: nat, job: T :| Push(s, s', p, job) {
      PushKeeps(s, s', p, job);
    } else if p: nat :| Announce(s, s', p) {
      AnnounceKeeps(s, s', p);
    } else if w: nat :| Acquire(s, s', w) {
      AcquireKeeps(s, s', w);
    } else if w: nat :| GiveUp(s, s', w) {
      GiveUpKeeps(s, s', w);
    } else if w: nat :| Take(s, s', w) {
      TakeKeeps(s, s', w);
    } else if w: nat :| Finish(s, s', w) {
      FinishKeeps(s, s', w);
    } else {
      JoinKeeps(s, s');
    }
  }

  // ----- whole runs -------------------------------------------------------------------------------

  ghost predicate Run<T(!new)>(run: seq<State<T>>) {
    run != [] && Started(run[0]) && forall i, j :: 0 <= i && j == i + 1 < |run| ==> Next(run[i], run[j])
  }

  lemma {:induction false} RunKeeps<T(!new)>(run: seq<State<T>>, k: nat)
    requires Run(run) && k < |run|
    ensures Inv(run[k])
  {
    if k == 0 {
      StartedInv(run[0]);
    } else {
      var i := k - 1;
      RunKeeps(run, i);
      assert Next(run[i], run[k]);
      NextKeeps(run[i], run[k]);
    }
  }

  /** In every interleaving: no worker ever takes from an empty queue, jobs are taken in
      the order they were queued and none twice, and no two workers run the same job. */
  lemma RunIsSafe<T(!new)>(run: seq<State<T>>, k: nat)
    requires Run(run) && k < |run|
    ensures
      var s := run[k];
      (forall w :: 0 <= w < |s.workers| ==> !s.workers[w].Faulted?) &&
      (forall w :: 0 <= w < |s.workers| && s.workers[w].Acquired? && !s.done ==> s.queue != []) &&
      s.pushed == s.taken + s.queue && Exclusive(s) &&
      (forall w :: 0 <= w < |s.workers| && s.workers[w].Running? ==>
        s.workers[w].index < |s.taken| && s.pushed[s.workers[w].index] == s.workers[w].job)
  {
    RunKeeps(run, k);
    var s := run[k];
    assert forall w :: 0 <= w < |s.workers| ==> WorkerOk(s, s.workers[w]);
    forall w | 0 <= w < |s.workers| && s.workers[w].Acquired? && !s.done ensures s.queue != [] {
      FrontExists(s, w);
    }
  }

  // ----- what happens to one job --------------------------------------------------------------------

  lemma {:induction false} TakenGrows<T(!new)>(run: seq<State<T>>, i: nat, k: nat)
    requires Run(run) && i <= k < |run|
    ensures run[i].taken <= run[k].taken
  {
    if i < k {
      var j := k - 1;
      TakenGrows(run, i, j);
      assert Next(run[j], run[k]);
    }
  }

  /** Two takes in one run hand out different queue positions, the earlier one first. */
  lemma TakenOnce<T(!new)>(run: seq<State<T>>, i: nat, k: nat, v: nat, w: nat)
    requires Run(run) && i < k && k + 1 < |run|
    requires Take(run[i], run[i + 1], v) && run[i + 1].workers[v].Running?
    requires Take(run[k], run[k + 1], w) && run[k + 1].workers[w].Running?
    ensures run[i + 1].workers[v].index < run[k + 1].workers[w].index
  {
    TakenGrows(run, i + 1, k);
  }

  // ----- joining --------------------------------------------------------------------------------------

  /** Once the pool is done nothing is taken any more; what is queued stays queued. */
  lemma {:induction false} DoneIsFinal<T(!new)>(run: seq<State<T>>, i: nat, k: nat)
    requires Run(run) && i <= k < |run| && run[i].done
    ensures run[k].done && run[k].taken == run[i].taken && run[i].queue <= run[k].queue
  {
    if i < k {
      DoneIsFinal(run, i, k - 1);
      assert Next(run[k - 1], run[k]);
    }
  }

  lemma OneStep<T(!new)>(run: seq<State<T>>, k: nat, w: nat)
    requires Run(run) && k + 1 < |run| && w < |run[k].workers|
    ensures
      var s, s' := run[k], run[k + 1];
      |s'.workers| == |s.workers| && (s.workers[w] == Stopped ==> s'.workers[w] == Stopped) &&
      (s.done && s.workers[w].Acquired? ==> s'.workers[w] == s.workers[w] || s'.workers[w] == Stopped)
  {
    assert Next(run[k], run[k + 1]);
  }

  lemma {:induction false} StoppedForGood<T(!new)>(run: seq<State<T>>, i: nat, k: nat, w: nat)
    requires Run(run) && i <= k < |run| && w < |run[i].workers| && run[i].workers[w] == Stopped
    ensures w < |run[k].workers| && run[k].workers[w] == Stopped
  {
    if i < k {
      StoppedForGood(run, i, k - 1, w);
      OneStep(run, k - 1, w);
    }
  }

  /** A worker that finds the pool done when it is back from the semaphore stops, with or
      without a token. */
  lemma {:induction false} StopsWhenDone<T(!new)>(run: seq<State<T>>, i: nat, k: nat, w: nat)
    requires Run(run) && i <= k < |run| && w < |run[i].workers| && run[i].done && run[i].workers[w].Acquired?
    ensures w < |run[k].workers| && (run[k].workers[w] == run[i].workers[w] || run[k].workers[w] == Stopped)
  {
    if i < k {
      StopsWhenDone(run, i, k - 1, w);
      DoneIsFinal(run, i, k - 1);
      OneStep(run, k - 1, w);
    }
  }

  /** A step of worker w. */
  ghost predicate Works<T>(s: State<T>, s': State<T>, w: nat) {
    Acquire(s, s', w) || GiveUp(s, s', w) || Take(s, s', w) || Finish(s, s', w)
  }

  ghost predicate CanWork<T(!new)>(s: State<T>, w: nat) {
    exists s' :: Works(s, s', w)
  }

  /** What a worker still has to do before it stops. */
  ghost function Steps<T>(w: Worker<T>): nat {
    match w
    case Running(_, _) => 3
    case Waiting => 2
    case Acquired(_) => 1
    case Stopped => 0
    case Faulted => 0
  }

  ghost function StepsLeft<T>(s: State<T>): nat {
    Tally((w: Worker<T>) => Steps(w), s.workers)
  }

  lemma WorkComesNearer<T>(s: State<T>, s': State<T>, w: nat)
    requires s.done && Works(s, s', w)
    ensures StepsLeft(s') < StepsLeft(s)
  {
    TallyUpdate((x: Worker<T>) => Steps(x), s.workers, w, s'.workers[w]);
    assert s'.workers == s.workers[w := s'.workers[w]];
  }

  lemma OthersLeaveWorkers<T(!new)>(s: State<T>, s': State<T>)
    requires Next(s, s') && !(exists w: nat :: Works(s, s', w))
    ensures s'.workers == s.workers
  {
    assert forall w: nat :: Acquire(s, s', w) || GiveUp(s, s', w) || Take(s, s', w) || Finish(s, s', w) ==>
      Works(s, s', w);
  }

  /** Every step of a worker of a done pool brings the end of the join nearer, and no other
      step puts it off. */
  lemma JoinComesNearer<T(!new)>(run: seq<State<T>>, i: nat, w: nat)
    requires Run(run) && i + 1 < |run| && run[i].done
    ensures StepsLeft(run[i + 1]) <= StepsLeft(run[i])
    ensures Works(run[i], run[i + 1], w) ==> StepsLeft(run[i + 1]) < StepsLeft(run[i])
  {
    var s, s' := run[i], run[i + 1];
    assert Next(s, s');
    forall v: nat | Works(s, s', v) ensures StepsLeft(s') < StepsLeft(s) {
      WorkComesNearer(s, s', v);
    }
    if !(exists v: nat :: Works(s, s', v)) { OthersLeaveWorkers(s, s'); }
  }

  lemma WorkerCanWork<T(!new)>(s: State<T>, w: nat)
    requires Inv(s) && w < |s.workers| && s.workers[w] != Stopped
    requires s.workers[w] == Waiting ==> s.interrupted || s.count > 0
    ensures CanWork(s, w)
  {
    var x := s.workers[w];
    assert WorkerOk(s, x);
    if x.Running? {
      assert Works(s, s.(workers := s.workers[w := Waiting]), w);
    } else if x.Waiting? {
      assert s.interrupted ==> Works(s, s.(workers := s.workers[w := Acquired(false)]), w);
      assert s.count > 0 ==> Works(s, s.(count := s.count - 1, workers := s.workers[w := Acquired(true)]), w);
    } else if s.done {
      assert Works(s, s.(workers := s.workers[w := Stopped]), w);
    } else if s.queue == [] {
      assert Works(s, s.(workers := s.workers[w := Faulted]), w);
    } else {
      assert Works(s, s.(queue := s.queue[1..], taken := s.taken + [s.queue[0]],
          workers := s.workers[w := Running(|s.taken|, s.queue[0])]), w);
    }
  }

  /** A pool whose semaphore was interrupted comes to rest only when all workers have stopped. */
  lemma JoinEnds<T(!new)>(run: seq<State<T>>, k: nat)
    requires Run(run) && k < |run| && run[k].interrupted && forall w: nat :: !CanWork(run[k], w)
    ensures forall w :: 0 <= w < |run[k].workers| ==> run[k].workers[w] == Stopped
  {
    RunKeeps(run, k);
    forall w | 0 <= w < |run[k].workers| ensures run[k].workers[w] == Stopped {
      if run[k].workers[w] != Stopped { WorkerCanWork(run[k], w); }
    }
  }

  /** An open pool comes to rest only when every job that was announced has been run: what is
      still queued has not been announced yet. */
  lemma RestIsDone<T(!new)>(run: seq<State<T>>, k: nat)
    requires Run(run) && k < |run| && !run[k].done && run[k].workers != [] && forall w: nat :: !CanWork(run[k], w)
    ensures |run[k].queue| == Debt(run[k].producers)
    ensures (forall p :: 0 <= p < |run[k].producers| ==> run[k].producers[p] == Ready) ==> run[k].taken == run[k].pushed
  {
    var s := run[k];
    RunKeeps(run, k);
    forall w | 0 <= w < |s.workers| ensures s.workers[w] == Waiting && s.count == 0 {
      assert WorkerOk(s, s.workers[w]);
      if s.workers[w] != Waiting || s.count > 0 { WorkerCanWork(s, w); }
    }
    assert s.workers[0] == Waiting;
    TallyZero((w: Worker<T>) => Token(w), s.workers);
    if forall p :: 0 <= p < |s.producers| ==> s.producers[p] == Ready {
      TallyZero((p: Producer) => Owed(p), s.producers);
      assert s.queue == [];
    }
  }
}
