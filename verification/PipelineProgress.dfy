/** The producer is not held up for ever: while sentWork runs, the threads together can take only a
    bounded number of steps before it has pushed its task and returned. */
module PipelineProgress {
  import opened Pipeline
  import opened PipelineRuns

  // ---- A blocked producer ----

  /** The one step a worker can take. */
  function NextOf(s: State, w: nat): Step
    requires w < |s.workers|
  {
    match s.workers[w].at
    case Waiting => Wake(w)
    case Checking => Check(w)
    case Popping => Pop(w)
    case Running(task, k, pushed) => if pushed then Ping(w) else if k < |task.mounts| then Push(w) else Send(w)
    case Signalling => Signal(w)
  }

  lemma OwingWorkerCanStep(s: State, w: nat)
    requires Inv(s) && w < |s.workers| && Owes(s.workers[w])
    ensures Enabled(s, NextOf(s, w))
  {
    assert WorkerKnown(s, s.workers[w]);
  }

  lemma SomeoneCanMove(s: State)
    requires Inv(s) && !s.loop.Idle?
    ensures exists step :: Enabled(s, step)
  {
    match s.loop {
      case Scanning(_, _, _) => assert Enabled(s, Scan);
      case Pushing(_, _) => assert Enabled(s, Enqueue);
      case Notifying(_) => assert Enabled(s, Notify);
      case Blocked(_, w) =>
        if s.wait {
          OwingWorkerCanStep(s, w);
        } else {
          assert Enabled(s, Unblock);
        }
      case Swapping(_) => assert Enabled(s, Swap);
      case Starting(_, _) => assert Enabled(s, Start);
    }
  }

  /** While the producer is inside sentWork or foreachio, some thread can move. */
  lemma NeverStuck(s: State)
    requires Reachable(s) && !s.loop.Idle?
    ensures exists step :: Enabled(s, step)
  {
    ReachableInv(s);
    SomeoneCanMove(s);
  }

  /** Steps from taking a task to the end of its work function. */
  function Load(queue: seq<Task>): nat {
    if queue == [] then 0 else 3 + 2 * |queue[0].mounts| + Load(queue[1..])
  }

  /** How many steps a worker is away from having signalled. */
  function Distance(worker: Worker): int {
    match worker.at
    case Waiting => if worker.wait then 0 else 3 + Load(worker.queue)
    case Checking => 2 + Load(worker.queue)
    case Popping => 1 + Load(worker.queue)
    case Running(task, k, pushed) =>
      3 + 2 * (|task.mounts| - k) - (if pushed then 1 else 0) + Load(worker.queue)
    case Signalling => 1
  }

  function StepsOf(steps: seq<Step>, w: nat): nat {
    if steps == [] then 0
    else (if OfWorker(steps[0]) && steps[0].w == w then 1 else 0) + StepsOf(steps[1..], w)
  }

  predicate StaysBlocked(s: State, steps: seq<Step>)
    requires Legal(s, steps)
    decreases |steps|
  {
    && s.loop.Blocked? && s.wait
    && (steps == [] || StaysBlocked(Do(s, steps[0]), steps[1..]))
  }

  /** A worker on its way to the signal comes one step closer. */
  lemma DistanceActs(x: Worker, x': Worker, step: Step)
    requires Acts(x, x', step) && !step.Signal? && (x.at.Running? ==> x.at.k <= |x.at.task.mounts|)
    ensures Distance(x') == Distance(x) - 1
  {
  }

  lemma DistanceShrinks(s: State, step: Step, w: nat)
    requires Inv(s) && s.loop.Blocked? && s.wait && w < |s.workers| && Enabled(s, step) && Do(s, step).wait
    ensures var d := Distance(s.workers[w]) - if OfWorker(step) && step.w == w then 1 else 0;
            Distance(Do(s, step).workers[w]) == d
    ensures Do(s, step).loop == s.loop
  {
    assert OfWorker(step);
    WorkerActs(s, step);
    if step.w == w {
      assert WorkerKnown(s, s.workers[w]);
      DistanceActs(s.workers[w], Do(s, step).workers[w], step);
    }
  }

  /** A blocked producer cannot stay blocked: its worker always has a step to take, and after fewer
      steps than its distance the signal is there. */
  lemma {:induction false} BlockedIsReleased(s: State, steps: seq<Step>)
    requires Inv(s) && Legal(s, steps) && StaysBlocked(s, steps)
    ensures StepsOf(steps, s.loop.full) < Distance(s.workers[s.loop.full])
    ensures Enabled(s, NextOf(s, s.loop.full))
    decreases |steps|
  {
    var w := s.loop.full;
    OwingWorkerCanStep(s, w);
    if steps != [] {
      InvKept(s, steps[0]);
      DistanceShrinks(s, steps[0], w);
      BlockedIsReleased(Do(s, steps[0]), steps[1..]);
    } else {
      assert WorkerKnown(s, s.workers[w]);
    }
  }

  // ---- The call returns ----

  predicate InSentWork(loop: LoopAt) {
    loop.Scanning? || loop.Pushing? || loop.Blocked? || loop.Notifying?
  }

  /** A signal that was set while the worker drains makes it look at its queue once more. */
  function OnceMore(worker: Worker): nat { if worker.wait then 0 else 3 }

  /** Steps the worker can still take if nobody signals it again. */
  function Due(worker: Worker): int {
    match worker.at
    case Waiting => if worker.wait then 0 else 3 + Load(worker.queue)
    case Signalling => 1 + if worker.wait then 0 else 3 + Load(worker.queue)
    case _ => Distance(worker) + OnceMore(worker)
  }

  function TotalDue(workers: seq<Worker>): int {
    if workers == [] then 0 else TotalDue(workers[..|workers| - 1]) + Due(workers[|workers| - 1])
  }

  /** What a task adds to the steps of the worker that gets it. */
  function Cost(task: Task): nat { 3 + 2 * |task.mounts| }

  /** The producer's own steps up to the push or the next wait, and what its task will cost. */
  function LoopDue(loop: LoopAt, n: nat): int {
    match loop
    case Scanning(task, k, _) => n - k + 2 + Weighed(n, Cost(task))
    case Pushing(task, _) => 1 + Weighed(n, Cost(task))
    case Blocked(task, _) => Weighed(n, Cost(task))
    case _ => 0
  }

  /** A bound on all steps of all threads until sentWork returns: every step of a worker may cause
      one more round of the producer, and a signal that is already set allows one. */
  function Patience(s: State): int {
    Weighed(|s.workers|, TotalDue(s.workers)) + (if s.wait then 0 else |s.workers| + 2) + LoopDue(s.loop, |s.workers|)
  }

  function Weighed(n: nat, due: int): int { (n + 3) * due }

  lemma WeighedGrows(n: nat, due: int, more: int, due': int)
    requires due' <= due + more
    ensures Weighed(n, due') <= Weighed(n, due) + Weighed(n, more)
    ensures Weighed(n, -1) == -(n + 3)
  {
    assert (n + 3) * due' <= (n + 3) * (due + more);
  }

  lemma {:induction false} TotalAfterSet(workers: seq<Worker>, w: nat, worker: Worker)
    requires w < |workers|
    ensures TotalDue(workers[w := worker]) == TotalDue(workers) - Due(workers[w]) + Due(worker)
  {
    var n := |workers| - 1;
    if w == n {
      assert workers[w := worker][..n] == workers[..n];
    } else {
      assert workers[w := worker][..n] == workers[..n][w := worker];
      TotalAfterSet(workers[..n], w, worker);
    }
  }

  lemma {:induction false} TotalNonNegative(s: State, workers: seq<Worker>)
    requires forall w :: 0 <= w < |workers| ==> WorkerKnown(s, workers[w])
    ensures TotalDue(workers) >= 0
  {
    if workers != [] {
      var last := workers[|workers| - 1];
      TotalNonNegative(s, workers[..|workers| - 1]);
      assert WorkerKnown(s, last);
    }
  }

  lemma DueActs(x: Worker, x': Worker, step: Step)
    requires Acts(x, x', step) && (x.at.Running? ==> x.at.k <= |x.at.task.mounts|)
    ensures Due(x') == Due(x) - 1
  {
  }

  lemma WorkersAfter(s: State, step: Step)
    requires Enabled(s, step) && OfWorker(step)
    ensures Do(s, step).workers == s.workers[step.w := Do(s, step).workers[step.w]]
  {
    WorkerActs(s, step);
  }

  lemma LessDue(s: State, s': State)
    requires |s'.workers| == |s.workers| && s'.loop == s.loop
    requires TotalDue(s'.workers) == TotalDue(s.workers) - 1
    ensures Patience(s') < Patience(s)
  {
    WeighedGrows(|s.workers|, TotalDue(s.workers), -1, TotalDue(s'.workers));
  }

  lemma WorkerStepCosts(s: State, step: Step)
    requires Inv(s) && Enabled(s, step) && OfWorker(step)
    ensures Patience(Do(s, step)) < Patience(s)
  {
    WorkerActs(s, step);
    assert WorkerKnown(s, s.workers[step.w]);
    DueActs(s.workers[step.w], Do(s, step).workers[step.w], step);
    WorkersAfter(s, step);
    TotalAfterSet(s.workers, step.w, Do(s, step).workers[step.w]);
    LessDue(s, Do(s, step));
  }

  lemma {:induction false} LoadAfterPush(queue: seq<Task>, task: Task)
    ensures Load(queue + [task]) == Load(queue) + Cost(task)
  {
    if queue == [] {
      assert ([] + [task])[1..] == [];
    } else {
      assert (queue + [task])[1..] == queue[1..] + [task];
      LoadAfterPush(queue[1..], task);
    }
  }

  lemma DueAfterPush(worker: Worker, task: Task)
    ensures Due(worker.(queue := worker.queue + [task])) <= Due(worker) + Cost(task)
  {
    LoadAfterPush(worker.queue, task);
  }

  lemma PushCosts(s: State)
    requires Enabled(s, Enqueue) && Do(s, Enqueue).loop.Notifying?
    ensures Patience(Do(s, Enqueue)) < Patience(s)
  {
    var task, w := s.loop.task, s.loop.best;
    var worker' := s.workers[w].(queue := s.workers[w].queue + [task]);
    DueAfterPush(s.workers[w], task);
    TotalAfterSet(s.workers, w, worker');
    assert Do(s, Enqueue).workers == s.workers[w := worker'];
    WeighedGrows(|s.workers|, TotalDue(s.workers), Cost(task), TotalDue(s.workers[w := worker']));
  }

  lemma LoopStepCosts(s: State, step: Step)
    requires Inv(s) && InSentWork(s.loop) && Enabled(s, step) && !OfWorker(step) && InSentWork(Do(s, step).loop)
    ensures Patience(Do(s, step)) < Patience(s)
  {
    if step.Enqueue? && Do(s, step).loop.Notifying? {
      PushCosts(s);
    } else {
      assert step.Scan? || step.Enqueue? || step.Unblock?;
    }
  }

  /** sentWork is running before and after each of the steps. */
  predicate StaysInside(s: State, steps: seq<Step>)
    requires Legal(s, steps)
    decreases |steps|
  {
    InSentWork(s.loop) && (steps == [] || StaysInside(Do(s, steps[0]), steps[1..]))
  }

  lemma WeighedNonNegative(n: nat, due: int)
    requires due >= 0
    ensures Weighed(n, due) >= 0
  {
  }

  lemma LoopDueNonNegative(loop: LoopAt, n: nat)
    requires loop.Scanning? ==> loop.k <= n
    ensures LoopDue(loop, n) >= 0
  {
    if loop.Scanning? || loop.Pushing? || loop.Blocked? {
      WeighedNonNegative(n, Cost(loop.task));
    }
  }

  lemma PatienceNonNegative(s: State)
    requires Known(s) && LoopInRange(s)
    ensures Patience(s) >= 0
  {
    TotalNonNegative(s, s.workers);
    WeighedNonNegative(|s.workers|, TotalDue(s.workers));
    LoopDueNonNegative(s.loop, |s.workers|);
  }

  lemma {:induction false} StepsAreBounded(s: State, steps: seq<Step>)
    requires Inv(s) && Legal(s, steps) && StaysInside(s, steps)
    ensures |steps| <= Patience(s)
    decreases |steps|
  {
    if steps == [] {
      PatienceNonNegative(s);
    } else {
      InvKept(s, steps[0]);
      if OfWorker(steps[0]) {
        WorkerStepCosts(s, steps[0]);
      } else {
        LoopStepCosts(s, steps[0]);
      }
      StepsAreBounded(Do(s, steps[0]), steps[1..]);
    }
  }

  lemma {:induction false} StillInside(s: State, steps: seq<Step>)
    requires Legal(s, steps) && StaysInside(s, steps)
    ensures InSentWork(After(s, steps).loop)
    decreases |steps|
  {
    if steps != [] {
      StillInside(Do(s, steps[0]), steps[1..]);
    }
  }

  /** sentWork returns, across any number of full queues, waits and scans, with any interleaving and
      either initial flag: while it has not, some thread can move, and no run can keep it inside for
      more than Patience steps of all threads together. */
  lemma SentWorkReturns(s: State, steps: seq<Step>)
    requires Reachable(s) && Legal(s, steps) && StaysInside(s, steps)
    ensures |steps| <= Patience(s)
    ensures exists step :: Enabled(After(s, steps), step)
  {
    ReachableInv(s);
    StepsAreBounded(s, steps);
    InvAlways(s, steps);
    StillInside(s, steps);
    SomeoneCanMove(After(s, steps));
  }

  lemma OnlyNotifyLeaves(s: State, step: Step)
    requires InSentWork(s.loop) && Enabled(s, step) && !InSentWork(Do(s, step).loop)
    ensures step == Notify && Do(s, step).loop.Idle?
  {
    if OfWorker(step) {
      WorkerActs(s, step);
    }
  }

  /** It is left only by returning, with its task pushed. */
  lemma LeftOnlyByReturning(s: State, step: Step)
    requires Reachable(s) && InSentWork(s.loop) && Enabled(s, step) && !InSentWork(Do(s, step).loop)
    ensures step == Notify && Do(s, step).loop.Idle? && Do(s, step).submitted == Tasks(Do(s, step).log)
  {
    ReachableInv(s);
    OnlyNotifyLeaves(s, step);
    NothingDroppedKept(s, step);
    assert Tasks(Do(s, step).log) + [] == Tasks(Do(s, step).log);
  }
}
