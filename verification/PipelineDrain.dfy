/** Responses get out: once nothing more is submitted, the threads together can take only a bounded
    number of steps, and when none is left everything is executed and sent and no socket is watched. */
module PipelineDrain {
  import opened Frames
  import opened Pipeline
  import opened PipelineRuns
  import opened PipelineProgress

  /** Steps that bring in no new work: no submission, no new connection, no lost one. */
  predicate Serving(step: Step) {
    !step.Submit? && !step.Accept? && !step.Drop?
  }

  // ---- What each thing that waits can still cause ----

  /** One round of foreachio over n workers, from the wakeup on. */
  function Sweep(n: nat): nat { 2 * n + 2 }

  /** One more round of sentWork, once it is signalled. */
  function Rescan(n: nat): nat { n + 2 }

  /** A signalled worker wakes up, checks its queue, signals back. */
  function Round(n: nat): nat { 3 + Rescan(n) }

  /** Push and write of the frames, the entry in the batch, start and stop of the watcher. */
  function MountWorth(m: Mount): nat { 4 + |m.message.Frames()| }

  function MountsWorth(mounts: seq<Mount>, k: nat): nat
    decreases |mounts| - k
  {
    if k >= |mounts| then 0 else MountWorth(mounts[k]) + MountsWorth(mounts, k + 1)
  }

  function TaskWorth(n: nat, task: Task): nat { MountsWorth(task.mounts, 0) + Sweep(n) + 3 }

  function QueueWorth(n: nat, queue: seq<Task>): nat {
    if queue == [] then 0 else TaskWorth(n, queue[0]) + QueueWorth(n, queue[1..])
  }

  /** The half of a mount that is done: its push, and what it put into the write queue. */
  function HalfDone(mounts: seq<Mount>, k: nat): nat {
    if k < |mounts| then 1 + |mounts[k].message.Frames()| else 0
  }

  function AtWorth(n: nat, at: WorkerAt): int {
    match at
    case Waiting => 0
    case Checking => 2 + Rescan(n)
    case Popping => 1 + Rescan(n)
    case Signalling => 1 + Rescan(n)
    case Running(task, k, pushed) =>
      MountsWorth(task.mounts, k) - (if pushed then HalfDone(task.mounts, k) else 0) + 3 + Sweep(n) + Rescan(n)
  }

  function WorkerWorth(n: nat, x: Worker): int {
    AtWorth(n, x.at) + QueueWorth(n, x.queue) + (if x.wait then 0 else Round(n)) + 2 * |x.batch|
  }

  function WorkersWorth(n: nat, workers: seq<Worker>): int {
    if workers == [] then 0
    else WorkersWorth(n, workers[..|workers| - 1]) + WorkerWorth(n, workers[|workers| - 1])
  }

  /** The task in hand: its work, the signal to its worker and that worker's round. */
  function HandWorth(n: nat, task: Task): nat { TaskWorth(n, task) + 1 + Round(n) }

  function LoopWorth(n: nat, loop: LoopAt): int {
    match loop
    case Idle => 0
    case Scanning(task, k, _) => n - k + 2 + HandWorth(n, task)
    case Pushing(task, _) => 1 + HandWorth(n, task)
    case Blocked(task, _) => HandWorth(n, task)
    case Notifying(_) => 1 + Round(n)
    case Swapping(i) => 2 * (n - i) + 1
    case Starting(i, nodes) => 2 * |nodes| + 2 * (n - i)
  }

  function FlagsWorth(n: nat, wait: bool, async: bool): nat {
    (if wait then 0 else Rescan(n)) + (if async then Sweep(n) else 0)
  }

  /** One write for each frame, and one that stops the watcher. */
  function ConnWorth(c: Connection): nat { |c.queue| + if c.watching then 1 else 0 }

  function ConnsWorth(conns: map<ConnId, Connection>, limit: nat): nat {
    if limit == 0 then 0
    else ConnsWorth(conns, limit - 1) + if limit - 1 in conns then ConnWorth(conns[limit - 1]) else 0
  }

  ghost function Limit(ids: set<ConnId>): (limit: nat)
    ensures forall c :: c in ids ==> c < limit
  {
    if ids == {} then 0
    else
      var c :| c in ids;
      var others := Limit(ids - {c});
      assert forall x :: x in ids <==> x == c || x in ids - {c};
      if c < others then others else c + 1
  }

  /** All that s can still cause; limit is above every connection's id. */
  function Outstanding(s: State, limit: nat): int {
    var n := |s.workers|;
    WorkersWorth(n, s.workers) + LoopWorth(n, s.loop) + FlagsWorth(n, s.wait, s.async) + ConnsWorth(s.conns, limit)
  }

  // ---- Every step uses up some of it ----

  lemma {:induction false} WorkersAfterSet(n: nat, workers: seq<Worker>, w: nat, x: Worker)
    requires w < |workers|
    ensures WorkersWorth(n, workers[w := x])
            == WorkersWorth(n, workers) - WorkerWorth(n, workers[w]) + WorkerWorth(n, x)
  {
    var last := |workers| - 1;
    if w == last {
      assert workers[w := x][..last] == workers[..last];
    } else {
      assert workers[w := x][..last] == workers[..last][w := x];
      WorkersAfterSet(n, workers[..last], w, x);
    }
  }

  lemma {:induction false} ConnsAfterSet(conns: map<ConnId, Connection>, limit: nat, c: ConnId, x: Connection)
    requires c in conns
    ensures ConnsWorth(conns[c := x], limit)
            == ConnsWorth(conns, limit) + if c < limit then ConnWorth(x) - ConnWorth(conns[c]) else 0
  {
    if limit > 0 {
      ConnsAfterSet(conns, limit - 1, c, x);
    }
  }

  lemma {:induction false} QueueAfterPush(n: nat, queue: seq<Task>, task: Task)
    ensures QueueWorth(n, queue + [task]) == QueueWorth(n, queue) + TaskWorth(n, task)
  {
    if queue == [] {
      assert ([] + [task])[1..] == [];
    } else {
      assert (queue + [task])[1..] == queue[1..] + [task];
      QueueAfterPush(n, queue[1..], task);
    }
  }

  /** What a worker's step leaves of the worker's own share, but for what it hands on. */
  function HandedOn(n: nat, x: Worker, step: Step): nat {
    match step
    case Push(_) =>
      if x.at.Running? && x.at.k < |x.at.task.mounts| then |x.at.task.mounts[x.at.k].message.Frames()| else 0
    case Send(_) => Sweep(n)
    case Signal(_) => Rescan(n)
    case _ => 0
  }

  lemma WorkerActsCost(n: nat, x: Worker, x': Worker, step: Step)
    requires Acts(x, x', step)
    ensures WorkerWorth(n, x') + HandedOn(n, x, step) + 1 <= WorkerWorth(n, x)
  {
  }

  /** Everything but the step's own worker and what it hands on is as before. */
  lemma WorkerStepFlags(s: State, step: Step)
    requires Enabled(s, step) && OfWorker(step) && !step.Push?
    ensures var s' := Do(s, step);
            && s'.conns == s.conns && s'.loop == s.loop
            && FlagsWorth(|s.workers|, s'.wait, s'.async)
               <= FlagsWorth(|s.workers|, s.wait, s.async) + HandedOn(|s.workers|, s.workers[step.w], step)
  {
  }

  lemma PushFlags(s: State, w: nat, limit: nat)
    requires Enabled(s, Push(w))
    ensures var s' := Do(s, Push(w));
            && s'.loop == s.loop && s'.wait == s.wait && s'.async == s.async
            && ConnsWorth(s'.conns, limit)
               <= ConnsWorth(s.conns, limit) + HandedOn(|s.workers|, s.workers[w], Push(w))
  {
    var m := s.workers[w].at.task.mounts[s.workers[w].at.k];
    var c := s.conns[m.conn];
    var c' := c.(queue := c.queue + m.message.Frames(), mounted := c.mounted + [m.message]);
    assert Do(s, Push(w)).conns == s.conns[m.conn := c'];
    ConnsAfterSet(s.conns, limit, m.conn, c');
  }

  lemma WorkerStepServes(s: State, step: Step, limit: nat)
    requires Enabled(s, step) && OfWorker(step)
    ensures Outstanding(Do(s, step), limit) < Outstanding(s, limit)
  {
    var n, s' := |s.workers|, Do(s, step);
    WorkerActs(s, step);
    WorkersAfter(s, step);
    WorkersAfterSet(n, s.workers, step.w, s'.workers[step.w]);
    WorkerActsCost(n, s.workers[step.w], s'.workers[step.w], step);
    if step.Push? {
      PushFlags(s, step.w, limit);
    } else {
      WorkerStepFlags(s, step);
    }
  }

  lemma EnqueueServes(s: State, limit: nat)
    requires Enabled(s, Enqueue)
    ensures Outstanding(Do(s, Enqueue), limit) < Outstanding(s, limit)
  {
    if |s.workers[s.loop.best].queue| < QUEUE_LIMIT {
      PushedWorth(|s.workers|, s.workers, s.loop.best, s.loop.task);
    }
  }

  lemma PushedWorth(n: nat, workers: seq<Worker>, w: nat, task: Task)
    requires w < |workers|
    ensures WorkersWorth(n, workers[w := workers[w].(queue := workers[w].queue + [task])])
            == WorkersWorth(n, workers) + TaskWorth(n, task)
  {
    QueueAfterPush(n, workers[w].queue, task);
    WorkersAfterSet(n, workers, w, workers[w].(queue := workers[w].queue + [task]));
  }

  lemma NotifyServes(s: State, limit: nat)
    requires Enabled(s, Notify)
    ensures Outstanding(Do(s, Notify), limit) < Outstanding(s, limit)
  {
    var x := s.workers[s.loop.worker].(wait := false);
    WorkersAfterSet(|s.workers|, s.workers, s.loop.worker, x);
  }

  lemma SwapServes(s: State, limit: nat)
    requires Enabled(s, Swap) && LoopInRange(s)
    ensures Outstanding(Do(s, Swap), limit) < Outstanding(s, limit)
  {
    var i := s.loop.i;
    if i < |s.workers| {
      WorkersAfterSet(|s.workers|, s.workers, i, s.workers[i].(batch := []));
    }
  }

  lemma ConnectionServes(s: State, step: Step, limit: nat)
    requires Enabled(s, step) && (step.Start? || step.Write? || step.Release?)
    requires forall c :: c in s.conns ==> c < limit
    ensures Outstanding(Do(s, step), limit) < Outstanding(s, limit)
  {
    if !step.Start? || s.loop.nodes != [] {
      var c := if step.Start? then s.loop.nodes[0] else step.c;
      var x := Do(s, step).conns[c];
      assert Do(s, step).conns == s.conns[c := x];
      ConnsAfterSet(s.conns, limit, c, x);
    }
  }

  /** Scanning on, being released, and the start of a sweep. */
  lemma FlagServes(s: State, step: Step, limit: nat)
    requires Enabled(s, step) && LoopInRange(s) && (step.Scan? || step.Unblock? || step.TakeAsync?)
    ensures Outstanding(Do(s, step), limit) < Outstanding(s, limit)
  {
  }

  lemma StepServes(s: State, step: Step, limit: nat)
    requires Inv(s) && Enabled(s, step) && Serving(step) && forall c :: c in s.conns ==> c < limit
    ensures Outstanding(Do(s, step), limit) < Outstanding(s, limit)
    ensures Do(s, step).conns.Keys == s.conns.Keys
  {
    if OfWorker(step) {
      WorkerStepServes(s, step, limit);
    } else {
      match step {
        case Enqueue => EnqueueServes(s, limit);
        case Notify => NotifyServes(s, limit);
        case Swap => SwapServes(s, limit);
        case Start => ConnectionServes(s, step, limit);
        case Write(_) => ConnectionServes(s, step, limit);
        case Release(_) => ConnectionServes(s, step, limit);
        case _ => FlagServes(s, step, limit);
      }
    }
    ConnsStay(s, step);
  }

  lemma ConnsStay(s: State, step: Step)
    requires Enabled(s, step) && !step.Accept?
    ensures Do(s, step).conns.Keys == s.conns.Keys
  {
  }

  lemma {:induction false} WorkersNonNegative(n: nat, workers: seq<Worker>)
    ensures WorkersWorth(n, workers) >= 0
  {
    if workers != [] {
      WorkersNonNegative(n, workers[..|workers| - 1]);
    }
  }

  lemma {:induction false} RunsAreBounded(s: State, steps: seq<Step>, limit: nat)
    requires Inv(s) && Legal(s, steps) && (forall step :: step in steps ==> Serving(step))
    requires forall c :: c in s.conns ==> c < limit
    ensures |steps| <= Outstanding(s, limit)
    decreases |steps|
  {
    if steps == [] {
      WorkersNonNegative(|s.workers|, s.workers);
    } else {
      assert steps[0] in steps;
      InvKept(s, steps[0]);
      StepServes(s, steps[0], limit);
      RunsAreBounded(Do(s, steps[0]), steps[1..], limit);
    }
  }

  // ---- When nothing can move any more ----

  predicate SentAll(c: Connection) { c.queue == [] && c.sent == AllFrames(c.mounted) }

  /** Everything is executed, everything for a live connection is sent, and no socket is watched. */
  ghost predicate AllOut(s: State) {
    && s.loop.Idle?
    && (forall w :: 0 <= w < |s.workers| ==> s.workers[w].queue == [] && s.workers[w].done == TasksOf(s.log, w))
    && (forall c :: c in s.conns ==> !s.conns[c].watching && (s.conns[c].live ==> SentAll(s.conns[c])))
  }

  ghost predicate SomeoneServes(s: State) {
    exists step :: Serving(step) && Enabled(s, step)
  }

  lemma OwingWorkerServes(s: State, w: nat)
    requires Inv(s) && w < |s.workers| && Owes(s.workers[w])
    ensures SomeoneServes(s)
  {
    OwingWorkerCanStep(s, w);
    assert Serving(NextOf(s, w));
  }

  lemma BusyLoopServes(s: State)
    requires Reachable(s) && !s.loop.Idle?
    ensures SomeoneServes(s)
  {
    NeverStuck(s);
    var step :| Enabled(s, step);
    assert Serving(step);
  }

  /** No thread can take a step, but for new work. */
  ghost predicate AtRest(s: State) {
    && s.loop.Idle? && !s.async && (forall c :: c in s.conns ==> !s.conns[c].watching)
    && (forall w :: 0 <= w < |s.workers| ==> s.workers[w].at.Waiting? && s.workers[w].wait)
  }

  lemma NobodyServes(s: State)
    requires Reachable(s) && !SomeoneServes(s)
    ensures AtRest(s)
  {
    ReachableInv(s);
    if !s.loop.Idle? {
      BusyLoopServes(s);
    }
    NoWorkerServes(s);
    NoCallbackServes(s);
  }

  lemma NoWorkerServes(s: State)
    requires Inv(s) && !SomeoneServes(s)
    ensures forall w :: 0 <= w < |s.workers| ==> s.workers[w].at.Waiting? && s.workers[w].wait
  {
    forall w | 0 <= w < |s.workers| ensures s.workers[w].at.Waiting? && s.workers[w].wait {
      if Owes(s.workers[w]) {
        OwingWorkerServes(s, w);
      }
    }
  }

  lemma NoCallbackServes(s: State)
    requires s.loop.Idle? && !SomeoneServes(s)
    ensures !s.async && forall c :: c in s.conns ==> !s.conns[c].watching
  {
    assert Serving(TakeAsync);
    forall c | c in s.conns ensures !s.conns[c].watching {
      assert Serving(Write(c));
    }
  }

  lemma RestIsSent(s: State, c: ConnId)
    requires Reachable(s) && AtRest(s) && c in s.conns && s.conns[c].live
    ensures SentAll(s.conns[c])
  {
    ReachableInv(s);
    if s.conns[c].queue != [] {
      QuietMeansWatched(s, c);
    }
    assert s.conns[c].sent + [] == s.conns[c].sent;
  }

  lemma RestIsAllOut(s: State)
    requires Reachable(s) && !SomeoneServes(s)
    ensures AllOut(s)
  {
    NobodyServes(s);
    AsleepMeansDone(s);
    forall c | c in s.conns && s.conns[c].live ensures SentAll(s.conns[c]) {
      RestIsSent(s, c);
    }
  }

  lemma {:induction false} ReachableAfter(s: State, steps: seq<Step>)
    requires Reachable(s) && Legal(s, steps)
    ensures Reachable(After(s, steps))
    decreases |steps|
  {
    if steps != [] {
      ReachableDo(s, steps[0]);
      ReachableAfter(Do(s, steps[0]), steps[1..]);
    }
  }

  lemma ReachableDo(s: State, step: Step)
    requires Reachable(s) && Enabled(s, step)
    ensures Reachable(Do(s, step))
  {
    var n, wait, steps :| IsRun(n, wait, steps, s);
    AfterSnoc(Init(n, wait), steps, step);
    assert IsRun(n, wait, steps + [step], Do(s, step));
  }

  lemma {:induction false} AfterSnoc(s: State, steps: seq<Step>, step: Step)
    requires Legal(s, steps) && Enabled(After(s, steps), step)
    ensures Legal(s, steps + [step]) && After(s, steps + [step]) == Do(After(s, steps), step)
    decreases |steps|
  {
    if steps == [] {
      assert [] + [step] == [step] && [step][1..] == [];
    } else {
      assert (steps + [step])[0] == steps[0] && (steps + [step])[1..] == steps[1..] + [step];
      AfterSnoc(Do(s, steps[0]), steps[1..], step);
    }
  }

  // ---- Main result ----

  /** From every reachable state, whatever the interleaving: without new work the threads can take no
      more steps than are outstanding; and as long as something is not executed or not sent, or a socket
      is watched, one of them can take a step. */
  lemma EverythingGetsOut(s: State, steps: seq<Step>)
    requires Reachable(s) && Legal(s, steps) && forall step :: step in steps ==> Serving(step)
    ensures |steps| <= Outstanding(s, Limit(s.conns.Keys))
    ensures SomeoneServes(After(s, steps)) || AllOut(After(s, steps))
  {
    ReachableInv(s);
    RunsAreBounded(s, steps, Limit(s.conns.Keys));
    ReachableAfter(s, steps);
    if !SomeoneServes(After(s, steps)) {
      RestIsAllOut(After(s, steps));
    }
  }
}
