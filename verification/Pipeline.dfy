/** The hand-off between the event loop and the worker threads, and back: work queues with wait
    flags one way, write queues with a batch of connections and an async wakeup the other way.
    Every step is one critical section or one unlocked access of one thread; a run is any
    interleaving. */
module Pipeline {
  import opened Frames

  /** sentWork pushes only while a queue is shorter than this. */
  const QUEUE_LIMIT: nat := 20

  type ConnId = nat

  /** One response: the message and the connection whose write queue gets it. */
  datatype Mount = Mount(conn: ConnId, message: Message)

  /** What a work function does: its mounts in order, then ev_async_send. */
  datatype Task = Task(mounts: seq<Mount>)

  /** Where a worker is in thread_func. Running: mount number k is next; pushed says its frames are
      already in the write queue and pushPingnode is still to come. */
  datatype WorkerAt =
    | Waiting
    | Checking
    | Popping
    | Running(task: Task, k: nat, pushed: bool)
    | Signalling

  datatype Worker = Worker(
    queue: seq<Task>,        // q_workfun_
    wait: bool,              // c_isWait_
    at: WorkerAt,
    batch: seq<ConnId>,      // v_pingnode_sp_
    done: seq<Task>          // history
  )

  /** Where the event loop is: between callbacks, inside sentWork, or inside foreachio. */
  datatype LoopAt =
    | Idle
    | Scanning(task: Task, k: nat, best: nat)
    | Pushing(task: Task, best: nat)
    | Notifying(worker: nat)
    | Blocked(task: Task, full: nat)
    | Swapping(i: nat)
    | Starting(i: nat, nodes: seq<ConnId>)

  datatype Connection = Connection(
    queue: seq<Frame>,       // buffers_p
    watching: bool,          // the write watcher is started
    live: bool,
    sent: seq<Frame>,        // history
    mounted: seq<Message>    // history
  )

  datatype State = State(
    workers: seq<Worker>,
    loop: LoopAt,
    wait: bool,              // noti_threads::c_isWait_
    async: bool,             // ev_async_send seen since the last callback
    conns: map<ConnId, Connection>,
    submitted: seq<Task>,    // history: every task sentWork was called with
    log: seq<(nat, Task)>    // history: which worker got which task
  )

  datatype Step =
    // a worker
    | Wake(w: nat)
    | Check(w: nat)
    | Pop(w: nat)
    | Push(w: nat)
    | Ping(w: nat)
    | Send(w: nat)
    | Signal(w: nat)
    // the event loop in sentWork
    | Submit(task: Task)
    | Scan
    | Enqueue
    | Notify
    | Unblock
    // the event loop in start_write_callback
    | TakeAsync
    | Swap
    | Start
    // the event loop in its other callbacks
    | Accept(c: ConnId)
    | Write(c: ConnId)
    | Drop(c: ConnId)
    | Release(c: ConnId)

  predicate OfWorker(step: Step) {
    step.Wake? || step.Check? || step.Pop? || step.Push? || step.Ping? || step.Send? || step.Signal?
  }

  /** n workers; the producer's flag is not initialised, so it is a parameter. */
  function Init(n: nat, wait: bool): State {
    State(seq(n, _ => Worker([], true, Waiting, [], [])), Idle, wait, false, map[], [], [])
  }

  predicate Enabled(s: State, step: Step) {
    match step
    case Wake(w) => w < |s.workers| && s.workers[w].at.Waiting? && !s.workers[w].wait
    case Check(w) => w < |s.workers| && s.workers[w].at.Checking?
    case Pop(w) => w < |s.workers| && s.workers[w].at.Popping? && s.workers[w].queue != []
    case Push(w) =>
      && w < |s.workers| && s.workers[w].at.Running? && !s.workers[w].at.pushed
      && s.workers[w].at.k < |s.workers[w].at.task.mounts|
      && s.workers[w].at.task.mounts[s.workers[w].at.k].conn in s.conns
    case Ping(w) =>
      && w < |s.workers| && s.workers[w].at.Running? && s.workers[w].at.pushed
      && s.workers[w].at.k < |s.workers[w].at.task.mounts|
    case Send(w) =>
      && w < |s.workers| && s.workers[w].at.Running? && !s.workers[w].at.pushed
      && s.workers[w].at.k >= |s.workers[w].at.task.mounts|
    case Signal(w) => w < |s.workers| && s.workers[w].at.Signalling?
    case Submit(task) => s.loop.Idle? && s.workers != [] && forall m :: m in task.mounts ==> m.conn in s.conns
    case Scan => s.loop.Scanning? && s.loop.best < |s.workers|
    case Enqueue => s.loop.Pushing? && s.loop.best < |s.workers|
    case Notify => s.loop.Notifying? && s.loop.worker < |s.workers|
    case Unblock => s.loop.Blocked? && !s.wait
    case TakeAsync => s.loop.Idle? && s.async
    case Swap => s.loop.Swapping?
    case Start => s.loop.Starting? && forall c :: c in s.loop.nodes ==> c in s.conns
    case Accept(c) => s.loop.Idle? && c !in s.conns
    case Write(c) => s.loop.Idle? && c in s.conns && s.conns[c].watching
    case Drop(c) => s.loop.Idle? && c in s.conns
    case Release(c) => s.loop.Idle? && c in s.conns && s.conns[c].watching && !s.conns[c].live
  }

  function Set(s: State, w: nat, worker: Worker): State
    requires w < |s.workers|
  {
    s.(workers := s.workers[w := worker])
  }

  /** Threads stay, and a connection's record stays even when the connection is gone. */
  function Do(s: State, step: Step): (s': State)
    requires Enabled(s, step)
    ensures |s'.workers| == |s.workers|
    ensures forall c :: c in s.conns ==> c in s'.conns
  {
    if OfWorker(step) then ByWorker(s, step) else ByLoop(s, step)
  }

  /** thread_func: the wait, the drain loop, the work function, the signal. */
  function ByWorker(s: State, step: Step): State
    requires Enabled(s, step) && OfWorker(step)
  {
    match step
    case Wake(w) => Set(s, w, s.workers[w].(wait := true, at := Checking))
    case Check(w) => Set(s, w, s.workers[w].(at := if s.workers[w].queue == [] then Signalling else Popping))
    case Pop(w) =>
      Set(s, w, s.workers[w].(queue := s.workers[w].queue[1..], at := Running(s.workers[w].queue[0], 0, false)))
    case Push(w) =>
      // mountBuffer2Node under the write queue's lock
      var at := s.workers[w].at;
      var m := at.task.mounts[at.k];
      var c := s.conns[m.conn];
      Set(s, w, s.workers[w].(at := at.(pushed := true)))
        .(conns := s.conns[m.conn := c.(queue := c.queue + m.message.Frames(), mounted := c.mounted + [m.message])])
    case Ping(w) =>
      // pushPingnode under the batch's lock
      var at := s.workers[w].at;
      Set(s, w, s.workers[w].(batch := s.workers[w].batch + [at.task.mounts[at.k].conn],
                              at := at.(k := at.k + 1, pushed := false)))
    case Send(w) =>
      Set(s, w, s.workers[w].(at := Checking, done := s.workers[w].done + [s.workers[w].at.task])).(async := true)
    case Signal(w) => Set(s, w, s.workers[w].(at := Waiting)).(wait := false)
  }

  function ByLoop(s: State, step: Step): State
    requires Enabled(s, step) && !OfWorker(step)
  {
    match step
    // sentWork: select the shortest queue, push or wait, signal
    case Submit(task) => s.(loop := Scanning(task, 1, 0), submitted := s.submitted + [task])
    case Scan =>
      var (k, best) := (s.loop.k, s.loop.best);
      if k < |s.workers| then
        s.(loop := Scanning(s.loop.task, k + 1, if |s.workers[best].queue| > |s.workers[k].queue| then k else best))
      else s.(loop := Pushing(s.loop.task, best))
    case Enqueue =>
      var (task, w) := (s.loop.task, s.loop.best);
      if |s.workers[w].queue| < QUEUE_LIMIT then
        Set(s, w, s.workers[w].(queue := s.workers[w].queue + [task]))
          .(loop := Notifying(w), log := s.log + [(w, task)])
      else s.(loop := Blocked(task, w))
    case Notify => Set(s, s.loop.worker, s.workers[s.loop.worker].(wait := false)).(loop := Idle)
    case Unblock => s.(loop := Scanning(s.loop.task, 1, 0), wait := true)
    // start_write_callback and foreachio
    case TakeAsync => s.(loop := Swapping(0), async := false)
    case Swap =>
      var i := s.loop.i;
      if i < |s.workers| then Set(s, i, s.workers[i].(batch := [])).(loop := Starting(i, s.workers[i].batch))
      else s.(loop := Idle)
    case Start =>
      if s.loop.nodes == [] then s.(loop := Swapping(s.loop.i + 1))
      else
        var c := s.loop.nodes[0];
        s.(loop := Starting(s.loop.i, s.loop.nodes[1..]), conns := s.conns[c := s.conns[c].(watching := true)])
    // accept, connection_write_callback, and the end of a connection
    case Accept(c) => s.(conns := s.conns[c := Connection([], false, true, [], [])])
    case Write(c) =>
      var conn := s.conns[c];
      var conn' := if conn.queue == [] then conn.(watching := false)
                   else conn.(queue := conn.queue[1..], sent := conn.sent + [conn.queue[0]]);
      s.(conns := s.conns[c := conn'])
    case Drop(c) => s.(conns := s.conns[c := s.conns[c].(live := false)])
    case Release(c) => s.(conns := s.conns[c := s.conns[c].(watching := false)])
  }

  predicate Legal(s: State, steps: seq<Step>)
    decreases |steps|
  {
    steps == [] || (Enabled(s, steps[0]) && Legal(Do(s, steps[0]), steps[1..]))
  }

  function After(s: State, steps: seq<Step>): State
    requires Legal(s, steps)
    decreases |steps|
  {
    if steps == [] then s else After(Do(s, steps[0]), steps[1..])
  }

  // ---- Safe hand-off of work ----

  function InFlight(at: WorkerAt): seq<Task> {
    if at.Running? then [at.task] else []
  }

  /** The tasks of the log that went to worker w, in submission order. */
  function TasksOf(log: seq<(nat, Task)>, w: nat): seq<Task> {
    if log == [] then []
    else
      var (owner, task) := log[|log| - 1];
      TasksOf(log[..|log| - 1], w) + if owner == w then [task] else []
  }

  /** Every task given to a worker is executed, in flight or queued, once and in order. */
  ghost predicate Accounted(s: State) {
    && (forall w :: 0 <= w < |s.workers| ==>
          TasksOf(s.log, w) == Books(s.workers[w]))
    && (forall i :: 0 <= i < |s.log| ==> s.log[i].0 < |s.workers|)
  }

  function Tasks(log: seq<(nat, Task)>): seq<Task> {
    if log == [] then [] else Tasks(log[..|log| - 1]) + [log[|log| - 1].1]
  }

  /** The task sentWork has been called with and has not pushed yet. */
  function InHand(loop: LoopAt): seq<Task> {
    if loop.Scanning? || loop.Pushing? || loop.Blocked? then [loop.task] else []
  }

  /** Every task sentWork was called with has been pushed, in that order, or is still in hand. */
  ghost predicate NothingDropped(s: State) {
    s.submitted == Tasks(s.log) + InHand(s.loop)
  }

  ghost predicate Bounded(s: State) {
    forall w :: 0 <= w < |s.workers| ==> |s.workers[w].queue| <= QUEUE_LIMIT
  }

  predicate Draining(at: WorkerAt) {
    at.Checking? || at.Popping? || at.Running?
  }

  /** Work is never left with a sleeping worker: it is draining, or its flag is down, or the
      producer is between push and signal. */
  predicate Woken(worker: Worker, notified: bool) {
    && (worker.at.Popping? ==> worker.queue != [])
    && (worker.queue != [] ==> Draining(worker.at) || !worker.wait || notified)
  }

  ghost predicate NoLostWakeup(s: State) {
    forall w :: 0 <= w < |s.workers| ==> Woken(s.workers[w], s.loop == Notifying(w))
  }

  /** The worker will get to its signal. */
  predicate Owes(worker: Worker) {
    Draining(worker.at) || worker.at.Signalling? || !worker.wait
  }

  ghost predicate LoopInRange(s: State) {
    match s.loop
    case Scanning(_, k, best) => 1 <= k <= |s.workers| && best < k
    case Pushing(_, best) => best < |s.workers|
    case Notifying(w) => w < |s.workers|
    case Blocked(_, full) => full < |s.workers|
    case Swapping(i) => i <= |s.workers|
    case Starting(i, _) => i < |s.workers|
    case _ => true
  }

  /** A producer blocked on a full queue has been signalled, or will be by that queue's worker. */
  ghost predicate NoDeadlock(s: State)
    requires LoopInRange(s)
  {
    s.loop.Blocked? && s.wait ==> Owes(s.workers[s.loop.full])
  }


  // ---- No stranded response ----

  /** foreachio has yet to swap this worker's batch. */
  predicate SwapPending(loop: LoopAt, w: nat) {
    (loop.Swapping? && loop.i <= w) || (loop.Starting? && loop.i < w)
  }

  /** A batch is never forgotten: its wakeup is set, under way, or still owed by the worker. */
  predicate BatchWillBeSwapped(s: State, w: nat)
    requires w < |s.workers|
  {
    s.async || SwapPending(s.loop, w) || s.workers[w].at.Running?
  }

  ghost predicate NoForgottenBatch(s: State) {
    forall w :: 0 <= w < |s.workers| && s.workers[w].batch != [] ==> BatchWillBeSwapped(s, w)
  }

  /** The worker has pushed to this connection's queue and is about to put it into its batch. */
  predicate MidMount(at: WorkerAt, c: ConnId) {
    at.Running? && at.pushed && at.k < |at.task.mounts| && at.task.mounts[at.k].conn == c
  }

  ghost predicate Attended(s: State, c: ConnId)
    requires c in s.conns
  {
    || s.conns[c].watching
    || (s.loop.Starting? && c in s.loop.nodes)
    || (exists w :: 0 <= w < |s.workers| && (c in s.workers[w].batch || MidMount(s.workers[w].at, c)))
  }

  ghost predicate NoStranded(s: State) {
    forall c :: c in s.conns && s.conns[c].live && s.conns[c].queue != [] ==> Attended(s, c)
  }

  /** Every connection a task, a batch or the loop refers to exists. */
  ghost predicate KnownTask(s: State, task: Task) {
    forall m :: m in task.mounts ==> m.conn in s.conns
  }

  ghost predicate RunsKnown(s: State, at: WorkerAt)
    requires at.Running?
  {
    && KnownTask(s, at.task) && at.k <= |at.task.mounts|
    && (at.pushed ==> at.k < |at.task.mounts|)
  }

  ghost predicate WorkerKnown(s: State, worker: Worker) {
    && (forall t :: t in worker.queue ==> KnownTask(s, t))
    && (worker.at.Running? ==> RunsKnown(s, worker.at))
    && (forall c :: c in worker.batch ==> c in s.conns)
  }

  ghost predicate Known(s: State) {
    && (forall w :: 0 <= w < |s.workers| ==> WorkerKnown(s, s.workers[w]))
    && (s.loop.Scanning? || s.loop.Pushing? || s.loop.Blocked? ==> KnownTask(s, s.loop.task))
    && (s.loop.Starting? ==> forall c :: c in s.loop.nodes ==> c in s.conns)
  }

  // ---- Whole messages ----

  /** What was sent and what is queued are together the frames of whole messages, in order. */
  ghost predicate NeverInterleaved(s: State) {
    forall c :: c in s.conns ==> s.conns[c].sent + s.conns[c].queue == AllFrames(s.conns[c].mounted)
  }

  ghost predicate Inv(s: State) {
    && NothingDropped(s) && Accounted(s) && Bounded(s) && LoopInRange(s) && NoLostWakeup(s) && NoDeadlock(s)
    && Known(s) && NoForgottenBatch(s) && NoStranded(s) && NeverInterleaved(s)
  }

  lemma InitInv(n: nat, wait: bool)
    ensures Inv(Init(n, wait))
  {
  }

  // ---- What a step does to one worker's record ----

  predicate Acts(x: Worker, x': Worker, step: Step) {
    match step
    case Wake(_) => x.at.Waiting? && !x.wait && x' == x.(wait := true, at := Checking)
    case Check(_) => x.at.Checking? && x' == x.(at := if x.queue == [] then Signalling else Popping)
    case Pop(_) =>
      x.at.Popping? && x.queue != [] && x' == x.(queue := x.queue[1..], at := Running(x.queue[0], 0, false))
    case Push(_) =>
      && x.at.Running? && !x.at.pushed && x.at.k < |x.at.task.mounts|
      && x' == x.(at := x.at.(pushed := true))
    case Ping(_) =>
      && x.at.Running? && x.at.pushed && x.at.k < |x.at.task.mounts|
      && x' == x.(batch := x.batch + [x.at.task.mounts[x.at.k].conn], at := x.at.(k := x.at.k + 1, pushed := false))
    case Send(_) =>
      && x.at.Running? && !x.at.pushed && x.at.k >= |x.at.task.mounts|
      && x' == x.(at := Checking, done := x.done + [x.at.task])
    case Signal(_) => x.at.Signalling? && x' == x.(at := Waiting)
    case _ => false
  }

  /** A worker's step changes its own record, and besides it at most the write queue, the producer's
      flag and the wakeup. */
  lemma WorkerActs(s: State, step: Step)
    requires Enabled(s, step) && OfWorker(step)
    ensures var s' := Do(s, step);
            && Acts(s.workers[step.w], s'.workers[step.w], step)
            && (forall w :: 0 <= w < |s.workers| && w != step.w ==> s'.workers[w] == s.workers[w])
            && s'.loop == s.loop && s'.log == s.log && s'.submitted == s.submitted
            && (step.Send? ==> s'.async) && (s.async ==> s'.async)
            && s'.wait == (s.wait && !step.Signal?)
  {
  }

  /** What the event loop does to worker w. */
  predicate Serves(s: State, step: Step, w: nat, x: Worker, x': Worker) {
    if step.Enqueue? && s.loop.Pushing? && w == s.loop.best && |x.queue| < QUEUE_LIMIT then
      x' == x.(queue := x.queue + [s.loop.task])
    else if step.Notify? && s.loop == Notifying(w) then x' == x.(wait := false)
    else if step.Swap? && s.loop == Swapping(w) then x' == x.(batch := [])
    else x' == x
  }

  lemma LoopServes(s: State, step: Step, w: nat)
    requires Enabled(s, step) && !OfWorker(step) && w < |s.workers|
    ensures Serves(s, step, w, s.workers[w], Do(s, step).workers[w])
  {
    if !step.Enqueue? && !step.Notify? && !step.Swap? {
      LoopLeavesWorkers(s, step);
    }
  }

  lemma LoopLeavesWorkers(s: State, step: Step)
    requires Enabled(s, step) && !OfWorker(step) && !step.Enqueue? && !step.Notify? && !step.Swap?
    ensures Do(s, step).workers == s.workers
  {
  }

  /** Where the event loop goes. */
  lemma LoopGoes(s: State, step: Step)
    requires Enabled(s, step) && !OfWorker(step)
    ensures var loop' := Do(s, step).loop;
            && (loop'.Notifying? ==> step.Enqueue? && s.loop.Pushing? && loop' == Notifying(s.loop.best)
                                     && |s.workers[s.loop.best].queue| < QUEUE_LIMIT)
            && (s.loop.Notifying? ==> step.Notify?)
            && (loop'.Blocked? ==> step.Enqueue? && s.loop.Pushing? && loop' == Blocked(s.loop.task, s.loop.best)
                                   && |s.workers[s.loop.best].queue| >= QUEUE_LIMIT)
  {
  }

  // ---- Nothing is dropped ----

  lemma LoopHistories(s: State, step: Step)
    requires Enabled(s, step) && !OfWorker(step)
    ensures var s' := Do(s, step);
            if step.Submit? then
              s'.submitted == s.submitted + [step.task] && s'.log == s.log
              && InHand(s.loop) == [] && InHand(s'.loop) == [step.task]
            else if step.Enqueue? && |s.workers[s.loop.best].queue| < QUEUE_LIMIT then
              s'.submitted == s.submitted && s'.log == s.log + [(s.loop.best, s.loop.task)]
              && InHand(s.loop) == [s.loop.task] && InHand(s'.loop) == []
            else s'.submitted == s.submitted && s'.log == s.log && InHand(s'.loop) == InHand(s.loop)
  {
  }

  lemma TasksAppend(log: seq<(nat, Task)>, owner: nat, task: Task)
    ensures Tasks(log + [(owner, task)]) == Tasks(log) + [task]
  {
    assert (log + [(owner, task)])[..|log|] == log;
  }

  lemma NothingDroppedKept(s: State, step: Step)
    requires NothingDropped(s) && Enabled(s, step)
    ensures NothingDropped(Do(s, step))
  {
    if OfWorker(step) {
      WorkerActs(s, step);
    } else {
      LoopHistories(s, step);
      if step.Enqueue? {
        TasksAppend(s.log, s.loop.best, s.loop.task);
      }
    }
  }

  lemma LogAppend(log: seq<(nat, Task)>, owner: nat, task: Task, w: nat)
    ensures TasksOf(log + [(owner, task)], w) == TasksOf(log, w) + if owner == w then [task] else []
  {
    assert (log + [(owner, task)])[..|log|] == log;
  }

  /** The part of a worker that the log speaks about. */
  function Books(worker: Worker): seq<Task> {
    worker.done + InFlight(worker.at) + worker.queue
  }

  lemma BooksAct(x: Worker, x': Worker, step: Step)
    requires Acts(x, x', step)
    ensures Books(x') == Books(x)
  {
    if step.Pop? {
      assert x.queue == [x.queue[0]] + x.queue[1..];
    }
  }

  lemma BooksKept(s: State, step: Step, w: nat)
    requires Enabled(s, step) && w < |s.workers|
    ensures Books(Do(s, step).workers[w]) ==
            Books(s.workers[w]) +
            if step.Enqueue? && w == s.loop.best && |s.workers[w].queue| < QUEUE_LIMIT then [s.loop.task] else []
  {
    if OfWorker(step) {
      WorkerActs(s, step);
      if step.w == w {
        BooksAct(s.workers[w], Do(s, step).workers[w], step);
      }
    } else {
      LoopServes(s, step, w);
    }
  }

  lemma LogKept(s: State, step: Step)
    requires Enabled(s, step)
    ensures Do(s, step).log == s.log +
              if step.Enqueue? && |s.workers[s.loop.best].queue| < QUEUE_LIMIT then [(s.loop.best, s.loop.task)] else []
  {
    if OfWorker(step) {
      WorkerActs(s, step);
    } else {
      LoopHistories(s, step);
    }
  }

  lemma AccountedKept(s: State, step: Step)
    requires Accounted(s) && Enabled(s, step)
    ensures Accounted(Do(s, step))
  {
    LogKept(s, step);
    forall w | 0 <= w < |s.workers|
      ensures TasksOf(Do(s, step).log, w) == Books(Do(s, step).workers[w])
    {
      BooksKept(s, step, w);
      assert TasksOf(s.log, w) == Books(s.workers[w]);
      if step.Enqueue? {
        LogAppend(s.log, s.loop.best, s.loop.task, w);
      }
    }
  }

  lemma RangeKept(s: State, step: Step)
    requires LoopInRange(s) && Enabled(s, step)
    ensures LoopInRange(Do(s, step))
  {
    if OfWorker(step) {
      WorkerActs(s, step);
    }
  }

  lemma BoundedKept(s: State, step: Step)
    requires Bounded(s) && Enabled(s, step)
    ensures Bounded(Do(s, step))
  {
    forall w | 0 <= w < |s.workers| ensures |Do(s, step).workers[w].queue| <= QUEUE_LIMIT {
      if OfWorker(step) {
        WorkerActs(s, step);
      } else {
        LoopServes(s, step, w);
      }
    }
  }

  lemma WokenServed(s: State, step: Step, w: nat, x: Worker, x': Worker, notified: bool)
    requires Serves(s, step, w, x, x') && Woken(x, s.loop == Notifying(w))
    requires step.Enqueue? && s.loop.Pushing? && w == s.loop.best && |x.queue| < QUEUE_LIMIT ==> notified
    requires s.loop == Notifying(w) ==> step.Notify?
    ensures Woken(x', notified)
  {
  }

  lemma WakeupKept(s: State, step: Step)
    requires LoopInRange(s) && NoLostWakeup(s) && Enabled(s, step)
    ensures NoLostWakeup(Do(s, step))
  {
    var s' := Do(s, step);
    forall w | 0 <= w < |s.workers| ensures Woken(s'.workers[w], s'.loop == Notifying(w)) {
      assert Woken(s.workers[w], s.loop == Notifying(w));
      if OfWorker(step) {
        WorkerActs(s, step);
      } else {
        LoopServes(s, step, w);
        LoopGoes(s, step);
        PushedIsNotified(s, step);
        WokenServed(s, step, w, s.workers[w], s'.workers[w], s'.loop == Notifying(w));
      }
    }
  }

  lemma PushedIsNotified(s: State, step: Step)
    requires Enabled(s, step)
    ensures step.Enqueue? && |s.workers[s.loop.best].queue| < QUEUE_LIMIT ==> Do(s, step).loop == Notifying(s.loop.best)
  {
  }

  lemma DeadlockKept(s: State, step: Step)
    requires LoopInRange(s) && NoLostWakeup(s) && NoDeadlock(s) && Enabled(s, step)
    ensures LoopInRange(Do(s, step)) && NoDeadlock(Do(s, step))
  {
    RangeKept(s, step);
    if OfWorker(step) {
      WorkerActs(s, step);
    } else if Do(s, step).loop.Blocked? {
      LoopGoes(s, step);
      LoopServes(s, step, s.loop.best);
      assert Woken(s.workers[s.loop.best], s.loop == Notifying(s.loop.best));
    }
  }

  lemma ConnsStay(s: State, step: Step)
    requires Enabled(s, step)
    ensures forall c :: c in s.conns ==> c in Do(s, step).conns
    ensures forall t :: KnownTask(s, t) ==> KnownTask(Do(s, step), t)
  {
  }

  lemma WorkerKnownByWorker(s: State, step: Step, w: nat)
    requires Known(s) && Enabled(s, step) && OfWorker(step) && w < |s.workers|
    ensures WorkerKnown(Do(s, step), Do(s, step).workers[w])
  {
    ConnsStay(s, step);
    assert WorkerKnown(s, s.workers[w]);
    WorkerActs(s, step);
    if step.w == w {
      KnownActs(Do(s, step), s.workers[w], Do(s, step).workers[w], step);
    }
  }

  /** A worker only refers to connections it has referred to before. */
  lemma KnownActs(s: State, x: Worker, x': Worker, step: Step)
    requires WorkerKnown(s, x) && Acts(x, x', step)
    ensures WorkerKnown(s, x')
  {
  }

  lemma WorkerKnownByLoop(s: State, step: Step, w: nat)
    requires Known(s) && Enabled(s, step) && !OfWorker(step) && w < |s.workers|
    ensures WorkerKnown(Do(s, step), Do(s, step).workers[w])
  {
    ConnsStay(s, step);
    assert WorkerKnown(s, s.workers[w]);
    LoopServes(s, step, w);
  }

  lemma KnownKept(s: State, step: Step)
    requires Known(s) && Enabled(s, step)
    ensures Known(Do(s, step))
  {
    ConnsStay(s, step);
    forall w | 0 <= w < |s.workers| ensures WorkerKnown(Do(s, step), Do(s, step).workers[w]) {
      if OfWorker(step) { WorkerKnownByWorker(s, step, w); } else { WorkerKnownByLoop(s, step, w); }
    }
  }

  /** foreachio still has every worker to come that it had, except the one it is at. */
  lemma SwapsStayPending(s: State, step: Step, w: nat)
    requires Enabled(s, step) && !OfWorker(step) && w < |s.workers|
    ensures s.async || SwapPending(s.loop, w) ==>
              Do(s, step).async || SwapPending(Do(s, step).loop, w) || (step.Swap? && s.loop == Swapping(w))
  {
  }

  lemma BatchesKept(s: State, step: Step)
    requires NoForgottenBatch(s) && Enabled(s, step)
    ensures NoForgottenBatch(Do(s, step))
  {
    var s' := Do(s, step);
    forall w | 0 <= w < |s.workers| && s'.workers[w].batch != [] ensures BatchWillBeSwapped(s', w) {
      if OfWorker(step) {
        WorkerActs(s, step);
      } else {
        LoopServes(s, step, w);
        SwapsStayPending(s, step, w);
      }
    }
  }

  /** What attends to a connection goes on doing so, or hands it on. */
  lemma AttendedKept(s: State, step: Step, c: ConnId)
    requires Known(s) && Enabled(s, step) && c in s.conns && Attended(s, c)
    requires step == Write(c) ==> s.conns[c].queue != []
    requires step == Release(c) ==> s.conns[c].live
    ensures Attended(Do(s, step), c)
  {
    if s.conns[c].watching || (s.loop.Starting? && c in s.loop.nodes) {
      WatchedStays(s, step, c);
    } else {
      var w :| 0 <= w < |s.workers| && (c in s.workers[w].batch || MidMount(s.workers[w].at, c));
      if OfWorker(step) {
        HeldByWorker(s, step, c, w);
      } else {
        HeldByLoop(s, step, c, w);
      }
    }
  }

  lemma WatchedStays(s: State, step: Step, c: ConnId)
    requires Enabled(s, step) && c in s.conns
    requires s.conns[c].watching || (s.loop.Starting? && c in s.loop.nodes)
    requires step == Write(c) ==> s.conns[c].queue != []
    requires step == Release(c) ==> s.conns[c].live
    ensures var s' := Do(s, step); s'.conns[c].watching || (s'.loop.Starting? && c in s'.loop.nodes)
  {
    if OfWorker(step) {
      WatchersStay(s, step, c);
    } else {
      WatchedByLoop(s, step, c);
    }
  }

  lemma WatchersStay(s: State, step: Step, c: ConnId)
    requires Enabled(s, step) && OfWorker(step) && c in s.conns
    ensures Do(s, step).loop == s.loop && Do(s, step).conns[c].watching == s.conns[c].watching
  {
  }

  lemma WatchedByLoop(s: State, step: Step, c: ConnId)
    requires Enabled(s, step) && !OfWorker(step) && c in s.conns
    requires s.conns[c].watching || (s.loop.Starting? && c in s.loop.nodes)
    requires step == Write(c) ==> s.conns[c].queue != []
    requires step == Release(c) ==> s.conns[c].live
    ensures var s' := ByLoop(s, step); s'.conns[c].watching || (s'.loop.Starting? && c in s'.loop.nodes)
  {
  }

  lemma HeldByWorker(s: State, step: Step, c: ConnId, w: nat)
    requires Enabled(s, step) && OfWorker(step) && w < |s.workers|
    requires c in s.workers[w].batch || MidMount(s.workers[w].at, c)
    ensures c in Do(s, step).workers[w].batch || MidMount(Do(s, step).workers[w].at, c)
  {
    WorkerActs(s, step);
  }

  lemma HeldByLoop(s: State, step: Step, c: ConnId, w: nat)
    requires Enabled(s, step) && !OfWorker(step) && w < |s.workers|
    requires c in s.workers[w].batch || MidMount(s.workers[w].at, c)
    ensures var s' := Do(s, step);
            c in s'.workers[w].batch || MidMount(s'.workers[w].at, c) || (s'.loop.Starting? && c in s'.loop.nodes)
  {
    LoopServes(s, step, w);
  }

  lemma StrandedKept(s: State, step: Step)
    requires NoStranded(s) && Known(s) && Enabled(s, step)
    ensures NoStranded(Do(s, step))
  {
    var s' := Do(s, step);
    forall c | c in s'.conns && s'.conns[c].live && s'.conns[c].queue != []
      ensures Attended(s', c)
    {
      if step.Push? && s.workers[step.w].at.task.mounts[s.workers[step.w].at.k].conn == c {
        assert MidMount(s'.workers[step.w].at, c);
      } else {
        AttendedKept(s, step, c);
      }
    }
  }

  /** What a step does to a connection's frames. */
  lemma FramesAfter(s: State, step: Step, c: ConnId)
    requires Enabled(s, step) && c in Do(s, step).conns
    ensures FramesMove(s, step, c, Do(s, step).conns[c])
  {
    if OfWorker(step) {
      FramesByWorker(s, step, c);
    } else {
      FramesByLoop(s, step, c);
    }
  }

  lemma FramesByWorker(s: State, step: Step, c: ConnId)
    requires Enabled(s, step) && OfWorker(step) && c in Do(s, step).conns
    ensures FramesMove(s, step, c, Do(s, step).conns[c])
  {
  }

  lemma FramesByLoop(s: State, step: Step, c: ConnId)
    requires Enabled(s, step) && !OfWorker(step) && c in Do(s, step).conns
    ensures FramesMove(s, step, c, Do(s, step).conns[c])
  {
    if !AtConnection(step) {
      LoopLeavesConns(s, step);
    }
  }

  predicate AtConnection(step: Step) {
    step.Start? || step.Accept? || step.Write? || step.Drop? || step.Release?
  }

  lemma LoopLeavesConns(s: State, step: Step)
    requires Enabled(s, step) && !OfWorker(step) && !AtConnection(step)
    ensures Do(s, step).conns == s.conns
  {
  }

  ghost predicate FramesMove(s: State, step: Step, c: ConnId, x': Connection)
    requires Enabled(s, step)
  {
    if step == Accept(c) then x'.sent == [] && x'.queue == [] && x'.mounted == []
    else
      c in s.conns &&
      if Mounts(s, step, c) then
        var m := s.workers[step.w].at.task.mounts[s.workers[step.w].at.k].message;
        x'.sent == s.conns[c].sent && x'.queue == s.conns[c].queue + m.Frames()
        && x'.mounted == s.conns[c].mounted + [m]
      else if step == Write(c) && s.conns[c].queue != [] then
        x'.sent == s.conns[c].sent + [s.conns[c].queue[0]] && x'.queue == s.conns[c].queue[1..]
        && x'.mounted == s.conns[c].mounted
      else x'.sent == s.conns[c].sent && x'.queue == s.conns[c].queue && x'.mounted == s.conns[c].mounted
  }

  predicate Mounts(s: State, step: Step, c: ConnId)
    requires Enabled(s, step)
  {
    step.Push? && s.workers[step.w].at.task.mounts[s.workers[step.w].at.k].conn == c
  }

  lemma InterleavedFor(s: State, step: Step, c: ConnId)
    requires Enabled(s, step) && c in Do(s, step).conns
    requires c in s.conns ==> s.conns[c].sent + s.conns[c].queue == AllFrames(s.conns[c].mounted)
    ensures var x' := Do(s, step).conns[c]; x'.sent + x'.queue == AllFrames(x'.mounted)
  {
    FramesAfter(s, step, c);
    if Mounts(s, step, c) {
      MountAppends(s.conns[c], s.workers[step.w].at.task.mounts[s.workers[step.w].at.k].message);
    } else if step == Write(c) && s.conns[c].queue != [] {
      FrontMoves(s.conns[c].sent, s.conns[c].queue);
    }
  }

  lemma FrontMoves<T>(sent: seq<T>, queue: seq<T>)
    requires queue != []
    ensures sent + [queue[0]] + queue[1..] == sent + queue
  {
  }

  lemma InterleavedKept(s: State, step: Step)
    requires NeverInterleaved(s) && Enabled(s, step)
    ensures NeverInterleaved(Do(s, step))
  {
    var s' := Do(s, step);
    forall c | c in s'.conns ensures s'.conns[c].sent + s'.conns[c].queue == AllFrames(s'.conns[c].mounted) {
      InterleavedFor(s, step, c);
    }
  }

  lemma MountAppends(conn: Connection, m: Message)
    requires conn.sent + conn.queue == AllFrames(conn.mounted)
    ensures conn.sent + (conn.queue + m.Frames()) == AllFrames(conn.mounted + [m])
  {
    AllFramesAppend(conn.mounted, [m]);
    assert AllFrames([m]) == m.Frames() + AllFrames([]);
    Associative(conn.sent, conn.queue, m.Frames());
  }

  lemma InvKept(s: State, step: Step)
    requires Inv(s) && Enabled(s, step)
    ensures Inv(Do(s, step))
  {
    NothingDroppedKept(s, step);
    AccountedKept(s, step);
    BoundedKept(s, step);
    WakeupKept(s, step);
    DeadlockKept(s, step);
    KnownKept(s, step);
    BatchesKept(s, step);
    StrandedKept(s, step);
    InterleavedKept(s, step);
  }

  lemma {:induction false} InvAlways(s: State, steps: seq<Step>)
    requires Inv(s) && Legal(s, steps)
    ensures Inv(After(s, steps))
    decreases |steps|
  {
    if steps != [] {
      InvKept(s, steps[0]);
      InvAlways(Do(s, steps[0]), steps[1..]);
    }
  }

  // ---- Selection ----

  function Scans(n: nat): seq<Step> { if n == 0 then [] else [Scan] + Scans(n - 1) }

  /** Worker best has the first of the shortest of the first k queues. */
  predicate Shortest(workers: seq<Worker>, k: nat, best: nat) {
    && best < k <= |workers|
    && (forall w :: 0 <= w < k ==> |workers[best].queue| <= |workers[w].queue|)
    && (forall w :: 0 <= w < best ==> |workers[best].queue| < |workers[w].queue|)
  }

  lemma ScanKeepsShortest(s: State)
    requires s.loop.Scanning? && Shortest(s.workers, s.loop.k, s.loop.best)
    ensures Enabled(s, Scan) && Do(s, Scan) == s.(loop := Do(s, Scan).loop)
    ensures if s.loop.k < |s.workers| then
              Do(s, Scan).loop.Scanning? && Do(s, Scan).loop.task == s.loop.task && Do(s, Scan).loop.k == s.loop.k + 1
              && Shortest(s.workers, s.loop.k + 1, Do(s, Scan).loop.best)
            else Do(s, Scan).loop == Pushing(s.loop.task, s.loop.best)
  {
  }

  /** sentWork, with the queues at rest meanwhile, settles on the first of the shortest queues. */
  lemma {:induction false} ScanFindsShortest(s: State)
    requires s.loop.Scanning? && Shortest(s.workers, s.loop.k, s.loop.best)
    ensures var steps := Scans(|s.workers| - s.loop.k + 1);
            && Legal(s, steps)
            && var s' := After(s, steps);
               && s'.loop.Pushing? && s' == s.(loop := Pushing(s.loop.task, s'.loop.best))
               && Shortest(s.workers, |s.workers|, s'.loop.best)
    decreases |s.workers| - s.loop.k
  {
    var n := |s.workers| - s.loop.k;
    ScanKeepsShortest(s);
    assert Scans(n + 1) == [Scan] + Scans(n) && Scans(n + 1)[1..] == Scans(n);
    if n > 0 {
      ScanFindsShortest(Do(s, Scan));
    }
  }
}
