/** What the clients get for what was submitted: every response, each once, for any number of workers. */
module PipelineResponses {
  import opened Frames
  import opened Pipeline
  import opened PipelineRuns
  import opened PipelineProgress
  import opened PipelineDrain

  // ---- A connection is live until it is dropped ----

  lemma {:induction false} LiveFrom(s: State, steps: seq<Step>, c: ConnId)
    requires Legal(s, steps) && c in After(s, steps).conns
    ensures After(s, steps).conns[c].live <==> (c in s.conns ==> s.conns[c].live) && Drop(c) !in steps
    decreases |steps|
  {
    if steps != [] {
      LiveFrom(Do(s, steps[0]), steps[1..], c);
      LiveStep(s, steps[0], c);
      assert Drop(c) in steps <==> steps[0] == Drop(c) || Drop(c) in steps[1..];
    }
  }

  lemma LiveStep(s: State, step: Step, c: ConnId)
    requires Enabled(s, step)
    ensures c in s.conns ==> (Do(s, step).conns[c].live <==> s.conns[c].live && step != Drop(c))
    ensures c !in s.conns && c in Do(s, step).conns ==> Do(s, step).conns[c].live && step != Drop(c)
    ensures step == Drop(c) ==> c in s.conns
  {
    if OfWorker(step) {
      LiveByWorker(s, step, c);
    } else if !AtConnection(step) {
      LoopLeavesConns(s, step);
    }
  }

  lemma LiveByWorker(s: State, step: Step, c: ConnId)
    requires Enabled(s, step) && OfWorker(step)
    ensures c in Do(s, step).conns <==> c in s.conns
    ensures c in s.conns ==> Do(s, step).conns[c].live == s.conns[c].live
  {
  }

  /** In every run a connection is live exactly as long as it has not been dropped. */
  lemma LiveUntilDropped(n: nat, wait: bool, steps: seq<Step>, c: ConnId)
    requires Legal(Init(n, wait), steps) && c in After(Init(n, wait), steps).conns
    ensures After(Init(n, wait), steps).conns[c].live <==> Drop(c) !in steps
  {
    LiveFrom(Init(n, wait), steps, c);
  }

  // ---- Only what has been written to is watched ----

  ghost predicate WrittenTo(s: State, c: ConnId) { c in s.conns && s.conns[c].mounted != [] }

  ghost predicate BatchWritten(s: State, x: Worker) {
    && (forall c :: c in x.batch ==> WrittenTo(s, c))
    && (x.at.Running? && x.at.pushed && x.at.k < |x.at.task.mounts| ==> WrittenTo(s, x.at.task.mounts[x.at.k].conn))
  }

  ghost predicate WatchedIsWritten(s: State) {
    && (forall c :: c in s.conns && s.conns[c].watching ==> WrittenTo(s, c))
    && (forall w :: 0 <= w < |s.workers| ==> BatchWritten(s, s.workers[w]))
    && (s.loop.Starting? ==> forall c :: c in s.loop.nodes ==> WrittenTo(s, c))
  }

  lemma StaysWritten(s: State, step: Step, c: ConnId)
    requires Enabled(s, step) && WrittenTo(s, c)
    ensures WrittenTo(Do(s, step), c)
  {
    if !OfWorker(step) && !AtConnection(step) {
      LoopLeavesConns(s, step);
    }
  }

  lemma WatchedByWorker(s: State, step: Step)
    requires WatchedIsWritten(s) && Enabled(s, step) && OfWorker(step)
    ensures WatchedIsWritten(Do(s, step))
  {
    var s' := Do(s, step);
    assert BatchWritten(s, s.workers[step.w]);
    forall c | WrittenTo(s, c) ensures WrittenTo(s', c) {
      StaysWritten(s, step, c);
    }
    forall w | 0 <= w < |s'.workers| ensures BatchWritten(s', s'.workers[w]) {
      assert BatchWritten(s, s.workers[w]);
    }
  }

  lemma WorkersByLoop(s: State, step: Step, w: nat)
    requires WatchedIsWritten(s) && Enabled(s, step) && !OfWorker(step) && w < |s.workers|
    ensures BatchWritten(s, Do(s, step).workers[w])
  {
    assert BatchWritten(s, s.workers[w]);
  }

  lemma NodesByLoop(s: State, step: Step)
    requires WatchedIsWritten(s) && Enabled(s, step) && !OfWorker(step)
    ensures var loop := Do(s, step).loop; loop.Starting? ==> forall c :: c in loop.nodes ==> WrittenTo(s, c)
  {
    if step == Swap && s.loop.i < |s.workers| {
      assert BatchWritten(s, s.workers[s.loop.i]);
    }
  }

  lemma WatchingByLoop(s: State, step: Step, c: ConnId)
    requires WatchedIsWritten(s) && Enabled(s, step) && !OfWorker(step)
    requires c in Do(s, step).conns && Do(s, step).conns[c].watching
    ensures WrittenTo(s, c)
  {
    if step == Start && s.loop.nodes != [] {
      assert s.loop.nodes[0] in s.loop.nodes;
    }
  }

  lemma WatchedByLoop(s: State, step: Step)
    requires WatchedIsWritten(s) && Enabled(s, step) && !OfWorker(step)
    ensures WatchedIsWritten(Do(s, step))
  {
    var s' := Do(s, step);
    forall c | WrittenTo(s, c) ensures WrittenTo(s', c) {
      StaysWritten(s, step, c);
    }
    forall c | c in s'.conns && s'.conns[c].watching ensures WrittenTo(s, c) {
      WatchingByLoop(s, step, c);
    }
    forall w | 0 <= w < |s'.workers| ensures BatchWritten(s', s'.workers[w]) {
      WorkersByLoop(s, step, w);
    }
    NodesByLoop(s, step);
  }

  lemma {:induction false} WatchedFrom(s: State, steps: seq<Step>)
    requires WatchedIsWritten(s) && Legal(s, steps)
    ensures WatchedIsWritten(After(s, steps))
    decreases |steps|
  {
    if steps != [] {
      if OfWorker(steps[0]) {
        WatchedByWorker(s, steps[0]);
      } else {
        WatchedByLoop(s, steps[0]);
      }
      WatchedFrom(Do(s, steps[0]), steps[1..]);
    }
  }

  /** In every run the write watcher of a connection is started only once something was mounted for it. */
  lemma NothingWatchedUnwritten(n: nat, wait: bool, steps: seq<Step>, c: ConnId)
    requires Legal(Init(n, wait), steps) && c in After(Init(n, wait), steps).conns
    ensures After(Init(n, wait), steps).conns[c].mounted == [] ==> !After(Init(n, wait), steps).conns[c].watching
  {
    WatchedFrom(Init(n, wait), steps);
  }

  /** sentWork waits exactly when the shortest queue it found holds twenty. */
  lemma WaitsAtTwenty(s: State)
    requires Enabled(s, Enqueue)
    ensures var full := |s.workers[s.loop.best].queue| >= 20;
            && (Do(s, Enqueue).loop.Blocked? <==> full)
            && Do(s, Enqueue).workers[s.loop.best].queue
               == s.workers[s.loop.best].queue + if full then [] else [s.loop.task]
  {
  }

  // ---- Every mount, by whichever worker ----

  /** How often m is among ms. */
  function Times(m: Message, ms: seq<Message>): nat { multiset(ms)[m] }

  lemma TimesAppend(m: Message, a: seq<Message>, b: seq<Message>)
    ensures Times(m, a + b) == Times(m, a) + Times(m, b)
  {
    assert multiset(a + b) == multiset(a) + multiset(b);
  }

  /** How often the mounts this worker has performed put m on connection c. */
  function TimesOf(c: ConnId, m: Message, x: Worker): nat { Times(m, MessagesFor(c, Performed(x))) }

  function Sum(f: nat -> nat, n: nat): nat { if n == 0 then 0 else Sum(f, n - 1) + f(n - 1) }

  lemma {:induction false} SumSame(f: nat -> nat, g: nat -> nat, n: nat)
    requires forall w: nat :: w < n ==> f(w) == g(w)
    ensures Sum(f, n) == Sum(g, n)
  {
    if n > 0 {
      SumSame(f, g, n - 1);
    }
  }

  lemma {:induction false} SumMore(f: nat -> nat, g: nat -> nat, n: nat, one: nat, more: nat)
    requires forall w: nat :: w < n ==> g(w) == f(w) + if w == one then more else 0
    ensures Sum(g, n) == Sum(f, n) + if one < n then more else 0
  {
    if n > 0 {
      SumMore(f, g, n - 1, one, more);
    }
  }

  lemma {:induction false} SumZero(f: nat -> nat, n: nat)
    requires forall w: nat :: w < n ==> f(w) == 0
    ensures Sum(f, n) == 0
  {
    if n > 0 {
      SumZero(f, n - 1);
    }
  }

  function ByEach(c: ConnId, m: Message, workers: seq<Worker>): nat -> nat {
    (w: nat) => if w < |workers| then TimesOf(c, m, workers[w]) else 0
  }

  function TimesBy(c: ConnId, m: Message, workers: seq<Worker>): nat { Sum(ByEach(c, m, workers), |workers|) }

  /** What each connection has got are the messages of all performed mounts that name it. */
  ghost predicate AllMounted(s: State) {
    && (forall c, m :: c in s.conns ==> Times(m, s.conns[c].mounted) == TimesBy(c, m, s.workers))
    && (forall w, m :: 0 <= w < |s.workers| && m in Performed(s.workers[w]) ==> m.conn in s.conns)
  }

  lemma PerformedBy(s: State, step: Step, w: nat)
    requires Known(s) && Enabled(s, step) && w < |s.workers|
    ensures Performed(Do(s, step).workers[w])
            == Performed(s.workers[w]) + if OfWorker(step) && step.w == w then PushedMount(s, step) else []
  {
    var x, x' := s.workers[w], Do(s, step).workers[w];
    if !OfWorker(step) {
      LoopServes(s, step, w);
      assert x'.at == x.at && x'.done == x.done;
    } else {
      WorkerActs(s, step);
      if step.w == w {
        assert WorkerKnown(s, x);
        if step.Push? {
          PushPerforms(x, x');
        } else if step.Send? {
          SendPerforms(x, x');
        } else {
          OthersPerformNothing(x, x', step);
        }
      }
    }
  }

  lemma PushTimesOf(s: State, w: nat, c: ConnId, m: Message)
    requires Known(s) && Enabled(s, Push(w))
    ensures TimesOf(c, m, Do(s, Push(w)).workers[w])
            == TimesOf(c, m, s.workers[w]) + Times(m, MessagesFor(c, PushedMount(s, Push(w))))
  {
    var mount, x := PushedMount(s, Push(w))[0], s.workers[w];
    PerformedBy(s, Push(w), w);
    MessagesForAppend(c, Performed(x), mount);
    MessagesForOne(c, mount);
    TimesAppend(m, MessagesFor(c, Performed(x)), MessagesFor(c, [mount]));
  }

  /** One worker's share grows by more, the others keep theirs. */
  lemma OneMore(c: ConnId, m: Message, workers: seq<Worker>, workers': seq<Worker>, w: nat, more: nat)
    requires w < |workers| == |workers'| && TimesOf(c, m, workers'[w]) == TimesOf(c, m, workers[w]) + more
    requires forall v :: 0 <= v < |workers| && v != w ==> workers'[v] == workers[v]
    ensures TimesBy(c, m, workers') == TimesBy(c, m, workers) + more
  {
    SumMore(ByEach(c, m, workers), ByEach(c, m, workers'), |workers|, w, more);
  }

  lemma PushTimes(s: State, w: nat, c: ConnId, m: Message)
    requires Known(s) && Enabled(s, Push(w))
    ensures TimesBy(c, m, Do(s, Push(w)).workers)
            == TimesBy(c, m, s.workers) + Times(m, MessagesFor(c, PushedMount(s, Push(w))))
  {
    PushTimesOf(s, w, c, m);
    WorkersAfter(s, Push(w));
    OneMore(c, m, s.workers, Do(s, Push(w)).workers, w, Times(m, MessagesFor(c, PushedMount(s, Push(w)))));
  }

  lemma NoPushBy(s: State, step: Step, w: nat)
    requires Known(s) && Enabled(s, step) && !step.Push? && w < |s.workers|
    ensures Performed(Do(s, step).workers[w]) == Performed(s.workers[w])
  {
    PerformedBy(s, step, w);
    assert Performed(s.workers[w]) + [] == Performed(s.workers[w]);
  }

  lemma NoPushTimes(s: State, step: Step, c: ConnId, m: Message)
    requires Known(s) && Enabled(s, step) && !step.Push?
    ensures TimesBy(c, m, Do(s, step).workers) == TimesBy(c, m, s.workers)
  {
    forall w: nat | w < |s.workers| ensures ByEach(c, m, Do(s, step).workers)(w) == ByEach(c, m, s.workers)(w) {
      NoPushBy(s, step, w);
    }
    SumSame(ByEach(c, m, Do(s, step).workers), ByEach(c, m, s.workers), |s.workers|);
  }

  lemma MessagesForOne(c: ConnId, m: Mount)
    ensures MessagesFor(c, [m]) == if m.conn == c then [m.message] else []
  {
    assert [m][..0] == [];
  }

  lemma NothingBy(c: ConnId, m: Message, workers: seq<Worker>)
    requires forall w, x :: 0 <= w < |workers| && x in Performed(workers[w]) ==> x.conn != c
    ensures TimesBy(c, m, workers) == 0
  {
    forall w: nat | w < |workers| ensures ByEach(c, m, workers)(w) == 0 {
      NothingFor(c, Performed(workers[w]));
    }
    SumZero(ByEach(c, m, workers), |workers|);
  }

  lemma MountedFor(s: State, step: Step, c: ConnId, m: Message)
    requires Known(s) && AllMounted(s) && Enabled(s, step) && c in Do(s, step).conns
    ensures Times(m, Do(s, step).conns[c].mounted) == TimesBy(c, m, Do(s, step).workers)
  {
    FramesAfter(s, step, c);
    if step.Push? {
      PushTimes(s, step.w, c, m);
      MessagesForOne(c, PushedMount(s, step)[0]);
      TimesAppend(m, s.conns[c].mounted, MessagesFor(c, PushedMount(s, step)));
    } else {
      NoPushTimes(s, step, c, m);
      if step == Accept(c) {
        NothingBy(c, m, s.workers);
      }
    }
  }

  lemma AllMountedKept(s: State, step: Step)
    requires Known(s) && AllMounted(s) && Enabled(s, step)
    ensures AllMounted(Do(s, step))
  {
    var s' := Do(s, step);
    forall c, m | c in s'.conns ensures Times(m, s'.conns[c].mounted) == TimesBy(c, m, s'.workers) {
      MountedFor(s, step, c, m);
    }
    forall w, m | 0 <= w < |s'.workers| && m in Performed(s'.workers[w]) ensures m.conn in s'.conns {
      PerformedBy(s, step, w);
      assert m in Performed(s.workers[w]) || m in PushedMount(s, step);
    }
  }

  lemma {:induction false} AllMountedAlways(s: State, steps: seq<Step>)
    requires Inv(s) && AllMounted(s) && Legal(s, steps)
    ensures AllMounted(After(s, steps))
    decreases |steps|
  {
    if steps != [] {
      InvKept(s, steps[0]);
      AllMountedKept(s, steps[0]);
      AllMountedAlways(Do(s, steps[0]), steps[1..]);
    }
  }

  lemma InitMounted(n: nat, wait: bool)
    ensures AllMounted(Init(n, wait))
  {
    forall w | 0 <= w < n ensures Performed(Init(n, wait).workers[w]) == [] {
    }
  }

  lemma ReachableMounted(s: State)
    requires Reachable(s)
    ensures AllMounted(s)
  {
    var n, wait, steps :| IsRun(n, wait, steps, s);
    InitInv(n, wait);
    InitMounted(n, wait);
    AllMountedAlways(Init(n, wait), steps);
  }

  // ---- The workers share out the submitted tasks ----

  function ResponsesTo(c: ConnId, tasks: seq<Task>): seq<Message> { MessagesFor(c, Flat(tasks)) }

  function Asked(c: ConnId, m: Message, tasks: seq<Task>): nat { Times(m, ResponsesTo(c, tasks)) }

  function AskedOfEach(c: ConnId, m: Message, log: seq<(nat, Task)>): nat -> nat {
    (w: nat) => Asked(c, m, TasksOf(log, w))
  }

  /** How often what the log gave to the first n workers asks for m on connection c. */
  function Shared(c: ConnId, m: Message, log: seq<(nat, Task)>, n: nat): nat { Sum(AskedOfEach(c, m, log), n) }

  lemma {:induction false} MessagesForConcat(c: ConnId, a: seq<Mount>, b: seq<Mount>)
    ensures MessagesFor(c, a + b) == MessagesFor(c, a) + MessagesFor(c, b)
  {
    if b == [] {
      assert a + b == a;
    } else {
      var last := b[|b| - 1];
      assert a + b == (a + b[..|b| - 1]) + [last];
      MessagesForConcat(c, a, b[..|b| - 1]);
      MessagesForAppend(c, a + b[..|b| - 1], last);
    }
  }

  lemma AskedAppend(c: ConnId, m: Message, tasks: seq<Task>, t: Task)
    ensures Asked(c, m, tasks + [t]) == Asked(c, m, tasks) + Asked(c, m, [t])
  {
    assert (tasks + [t])[..|tasks|] == tasks;
    assert Flat([t]) == t.mounts by {
      assert [t][..0] == [] && [] + t.mounts == t.mounts;
    }
    MessagesForConcat(c, Flat(tasks), t.mounts);
    TimesAppend(m, ResponsesTo(c, tasks), MessagesFor(c, t.mounts));
  }

  lemma TasksOfAppend(log: seq<(nat, Task)>, owner: nat, t: Task, w: nat)
    ensures TasksOf(log + [(owner, t)], w) == TasksOf(log, w) + if owner == w then [t] else []
  {
    assert (log + [(owner, t)])[..|log|] == log;
  }

  lemma SharedAppend(c: ConnId, m: Message, log: seq<(nat, Task)>, owner: nat, t: Task, n: nat)
    ensures Shared(c, m, log + [(owner, t)], n) == Shared(c, m, log, n) + if owner < n then Asked(c, m, [t]) else 0
  {
    var log' := log + [(owner, t)];
    forall w: nat | w < n
      ensures AskedOfEach(c, m, log')(w) == AskedOfEach(c, m, log)(w) + if w == owner then Asked(c, m, [t]) else 0
    {
      ShareAppend(c, m, log, owner, t, w);
    }
    SumMore(AskedOfEach(c, m, log), AskedOfEach(c, m, log'), n, owner, Asked(c, m, [t]));
  }

  lemma ShareAppend(c: ConnId, m: Message, log: seq<(nat, Task)>, owner: nat, t: Task, w: nat)
    ensures Asked(c, m, TasksOf(log + [(owner, t)], w))
            == Asked(c, m, TasksOf(log, w)) + if owner == w then Asked(c, m, [t]) else 0
  {
    TasksOfAppend(log, owner, t, w);
    if owner == w {
      AskedAppend(c, m, TasksOf(log, w), t);
    } else {
      assert TasksOf(log, w) + [] == TasksOf(log, w);
    }
  }

  lemma {:induction false} SharedIsAll(c: ConnId, m: Message, log: seq<(nat, Task)>, n: nat)
    requires forall i :: 0 <= i < |log| ==> log[i].0 < n
    ensures Shared(c, m, log, n) == Asked(c, m, Tasks(log))
  {
    if log == [] {
      NothingShared(c, m, n);
    } else {
      var front, last := log[..|log| - 1], log[|log| - 1];
      SharedIsAll(c, m, front, n);
      SharedAppend(c, m, front, last.0, last.1, n);
      AskedAppend(c, m, Tasks(front), last.1);
      assert front + [(last.0, last.1)] == log;
    }
  }

  lemma NothingShared(c: ConnId, m: Message, n: nat)
    ensures Shared(c, m, [], n) == 0
  {
    SumZero(AskedOfEach(c, m, []), n);
  }

  predicate DoneAll(log: seq<(nat, Task)>, w: nat, x: Worker) { x.at.Waiting? && x.done == TasksOf(log, w) }

  lemma RestShares(c: ConnId, m: Message, log: seq<(nat, Task)>, workers: seq<Worker>)
    requires forall w :: 0 <= w < |workers| ==> DoneAll(log, w, workers[w])
    ensures TimesBy(c, m, workers) == Shared(c, m, log, |workers|)
  {
    forall w: nat | w < |workers| ensures ByEach(c, m, workers)(w) == AskedOfEach(c, m, log)(w) {
      RestPerformed(c, m, log, w, workers[w]);
    }
    SumSame(ByEach(c, m, workers), AskedOfEach(c, m, log), |workers|);
  }

  lemma RestPerformed(c: ConnId, m: Message, log: seq<(nat, Task)>, w: nat, x: Worker)
    requires DoneAll(log, w, x)
    ensures TimesOf(c, m, x) == Asked(c, m, TasksOf(log, w))
  {
    assert Flat(x.done) + [] == Flat(x.done);
  }

  /** When no thread can take a step but for new work: each connection has got exactly the responses to
      the submitted tasks, each as often as they name it, and a live one has sent all of them. */
  lemma EveryResponseIsSent(s: State, c: ConnId)
    requires Reachable(s) && !SomeoneServes(s) && c in s.conns
    ensures multiset(s.conns[c].mounted) == multiset(ResponsesTo(c, s.submitted))
    ensures s.conns[c].live ==> s.conns[c].sent == AllFrames(s.conns[c].mounted) && s.conns[c].queue == []
  {
    RestIsAllOut(s);
    forall m ensures Times(m, s.conns[c].mounted) == Times(m, ResponsesTo(c, s.submitted)) {
      EveryMessageIsMounted(s, c, m);
    }
    SameTimes(s.conns[c].mounted, ResponsesTo(c, s.submitted));
  }

  lemma SameTimes(a: seq<Message>, b: seq<Message>)
    requires forall m :: Times(m, a) == Times(m, b)
    ensures multiset(a) == multiset(b)
  {
    forall m ensures multiset(a)[m] == multiset(b)[m] {
      assert Times(m, a) == Times(m, b);
    }
  }

  lemma EveryMessageIsMounted(s: State, c: ConnId, m: Message)
    requires Reachable(s) && !SomeoneServes(s) && c in s.conns
    ensures Times(m, s.conns[c].mounted) == Asked(c, m, s.submitted)
  {
    NobodyServes(s);
    AsleepMeansDone(s);
    ReachableMounted(s);
    RestShares(c, m, s.log, s.workers);
    SharedIsAll(c, m, s.log, |s.workers|);
  }

  /** With one worker they are in the order of submission. */
  lemma EveryResponseInOrder(wait: bool, steps: seq<Step>, c: ConnId)
    requires Legal(Init(1, wait), steps) && !SomeoneServes(After(Init(1, wait), steps))
    requires c in After(Init(1, wait), steps).conns
    ensures var s := After(Init(1, wait), steps); s.conns[c].mounted == ResponsesTo(c, s.submitted)
  {
    var s := After(Init(1, wait), steps);
    assert IsRun(1, wait, steps, s);
    ResponsesInRequestOrder(wait, steps, c);
    EveryResponseIsSent(s, c);
    SameWhenAsMany(s.conns[c].mounted, ResponsesTo(c, s.submitted));
  }

  lemma SameWhenAsMany<T>(a: seq<T>, b: seq<T>)
    requires a <= b && multiset(a) == multiset(b)
    ensures a == b
  {
    assert |multiset(a)| == |a| && |multiset(b)| == |b|;
  }

  /** Over a run in which nothing is dropped: once nobody can move, the clients have everything. */
  lemma NothingDroppedNothingMissing(n: nat, wait: bool, steps: seq<Step>, c: ConnId)
    requires Legal(Init(n, wait), steps) && Drop(c) !in steps && c in After(Init(n, wait), steps).conns
    requires !SomeoneServes(After(Init(n, wait), steps))
    ensures var s := After(Init(n, wait), steps);
            && s.conns[c].queue == [] && !s.conns[c].watching
            && s.conns[c].sent == AllFrames(s.conns[c].mounted)
            && multiset(s.conns[c].mounted) == multiset(ResponsesTo(c, s.submitted))
  {
    var s := After(Init(n, wait), steps);
    assert IsRun(n, wait, steps, s);
    LiveUntilDropped(n, wait, steps, c);
    EveryResponseIsSent(s, c);
    RestIsAllOut(s);
  }
}
