/** What the hand-off guarantees over whole runs, for any number of workers, any interleaving and
    either initial value of the producer's flag. */
module PipelineRuns {
  import opened Frames
  import opened Pipeline

  ghost predicate Reachable(s: State) {
    exists n: nat, wait: bool, steps: seq<Step> :: IsRun(n, wait, steps, s)
  }

  ghost predicate IsRun(n: nat, wait: bool, steps: seq<Step>, s: State) {
    Legal(Init(n, wait), steps) && After(Init(n, wait), steps) == s
  }

  lemma ReachableInv(s: State)
    requires Reachable(s)
    ensures Inv(s)
  {
    var n: nat, wait: bool, steps: seq<Step> :| IsRun(n, wait, steps, s);
    InitInv(n, wait);
    InvAlways(Init(n, wait), steps);
  }

  // ---- Work ----

  /** The submitted tasks are, in order, those of the log and the one still in hand while sentWork
      scans, pushes or waits. Each task of the log is executed, in flight or queued at exactly one
      worker, each worker takes its tasks in submission order, and no queue is longer than the limit. */
  lemma ExactlyOnceInOrder(s: State)
    requires Reachable(s)
    ensures s.submitted == Tasks(s.log) + InHand(s.loop)
    ensures forall i :: 0 <= i < |s.log| ==> s.log[i].0 < |s.workers|
    ensures forall w :: 0 <= w < |s.workers| ==>
              && s.workers[w].done + InFlight(s.workers[w].at) + s.workers[w].queue == TasksOf(s.log, w)
              && |s.workers[w].queue| <= 20
  {
    ReachableInv(s);
    assert forall w :: 0 <= w < |s.workers| ==> TasksOf(s.log, w) == Books(s.workers[w]);
  }

  lemma {:induction false} OnlyOwner(log: seq<(nat, Task)>)
    requires forall i :: 0 <= i < |log| ==> log[i].0 == 0
    ensures TasksOf(log, 0) == Tasks(log)
  {
    if log != [] {
      OnlyOwner(log[..|log| - 1]);
    }
  }

  /** With one worker: what was submitted is what it has done, runs and has queued, in this order,
      and then the task in hand. */
  lemma OneWorkerDoesAll(s: State)
    requires Reachable(s) && |s.workers| == 1
    ensures var w := s.workers[0];
            s.submitted == w.done + InFlight(w.at) + w.queue + InHand(s.loop)
  {
    ExactlyOnceInOrder(s);
    OnlyOwner(s.log);
  }

  /** When the producer is between callbacks and every worker sleeps, everything submitted is done. */
  lemma AsleepMeansDone(s: State)
    requires Reachable(s) && s.loop.Idle?
    requires forall w :: 0 <= w < |s.workers| ==> s.workers[w].at.Waiting? && s.workers[w].wait
    ensures s.submitted == Tasks(s.log) && forall i :: 0 <= i < |s.log| ==> s.log[i].0 < |s.workers|
    ensures forall w :: 0 <= w < |s.workers| ==>
              s.workers[w].queue == [] && s.workers[w].done == TasksOf(s.log, w)
  {
    ExactlyOnceInOrder(s);
    ReachableInv(s);
    assert s.submitted == Tasks(s.log) + [];
    forall w | 0 <= w < |s.workers|
      ensures s.workers[w].queue == [] && s.workers[w].done == TasksOf(s.log, w)
    {
      assert s.workers[w].done + [] + [] == s.workers[w].done;
    }
  }

  // ---- Responses ----

  /** A live connection with something to write has its watcher on, or the event loop is about to
      start it, or it is in a batch that will be swapped, or a worker is just mounting on it. */
  lemma NoStrandedResponse(s: State, c: ConnId)
    requires Reachable(s) && c in s.conns && s.conns[c].live && s.conns[c].queue != []
    ensures
      || s.conns[c].watching
      || (s.loop.Starting? && c in s.loop.nodes)
      || (exists w :: 0 <= w < |s.workers| &&
            (MidMount(s.workers[w].at, c) || (c in s.workers[w].batch && BatchWillBeSwapped(s, w))))
  {
    ReachableInv(s);
    if !s.conns[c].watching && !(s.loop.Starting? && c in s.loop.nodes) {
      var w :| 0 <= w < |s.workers| && (c in s.workers[w].batch || MidMount(s.workers[w].at, c));
      assert c in s.workers[w].batch ==> BatchWillBeSwapped(s, w);
    }
  }

  /** Once the workers run nothing and no wakeup is pending, everything unsent is being watched. */
  lemma QuietMeansWatched(s: State, c: ConnId)
    requires Reachable(s) && s.loop.Idle? && !s.async
    requires forall w :: 0 <= w < |s.workers| ==> !s.workers[w].at.Running?
    requires c in s.conns && s.conns[c].live && s.conns[c].queue != []
    ensures s.conns[c].watching
  {
    NoStrandedResponse(s, c);
  }

  lemma {:induction false} SuffixShape(ms: seq<Message>, n: nat) returns (i: nat, k: nat)
    requires n < |AllFrames(ms)|
    ensures i < |ms| && k < |ms[i].Frames()|
    ensures AllFrames(ms)[n..] == ms[i].Frames()[k..] + AllFrames(ms[i + 1..])
  {
    var first := ms[0].Frames();
    if n < |first| {
      i, k := 0, n;
    } else {
      var j;
      j, k := SuffixShape(ms[1..], n - |first|);
      i := j + 1;
      assert ms[1..][j + 1..] == ms[i + 1..];
      assert AllFrames(ms)[n..] == AllFrames(ms[1..])[n - |first|..];
    }
  }

  /** Messages never interleave: a write queue is the unsent rest of one message followed by whole
      messages, and the last flag is on the final frame of each and on no other. */
  lemma QueueIsWholeMessages(s: State, c: ConnId) returns (i: nat, k: nat)
    requires Reachable(s) && c in s.conns && s.conns[c].queue != []
    ensures var ms := s.conns[c].mounted;
            && i < |ms| && k < |ms[i].Frames()|
            && s.conns[c].queue == ms[i].Frames()[k..] + AllFrames(ms[i + 1..])
            && (forall m, j :: m in ms && 0 <= j < |m.Frames()| ==>
                  (m.Frames()[j].last <==> j == |m.Frames()| - 1))
  {
    ReachableInv(s);
    var conn := s.conns[c];
    i, k := SuffixShape(conn.mounted, |conn.sent|);
    assert conn.queue == AllFrames(conn.mounted)[|conn.sent|..];
  }

  // ---- One worker: responses in request order ----

  function Flat(tasks: seq<Task>): seq<Mount> {
    if tasks == [] then [] else Flat(tasks[..|tasks| - 1]) + tasks[|tasks| - 1].mounts
  }

  function MessagesFor(c: ConnId, mounts: seq<Mount>): seq<Message> {
    if mounts == [] then []
    else
      var m := mounts[|mounts| - 1];
      MessagesFor(c, mounts[..|mounts| - 1]) + if m.conn == c then [m.message] else []
  }

  /** The mounts of the task in hand that are already in write queues. */
  function Begun(at: WorkerAt): seq<Mount> {
    if at.Running? && at.k <= |at.task.mounts| then
      if at.pushed && at.k < |at.task.mounts| then at.task.mounts[..at.k + 1] else at.task.mounts[..at.k]
    else []
  }

  function Performed(worker: Worker): seq<Mount> {
    Flat(worker.done) + Begun(worker.at)
  }

  /** With a single worker, as the server has it, a connection's messages are those of the
      performed mounts, in order. */
  ghost predicate InOrder(s: State)
    requires |s.workers| == 1
  {
    && (forall m :: m in Performed(s.workers[0]) ==> m.conn in s.conns)
    && (forall c :: c in s.conns ==> s.conns[c].mounted == MessagesFor(c, Performed(s.workers[0])))
  }

  lemma PushPerforms(worker: Worker, pushed: Worker)
    requires worker.at.Running? && !worker.at.pushed && worker.at.k < |worker.at.task.mounts|
    requires pushed == worker.(at := worker.at.(pushed := true))
    ensures Performed(pushed) == Performed(worker) + [worker.at.task.mounts[worker.at.k]]
  {
    var mounts, k := worker.at.task.mounts, worker.at.k;
    assert mounts[..k + 1] == mounts[..k] + [mounts[k]];
    Associative(Flat(worker.done), mounts[..k], [mounts[k]]);
  }

  lemma SendPerforms(worker: Worker, sent: Worker)
    requires worker.at.Running? && !worker.at.pushed && worker.at.k == |worker.at.task.mounts|
    requires sent == worker.(at := Checking, done := worker.done + [worker.at.task])
    ensures Performed(sent) == Performed(worker)
  {
    assert sent.done[..|worker.done|] == worker.done;
    assert Begun(worker.at) == worker.at.task.mounts;
    assert Performed(sent) == Flat(sent.done);
  }

  lemma OthersPerformNothing(x: Worker, x': Worker, step: Step)
    requires Acts(x, x', step) && !step.Push? && !step.Send?
    ensures Performed(x') == Performed(x)
  {
    assert x'.done == x.done;
    assert Begun(x'.at) == Begun(x.at);
  }

  lemma PerformedStep(s: State, step: Step)
    requires Known(s) && |s.workers| == 1 && Enabled(s, step)
    ensures Performed(Do(s, step).workers[0]) == Performed(s.workers[0]) + PushedMount(s, step)
  {
    if !OfWorker(step) {
      LoopServes(s, step, 0);
    } else {
      var x, x' := s.workers[0], Do(s, step).workers[0];
      WorkerActs(s, step);
      assert WorkerKnown(s, x);
      if step.Push? {
        PushPerforms(x, x');
      } else if step.Send? {
        SendPerforms(x, x');
      } else {
        OthersPerformNothing(x, x', step);
      }
    }
  }

  /** The mount whose frames this step puts into a write queue. */
  function PushedMount(s: State, step: Step): seq<Mount>
    requires Enabled(s, step)
  {
    if step.Push? then [s.workers[step.w].at.task.mounts[s.workers[step.w].at.k]] else []
  }

  lemma MessagesForAppend(c: ConnId, mounts: seq<Mount>, m: Mount)
    ensures MessagesFor(c, mounts + [m]) == MessagesFor(c, mounts) + if m.conn == c then [m.message] else []
  {
    assert (mounts + [m])[..|mounts|] == mounts;
  }

  lemma {:induction false} NothingFor(c: ConnId, mounts: seq<Mount>)
    requires forall m :: m in mounts ==> m.conn != c
    ensures MessagesFor(c, mounts) == []
  {
    if mounts != [] {
      NothingFor(c, mounts[..|mounts| - 1]);
    }
  }

  lemma InOrderForOne(s: State, step: Step, c: ConnId, now: seq<Mount>, next: seq<Mount>)
    requires Enabled(s, step) && c in Do(s, step).conns
    requires next == now + PushedMount(s, step)
    requires forall m :: m in now ==> m.conn in s.conns
    requires c in s.conns ==> s.conns[c].mounted == MessagesFor(c, now)
    ensures Do(s, step).conns[c].mounted == MessagesFor(c, next)
  {
    FramesAfter(s, step, c);
    assert !step.Push? ==> next == now;
    if step.Push? {
      MessagesForAppend(c, now, PushedMount(s, step)[0]);
    } else if step == Accept(c) {
      NothingFor(c, now);
    }
  }

  lemma InOrderKept(s: State, step: Step)
    requires Known(s) && |s.workers| == 1 && InOrder(s) && Enabled(s, step)
    ensures InOrder(Do(s, step))
  {
    var s' := Do(s, step);
    var now, next := Performed(s.workers[0]), Performed(s'.workers[0]);
    PerformedStep(s, step);
    assert next == now + PushedMount(s, step);
    forall c | c in s'.conns ensures s'.conns[c].mounted == MessagesFor(c, next) {
      InOrderForOne(s, step, c, now, next);
    }
    forall m | m in next ensures m.conn in s'.conns {
      assert m in now || m in PushedMount(s, step);
    }
  }

  lemma {:induction false} InOrderAlways(s: State, steps: seq<Step>)
    requires Inv(s) && |s.workers| == 1 && InOrder(s) && Legal(s, steps)
    ensures |After(s, steps).workers| == 1 && InOrder(After(s, steps))
    decreases |steps|
  {
    if steps != [] {
      InvKept(s, steps[0]);
      InOrderKept(s, steps[0]);
      InOrderAlways(Do(s, steps[0]), steps[1..]);
    }
  }

  lemma {:induction false} FlatPrefix(a: seq<Task>, b: seq<Task>)
    ensures Flat(a) <= Flat(a + b)
  {
    if b == [] {
      assert a + b == a;
    } else {
      assert (a + b)[..|a + b| - 1] == a + b[..|b| - 1];
      FlatPrefix(a, b[..|b| - 1]);
    }
  }

  lemma {:induction false} MessagesForPrefix(c: ConnId, a: seq<Mount>, b: seq<Mount>)
    requires a <= b
    ensures MessagesFor(c, a) <= MessagesFor(c, b)
  {
    if a == b {
    } else {
      MessagesForPrefix(c, a, b[..|b| - 1]);
    }
  }

  lemma PerformedIsPrefix(worker: Worker, tasks: seq<Task>)
    requires tasks == Books(worker)
    ensures Performed(worker) <= Flat(tasks)
  {
    if worker.at.Running? {
      var t := worker.at.task;
      var upTo := worker.done + [t];
      assert upTo[..|upTo| - 1] == worker.done;
      assert Flat(upTo) == Flat(worker.done) + t.mounts;
      FlatPrefix(upTo, worker.queue);
      assert tasks == upTo + worker.queue;
    } else {
      FlatPrefix(worker.done, worker.queue);
      assert tasks == worker.done + worker.queue;
    }
  }

  /** With one worker, what has been mounted on a connection is at any time a prefix of the
      responses to the submitted tasks, in submission order. */
  lemma ResponsesInRequestOrder(wait: bool, steps: seq<Step>, c: ConnId)
    requires Legal(Init(1, wait), steps) && c in After(Init(1, wait), steps).conns
    ensures var s := After(Init(1, wait), steps);
            s.conns[c].mounted <= MessagesFor(c, Flat(s.submitted))
  {
    var s := After(Init(1, wait), steps);
    InitInv(1, wait);
    InOrderAlways(Init(1, wait), steps);
    assert IsRun(1, wait, steps, s);
    OneWorkerDoesAll(s);
    var worker := s.workers[0];
    PerformedIsPrefix(worker, Books(worker));
    FlatPrefix(Books(worker), InHand(s.loop));
    MessagesForPrefix(c, Performed(worker), Flat(s.submitted));
  }
}
