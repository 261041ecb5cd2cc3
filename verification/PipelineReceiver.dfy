/** The hand-off and the codec together: what a receiver makes of the bytes a connection has sent. */
module PipelineReceiver {
  import opened VarLength
  import opened Frames
  import opened Reader
  import R = Reassembly
  import P = Pipeline
  import PipelineRuns

  /** Reading on a longer stream, with the grants cut down, gives the same bytes. */
  lemma ReadOnLonger(s: Socket, count: nat, extra: seq<byte>, tail: seq<Grant>) returns (g: seq<Grant>)
    requires |tail| == |Read(s, count).0.grants|
    ensures |g| == |s.grants|
    ensures var (s', got) := Read(s, count);
            Read(Socket(s.stream + extra, g), count) == (Socket(s'.stream + extra, tail), got)
  {
    if s.grants == [] {
      g := [];
      assert tail == [];
    } else {
      var got := Read(s, count).1;
      g := [match got case Got(bytes) => Upto(|bytes|) case NotNow => Later case Failed(_) => s.grants[0]] + tail;
      assert g[1..] == tail;
      if got.Got? {
        var k := |got.value|;
        assert (s.stream + extra)[..k] == s.stream[..k] == got.value;
        assert (s.stream + extra)[k..] == s.stream[k..] + extra;
      }
    }
  }

  lemma PayloadOnLonger(r: Reader, s: Socket, extra: seq<byte>, tail: seq<Grant>)
      returns (g: seq<Grant>)
    requires |tail| == |PayloadRound(r, s).1.grants|
    ensures |g| == |s.grants|
    ensures var (r', s', result) := PayloadRound(r, s);
            PayloadRound(r, Socket(s.stream + extra, g))
            == (r', Socket(s'.stream + extra, tail), result)
  {
    g := ReadOnLonger(s, r.remain, extra, tail);
  }

  lemma ParseOnLonger(r: Reader, s: Socket, extra: seq<byte>, tail: seq<Grant>)
      returns (g: seq<Grant>)
    requires |tail| == |ParseRound(r, s).1.grants|
    ensures |g| == |s.grants|
    ensures var (r', s', result) := ParseRound(r, s);
            ParseRound(r, Socket(s.stream + extra, g))
            == (r', Socket(s'.stream + extra, tail), result)
  {
    match Parse(r)
    case (r', Some(code)) => g := tail;
    case (r', None) => g := PayloadOnLonger(r', s, extra, tail);
  }

  lemma CallOnLonger(r: Reader, s: Socket, probe: nat, extra: seq<byte>, tail: seq<Grant>)
      returns (g: seq<Grant>)
    requires HeaderFits(r) && probe <= PROBE_WRITTEN
    requires |tail| == |ReadCall(r, s, probe).1.grants|
    ensures |g| == |s.grants|
    ensures var (r', s', result) := ReadCall(r, s, probe);
            ReadCall(r, Socket(s.stream + extra, g), probe)
            == (r', Socket(s'.stream + extra, tail), result)
    ensures !r.finished && !r.parsed && !r.ready ==>
              Read(Socket(s.stream + extra, g), r.toParse).1 == Read(s, r.toParse).1
  {
    if r.finished {
      g := tail;
    } else if r.parsed {
      g := PayloadOnLonger(r, s, extra, tail);
    } else if r.ready {
      g := ParseOnLonger(r, s, extra, tail);
    } else {
      var (s1, got) := Read(s, r.toParse);
      var mid := tail;
      if got.Got? {
        var r1 := TakeHeader(r, got.value, probe);
        if r1.ready {
          mid := ParseOnLonger(r1, s1, extra, tail);
        }
      }
      g := ReadOnLonger(s, r.toParse, extra, mid);
    }
  }

  lemma SplitOnLonger(r: Reader, s: Socket, s': Socket)
    requires HeaderFits(r)
    requires !r.parsed && !r.ready ==> Read(s', r.toParse).1 == Read(s, r.toParse).1
    ensures SplitsLength(r, s') <==> SplitsLength(r, s)
  {
  }

  /** What happens on s' is what happens on s, and extra and tail are left over. */
  ghost predicate SameServe(
    p: R.Conn, s: Socket, s': Socket, mem: Memory, probe: nat, extra: seq<byte>, tail: seq<Grant>)
    requires p.bufs != [] && R.Sound(p) && probe <= PROBE_WRITTEN
  {
    var (c1, s1, result) := R.Serve(p, s, mem, probe);
    R.Serve(p, s', mem, probe) == (c1, Socket(s1.stream + extra, tail), result)
  }

  lemma ServeOnLonger(p: R.Conn, s: Socket, mem: Memory, probe: nat, extra: seq<byte>, tail: seq<Grant>)
      returns (g: seq<Grant>)
    requires p.bufs != [] && R.Sound(p) && R.Unfinished(p) && probe <= PROBE_WRITTEN
    requires |tail| == |R.Serve(p, s, mem, probe).1.grants|
    ensures |g| == |s.grants| && SameServe(p, s, Socket(s.stream + extra, g), mem, probe, extra, tail)
    ensures var r := p.bufs[|p.bufs| - 1]; SplitsLength(r, Socket(s.stream + extra, g)) <==> SplitsLength(r, s)
  {
    var r := p.bufs[|p.bufs| - 1];
    g := CallOnLonger(r, s, probe, extra, tail);
    SplitOnLonger(r, s, Socket(s.stream + extra, g));
  }

  ghost predicate SameCallback(
    c: R.Conn, s: Socket, s': Socket, mems: (Memory, Memory), probe: nat, extra: seq<byte>, tail: seq<Grant>)
    requires R.Sound(c) && probe <= PROBE_WRITTEN
  {
    var (c1, s1, result) := R.Callback(c, s, mems, probe);
    R.Callback(c, s', mems, probe) == (c1, Socket(s1.stream + extra, tail), result)
  }

  /** One callback on the longer stream. */
  lemma CallbackOnLonger(c: R.Conn, s: Socket, mems: (Memory, Memory), probe: nat, extra: seq<byte>, tail: seq<Grant>)
      returns (g: seq<Grant>)
    requires R.Sound(c) && R.Unfinished(c) && probe <= PROBE_WRITTEN
    requires |tail| == |R.Callback(c, s, mems, probe).1.grants|
    ensures |g| == |s.grants| && SameCallback(c, s, Socket(s.stream + extra, g), mems, probe, extra, tail)
    ensures SplitsLength(R.Current(c, mems.0), Socket(s.stream + extra, g)) <==> SplitsLength(R.Current(c, mems.0), s)
  {
    g := ServeOnLonger(R.Prepared(c, mems.0), s, mems.1, probe, extra, tail);
  }

  /** A run of the loop on the bytes so far is a run on all bytes to come, with its reads cut down. */
  lemma {:induction false} LoopOnLonger(c: R.Conn, s: Socket, heap: R.Heap, probe: nat, extra: seq<byte>)
      returns (g: seq<Grant>)
    requires R.Sound(c) && R.Unfinished(c) && probe <= PROBE_WRITTEN
    ensures |g| == |s.grants|
    ensures R.Loop(c, Socket(s.stream + extra, g), heap, probe).0 == R.Loop(c, s, heap, probe).0
    ensures R.LoopNeverSplits(c, Socket(s.stream + extra, g), heap, probe) <==> R.LoopNeverSplits(c, s, heap, probe)
    decreases |s.grants|, R.Unparsed(c)
  {
    if s.grants == [] {
      g := [];
    } else {
      var mems := R.NewMemories(c, heap);
      var (c1, s1, result) := R.Callback(c, s, mems, probe);
      R.LoopStep(c, s, heap, probe);
      R.SplitStep(c, s, heap, probe);
      var tail := s1.grants;
      if GoesOn(result) {
        tail := LoopOnLonger(c1, s1, heap, probe, extra);
      }
      g := CallbackOnLonger(c, s, mems, probe, extra, tail);
      R.LoopStep(c, Socket(s.stream + extra, g), heap, probe);
      R.SplitStep(c, Socket(s.stream + extra, g), heap, probe);
    }
  }

  /** In every reachable state, for any number of workers: what a receiver puts together from the
      frames sent so far is a prefix of the messages mounted on the connection, in the order in which
      they were mounted; with the test at offset 3 however its reads are split, and as written for
      frames it recognises, as long as none of its reads splits a length. */
  lemma ReceiverGetsMounted(s: P.State, c: P.ConnId, grants: seq<Grant>, heap: R.Heap, probe: nat)
    requires PipelineRuns.Reachable(s) && c in s.conns
    requires R.ValidMessages(s.conns[c].mounted) && (probe == PROBE_INTENDED || probe == PROBE_WRITTEN)
    requires R.Tame(R.NEW_CONN, Socket(Wire(s.conns[c].sent), grants), heap, probe, s.conns[c].mounted)
    ensures R.Loop(R.NEW_CONN, Socket(Wire(s.conns[c].sent), grants), heap, probe).0.handed
            <= R.Routed(s.conns[c].mounted)
  {
    PipelineRuns.ReachableInv(s);
    var conn := s.conns[c];
    WireAppend(conn.sent, conn.queue);
    var g := LoopOnLonger(R.NEW_CONN, Socket(Wire(conn.sent), grants), heap, probe, Wire(conn.queue));
    assert Wire(conn.sent) + Wire(conn.queue) == Wire(AllFrames(conn.mounted));
    R.EndToEnd(conn.mounted, g, heap, probe);
  }

  /** With the test at offset 3 nothing else is needed. */
  lemma ReceiverGetsMountedIntended(s: P.State, c: P.ConnId, grants: seq<Grant>, heap: R.Heap)
    requires PipelineRuns.Reachable(s) && c in s.conns && R.ValidMessages(s.conns[c].mounted)
    ensures R.Loop(R.NEW_CONN, Socket(Wire(s.conns[c].sent), grants), heap, PROBE_INTENDED).0.handed
            <= R.Routed(s.conns[c].mounted)
  {
    AllFramesAreValid(s.conns[c].mounted);
    ReceiverGetsMounted(s, c, grants, heap, PROBE_INTENDED);
  }
}
