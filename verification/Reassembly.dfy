/** The read callback gathers frames until one is flagged last; dispatch concatenates their payloads
    into the message. End to end: what was cut, framed and sent is what is handed to the worker. */
module Reassembly {
  import opened VarLength
  import opened Fragment
  import opened Frames
  import opened Reader
  import opened ReaderExact

  /** A connection as its read callback sees it. */
  datatype Conn = Conn(
    bufs: seq<Reader>,         // buffer_sp_v
    handed: seq<Message>,      // what dispatch got, in order
    made: nat             // buffers made so far
  )

  /** The old contents of each newly allocated buffer. */
  type Heap = nat -> Memory

  const NEW_CONN := Conn([], [], 0)

  /** The callback makes a buffer when it has none; mem is what its memory held before. */
  function Prepared(c: Conn, mem: Memory): Conn {
    if c.bufs == [] then Conn([Fresh(mem)], c.handed, c.made + 1) else c
  }

  /** The buffer the callback reads into. */
  function Current(c: Conn, mem: Memory): Reader {
    if c.bufs == [] then Fresh(mem) else c.bufs[|c.bufs| - 1]
  }

  function Payload(r: Reader): seq<byte> {
    if r.dataPos + r.len <= MESSAGE_SIZE then r.mem[r.dataPos..r.dataPos + r.len] else []
  }

  function Payloads(bufs: seq<Reader>): seq<byte> {
    if bufs == [] then [] else Payload(bufs[0]) + Payloads(bufs[1..])
  }

  /** Peer-server messages are consumed by the event loop; everything else becomes a task. */
  predicate ForWorkers(m: Message) {
    m.typ != SERVER_CONNECT && m.typ != SERVER_DISCONNECT
  }

  function Routed(messages: seq<Message>): seq<Message> {
    if messages == [] then []
    else
      var m := messages[|messages| - 1];
      Routed(messages[..|messages| - 1]) + if ForWorkers(m) then [m] else []
  }

  /** The message takes its type and session id from the final frame. */
  function Gathered(bufs: seq<Reader>): Message
    requires bufs != []
  {
    var back := bufs[|bufs| - 1];
    Message(back.typ, back.id, Payloads(bufs))
  }

  predicate Sound(c: Conn) {
    c.bufs != [] ==> HeaderFits(c.bufs[|c.bufs| - 1])
  }

  /** The final buffer is finished: gather more, or hand the message over. */
  function AfterFrame(c: Conn, mem: Memory): Conn
    requires c.bufs != []
  {
    if !c.bufs[|c.bufs| - 1].last then Conn(c.bufs + [Fresh(mem)], c.handed, c.made + 1)
    else
      var m := Gathered(c.bufs);
      Conn([], c.handed + if ForWorkers(m) then [m] else [], c.made)
  }

  /** The callback from there on; p has a buffer. */
  function Serve(p: Conn, s: Socket, mem: Memory, probe: nat): (o: (Conn, Socket, Result))
    requires p.bufs != [] && Sound(p) && probe <= PROBE_WRITTEN
    ensures Sound(o.0)
  {
    var (r, s', result) := ReadCall(p.bufs[|p.bufs| - 1], s, probe);
    var p' := p.(bufs := p.bufs[..|p.bufs| - 1] + [r]);
    (if result.Done? then AfterFrame(p', mem) else p', s', result)
  }

  /** One read callback; it makes up to two buffers. */
  function Callback(c: Conn, s: Socket, mems: (Memory, Memory), probe: nat): (o: (Conn, Socket, Result))
    requires Sound(c) && probe <= PROBE_WRITTEN
    ensures Sound(o.0)
  {
    Serve(Prepared(c, mems.0), s, mems.1, probe)
  }

  predicate Unfinished(c: Conn) {
    c.bufs != [] ==> !c.bufs[|c.bufs| - 1].finished
  }

  lemma CallbackProgress(c: Conn, s: Socket, mems: (Memory, Memory), probe: nat)
    requires Sound(c) && Unfinished(c) && probe <= PROBE_WRITTEN && s.grants != []
    ensures var (c', s', result) := Callback(c, s, mems, probe);
            && (GoesOn(result) ==> Unfinished(c') && CloserToEnd(c, s, c', s'))
            && (!result.Threw? ==> |s'.grants| < |s.grants|)
  {
    var p := Prepared(c, mems.0);
    ReadCallProgress(p.bufs[|p.bufs| - 1], s, probe);
    if GoesOn(ReadCall(p.bufs[|p.bufs| - 1], s, probe).2) {
      GoingOnProgress(p.bufs[|p.bufs| - 1], s, probe);
    }
  }

  /** Is the header of the current buffer still to be parsed? */
  function Unparsed(c: Conn): nat {
    if c.bufs != [] && c.bufs[|c.bufs| - 1].parsed then 0 else 1
  }

  /** Fewer answers of the socket are left, or as many and a header has been parsed. */
  predicate CloserToEnd(c: Conn, s: Socket, c': Conn, s': Socket) {
    |s'.grants| < |s.grants| || (|s'.grants| == |s.grants| && Unparsed(c') < Unparsed(c))
  }

  function NewMemories(c: Conn, heap: Heap): (Memory, Memory) {
    (heap(c.made), heap(c.made + 1))
  }

  /** The event loop calls back for as long as the socket has something to answer, past an over-long
      frame too; a failed read ends the connection. */
  function Loop(c: Conn, s: Socket, heap: Heap, probe: nat): (Conn, Socket)
    requires Sound(c) && Unfinished(c) && probe <= PROBE_WRITTEN
    decreases |s.grants|, Unparsed(c)
  {
    if s.grants == [] then (c, s)
    else
      var (c', s', result) := Callback(c, s, NewMemories(c, heap), probe);
      if !GoesOn(result) then (c', s')
      else
        CallbackProgress(c, s, NewMemories(c, heap), probe);
        Loop(c', s', heap, probe)
  }

  /** No read of the whole loop stops a buffer in the middle of a two-byte length. */
  predicate LoopNeverSplits(c: Conn, s: Socket, heap: Heap, probe: nat)
    requires Sound(c) && Unfinished(c) && probe <= PROBE_WRITTEN
    decreases |s.grants|, Unparsed(c)
  {
    s.grants == [] ||
    (!SplitsLength(Current(c, heap(c.made)), s) &&
     var (c', s', result) := Callback(c, s, NewMemories(c, heap), probe);
     !GoesOn(result) ||
     (CallbackProgress(c, s, NewMemories(c, heap), probe);
      LoopNeverSplits(c', s', heap, probe)))
  }

  /** One round of the loop, and what is left. */
  lemma LoopStep(c: Conn, s: Socket, heap: Heap, probe: nat)
    requires Sound(c) && Unfinished(c) && probe <= PROBE_WRITTEN && s.grants != []
    ensures var (c1, s1, result) := Callback(c, s, NewMemories(c, heap), probe);
            && (!GoesOn(result) ==> Loop(c, s, heap, probe) == (c1, s1))
            && (GoesOn(result) ==>
                  && Unfinished(c1) && CloserToEnd(c, s, c1, s1)
                  && Loop(c, s, heap, probe) == Loop(c1, s1, heap, probe))
  {
    CallbackProgress(c, s, NewMemories(c, heap), probe);
  }

  lemma SplitStep(c: Conn, s: Socket, heap: Heap, probe: nat)
    requires Sound(c) && Unfinished(c) && probe <= PROBE_WRITTEN && s.grants != []
    ensures var (c1, s1, result) := Callback(c, s, NewMemories(c, heap), probe);
            && (GoesOn(result) ==> Unfinished(c1))
            && (LoopNeverSplits(c, s, heap, probe) <==>
                  !SplitsLength(Current(c, heap(c.made)), s) &&
                  (!GoesOn(result) || LoopNeverSplits(c1, s1, heap, probe)))
  {
    CallbackProgress(c, s, NewMemories(c, heap), probe);
  }

  // ---- The invariant: where in the list of messages a connection is ----

  predicate Untouched(r: Reader) {
    r.cur == 0 && !r.ready && !r.parsed && !r.finished && r.toParse == PADDING && r.dataPos == 0
  }

  /** The first i messages are handed over; k frames of the next one are complete and n bytes of
      frame k have arrived. */
  ghost predicate At(c: Conn, s: Socket, ms: seq<Message>, i: nat, k: nat, n: nat) {
    && i <= |ms| && c.handed == Routed(ms[..i])
    && |c.bufs| == k + 1 && !c.bufs[k].finished
    && (i == |ms| ==> k == 0 && n == 0 && s.stream == [] && Untouched(c.bufs[0]))
    && (i < |ms| ==> var fs := ms[i].Frames();
        && k < |fs| && (forall x :: 0 <= x < k ==> Holds(c.bufs[x], fs[x]))
        && Midway(c.bufs[k], fs[k], n)
        && s.stream == fs[k].Bytes()[n..] + Rest(ms, i, k))
  }

  /** What follows frame k of message i on the wire. */
  function Rest(ms: seq<Message>, i: nat, k: nat): seq<byte>
    requires i < |ms| && k < |ms[i].Frames()|
  {
    Wire(ms[i].Frames()[k + 1..]) + Wire(AllFrames(ms[i + 1..]))
  }

  /** The same before the first buffer of a message exists. */
  ghost predicate Here(c: Conn, s: Socket, ms: seq<Message>, i: nat, k: nat, n: nat) {
    if c.bufs == [] then
      i <= |ms| && k == 0 && n == 0 && c.handed == Routed(ms[..i]) && s.stream == Wire(AllFrames(ms[i..]))
    else
      At(c, s, ms, i, k, n)
  }

  ghost predicate ValidMessages(ms: seq<Message>) {
    forall m :: m in ms ==> m.Valid()
  }

  ghost predicate AllRecognised(probe: nat, ms: seq<Message>)
    requires ValidMessages(ms)
  {
    AllFramesAreValid(ms);
    forall f :: f in AllFrames(ms) ==> Recognised(probe, f)
  }

  /** No frame is complete with the bytes that are read ahead. */
  predicate AllOutlast(ms: seq<Message>) {
    forall f :: f in AllFrames(ms) ==> |f.payload| >= 2
  }

  predicate AllShort(ms: seq<Message>) {
    forall f :: f in AllFrames(ms) ==> |f.payload| < 128
  }

  lemma {:induction false} FrameOf(ms: seq<Message>, i: nat, f: Frame)
    requires i < |ms| && f in ms[i].Frames()
    ensures f in AllFrames(ms)
  {
    if i > 0 {
      assert ms[1..][i - 1] == ms[i];
      FrameOf(ms[1..], i - 1, f);
    }
  }

  /** The wire from message i on is its first frame and what follows it. */
  lemma RestStarts(ms: seq<Message>, i: nat)
    requires i < |ms| && ms[i].Frames() != []
    ensures Wire(AllFrames(ms[i..])) == ms[i].Frames()[0].Bytes()[0..] + Rest(ms, i, 0)
  {
    var fs, tail := ms[i].Frames(), AllFrames(ms[i + 1..]);
    assert ms[i..][0] == ms[i] && ms[i..][1..] == ms[i + 1..];
    WireAppend(fs, tail);
    Associative(fs[0].Bytes(), Wire(fs[1..]), Wire(tail));
    assert fs[0].Bytes()[0..] == fs[0].Bytes();
  }

  /** What follows a frame of a message is the next frame and what follows that. */
  lemma RestSteps(ms: seq<Message>, i: nat, k: nat)
    requires i < |ms| && k + 1 < |ms[i].Frames()|
    ensures Rest(ms, i, k) == ms[i].Frames()[k + 1].Bytes()[0..] + Rest(ms, i, k + 1)
  {
    var fs := ms[i].Frames();
    var g := fs[k + 1];
    assert fs[k + 1..][0] == g && fs[k + 1..][1..] == fs[k + 2..];
    Associative(g.Bytes(), Wire(fs[k + 2..]), Wire(AllFrames(ms[i + 1..])));
    assert g.Bytes()[0..] == g.Bytes();
  }

  lemma FreshIsBefore(mem: Memory, f: Frame)
    ensures BeforeParse(Fresh(mem), f, 0)
  {
  }

  /** Seen from the messages: no size is one above a multiple of the piece size. */
  lemma {:induction false} OutlastBySize(ms: seq<Message>)
    requires ValidMessages(ms)
    ensures AllOutlast(ms) <==> forall m :: m in ms ==> |m.data| % 1019 != 1
  {
    if ms != [] {
      var m, fs, tail := ms[0], ms[0].Frames(), AllFrames(ms[1..]);
      OutlastBySize(ms[1..]);
      assert m in ms && m.Valid();
      OneByteLeft(m.data);
      assert forall x :: x in ms <==> x == m || x in ms[1..];
      assert forall f :: f in AllFrames(ms) <==> f in fs || f in tail;
      PiecesOfFrames(m);
    }
  }

  lemma PiecesOfFrames(m: Message)
    ensures (forall f :: f in m.Frames() ==> |f.payload| >= 2) <==> !exists p :: p in Pieces(m.data) && |p| < 2
  {
    if p :| p in Pieces(m.data) && |p| < 2 {
      var i :| 0 <= i < |Pieces(m.data)| && Pieces(m.data)[i] == p;
      assert m.Frames()[i].payload == p && m.Frames()[i] in m.Frames();
    }
  }

  /** Starting on message i: nothing of it has arrived. */
  lemma StartOfMessage(c: Conn, s: Socket, mem: Memory, ms: seq<Message>, i: nat)
    requires ValidMessages(ms) && i <= |ms|
    requires c.bufs == [] && c.handed == Routed(ms[..i]) && s.stream == Wire(AllFrames(ms[i..]))
    ensures At(Prepared(c, mem), s, ms, i, 0, 0)
  {
    if i < |ms| {
      FramesAreValid(ms[i]);
      RestStarts(ms, i);
      FreshIsBefore(mem, ms[i].Frames()[0]);
    } else {
      assert ms[i..] == [];
    }
  }

  lemma {:induction false} PayloadsJoin(bufs: seq<Reader>, fs: seq<Frame>, pieces: seq<seq<byte>>)
    requires |bufs| == |fs| == |pieces|
    requires forall x :: 0 <= x < |bufs| ==> Holds(bufs[x], fs[x]) && fs[x].payload == pieces[x]
    ensures Payloads(bufs) == Join(pieces)
  {
    if bufs != [] {
      PayloadsJoin(bufs[1..], fs[1..], pieces[1..]);
    }
  }

  /** Concatenating the gathered buffers of a message gives back the message. */
  lemma GatheredIsMessage(bufs: seq<Reader>, m: Message)
    requires m.Valid() && |bufs| == |m.Frames()|
    requires forall x :: 0 <= x < |bufs| ==> Holds(bufs[x], m.Frames()[x])
    ensures bufs != [] && Gathered(bufs) == m
  {
    FramesAreValid(m);
    PiecesIsCut(m.data);
    PayloadsJoin(bufs, m.Frames(), Pieces(m.data));
    assert Holds(bufs[|bufs| - 1], m.Frames()[|bufs| - 1]);
  }

  lemma RoutedStep(ms: seq<Message>, i: nat)
    requires i < |ms|
    ensures Routed(ms[..i + 1]) == Routed(ms[..i]) + if ForWorkers(ms[i]) then [ms[i]] else []
  {
    assert ms[..i + 1][..i] == ms[..i];
  }

  lemma IdleRead(r: Reader, s: Socket, probe: nat)
    requires Untouched(r) && s.stream == [] && (probe == PROBE_INTENDED || probe == PROBE_WRITTEN)
    ensures var (r', s', result) := ReadCall(r, s, probe);
            !result.Threw? && !result.Done? && Untouched(r') && s'.stream == []
  {
  }

  lemma IdleServe(p: Conn, s: Socket, mem: Memory, probe: nat, ms: seq<Message>)
    requires At(p, s, ms, |ms|, 0, 0) && Sound(p) && (probe == PROBE_INTENDED || probe == PROBE_WRITTEN)
    ensures var (c', s', result) := Serve(p, s, mem, probe);
            && !result.Threw? && !result.Done? && Here(c', s', ms, |ms|, 0, 0)
  {
    IdleRead(p.bufs[0], s, probe);
  }

  lemma SameFrame(p: Conn, s: Socket, r: Reader, ms: seq<Message>, i: nat, k: nat, n: nat, s': Socket, n': nat)
    requires i < |ms| && At(p, s, ms, i, k, n)
    requires Midway(r, ms[i].Frames()[k], n') && !r.finished
    requires s'.stream == ms[i].Frames()[k].Bytes()[n'..] + Rest(ms, i, k)
    ensures Here(p.(bufs := p.bufs[..k] + [r]), s', ms, i, k, n')
  {
    assert forall x :: 0 <= x < k ==> (p.bufs[..k] + [r])[x] == p.bufs[x];
  }

  /** After a frame that is not the last of its message. */
  lemma NextFrame(p: Conn, s: Socket, r: Reader, mem: Memory, ms: seq<Message>, i: nat, k: nat, n: nat, s': Socket)
    requires ValidMessages(ms) && i < |ms| && At(p, s, ms, i, k, n) && k + 1 < |ms[i].Frames()|
    requires Holds(r, ms[i].Frames()[k])
    requires s'.stream == Rest(ms, i, k)
    ensures Here(AfterFrame(p.(bufs := p.bufs[..k] + [r]), mem), s', ms, i, k + 1, 0)
  {
    RestSteps(ms, i, k);
    FreshIsBefore(mem, ms[i].Frames()[k + 1]);
    var bufs := p.bufs[..k] + [r] + [Fresh(mem)];
    forall x | 0 <= x < k + 1 ensures Holds(bufs[x], ms[i].Frames()[x]) {
      assert bufs[x] == if x < k then p.bufs[x] else r;
    }
  }

  /** After the last frame of a message. */
  lemma NextMessage(p: Conn, s: Socket, r: Reader, mem: Memory, ms: seq<Message>, i: nat, k: nat, n: nat, s': Socket)
    requires ValidMessages(ms) && i < |ms| && At(p, s, ms, i, k, n) && k + 1 == |ms[i].Frames()|
    requires Holds(r, ms[i].Frames()[k])
    requires s'.stream == Rest(ms, i, k)
    ensures Here(AfterFrame(p.(bufs := p.bufs[..k] + [r]), mem), s', ms, i + 1, 0, 0)
  {
    GatheredIsMessage(p.bufs[..k] + [r], ms[i]);
    RoutedStep(ms, i);
    assert ms[i].Frames()[k + 1..] == [];
  }

  /** What one callback does to the place in the list. */
  ghost predicate Steps(p: Conn, s: Socket, mem: Memory, probe: nat, ms: seq<Message>,
                        i: nat, k: nat, i': nat, k': nat, n': nat)
    requires p.bufs != [] && Sound(p) && probe <= PROBE_WRITTEN && i < |ms|
  {
    var (c', s', result) := Serve(p, s, mem, probe);
    && k < |ms[i].Frames()| && Harmless(ms[i].Frames()[k], result) && Here(c', s', ms, i', k', n')
    && (i', k') == if !result.Done? then (i, k) else if k + 1 < |ms[i].Frames()| then (i, k + 1) else (i + 1, 0)
  }

  /** The current frame can be read from here. */
  ghost predicate Readable(p: Conn, s: Socket, probe: nat, ms: seq<Message>, i: nat, k: nat, n: nat) {
    && (probe == PROBE_INTENDED || probe == PROBE_WRITTEN)
    && i < |ms| && At(p, s, ms, i, k, n)
    && ms[i].Frames()[k].Valid() && Recognised(probe, ms[i].Frames()[k])
    && StopOk(probe, ms[i].Frames()[k], p.bufs[k], s)
  }

  /** One callback moves the connection forward in the list, by no more than one frame. */
  lemma ServeKeeps(p: Conn, s: Socket, mem: Memory, probe: nat, ms: seq<Message>, i: nat, k: nat, n: nat)
      returns (i': nat, k': nat, n': nat)
    requires ValidMessages(ms) && Sound(p) && Readable(p, s, probe, ms, i, k, n)
    ensures Steps(p, s, mem, probe, ms, i, k, i', k', n')
  {
    n' := ReadCallKeeps(p.bufs[k], s, probe, ms[i].Frames()[k], n, Rest(ms, i, k));
    var (r, s', result) := ReadCall(p.bufs[k], s, probe);
    if !result.Done? {
      i', k' := i, k;
      SameFrame(p, s, r, ms, i, k, n, s', n');
    } else {
      i', k' := FrameDone(p, s, r, mem, ms, i, k, n, s', n');
      n' := 0;
    }
  }

  lemma FrameDone(
    p: Conn, s: Socket, r: Reader, mem: Memory, ms: seq<Message>, i: nat, k: nat, n: nat, s': Socket, c: nat)
      returns (i': nat, k': nat)
    requires ValidMessages(ms) && i < |ms| && At(p, s, ms, i, k, n) && ms[i].Frames()[k].Valid()
    requires Midway(r, ms[i].Frames()[k], c) && r.finished
    requires s'.stream == ms[i].Frames()[k].Bytes()[c..] + Rest(ms, i, k)
    ensures Here(AfterFrame(p.(bufs := p.bufs[..k] + [r]), mem), s', ms, i', k', 0)
    ensures (i', k') == if k + 1 < |ms[i].Frames()| then (i, k + 1) else (i + 1, 0)
  {
    HoldsWhenDone(r, ms[i].Frames()[k], c);
    assert s'.stream == Rest(ms, i, k);
    if k + 1 < |ms[i].Frames()| {
      i', k' := i, k + 1;
      NextFrame(p, s, r, mem, ms, i, k, n, s');
    } else {
      i', k' := i + 1, 0;
      NextMessage(p, s, r, mem, ms, i, k, n, s');
    }
  }

  // ---- How many reads are still needed ----

  function FramesLeft(ms: seq<Message>, i: nat, k: nat): int
    requires i <= |ms|
  {
    |AllFrames(ms[i..])| - k
  }

  /** Reads that hold nothing back and deliver everything from here. */
  function ReadsNeeded(c: Conn, ms: seq<Message>, i: nat, k: nat): int
    requires i <= |ms|
  {
    if i == |ms| then 0
    else 2 * FramesLeft(ms, i, k) - 2 + if c.bufs == [] then 2 else Need(c.bufs[|c.bufs| - 1])
  }

  lemma FramesLeftStep(ms: seq<Message>, i: nat)
    requires ValidMessages(ms) && i < |ms|
    ensures FramesLeft(ms, i, |ms[i].Frames()|) == FramesLeft(ms, i + 1, 0)
    ensures forall k :: 0 <= k < |ms[i].Frames()| ==> FramesLeft(ms, i, k) >= 1
    ensures i + 1 == |ms| ==> FramesLeft(ms, i + 1, 0) == 0
  {
    assert ms[i..][0] == ms[i] && ms[i..][1..] == ms[i + 1..];
  }

  lemma ServeNeeds(p: Conn, s: Socket, mem: Memory, probe: nat, ms: seq<Message>, i: nat, k: nat, n: nat,
                   i': nat, k': nat, n': nat)
    requires ValidMessages(ms) && Sound(p) && Readable(p, s, probe, ms, i, k, n)
    requires Steps(p, s, mem, probe, ms, i, k, i', k', n') && |ms[i].Frames()[k].payload| >= 2
    requires TailFull(s.grants, ReadsNeeded(p, ms, i, k))
    ensures var (c', s', result) := Serve(p, s, mem, probe);
            TailFull(s'.grants, ReadsNeeded(c', ms, i', k'))
  {
    FramesLeftStep(ms, i);
    var m := ReadsNeeded(p, ms, i, k);
    ReadCallFinishes(p.bufs[k], s, probe, ms[i].Frames()[k], n, Rest(ms, i, k), m);
    var (c', s', result) := Serve(p, s, mem, probe);
    if result.Done? {
      assert ReadsNeeded(c', ms, i', k') == m - Need(p.bufs[k]);
    }
  }

  // ---- The whole loop ----

  /** Either the look-ahead is the intended one, or every frame is short, or the schedule never
      splits a length. */
  ghost predicate Tame(c: Conn, s: Socket, heap: Heap, probe: nat, ms: seq<Message>)
    requires Sound(c) && Unfinished(c) && probe <= PROBE_WRITTEN && ValidMessages(ms)
  {
    && AllRecognised(probe, ms)
    && (probe == PROBE_INTENDED || AllShort(ms) || LoopNeverSplits(c, s, heap, probe))
  }

  lemma CurrentIsReadable(c: Conn, s: Socket, heap: Heap, probe: nat, ms: seq<Message>, i: nat, k: nat, n: nat)
    requires Sound(c) && Unfinished(c) && (probe == PROBE_INTENDED || probe == PROBE_WRITTEN) && s.grants != []
    requires ValidMessages(ms) && Tame(c, s, heap, probe, ms)
    requires i < |ms| && At(Prepared(c, heap(c.made)), s, ms, i, k, n)
    ensures Readable(Prepared(c, heap(c.made)), s, probe, ms, i, k, n)
  {
    FramesAreValid(ms[i]);
    var f, p := ms[i].Frames()[k], Prepared(c, heap(c.made));
    FrameOf(ms, i, f);
    if probe == PROBE_WRITTEN && !AllShort(ms) {
      StopSplits(probe, f, p.bufs[k], s, n, Rest(ms, i, k));
    }
  }

  /** One round of the loop. */
  lemma ServeStep(p: Conn, s: Socket, mem: Memory, probe: nat, ms: seq<Message>, i: nat, k: nat, n: nat)
      returns (i': nat, k': nat, n': nat)
    requires ValidMessages(ms) && Sound(p) && (probe == PROBE_INTENDED || probe == PROBE_WRITTEN)
    requires At(p, s, ms, i, k, n) && (i < |ms| ==> Readable(p, s, probe, ms, i, k, n))
    ensures var (c', s', result) := Serve(p, s, mem, probe);
            && (result.Threw? ==> !GoesOn(result) && !AllOutlast(ms)) && Here(c', s', ms, i', k', n')
            && (AllOutlast(ms) && TailFull(s.grants, ReadsNeeded(p, ms, i, k)) ==>
                  TailFull(s'.grants, ReadsNeeded(c', ms, i', k')))
  {
    if i == |ms| {
      IdleServe(p, s, mem, probe, ms);
      i', k', n' := i, 0, 0;
    } else {
      i', k', n' := ServeKeeps(p, s, mem, probe, ms, i, k, n);
      FrameOf(ms, i, ms[i].Frames()[k]);
      if AllOutlast(ms) && TailFull(s.grants, ReadsNeeded(p, ms, i, k)) {
        ServeNeeds(p, s, mem, probe, ms, i, k, n, i', k', n');
      }
    }
  }

  lemma PreparedIsAt(c: Conn, s: Socket, mem: Memory, ms: seq<Message>, i: nat, k: nat, n: nat)
    requires ValidMessages(ms) && Here(c, s, ms, i, k, n)
    ensures At(Prepared(c, mem), s, ms, i, k, n)
    ensures ReadsNeeded(Prepared(c, mem), ms, i, k) == ReadsNeeded(c, ms, i, k)
  {
    if c.bufs == [] {
      StartOfMessage(c, s, mem, ms, i);
    }
  }

  lemma TameStays(c: Conn, s: Socket, heap: Heap, probe: nat, ms: seq<Message>)
    requires Sound(c) && Unfinished(c) && probe <= PROBE_WRITTEN && s.grants != []
    requires ValidMessages(ms) && Tame(c, s, heap, probe, ms)
    ensures var (c', s', result) := Callback(c, s, NewMemories(c, heap), probe);
            GoesOn(result) ==> Unfinished(c') && CloserToEnd(c, s, c', s') && Tame(c', s', heap, probe, ms)
  {
    CallbackProgress(c, s, NewMemories(c, heap), probe);
  }

  lemma ReadableHere(c: Conn, s: Socket, heap: Heap, probe: nat, ms: seq<Message>, i: nat, k: nat, n: nat)
    requires Sound(c) && Unfinished(c) && (probe == PROBE_INTENDED || probe == PROBE_WRITTEN) && s.grants != []
    requires ValidMessages(ms) && Here(c, s, ms, i, k, n) && Tame(c, s, heap, probe, ms)
    ensures i < |ms| ==> Readable(Prepared(c, heap(c.made)), s, probe, ms, i, k, n)
  {
    PreparedIsAt(c, s, heap(c.made), ms, i, k, n);
    if i < |ms| {
      CurrentIsReadable(c, s, heap, probe, ms, i, k, n);
    }
  }

  lemma LoopRound(c: Conn, s: Socket, mems: (Memory, Memory), probe: nat, ms: seq<Message>, i: nat, k: nat, n: nat)
      returns (i': nat, k': nat, n': nat)
    requires Sound(c) && (probe == PROBE_INTENDED || probe == PROBE_WRITTEN)
    requires ValidMessages(ms) && Here(c, s, ms, i, k, n)
    requires i < |ms| ==> Readable(Prepared(c, mems.0), s, probe, ms, i, k, n)
    ensures var (c', s', result) := Callback(c, s, mems, probe);
            && (result.Threw? ==> !GoesOn(result) && !AllOutlast(ms)) && Here(c', s', ms, i', k', n')
            && (AllOutlast(ms) && TailFull(s.grants, ReadsNeeded(c, ms, i, k)) ==>
                  TailFull(s'.grants, ReadsNeeded(c', ms, i', k')))
  {
    PreparedIsAt(c, s, mems.0, ms, i, k, n);
    i', k', n' := ServeStep(Prepared(c, mems.0), s, mems.1, probe, ms, i, k, n);
  }

  lemma NothingNeeded(c: Conn, s: Socket, ms: seq<Message>, i: nat, k: nat, n: nat)
    requires ValidMessages(ms) && Here(c, s, ms, i, k, n) && ReadsNeeded(c, ms, i, k) <= 0
    ensures i == |ms|
  {
    if i < |ms| {
      FramesAreValid(ms[i]);
      FramesLeftStep(ms, i);
    }
  }

  /** The whole loop, on any schedule, stays within the list; and if the schedule ends with enough
      reads that hold nothing back, and no frame is complete with its header, it reaches the end. */
  lemma {:induction false} LoopKeeps(
    c: Conn, s: Socket, heap: Heap, probe: nat, ms: seq<Message>, i: nat, k: nat, n: nat)
      returns (i': nat, k': nat, n': nat)
    requires Sound(c) && Unfinished(c) && (probe == PROBE_INTENDED || probe == PROBE_WRITTEN)
    requires ValidMessages(ms) && Here(c, s, ms, i, k, n) && Tame(c, s, heap, probe, ms)
    ensures var (c', s') := Loop(c, s, heap, probe); Here(c', s', ms, i', k', n')
    ensures AllOutlast(ms) && TailFull(s.grants, ReadsNeeded(c, ms, i, k)) ==> i' == |ms|
    decreases |s.grants|, Unparsed(c)
  {
    if s.grants == [] {
      i', k', n' := i, k, n;
      if ReadsNeeded(c, ms, i, k) <= 0 {
        NothingNeeded(c, s, ms, i, k, n);
      }
    } else {
      ReadableHere(c, s, heap, probe, ms, i, k, n);
      var i1, k1, n1 := LoopRound(c, s, NewMemories(c, heap), probe, ms, i, k, n);
      TameStays(c, s, heap, probe, ms);
      var (c1, s1, result) := Callback(c, s, NewMemories(c, heap), probe);
      if result.Threw? {
        i', k', n' := i1, k1, n1;
      } else {
        i', k', n' := LoopKeeps(c1, s1, heap, probe, ms, i1, k1, n1);
      }
    }
  }

  /** Everything is handed over and nothing is half read. */
  predicate Delivered(c: Conn, s: Socket, ms: seq<Message>) {
    && c.handed == Routed(ms) && s.stream == []
    && (c.bufs == [] || (|c.bufs| == 1 && Untouched(c.bufs[0])))
  }

  lemma {:induction false} RoutedPrefix(ms: seq<Message>, i: nat)
    requires i <= |ms|
    ensures Routed(ms[..i]) <= Routed(ms)
  {
    if i == |ms| {
      assert ms[..i] == ms;
    } else {
      assert ms[..|ms| - 1][..i] == ms[..i];
      RoutedPrefix(ms[..|ms| - 1], i);
    }
  }

  /** End to end. A list of non-empty messages is cut, framed, flagged and joined into one stream.
      On every schedule of short reads the worker side gets a prefix of that list, unchanged; and
      it gets the whole list once two unrestrained reads per frame have followed, if no frame is
      complete with its header. */
  lemma EndToEnd(ms: seq<Message>, grants: seq<Grant>, heap: Heap, probe: nat)
    requires ValidMessages(ms) && (probe == PROBE_INTENDED || probe == PROBE_WRITTEN)
    requires Tame(NEW_CONN, Socket(Wire(AllFrames(ms)), grants), heap, probe, ms)
    ensures var (c, s) := Loop(NEW_CONN, Socket(Wire(AllFrames(ms)), grants), heap, probe);
            && c.handed <= Routed(ms)
            && (AllOutlast(ms) && TailFull(grants, 2 * |AllFrames(ms)|) ==> Delivered(c, s, ms))
  {
    var s0 := Socket(Wire(AllFrames(ms)), grants);
    assert ms[0..] == ms && ms[..0] == [];
    var i, k, n := LoopKeeps(NEW_CONN, s0, heap, probe, ms, 0, 0, 0);
    RoutedPrefix(ms, i);
    assert ms[..|ms|] == ms && ms[|ms|..] == [];
  }

  /** With the look-ahead the format calls for, this holds for all non-empty messages whose ids leave
      the flag bit alone; all of them arrive if no size is one above a multiple of 1019. */
  lemma EndToEndIntended(ms: seq<Message>, grants: seq<Grant>, heap: Heap)
    requires ValidMessages(ms)
    ensures var (c, s) := Loop(NEW_CONN, Socket(Wire(AllFrames(ms)), grants), heap, PROBE_INTENDED);
            && c.handed <= Routed(ms)
            && ((forall m :: m in ms ==> |m.data| % 1019 != 1) && TailFull(grants, 2 * |AllFrames(ms)|) ==>
                  Delivered(c, s, ms))
  {
    OutlastBySize(ms);
    AllFramesAreValid(ms);
    EndToEnd(ms, grants, heap, PROBE_INTENDED);
  }
}
