/** Exactly which lists of messages arrive, for the intended reader and for the one as written: both
    directions, over whole streams, all schedules and all old contents of the buffers. */
module ReassemblyExact {
  import opened VarLength
  import opened Fragment
  import opened Frames
  import opened Options
  import opened Reader
  import opened ReaderExact
  import opened Reassembly

  /** Reads that hold nothing back. */
  function Fulls(n: nat): (g: seq<Grant>)
    ensures |g| == n && forall i :: 0 <= i < n ==> Full(g[i])
  {
    seq(n, _ => Upto(MESSAGE_SIZE))
  }

  /** A schedule, followed by as many unrestrained reads as the frames can need. */
  function Stream(ms: seq<Message>, grants: seq<Grant>): Socket {
    Socket(Wire(AllFrames(ms)), grants + Fulls(2 * |AllFrames(ms)|))
  }

  predicate Arrives(ms: seq<Message>, grants: seq<Grant>, heap: Heap, probe: nat)
    requires probe <= PROBE_WRITTEN
  {
    var (c, s) := Loop(NEW_CONN, Stream(ms, grants), heap, probe);
    Delivered(c, s, ms)
  }

  ghost predicate AlwaysArrives(ms: seq<Message>, probe: nat)
    requires probe <= PROBE_WRITTEN
  {
    forall grants: seq<Grant>, heap: Heap :: Arrives(ms, grants, heap, probe)
  }

  ghost predicate ArrivesUnsplit(ms: seq<Message>, probe: nat)
    requires probe <= PROBE_WRITTEN
  {
    forall grants: seq<Grant>, heap: Heap ::
      LoopNeverSplits(NEW_CONN, Stream(ms, grants), heap, probe) ==> Arrives(ms, grants, heap, probe)
  }

  // ---- The first frame that can go wrong ----

  predicate OneByte(f: Frame) { |f.payload| == 1 }

  predicate Long(f: Frame) { |f.payload| >= 128 }

  predicate HighFirst(f: Frame) { f.payload != [] && |f.payload| < 128 && f.payload[0] >= 128 }

  lemma {:induction false} FirstIn(fs: seq<Frame>, bad: Frame -> bool) returns (k: nat)
    requires exists f :: f in fs && bad(f)
    ensures k < |fs| && bad(fs[k]) && forall y :: 0 <= y < k ==> !bad(fs[y])
  {
    if bad(fs[0]) {
      k := 0;
    } else {
      var j := FirstIn(fs[1..], bad);
      k := j + 1;
    }
  }

  /** Frame y of message x comes before frame tk of message ti. */
  predicate Before(x: nat, y: nat, ti: nat, tk: nat) { x < ti || (x == ti && y < tk) }

  ghost predicate GoodBefore(ms: seq<Message>, bad: Frame -> bool, ti: nat, tk: nat) {
    forall x, y :: 0 <= x < |ms| && 0 <= y < |ms[x].Frames()| && Before(x, y, ti, tk) ==> !bad(ms[x].Frames()[y])
  }

  lemma {:induction false} FirstBad(ms: seq<Message>, bad: Frame -> bool) returns (i: nat, k: nat)
    requires exists f :: f in AllFrames(ms) && bad(f)
    ensures i < |ms| && k < |ms[i].Frames()| && bad(ms[i].Frames()[k])
    ensures GoodBefore(ms, bad, i, k)
  {
    if exists f :: f in ms[0].Frames() && bad(f) {
      k := FirstIn(ms[0].Frames(), bad);
      i := 0;
    } else {
      var j;
      j, k := FirstBad(ms[1..], bad);
      i := j + 1;
      forall x, y | 0 <= x < |ms| && 0 <= y < |ms[x].Frames()| && Before(x, y, i, k)
        ensures !bad(ms[x].Frames()[y])
      {
        if x > 0 {
          assert ms[1..][x - 1] == ms[x] && Before(x - 1, y, j, k);
        } else {
          assert ms[0].Frames()[y] in ms[0].Frames();
        }
      }
    }
  }

  function Unreadable(probe: nat): Frame -> bool { (f: Frame) => |f.payload| < 2 || !Recognised(probe, f) }

  /** The frames that some schedule and memory spoil; with or without reads that split a length. */
  function Bad(probe: nat, unsplit: bool): Frame -> bool {
    (f: Frame) => OneByte(f) || (probe == PROBE_WRITTEN && (HighFirst(f) || (!unsplit && Long(f))))
  }

  // ---- Driving the loop up to a frame ----

  function Always(mem: Memory): Heap { _ => mem }

  /** The buffer that waits for the next frame is as it was made. */
  predicate FreshLast(c: Conn, mem: Memory) {
    c.bufs == [] || c.bufs[|c.bufs| - 1] == Fresh(mem)
  }

  lemma HereIsSound(c: Conn, s: Socket, ms: seq<Message>, i: nat, k: nat, n: nat)
    requires Here(c, s, ms, i, k, n)
    ensures Sound(c) && Unfinished(c)
  {
  }

  /** The first of two unrestrained reads takes the header and leaves the payload to the other. */
  lemma FullHeader(r: Reader, s: Socket, probe: nat, f: Frame, rest: seq<byte>, g: seq<Grant>)
      returns (r2: Reader, s1: Socket)
    requires f.Valid() && |f.payload| >= 2 && (probe == PROBE_INTENDED || probe == PROBE_WRITTEN)
    requires Recognised(probe, f) && BeforeParse(r, f, 0) && s.stream == f.Bytes()[0..] + rest
    requires s.grants == Fulls(2) + g
    ensures !LandsOnFour(r, s)
    ensures PADDING <= |f.Bytes()| && AfterParse(r2, f, PADDING) && !r2.finished
    ensures s1.stream == f.Bytes()[PADDING..] + rest && s1.grants == Fulls(1) + g
    ensures ReadCall(r, s, probe) == PayloadRound(r2, s1)
  {
    HeaderShape(f);
    var d := HeaderRoundKeeps(r, s, probe, f, 0, rest);
    FullHeaderReadIsReady(r, s, probe, f, 0, rest);
    var (s', got) := Read(s, r.toParse);
    s1 := s';
    assert |got.value| == PADDING == d;
    var r1 := TakeHeader(r, got.value, probe);
    ParseKeeps(r1, f, d);
    r2 := Parse(r1).0;
    FullsTail(g);
    assert s1.grants == s.grants[1..];
  }

  lemma FullsTail(g: seq<Grant>)
    ensures (Fulls(2) + g)[1..] == Fulls(1) + g && (Fulls(1) + g)[1..] == g && Full((Fulls(1) + g)[0])
    ensures Full((Fulls(2) + g)[0])
  {
  }

  /** Two unrestrained reads take in a whole frame, in one call. */
  lemma FullCall(r: Reader, s: Socket, probe: nat, f: Frame, rest: seq<byte>, g: seq<Grant>)
    requires f.Valid() && |f.payload| >= 2 && (probe == PROBE_INTENDED || probe == PROBE_WRITTEN)
    requires Recognised(probe, f) && BeforeParse(r, f, 0) && s.stream == f.Bytes()[0..] + rest
    requires s.grants == Fulls(2) + g
    ensures !LandsOnFour(r, s)
    ensures var (r', s', result) := ReadCall(r, s, probe);
            && result.Done? && r'.finished && AfterParse(r', f, |f.Bytes()|)
            && s'.stream == f.Bytes()[|f.Bytes()|..] + rest && s'.grants == g
  {
    var r2, s1 := FullHeader(r, s, probe, f, rest, g);
    FullsTail(g);
    var d' := PayloadRoundKeeps(r2, s1, f, PADDING, rest);
  }

  lemma FrameInOneGo(c: Conn, s: Socket, heap: Heap, probe: nat, ms: seq<Message>, i: nat, k: nat, g: seq<Grant>)
      returns (i': nat, k': nat)
    requires Sound(c) && Unfinished(c) && (probe == PROBE_INTENDED || probe == PROBE_WRITTEN)
    requires ValidMessages(ms) && i < |ms| && Here(c, s, ms, i, k, 0)
    requires k < |ms[i].Frames()| && ms[i].Frames()[k].Valid() && !Unreadable(probe)(ms[i].Frames()[k])
    requires s.grants == Fulls(2) + g
    ensures (i', k') == if k + 1 < |ms[i].Frames()| then (i, k + 1) else (i + 1, 0)
    ensures var mems := NewMemories(c, heap);
            var (c', s', result) := Callback(c, s, mems, probe);
            && result.Done? && s'.grants == g && Here(c', s', ms, i', k', 0) && FreshLast(c', mems.1)
            && !SplitsLength(Current(c, mems.0), s)
  {
    var mems := NewMemories(c, heap);
    var p, f, rest := Prepared(c, mems.0), ms[i].Frames()[k], Rest(ms, i, k);
    PreparedIsAt(c, s, mems.0, ms, i, k, 0);
    FullCall(p.bufs[k], s, probe, f, rest, g);
    var (r, s', _) := ReadCall(p.bufs[k], s, probe);
    i', k' := FrameDone(p, s, r, mems.1, ms, i, k, 0, s', |f.Bytes()|);
  }

  lemma HereHasFrame(c: Conn, s: Socket, ms: seq<Message>, i: nat, k: nat)
    requires ValidMessages(ms) && i < |ms| && Here(c, s, ms, i, k, 0)
    ensures k < |ms[i].Frames()| && ms[i].Frames()[k].Valid()
  {
    FramesAreValid(ms[i]);
  }

  /** Frames from frame k of message i to frame tk of message ti. */
  function Apart(ms: seq<Message>, i: nat, k: nat, ti: nat, tk: nat): int
    requires i <= |ms| && ti <= |ms|
  {
    FramesLeft(ms, i, k) - FramesLeft(ms, ti, tk)
  }

  lemma {:induction false} ApartIsPositive(ms: seq<Message>, i: nat, k: nat, ti: nat, tk: nat)
    requires ValidMessages(ms) && i <= ti < |ms| && k < |ms[i].Frames()|
    requires Before(i, k, ti, tk)
    ensures Apart(ms, i, k, ti, tk) >= 1
    decreases ti - i
  {
    if i < ti {
      FramesLeftStep(ms, i);
      FramesAreValid(ms[i + 1]);
      if Before(i + 1, 0, ti, tk) {
        ApartIsPositive(ms, i + 1, 0, ti, tk);
      }
    }
  }

  lemma FullsSplit(n: nat, g: seq<Grant>)
    requires n >= 2
    ensures Fulls(n) + g == Fulls(2) + (Fulls(n - 2) + g)
  {
  }

  lemma OneRound(c: Conn, s: Socket, mem: Memory, probe: nat)
    requires Sound(c) && Unfinished(c) && probe <= PROBE_WRITTEN && s.grants != []
    requires Callback(c, s, (mem, mem), probe).2.Done?
    requires !SplitsLength(Current(c, mem), s)
    ensures var (c', s', _) := Callback(c, s, (mem, mem), probe);
            && Unfinished(c') && Loop(c, s, Always(mem), probe) == Loop(c', s', Always(mem), probe)
            && (LoopNeverSplits(c, s, Always(mem), probe) <==> LoopNeverSplits(c', s', Always(mem), probe))
  {
    CallbackProgress(c, s, (mem, mem), probe);
    assert NewMemories(c, Always(mem)) == (mem, mem);
  }

  /** The loop does the same from one place as from the other. */
  ghost predicate SameLoop(c: Conn, s: Socket, c': Conn, s': Socket, mem: Memory, probe: nat)
    requires Sound(c) && Unfinished(c) && Sound(c') && Unfinished(c') && probe <= PROBE_WRITTEN
  {
    && Loop(c, s, Always(mem), probe) == Loop(c', s', Always(mem), probe)
    && (LoopNeverSplits(c, s, Always(mem), probe) <==> LoopNeverSplits(c', s', Always(mem), probe))
  }

  lemma DriveOne(c: Conn, s: Socket, mem: Memory, probe: nat, ms: seq<Message>, i: nat, k: nat, g: seq<Grant>)
      returns (i1: nat, k1: nat, c1: Conn, s1: Socket)
    requires Sound(c) && Unfinished(c) && (probe == PROBE_INTENDED || probe == PROBE_WRITTEN)
    requires ValidMessages(ms) && i < |ms| && Here(c, s, ms, i, k, 0)
    requires k < |ms[i].Frames()| && ms[i].Frames()[k].Valid() && !Unreadable(probe)(ms[i].Frames()[k])
    requires s.grants == Fulls(2) + g
    ensures (i1, k1) == if k + 1 < |ms[i].Frames()| then (i, k + 1) else (i + 1, 0)
    ensures Sound(c1) && Unfinished(c1) && s1.grants == g && Here(c1, s1, ms, i1, k1, 0) && FreshLast(c1, mem)
    ensures SameLoop(c, s, c1, s1, mem, probe)
  {
    i1, k1 := FrameInOneGo(c, s, Always(mem), probe, ms, i, k, g);
    assert NewMemories(c, Always(mem)) == (mem, mem);
    var (c', s', _) := Callback(c, s, (mem, mem), probe);
    c1, s1 := c', s';
    HereIsSound(c1, s1, ms, i1, k1, 0);
    OneRound(c, s, mem, probe);
  }

  /** Unrestrained reads take the loop to any frame, if all the frames before it are recognised. */
  lemma {:induction false} Drive(
    c: Conn, s: Socket, mem: Memory, probe: nat, ms: seq<Message>, i: nat, k: nat, ti: nat, tk: nat, g: seq<Grant>)
      returns (c': Conn, s': Socket)
    requires Sound(c) && Unfinished(c) && (probe == PROBE_INTENDED || probe == PROBE_WRITTEN)
    requires ValidMessages(ms) && Here(c, s, ms, i, k, 0) && FreshLast(c, mem)
    requires i <= ti < |ms| && tk < |ms[ti].Frames()| && ((i, k) == (ti, tk) || Before(i, k, ti, tk))
    requires GoodBefore(ms, Unreadable(probe), ti, tk)
    requires Apart(ms, i, k, ti, tk) >= 0 && s.grants == Fulls(2 * Apart(ms, i, k, ti, tk)) + g
    ensures Sound(c') && Unfinished(c') && s'.grants == g
    ensures Here(c', s', ms, ti, tk, 0) && FreshLast(c', mem)
    ensures SameLoop(c, s, c', s', mem, probe)
    decreases Apart(ms, i, k, ti, tk)
  {
    if (i, k) == (ti, tk) {
      c', s' := c, s;
      assert Fulls(0) + g == g;
    } else {
      HereHasFrame(c, s, ms, i, k);
      ApartIsPositive(ms, i, k, ti, tk);
      var left := 2 * Apart(ms, i, k, ti, tk);
      FullsSplit(left, g);
      assert !Unreadable(probe)(ms[i].Frames()[k]);
      var i1, k1, c1, s1 := DriveOne(c, s, mem, probe, ms, i, k, Fulls(left - 2) + g);
      NextIsNearer(ms, i, k, i1, k1, ti, tk);
      c', s' := Drive(c1, s1, mem, probe, ms, i1, k1, ti, tk, g);
    }
  }

  lemma NextIsNearer(ms: seq<Message>, i: nat, k: nat, i1: nat, k1: nat, ti: nat, tk: nat)
    requires ValidMessages(ms) && i <= ti < |ms| && k < |ms[i].Frames()| && tk < |ms[ti].Frames()|
    requires Before(i, k, ti, tk)
    requires (i1, k1) == if k + 1 < |ms[i].Frames()| then (i, k + 1) else (i + 1, 0)
    ensures i1 <= ti && ((i1, k1) == (ti, tk) || Before(i1, k1, ti, tk))
    ensures Apart(ms, i1, k1, ti, tk) == Apart(ms, i, k, ti, tk) - 1
  {
    FramesLeftStep(ms, i);
  }

  // ---- A long frame that is read four bytes at first ----

  /** The second length byte is then taken from the memory, and with a large one the frame is refused. */
  lemma LongIsRefused(f: Frame, rest: seq<byte>, tail: seq<Grant>)
    requires f.Valid() && Long(f)
    ensures var (r', s', result) :=
              ReadCall(Fresh(SEVENS), Socket(f.Bytes()[0..] + rest, [Upto(4)] + tail), PROBE_WRITTEN);
            result == Threw(OVER_SIZE) && Doomed(r')
  {
    HeaderShape(f);
    var s := Socket(f.Bytes()[0..] + rest, [Upto(4)] + tail);
    var (s1, got) := Read(s, PADDING);
    assert got.value == f.Bytes()[..4];
    SevensParse(got.value, |f.payload|);
  }

  lemma SevensParse(got: seq<byte>, size: nat)
    requires |got| == 4 && got[3] == 128 + size % 128
    ensures var r := TakeHeader(Fresh(SEVENS), got, PROBE_WRITTEN);
            r.ready && Parse(r).1 == Some(OVER_SIZE) && Doomed(Parse(r).0)
  {
    var r := TakeHeader(Fresh(SEVENS), got, PROBE_WRITTEN);
    assert r.mem[3] == got[3] && r.mem[4] == 127;
    assert r.mem[3..][0] == r.mem[3] && r.mem[3..][1] == 127;
    assert Decode(r.mem[3..]) == Decoded(size % 128 + 128 * 127, 2);
  }

  /** A buffer that has taken something in and is not finished: the message is not there. */
  lemma NotDelivered(c: Conn, s: Socket, ms: seq<Message>)
    requires c.bufs != [] && c.bufs[|c.bufs| - 1].cur > 0
    ensures !Delivered(c, s, ms)
  {
  }

  /** The current frame is read from a buffer that is as it was made. */
  lemma AtFrameStart(c: Conn, s: Socket, mem: Memory, ms: seq<Message>, i: nat, k: nat)
    requires ValidMessages(ms) && i < |ms| && k < |ms[i].Frames()|
    requires Here(c, s, ms, i, k, 0) && FreshLast(c, mem)
    ensures var p := Prepared(c, mem);
            && p.bufs != [] && p.bufs[|p.bufs| - 1] == Fresh(mem) && p.handed == c.handed == Routed(ms[..i])
            && s.stream == ms[i].Frames()[k].Bytes()[0..] + Rest(ms, i, k)
  {
    PreparedIsAt(c, s, mem, ms, i, k, 0);
  }

  /** The reader waits for more than the buffer holds. */
  predicate Doomed(r: Reader) {
    && r.parsed && !r.finished && 0 < r.cur <= MESSAGE_SIZE < r.cur + r.remain && r.remain < 0x8000_0000
  }

  lemma DoomedCall(r: Reader, s: Socket, probe: nat)
    requires Doomed(r) && s.grants != [] && probe <= PROBE_WRITTEN
    ensures var (r', s', result) := ReadCall(r, s, probe);
            && !result.Done? && Doomed(r') && (GoesOn(result) ==> |s'.grants| < |s.grants|)
  {
  }

  ghost predicate DoomedLast(c: Conn) { c.bufs != [] && Doomed(c.bufs[|c.bufs| - 1]) }

  lemma DoomedCallback(c: Conn, s: Socket, mems: (Memory, Memory), probe: nat)
    requires DoomedLast(c) && s.grants != [] && probe <= PROBE_WRITTEN
    ensures var (c', s', result) := Callback(c, s, mems, probe);
            DoomedLast(c') && c'.handed == c.handed && (GoesOn(result) ==> |s'.grants| < |s.grants|)
  {
    DoomedCall(c.bufs[|c.bufs| - 1], s, probe);
  }

  /** ... so it never finishes, however the event loop goes on. */
  lemma {:induction false} DoomedForever(c: Conn, s: Socket, heap: Heap, probe: nat)
    requires DoomedLast(c) && probe <= PROBE_WRITTEN
    ensures var c' := Loop(c, s, heap, probe).0; DoomedLast(c') && c'.handed == c.handed
    decreases |s.grants|
  {
    if s.grants != [] {
      DoomedCallback(c, s, NewMemories(c, heap), probe);
      LoopStep(c, s, heap, probe);
      var (c1, s1, result) := Callback(c, s, NewMemories(c, heap), probe);
      if GoesOn(result) {
        DoomedForever(c1, s1, heap, probe);
      }
    }
  }

  lemma LongCallback(c: Conn, s: Socket, ms: seq<Message>, i: nat, k: nat, tail: seq<Grant>)
    requires Sound(c) && Unfinished(c) && ValidMessages(ms) && i < |ms| && k < |ms[i].Frames()|
    requires Here(c, s, ms, i, k, 0) && FreshLast(c, SEVENS) && s.grants == [Upto(4)] + tail
    requires ms[i].Frames()[k].Valid() && Long(ms[i].Frames()[k])
    ensures var (c', s', result) := Callback(c, s, NewMemories(c, Always(SEVENS)), PROBE_WRITTEN);
            DoomedLast(c') && c'.handed == Routed(ms[..i]) && GoesOn(result)
  {
    AtFrameStart(c, s, SEVENS, ms, i, k);
    LongIsRefused(ms[i].Frames()[k], Rest(ms, i, k), tail);
  }

  lemma LongFails(c: Conn, s: Socket, ms: seq<Message>, i: nat, k: nat, tail: seq<Grant>)
    requires Sound(c) && Unfinished(c) && ValidMessages(ms) && i < |ms| && k < |ms[i].Frames()|
    requires Here(c, s, ms, i, k, 0) && FreshLast(c, SEVENS) && s.grants == [Upto(4)] + tail
    requires ms[i].Frames()[k].Valid() && Long(ms[i].Frames()[k])
    ensures var (c', s') := Loop(c, s, Always(SEVENS), PROBE_WRITTEN);
            c'.handed == Routed(ms[..i]) && !Delivered(c', s', ms)
  {
    LongCallback(c, s, ms, i, k, tail);
    DoomedFromHere(c, s, Always(SEVENS), PROBE_WRITTEN);
    var (c', s') := Loop(c, s, Always(SEVENS), PROBE_WRITTEN);
    DoomedIsNotDelivered(c', s', ms);
  }

  lemma DoomedIsNotDelivered(c: Conn, s: Socket, ms: seq<Message>)
    requires DoomedLast(c)
    ensures !Delivered(c, s, ms)
  {
    NotDelivered(c, s, ms);
  }

  lemma DoomedFromHere(c: Conn, s: Socket, heap: Heap, probe: nat)
    requires Sound(c) && Unfinished(c) && probe <= PROBE_WRITTEN && s.grants != []
    requires var (c1, _, result) := Callback(c, s, NewMemories(c, heap), probe); GoesOn(result) && DoomedLast(c1)
    ensures var (c1, _, _) := Callback(c, s, NewMemories(c, heap), probe);
            var c' := Loop(c, s, heap, probe).0;
            DoomedLast(c') && c'.handed == c1.handed
  {
    LoopStep(c, s, heap, probe);
    var (c1, s1, _) := Callback(c, s, NewMemories(c, heap), probe);
    DoomedForever(c1, s1, heap, probe);
  }

  // ---- A frame that is there, but for the reader ----

  /** Nothing is left to ask for, and the flag is not set. */
  predicate Waiting(r: Reader) {
    r.cur == PADDING && !r.finished && if r.parsed then r.remain == 0 else !r.ready && r.toParse == 0
  }

  lemma WaitingCall(r: Reader, s: Socket, probe: nat)
    requires Waiting(r) && s.grants != [] && probe <= PROBE_WRITTEN
    ensures var (r', s', result) := ReadCall(r, s, probe);
            && r' == r && s'.grants == s.grants[1..] && (result == Pending || result == Threw(READ_NOTHING))
    ensures !LandsOnFour(r, s)
  {
  }

  /** Every further read waits, or ends the connection. */
  lemma {:induction false} WaitingForever(c: Conn, s: Socket, heap: Heap, probe: nat)
    requires c.bufs != [] && Waiting(c.bufs[|c.bufs| - 1]) && probe <= PROBE_WRITTEN
    ensures Loop(c, s, heap, probe).0 == c && LoopNeverSplits(c, s, heap, probe)
    decreases |s.grants|
  {
    if s.grants != [] {
      var mems := NewMemories(c, heap);
      WaitingCall(c.bufs[|c.bufs| - 1], s, probe);
      var (c1, s1, result) := Callback(c, s, mems, probe);
      assert c.bufs[..|c.bufs| - 1] + [c.bufs[|c.bufs| - 1]] == c.bufs;
      assert c1 == c;
      WaitingForever(c, s1, heap, probe);
    }
  }

  /** A short frame with a high first byte: no byte that is looked at ends the header. */
  lemma HighStalls(f: Frame, rest: seq<byte>, s: Socket)
    requires f.Valid() && HighFirst(f)
    requires s.stream == f.Bytes()[0..] + rest && s.grants != [] && Full(s.grants[0])
    ensures var (r', s', result) := ReadCall(Fresh(ONES), s, PROBE_WRITTEN);
            result == Again && Waiting(r') && s'.grants == s.grants[1..]
    ensures !LandsOnFour(Fresh(ONES), s)
  {
    HeaderShape(f);
    var (s1, got) := Read(s, PADDING);
    assert got.value == f.Bytes()[..5];
    var r := TakeHeader(Fresh(ONES), got.value, PROBE_WRITTEN);
    assert r.mem[4] == f.Bytes()[4] == f.payload[0] && r.mem[5] == 255;
    assert !Probe(r.mem, 5, 4);
  }

  lemma OneByteStalls(f: Frame, rest: seq<byte>, s: Socket, probe: nat)
    requires f.Valid() && OneByte(f) && (probe == PROBE_INTENDED || probe == PROBE_WRITTEN)
    requires s.stream == f.Bytes()[0..] + rest && s.grants != [] && Full(s.grants[0])
    ensures var (r', s', result) := ReadCall(Fresh(ZEROES), s, probe);
            Waiting(r') && (result == Pending || result == Threw(READ_NOTHING))
    ensures !LandsOnFour(Fresh(ZEROES), s)
  {
    assert s == Socket(f.Bytes() + rest, [s.grants[0]] + s.grants[1..]);
    var r := OneByteAtOnce(probe, f, rest, s.grants[0], s.grants[1..]);
  }

  /** Once the current buffer waits, the list is handed over up to its message. */
  lemma StallFails(c: Conn, s: Socket, mem: Memory, probe: nat, ms: seq<Message>, i: nat, k: nat)
    requires Sound(c) && Unfinished(c) && ValidMessages(ms) && i < |ms| && k < |ms[i].Frames()|
    requires Here(c, s, ms, i, k, 0) && FreshLast(c, mem) && s.grants != [] && probe <= PROBE_WRITTEN
    requires var (r', s', result) := ReadCall(Fresh(mem), s, probe);
             Waiting(r') && (result == Again || result == Pending || result == Threw(READ_NOTHING))
    requires !LandsOnFour(Fresh(mem), s)
    ensures var (c', s') := Loop(c, s, Always(mem), probe);
            c'.handed == Routed(ms[..i]) && !Delivered(c', s', ms)
    ensures LoopNeverSplits(c, s, Always(mem), probe)
  {
    AtFrameStart(c, s, mem, ms, i, k);
    assert NewMemories(c, Always(mem)) == (mem, mem);
    var (c1, s1, result) := Callback(c, s, (mem, mem), probe);
    CallbackProgress(c, s, (mem, mem), probe);
    assert Waiting(c1.bufs[|c1.bufs| - 1]);
    NotDelivered(c1, s1, ms);
    if GoesOn(result) {
      WaitingForever(c1, s1, Always(mem), probe);
      NotDelivered(c1, Loop(c1, s1, Always(mem), probe).1, ms);
    }
  }

  // ---- From the first message on ----

  lemma StartHere(ms: seq<Message>, grants: seq<Grant>, mem: Memory)
    ensures Here(NEW_CONN, Stream(ms, grants), ms, 0, 0, 0) && FreshLast(NEW_CONN, mem)
    ensures |ms| > 0 ==> FramesLeft(ms, 0, 0) == |AllFrames(ms)|
  {
    assert ms[0..] == ms && ms[..0] == [];
  }

  /** The whole list up to frame tk of message ti, and then the schedule g. */
  lemma DriveFromStart(ms: seq<Message>, mem: Memory, probe: nat, ti: nat, tk: nat, g: seq<Grant>)
      returns (grants: seq<Grant>, c: Conn, s: Socket)
    requires ValidMessages(ms) && (probe == PROBE_INTENDED || probe == PROBE_WRITTEN)
    requires ti < |ms| && tk < |ms[ti].Frames()| && GoodBefore(ms, Unreadable(probe), ti, tk)
    ensures Sound(c) && Unfinished(c) && Here(c, s, ms, ti, tk, 0) && FreshLast(c, mem)
    ensures s.grants == g + Fulls(2 * |AllFrames(ms)|)
    ensures SameLoop(NEW_CONN, Stream(ms, grants), c, s, mem, probe)
  {
    var tail := Fulls(2 * |AllFrames(ms)|);
    FramesAreValid(ms[0]);
    if (0, 0) != (ti, tk) {
      ApartIsPositive(ms, 0, 0, ti, tk);
    }
    var lead := Fulls(2 * Apart(ms, 0, 0, ti, tk));
    grants := lead + g;
    assert grants + tail == lead + (g + tail);
    StartHere(ms, grants, mem);
    c, s := Drive(NEW_CONN, Stream(ms, grants), mem, probe, ms, 0, 0, ti, tk, g + tail);
  }

  lemma SomeGrants(ms: seq<Message>, i: nat, k: nat)
    requires i < |ms| && k < |ms[i].Frames()|
    ensures |AllFrames(ms)| > 0 && [] + Fulls(2 * |AllFrames(ms)|) == Fulls(2 * |AllFrames(ms)|)
  {
    FrameOf(ms, i, ms[i].Frames()[k]);
  }

  lemma NothingUnreadableBefore(ms: seq<Message>, probe: nat, unsplit: bool, i: nat, k: nat)
    requires ValidMessages(ms) && GoodBefore(ms, Bad(probe, unsplit), i, k)
    requires probe == PROBE_INTENDED || probe == PROBE_WRITTEN
    ensures GoodBefore(ms, Unreadable(probe), i, k)
  {
    forall x, y | 0 <= x < |ms| && 0 <= y < |ms[x].Frames()| && Before(x, y, i, k)
      ensures !Unreadable(probe)(ms[x].Frames()[y])
    {
      FramesAreValid(ms[x]);
      assert ms[x].Frames()[y].Valid();
    }
  }

  /** A list with a frame that can go wrong has a schedule and a memory on which it does: what is
      handed over ends before a message of the list. */
  lemma SomethingFails(ms: seq<Message>, probe: nat, unsplit: bool)
      returns (grants: seq<Grant>, heap: Heap, i: nat)
    requires ValidMessages(ms) && (probe == PROBE_INTENDED || probe == PROBE_WRITTEN)
    requires exists f :: f in AllFrames(ms) && Bad(probe, unsplit)(f)
    ensures var (c, s) := Loop(NEW_CONN, Stream(ms, grants), heap, probe);
            i < |ms| && c.handed == Routed(ms[..i]) && !Delivered(c, s, ms)
    ensures unsplit ==> LoopNeverSplits(NEW_CONN, Stream(ms, grants), heap, probe)
  {
    var k;
    i, k := FirstBad(ms, Bad(probe, unsplit));
    NothingUnreadableBefore(ms, probe, unsplit, i, k);
    FramesAreValid(ms[i]);
    SomeGrants(ms, i, k);
    if OneByte(ms[i].Frames()[k]) {
      heap := Always(ZEROES);
      grants := StallsAt(ms, ZEROES, probe, i, k);
    } else if HighFirst(ms[i].Frames()[k]) {
      heap := Always(ONES);
      grants := StallsAt(ms, ONES, probe, i, k);
    } else {
      var c, s;
      heap := Always(SEVENS);
      grants, c, s := DriveFromStart(ms, SEVENS, probe, i, k, [Upto(4)]);
      LongFails(c, s, ms, i, k, Fulls(2 * |AllFrames(ms)|));
    }
  }

  lemma StallsAt(ms: seq<Message>, mem: Memory, probe: nat, i: nat, k: nat) returns (grants: seq<Grant>)
    requires ValidMessages(ms) && i < |ms| && k < |ms[i].Frames()| && |AllFrames(ms)| > 0
    requires (probe == PROBE_INTENDED || probe == PROBE_WRITTEN) && GoodBefore(ms, Unreadable(probe), i, k)
    requires ms[i].Frames()[k].Valid()
    requires (mem == ZEROES && OneByte(ms[i].Frames()[k])) ||
             (mem == ONES && probe == PROBE_WRITTEN && HighFirst(ms[i].Frames()[k]))
    ensures var (c, s) := Loop(NEW_CONN, Stream(ms, grants), Always(mem), probe);
            c.handed == Routed(ms[..i]) && !Delivered(c, s, ms)
    ensures LoopNeverSplits(NEW_CONN, Stream(ms, grants), Always(mem), probe)
  {
    var c, s;
    grants, c, s := DriveFromStart(ms, mem, probe, i, k, []);
    SomeGrants(ms, i, k);
    AtFrameStart(c, s, mem, ms, i, k);
    if mem == ZEROES && OneByte(ms[i].Frames()[k]) {
      OneByteStalls(ms[i].Frames()[k], Rest(ms, i, k), s, probe);
    } else {
      HighStalls(ms[i].Frames()[k], Rest(ms, i, k), s);
    }
    StallFails(c, s, mem, probe, ms, i, k);
  }

  // ---- Main results ----

  lemma NothingBad(ms: seq<Message>, probe: nat, unsplit: bool)
    requires ValidMessages(ms) && (probe == PROBE_INTENDED || probe == PROBE_WRITTEN)
    requires forall f :: f in AllFrames(ms) ==> !Bad(probe, unsplit)(f)
    ensures AllOutlast(ms) && AllRecognised(probe, ms)
    ensures probe == PROBE_WRITTEN && !unsplit ==> AllShort(ms)
  {
    AllFramesAreValid(ms);
    forall f | f in AllFrames(ms)
      ensures |f.payload| >= 2 && Recognised(probe, f) && (probe == PROBE_WRITTEN && !unsplit ==> |f.payload| < 128)
    {
      assert f.Valid() && !Bad(probe, unsplit)(f);
    }
  }

  /** On all schedules, or on those that split no length, a list of non-empty messages arrives over
      every memory if and only if none of its frames can go wrong. */
  lemma ArrivesExactly(ms: seq<Message>, probe: nat, unsplit: bool)
    requires ValidMessages(ms) && (probe == PROBE_INTENDED || probe == PROBE_WRITTEN)
    ensures (if unsplit then ArrivesUnsplit(ms, probe) else AlwaysArrives(ms, probe)) <==>
            forall f :: f in AllFrames(ms) ==> !Bad(probe, unsplit)(f)
  {
    if exists f :: f in AllFrames(ms) && Bad(probe, unsplit)(f) {
      var grants, heap, i := SomethingFails(ms, probe, unsplit);
      assert !Arrives(ms, grants, heap, probe);
    } else {
      NothingBad(ms, probe, unsplit);
      forall grants: seq<Grant>, heap: Heap |
        unsplit ==> LoopNeverSplits(NEW_CONN, Stream(ms, grants), heap, probe)
        ensures Arrives(ms, grants, heap, probe)
      {
        EndToEnd(ms, Stream(ms, grants).grants, heap, probe);
      }
    }
  }

  /** With the test at offset 3, a list of non-empty messages arrives on every schedule and over every
      memory if and only if no size is one above a multiple of 1019. */
  lemma IntendedArrives(ms: seq<Message>)
    requires ValidMessages(ms)
    ensures AlwaysArrives(ms, PROBE_INTENDED) <==> forall m :: m in ms ==> |m.data| % 1019 != 1
  {
    AllFramesAreValid(ms);
    ArrivesExactly(ms, PROBE_INTENDED, false);
    OutlastBySize(ms);
    assert forall f :: f in AllFrames(ms) ==> (Bad(PROBE_INTENDED, false)(f) <==> |f.payload| < 2);
  }

  /** As written, it does if and only if all its frames have 2 to 127 payload bytes and start with a
      byte below 128. */
  lemma WrittenArrives(ms: seq<Message>)
    requires ValidMessages(ms)
    ensures AlwaysArrives(ms, PROBE_WRITTEN) <==>
            forall f :: f in AllFrames(ms) ==> 2 <= |f.payload| < 128 && f.payload[0] < 128
  {
    AllFramesAreValid(ms);
    ArrivesExactly(ms, PROBE_WRITTEN, false);
    assert forall f :: f in AllFrames(ms) ==>
             (Bad(PROBE_WRITTEN, false)(f) <==> !(2 <= |f.payload| < 128 && f.payload[0] < 128));
  }

  /** As written, it arrives on every schedule that splits no length, over every memory, if and only
      if each of its frames has at least two payload bytes and is long or starts with one below 128. */
  lemma WrittenArrivesUnsplit(ms: seq<Message>)
    requires ValidMessages(ms)
    ensures ArrivesUnsplit(ms, PROBE_WRITTEN) <==>
            forall f :: f in AllFrames(ms) ==> |f.payload| >= 2 && (|f.payload| >= 128 || f.payload[0] < 128)
  {
    AllFramesAreValid(ms);
    ArrivesExactly(ms, PROBE_WRITTEN, true);
    assert forall f :: f in AllFrames(ms) ==>
             (Bad(PROBE_WRITTEN, true)(f) <==> !(|f.payload| >= 2 && (|f.payload| >= 128 || f.payload[0] < 128)));
  }

  ghost predicate AlwaysHandsOver(ms: seq<Message>, probe: nat)
    requires probe <= PROBE_WRITTEN
  {
    forall grants: seq<Grant>, heap: Heap ::
      Loop(NEW_CONN, Stream(ms, grants), heap, probe).0.handed == Routed(ms)
  }

  ghost predicate HandsOverUnsplit(ms: seq<Message>, probe: nat)
    requires probe <= PROBE_WRITTEN
  {
    forall grants: seq<Grant>, heap: Heap ::
      LoopNeverSplits(NEW_CONN, Stream(ms, grants), heap, probe) ==>
        Loop(NEW_CONN, Stream(ms, grants), heap, probe).0.handed == Routed(ms)
  }

  lemma {:induction false} RoutedAll(ms: seq<Message>)
    requires forall m :: m in ms ==> ForWorkers(m)
    ensures Routed(ms) == ms
  {
    if ms != [] {
      var n := |ms| - 1;
      RoutedAll(ms[..n]);
      assert ForWorkers(ms[n]) && ms == ms[..n] + [ms[n]];
    }
  }

  /** For messages that all go to workers, what the workers get is the list under the same conditions. */
  lemma HandsOverExactly(ms: seq<Message>, probe: nat)
    requires ValidMessages(ms) && forall m :: m in ms ==> ForWorkers(m)
    requires probe == PROBE_INTENDED || probe == PROBE_WRITTEN
    ensures AlwaysHandsOver(ms, probe) <==> AlwaysArrives(ms, probe)
    ensures HandsOverUnsplit(ms, probe) <==> ArrivesUnsplit(ms, probe)
  {
    RoutedAll(ms);
    if !AlwaysArrives(ms, probe) {
      ArrivesExactly(ms, probe, false);
      var grants, heap, i := SomethingFails(ms, probe, false);
      RoutedAll(ms[..i]);
      assert Loop(NEW_CONN, Stream(ms, grants), heap, probe).0.handed != ms;
    } else {
      forall grants: seq<Grant>, heap: Heap
        ensures Loop(NEW_CONN, Stream(ms, grants), heap, probe).0.handed == Routed(ms)
      {
        assert Arrives(ms, grants, heap, probe);
      }
    }
    if !ArrivesUnsplit(ms, probe) {
      ArrivesExactly(ms, probe, true);
      var grants, heap, i := SomethingFails(ms, probe, true);
      RoutedAll(ms[..i]);
      assert Loop(NEW_CONN, Stream(ms, grants), heap, probe).0.handed != ms;
    } else {
      forall grants: seq<Grant>, heap: Heap | LoopNeverSplits(NEW_CONN, Stream(ms, grants), heap, probe)
        ensures Loop(NEW_CONN, Stream(ms, grants), heap, probe).0.handed == Routed(ms)
      {
        assert Arrives(ms, grants, heap, probe);
      }
    }
  }
}
