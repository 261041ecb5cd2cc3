/** Exactly which frames socket_read reads correctly: for the look-ahead the format calls for, and for
    the look-ahead as the server has it. */
module ReaderExact {
  import opened VarLength
  import opened Fragment
  import opened Frames
  import opened Options
  import opened Reader

  /** The finished buffer holds the frame. */
  predicate Holds(r: Reader, f: Frame) {
    && r.finished && r.last == f.last && r.typ == f.typ && r.id == f.id
    && r.dataPos + r.len <= MESSAGE_SIZE
    && r.mem[r.dataPos..r.dataPos + r.len] == f.payload
  }

  predicate Full(g: Grant) {
    g.Upto? && g.n >= MESSAGE_SIZE
  }

  /** The last m reads of the schedule hold nothing back. */
  predicate TailFull(grants: seq<Grant>, m: int) {
    m <= |grants| && forall i :: 0 <= i < |grants| && |grants| - m <= i ==> Full(grants[i])
  }

  /** How many such reads finish the buffer from here. */
  function Need(r: Reader): nat {
    if r.parsed then 1 else 2
  }

  /** A header read that holds nothing back ends the header phase. */
  lemma FullHeaderReadIsReady(r: Reader, s: Socket, probe: nat, f: Frame, c: nat, rest: seq<byte>)
    requires f.Valid() && BeforeParse(r, f, c)
    requires s.stream == f.Bytes()[c..] + rest
    requires probe == PROBE_INTENDED || probe == PROBE_WRITTEN
    requires Recognised(probe, f) && StopOk(probe, f, r, s)
    requires s.grants != [] && Full(s.grants[0])
    ensures Read(s, r.toParse).1.Got? && TakeHeader(r, Read(s, r.toParse).1.value, probe).ready
  {
    HeaderShape(f);
    assert |s.stream| >= PADDING - c;
    var d := HeaderRoundKeeps(r, s, probe, f, c, rest);
    assert d == c + |Read(s, r.toParse).1.value| == PADDING;
  }

  /** After the header, the call goes on to the payload with the next grant. */
  lemma HeaderCallFinishes(r: Reader, s: Socket, probe: nat, f: Frame, c: nat, rest: seq<byte>, m: nat)
    requires f.Valid() && |f.payload| >= 2 && BeforeParse(r, f, c)
    requires s.stream == f.Bytes()[c..] + rest
    requires probe == PROBE_INTENDED || probe == PROBE_WRITTEN
    requires Recognised(probe, f) && StopOk(probe, f, r, s)
    requires m >= Need(r) && TailFull(s.grants, m) && Read(s, r.toParse).1.Got?
    requires TakeHeader(r, Read(s, r.toParse).1.value, probe).ready
    ensures var (r', s', result) := ReadCall(r, s, probe);
            && TailFull(s'.grants, m - Need(r) + if result.Done? then 0 else Need(r'))
            && |s'.grants| < |s.grants|
  {
    var d := HeaderRoundKeeps(r, s, probe, f, c, rest);
    var (s1, got) := Read(s, r.toParse);
    var r1 := TakeHeader(r, got.value, probe);
    ParseKeeps(r1, f, d);
    var r2 := Parse(r1).0;
    var d' := PayloadRoundKeeps(r2, s1, f, d, rest);
    assert s1.grants == s.grants[1..];
    assert ReadCall(r, s, probe) == PayloadRound(r2, s1);
    assert PayloadRound(r2, s1).1.grants == s1.grants[1..];
  }

  lemma ReadCallFinishes(r: Reader, s: Socket, probe: nat, f: Frame, c: nat, rest: seq<byte>, m: nat)
    requires f.Valid() && |f.payload| >= 2 && Midway(r, f, c) && !r.finished
    requires s.stream == f.Bytes()[c..] + rest
    requires probe == PROBE_INTENDED || probe == PROBE_WRITTEN
    requires Recognised(probe, f) && StopOk(probe, f, r, s)
    requires m >= Need(r) && TailFull(s.grants, m)
    ensures var (r', s', result) := ReadCall(r, s, probe);
            && TailFull(s'.grants, m - Need(r) + if result.Done? then 0 else Need(r'))
            && |s'.grants| < |s.grants|
  {
    if r.parsed {
      var d := PayloadRoundKeeps(r, s, f, c, rest);
    } else {
      if |s.grants| == m {
        FullHeaderReadIsReady(r, s, probe, f, c, rest);
      }
      if Read(s, r.toParse).1.Got? && TakeHeader(r, Read(s, r.toParse).1.value, probe).ready {
        HeaderCallFinishes(r, s, probe, f, c, rest, m);
      }
    }
  }

  lemma {:induction false} RunFinishes(r: Reader, s: Socket, probe: nat, f: Frame, c: nat, rest: seq<byte>)
    requires f.Valid() && |f.payload| >= 2 && Midway(r, f, c) && !r.finished
    requires s.stream == f.Bytes()[c..] + rest
    requires probe == PROBE_INTENDED || probe == PROBE_WRITTEN
    requires Recognised(probe, f)
    requires probe == PROBE_INTENDED || |f.payload| < 128 || NeverSplits(r, s, probe)
    requires TailFull(s.grants, Need(r))
    ensures Run(r, s, probe).2.Done?
    decreases |s.grants|
  {
    if probe == PROBE_WRITTEN && |f.payload| >= 128 {
      StopSplits(probe, f, r, s, c, rest);
    }
    ReadCallFinishes(r, s, probe, f, c, rest, Need(r));
    var d := ReadCallKeeps(r, s, probe, f, c, rest);
    var (r', s', result) := ReadCall(r, s, probe);
    if !result.Done? {
      RunFinishes(r', s', probe, f, d, rest);
    }
  }

  const FINALE: seq<Grant> := [Upto(MESSAGE_SIZE), Upto(MESSAGE_SIZE)]

  function Start(f: Frame, mem: Memory, grants: seq<Grant>, rest: seq<byte>): (Reader, Socket) {
    (Fresh(mem), Socket(f.Bytes() + rest, grants + FINALE))
  }

  /** On this schedule, once the socket gives all it has, the buffer is finished, holds the frame,
      and everything behind the frame is still unread. */
  predicate ReadsExactly(probe: nat, f: Frame, mem: Memory, grants: seq<Grant>, rest: seq<byte>)
    requires probe <= PROBE_WRITTEN
  {
    var (r0, s0) := Start(f, mem, grants, rest);
    var (r, s, result) := Run(r0, s0, probe);
    result.Done? && s.stream == rest && Holds(r, f)
  }

  /** ... whatever the schedule, the old contents of the memory and the bytes that follow. */
  ghost predicate AlwaysRead(probe: nat, f: Frame)
    requires probe <= PROBE_WRITTEN
  {
    forall mem: Memory, grants: seq<Grant>, rest: seq<byte> :: ReadsExactly(probe, f, mem, grants, rest)
  }

  /** ... on every schedule on which no read stops in the middle of a two-byte length. */
  ghost predicate ReadUnlessStopped(probe: nat, f: Frame)
    requires probe <= PROBE_WRITTEN
  {
    forall mem: Memory, grants: seq<Grant>, rest: seq<byte> ::
      NeverSplits(Start(f, mem, grants, rest).0, Start(f, mem, grants, rest).1, probe)
      ==> ReadsExactly(probe, f, mem, grants, rest)
  }

  lemma HoldsWhenDone(r: Reader, f: Frame, n: nat)
    requires f.Valid() && Midway(r, f, n) && r.finished
    ensures Holds(r, f) && n == |f.Bytes()|
  {
    HeaderShape(f);
    assert AfterParse(r, f, n) && n == |f.Bytes()|;
    assert r.mem[r.dataPos..n] == f.Bytes()[..n][r.dataPos..] == f.payload;
  }

  lemma ReadsExactlyIf(probe: nat, f: Frame, mem: Memory, grants: seq<Grant>, rest: seq<byte>)
    requires f.Valid() && |f.payload| >= 2
    requires (probe == PROBE_INTENDED || probe == PROBE_WRITTEN) && Recognised(probe, f)
    requires var (r0, s0) := Start(f, mem, grants, rest);
             probe == PROBE_INTENDED || |f.payload| < 128 || NeverSplits(r0, s0, probe)
    ensures ReadsExactly(probe, f, mem, grants, rest)
  {
    var (r0, s0) := Start(f, mem, grants, rest);
    assert BeforeParse(r0, f, 0);
    RunFinishes(r0, s0, probe, f, 0, rest);
    var c := RunKeeps(r0, s0, probe, f, 0, rest);
    HoldsWhenDone(Run(r0, s0, probe).0, f, c);
  }

  /** An empty message makes a four-byte frame, and the five-byte look-ahead takes a byte of the next
      one with it. The count of bytes still to come is then negative, and the next read fails. */
  lemma EmptyPayloadOverreads(probe: nat, f: Frame, mem: Memory)
    requires f.payload == [] && (probe == PROBE_INTENDED || probe == PROBE_WRITTEN)
    ensures var (r0, s0) := Start(f, mem, [], [0]);
            && Run(r0, s0, probe).2 == Threw(20008) && Run(r0, s0, probe).1.stream == []
            && NeverSplits(r0, s0, probe)
    ensures !ReadsExactly(probe, f, mem, [], [0])
  {
    HeaderShape(f);
    var (r0, s0) := Start(f, mem, [], [0]);
    var (s1, got) := Read(s0, PADDING);
    assert got.value == f.Bytes() + [0];
    var r1 := TakeHeader(r0, got.value, probe);
    assert r1.mem[3] == 0 && r1.mem[4] == 0;
    EmptyParsed(r1, probe);
    var r2 := Parse(r1).0;
    assert s1.grants == [Upto(MESSAGE_SIZE)];
    assert ReadCall(r0, s0, probe) == PayloadRound(r2, s1) == (r2, s1.(grants := []), Threw(BAD_COUNT));
  }

  /** A length of zero behind five bytes. */
  lemma EmptyParsed(h: Reader, probe: nat)
    requires (probe == PROBE_INTENDED || probe == PROBE_WRITTEN) && h.cur == 5 && h.mem[3] == 0
    requires h.mem[4] < 128 || h.mem[5] < 128
    ensures Probe(h.mem, 5, probe) && Parse(h).1.None? && Parse(h).0.cur == 5 && Parse(h).0.parsed
    ensures Parse(h).0.remain == SIZE_T - 1 && AsInt(Parse(h).0.remain) == -1
  {
    assert Decode(h.mem[3..]) == Decoded(0, 1);
    assert h.mem[probe] < 128 || h.mem[4] < 128 || h.mem[5] < 128;
  }

  lemma OneByteParsed(r: Reader, f: Frame, probe: nat)
    requires f.Valid() && |f.payload| == 1 && (probe == PROBE_INTENDED || probe == PROBE_WRITTEN)
    requires |f.Bytes()| == 5 && r == TakeHeader(Fresh(ZEROES), f.Bytes(), probe)
    ensures r.ready && Parse(r).1.None? && Parse(r).0.remain == 0 && Parse(r).0.parsed && Parse(r).0.cur == 5
    ensures !Parse(r).0.finished
  {
    HeaderShape(f);
    assert r.mem[3] == 1 && r.mem[5] == 0;
    assert Decode(r.mem[3..]) == Decoded(1, 1);
  }

  /** The whole of a five-byte frame in one read: it is then complete, but only a read that gets
      something sets the flag. */
  lemma OneByteAtOnce(probe: nat, f: Frame, rest: seq<byte>, g: Grant, more: seq<Grant>) returns (r: Reader)
    requires f.Valid() && |f.payload| == 1 && (probe == PROBE_INTENDED || probe == PROBE_WRITTEN)
    requires g.Upto? && g.n >= PADDING
    ensures |f.Bytes()| == 5 && r.parsed && !r.finished && r.remain == 0 && r.cur == 5
    ensures ReadCall(Fresh(ZEROES), Socket(f.Bytes() + rest, [g] + more), probe)
            == PayloadRound(r, Socket(rest, more))
    ensures !LandsOnFour(Fresh(ZEROES), Socket(f.Bytes() + rest, [g] + more))
  {
    HeaderShape(f);
    var s := Socket(f.Bytes() + rest, [g] + more);
    var (s1, got) := Read(s, PADDING);
    assert got.value == f.Bytes() && s1 == Socket(rest, more);
    var h := TakeHeader(Fresh(ZEROES), f.Bytes(), probe);
    OneByteParsed(h, f, probe);
    r := Parse(h).0;
  }

  /** So a frame with one payload byte can be missed for good, whatever follows it. */
  lemma OneByteIsMissed(probe: nat, f: Frame, rest: seq<byte>)
    requires f.Valid() && |f.payload| == 1 && (probe == PROBE_INTENDED || probe == PROBE_WRITTEN)
    ensures NeverSplits(Start(f, ZEROES, [], rest).0, Start(f, ZEROES, [], rest).1, probe)
    ensures !ReadsExactly(probe, f, ZEROES, [], rest)
  {
    var (r0, s0) := Start(f, ZEROES, [], rest);
    assert s0 == Socket(f.Bytes() + rest, [Upto(MESSAGE_SIZE)] + [Upto(MESSAGE_SIZE)]);
    var r := OneByteAtOnce(probe, f, rest, Upto(MESSAGE_SIZE), [Upto(MESSAGE_SIZE)]);
    var (r1, s1, result) := PayloadRound(r, Socket(rest, [Upto(MESSAGE_SIZE)]));
    assert s1.grants == [] && !result.Done?;
    assert Run(r1, s1, probe) == (r1, s1, Pending);
    assert Run(r0, s0, probe).2 == if result.Threw? then result else Pending;
  }

  const ZEROES: Memory := seq(MESSAGE_SIZE, _ => 0)
  const ONES: Memory := seq(MESSAGE_SIZE, _ => 255)
  const SEVENS: Memory := seq(MESSAGE_SIZE, _ => 127)

  /** As written, a read that stops after four bytes makes the reader take an unread byte of the
      memory for the second length byte. */
  lemma StopAtFourMisreads(f: Frame)
    requires f.Valid() && |f.payload| >= 128
    ensures !ReadsExactly(PROBE_WRITTEN, f, ZEROES, [Upto(4)], [])
  {
    var (r0, s0) := Start(f, ZEROES, [Upto(4)], []);
    var r1, s1 := FourByteHeader(f);
    MisreadPayload(r1, s1, |f.payload| % 128);
    assert ReadCall(r0, s0, PROBE_WRITTEN) == PayloadRound(r1, s1);
  }

  lemma FourByteHeader(f: Frame) returns (r1: Reader, s1: Socket)
    requires f.Valid() && |f.payload| >= 128
    ensures var (r0, s0) := Start(f, ZEROES, [Upto(4)], []);
            ReadCall(r0, s0, PROBE_WRITTEN) == PayloadRound(r1, s1)
    ensures r1.len == |f.payload| % 128 && r1.remain == r1.len + 1 && r1.cur == 4 && r1.parsed
    ensures s1.grants == FINALE && |s1.stream| >= r1.remain
  {
    HeaderShape(f);
    var (r0, s0) := Start(f, ZEROES, [Upto(4)], []);
    var (s', got) := Read(s0, PADDING);
    s1 := s';
    assert got.value == f.Bytes()[..4];
    assert s1.grants == FINALE;
    r1 := ParseOfFour(r0, got.value, |f.payload|);
  }

  /** The four bytes of a long frame's header, on top of zeroes. */
  lemma ParseOfFour(r0: Reader, got: seq<byte>, size: nat) returns (r1: Reader)
    requires r0 == Fresh(ZEROES) && |got| == 4 && got[3] == 128 + size % 128
    ensures var r := TakeHeader(r0, got, PROBE_WRITTEN); r.ready && Parse(r) == (r1, None)
    ensures r1.len == size % 128 && r1.remain == r1.len + 1 && r1.cur == 4 && r1.parsed
  {
    var r := TakeHeader(r0, got, PROBE_WRITTEN);
    assert r.mem[4] == 0 && r.mem[3] == got[3];
    assert Decode(r.mem[3..]) == Decoded(size % 128, 2);
    r1 := Parse(r).0;
  }

  lemma MisreadPayload(r: Reader, s: Socket, n: nat)
    requires n < 128 && r.len == n && r.remain == n + 1 && r.cur == 4
    requires s.grants == FINALE && |s.stream| >= n + 1
    ensures PayloadRound(r, s).2 == Done && PayloadRound(r, s).0.len == n
  {
  }

  /** As written, a short frame whose first payload byte has its top bit set can leave the reader
      waiting for a header it already has: nothing is left to ask for. */
  lemma HighFirstByteStalls(f: Frame)
    requires f.Valid() && |f.payload| < 128 && f.payload[0] >= 128
    ensures NeverSplits(Start(f, ONES, [], []).0, Start(f, ONES, [], []).1, PROBE_WRITTEN)
    ensures !ReadsExactly(PROBE_WRITTEN, f, ONES, [], [])
  {
    HeaderShape(f);
    var (r0, s0) := Start(f, ONES, [], []);
    var (s1, got) := Read(s0, PADDING);
    assert got.value == f.Bytes()[..5];
    var r1 := TakeHeader(r0, got.value, PROBE_WRITTEN);
    assert r1.mem[4] == f.payload[0] && r1.mem[5] == 255;
    assert ReadCall(r0, s0, PROBE_WRITTEN) == (r1, s1, Again);
    var (r2, s2, result) := ReadCall(r1, s1, PROBE_WRITTEN);
    assert r2 == r1 && !result.Done? && s2.grants == [];
    assert Run(r2, s2, PROBE_WRITTEN) == (r2, s2, Pending);
    assert Run(r1, s1, PROBE_WRITTEN).2 == if result.Threw? then result else Pending;
    assert Run(r0, s0, PROBE_WRITTEN) == Run(r1, s1, PROBE_WRITTEN);
  }

  /** Looking at the length bytes themselves, the reader handles every frame with at least two payload
      bytes, and no other. */
  lemma IntendedReadsExactly(f: Frame)
    requires f.id <= MAX_SESSION_ID && |f.payload| <= MAX_PIECE
    ensures AlwaysRead(PROBE_INTENDED, f) <==> |f.payload| >= 2
  {
    if f.payload == [] {
      EmptyPayloadOverreads(PROBE_INTENDED, f, ZEROES);
    } else if |f.payload| == 1 {
      OneByteIsMissed(PROBE_INTENDED, f, []);
    } else {
      forall mem: Memory, grants: seq<Grant>, rest: seq<byte>
        ensures ReadsExactly(PROBE_INTENDED, f, mem, grants, rest)
      {
        ReadsExactlyIf(PROBE_INTENDED, f, mem, grants, rest);
      }
    }
  }

  /** As written, the frames read correctly on every schedule are those with 2 to 127 payload bytes
      that start with a byte below 128. */
  lemma WrittenReadsExactly(f: Frame)
    requires f.id <= MAX_SESSION_ID && |f.payload| <= MAX_PIECE
    ensures AlwaysRead(PROBE_WRITTEN, f) <==> 2 <= |f.payload| < 128 && f.payload[0] < 128
  {
    if f.payload == [] {
      EmptyPayloadOverreads(PROBE_WRITTEN, f, ZEROES);
    } else if |f.payload| == 1 {
      OneByteIsMissed(PROBE_WRITTEN, f, []);
    } else if |f.payload| >= 128 {
      StopAtFourMisreads(f);
    } else if f.payload[0] >= 128 {
      HighFirstByteStalls(f);
    } else {
      forall mem: Memory, grants: seq<Grant>, rest: seq<byte>
        ensures ReadsExactly(PROBE_WRITTEN, f, mem, grants, rest)
      {
        ReadsExactlyIf(PROBE_WRITTEN, f, mem, grants, rest);
      }
    }
  }

  /** As written and with no stop in the middle of a length, the frames read correctly are those of at
      least 128 payload bytes and those of at least two whose first one is below 128. */
  lemma WrittenReadsUnlessStopped(f: Frame)
    requires f.id <= MAX_SESSION_ID && |f.payload| <= MAX_PIECE
    ensures ReadUnlessStopped(PROBE_WRITTEN, f) <==>
            |f.payload| >= 2 && (|f.payload| >= 128 || f.payload[0] < 128)
  {
    if f.payload == [] {
      EmptyPayloadOverreads(PROBE_WRITTEN, f, ZEROES);
    } else if |f.payload| == 1 {
      OneByteIsMissed(PROBE_WRITTEN, f, []);
    } else if |f.payload| < 128 && f.payload[0] >= 128 {
      HighFirstByteStalls(f);
    } else {
      forall mem: Memory, grants: seq<Grant>, rest: seq<byte> |
        NeverSplits(Start(f, mem, grants, rest).0, Start(f, mem, grants, rest).1, PROBE_WRITTEN)
        ensures ReadsExactly(PROBE_WRITTEN, f, mem, grants, rest)
      {
        ReadsExactlyIf(PROBE_WRITTEN, f, mem, grants, rest);
      }
    }
  }
}
