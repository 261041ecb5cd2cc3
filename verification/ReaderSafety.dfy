/** Arbitrary byte streams: which of them can make the reader leave its 1024 bytes. */
module ReaderSafety {
  import opened VarLength
  import opened Fragment
  import opened Options
  import opened Reader
  import opened ReaderExact

  /** What the event loop makes of a buffer, past an over-long frame too. */
  function RunOn(r: Reader, s: Socket, probe: nat): (Reader, Socket, Result)
    requires HeaderFits(r) && probe <= PROBE_WRITTEN && !r.finished
    decreases |s.grants|, if r.parsed then 0 else 1
  {
    if s.grants == [] then (r, s, Pending)
    else
      var (r', s', result) := ReadCall(r, s, probe);
      if result.Done? || !GoesOn(result) then (r', s', result)
      else
        GoingOnProgress(r, s, probe);
        RunOn(r', s', probe)
  }

  /** Some memory and some schedule make a read of this stream leave the buffer. */
  ghost predicate CanLeave(probe: nat, stream: seq<byte>)
    requires probe <= PROBE_WRITTEN
  {
    exists mem: Memory, grants: seq<Grant> ::
      RunOn(Fresh(mem), Socket(stream, grants), probe).2 == Threw(OUT_OF_BUFFER)
  }

  /** The two length bytes announce more than a buffer takes. */
  predicate AnnouncesTooMuch(stream: seq<byte>)
    requires |stream| >= 5
  {
    stream[3] >= 128 && stream[4] < 128 && stream[3] - 128 + 128 * (stream[4] as int) > 1019
  }

  /** The headers that can lead out of the buffer. */
  predicate Dangerous(probe: nat, stream: seq<byte>)
    requires |stream| >= 5
  {
    if probe == PROBE_INTENDED then AnnouncesTooMuch(stream) else stream[3] >= 128
  }

  // ---- Streams that cannot ----

  /** The reader has taken in the first bytes of the stream, and what it still waits for fits. */
  ghost predicate Inside(r: Reader, s: Socket, stream: seq<byte>) {
    && r.cur <= |stream| && r.cur <= MESSAGE_SIZE && s.stream == stream[r.cur..] && HeaderFits(r)
    && (!r.parsed ==> !r.finished && !r.ready && r.cur <= PADDING && r.mem[..r.cur] == stream[..r.cur])
    && (r.parsed ==> |stream| <= MESSAGE_SIZE || AtMost(r))
  }

  /** No read can take more than the buffer holds: it ends inside, or its count is negative. */
  predicate AtMost(r: Reader) {
    r.cur + r.remain <= MESSAGE_SIZE || AsInt(r.remain) < 0
  }

  lemma PayloadStaysInside(r: Reader, s: Socket, stream: seq<byte>)
    requires Inside(r, s, stream) && r.parsed
    ensures var (r', s', result) := PayloadRound(r, s);
            (result.Threw? ==> result.code == READ_NOTHING || result.code == BAD_COUNT) && Inside(r', s', stream)
  {
    var (s1, got) := Read(s, r.remain);
    if got.Got? {
      var k := |got.value|;
      assert k <= AsInt(r.remain) && k <= |stream| - r.cur;
      assert stream[r.cur..][k..] == stream[r.cur + k..];
    }
  }

  /** The header phase has just ended. */
  ghost predicate HeaderOf(h: Reader, probe: nat, stream: seq<byte>)
    requires probe <= PROBE_WRITTEN
  {
    && 4 <= h.cur <= PADDING && h.cur <= |stream| && h.mem[..h.cur] == stream[..h.cur]
    && Probe(h.mem, h.cur, probe) && !h.parsed && !h.finished
  }

  /** What has been read of the header. */
  lemma HeaderRead(r: Reader, s: Socket, probe: nat, stream: seq<byte>)
    requires Inside(r, s, stream) && !r.parsed && (probe == PROBE_INTENDED || probe == PROBE_WRITTEN)
    requires Read(s, r.toParse).1.Got?
    ensures var (s', got) := Read(s, r.toParse);
            var h := TakeHeader(r, got.value, probe);
            s'.stream == stream[h.cur..] && if h.ready then HeaderOf(h, probe, stream) else Inside(h, s', stream)
  {
    var (s', got) := Read(s, r.toParse);
    var c, k := r.cur, |got.value|;
    assert got.value == stream[c..c + k] && stream[c..][k..] == stream[c + k..];
    assert stream[..c + k] == stream[..c] + stream[c..c + k];
    assert (r.mem[..c] + got.value + r.mem[c + k..])[..c + k] == r.mem[..c] + got.value;
  }

  /** The length a header announces. */
  lemma HeaderLength(h: Reader, probe: nat, stream: seq<byte>)
    requires (probe == PROBE_INTENDED || probe == PROBE_WRITTEN) && HeaderOf(h, probe, stream)
    requires |stream| >= 5 && stream[3] != 0
    ensures match Decode(h.mem[3..])
            case Malformed => true
            case Decoded(len, used) =>
              && 1 <= used <= 2 && len < DECODE_LIMIT && h.cur <= len + 3 + used
              && (!Dangerous(probe, stream) ==> len <= MAX_PIECE && 3 + used <= h.cur)
  {
    var a, b := h.mem[3], h.mem[4];
    assert h.mem[3..][0] == a && h.mem[3..][1] == b;
    assert a == h.mem[..h.cur][3] == stream[3];
    if h.cur == 5 {
      assert b == h.mem[..h.cur][4] == stream[4];
    } else {
      assert probe == PROBE_INTENDED ==> a < 128;
    }
  }

  /** A length of zero: nothing is left to read, or one byte too many has been. */
  lemma HeaderWithoutLength(h: Reader)
    requires 4 <= h.cur <= PADDING && h.mem[3] == 0
    ensures Parse(h).1.None? && Parse(h).0.parsed && Parse(h).0.finished == h.finished && Parse(h).0.cur == h.cur
    ensures AtMost(Parse(h).0)
  {
    assert Decode(h.mem[3..]) == Decoded(0, 1);
    assert Parse(h).0.remain == if h.cur == 4 then 0 else SIZE_T - 1;
  }

  /** Any header: what it announces fits behind it, or it is refused, and a harmless one only if the
      length is malformed. */
  lemma HeaderFitsOrNot(h: Reader, probe: nat, stream: seq<byte>)
    requires (probe == PROBE_INTENDED || probe == PROBE_WRITTEN) && HeaderOf(h, probe, stream)
    requires |stream| >= 5
    ensures match Parse(h)
            case (r, None) => r.parsed && !r.finished && AtMost(r)
            case (_, Some(code)) => !Dangerous(probe, stream) ==> code == MALFORMED
  {
    if stream[3] == 0 {
      assert h.mem[3] == h.mem[..h.cur][3] == 0;
      HeaderWithoutLength(h);
    } else {
      HeaderWithLength(h, probe, stream);
    }
  }

  lemma HeaderWithLength(h: Reader, probe: nat, stream: seq<byte>)
    requires (probe == PROBE_INTENDED || probe == PROBE_WRITTEN) && HeaderOf(h, probe, stream)
    requires |stream| >= 5 && stream[3] != 0
    ensures match Parse(h)
            case (r, None) => r.parsed && !r.finished && AtMost(r)
            case (_, Some(code)) => !Dangerous(probe, stream) ==> code == MALFORMED
  {
    HeaderLength(h, probe, stream);
    match Decode(h.mem[3..]) {
      case Malformed =>
      case Decoded(len, used) => RemainBound(len, h.cur, used);
    }
  }

  /** Nothing leads out of the buffer, and the reader stays inside unless something was thrown; if the
      header is harmless, it does so even then. */
  ghost predicate StaysInside(r: Reader, s: Socket, result: Result, probe: nat, stream: seq<byte>) {
    && result != Threw(OUT_OF_BUFFER)
    && (!result.Threw? ==> Inside(r, s, stream) && (r.finished ==> result.Done?))
    && (result == Threw(OVER_SIZE) && (|stream| <= MESSAGE_SIZE || !Dangerous(probe, stream)) ==>
          Inside(r, s, stream) && !r.finished)
  }

  lemma ParseStaysInside(h: Reader, s: Socket, probe: nat, stream: seq<byte>)
    requires (probe == PROBE_INTENDED || probe == PROBE_WRITTEN) && HeaderOf(h, probe, stream)
    requires s.stream == stream[h.cur..]
    ensures var (r', s', result) := ParseRound(h, s); StaysInside(r', s', result, probe, stream)
  {
    if |stream| > MESSAGE_SIZE {
      HeaderFitsOrNot(h, probe, stream);
    }
    var (r, code) := Parse(h);
    if code.None? {
      PayloadStaysInside(r, s, stream);
    }
  }

  lemma CallStaysInside(r: Reader, s: Socket, probe: nat, stream: seq<byte>)
    requires Inside(r, s, stream) && !r.finished && (probe == PROBE_INTENDED || probe == PROBE_WRITTEN)
    ensures var (r', s', result) := ReadCall(r, s, probe); StaysInside(r', s', result, probe, stream)
  {
    if r.parsed {
      PayloadStaysInside(r, s, stream);
    } else if Read(s, r.toParse).1.Got? {
      HeaderRead(r, s, probe, stream);
      var (s1, got) := Read(s, r.toParse);
      var h := TakeHeader(r, got.value, probe);
      if h.ready {
        ParseStaysInside(h, s1, probe, stream);
      }
    }
  }

  lemma {:induction false} RunOnStaysInside(r: Reader, s: Socket, probe: nat, stream: seq<byte>)
    requires Inside(r, s, stream) && !r.finished && (probe == PROBE_INTENDED || probe == PROBE_WRITTEN)
    requires |stream| <= MESSAGE_SIZE || !Dangerous(probe, stream)
    ensures RunOn(r, s, probe).2 != Threw(OUT_OF_BUFFER)
    decreases |s.grants|, if r.parsed then 0 else 1
  {
    if s.grants != [] {
      CallStaysInside(r, s, probe, stream);
      var (r', s', result) := ReadCall(r, s, probe);
      if !result.Done? && GoesOn(result) {
        GoingOnProgress(r, s, probe);
        RunOnStaysInside(r', s', probe, stream);
      }
    }
  }

  lemma {:induction false} RunStaysInside(r: Reader, s: Socket, probe: nat, stream: seq<byte>)
    requires Inside(r, s, stream) && !r.finished && (probe == PROBE_INTENDED || probe == PROBE_WRITTEN)
    ensures Run(r, s, probe).2 != Threw(OUT_OF_BUFFER)
    decreases |s.grants|
  {
    if s.grants != [] {
      CallStaysInside(r, s, probe, stream);
      var (r', s', result) := ReadCall(r, s, probe);
      if !result.Done? && !result.Threw? {
        RunStaysInside(r', s', probe, stream);
      }
    }
  }

  // ---- Streams that can ----

  /** The first five bytes in one read. */
  lemma FiveRead(stream: seq<byte>, mem: Memory, probe: nat, more: seq<Grant>, n: nat)
    requires |stream| > MESSAGE_SIZE && (probe == PROBE_INTENDED || probe == PROBE_WRITTEN) && 0 < n <= 5
    ensures Read(Socket(stream, [Upto(n)] + more), PADDING) == (Socket(stream[n..], more), Got(stream[..n]))
    ensures var h := TakeHeader(Fresh(mem), stream[..n], probe);
            && h.cur == n && !h.parsed && !h.finished
            && (forall i :: 0 <= i < n ==> h.mem[i] == stream[i])
            && (forall i :: n <= i < MESSAGE_SIZE ==> h.mem[i] == mem[i])
  {
    assert ([Upto(n)] + more)[1..] == more;
  }

  /** More than any length field announces. */
  const SIZE_LIMIT: nat := DECODE_LIMIT + PADDING

  /** A read for more than the buffer holds, of a stream that has it. */
  lemma PayloadLeaves(r: Reader, stream: seq<byte>)
    requires |stream| > MESSAGE_SIZE && r.cur <= PADDING && r.cur + r.remain > MESSAGE_SIZE && r.remain < SIZE_LIMIT
    ensures PayloadRound(r, Socket(stream[r.cur..], [Upto(|stream|)])).2 == Threw(OUT_OF_BUFFER)
  {
  }

  /** A refused header is only logged; the next read is for all that it announced. */
  lemma RefusedLeaves(stream: seq<byte>, mem: Memory, probe: nat, n: nat)
    requires |stream| > MESSAGE_SIZE && (probe == PROBE_INTENDED || probe == PROBE_WRITTEN) && 0 < n <= 5
    requires var h := TakeHeader(Fresh(mem), stream[..n], probe);
             var (r, code) := Parse(h);
             h.ready && code == Some(OVER_SIZE) && r.cur == n && r.parsed && !r.finished && n + r.remain > MESSAGE_SIZE
             && r.remain < SIZE_LIMIT
    ensures RunOn(Fresh(mem), Socket(stream, [Upto(n), Upto(|stream|)]), probe).2 == Threw(OUT_OF_BUFFER)
  {
    var s := Socket(stream, [Upto(n), Upto(|stream|)]);
    assert s.grants == [Upto(n)] + [Upto(|stream|)];
    FiveRead(stream, mem, probe, [Upto(|stream|)], n);
    var r := Parse(TakeHeader(Fresh(mem), stream[..n], probe)).0;
    var s1 := Socket(stream[n..], [Upto(|stream|)]);
    assert ReadCall(Fresh(mem), s, probe) == (r, s1, Threw(OVER_SIZE));
    PayloadLeaves(r, stream);
    assert ReadCall(r, s1, probe) == PayloadRound(r, s1);
  }

  lemma TooMuchLeaves(stream: seq<byte>)
    requires |stream| > MESSAGE_SIZE && AnnouncesTooMuch(stream)
    ensures RunOn(Fresh(ZEROES), Socket(stream, [Upto(5), Upto(|stream|)]), PROBE_INTENDED).2 == Threw(OUT_OF_BUFFER)
  {
    FiveRead(stream, ZEROES, PROBE_INTENDED, [], 5);
    var h := TakeHeader(Fresh(ZEROES), stream[..5], PROBE_INTENDED);
    assert h.mem[4] == stream[4] < 128;
    assert h.ready;
    assert h.mem[3..][0] == stream[3] && h.mem[3..][1] == stream[4];
    RefusedLeaves(stream, ZEROES, PROBE_INTENDED, 5);
  }

  lemma SplitLengthLeaves(stream: seq<byte>)
    requires |stream| > MESSAGE_SIZE && stream[3] >= 128
    ensures RunOn(Fresh(SEVENS), Socket(stream, [Upto(4), Upto(|stream|)]), PROBE_WRITTEN).2 == Threw(OUT_OF_BUFFER)
  {
    FiveRead(stream, SEVENS, PROBE_WRITTEN, [], 4);
    var h := TakeHeader(Fresh(SEVENS), stream[..4], PROBE_WRITTEN);
    assert h.mem[4] == 127;
    assert h.ready;
    assert h.mem[3..][0] == stream[3] && h.mem[3..][1] == 127;
    RefusedLeaves(stream, SEVENS, PROBE_WRITTEN, 4);
  }

  // ---- Main results ----

  lemma StartsInside(mem: Memory, stream: seq<byte>, grants: seq<Grant>)
    ensures Inside(Fresh(mem), Socket(stream, grants), stream)
  {
  }

  /** For every stream: some memory and schedule take the reader out of its 1024 bytes if and only if
      the stream has more than that and its header can be refused: a length above 1019, or, as written,
      any two-byte length, since the second byte may be taken from the memory. The event loop goes on
      after the refusal and asks for all that was announced. */
  lemma LeavesExactly(stream: seq<byte>, probe: nat)
    requires probe == PROBE_INTENDED || probe == PROBE_WRITTEN
    ensures CanLeave(probe, stream) <==> |stream| > 1024 && Dangerous(probe, stream)
  {
    if |stream| > MESSAGE_SIZE && Dangerous(probe, stream) {
      if probe == PROBE_INTENDED {
        TooMuchLeaves(stream);
      } else {
        SplitLengthLeaves(stream);
      }
    } else {
      forall mem: Memory, grants: seq<Grant>
        ensures RunOn(Fresh(mem), Socket(stream, grants), probe).2 != Threw(OUT_OF_BUFFER)
      {
        StartsInside(mem, stream, grants);
        RunOnStaysInside(Fresh(mem), Socket(stream, grants), probe, stream);
      }
    }
  }

  /** Up to the first error no stream, memory or schedule leaves the buffer, at either offset. */
  lemma InsideUntilAnError(stream: seq<byte>, mem: Memory, grants: seq<Grant>, probe: nat)
    requires probe == PROBE_INTENDED || probe == PROBE_WRITTEN
    ensures Run(Fresh(mem), Socket(stream, grants), probe).2 != Threw(OUT_OF_BUFFER)
  {
    StartsInside(mem, stream, grants);
    RunStaysInside(Fresh(mem), Socket(stream, grants), probe, stream);
  }

  /** A length of zero whose fifth byte has been read: whatever follows, the next read fails. */
  lemma ZeroLengthCloses(stream: seq<byte>, probe: nat, more: seq<Grant>)
    requires |stream| >= PADDING && stream[3] == 0 && more != []
    requires probe == PROBE_INTENDED || probe == PROBE_WRITTEN
    ensures Run(Fresh(ZEROES), Socket(stream, [Upto(PADDING)] + more), probe).2 == Threw(20008)
  {
    var s := Socket(stream, [Upto(PADDING)] + more);
    var (s1, got) := Read(s, PADDING);
    assert s1.grants == more && got.value == stream[..5];
    var h := TakeHeader(Fresh(ZEROES), got.value, probe);
    assert h.mem[3] == 0 && h.mem[5] == 0;
    EmptyParsed(h, probe);
    assert ReadCall(Fresh(ZEROES), s, probe) == PayloadRound(Parse(h).0, s1);
  }
}
