/** What of the reader's state depends on how the reads were split. */
module ReaderView {
  import opened VarLength
  import opened Fragment
  import opened Frames
  import opened Options
  import opened Reader
  import opened ReaderExact

  datatype View = View(cur: nat, parsed: bool, dataPos: nat, remain: nat, finished: bool)

  function See(r: Reader): View {
    View(r.cur, r.parsed, r.dataPos, if r.parsed then r.remain else 0, r.finished)
  }

  predicate IsProbe(probe: nat) { probe == PROBE_INTENDED || probe == PROBE_WRITTEN }

  /** No read leaves the cursor at exactly four bytes, wherever the length field ends. */
  predicate AvoidsFour(r: Reader, s: Socket, probe: nat)
    requires HeaderFits(r) && probe <= PROBE_WRITTEN
    decreases |s.grants|
  {
    s.grants == [] ||
    (!LandsOnFour(r, s) &&
     var (r', s', result) := ReadCall(r, s, probe);
     result.Done? || result.Threw? || AvoidsFour(r', s', probe))
  }

  /** The schedules that are considered. */
  datatype Schedules = All | Unsplit | OffFour

  predicate Allowed(which: Schedules, probe: nat, f: Frame, mem: Memory, grants: seq<Grant>, rest: seq<byte>)
    requires probe <= PROBE_WRITTEN
  {
    var r, s := Fresh(mem), Socket(f.Bytes() + rest, grants);
    match which
    case All => true
    case Unsplit => NeverSplits(r, s, probe)
    case OffFour => AvoidsFour(r, s, probe)
  }

  /** Two runs that have consumed the same number of bytes look the same. */
  predicate SameView(probe: nat, f: Frame, memA: Memory, a: seq<Grant>, memB: Memory, b: seq<Grant>, rest: seq<byte>)
    requires probe <= PROBE_WRITTEN
  {
    var (ra, sa, _) := Run(Fresh(memA), Socket(f.Bytes() + rest, a), probe);
    var (rb, sb, _) := Run(Fresh(memB), Socket(f.Bytes() + rest, b), probe);
    |sa.stream| == |sb.stream| ==> See(ra) == See(rb)
  }

  /** ... whatever their schedules, starting from the same memory. */
  ghost predicate SplitIndependent(probe: nat, f: Frame, which: Schedules)
    requires probe <= PROBE_WRITTEN
  {
    forall mem: Memory, a: seq<Grant>, b: seq<Grant>, rest: seq<byte> ::
      Allowed(which, probe, f, mem, a, rest) && Allowed(which, probe, f, mem, b, rest)
      ==> SameView(probe, f, mem, a, mem, b, rest)
  }

  /** ... and whatever the memory held before. */
  ghost predicate Independent(probe: nat, f: Frame, which: Schedules)
    requires probe <= PROBE_WRITTEN
  {
    forall memA: Memory, a: seq<Grant>, memB: Memory, b: seq<Grant>, rest: seq<byte> ::
      Allowed(which, probe, f, memA, a, rest) && Allowed(which, probe, f, memB, b, rest)
      ==> SameView(probe, f, memA, a, memB, b, rest)
  }

  // ---- The view as a function of the bytes consumed ----

  /** Is the header parsed once c bytes are there? As written, a stop at four bytes is decided by what
      the memory held before. */
  predicate ParsedAt(probe: nat, f: Frame, mem: Memory, c: nat)
    requires f.Valid()
  {
    if probe == PROBE_INTENDED then f.HeaderSize() <= c else c >= 5 || (c == 4 && mem[4] < 128)
  }

  ghost predicate Traced(r: Reader, f: Frame, mem: Memory, probe: nat, c: nat)
    requires f.Valid()
  {
    && Midway(r, f, c) && (r.parsed <==> ParsedAt(probe, f, mem, c))
    && (!r.parsed ==> r.mem[c..] == mem[c..])
  }

  lemma HeaderTraced(r: Reader, f: Frame, mem: Memory, probe: nat, c: nat, k: nat)
    requires f.Valid() && IsProbe(probe) && Recognised(probe, f)
    requires BeforeParse(r, f, c) && r.mem[c..] == mem[c..] && c + k <= PADDING
    requires probe == PROBE_INTENDED || |f.payload| < 128 || c + k != 4
    ensures |f.Bytes()| >= PADDING
    ensures var r' := TakeHeader(r, f.Bytes()[c..c + k], probe);
            && (r'.ready <==> ParsedAt(probe, f, mem, c + k))
            && r'.mem[c + k..] == mem[c + k..]
  {
    HeaderShape(f);
    TakeHeaderKeeps(r, f, c, k, probe);
    var b, r' := f.Bytes(), TakeHeader(r, f.Bytes()[c..c + k], probe);
    assert r'.mem[c + k..] == r.mem[c + k..] == mem[c..][k..] == mem[c + k..];
    assert forall i :: c + k <= i < MESSAGE_SIZE ==> r'.mem[i] == mem[i];
    if probe == PROBE_WRITTEN {
      WrittenProbe(r', f, c + k);
    }
  }

  /** As written, what the look-ahead finds after the header bytes. */
  lemma WrittenProbe(r: Reader, f: Frame, c: nat)
    requires f.Valid() && Recognised(PROBE_WRITTEN, f) && c <= PADDING <= |f.Bytes()|
    requires r.mem[..c] == f.Bytes()[..c]
    ensures Probe(r.mem, c, PROBE_WRITTEN) <==> c == 5 || (c == 4 && r.mem[4] < 128)
  {
    HeaderShape(f);
    if c == 5 {
      assert r.mem[4] == f.Bytes()[4];
      assert f.Bytes()[4] == if |f.payload| < 128 then f.payload[0] else |f.payload| / 128;
    } else if c == 4 {
      assert Probe(r.mem, 4, 4) <==> r.mem[4] < 128;
    }
  }

  lemma CallTraced(r: Reader, s: Socket, probe: nat, f: Frame, mem: Memory, c: nat, rest: seq<byte>)
      returns (c': nat)
    requires f.Valid() && IsProbe(probe) && Recognised(probe, f) && StopOk(probe, f, r, s)
    requires Traced(r, f, mem, probe, c) && !r.finished && s.stream == f.Bytes()[c..] + rest
    ensures c <= c' && var (r', s', result) := ReadCall(r, s, probe);
            && Traced(r', f, mem, probe, c') && s'.stream == f.Bytes()[c'..] + rest
            && Harmless(f, result) && (result.Done? <==> r'.finished)
  {
    c' := ReadCallKeeps(r, s, probe, f, c, rest);
    if !r.parsed && Read(s, r.toParse).1.Got? {
      var d := HeaderRoundKeeps(r, s, probe, f, c, rest);
      HeaderTraced(r, f, mem, probe, c, d - c);
      CallAfterHeader(r, s, probe, f, mem, c, d, c', rest);
    }
  }

  /** The call reads on from the header to the payload if the header is recognised. */
  lemma CallAfterHeader(
    r: Reader, s: Socket, probe: nat, f: Frame, mem: Memory, c: nat, d: nat, c': nat, rest: seq<byte>)
    requires f.Valid() && IsProbe(probe) && BeforeParse(r, f, c) && c <= d <= PADDING <= |f.Bytes()|
    requires Read(s, r.toParse).1 == Got(f.Bytes()[c..d]) && Read(s, r.toParse).0.stream == f.Bytes()[d..] + rest
    requires var r1 := TakeHeader(r, f.Bytes()[c..d], probe);
             && (r1.ready <==> ParsedAt(probe, f, mem, d)) && r1.mem[d..] == mem[d..]
    requires var (r', s', result) := ReadCall(r, s, probe);
             Midway(r', f, c') && s'.stream == f.Bytes()[c'..] + rest
    ensures Traced(ReadCall(r, s, probe).0, f, mem, probe, c')
  {
    var (s1, got) := Read(s, r.toParse);
    var r1 := TakeHeader(r, f.Bytes()[c..d], probe);
    if !r1.ready {
      assert ReadCall(r, s, probe) == (r1, s1, Again);
      assert c' == d;
    } else {
      assert ReadCall(r, s, probe) == ParseRound(r1, s1);
      assert c' >= d;
    }
  }

  lemma {:induction false} RunTraced(r: Reader, s: Socket, probe: nat, f: Frame, mem: Memory, c: nat, rest: seq<byte>)
      returns (c': nat)
    requires f.Valid() && IsProbe(probe) && Recognised(probe, f)
    requires Traced(r, f, mem, probe, c) && !r.finished && s.stream == f.Bytes()[c..] + rest
    requires probe == PROBE_INTENDED || |f.payload| < 128 || NeverSplits(r, s, probe)
    ensures var (r', s', result) := Run(r, s, probe);
            Traced(r', f, mem, probe, c') && s'.stream == f.Bytes()[c'..] + rest
    decreases |s.grants|
  {
    if s.grants == [] {
      c' := c;
    } else {
      if probe == PROBE_WRITTEN && |f.payload| >= 128 {
        StopSplits(probe, f, r, s, c, rest);
      }
      var d := CallTraced(r, s, probe, f, mem, c, rest);
      var (r', s', result) := ReadCall(r, s, probe);
      if result.Done? || result.Threw? {
        c' := d;
      } else {
        c' := RunTraced(r', s', probe, f, mem, d, rest);
      }
    }
  }

  /** Two traced readers at the same byte look the same. */
  lemma TracedAlike(f: Frame, probe: nat, ra: Reader, memA: Memory, rb: Reader, memB: Memory, c: nat)
    requires f.Valid() && (|f.payload| >= 2 || (!ra.finished && !rb.finished))
    requires Traced(ra, f, memA, probe, c) && Traced(rb, f, memB, probe, c)
    requires ParsedAt(probe, f, memA, c) <==> ParsedAt(probe, f, memB, c)
    ensures See(ra) == See(rb)
  {
  }

  lemma StartTraced(f: Frame, mem: Memory, probe: nat, rest: seq<byte>)
    requires f.Valid() && IsProbe(probe)
    ensures Traced(Fresh(mem), f, mem, probe, 0) && f.Bytes() + rest == f.Bytes()[0..] + rest
  {
    assert f.Bytes()[0..] == f.Bytes();
  }

  lemma {:induction false} AvoidingNeverSplits(r: Reader, s: Socket, probe: nat)
    requires HeaderFits(r) && probe <= PROBE_WRITTEN && AvoidsFour(r, s, probe)
    ensures NeverSplits(r, s, probe)
    decreases |s.grants|
  {
    if s.grants != [] {
      var (r', s', result) := ReadCall(r, s, probe);
      if !result.Done? && !result.Threw? {
        AvoidingNeverSplits(r', s', probe);
      }
    }
  }

  lemma {:induction false} NotAtFour(r: Reader, s: Socket, probe: nat)
    requires HeaderFits(r) && probe <= PROBE_WRITTEN && AvoidsFour(r, s, probe)
    requires r.cur != 4 && (r.parsed || r.ready ==> r.cur >= 5)
    ensures Run(r, s, probe).0.cur != 4
    decreases |s.grants|
  {
    if s.grants != [] {
      var (r', s', result) := ReadCall(r, s, probe);
      CallNotAtFour(r, s, probe);
      if !result.Done? && !result.Threw? {
        NotAtFour(r', s', probe);
      }
    }
  }

  lemma RoundsGoOn(r: Reader, s: Socket)
    ensures PayloadRound(r, s).0.cur >= r.cur && ParseRound(r, s).0.cur >= r.cur
  {
  }

  lemma CallNotAtFour(r: Reader, s: Socket, probe: nat)
    requires HeaderFits(r) && probe <= PROBE_WRITTEN && !LandsOnFour(r, s) && s.grants != []
    requires r.cur != 4 && (r.parsed || r.ready ==> r.cur >= 5)
    ensures var r' := ReadCall(r, s, probe).0; r'.cur != 4 && (r'.parsed || r'.ready ==> r'.cur >= 5)
  {
    if r.parsed {
      RoundsGoOn(r, s);
    } else if r.ready {
      RoundsGoOn(r, s);
    } else if Read(s, r.toParse).1.Got? {
      var got := Read(s, r.toParse).1.value;
      var h := TakeHeader(r, got, probe);
      assert h.ready ==> h.cur >= 5;
      RoundsGoOn(h, Read(s, r.toParse).0);
    }
  }

  // ---- Where it does depend on the split ----

  /** A first read of n header bytes. */
  lemma FirstRead(f: Frame, mem: Memory, probe: nat, n: nat, more: seq<Grant>)
    requires f.Valid() && IsProbe(probe) && 0 < n <= 5
    ensures |f.Bytes()| >= 5
    ensures Read(Socket(f.Bytes() + [], [Upto(n)] + more), PADDING)
            == (Socket(f.Bytes()[n..], more), Got(f.Bytes()[..n]))
    ensures var r := TakeHeader(Fresh(mem), f.Bytes()[..n], probe);
            && r.cur == n && r.toParse == 5 - n && !r.parsed && !r.finished
            && (forall i :: 0 <= i < n ==> r.mem[i] == f.Bytes()[i])
            && (forall i :: n <= i < MESSAGE_SIZE ==> r.mem[i] == mem[i])
  {
    HeaderShape(f);
    assert f.Bytes() + [] == f.Bytes();
    assert ([Upto(n)] + more)[1..] == more;
  }

  /** With one payload byte the whole frame can arrive in the header read; the flag is then not set. If
      the byte comes by itself, it is. */
  lemma OneByteDependsOnSplit(probe: nat, f: Frame)
    requires f.Valid() && |f.payload| == 1 && IsProbe(probe)
    ensures !SameView(probe, f, ZEROES, [Upto(4), Upto(1)], ZEROES, [Upto(5)], [])
    ensures NeverSplits(Fresh(ZEROES), Socket(f.Bytes() + [], [Upto(5)]), probe)
    ensures NeverSplits(Fresh(ZEROES), Socket(f.Bytes() + [], [Upto(4), Upto(1)]), probe)
  {
    HeaderShape(f);
    var a := OneByteInTwo(f, probe);
    var r := FiveAtOnce(f, ZEROES, probe);
    FiveIsAllowed(f, ZEROES, probe);
  }

  lemma OneByteInTwo(f: Frame, probe: nat) returns (r: Reader)
    requires f.Valid() && |f.payload| == 1 && IsProbe(probe)
    ensures var (r1, s1, _) := Run(Fresh(ZEROES), Socket(f.Bytes() + [], [Upto(4), Upto(1)]), probe);
            s1.stream == f.Bytes()[5..] && r1 == r && r.finished
    ensures NeverSplits(Fresh(ZEROES), Socket(f.Bytes() + [], [Upto(4), Upto(1)]), probe)
  {
    HeaderShape(f);
    FirstRead(f, ZEROES, probe, 4, [Upto(1)]);
    assert [Upto(4), Upto(1)] == [Upto(4)] + [Upto(1)];
    var h := TakeHeader(Fresh(ZEROES), f.Bytes()[..4], probe);
    assert h.mem[3] == 1 && h.mem[4] == 0 && h.ready by {
      assert h.mem[probe] < 128;
    }
    var r1 := FourRecognised(h, f);
    var s0, s1 := Socket(f.Bytes() + [], [Upto(4), Upto(1)]), Socket(f.Bytes()[4..], [Upto(1)]);
    assert ReadCall(Fresh(ZEROES), s0, probe) == PayloadRound(r1, s1);
    var (r2, s2, result) := PayloadRound(r1, s1);
    assert s1.stream[1..] == f.Bytes()[5..] && result == Done;
    r := r2;
  }

  /** What a first read of five bytes leaves behind if it is the only one. */
  lemma FiveAtOnce(f: Frame, mem: Memory, probe: nat) returns (r: Reader)
    requires f.Valid() && IsProbe(probe)
    ensures var (r1, s1, _) := Run(Fresh(mem), Socket(f.Bytes() + [], [Upto(5)]), probe);
            s1.stream == f.Bytes()[5..] && r1 == r && r.cur == 5 && !r.finished
    ensures !TakeHeader(Fresh(mem), f.Bytes()[..5], probe).ready ==> !r.parsed
    ensures TakeHeader(Fresh(mem), f.Bytes()[..5], probe).ready ==> r.parsed && r.remain == |f.Bytes()| - 5
  {
    FirstRead(f, mem, probe, 5, []);
    assert [Upto(5)] == [Upto(5)] + [];
    var h := TakeHeader(Fresh(mem), f.Bytes()[..5], probe);
    var s1 := Socket(f.Bytes()[5..], []);
    if h.ready {
      r := ParsedAtFive(f, h);
      assert ReadCall(Fresh(mem), Socket(f.Bytes() + [], [Upto(5)]), probe) == (r, s1, Pending);
    } else {
      r := h;
      assert ReadCall(Fresh(mem), Socket(f.Bytes() + [], [Upto(5)]), probe) == (r, s1, Again);
    }
    assert Run(r, s1, probe) == (r, s1, Pending);
  }

  lemma ParsedAtFive(f: Frame, h: Reader) returns (r: Reader)
    requires f.Valid() && |f.Bytes()| >= 5 && h.cur == 5 && h.ready && !h.finished
    requires forall i :: 0 <= i < 5 ==> h.mem[i] == f.Bytes()[i]
    ensures Parse(h) == (r, None) && r.cur == 5 && r.parsed && !r.finished && r.remain == |f.Bytes()| - 5
  {
    HeaderShape(f);
    assert h.mem[..5] == f.Bytes()[..5];
    ParseKeeps(h, f, 5);
    r := Parse(h).0;
  }

  /** The length of a frame as the first four bytes and a zero behind them give it. */
  lemma FourDecodes(mem: Memory, f: Frame)
    requires f.Valid() && mem[4] == 0 && mem[3] == f.Bytes()[3]
    ensures Decode(mem[3..]) == if |f.payload| < 128 then Decoded(|f.payload|, 1) else Decoded(|f.payload| % 128, 2)
  {
    HeaderShape(f);
    assert mem[3..][0] == mem[3] && mem[3..][1] == 0;
  }

  /** The header after four bytes: a long frame's second length byte is taken from the memory. */
  lemma FourRecognised(h: Reader, f: Frame) returns (r: Reader)
    requires f.Valid() && h.cur == 4 && h.mem[4] == 0 && h.mem[3] == f.Bytes()[3]
    ensures Parse(h) == (r, None) && r.parsed && r.cur == 4 && r.finished == h.finished
    ensures r.remain == if |f.payload| >= 128 then |f.payload| % 128 + 1 else |f.payload|
  {
    FourDecodes(h.mem, f);
    var (len, used) := if |f.payload| < 128 then (|f.payload|, 1) else (|f.payload| % 128, 2);
    ParseOf(h, len, used);
    RemainBound(len, 4, used);
    r := Parse(h).0;
  }

  /** As written, a stop at four bytes over memory with a small byte parses the header then and there. */
  lemma FourThenOne(f: Frame, mem: Memory) returns (r: Reader)
    requires f.Valid() && |f.payload| >= 2 && mem[4] == 0
    ensures var (r1, s1, _) := Run(Fresh(mem), Socket(f.Bytes() + [], [Upto(4), Upto(1)]), PROBE_WRITTEN);
            s1.stream == f.Bytes()[5..] && r1 == r && r.cur == 5
    ensures r.parsed && (|f.payload| >= 128 ==> r.remain == |f.payload| % 128)
  {
    HeaderShape(f);
    FirstRead(f, mem, PROBE_WRITTEN, 4, [Upto(1)]);
    assert [Upto(4), Upto(1)] == [Upto(4)] + [Upto(1)];
    var h := TakeHeader(Fresh(mem), f.Bytes()[..4], PROBE_WRITTEN);
    assert h.mem[4] == 0 && h.ready;
    var r1 := FourRecognised(h, f);
    var s0, s1 := Socket(f.Bytes() + [], [Upto(4), Upto(1)]), Socket(f.Bytes()[4..], [Upto(1)]);
    assert ReadCall(Fresh(mem), s0, PROBE_WRITTEN) == PayloadRound(r1, s1);
    assert s1.stream[1..] == f.Bytes()[5..] && |s1.stream[..1]| == 1;
    var (r2, s2, result) := PayloadRound(r1, s1);
    r := r2;
    assert s2 == Socket(f.Bytes()[5..], []);
    assert Run(r2, s2, PROBE_WRITTEN) == (r2, s2, Pending);
  }

  /** As written, a long frame shows the stop at four bytes: the remaining count differs. */
  lemma LongDependsOnSplit(f: Frame)
    requires f.Valid() && |f.payload| >= 128
    ensures !SameView(PROBE_WRITTEN, f, ZEROES, [Upto(4), Upto(1)], ZEROES, [Upto(5)], [])
  {
    HeaderShape(f);
    var a := FourThenOne(f, ZEROES);
    var b := FiveAtOnce(f, ZEROES, PROBE_WRITTEN);
    FirstRead(f, ZEROES, PROBE_WRITTEN, 5, []);
    var h := TakeHeader(Fresh(ZEROES), f.Bytes()[..5], PROBE_WRITTEN);
    assert h.mem[4] < 128;
    assert h.ready;
  }

  const LOW_THEN_HIGH: Memory := ONES[4 := 0]

  /** As written, a short frame with a high first byte shows it as well: after five bytes at once the
      header is not recognised. */
  lemma HighDependsOnSplit(f: Frame)
    requires f.Valid() && 2 <= |f.payload| < 128 && f.payload[0] >= 128
    ensures !SameView(PROBE_WRITTEN, f, LOW_THEN_HIGH, [Upto(4), Upto(1)], LOW_THEN_HIGH, [Upto(5)], [])
  {
    var a := FourThenOne(f, LOW_THEN_HIGH);
    var b := FiveAtOnce(f, LOW_THEN_HIGH, PROBE_WRITTEN);
    HighAtFive(f, LOW_THEN_HIGH);
  }

  /** ... and what the memory held decides whether the header is recognised after five bytes. */
  lemma HighDependsOnMemory(f: Frame)
    requires f.Valid() && |f.payload| < 128 && f.payload[0] >= 128
    ensures !SameView(PROBE_WRITTEN, f, ZEROES, [Upto(5)], ONES, [Upto(5)], [])
  {
    var a := FiveAtOnce(f, ZEROES, PROBE_WRITTEN);
    var b := FiveAtOnce(f, ONES, PROBE_WRITTEN);
    HighAtFive(f, ZEROES);
    HighAtFive(f, ONES);
  }

  lemma HighAtFive(f: Frame, mem: Memory)
    requires f.Valid() && |f.payload| < 128 && f.payload[0] >= 128
    ensures TakeHeader(Fresh(mem), f.Bytes()[..5], PROBE_WRITTEN).ready <==> mem[5] < 128
  {
    HeaderShape(f);
    FirstRead(f, mem, PROBE_WRITTEN, 5, []);
    var h := TakeHeader(Fresh(mem), f.Bytes()[..5], PROBE_WRITTEN);
    assert h.mem[4] == f.payload[0] && h.mem[5] == mem[5];
    assert Probe(h.mem, 5, 4) <==> h.mem[4] < 128 || h.mem[5] < 128;
  }

  lemma FiveIsAllowed(f: Frame, mem: Memory, probe: nat)
    requires f.Valid() && IsProbe(probe)
    ensures AvoidsFour(Fresh(mem), Socket(f.Bytes() + [], [Upto(5)]), probe)
    ensures NeverSplits(Fresh(mem), Socket(f.Bytes() + [], [Upto(5)]), probe)
  {
    FirstRead(f, mem, probe, 5, []);
    assert [Upto(5)] == [Upto(5)] + [];
    var s := Socket(f.Bytes() + [], [Upto(5)]);
    assert !LandsOnFour(Fresh(mem), s);
    var (r1, s1, result) := ReadCall(Fresh(mem), s, probe);
    assert s1.grants == [];
  }

  lemma FourThenOneIsUnsplit(f: Frame, mem: Memory)
    requires f.Valid() && 2 <= |f.payload| < 128 && mem[4] == 0
    ensures NeverSplits(Fresh(mem), Socket(f.Bytes() + [], [Upto(4), Upto(1)]), PROBE_WRITTEN)
  {
    HeaderShape(f);
    FirstRead(f, mem, PROBE_WRITTEN, 4, [Upto(1)]);
    assert [Upto(4), Upto(1)] == [Upto(4)] + [Upto(1)];
    var s := Socket(f.Bytes() + [], [Upto(4), Upto(1)]);
    var h := TakeHeader(Fresh(mem), f.Bytes()[..4], PROBE_WRITTEN);
    assert h.mem[3] == |f.payload| && h.mem[4] == 0 && h.ready;
    var r1 := FourRecognised(h, f);
    var s1 := Socket(f.Bytes()[4..], [Upto(1)]);
    assert ReadCall(Fresh(mem), s, PROBE_WRITTEN) == PayloadRound(r1, s1);
    assert PayloadRound(r1, s1).1.grants == [];
  }

  /** Over another old content of the memory the same stop at four bytes looks different. */
  lemma MemoryShowsThrough(f: Frame)
    requires f.Valid()
    ensures !SameView(PROBE_WRITTEN, f, ZEROES, [Upto(4)], ONES, [Upto(4)], [])
  {
    var a := StoppedAtFour(f, ZEROES);
    var b := StoppedAtFour(f, ONES);
  }

  lemma StoppedAtFour(f: Frame, mem: Memory) returns (r: Reader)
    requires f.Valid() && (mem[4] == 0 || mem[4] == 255)
    ensures var (r1, s1, _) := Run(Fresh(mem), Socket(f.Bytes() + [], [Upto(4)]), PROBE_WRITTEN);
            s1.stream == f.Bytes()[4..] && r1 == r
    ensures r.parsed <==> mem[4] == 0
  {
    FirstRead(f, mem, PROBE_WRITTEN, 4, []);
    assert [Upto(4)] == [Upto(4)] + [];
    var h := TakeHeader(Fresh(mem), f.Bytes()[..4], PROBE_WRITTEN);
    var s1 := Socket(f.Bytes()[4..], []);
    assert h.mem[4] == mem[4];
    assert h.ready <==> h.mem[4] < 128;
    r := h;
    if h.ready {
      r := FourRecognised(h, f);
    }
    assert Run(r, s1, PROBE_WRITTEN) == (r, s1, Pending);
  }

  // ---- Main results ----

  /** As written, with no stop at four bytes, a one-byte payload is always complete with the header, and
      the flag is never set. */
  lemma {:induction false} OneByteNeverDone(r: Reader, s: Socket, f: Frame, c: nat, rest: seq<byte>)
    requires f.Valid() && |f.payload| == 1 && Recognised(PROBE_WRITTEN, f)
    requires Midway(r, f, c) && c != 4 && !r.finished && s.stream == f.Bytes()[c..] + rest
    requires AvoidsFour(r, s, PROBE_WRITTEN)
    ensures !Run(r, s, PROBE_WRITTEN).0.finished
    decreases |s.grants|
  {
    if s.grants != [] {
      HeaderShape(f);
      var d := ReadCallKeeps(r, s, PROBE_WRITTEN, f, c, rest);
      CallNotAtFour(r, s, PROBE_WRITTEN);
      OneByteCall(r, s, f, c, rest);
      var (r', s', result) := ReadCall(r, s, PROBE_WRITTEN);
      if !result.Threw? {
        OneByteNeverDone(r', s', f, d, rest);
      }
    }
  }

  lemma OneByteCall(r: Reader, s: Socket, f: Frame, c: nat, rest: seq<byte>)
    requires f.Valid() && |f.payload| == 1 && Recognised(PROBE_WRITTEN, f)
    requires Midway(r, f, c) && c != 4 && !r.finished && s.stream == f.Bytes()[c..] + rest
    requires !LandsOnFour(r, s)
    ensures !ReadCall(r, s, PROBE_WRITTEN).0.finished && !ReadCall(r, s, PROBE_WRITTEN).2.Done?
  {
    HeaderShape(f);
    if !r.parsed && Read(s, r.toParse).1.Got? {
      var d := HeaderRoundKeeps(r, s, PROBE_WRITTEN, f, c, rest);
      var h := TakeHeader(r, Read(s, r.toParse).1.value, PROBE_WRITTEN);
      if h.ready {
        ParseKeeps(h, f, d);
      }
    }
  }

  lemma SameIf(probe: nat, f: Frame, memA: Memory, a: seq<Grant>, memB: Memory, b: seq<Grant>, rest: seq<byte>)
    requires f.Valid() && IsProbe(probe) && Recognised(probe, f)
    requires probe == PROBE_INTENDED || |f.payload| < 128 ||
             (NeverSplits(Fresh(memA), Socket(f.Bytes() + rest, a), probe) &&
              NeverSplits(Fresh(memB), Socket(f.Bytes() + rest, b), probe))
    requires (|f.payload| >= 2 && (probe == PROBE_INTENDED || memA == memB)) ||
             (probe == PROBE_WRITTEN &&
              AvoidsFour(Fresh(memA), Socket(f.Bytes() + rest, a), probe) &&
              AvoidsFour(Fresh(memB), Socket(f.Bytes() + rest, b), probe))
    ensures SameView(probe, f, memA, a, memB, b, rest)
  {
    var sa, sb := Socket(f.Bytes() + rest, a), Socket(f.Bytes() + rest, b);
    StartTraced(f, memA, probe, rest);
    StartTraced(f, memB, probe, rest);
    var x := RunTraced(Fresh(memA), sa, probe, f, memA, 0, rest);
    var y := RunTraced(Fresh(memB), sb, probe, f, memB, 0, rest);
    if probe == PROBE_WRITTEN && (memA != memB || |f.payload| == 1) {
      NotAtFour(Fresh(memA), sa, probe);
      NotAtFour(Fresh(memB), sb, probe);
    }
    if |f.payload| == 1 {
      OneByteNeverDone(Fresh(memA), sa, f, 0, rest);
      OneByteNeverDone(Fresh(memB), sb, f, 0, rest);
    }
    if x == y {
      TracedAlike(f, probe, Run(Fresh(memA), sa, probe).0, memA, Run(Fresh(memB), sb, probe).0, memB, x);
    }
  }

  /** Looking at the length bytes themselves: cursor, header parsed or not, payload start, remaining
      count and finished flag are functions of the number of bytes consumed, whatever the schedule and
      the memory, exactly for payloads of two bytes or more. */
  lemma IntendedViewDependsOnBytes(f: Frame)
    requires f.Valid()
    ensures Independent(PROBE_INTENDED, f, All) <==> |f.payload| >= 2
  {
    if |f.payload| >= 2 {
      forall memA: Memory, a: seq<Grant>, memB: Memory, b: seq<Grant>, rest: seq<byte>
        ensures SameView(PROBE_INTENDED, f, memA, a, memB, b, rest)
      {
        SameIf(PROBE_INTENDED, f, memA, a, memB, b, rest);
      }
    } else {
      OneByteDependsOnSplit(PROBE_INTENDED, f);
    }
  }

  /** As written, over one and the same memory and all schedules: exactly for payloads of 2 to 127
      bytes that start with a byte below 128. */
  lemma WrittenViewDependsOnBytes(f: Frame)
    requires f.Valid()
    ensures SplitIndependent(PROBE_WRITTEN, f, All) <==> 2 <= |f.payload| < 128 && f.payload[0] < 128
  {
    if |f.payload| == 1 {
      OneByteDependsOnSplit(PROBE_WRITTEN, f);
    } else if |f.payload| >= 128 {
      LongDependsOnSplit(f);
    } else if f.payload[0] >= 128 {
      HighDependsOnSplit(f);
    } else {
      forall mem: Memory, a: seq<Grant>, b: seq<Grant>, rest: seq<byte>
        ensures SameView(PROBE_WRITTEN, f, mem, a, mem, b, rest)
      {
        SameIf(PROBE_WRITTEN, f, mem, a, mem, b, rest);
      }
    }
  }

  /** As written, over one memory and the schedules that split no length: exactly for payloads of two
      bytes or more that are long or start with a byte below 128. */
  lemma UnsplitViewDependsOnBytes(f: Frame)
    requires f.Valid()
    ensures SplitIndependent(PROBE_WRITTEN, f, Unsplit) <==> |f.payload| >= 2 && Recognised(PROBE_WRITTEN, f)
  {
    if |f.payload| == 1 {
      OneByteDependsOnSplit(PROBE_WRITTEN, f);
    } else if !Recognised(PROBE_WRITTEN, f) {
      HighDependsOnSplit(f);
      FourThenOneIsUnsplit(f, LOW_THEN_HIGH);
      FiveIsAllowed(f, LOW_THEN_HIGH, PROBE_WRITTEN);
    } else {
      forall mem: Memory, a: seq<Grant>, b: seq<Grant>, rest: seq<byte> |
        Allowed(Unsplit, PROBE_WRITTEN, f, mem, a, rest) && Allowed(Unsplit, PROBE_WRITTEN, f, mem, b, rest)
        ensures SameView(PROBE_WRITTEN, f, mem, a, mem, b, rest)
      {
        SameIf(PROBE_WRITTEN, f, mem, a, mem, b, rest);
      }
    }
  }

  /** As written, over different memories, if no read stops at four bytes: exactly for payloads that are
      long or start with a byte below 128. (One of a single byte is then never finished.) Without that
      proviso for none (MemoryShowsThrough). */
  lemma OffFourViewDependsOnBytes(f: Frame)
    requires f.Valid()
    ensures Independent(PROBE_WRITTEN, f, OffFour) <==> Recognised(PROBE_WRITTEN, f)
    ensures !Independent(PROBE_WRITTEN, f, All)
  {
    MemoryShowsThrough(f);
    if !Recognised(PROBE_WRITTEN, f) {
      HighDependsOnMemory(f);
      FiveIsAllowed(f, ZEROES, PROBE_WRITTEN);
      FiveIsAllowed(f, ONES, PROBE_WRITTEN);
    } else {
      forall memA: Memory, a: seq<Grant>, memB: Memory, b: seq<Grant>, rest: seq<byte> |
        Allowed(OffFour, PROBE_WRITTEN, f, memA, a, rest) && Allowed(OffFour, PROBE_WRITTEN, f, memB, b, rest)
        ensures SameView(PROBE_WRITTEN, f, memA, a, memB, b, rest)
      {
        AvoidingNeverSplits(Fresh(memA), Socket(f.Bytes() + rest, a), PROBE_WRITTEN);
        AvoidingNeverSplits(Fresh(memB), Socket(f.Bytes() + rest, b), PROBE_WRITTEN);
        SameIf(PROBE_WRITTEN, f, memA, a, memB, b, rest);
      }
    }
  }
}
