/** buffer::socket_read over TLS: a parser that is called again whenever bytes may have arrived
    and keeps its cursor between calls. The socket answers a read with one or more bytes up to the
    count asked for, with "read later", or with an error. */
module Reader {
  import opened VarLength
  import opened Fragment
  import opened Frames
  import opened Options

  /** What the socket does with one read. */
  datatype Grant = Later | Upto(n: nat)

  datatype Socket = Socket(stream: seq<byte>, grants: seq<Grant>)

  type Memory = m: seq<byte> | |m| == MESSAGE_SIZE witness seq(MESSAGE_SIZE, _ => 0)

  /** Where socket_read looks for the last byte of the length field. */
  const PROBE_INTENDED: nat := 3
  const PROBE_WRITTEN: nat := 4

  const SIZE_T: nat := 0x1_0000_0000_0000_0000

  const OVER_SIZE: nat := 20000

  /** What a read of no bytes comes to when there is something to read. */
  const READ_NOTHING: nat := 20007

  /** What a read comes to whose count is negative as an int. */
  const BAD_COUNT: nat := 20008

  /** Not a code of the server's: the model ends where a read would leave the buffer. */
  const OUT_OF_BUFFER: nat := 0

  datatype Result = Again | Done | Pending | Threw(code: nat)

  /** The fields of a buffer that is read into; positions are offsets from header_pos_. */
  datatype Reader = Reader(
    mem: Memory,
    cur: nat,          // current_pos_
    ready: bool,       // isParseMsgReaded_
    parsed: bool,      // isParseFinish_
    finished: bool,    // isFinish_
    last: bool,        // isLastBuf_
    typ: byte,         // data_type_
    len: nat,          // data_length_
    dataPos: nat,      // data_pos_
    endPos: nat,       // end_pos_
    id: nat,           // session_id_
    toParse: nat,      // parse_length_
    remain: nat        // remain_data_length_
  )

  /** A new buffer over whatever malloc returned. */
  function Fresh(mem: Memory): Reader {
    Reader(mem, 0, false, false, false, false, 0, 0, 0, 0, 0, PADDING, 0)
  }

  /** How one read ends. */
  datatype Received = Got(value: seq<byte>) | NotNow | Failed(code: nat)

  /** SSL_read takes its count as an int: a size_t keeps its low 32 bits. */
  function AsInt(count: nat): (n: int)
    ensures count < 0x8000_0000 ==> n == count
    ensures n <= count
  {
    var low := count % 0x1_0000_0000;
    if low < 0x8000_0000 then low else low - 0x1_0000_0000
  }

  /** socket_read with its count: a negative one is an error whatever has arrived, and asking for no
      bytes never succeeds. */
  function Read(s: Socket, count: nat): (r: (Socket, Received))
    ensures r.1.Got? ==> 0 < |r.1.value| <= count && s.stream == r.1.value + r.0.stream
    ensures !r.1.Got? ==> r.0.stream == s.stream
    ensures r.1.Failed? ==> AsInt(count) <= 0
    ensures s.grants != [] ==> r.0.grants == s.grants[1..]
    ensures s.grants == [] ==> r == (s, NotNow)
  {
    if s.grants == [] then (s, NotNow)
    else if AsInt(count) < 0 then (s.(grants := s.grants[1..]), Failed(BAD_COUNT))
    else match s.grants[0]
      case Later => (s.(grants := s.grants[1..]), NotNow)
      case Upto(n) =>
        var k := Min(n, Min(AsInt(count), |s.stream|));
        if k > 0 then (Socket(s.stream[k..], s.grants[1..]), Got(s.stream[..k]))
        else (s.(grants := s.grants[1..]),
              if AsInt(count) == 0 && n > 0 && s.stream != [] then Failed(READ_NOTHING) else NotNow)
  }

  function Min(a: nat, b: nat): nat { if a < b then a else b }

  function Write(mem: Memory, pos: nat, bytes: seq<byte>): Memory
    requires pos + |bytes| <= MESSAGE_SIZE
  {
    mem[..pos] + bytes + mem[pos + |bytes|..]
  }

  /** Does any of the bytes looked at have its top bit clear? */
  predicate Probe(mem: Memory, cur: nat, at: nat)
    requires at + cur <= MESSAGE_SIZE
  {
    exists i :: at <= i < at + cur - 3 && mem[i] < 128
  }

  function TakeHeader(r: Reader, got: seq<byte>, probe: nat): Reader
    requires |got| <= r.toParse && r.cur + |got| <= PADDING && probe <= PROBE_WRITTEN
  {
    var mem := Write(r.mem, r.cur, got);
    var cur := r.cur + |got|;
    r.(mem := mem, cur := cur, toParse := r.toParse - |got|, ready := Probe(mem, cur, probe))
  }

  function ParseStamp(r: Reader): Reader {
    var (id, last) := Unstamp(r.mem[0] as nat * 256 + r.mem[1]);
    r.(id := id, last := last, typ := r.mem[2])
  }

  /** Payload bytes still to come: a size_t, which wraps. */
  function Remaining(len: nat, cur: nat, dataPos: nat): nat {
    (len - (cur - dataPos)) % SIZE_T
  }

  predicate OverSize(remain: nat) {
    (remain + PADDING) % SIZE_T > MESSAGE_SIZE
  }

  /** Session id, type and length. */
  function Parse(r: Reader): (Reader, Option<nat>) {
    var r1 := ParseStamp(r);
    match Decode(r.mem[3..])
    case Malformed => (r1, Some(MALFORMED))
    case Decoded(len, used) =>
      var remain := Remaining(len, r.cur, 3 + used);
      var r2 := r1.(len := len, dataPos := 3 + used, remain := remain, parsed := true);
      (r2, if OverSize(remain) then Some(OVER_SIZE) else None)
  }

  /** The header is refused with 20001 exactly when both length bytes have their top bit set, and with 20000
      exactly when what it says is to come, with five bytes on top, is more than a buffer takes. */
  lemma HeaderCodes(r: Reader)
    requires r.cur <= MESSAGE_SIZE
    ensures Parse(r).1 == Some(20001) <==> r.mem[3] >= 128 && r.mem[4] >= 128
    ensures Parse(r).1 == Some(20000) <==>
              && (r.mem[3] < 128 || r.mem[4] < 128)
              && var (len, start) := if r.mem[3] < 128 then (r.mem[3] as int, 4)
                                     else (r.mem[3] - 128 + 128 * (r.mem[4] as int), 5);
                 len + start - r.cur > 1019 || len + start - r.cur < -5
  {
    assert r.mem[3..][0] == r.mem[3] && r.mem[3..][1] == r.mem[4];
    match Decode(r.mem[3..]) {
      case Malformed =>
      case Decoded(len, used) => TooMuch(len, r.cur, 3 + used);
    }
  }

  lemma TooMuch(len: nat, cur: nat, start: nat)
    requires len < DECODE_LIMIT && cur <= MESSAGE_SIZE && 4 <= start <= 5
    ensures var rest := len + start - cur; OverSize(Remaining(len, cur, start)) <==> rest > 1019 || rest < -5
  {
    var rest := len + start - cur;
    assert Remaining(len, cur, start) == if rest >= 0 then rest else rest + SIZE_T;
  }

  function TakePayload(r: Reader, got: seq<byte>): Reader
    requires |got| <= r.remain && r.cur + |got| <= MESSAGE_SIZE
  {
    var cur := r.cur + |got|;
    r.(mem := Write(r.mem, r.cur, got), cur := cur, endPos := cur, remain := r.remain - |got|,
       finished := r.remain == |got|)
  }

  function PayloadRound(r: Reader, s: Socket): (Reader, Socket, Result) {
    match Read(s, r.remain)
    case (s', NotNow) => (r, s', Pending)
    case (s', Failed(code)) => (r, s', Threw(code))
    case (s', Got(got)) =>
      if r.cur + |got| > MESSAGE_SIZE then (r, s', Threw(OUT_OF_BUFFER))
      else
        var r' := TakePayload(r, got);
        (r', s', if r'.finished then Done else Again)
  }

  function ParseRound(r: Reader, s: Socket): (Reader, Socket, Result) {
    match Parse(r)
    case (r', Some(code)) => (r', s, Threw(code))
    case (r', None) => PayloadRound(r', s)
  }

  predicate HeaderFits(r: Reader) {
    !r.parsed && !r.ready ==> r.cur + r.toParse == PADDING
  }

  /** One call of socket_read: at most one read for the header and one for the payload. */
  function ReadCall(r: Reader, s: Socket, probe: nat): (o: (Reader, Socket, Result))
    requires HeaderFits(r) && probe <= PROBE_WRITTEN
    ensures HeaderFits(o.0)
    ensures s.grants != [] && !o.2.Done? && !o.2.Threw? ==> |o.1.grants| < |s.grants|
  {
    if r.finished then (r, s, Done)
    else if r.parsed then PayloadRound(r, s)
    else if r.ready then ParseRound(r, s)
    else match Read(s, r.toParse)
      case (s', NotNow) => (r, s', Pending)
      case (s', Failed(code)) => (r, s', Threw(code))
      case (s', Got(got)) =>
        var r' := TakeHeader(r, got, probe);
        if r'.ready then ParseRound(r', s') else (r', s', Again)
  }

  /** The read callback only logs an over-long frame and goes on with the same buffer. It closes the
      connection on a failed read. A malformed length is thrown again by every further call, before
      anything is read, so nothing more happens to the buffer either. */
  predicate GoesOn(result: Result) {
    result.Threw? ==> result.code == OVER_SIZE
  }

  /** Calls socket_read again and again, until the buffer is finished or the schedule ends. */
  function Run(r: Reader, s: Socket, probe: nat): (Reader, Socket, Result)
    requires HeaderFits(r) && probe <= PROBE_WRITTEN
    decreases |s.grants|
  {
    if s.grants == [] then (r, s, Pending)
    else
      var (r', s', result) := ReadCall(r, s, probe);
      if result.Done? || result.Threw? then (r', s', result) else Run(r', s', probe)
  }

  /** Every call uses up at least one answer of the socket. */
  lemma ReadCallProgress(r: Reader, s: Socket, probe: nat)
    requires HeaderFits(r) && probe <= PROBE_WRITTEN && !r.finished && s.grants != []
    ensures var (r', s', result) := ReadCall(r, s, probe);
            !result.Threw? ==> |s'.grants| < |s.grants| && (result.Done? <==> r'.finished)
  {
    if !r.parsed && !r.ready {
      assert Read(s, r.toParse).0.grants == s.grants[1..];
    }
  }

  /** A malformed length is thrown by every further call, which reads nothing and changes nothing. */
  lemma MalformedForGood(r: Reader, s: Socket, probe: nat, later: Socket)
    requires HeaderFits(r) && probe <= PROBE_WRITTEN && ReadCall(r, s, probe).2 == Threw(MALFORMED)
    ensures var r' := ReadCall(r, s, probe).0; ReadCall(r', later, probe) == (r', later, Threw(MALFORMED))
  {
    MalformedHeader(r, s, probe);
    MalformedAgain(ReadCall(r, s, probe).0);
  }

  /** The reader that threw it: session id and type are set, and nothing else. */
  predicate AtMalformed(r: Reader) {
    !r.finished && !r.parsed && r.ready && Decode(r.mem[3..]).Malformed? && ParseStamp(r) == r
  }

  lemma StampTwice(h: Reader)
    ensures ParseStamp(ParseStamp(h)) == ParseStamp(h) && ParseStamp(h).mem == h.mem
  {
  }

  lemma MalformedHeader(r: Reader, s: Socket, probe: nat)
    requires HeaderFits(r) && probe <= PROBE_WRITTEN && ReadCall(r, s, probe).2 == Threw(MALFORMED)
    ensures AtMalformed(ReadCall(r, s, probe).0)
  {
    if r.parsed {
      ReadsAreWellFormed(r, s);
    } else if r.ready {
      MalformedParse(r, s);
    } else {
      var (s', got) := Read(s, r.toParse);
      MalformedParse(TakeHeader(r, got.value, probe), s');
    }
  }

  lemma ReadsAreWellFormed(r: Reader, s: Socket)
    ensures PayloadRound(r, s).2 != Threw(MALFORMED)
  {
  }

  lemma MalformedParse(h: Reader, s: Socket)
    requires h.ready && !h.parsed && !h.finished && ParseRound(h, s).2 == Threw(MALFORMED)
    ensures AtMalformed(ParseRound(h, s).0)
  {
    ReadsAreWellFormed(Parse(h).0, s);
    StampTwice(h);
  }

  lemma MalformedAgain(r: Reader)
    requires AtMalformed(r)
    ensures Parse(r) == (r, Some(MALFORMED))
  {
  }

  /** ... or, when it throws without a read, the header has been parsed by it. */
  lemma GoingOnProgress(r: Reader, s: Socket, probe: nat)
    requires HeaderFits(r) && probe <= PROBE_WRITTEN && !r.finished && s.grants != []
    requires GoesOn(ReadCall(r, s, probe).2)
    ensures var (r', s', result) := ReadCall(r, s, probe);
            && (|s'.grants| < |s.grants| || (|s'.grants| == |s.grants| && !r.parsed && r'.parsed))
            && (!result.Done? ==> !r'.finished)
  {
    if !r.parsed && r.ready {
      ParseProgress(r, s);
    } else if !r.parsed {
      var (s', got) := Read(s, r.toParse);
      if got.Got? && TakeHeader(r, got.value, probe).ready {
        ParseProgress(TakeHeader(r, got.value, probe), s');
      }
    }
  }

  lemma ParseProgress(h: Reader, s: Socket)
    requires !h.parsed && !h.finished && GoesOn(ParseRound(h, s).2)
    ensures var (r', s', result) := ParseRound(h, s);
            |s'.grants| <= |s.grants| && r'.parsed && (!result.Done? ==> !r'.finished)
  {
  }

  /** The next read leaves the cursor at exactly four bytes. */
  predicate LandsOnFour(r: Reader, s: Socket) {
    && !r.parsed && !r.ready && Read(s, r.toParse).1.Got?
    && r.cur + |Read(s, r.toParse).1.value| == 4
  }

  /** ... and this is in the middle of a two-byte length. */
  predicate SplitsLength(r: Reader, s: Socket)
    requires HeaderFits(r)
  {
    LandsOnFour(r, s) && Write(r.mem, r.cur, Read(s, r.toParse).1.value)[3] >= 128
  }

  /** No read of the schedule stops a buffer in the middle of a two-byte length. */
  predicate NeverSplits(r: Reader, s: Socket, probe: nat)
    requires HeaderFits(r) && probe <= PROBE_WRITTEN
    decreases |s.grants|
  {
    s.grants == [] ||
    (!SplitsLength(r, s) &&
     var (r', s', result) := ReadCall(r, s, probe);
     result.Done? || result.Threw? || NeverSplits(r', s', probe))
  }

  // ---- What the reader's fields are after c bytes of a frame ----

  ghost predicate BeforeParse(r: Reader, f: Frame, c: nat) {
    && c <= 4 && c <= |f.Bytes()|
    && r.cur == c && r.mem[..c] == f.Bytes()[..c]
    && !r.ready && !r.parsed && !r.finished
    && r.toParse == PADDING - c && r.dataPos == 0
  }

  ghost predicate AfterParse(r: Reader, f: Frame, c: nat) {
    && f.HeaderSize() <= c <= |f.Bytes()| <= MESSAGE_SIZE
    && r.cur == c && r.mem[..c] == f.Bytes()[..c]
    && r.ready && r.parsed
    && r.last == f.last && r.typ == f.typ && r.id == f.id
    && r.len == |f.payload| && r.dataPos == f.HeaderSize()
    && r.remain == |f.Bytes()| - c
    && (r.finished ==> c == |f.Bytes()|)
    && (c == |f.Bytes()| && !r.finished ==> |f.payload| == 1)
  }

  ghost predicate Midway(r: Reader, f: Frame, c: nat) {
    BeforeParse(r, f, c) || AfterParse(r, f, c)
  }

  /** The frames for which five header bytes always end the header phase. */
  predicate Recognised(probe: nat, f: Frame)
    requires f.payload != []
  {
    probe == PROBE_INTENDED || |f.payload| >= 128 || f.payload[0] < 128
  }

  /** A stop after four bytes does no harm. */
  predicate StopOk(probe: nat, f: Frame, r: Reader, s: Socket) {
    probe == PROBE_INTENDED || |f.payload| < 128 || !LandsOnFour(r, s)
  }

  /** In a frame, a stop after four bytes that does harm is one that splits its length. */
  lemma StopSplits(probe: nat, f: Frame, r: Reader, s: Socket, c: nat, rest: seq<byte>)
    requires f.Valid() && Midway(r, f, c) && HeaderFits(r)
    requires s.stream == f.Bytes()[c..] + rest
    requires !SplitsLength(r, s)
    ensures StopOk(probe, f, r, s)
  {
    if LandsOnFour(r, s) {
      HeaderShape(f);
      var got := Read(s, r.toParse).1.value;
      SplitStream(s.stream, f.Bytes(), c, |got|, rest);
      var mem := Write(r.mem, c, got);
      assert f.Bytes()[..4] == f.Bytes()[..c] + f.Bytes()[c..4];
      assert mem[..4] == f.Bytes()[..4];
      assert mem[3] == f.Bytes()[3];
    }
  }

  lemma WriteExtends(mem: Memory, b: seq<byte>, c: nat, k: nat)
    requires c + k <= |b| && c + k <= MESSAGE_SIZE && mem[..c] == b[..c]
    ensures Write(mem, c, b[c..c + k])[..c + k] == b[..c + k]
  {
    assert b[..c + k] == b[..c] + b[c..c + k];
  }

  /** Whether the look at the length bytes finds its end, from the first c bytes of a frame. */
  lemma HeaderSeen(mem: Memory, f: Frame, c: nat, probe: nat)
    requires f.Valid() && c <= PADDING <= |f.Bytes()| && mem[..c] == f.Bytes()[..c]
    requires probe == PROBE_INTENDED || probe == PROBE_WRITTEN
    requires Recognised(probe, f)
    requires probe == PROBE_INTENDED || |f.payload| < 128 || c != 4
    ensures c == PADDING ==> Probe(mem, c, probe)
    ensures Probe(mem, c, probe) ==> f.HeaderSize() <= c
    ensures probe == PROBE_INTENDED ==> (Probe(mem, c, probe) <==> f.HeaderSize() <= c)
  {
    HeaderShape(f);
    var b := f.Bytes();
    if c == 5 {
      assert mem[3] == mem[..c][3] == b[3] && mem[4] == mem[..c][4] == b[4];
      assert b[4] == if |f.payload| < 128 then b[f.HeaderSize()..][0] else |f.payload| / 128;
    } else if c == 4 {
      assert mem[3] == mem[..c][3] == b[3];
    }
  }

  lemma TakeHeaderKeeps(r: Reader, f: Frame, c: nat, k: nat, probe: nat)
    requires f.Valid() && BeforeParse(r, f, c) && c + k <= PADDING
    requires probe == PROBE_INTENDED || probe == PROBE_WRITTEN
    requires Recognised(probe, f)
    requires probe == PROBE_INTENDED || |f.payload| < 128 || c + k != 4
    ensures |f.Bytes()| >= PADDING
    ensures var r' := TakeHeader(r, f.Bytes()[c..c + k], probe);
            && r'.mem[..c + k] == f.Bytes()[..c + k]
            && (!r'.ready ==> BeforeParse(r', f, c + k))
            && (r'.ready ==> f.HeaderSize() <= c + k)
            && (probe == PROBE_INTENDED ==> (r'.ready <==> f.HeaderSize() <= c + k))
  {
    HeaderShape(f);
    WriteExtends(r.mem, f.Bytes(), c, k);
    HeaderSeen(Write(r.mem, c, f.Bytes()[c..c + k]), f, c + k, probe);
  }

  lemma LengthDecodes(mem: Memory, f: Frame, c: nat)
    requires f.Valid() && f.HeaderSize() <= c <= |f.Bytes()| && c <= PADDING
    requires mem[..c] == f.Bytes()[..c]
    ensures Decode(mem[3..]) == Decoded(|f.payload|, f.HeaderSize() - 3)
    ensures ParseStamp(Fresh(mem)).id == f.id && ParseStamp(Fresh(mem)).last == f.last && mem[2] == f.typ
  {
    HeaderShape(f);
    StampRoundTrip(f.id, f.last);
    assert forall i :: 0 <= i < c ==> mem[i] == f.Bytes()[i];
    assert mem[3..][0] == mem[3];
    assert mem[3..][1] == mem[4];
  }

  lemma ParseOf(r: Reader, len: nat, used: nat)
    requires Decode(r.mem[3..]) == Decoded(len, used)
    ensures var remain := Remaining(len, r.cur, 3 + used);
            && Parse(r).0 == ParseStamp(r).(len := len, dataPos := 3 + used, remain := remain, parsed := true)
            && (Parse(r).1.None? <==> !OverSize(remain))
  {
  }

  lemma ParseKeeps(r: Reader, f: Frame, c: nat)
    requires f.Valid() && f.HeaderSize() <= c <= PADDING <= |f.Bytes()|
    requires r.cur == c && r.mem[..c] == f.Bytes()[..c]
    requires r.ready && !r.finished
    ensures Parse(r).1.None? && AfterParse(Parse(r).0, f, c)
  {
    HeaderShape(f);
    LengthDecodes(r.mem, f, c);
    ParseOf(r, |f.payload|, f.HeaderSize() - 3);
    RemainingIs(|f.payload|, c, f.HeaderSize(), |f.Bytes()|);
  }

  lemma RemainingIs(len: nat, cur: nat, dataPos: nat, size: nat)
    requires size == dataPos + len && dataPos <= cur <= size <= MESSAGE_SIZE
    ensures Remaining(len, cur, dataPos) == size - cur
  {
  }

  /** What a decoded length leaves to read, when it reaches as far as the cursor. */
  lemma RemainBound(len: nat, cur: nat, used: nat)
    requires 4 <= cur <= 5 && 1 <= used <= 2 && len < DECODE_LIMIT && cur <= len + 3 + used
    ensures var remain := Remaining(len, cur, 3 + used);
            && remain == len + 3 + used - cur
            && (!OverSize(remain) ==> cur + remain <= MESSAGE_SIZE)
            && (OverSize(remain) ==> len > MAX_PIECE || cur < 3 + used)
  {
  }

  lemma TakePayloadKeeps(r: Reader, f: Frame, c: nat, k: nat)
    requires AfterParse(r, f, c) && !r.finished && c + k <= |f.Bytes()|
    ensures AfterParse(TakePayload(r, f.Bytes()[c..c + k]), f, c + k)
    ensures TakePayload(r, f.Bytes()[c..c + k]).finished <==> c + k == |f.Bytes()|
  {
    assert f.Bytes()[..c + k] == f.Bytes()[..c] + f.Bytes()[c..c + k];
  }

  /** Reading k bytes of what is left of b. */
  lemma SplitStream(stream: seq<byte>, b: seq<byte>, c: nat, k: nat, rest: seq<byte>)
    requires c + k <= |b| && stream == b[c..] + rest
    ensures stream[..k] == b[c..c + k] && stream[k..] == b[c + k..] + rest
  {
  }

  /** The only error inside a frame: with one payload byte, which came with the header, nothing is left
      to ask for. */
  predicate Harmless(f: Frame, result: Result) {
    result.Threw? ==> |f.payload| == 1 && result.code == READ_NOTHING
  }

  lemma PayloadRoundKeeps(r: Reader, s: Socket, f: Frame, c: nat, rest: seq<byte>) returns (c': nat)
    requires f.Valid() && AfterParse(r, f, c) && !r.finished
    requires s.stream == f.Bytes()[c..] + rest
    ensures c <= c' && var (r', s', result) := PayloadRound(r, s);
            && AfterParse(r', f, c') && s'.stream == f.Bytes()[c'..] + rest
            && Harmless(f, result) && (result.Done? <==> r'.finished)
    ensures |f.payload| >= 2 && s.grants != [] && s.grants[0].Upto? && s.grants[0].n >= MESSAGE_SIZE
            ==> PayloadRound(r, s).2.Done?
  {
    var (s', got) := Read(s, r.remain);
    match got {
      case NotNow => c' := c;
      case Failed(_) => c' := c;
      case Got(bytes) =>
        c' := c + |bytes|;
        SplitStream(s.stream, f.Bytes(), c, |bytes|, rest);
        TakePayloadKeeps(r, f, c, |bytes|);
    }
  }

  lemma HeaderRoundKeeps(r: Reader, s: Socket, probe: nat, f: Frame, c: nat, rest: seq<byte>) returns (c': nat)
    requires f.Valid() && BeforeParse(r, f, c)
    requires s.stream == f.Bytes()[c..] + rest
    requires probe == PROBE_INTENDED || probe == PROBE_WRITTEN
    requires Recognised(probe, f) && StopOk(probe, f, r, s)
    requires Read(s, r.toParse).1.Got?
    ensures var (s', got) := Read(s, r.toParse);
            && c <= c' <= PADDING <= |f.Bytes()|
            && got.value == f.Bytes()[c..c'] && s'.stream == f.Bytes()[c'..] + rest
            && var r' := TakeHeader(r, got.value, probe);
            && (r'.ready ==> f.HeaderSize() <= c' && r'.mem[..c'] == f.Bytes()[..c'])
            && (!r'.ready ==> BeforeParse(r', f, c'))
            && (probe == PROBE_INTENDED ==> (r'.ready <==> f.HeaderSize() <= c'))
  {
    HeaderShape(f);
    var (s', got) := Read(s, r.toParse);
    c' := c + |got.value|;
    SplitStream(s.stream, f.Bytes(), c, |got.value|, rest);
    TakeHeaderKeeps(r, f, c, |got.value|, probe);
  }

  /** The heart of the matter: a call on any schedule takes the reader from one point inside the
      frame to a later one, throws at most the one error, and never touches a byte behind the frame. */
  lemma ReadCallKeeps(r: Reader, s: Socket, probe: nat, f: Frame, c: nat, rest: seq<byte>) returns (c': nat)
    requires f.Valid() && Midway(r, f, c) && !r.finished
    requires s.stream == f.Bytes()[c..] + rest
    requires probe == PROBE_INTENDED || probe == PROBE_WRITTEN
    requires Recognised(probe, f) && StopOk(probe, f, r, s)
    ensures c <= c' && var (r', s', result) := ReadCall(r, s, probe);
            && Midway(r', f, c') && s'.stream == f.Bytes()[c'..] + rest
            && Harmless(f, result) && (result.Done? <==> r'.finished)
            && (probe == PROBE_INTENDED && (r.parsed <==> f.HeaderSize() <= c) ==>
                (r'.parsed <==> f.HeaderSize() <= c'))
  {
    if r.parsed {
      c' := PayloadRoundKeeps(r, s, f, c, rest);
    } else if Read(s, r.toParse).1.NotNow? {
      c' := c;
    } else {
      c' := HeaderRoundKeeps(r, s, probe, f, c, rest);
      var (s', got) := Read(s, r.toParse);
      var r' := TakeHeader(r, got.value, probe);
      if r'.ready {
        ParseKeeps(r', f, c');
        c' := PayloadRoundKeeps(Parse(r').0, s', f, c', rest);
      }
    }
  }

  /** Iterated: a whole run stays inside the frame. */
  lemma {:induction false} RunKeeps(r: Reader, s: Socket, probe: nat, f: Frame, c: nat, rest: seq<byte>)
      returns (c': nat)
    requires f.Valid() && Midway(r, f, c) && !r.finished
    requires s.stream == f.Bytes()[c..] + rest
    requires probe == PROBE_INTENDED || probe == PROBE_WRITTEN
    requires Recognised(probe, f)
    requires probe == PROBE_INTENDED || |f.payload| < 128 || NeverSplits(r, s, probe)
    ensures c <= c' && var (r', s', result) := Run(r, s, probe);
            && Midway(r', f, c') && s'.stream == f.Bytes()[c'..] + rest
            && Harmless(f, result) && (result.Done? <==> r'.finished)
            && (probe == PROBE_INTENDED && (r.parsed <==> f.HeaderSize() <= c) ==>
                (r'.parsed <==> f.HeaderSize() <= c'))
    decreases |s.grants|
  {
    if s.grants == [] {
      c' := c;
    } else {
      if probe == PROBE_WRITTEN && |f.payload| >= 128 {
        StopSplits(probe, f, r, s, c, rest);
      }
      var d := ReadCallKeeps(r, s, probe, f, c, rest);
      var (r', s', result) := ReadCall(r, s, probe);
      if result.Done? || result.Threw? {
        c' := d;
      } else {
        c' := RunKeeps(r', s', probe, f, d, rest);
      }
    }
  }
}
