/** The wire format: [session id, top bit = last][type][payload size][payload]. */
module Frames {
  import opened VarLength
  import opened Fragment

  const LAST_FLAG: nat := 32768
  const MIN_SESSION_ID: nat := 100
  const MAX_SESSION_ID: nat := 32767
  const UINT16: nat := 65536

  /** The types that peer servers send. */
  const SERVER_CONNECT: byte := 42
  const SERVER_DISCONNECT: byte := 43

  datatype Frame = Frame(id: nat, last: bool, typ: byte, payload: seq<byte>) {
    /** What the server's own sender puts on the wire for a non-empty message. */
    predicate Valid() {
      id <= MAX_SESSION_ID && 1 <= |payload| <= MAX_PIECE
    }

    function HeaderSize(): nat {
      3 + |Encode(|payload|)|
    }

    function Bytes(): seq<byte> {
      StampBytes(id, last) + Body(typ, payload)
    }
  }

  /** The session id and the flag in network order. */
  function StampBytes(id: nat, last: bool): seq<byte> {
    [Stamp(id, last) / 256, Stamp(id, last) % 256]
  }

  /** What encoding writes behind them. */
  function Body(typ: byte, payload: seq<byte>): seq<byte> {
    [typ] + Encode(|payload|) + payload
  }

  /** The 16 bits set_sessionid stores: the addition of the flag wraps in a uint16_t. */
  function Stamp(id: nat, last: bool): (h: nat)
    ensures h < UINT16
  {
    (id + if last then LAST_FLAG else 0) % UINT16
  }

  /** How the reader splits those bits again. */
  function Unstamp(h: nat): (nat, bool) {
    if h >= LAST_FLAG then (h - LAST_FLAG, true) else (h, false)
  }

  /** Id and flag survive the 16 bits exactly for ids up to MaxSessionID: set_sessionid only logs
      a larger one, and the receiver then sees another id with the opposite flag. */
  lemma StampRoundTrip(id: nat, last: bool)
    requires id < UINT16
    ensures Unstamp(Stamp(id, last)) == (id, last) <==> id <= 32767
    ensures id > 32767 ==> Unstamp(Stamp(id, last)) == (id - 32768, !last)
  {
    assert last && id > MAX_SESSION_ID ==> Stamp(id, last) == id - LAST_FLAG;
  }

  lemma HeaderShape(f: Frame)
    requires |f.payload| <= MAX_PIECE
    ensures f.HeaderSize() == if |f.payload| < 128 then 4 else 5
    ensures |f.Bytes()| == f.HeaderSize() + |f.payload| <= MESSAGE_SIZE
    ensures f.Bytes()[f.HeaderSize()..] == f.payload
    ensures f.Bytes()[0] as nat * 256 + f.Bytes()[1] == Stamp(f.id, f.last)
    ensures f.Bytes()[2] == f.typ
    ensures |f.payload| < 128 ==> f.Bytes()[3] == |f.payload|
    ensures |f.payload| >= 128 ==> f.Bytes()[3] == 128 + |f.payload| % 128 && f.Bytes()[4] == |f.payload| / 128
  {
    EncodeLength(|f.payload|);
  }

  function Wire(frames: seq<Frame>): seq<byte> {
    if frames == [] then [] else frames[0].Bytes() + Wire(frames[1..])
  }

  lemma Associative<T>(x: seq<T>, y: seq<T>, z: seq<T>)
    ensures x + (y + z) == x + y + z
  {
  }

  lemma {:induction false} WireAppend(a: seq<Frame>, b: seq<Frame>)
    ensures Wire(a + b) == Wire(a) + Wire(b)
  {
    if a == [] {
      assert a + b == b;
    } else {
      WireAppend(a[1..], b);
      assert (a + b)[0] == a[0] && (a + b)[1..] == a[1..] + b;
      Associative(a[0].Bytes(), Wire(a[1..]), Wire(b));
    }
  }

  datatype Message = Message(typ: byte, id: nat, data: seq<byte>) {
    predicate Valid() {
      id <= MAX_SESSION_ID && data != []
    }

    /** One frame per piece, the flag on the final one. */
    function Frames(): seq<Frame> {
      var pieces := Pieces(data);
      seq(|pieces|, i requires 0 <= i < |pieces| => Frame(id, i == |pieces| - 1, typ, pieces[i]))
    }
  }

  function AllFrames(messages: seq<Message>): seq<Frame> {
    if messages == [] then [] else messages[0].Frames() + AllFrames(messages[1..])
  }

  lemma {:induction false} AllFramesAppend(a: seq<Message>, b: seq<Message>)
    ensures AllFrames(a + b) == AllFrames(a) + AllFrames(b)
  {
    if a == [] {
      assert a + b == b;
    } else {
      AllFramesAppend(a[1..], b);
      assert (a + b)[0] == a[0] && (a + b)[1..] == a[1..] + b;
      Associative(a[0].Frames(), AllFrames(a[1..]), AllFrames(b));
    }
  }

  lemma FramesAreValid(m: Message)
    requires m.Valid()
    ensures m.Frames() != []
    ensures forall f :: f in m.Frames() ==> f.Valid()
  {
    PiecesIsCut(m.data);
  }

  lemma {:induction false} AllFramesAreValid(messages: seq<Message>)
    requires forall m :: m in messages ==> m.Valid()
    ensures forall f :: f in AllFrames(messages) ==> f.Valid()
  {
    if messages != [] {
      FramesAreValid(messages[0]);
      AllFramesAreValid(messages[1..]);
    }
  }
}
