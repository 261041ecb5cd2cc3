/** The objects of a connection: the sender that cuts a message into buffers, the write queue the
    worker mounts them on, and the read side that gathers buffers. */
module Connections {
  import opened VarLength
  import opened Fragment
  import opened Frames
  import opened Reader
  import opened ReaderExact
  import opened Buffers
  import opened Reassembly

  function Memories(bufs: seq<Buffer>): set<array<byte>> {
    set i | 0 <= i < |bufs| :: bufs[i].mem
  }

  ghost predicate Distinct(bufs: seq<Buffer>) {
    forall i, j :: 0 <= i < j < |bufs| ==> bufs[i] != bufs[j] && bufs[i].mem != bufs[j].mem
  }

  /** What encoding makes of each piece. */
  function Bodies(t: byte, pieces: seq<seq<byte>>): seq<seq<byte>> {
    if pieces == [] then []
    else Bodies(t, pieces[..|pieces| - 1]) + [Body(t, pieces[|pieces| - 1])]
  }

  lemma BodiesAppend(t: byte, pieces: seq<seq<byte>>, piece: seq<byte>)
    ensures Bodies(t, pieces + [piece]) == Bodies(t, pieces) + [Body(t, piece)]
  {
    assert (pieces + [piece])[..|pieces|] == pieces;
  }

  lemma {:induction false} BodiesAt(t: byte, pieces: seq<seq<byte>>)
    ensures |Bodies(t, pieces)| == |pieces|
    ensures forall k :: 0 <= k < |pieces| ==> Bodies(t, pieces)[k] == Body(t, pieces[k])
  {
    if pieces != [] {
      BodiesAt(t, pieces[..|pieces| - 1]);
    }
  }

  /** buffer::Buffer; a piece always fits. */
  method NewBuffer(t: byte, piece: seq<byte>) returns (buf: Buffer)
    requires |piece| <= MAX_PIECE
    ensures fresh(buf) && fresh(buf.mem) && buf.HoldsBody(Body(t, piece))
  {
    buf := new Buffer();
    var error := buf.Encoding(t, piece);
    assert error.None?;
  }

  /** Where the cutting loop is after i rounds. */
  ghost predicate CutSoFar(data: seq<byte>, i: nat, pos: nat, more: bool, pieces: seq<seq<byte>>) {
    && (more ==> pos == MAX_PIECE * i <= |data| && (i > 0 ==> pos < |data|))
    && pieces + (if more then Pieces(data[pos..]) else []) == Pieces(data)
  }

  lemma CutStart(data: seq<byte>)
    ensures CutSoFar(data, 0, 0, true, [])
  {
    assert data[0..] == data;
  }

  lemma CutEnd(data: seq<byte>, i: nat, pos: nat, pieces: seq<seq<byte>>)
    requires CutSoFar(data, i, pos, false, pieces)
    ensures pieces == Pieces(data)
  {
  }

  lemma CutRound(data: seq<byte>, i: nat, pos: nat, length: nat, pieces: seq<seq<byte>>)
    requires CutSoFar(data, i, pos, true, pieces)
    requires length == if MAX_PIECE * (i + 1) > |data| then |data| else MAX_PIECE
    ensures var piece := Substr(data, pos, length);
            |piece| <= MAX_PIECE && CutSoFar(data, i + 1, pos + length, pos + length < |data|, pieces + [piece])
  {
    var rest, piece := data[pos..], Substr(data, pos, length);
    if |rest| > MAX_PIECE {
      assert piece == rest[..MAX_PIECE] && data[pos + length..] == rest[MAX_PIECE..];
      Associative(pieces, [piece], Pieces(rest[MAX_PIECE..]));
    } else {
      assert piece == rest;
      assert pieces + [piece] + [] == pieces + [piece];
    }
  }

  /** yijianBuffer: on the last round the loop asks for as many bytes as the whole message has, and
      moves pos past the end by that much. */
  method YijianBuffer(t: byte, data: seq<byte>) returns (bufs: seq<Buffer>)
    ensures Distinct(bufs) && forall b :: b in bufs ==> fresh(b) && fresh(b.mem)
    ensures Filled(bufs, Bodies(t, Pieces(data)))
  {
    bufs := [];
    ghost var pieces: seq<seq<byte>> := [];
    var i: nat, pos: nat, length: nat := 0, 0, 0;
    var more := true;
    CutStart(data);
    while more
      invariant CutSoFar(data, i, pos, more, pieces)
      invariant Distinct(bufs) && forall b :: b in bufs ==> fresh(b) && fresh(b.mem)
      invariant Filled(bufs, Bodies(t, pieces))
      decreases if more then |data| + 1 - pos else 0
    {
      if MAX_PIECE * (i + 1) > |data| {
        length := |data|;
      } else {
        length := MAX_PIECE;
      }
      var piece := Substr(data, pos, length);
      CutRound(data, i, pos, length, pieces);
      bufs := AddBuffer(t, piece, bufs, pieces);
      i := i + 1;
      pos := pos + length;
      more := pos < |data|;
      pieces := pieces + [piece];
    }
    CutEnd(data, i, pos, pieces);
  }

  /** One more piece in a buffer of its own. */
  method AddBuffer(t: byte, piece: seq<byte>, before: seq<Buffer>, ghost pieces: seq<seq<byte>>)
    returns (bufs: seq<Buffer>)
    requires |piece| <= MAX_PIECE && Distinct(before) && Filled(before, Bodies(t, pieces))
    ensures |bufs| == |before| + 1 && bufs[..|before|] == before
    ensures fresh(bufs[|before|]) && fresh(bufs[|before|].mem)
    ensures Distinct(bufs) && Filled(bufs, Bodies(t, pieces + [piece]))
  {
    BodiesAppend(t, pieces, piece);
    var buf := NewBuffer(t, piece);
    bufs := before + [buf];
    forall k | 0 <= k < |bufs| ensures bufs[k].HoldsBody(Bodies(t, pieces + [piece])[k]) {
      assert k < |before| ==> bufs[k] == before[k];
    }
  }

  ghost predicate Filled(bufs: seq<Buffer>, bodies: seq<seq<byte>>)
    reads bufs, Memories(bufs)
  {
    |bufs| == |bodies| && forall k :: 0 <= k < |bufs| ==> bufs[k].HoldsBody(bodies[k])
  }

  /** all is the queue as it will be: its first buffers carry what was queued before, the rest hold
      their bodies, and those before i are stamped. */
  ghost predicate StampedUpTo(wire: seq<seq<byte>>, all: seq<Buffer>, i: nat, id: nat, bodies: seq<seq<byte>>)
    reads all, Memories(all)
  {
    && |wire| <= i <= |all| == |bodies|
    && (forall k :: 0 <= k < |wire| ==> all[k].Carries(wire[k]))
    && (forall k :: |wire| <= k < |all| ==> all[k].HoldsBody(bodies[k]))
    && (forall k :: |wire| <= k < i ==> all[k].Carries(StampBytes(id, false) + bodies[k]))
  }

  method StampOne(ghost wire: seq<seq<byte>>, ghost all: seq<Buffer>, ghost i: nat, sp: Buffer, id: nat,
                  ghost bodies: seq<seq<byte>>)
    requires Distinct(all) && id < UINT16 && i < |all| && sp == all[i] && StampedUpTo(wire, all, i, id, bodies)
    modifies sp, sp.mem
    ensures StampedUpTo(wire, all, i + 1, id, bodies)
  {
    sp.SetSessionId(id, false, bodies[i]);
  }

  lemma PrefixGrows<T>(all: seq<T>, front: seq<T>, back: seq<T>, i: nat)
    requires all == front + back && i < |back|
    ensures all[|front| + i] == back[i] && all[..|front| + i + 1] == all[..|front| + i] + [back[i]]
  {
  }

  /** The write side of a connection. */
  class WriteIO {
    var queue: seq<Buffer>            // buffers_p
    ghost var wire: seq<seq<byte>>    // what the queued buffers will put on the wire

    ghost predicate Valid()
      reads this, queue, Memories(queue)
    {
      && Distinct(queue) && |queue| == |wire|
      && forall k :: 0 <= k < |queue| ==> queue[k].Carries(wire[k])
    }

    constructor ()
      ensures Valid() && wire == []
    {
      queue, wire := [], [];
    }

    method StampOneAndPush(ghost all: seq<Buffer>, ghost i: nat, sp: Buffer, id: nat, ghost bodies: seq<seq<byte>>)
      requires Distinct(all) && id < UINT16 && i < |all| && sp == all[i] && StampedUpTo(wire, all, i, id, bodies)
      modifies this`queue, sp, sp.mem
      ensures StampedUpTo(wire, all, i + 1, id, bodies) && queue == old(queue) + [sp]
    {
      StampOne(wire, all, i, sp, id, bodies);
      queue := queue + [sp];
    }

    /** The loop of mountBuffer2Node: every buffer is stamped without the last flag and pushed. */
    method StampAndPush(bufs: seq<Buffer>, id: nat, ghost all: seq<Buffer>, ghost bodies: seq<seq<byte>>)
      requires all == queue + bufs && Distinct(all) && id < UINT16
      requires |queue| == |wire| && StampedUpTo(wire, all, |wire|, id, bodies)
      modifies this`queue, bufs, Memories(bufs)
      ensures queue == all && StampedUpTo(wire, all, |all|, id, bodies)
    {
      ghost var n := |queue|;
      var i := 0;
      while i < |bufs|
        invariant 0 <= i <= |bufs| && queue == all[..n + i]
        invariant StampedUpTo(wire, all, n + i, id, bodies)
      {
        PrefixGrows(all, old(queue), bufs, i);
        StampOneAndPush(all, n + i, bufs[i], id, bodies);
        i := i + 1;
      }
    }

    /** mountBuffer2Node for the requesting device: after the loop the final buffer, already in the
        queue, is stamped again, with the last flag. */
    method Mount(bufs: seq<Buffer>, id: nat, ghost all: seq<Buffer>, ghost bodies: seq<seq<byte>>)
      requires Valid() && id < UINT16 && bufs != []
      requires all == queue + bufs && Distinct(all) && |bodies| == |all|
      requires forall k :: |queue| <= k < |all| ==> all[k].HoldsBody(bodies[k])
      modifies this, bufs, Memories(bufs)
      ensures Valid() && queue == old(queue) + bufs
      ensures wire == old(wire) + Stamped(id, bodies[old(|wire|)..])
    {
      StampAndPush(bufs, id, all, bodies);
      ghost var w := FlagLast(bufs[|bufs| - 1], id, all, bodies);
      wire := w;
    }

    method FlagLast(back: Buffer, id: nat, ghost all: seq<Buffer>, ghost bodies: seq<seq<byte>>)
      returns (ghost w: seq<seq<byte>>)
      requires Distinct(all) && id < UINT16 && |wire| < |all| && back == all[|all| - 1]
      requires StampedUpTo(wire, all, |all|, id, bodies)
      modifies back, back.mem
      ensures |w| == |all| && forall k :: 0 <= k < |all| ==> all[k].Carries(w[k])
      ensures w == wire + Stamped(id, bodies[|wire|..])
    {
      w := StampedFrom(wire, id, bodies);
      StampedFromIs(wire, id, bodies);
      forall k | 0 <= k < |all| - 1 ensures all[k].Carries(w[k]) {
        assert w[k] == if k < |wire| then wire[k] else StampBytes(id, false) + bodies[k];
      }
      Restamp(back, id, all, w, bodies[|all| - 1]);
    }

    /** The sending part of the write callback. Front and pop happen under the queue's lock and only
        here, so the front is still the front after the write; an empty queue stops the watcher. */
    method WriteFront(tls: Tls, accepted: bool) returns (stop: bool)
      requires Valid()
      modifies this, queue, tls`sent
      ensures Valid() && (stop <==> old(queue) == [])
      ensures stop || !accepted ==> wire == old(wire) && tls.sent == old(tls.sent)
      ensures !stop && accepted ==> wire == old(wire)[1..] && tls.sent == old(tls.sent) + old(wire)[0]
    {
      if queue == [] {
        return true;
      }
      var front := queue[0];
      var done := front.SocketWrite(tls, accepted, wire[0]);
      if done {
        queue, wire := queue[1..], wire[1..];
      }
      return false;
    }
  }

  /** The final buffer stamped again, now with the last flag; the others keep what they carry. */
  method Restamp(back: Buffer, id: nat, ghost all: seq<Buffer>, ghost w: seq<seq<byte>>, ghost body: seq<byte>)
    requires Distinct(all) && id < UINT16 && all != [] && back == all[|all| - 1] && |w| == |all|
    requires back.HoldsBody(body) && w[|all| - 1] == StampBytes(id, true) + body
    requires forall k :: 0 <= k < |all| - 1 ==> all[k].Carries(w[k])
    modifies back, back.mem
    ensures forall k :: 0 <= k < |all| ==> all[k].Carries(w[k])
  {
    back.SetSessionId(id, true, body);
    forall k | 0 <= k < |all| ensures all[k].Carries(w[k]) {
      if k < |all| - 1 {
        assert all[k] != all[|all| - 1] && all[k].mem != all[|all| - 1].mem;
      }
    }
  }

  /** Bodies behind their session ids, the final one flagged. */
  ghost function Stamped(id: nat, bodies: seq<seq<byte>>): (w: seq<seq<byte>>)
    ensures |w| == |bodies|
    ensures forall k :: 0 <= k < |w| ==> w[k] == StampBytes(id, k == |w| - 1) + bodies[k]
  {
    seq(|bodies|, k requires 0 <= k < |bodies| => StampBytes(id, k == |bodies| - 1) + bodies[k])
  }

  ghost function StampedFrom(wire: seq<seq<byte>>, id: nat, bodies: seq<seq<byte>>): (w: seq<seq<byte>>)
    ensures |w| == |bodies|
    ensures forall k :: 0 <= k < |w| ==>
              w[k] == if k < |wire| then wire[k] else StampBytes(id, k == |w| - 1) + bodies[k]
  {
    seq(|bodies|, k requires 0 <= k < |bodies| =>
      if k < |wire| then wire[k] else StampBytes(id, k == |bodies| - 1) + bodies[k])
  }

  lemma StampedFromIs(wire: seq<seq<byte>>, id: nat, bodies: seq<seq<byte>>)
    requires |wire| <= |bodies|
    ensures StampedFrom(wire, id, bodies) == wire + Stamped(id, bodies[|wire|..])
  {
    var w := Stamped(id, bodies[|wire|..]);
    forall k | |wire| <= k < |bodies|
      ensures StampedFrom(wire, id, bodies)[k] == w[k - |wire|]
    {
      assert bodies[|wire|..][k - |wire|] == bodies[k];
    }
  }

  /** What is mounted for a message is what its frames are. */
  lemma StampedIsWire(m: Message)
    ensures Join(Stamped(m.id, Bodies(m.typ, Pieces(m.data)))) == Wire(m.Frames())
  {
    BodiesAt(m.typ, Pieces(m.data));
    JoinIsWire(Stamped(m.id, Bodies(m.typ, Pieces(m.data))), m.Frames());
  }

  lemma {:induction false} JoinIsWire(w: seq<seq<byte>>, fs: seq<Frame>)
    requires |w| == |fs| && forall k :: 0 <= k < |w| ==> w[k] == fs[k].Bytes()
    ensures Join(w) == Wire(fs)
  {
    if w != [] {
      JoinIsWire(w[1..], fs[1..]);
    }
  }

  /** The payload of one gathered buffer. */
  method Data(b: Buffer) returns (data: seq<byte>)
    requires b.mem.Length == MESSAGE_SIZE
    ensures data == Payload(b.AsReader())
  {
    data := if b.dataPos + b.len <= MESSAGE_SIZE then b.mem[b.dataPos..b.dataPos + b.len] else [];
  }

  /** dispatch's loop over the gathered buffers. */
  method Concatenate(bufs: seq<Buffer>) returns (data: seq<byte>)
    requires forall k :: 0 <= k < |bufs| ==> bufs[k].mem.Length == MESSAGE_SIZE
    ensures data == Payloads(Readers(bufs))
  {
    data := [];
    ghost var readers := Readers(bufs);
    var i := 0;
    while i < |bufs|
      invariant 0 <= i <= |bufs|
      invariant data == Payloads(readers[..i])
    {
      var more := Data(bufs[i]);
      data := data + more;
      PayloadsUpTo(readers, i);
      i := i + 1;
    }
    assert readers[..|bufs|] == readers == Readers(bufs);
  }

  /** Reading into one buffer; those in front of it keep what they have. */
  method ReadInto(ghost front: seq<Buffer>, back: Buffer, tls: Tls, probe: nat) returns (result: Result)
    requires forall k :: 0 <= k < |front| ==> front[k].mem.Length == MESSAGE_SIZE
    requires forall k :: 0 <= k < |front| ==> front[k] != back && front[k].mem != back.mem
    requires back.Fits() && (probe == PROBE_INTENDED || probe == PROBE_WRITTEN)
    modifies back, back.mem, tls`stream, tls`grants
    ensures back.Fits() && Readers(front) == old(Readers(front))
    ensures (back.AsReader(), tls.Reading(), result) == ReadCall(old(back.AsReader()), old(tls.Reading()), probe)
  {
    ghost var before := Readers(front);
    result := back.SocketRead(tls, probe);
    forall k | 0 <= k < |front| ensures Readers(front)[k] == before[k] {
      assert front[k].AsReader() == old(front[k].AsReader());
    }
  }

  /** The read side of a connection. */
  class ReadIO {
    var bufs: seq<Buffer>         // buffer_sp_v
    var handed: seq<Message>      // what dispatch got
    ghost var made: nat

    ghost predicate Valid()
      reads this, bufs
    {
      && Distinct(bufs)
      && (forall k :: 0 <= k < |bufs| ==> bufs[k].mem.Length == MESSAGE_SIZE)
      && (bufs != [] ==> bufs[|bufs| - 1].Fits())
    }

    ghost function AsConn(): Conn
      reads this, bufs, Memories(bufs)
      requires Valid()
    {
      Conn(Readers(bufs), handed, made)
    }

    constructor ()
      ensures Valid() && AsConn() == NEW_CONN
    {
      bufs, handed, made := [], [], 0;
    }

    /** One more buffer. */
    method Add() returns (ghost mem: Memory)
      requires Distinct(bufs) && forall k :: 0 <= k < |bufs| ==> bufs[k].mem.Length == MESSAGE_SIZE
      modifies this`bufs, this`made
      ensures |bufs| == old(|bufs|) + 1 && bufs[..old(|bufs|)] == old(bufs) && made == old(made) + 1
      ensures Valid() && fresh(bufs[|bufs| - 1]) && fresh(bufs[|bufs| - 1].mem)
      ensures Readers(bufs) == old(Readers(bufs)) + [Fresh(mem)]
    {
      var buf := new Buffer();
      mem := buf.mem[..];
      bufs, made := bufs + [buf], made + 1;
    }

    /** The callback makes a buffer when it has none. */
    method Prepare() returns (ghost mem: Memory)
      requires Valid()
      modifies this`bufs, this`made
      ensures Valid() && bufs != []
      ensures bufs == old(bufs) || (fresh(bufs[0]) && fresh(bufs[0].mem) && bufs == [bufs[0]])
      ensures AsConn() == Prepared(old(AsConn()), mem)
    {
      mem := ZEROES;
      if bufs == [] {
        mem := Add();
      }
    }

    /** A finished frame: gather more, or hand the message over. */
    method Finished() returns (ghost mem: Memory)
      requires Valid() && bufs != []
      modifies this
      ensures Valid()
      ensures AsConn() == AfterFrame(old(AsConn()), mem)
    {
      var back := bufs[|bufs| - 1];
      mem := ZEROES;
      ghost var conn := AsConn();
      assert conn.bufs[|conn.bufs| - 1] == back.AsReader();
      if back.last {
        var data := Concatenate(bufs);
        assert Readers(bufs) == conn.bufs;
        assert Gathered(conn.bufs) == Message(back.typ, back.id, data);
        if back.typ != SERVER_CONNECT && back.typ != SERVER_DISCONNECT {
          handed := handed + [Message(back.typ, back.id, data)];
        }
        bufs := [];
      } else {
        mem := Add();
      }
    }

    /** Reading goes into the newest buffer; the others keep what they have. */
    method ReadBack(tls: Tls, probe: nat) returns (result: Result)
      requires Valid() && bufs != []
      requires probe == PROBE_INTENDED || probe == PROBE_WRITTEN
      modifies bufs[|bufs| - 1], bufs[|bufs| - 1].mem, tls`stream, tls`grants
      ensures Valid()
      ensures var p := old(AsConn());
              var (r, s, o) := ReadCall(p.bufs[|p.bufs| - 1], old(tls.Reading()), probe);
              && AsConn() == p.(bufs := p.bufs[..|p.bufs| - 1] + [r])
              && tls.Reading() == s && result == o
    {
      ghost var p := AsConn();
      ghost var front := bufs[..|bufs| - 1];
      var back := bufs[|bufs| - 1];
      assert p.bufs == Readers(front) + [back.AsReader()];
      assert p.bufs[..|p.bufs| - 1] == Readers(front);
      result := ReadInto(front, back, tls, probe);
    }

    /** The callback once it has a buffer. */
    method ServeBack(tls: Tls, probe: nat) returns (result: Result, ghost mem: Memory)
      requires Valid() && bufs != []
      requires probe == PROBE_INTENDED || probe == PROBE_WRITTEN
      modifies this, bufs[|bufs| - 1], bufs[|bufs| - 1].mem, tls`stream, tls`grants
      ensures Valid()
      ensures (AsConn(), tls.Reading(), result) == Serve(old(AsConn()), old(tls.Reading()), mem, probe)
    {
      ghost var conn := AsConn();
      result := ReadBack(tls, probe);
      mem := ZEROES;
      if result.Done? {
        mem := Finished();
      }
    }

    /** connection_read_callback, up to handing the message to a worker. */
    method ReadCallback(tls: Tls, probe: nat) returns (result: Result, ghost mems: (Memory, Memory))
      requires Valid()
      requires probe == PROBE_INTENDED || probe == PROBE_WRITTEN
      modifies this, bufs, Memories(bufs), tls`stream, tls`grants
      ensures Valid()
      ensures (AsConn(), tls.Reading(), result) == Callback(old(AsConn()), old(tls.Reading()), mems, probe)
    {
      ghost var first := Prepare();
      ghost var second: Memory;
      result, second := ServeBack(tls, probe);
      mems := (first, second);
    }
  }

  lemma {:induction false} PayloadsUpTo(readers: seq<Reader>, i: nat)
    requires i < |readers|
    ensures Payloads(readers[..i + 1]) == Payloads(readers[..i]) + Payload(readers[i])
  {
    if i > 0 {
      PayloadsUpTo(readers[1..], i - 1);
      assert readers[..i + 1][1..] == readers[1..][..i];
      assert readers[..i][1..] == readers[1..][..i - 1];
    }
  }

  function Readers(bufs: seq<Buffer>): (readers: seq<Reader>)
    reads bufs, Memories(bufs)
    requires forall k :: 0 <= k < |bufs| ==> bufs[k].mem.Length == MESSAGE_SIZE
    ensures |readers| == |bufs| && forall i :: 0 <= i < |bufs| ==> readers[i] == bufs[i].AsReader()
  {
    if bufs == [] then [] else Readers(bufs[..|bufs| - 1]) + [bufs[|bufs| - 1].AsReader()]
  }
}
