/** The buffer class and its users on the sending and the receiving side. Buffers are objects:
    they are filled, stamped, queued and written in place. */
module Buffers {
  import opened VarLength
  import opened Fragment
  import opened Frames
  import opened Options
  import opened Reader

  const MALFORMED_LENGTH: nat := 20011

  /** One end of a TLS connection: bytes to come, what each read will do, bytes accepted. */
  class Tls {
    var stream: seq<byte>
    var grants: seq<Grant>
    var sent: seq<byte>

    function Reading(): Socket
      reads this
    {
      Socket(stream, grants)
    }

    /** socket_read with its count: some bytes, "read later", or an error. */
    method Receive(count: nat) returns (got: Received)
      modifies this`stream, this`grants
      ensures (Reading(), got) == Read(old(Reading()), count)
    {
      var (s, bytes) := Read(Reading(), count);
      stream, grants := s.stream, s.grants;
      got := bytes;
    }
  }

  /** "Read later" and errors leave socket_read as exceptions. */
  function Thrown(got: Received): Result {
    match got
    case Got(_) => Again
    case NotNow => Pending
    case Failed(code) => Threw(code)
  }

  /** memcpy into a buffer's memory. */
  method Copy(mem: array<byte>, pos: nat, bytes: seq<byte>)
    requires pos + |bytes| <= mem.Length
    modifies mem
    ensures mem[..] == old(mem[..pos]) + bytes + old(mem[pos + |bytes|..])
  {
    forall i | 0 <= i < |bytes| {
      mem[pos + i] := bytes[i];
    }
  }

  class Buffer {
    const mem: array<byte>       // header_pos_
    var cur: nat
    var ready: bool
    var parsed: bool
    var finished: bool
    var last: bool
    var typ: byte
    var encLen: nat              // data_encode_length_
    var len: nat
    var dataPos: nat
    var endPos: nat
    var id: nat
    var toParse: nat
    var remain: nat

    function AsReader(): Reader
      reads this, mem
      requires mem.Length == MESSAGE_SIZE
    {
      Reader(mem[..], cur, ready, parsed, finished, last, typ, len, dataPos, endPos, id, toParse, remain)
    }

    /** The memory is whatever malloc gave; fields the source leaves unset start at zero. */
    constructor ()
      ensures fresh(mem) && mem.Length == MESSAGE_SIZE
      ensures AsReader() == Fresh(mem[..])
    {
      mem := new byte[MESSAGE_SIZE];
      cur, dataPos, endPos := 0, 0, 0;
      ready, parsed, finished, last := false, false, false, false;
      typ, encLen, len, id, remain := 0, 0, 0, 0, 0;
      toParse := PADDING;
    }

    /** The reading side's fields fit together. */
    predicate Fits()
      reads this
    {
      mem.Length == MESSAGE_SIZE && (!parsed && !ready ==> cur + toParse == PADDING) && (finished ==> parsed)
    }

    /** Ready to be stamped: body is in place behind the session id. */
    ghost predicate HoldsBody(body: seq<byte>)
      reads this, mem
    {
      && mem.Length == MESSAGE_SIZE && endPos == 2 + |body| <= MESSAGE_SIZE
      && mem[2..endPos] == body
      && cur == 0 && remain == endPos && !finished
    }

    /** Ready to be written: these are exactly the bytes that will go out. */
    ghost predicate Carries(bytes: seq<byte>)
      reads this, mem
    {
      && mem.Length == MESSAGE_SIZE && 2 <= endPos == |bytes| <= MESSAGE_SIZE
      && mem[..endPos] == bytes
      && cur == 0 && remain == endPos && !finished
    }

    /** Type and length, from the third byte on. */
    method EncodeHeader(t: byte)
      requires mem.Length == MESSAGE_SIZE && cur == 0 && len <= MAX_PIECE
      modifies this`cur, this`encLen, mem
      ensures encLen == |Encode(len)| <= 2 && cur == 3 + encLen
      ensures mem[2] == t && mem[3..cur] == Encode(len)
    {
      EncodeLength(len);
      cur := cur + 2;
      mem[cur] := t;
      cur := cur + 1;
      var end := EncodingVarLength(mem, cur, len);
      encLen := end - cur;
      cur := end;
    }

    /** buffer::encoding on a new buffer: refuses what does not fit, and nothing that does. */
    method Encoding(t: byte, data: seq<byte>) returns (error: Option<nat>)
      requires mem.Length == MESSAGE_SIZE && cur == 0 && !finished
      modifies this`cur, this`len, this`encLen, this`dataPos, this`endPos, this`remain, this`typ, mem
      ensures |data| <= 1019 ==> error == None && HoldsBody(Body(t, data)) && typ == t && len == |data|
      ensures |data| > 1019 ==> error == Some(20011) && mem[..] == old(mem[..])
    {
      len := |data|;
      if len > MESSAGE_SIZE - PADDING {
        return Some(MALFORMED_LENGTH);
      }
      EncodeHeader(t);
      ghost var mid := mem[..];
      assert mid[3..cur] == mem[3..cur];
      dataPos := cur;
      Copy(mem, cur, data);
      remain := 2 + 1 + encLen + len;
      cur := cur + len;
      endPos := cur;
      cur := 0;
      typ := t;
      BodyAt(mid, mem[..], t, Encode(|data|), data, dataPos);
      assert mem[2..endPos] == mem[..][2..endPos];
      return None;
    }

    /** buffer::set_sessionid: sixteen bits in network order over the first two bytes. */
    method SetSessionId(sessionId: nat, isLast: bool, ghost body: seq<byte>)
      requires sessionId < UINT16 && HoldsBody(body)
      modifies this`id, this`last, mem
      ensures Carries(StampBytes(sessionId, isLast) + body) && HoldsBody(body)
      ensures id == sessionId && last == isLast
    {
      last := isLast;
      var stamp := sessionId;
      if isLast {
        stamp := (stamp + LAST_FLAG) % UINT16;
      }
      mem[0], mem[1] := stamp / 256, stamp % 256;
      id := sessionId;
      assert mem[2..endPos] == old(mem[2..endPos]);
      assert mem[..endPos] == [mem[0], mem[1]] + mem[2..endPos];
    }

    /** buffer::socket_write: all the bytes or, when TLS refuses, an exception and no change. */
    method SocketWrite(tls: Tls, accepted: bool, ghost bytes: seq<byte>) returns (done: bool)
      requires Carries(bytes)
      modifies this`remain, this`finished, tls`sent
      ensures accepted ==> done && finished && tls.sent == old(tls.sent) + bytes
      ensures !accepted ==> !done && Carries(bytes) && tls.sent == old(tls.sent)
    {
      if !accepted {
        return false;
      }
      tls.sent := tls.sent + mem[cur..cur + remain];
      remain := 0;
      finished := true;
      return true;
    }

    /** The look at the length bytes: the loop stops at the first one with its top bit clear. */
    method FindLengthEnd(probe: nat) returns (found: bool)
      requires mem.Length == MESSAGE_SIZE && cur <= PADDING
      requires probe == PROBE_INTENDED || probe == PROBE_WRITTEN
      ensures found == Probe(mem[..], cur, probe)
    {
      found := false;
      var loopCount := cur - 2 - 1;
      var i := 0;
      while i < loopCount && !found
        invariant 0 <= i <= 2 && (i <= loopCount || i == 0)
        invariant found <==> exists j :: probe <= j < probe + i && mem[..][j] < 128
      {
        if mem[probe + i] < 128 {
          assert mem[..][probe + i] < 128;
          found := true;
        }
        i := i + 1;
      }
    }

    /** The header round of socket_read. */
    method ReadHeader(tls: Tls, probe: nat) returns (result: Result)
      requires mem.Length == MESSAGE_SIZE && cur + toParse == PADDING && !ready
      requires probe == PROBE_INTENDED || probe == PROBE_WRITTEN
      modifies this`cur, this`toParse, this`ready, mem, tls`stream, tls`grants
      ensures var (s, got) := Read(old(tls.Reading()), old(toParse));
              && tls.Reading() == s && result == Thrown(got)
              && AsReader() == if got.Got? then TakeHeader(old(AsReader()), got.value, probe) else old(AsReader())
    {
      var got := tls.Receive(toParse);
      if !got.Got? {
        return Thrown(got);
      }
      var readed := |got.value|;
      Copy(mem, cur, got.value);
      cur := cur + readed;
      toParse := toParse - readed;
      assert mem[..] == Write(old(mem[..]), old(cur), got.value);
      ready := FindLengthEnd(probe);
      return Again;
    }

    method ParseSessionId()
      requires mem.Length == MESSAGE_SIZE
      modifies this`last, this`id, this`typ
      ensures AsReader() == ParseStamp(old(AsReader()))
    {
      var sessionId := mem[0] as nat * 256 + mem[1];
      if sessionId >= LAST_FLAG {
        last := true;
        id := sessionId - LAST_FLAG;
      } else {
        last := false;
        id := sessionId;
      }
      typ := mem[2];
    }

    method ParseLength() returns (decoded: Decoded)
      requires mem.Length == MESSAGE_SIZE
      ensures decoded == match Decode(AsReader().mem[3..])
                         case Decoded(value, used) => Decoded(value, 3 + used)
                         case Malformed => Malformed
    {
      decoded := DecodingVarLength(mem, 3);
      assert AsReader().mem[3..] == mem[3..];
    }

    /** The parsing part of socket_read. */
    method ParseHeader() returns (error: Option<nat>)
      requires mem.Length == MESSAGE_SIZE
      modifies this`last, this`id, this`typ, this`len, this`encLen, this`dataPos, this`remain, this`parsed
      ensures (AsReader(), error) == Parse(old(AsReader()))
    {
      ParseSessionId();
      ghost var r1 := AsReader();
      var decoded := ParseLength();
      if decoded.Malformed? {
        return Some(MALFORMED);
      }
      len := decoded.value;
      encLen := decoded.used;
      dataPos := decoded.used;
      remain := Remaining(len, cur, dataPos);
      parsed := true;
      assert AsReader() == r1.(len := len, dataPos := dataPos, remain := remain, parsed := true);
      return if OverSize(remain) then Some(OVER_SIZE) else None;
    }

    /** The payload round of socket_read. */
    method ReadPayload(tls: Tls) returns (result: Result)
      requires mem.Length == MESSAGE_SIZE && !finished
      modifies this`cur, this`endPos, this`remain, this`finished, mem, tls`stream, tls`grants
      ensures (AsReader(), tls.Reading(), result) == PayloadRound(old(AsReader()), old(tls.Reading()))
    {
      var got := tls.Receive(remain);
      if !got.Got? {
        return Thrown(got);
      }
      var readed := |got.value|;
      if cur + readed > MESSAGE_SIZE {
        return Threw(OUT_OF_BUFFER);
      }
      Copy(mem, cur, got.value);
      cur := cur + readed;
      endPos := cur;
      remain := remain - readed;
      if remain == 0 {
        finished := true;
      }
      result := if finished then Done else Again;
      assert mem[..] == Write(old(mem[..]), old(cur), got.value);
      assert AsReader() == TakePayload(old(AsReader()), got.value);
    }

    /** The part of socket_read before the header is parsed: reads if it has to, and parses when
        the header is complete. */
    method HeaderPhase(tls: Tls, probe: nat) returns (result: Result)
      requires Fits() && !parsed && (probe == PROBE_INTENDED || probe == PROBE_WRITTEN)
      modifies this, mem, tls`stream, tls`grants
      ensures Fits() && !finished && !result.Done?
      ensures result.Again? && parsed ==> ReadCall(AsReader(), tls.Reading(), probe)
                                          == ReadCall(old(AsReader()), old(tls.Reading()), probe)
      ensures !(result.Again? && parsed) ==> (AsReader(), tls.Reading(), result)
                                             == ReadCall(old(AsReader()), old(tls.Reading()), probe)
    {
      ghost var call := ReadCall(AsReader(), tls.Reading(), probe);
      if !ready {
        result := ReadHeader(tls, probe);
        if !result.Again? {
          return;
        }
        if !ready {
          return Again;
        }
      }
      assert call == ParseRound(AsReader(), tls.Reading());
      var error := ParseHeader();
      result := if error.Some? then Threw(error.value) else Again;
    }

    /** The part behind it. */
    method PayloadPhase(tls: Tls, probe: nat) returns (result: Result)
      requires Fits() && parsed && !finished && (probe == PROBE_INTENDED || probe == PROBE_WRITTEN)
      modifies this`cur, this`endPos, this`remain, this`finished, mem, tls`stream, tls`grants
      ensures Fits() && (result.Done? || result.Again? ==> result == if finished then Done else Again)
      ensures (AsReader(), tls.Reading(), result) == ReadCall(old(AsReader()), old(tls.Reading()), probe)
    {
      result := ReadPayload(tls);
    }

    /** buffer::socket_read: the loop that runs a second round when the header is complete. */
    method SocketRead(tls: Tls, probe: nat) returns (result: Result)
      requires Fits() && (probe == PROBE_INTENDED || probe == PROBE_WRITTEN)
      modifies this, mem, tls`stream, tls`grants
      ensures (AsReader(), tls.Reading(), result) == ReadCall(old(AsReader()), old(tls.Reading()), probe)
      ensures Fits()
    {
      result := Again;
      var again := true;
      ghost var call := ReadCall(AsReader(), tls.Reading(), probe);
      while again
        invariant Fits()
        invariant if again then ReadCall(AsReader(), tls.Reading(), probe) == call
                  else (AsReader(), tls.Reading(), if finished then Done else Again) == call
        decreases again, !parsed
      {
        again := false;
        if !parsed {
          result := HeaderPhase(tls, probe);
          if result.Pending? || result.Threw? {
            return;
          }
          again := parsed;
        } else if !finished {
          result := PayloadPhase(tls, probe);
          if result.Pending? || result.Threw? {
            return;
          }
        }
      }
      result := if finished then Done else Again;
    }
  }

  lemma BodyAt(mid: seq<byte>, mem: seq<byte>, t: byte, length: seq<byte>, data: seq<byte>, end: nat)
    requires |mid| == |mem| && end == 3 + |length| && end + |data| <= |mem|
    requires mid[2] == t && mid[3..end] == length
    requires mem == mid[..end] + data + mid[end + |data|..]
    ensures mem[2..end + |data|] == [t] + length + data
  {
    assert mem[2..end + |data|] == mid[2..end] + data;
    assert mid[2..end] == [mid[2]] + mid[3..end];
  }
}
