/** The variable-length integer that carries a frame's payload size: base 128, least significant
    digit first, top bit set on every byte but the last (section 2.2.3 of MQTT 3.1.1), decoded
    with the server's own limit of two bytes. */
module VarLength {

  type byte = x: int | 0 <= x < 256

  /** Numbers below this fit the two bytes the decoder accepts. */
  const DECODE_LIMIT: nat := 128 * 128

  /** Error code thrown for "Malformed Remaining Length". */
  const MALFORMED := 20001

  function Encode(n: nat): (s: seq<byte>)
    ensures |s| >= 1
  {
    if n < 128 then [n] else [128 + n % 128] + Encode(n / 128)
  }

  datatype Decoded = Decoded(value: nat, used: nat) | Malformed

  /** What two bytes of memory decode to. */
  function Decode(s: seq<byte>): Decoded
    requires |s| >= 2
  {
    if s[0] < 128 then Decoded(s[0], 1)
    else if s[1] < 128 then Decoded(s[0] - 128 + 128 * (s[1] as int), 2)
    else Malformed
  }

  /** A byte string in which exactly the last byte has its top bit clear. */
  predicate Terminated(s: seq<byte>) {
    |s| >= 1 && s[|s| - 1] < 128 && forall i :: 0 <= i < |s| - 1 ==> s[i] >= 128
  }

  /** The number a terminated byte string denotes, without any limit on its length. */
  function Value(s: seq<byte>): nat
    requires Terminated(s)
  {
    if |s| == 1 then s[0] else s[0] - 128 + 128 * Value(s[1..])
  }

  lemma {:induction false} EncodeDenotes(n: nat)
    ensures Terminated(Encode(n))
    ensures Value(Encode(n)) == n
  {
    if n >= 128 {
      EncodeDenotes(n / 128);
      var tail := Encode(n / 128);
      assert Encode(n)[1..] == tail;
      forall i | 0 <= i < |Encode(n)| - 1 ensures Encode(n)[i] >= 128 {
        if i > 0 { assert Encode(n)[i] == tail[i - 1]; }
      }
    }
  }

  /** No terminated string that denotes the same number is shorter than the encoding. */
  lemma {:induction false} EncodeIsMinimal(s: seq<byte>)
    requires Terminated(s)
    ensures |Encode(Value(s))| <= |s|
  {
    if |s| > 1 {
      EncodeIsMinimal(s[1..]);
      var rest := Value(s[1..]);
      if Value(s) >= 128 {
        assert Value(s) / 128 == rest;
      }
    }
  }

  /** The encodings form a prefix-free code. */
  lemma {:induction false} EncodeIsPrefixFree(a: nat, b: nat)
    requires Encode(a) <= Encode(b)
    ensures a == b
  {
    EncodeDenotes(a);
    EncodeDenotes(b);
    var k := |Encode(a)| - 1;
    assert Encode(b)[k] == Encode(a)[k] < 128;
    assert Encode(a) == Encode(b);
  }

  lemma FirstDigit(n: nat)
    requires n >= 128
    ensures |Encode(n)| >= 2 && Encode(n)[0] >= 128
  {
  }

  lemma EncodeLength(n: nat)
    ensures n < 128 ==> Encode(n) == [n]
    ensures 128 <= n < DECODE_LIMIT ==> Encode(n) == [128 + n % 128, n / 128]
    ensures n >= DECODE_LIMIT ==> |Encode(n)| >= 3 && Encode(n)[0] >= 128 && Encode(n)[1] >= 128
  {
    if n >= 128 {
      var q := n / 128;
      assert Encode(n) == [128 + n % 128] + Encode(q);
      if n < DECODE_LIMIT {
        assert q < 128;
      } else {
        assert q >= 128;
        FirstDigit(q);
      }
    }
  }

  /** Decoding what was encoded, whatever follows it in memory, gives the number back and stops
      right behind it exactly when the number is below the limit; every larger one is refused. */
  lemma RoundTrip(n: nat, rest: seq<byte>)
    requires |rest| >= 1
    ensures Decode(Encode(n) + rest) == Decoded(n, |Encode(n)|) <==> n < 16384
    ensures Decode(Encode(n) + rest).Malformed? <==> n >= 16384
  {
    EncodeLength(n);
    var s := Encode(n) + rest;
    assert s[0] == Encode(n)[0];
    if n >= 128 { assert s[1] == Encode(n)[1]; }
  }

  /** The memory now is what it was at the start with the digits written so far put in at pos, and
      left is what has still to be encoded. */
  ghost predicate Writing(
    start: seq<byte>, now: seq<byte>, pos: nat, written: seq<byte>, more: bool, left: nat, length: nat)
  {
    && pos + |Encode(length)| <= |start|
    && written + (if more then Encode(left) else []) == Encode(length)
    && now == start[..pos] + written + start[pos + |written|..]
  }

  lemma WritingStarts(start: seq<byte>, pos: nat, length: nat)
    requires pos + |Encode(length)| <= |start|
    ensures Writing(start, start, pos, [], true, length, length)
  {
  }

  function Digit(left: nat): byte {
    if left < 128 then left else left % 128 + 128
  }

  lemma WritesDigit(start: seq<byte>, now: seq<byte>, pos: nat, written: seq<byte>, left: nat, length: nat)
    requires Writing(start, now, pos, written, true, left, length)
    ensures |now| == |start| && pos + |written| < |now|
    ensures Writing(start, now[pos + |written| := Digit(left)], pos, written + [Digit(left)],
                    left >= 128, left / 128, length)
  {
    EncodeStep(written, left);
    PutNext(start, pos, written, Digit(left));
  }

  lemma EncodeStep(written: seq<byte>, left: nat)
    ensures written + Encode(left) == written + [Digit(left)] + if left < 128 then [] else Encode(left / 128)
  {
  }

  lemma PutNext(start: seq<byte>, pos: nat, written: seq<byte>, digit: byte)
    requires pos + |written| < |start|
    ensures var end := pos + |written|;
            (start[..pos] + written + start[end..])[end := digit]
            == start[..pos] + (written + [digit]) + start[end + 1..]
  {
  }

  lemma WritingEnds(start: seq<byte>, now: seq<byte>, pos: nat, written: seq<byte>, left: nat, length: nat)
    requires Writing(start, now, pos, written, false, left, length)
    ensures written == Encode(length)
    ensures now == start[..pos] + Encode(length) + start[pos + |Encode(length)|..]
  {
    assert written + [] == written;
  }

  method NextDigit(left: nat) returns (encodeByte: byte, rest: nat)
    ensures encodeByte == Digit(left) && rest == left / 128
    ensures (rest > 0 <==> left >= 128) && (rest > 0 ==> rest < left)
  {
    encodeByte := left % 128;
    rest := left / 128;
    if rest > 0 {
      encodeByte := encodeByte + 128;
    }
  }

  method Put(mem: array<byte>, at: nat, digit: byte)
    requires at < mem.Length
    modifies mem
    ensures mem[..] == old(mem[..])[at := digit]
  {
    mem[at] := digit;
  }

  /** encoding_var_length: the loop that writes the digits at pos and returns the end. */
  method EncodingVarLength(mem: array<byte>, pos: nat, length: nat) returns (end: nat)
    requires pos + |Encode(length)| <= mem.Length
    modifies mem
    ensures end == pos + |Encode(length)|
    ensures mem[..] == old(mem[..])[..pos] + Encode(length) + old(mem[..])[end..]
  {
    ghost var start := mem[..];
    WritingStarts(start, pos, length);
    ghost var written;
    end, written := WriteDigits(mem, pos, length, start);
    WritingEnds(start, mem[..], pos, written, 0, length);
  }

  /** The loop of EncodingVarLength. */
  method WriteDigits(mem: array<byte>, pos: nat, length: nat, ghost start: seq<byte>)
    returns (end: nat, ghost written: seq<byte>)
    requires Writing(start, mem[..], pos, [], true, length, length)
    modifies mem
    ensures end == pos + |written| && Writing(start, mem[..], pos, written, false, 0, length)
  {
    written := [];
    var left := length;
    end := pos;
    var more := true;
    while more
      invariant end == pos + |written| && (more || left == 0)
      invariant Writing(start, mem[..], pos, written, more, left, length)
      decreases more, left
    {
      WritesDigit(start, mem[..], pos, written, left, length);
      written := written + [Digit(left)];
      var encodeByte;
      encodeByte, left := NextDigit(left);
      ghost var now := mem[..];
      Put(mem, end, encodeByte);
      assert mem[..] == now[end := encodeByte];
      end := end + 1;
      more := left > 0;
    }
  }

  /** decoding_var_length: the loop over value, multiplier and pos, with its limit. */
  method DecodingVarLength(mem: array<byte>, pos: nat) returns (r: Decoded)
    requires pos + 3 <= mem.Length
    ensures r == match Decode(mem[pos..])
                 case Decoded(value, used) => Decoded(value, pos + used)
                 case Malformed => Malformed
  {
    var multiplier, value, at := 1, 0, pos;
    var encodeByte: byte := 128;
    while encodeByte >= 128
      invariant pos <= at <= pos + 2
      invariant at == pos ==> multiplier == 1 && value == 0 && encodeByte == 128
      invariant at == pos + 1 ==> multiplier == 128 && value == mem[pos] % 128 && encodeByte == mem[pos]
      invariant at == pos + 2 ==> multiplier == 128 * 128 && value == mem[pos] % 128 + 128 * (mem[pos + 1] as int % 128)
                                  && mem[pos] >= 128 && encodeByte == mem[pos + 1]
      decreases pos + 3 - at
    {
      encodeByte := mem[at];
      value := value + encodeByte % 128 * multiplier;
      at := at + 1;
      multiplier := multiplier * 128;
      if multiplier > 128 * 128 {
        return Malformed;
      }
    }
    r := Decoded(value, at);
  }
}
