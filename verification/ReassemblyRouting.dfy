/** Which messages the workers get: everything but the types 42 and 43, which peer servers send. */
module ReassemblyRouting {
  import opened Frames
  import opened Reader
  import opened Reassembly
  import opened ReassemblyExact

  /** The messages of the other types, in order. */
  function Others(ms: seq<Message>): seq<Message> {
    if ms == [] then []
    else (if ms[0].typ == 42 || ms[0].typ == 43 then [] else [ms[0]]) + Others(ms[1..])
  }

  lemma {:induction false} OthersOnly(ms: seq<Message>)
    ensures forall m :: m in Others(ms) <==> m in ms && m.typ != 42 && m.typ != 43
    ensures Others(ms) == ms <==> forall m :: m in ms ==> m.typ != 42 && m.typ != 43
    ensures |Others(ms)| <= |ms|
  {
    if ms != [] {
      OthersOnly(ms[1..]);
      assert forall m :: m in ms <==> m == ms[0] || m in ms[1..];
    }
  }

  lemma {:induction false} OthersAppend(ms: seq<Message>, m: Message)
    ensures Others(ms + [m]) == Others(ms) + if m.typ == 42 || m.typ == 43 then [] else [m]
  {
    if ms == [] {
      assert [] + [m] == [m] && [m][1..] == [];
    } else {
      assert (ms + [m])[0] == ms[0] && (ms + [m])[1..] == ms[1..] + [m];
      OthersAppend(ms[1..], m);
    }
  }

  lemma {:induction false} RoutedIsOthers(ms: seq<Message>)
    ensures Routed(ms) == Others(ms)
  {
    if ms != [] {
      var n := |ms| - 1;
      RoutedIsOthers(ms[..n]);
      OthersAppend(ms[..n], ms[n]);
      assert ms == ms[..n] + [ms[n]];
    }
  }

  /** One callback, whatever has arrived: a message is handed over exactly when the frame just finished is
      flagged last and its type is neither 42 nor 43. Type and id are those of that frame, the data is what
      all gathered frames hold. */
  lemma HandedOverExactly(c: Conn, s: Socket, mems: (Memory, Memory), probe: nat)
    requires Sound(c) && probe <= PROBE_WRITTEN
    ensures var (r, _, result) := ReadCall(Current(c, mems.0), s, probe);
            var front := if c.bufs == [] then [] else c.bufs[..|c.bufs| - 1];
            var c' := Callback(c, s, mems, probe).0;
            && c'.handed == c.handed
                 + (if result.Done? && r.last && r.typ != 42 && r.typ != 43
                    then [Message(r.typ, r.id, Payloads(front) + Payload(r))] else [])
            && (if !result.Done? then c'.bufs == front + [r]
                else if r.last then c'.bufs == []
                else c'.bufs == front + [r, Fresh(mems.1)])
  {
    var r := ReadCall(Current(c, mems.0), s, probe).0;
    var front := if c.bufs == [] then [] else c.bufs[..|c.bufs| - 1];
    PayloadsAppend(front, r);
    assert front + [r] + [Fresh(mems.1)] == front + [r, Fresh(mems.1)];
  }

  lemma {:induction false} PayloadsAppend(front: seq<Reader>, r: Reader)
    ensures Payloads(front + [r]) == Payloads(front) + Payload(r)
  {
    if front == [] {
      assert front + [r] == [r] && [r][1..] == [];
    } else {
      assert (front + [r])[0] == front[0] && (front + [r])[1..] == front[1..] + [r];
      PayloadsAppend(front[1..], r);
    }
  }

  /** No worker ever gets a message of type 42 or 43, whatever arrives, on every schedule, over every
      memory, at either offset. */
  lemma {:induction false} NoServerTypes(c: Conn, s: Socket, heap: Heap, probe: nat)
    requires Sound(c) && Unfinished(c) && probe <= PROBE_WRITTEN
    requires forall m :: m in c.handed ==> m.typ != 42 && m.typ != 43
    ensures forall m :: m in Loop(c, s, heap, probe).0.handed ==> m.typ != 42 && m.typ != 43
    decreases |s.grants|, Unparsed(c)
  {
    if s.grants != [] {
      LoopStep(c, s, heap, probe);
      var (c1, s1, result) := Callback(c, s, NewMemories(c, heap), probe);
      if GoesOn(result) {
        NoServerTypes(c1, s1, heap, probe);
      }
    }
  }

  /** With the test at offset 3, on every schedule and over every memory: the workers get a prefix of the
      messages of other types; and all of them, once everything has been read, if no size is one above a
      multiple of 1019. */
  lemma WorkersGetTheOthers(ms: seq<Message>, grants: seq<Grant>, heap: Heap)
    requires ValidMessages(ms)
    ensures Loop(NEW_CONN, Socket(Wire(AllFrames(ms)), grants), heap, PROBE_INTENDED).0.handed <= Others(ms)
    ensures (forall m :: m in ms ==> |m.data| % 1019 != 1) ==>
              Loop(NEW_CONN, Stream(ms, grants), heap, PROBE_INTENDED).0.handed == Others(ms)
  {
    RoutedIsOthers(ms);
    EndToEndIntended(ms, grants, heap);
    EndToEndIntended(ms, Stream(ms, grants).grants, heap);
  }

  /** As written, on every schedule and over every memory, if all frames have 2 to 127 payload bytes and
      start with a byte below 128; and on those that split no length if every frame has at least two bytes
      and is long or starts with a byte below 128. */
  lemma WorkersGetTheOthersWritten(ms: seq<Message>, grants: seq<Grant>, heap: Heap)
    requires ValidMessages(ms)
    ensures (forall f :: f in AllFrames(ms) ==> 2 <= |f.payload| < 128 && f.payload[0] < 128) ==>
              Loop(NEW_CONN, Stream(ms, grants), heap, PROBE_WRITTEN).0.handed == Others(ms)
    ensures (forall f :: f in AllFrames(ms) ==> |f.payload| >= 2 && (|f.payload| >= 128 || f.payload[0] < 128))
            && LoopNeverSplits(NEW_CONN, Stream(ms, grants), heap, PROBE_WRITTEN) ==>
              Loop(NEW_CONN, Stream(ms, grants), heap, PROBE_WRITTEN).0.handed == Others(ms)
  {
    RoutedIsOthers(ms);
    WrittenArrives(ms);
    WrittenArrivesUnsplit(ms);
    assert AlwaysArrives(ms, PROBE_WRITTEN) ==> Arrives(ms, grants, heap, PROBE_WRITTEN);
    assert ArrivesUnsplit(ms, PROBE_WRITTEN) && LoopNeverSplits(NEW_CONN, Stream(ms, grants), heap, PROBE_WRITTEN)
           ==> Arrives(ms, grants, heap, PROBE_WRITTEN);
  }

  ghost predicate AlwaysGetTheList(ms: seq<Message>, probe: nat)
    requires probe <= PROBE_WRITTEN
  {
    forall grants: seq<Grant>, heap: Heap :: Loop(NEW_CONN, Stream(ms, grants), heap, probe).0.handed == ms
  }

  lemma ListExactly(ms: seq<Message>, probe: nat)
    requires ValidMessages(ms) && forall m :: m in ms ==> m.typ != 42 && m.typ != 43
    requires probe == PROBE_INTENDED || probe == PROBE_WRITTEN
    ensures AlwaysGetTheList(ms, probe) <==> AlwaysArrives(ms, probe)
  {
    OthersOnly(ms);
    RoutedIsOthers(ms);
    HandsOverExactly(ms, probe);
    assert AlwaysHandsOver(ms, probe) <==> AlwaysGetTheList(ms, probe);
  }

  /** For lists without types 42 and 43 the conditions are exact: the workers get the list itself on every
      schedule and over every memory if and only if no size is one above a multiple of 1019; as written,
      if and only if all frames have 2 to 127 payload bytes and start with a byte below 128. */
  lemma WorkersGetTheList(ms: seq<Message>)
    requires ValidMessages(ms) && forall m :: m in ms ==> m.typ != 42 && m.typ != 43
    ensures AlwaysGetTheList(ms, PROBE_INTENDED) <==> forall m :: m in ms ==> |m.data| % 1019 != 1
    ensures AlwaysGetTheList(ms, PROBE_WRITTEN) <==>
            forall f :: f in AllFrames(ms) ==> 2 <= |f.payload| < 128 && f.payload[0] < 128
  {
    ListExactly(ms, PROBE_INTENDED);
    ListExactly(ms, PROBE_WRITTEN);
    IntendedArrives(ms);
    WrittenArrives(ms);
  }
}
