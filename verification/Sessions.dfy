/** Any number of connections, each with a client, over one store: what clients send, the event
    loop and the workers do in any interleaving. A worker may take any waiting task of a
    connection. The handlers run one at a time, as with the server's single worker. */
module Sessions {
  import opened Frames
  import opened Options
  import opened SessionId
  import opened SessionGate

  /** A client that follows the protocol knows its next id once a connect succeeded and sends
      nothing numbered while it waits for a connect response. */
  datatype Client = Client(next: Option<uint16>, waiting: bool)

  datatype Link = Link(
    session: Session,
    wire: seq<Envelope>,      // sent by the client, not yet read
    tasks: seq<Task>,        // read, not yet taken by a worker
    out: seq<Reply>,         // the write queue
    pipe: seq<Reply>,        // written, not yet received
    client: Client,
    conforming: bool
  )

  type LinkId = nat
  type Entry = ((Uuid, UserId), uint16)

  datatype State = State(
    store: Store,
    links: map<LinkId, Link>,
    log: seq<Entry>          // history: every id recorded for a device and user
  )

  datatype Step =
    | Accept(c: LinkId, sid: uint16, conforming: bool)
    | Send(c: LinkId, message: Envelope)
    | Read(c: LinkId)
    | Work(c: LinkId, i: nat, ok: bool)
    | Write(c: LinkId)
    | Stall(c: LinkId)       // the write callback, when the socket takes nothing
    | Receive(c: LinkId)

  // ---- The client ----

  predicate MaySend(client: Client, m: Envelope) {
    if m.Numbered() then
      client.next.Some? && !client.waiting && m.stamp == Issued(client.next.value)
    else
      m.stamp == 0 && m.ForWorker() && (m.request.Connect? ==> !client.waiting)
  }

  function Sent(client: Client, m: Envelope): Client {
    if m.Numbered() && client.next.Some? then client.(next := Some(Next(client.next.value)))
    else if m.request.Connect? then client.(waiting := true)
    else client
  }

  function Received(client: Client, r: Reply): Client {
    match r
    case ConnectOk(sid) => Client(Some(sid), false)
    case ConnectFailed => client.(waiting := false)
    case _ => client
  }

  // ---- Steps of one connection ----

  function LinkSend(l: Link, m: Envelope): Link {
    l.(wire := l.wire + [m], client := Sent(l.client, m))
  }

  function LinkRead(l: Link): Link
    requires l.wire != []
  {
    var m := l.wire[0];
    if m.ForWorker() then
      l.(wire := l.wire[1..], session := Advanced(l.session, m), tasks := l.tasks + [Task(m, Expected(l.session, m))])
    else l.(wire := l.wire[1..])
  }

  function LinkWork(store: Store, l: Link, i: nat, ok: bool): Link
    requires i < |l.tasks|
  {
    var (_, session, reply) := Dispatched(store, l.session, l.tasks[i], ok);
    l.(session := session, tasks := l.tasks[..i] + l.tasks[i + 1..], out := l.out + [reply])
  }

  function LinkWrite(l: Link): Link
    requires l.out != []
  {
    l.(session := Wrote(l.session, l.out[0]), out := l.out[1..], pipe := l.pipe + [l.out[0]])
  }

  function LinkStall(l: Link): Link
    requires l.out != []
  {
    l.(session := Wrote(l.session, l.out[0]))
  }

  function LinkReceive(l: Link): Link
    requires l.pipe != []
  {
    l.(pipe := l.pipe[1..], client := Received(l.client, l.pipe[0]))
  }

  // ---- The system ----

  function Init(): State { State(map[], map[], []) }

  predicate Enabled(s: State, step: Step) {
    if step.Accept? then step.c !in s.links
    else
      && step.c in s.links
      && match step
         case Send(c, m) => m.Valid() && (s.links[c].conforming ==> MaySend(s.links[c].client, m))
         case Read(c) => s.links[c].wire != []
         case Work(c, i, _) => i < |s.links[c].tasks|
         case Write(c) => s.links[c].out != []
         case Stall(c) => s.links[c].out != []
         case Receive(c) => s.links[c].pipe != []
  }

  function NewLink(sid: uint16, conforming: bool): Link {
    Link(Session(sid, false, None), [], [], [], [], Client(None, false), conforming)
  }

  function NextLink(s: State, step: Step): Link
    requires Enabled(s, step)
  {
    match step
    case Accept(c, sid, conforming) => NewLink(sid, conforming)
    case Send(c, m) => LinkSend(s.links[c], m)
    case Read(c) => LinkRead(s.links[c])
    case Work(c, i, ok) => LinkWork(s.store, s.links[c], i, ok)
    case Write(c) => LinkWrite(s.links[c])
    case Stall(c) => LinkStall(s.links[c])
    case Receive(c) => LinkReceive(s.links[c])
  }

  function Do(s: State, step: Step): State
    requires Enabled(s, step)
  {
    var links := s.links[step.c := NextLink(s, step)];
    if step.Work? then
      var l := s.links[step.c];
      var t := l.tasks[step.i];
      State(Dispatched(s.store, l.session, t, step.ok).0, links, s.log + Written(s.store, l.session, t, step.ok))
    else s.(links := links)
  }

  predicate Legal(s: State, steps: seq<Step>)
    decreases |steps|
  {
    steps == [] || (Enabled(s, steps[0]) && Legal(Do(s, steps[0]), steps[1..]))
  }

  function After(s: State, steps: seq<Step>): State
    requires Legal(s, steps)
    decreases |steps|
  {
    if steps == [] then s else After(Do(s, steps[0]), steps[1..])
  }

  // ---- Counting what is under way ----

  function Count<T>(s: seq<T>, p: T -> bool): nat {
    if s == [] then 0 else (if p(s[0]) then 1 else 0) + Count(s[1..], p)
  }

  lemma {:induction false} CountAppend<T>(s: seq<T>, t: seq<T>, p: T -> bool)
    ensures Count(s + t, p) == Count(s, p) + Count(t, p)
  {
    if s == [] {
      assert s + t == t;
    } else {
      assert (s + t)[1..] == s[1..] + t;
      CountAppend(s[1..], t, p);
    }
  }

  lemma CountOne<T>(s: seq<T>, x: T, p: T -> bool)
    ensures Count(s + [x], p) == Count(s, p) + if p(x) then 1 else 0
  {
    CountAppend(s, [x], p);
    assert [x][1..] == [];
  }

  lemma CountWithout<T>(s: seq<T>, i: nat, p: T -> bool)
    requires i < |s|
    ensures Count(s, p) == Count(s[..i] + s[i + 1..], p) + if p(s[i]) then 1 else 0
  {
    CountAppend(s[..i], s[i + 1..], p);
    CountAppend(s[..i], s[i..], p);
    assert s == s[..i] + s[i..];
  }

  lemma {:induction false} NoneCounted<T>(s: seq<T>, p: T -> bool)
    ensures Count(s, p) == 0 <==> forall x :: x in s ==> !p(x)
  {
    if s != [] {
      NoneCounted(s[1..], p);
      assert forall x :: x in s <==> x == s[0] || x in s[1..];
    }
  }

  const CONNECT_MESSAGE: Envelope -> bool := (m: Envelope) => m.request.Connect?
  const CONNECT_TASK: Task -> bool := (t: Task) => t.message.request.Connect?
  const CONNECT_REPLY: Reply -> bool := (r: Reply) => r.ConnectOk? || r.ConnectFailed?

  function PastTheWire(l: Link): nat {
    Count(l.tasks, CONNECT_TASK) + Count(l.out, CONNECT_REPLY) + Count(l.pipe, CONNECT_REPLY)
  }

  // ---- Lockstep ----

  /** From counter sid on, every message on the wire carries what the server will expect. */
  predicate Follows(sid: uint16, wire: seq<Envelope>)
    decreases |wire|
  {
    wire == [] ||
    (&& wire[0].ForWorker()
     && wire[0].stamp == (if wire[0].Numbered() then Issued(sid) else 0)
     && Follows(if wire[0].Numbered() then Next(sid) else sid, wire[1..]))
  }

  function End(sid: uint16, wire: seq<Envelope>): uint16
    decreases |wire|
  {
    if wire == [] then sid else End(if wire[0].Numbered() then Next(sid) else sid, wire[1..])
  }

  ghost predicate NothingNumbered(wire: seq<Envelope>) {
    forall m :: m in wire ==> !m.Numbered()
  }

  predicate InRange(sid: uint16) { MIN_SESSION_ID <= sid <= MAX_SESSION_ID }

  predicate WillPass(l: Link, t: Task) {
    && t.expected == t.message.stamp
    && (if t.message.Numbered() then t.expected >= MIN_SESSION_ID && l.session.isConnect else t.expected == 0)
  }

  /** What holds of a connection with a conforming client at any time. */
  ghost predicate InStep(l: Link) {
    && Count(l.wire, CONNECT_MESSAGE) + PastTheWire(l) == (if l.client.waiting then 1 else 0)
    && (forall t :: t in l.tasks ==> WillPass(l, t))
    && (forall r :: r in l.out || r in l.pipe ==> !r.Refused?)
    && Follows(l.session.sessionid, l.wire)
    && (forall i, j :: 0 <= i < j < |l.wire| && l.wire[i].request.Connect? ==> !l.wire[j].Numbered())
    && (l.client.next.None? || PastTheWire(l) > 0 ==> NothingNumbered(l.wire))
    && (forall r :: (r in l.out || r in l.pipe) && r.ConnectOk? ==> r.sid == l.session.sessionid && InRange(r.sid))
    && (forall r :: r in l.pipe && CONNECT_REPLY(r) ==> l.session.isConnect)
    && (l.client.next.Some? ==> l.session.isConnect && InRange(l.session.sessionid))
    && (l.client.next.Some? && (forall r :: r in l.out || r in l.pipe ==> !r.ConnectOk?) ==>
          End(l.session.sessionid, l.wire) == l.client.next.value)
  }

  lemma {:induction false} FollowsAppend(sid: uint16, wire: seq<Envelope>, m: Envelope)
    requires Follows(sid, wire) && m.ForWorker()
    requires m.stamp == if m.Numbered() then Issued(End(sid, wire)) else 0
    ensures Follows(sid, wire + [m])
    ensures End(sid, wire + [m]) == if m.Numbered() then Next(End(sid, wire)) else End(sid, wire)
    decreases |wire|
  {
    if wire == [] {
      assert [m][1..] == [];
    } else {
      assert (wire + [m])[1..] == wire[1..] + [m];
      FollowsAppend(if wire[0].Numbered() then Next(sid) else sid, wire[1..], m);
    }
  }

  lemma {:induction false} Unmoved(sid: uint16, other: uint16, wire: seq<Envelope>)
    requires NothingNumbered(wire) && Follows(sid, wire)
    ensures Follows(other, wire) && End(other, wire) == other
  {
    if wire != [] {
      Unmoved(sid, other, wire[1..]);
    }
  }

  /** A client that is not waiting has no connect on the way, and no answer to one. */
  lemma NoConnects(l: Link)
    requires InStep(l) && !l.client.waiting
    ensures forall m :: m in l.wire ==> !m.request.Connect?
    ensures forall r :: r in l.out || r in l.pipe ==> !CONNECT_REPLY(r)
    ensures PastTheWire(l) == 0
  {
    NoneCounted(l.wire, CONNECT_MESSAGE);
    assert forall m :: m in l.wire ==> !CONNECT_MESSAGE(m);
    NoReplies(l);
  }

  lemma SendKeeps(l: Link, m: Envelope)
    requires InStep(l) && m.Valid() && MaySend(l.client, m)
    ensures InStep(LinkSend(l, m))
  {
    var sid := l.session.sessionid;
    CountOne(l.wire, m, CONNECT_MESSAGE);
    if m.Numbered() {
      NoConnects(l);
      FollowsAppend(sid, l.wire, m);
    } else {
      FollowsAppend(sid, l.wire, m);
    }
  }

  /** A client that is not waiting has no connect response under way. */
  lemma NoReplies(l: Link)
    requires PastTheWire(l) == 0
    ensures forall t :: t in l.tasks ==> !t.message.request.Connect?
    ensures forall r :: r in l.out || r in l.pipe ==> !CONNECT_REPLY(r)
  {
    NoneCounted(l.tasks, CONNECT_TASK);
    NoneCounted(l.out, CONNECT_REPLY);
    NoneCounted(l.pipe, CONNECT_REPLY);
  }

  lemma ReadKeeps(l: Link)
    requires InStep(l) && l.wire != []
    ensures InStep(LinkRead(l))
  {
    var m := l.wire[0];
    CountOne(l.tasks, Task(m, Expected(l.session, m)), CONNECT_TASK);
    if m.Numbered() {
      NoReplies(l);
    }
  }

  ghost predicate StoreInRange(store: Store) {
    forall d, u :: d in store && u in store[d] ==> MIN_SESSION_ID <= store[d][u] < MAX_SESSION_ID
  }

  /** What a task of a conforming client comes to. */
  lemma Passes(store: Store, l: Link, t: Task, ok: bool)
    requires WillPass(l, t) && StoreInRange(store)
    ensures var (_, session, reply) := Dispatched(store, l.session, t, ok);
            && !reply.Refused? && session.isConnect == l.session.isConnect
            && (CONNECT_REPLY(reply) <==> t.message.request.Connect?)
            && (if reply.ConnectOk? then reply.sid == session.sessionid && InRange(reply.sid)
                else session == l.session)
  {
    assert Gate(l.session, t).None?;
    if t.message.request.Connect? {
      assert !t.message.Numbered();
    }
  }

  lemma OthersStillPass(l: Link, i: nat, l': Link)
    requires InStep(l) && i < |l.tasks| && l'.tasks == l.tasks[..i] + l.tasks[i + 1..]
    requires l'.session.isConnect == l.session.isConnect
    ensures forall x :: x in l'.tasks ==> WillPass(l', x)
  {
    forall x | x in l'.tasks ensures WillPass(l', x) {
      assert x in l.tasks;
    }
  }

  /** One connect at a time: while its task waits there is no reply to one. */
  lemma NoReplyYet(l: Link, i: nat)
    requires InStep(l) && i < |l.tasks| && CONNECT_TASK(l.tasks[i])
    ensures forall r :: r in l.out || r in l.pipe ==> !CONNECT_REPLY(r)
  {
    CountWithout(l.tasks, i, CONNECT_TASK);
    NoneCounted(l.out, CONNECT_REPLY);
    NoneCounted(l.pipe, CONNECT_REPLY);
  }

  lemma WorkKeeps(store: Store, l: Link, i: nat, ok: bool)
    requires InStep(l) && i < |l.tasks| && StoreInRange(store)
    ensures InStep(LinkWork(store, l, i, ok))
  {
    var t := l.tasks[i];
    assert WillPass(l, t);
    var (_, session, reply) := Dispatched(store, l.session, t, ok);
    Passes(store, l, t, ok);
    OthersStillPass(l, i, LinkWork(store, l, i, ok));
    CountWithout(l.tasks, i, CONNECT_TASK);
    CountOne(l.out, reply, CONNECT_REPLY);
    if CONNECT_REPLY(reply) {
      NoReplyYet(l, i);
      Unmoved(l.session.sessionid, session.sessionid, l.wire);
    }
  }

  lemma WriteKeeps(l: Link)
    requires InStep(l) && l.out != []
    ensures InStep(LinkWrite(l))
  {
    CountOne(l.pipe, l.out[0], CONNECT_REPLY);
    assert forall r :: r in l.out <==> r == l.out[0] || r in l.out[1..];
  }

  lemma StallKeeps(l: Link)
    requires InStep(l) && l.out != []
    ensures InStep(LinkStall(l))
  {
  }

  lemma ReceiveKeeps(l: Link)
    requires InStep(l) && l.pipe != []
    ensures InStep(LinkReceive(l))
  {
    var r := l.pipe[0];
    assert forall x :: x in l.pipe <==> x == r || x in l.pipe[1..];
    if CONNECT_REPLY(r) {
      NoneCounted(l.out, CONNECT_REPLY);
      NoneCounted(l.pipe[1..], CONNECT_REPLY);
      Unmoved(l.session.sessionid, l.session.sessionid, l.wire);
    }
  }

  // ---- The recorded ids ----

  /** The id recorded last for a device and user, 100 if there is none. */
  function LastFor(log: seq<Entry>, key: (Uuid, UserId)): int {
    if log == [] then MIN_SESSION_ID
    else if log[|log| - 1].0 == key then log[|log| - 1].1
    else LastFor(log[..|log| - 1], key)
  }

  ghost predicate Listed(store: Store, key: (Uuid, UserId)) {
    key.0 in store && key.1 in store[key.0]
  }

  /** The store holds the last recorded id of everyone who ever logged in, and nothing else. */
  ghost predicate Recorded(store: Store, log: seq<Entry>) {
    && (forall d, u :: d in store && u in store[d] ==> store[d][u] == LastFor(log, (d, u)))
    && (forall e :: e in log ==> Listed(store, e.0) && MIN_SESSION_ID <= e.1 < MAX_SESSION_ID)
  }

  ghost predicate Sane(store: Store, l: Link) {
    && (l.session.key.Some? ==> Listed(store, l.session.key.value))
    && (forall m :: m in l.wire ==> m.stamp <= MAX_SESSION_ID)
    && (forall t :: t in l.tasks ==> t.message.stamp <= MAX_SESSION_ID && t.expected != MAX_SESSION_ID)
  }

  ghost predicate Inv(s: State) {
    && Recorded(s.store, s.log)
    && forall c :: c in s.links ==> Sane(s.store, s.links[c]) && (s.links[c].conforming ==> InStep(s.links[c]))
  }

  lemma {:induction false} LastInRange(store: Store, log: seq<Entry>, key: (Uuid, UserId))
    requires forall e :: e in log ==> MIN_SESSION_ID <= e.1 < MAX_SESSION_ID
    ensures MIN_SESSION_ID <= LastFor(log, key) < MAX_SESSION_ID
  {
    if log != [] {
      LastInRange(store, log[..|log| - 1], key);
    }
  }

  lemma RecordedInRange(store: Store, log: seq<Entry>)
    requires Recorded(store, log)
    ensures StoreInRange(store)
  {
    forall d, u | d in store && u in store[d] ensures MIN_SESSION_ID <= store[d][u] < MAX_SESSION_ID {
      LastInRange(store, log, (d, u));
    }
  }

  lemma LastAfter(log: seq<Entry>, e: Entry, key: (Uuid, UserId))
    ensures LastFor(log + [e], key) == if e.0 == key then e.1 else LastFor(log, key)
  {
    assert (log + [e])[..|log|] == log;
  }

  lemma PutKeeps(store: Store, log: seq<Entry>, d: Uuid, u: UserId, id: uint16)
    requires Recorded(store, log) && d in store && MIN_SESSION_ID <= id < MAX_SESSION_ID
    ensures Recorded(store[d := store[d][u := id]], log + [((d, u), id)])
  {
    var store' := store[d := store[d][u := id]];
    var log' := log + [((d, u), id)];
    forall d', u' | d' in store' && u' in store'[d'] ensures store'[d'][u'] == LastFor(log', (d', u')) {
      LastAfter(log, ((d, u), id), (d', u'));
    }
    forall e | e in log' ensures Listed(store', e.0) && MIN_SESSION_ID <= e.1 < MAX_SESSION_ID {
      assert e in log || e == ((d, u), id);
    }
  }

  lemma {:induction false} NeverRecorded(log: seq<Entry>, key: (Uuid, UserId))
    requires forall e :: e in log ==> e.0 != key
    ensures LastFor(log, key) == MIN_SESSION_ID
  {
    if log != [] {
      NeverRecorded(log[..|log| - 1], key);
    }
  }

  lemma LoginKeeps(store: Store, log: seq<Entry>, d: Uuid, u: UserId)
    requires Recorded(store, log)
    ensures var users := if d in store then store[d] else map[];
            Recorded(store[d := if u in users then users else users[u := MIN_SESSION_ID]], log)
  {
    if !Listed(store, (d, u)) {
      NeverRecorded(log, (d, u));
    }
  }

  lemma HandledKeeps(store: Store, s: Session, r: Request, id: uint16, ok: bool, log: seq<Entry>)
    requires Recorded(store, log)
    requires r.Disconnect? || r.Logout? ==> MIN_SESSION_ID <= id < MAX_SESSION_ID
    ensures Recorded(Handled(store, s, r, id, ok).0, log + WrittenBy(store, r, id, ok))
  {
    match r {
      case Login(d, u) => LoginKeeps(store, log, d, u); assert log + [] == log;
      case Disconnect(d, u) => if ok && d in store { PutKeeps(store, log, d, u, id); } else { assert log + [] == log; }
      case Logout(d, _) => if ok && d in store { PutKeeps(store, log, d, d, id); } else { assert log + [] == log; }
      case _ => assert log + [] == log;
    }
  }

  lemma RecordKeeps(store: Store, log: seq<Entry>, key: Option<(Uuid, UserId)>, id: uint16)
    requires Recorded(store, log) && MIN_SESSION_ID <= id < MAX_SESSION_ID
    requires key.Some? ==> Listed(store, key.value)
    ensures Recorded(Record(store, key, id), log + if key.Some? then [(key.value, id)] else [])
  {
    if key.Some? {
      PutKeeps(store, log, key.value.0, key.value.1, id);
    } else {
      assert log + [] == log;
    }
  }

  lemma DispatchedKeeps(store: Store, log: seq<Entry>, l: Link, t: Task, ok: bool)
    requires Recorded(store, log) && Sane(store, l) && t in l.tasks
    ensures Recorded(Dispatched(store, l.session, t, ok).0, log + Written(store, l.session, t, ok))
  {
    var s := l.session;
    if Gate(s, t).Some? {
      assert log + [] == log;
    } else if t.expected < MIN_SESSION_ID {
      HandledKeeps(store, s, t.message.request, t.expected, ok, log);
    } else {
      var first := if s.key.Some? then [(s.key.value, t.expected)] else [];
      RecordKeeps(store, log, s.key, t.expected);
      var recorded := Record(store, s.key, t.expected);
      HandledKeeps(recorded, s, t.message.request, t.expected, ok, log + first);
      var second := WrittenBy(store, t.message.request, t.expected, ok);
      assert WrittenBy(recorded, t.message.request, t.expected, ok) == second;
      Associative(log, first, second);
    }
  }

  /** The store never loses anyone. */
  lemma ListedStays(store: Store, s: Session, t: Task, ok: bool)
    ensures var (store', s', _) := Dispatched(store, s, t, ok);
            && (forall key :: Listed(store, key) ==> Listed(store', key))
            && (s'.key == s.key || (s'.key.Some? && Listed(store', s'.key.value)))
  {
  }

  lemma SaneStays(store: Store, store': Store, l: Link)
    requires Sane(store, l) && forall key :: Listed(store, key) ==> Listed(store', key)
    ensures Sane(store', l)
  {
  }

  lemma WorkSane(store: Store, l: Link, i: nat, ok: bool)
    requires Sane(store, l) && i < |l.tasks|
    ensures Sane(Dispatched(store, l.session, l.tasks[i], ok).0, LinkWork(store, l, i, ok))
  {
    ListedStays(store, l.session, l.tasks[i], ok);
    assert forall x :: x in l.tasks[..i] + l.tasks[i + 1..] ==> x in l.tasks;
  }

  lemma ReadSane(store: Store, l: Link)
    requires Sane(store, l) && l.wire != []
    ensures Sane(store, LinkRead(l))
  {
    assert l.wire[0] in l.wire;
  }

  lemma SendSane(store: Store, l: Link, m: Envelope)
    requires Sane(store, l) && m.Valid()
    ensures Sane(store, LinkSend(l, m))
  {
  }

  lemma OwnLinkSane(s: State, step: Step)
    requires Inv(s) && Enabled(s, step)
    ensures Sane(Do(s, step).store, NextLink(s, step))
  {
    match step {
      case Work(c, i, ok) => WorkSane(s.store, s.links[c], i, ok);
      case Read(c) => ReadSane(s.store, s.links[c]);
      case Send(c, m) => SendSane(s.store, s.links[c], m);
      case Accept(_, _, _) =>
      case _ => assert Sane(s.store, s.links[step.c]);
    }
  }

  lemma OwnLinkInStep(s: State, step: Step)
    requires Inv(s) && Enabled(s, step) && NextLink(s, step).conforming
    ensures InStep(NextLink(s, step))
  {
    RecordedInRange(s.store, s.log);
    match step {
      case Accept(_, _, _) =>
      case Send(c, m) => SendKeeps(s.links[c], m);
      case Read(c) => ReadKeeps(s.links[c]);
      case Work(c, i, ok) => WorkKeeps(s.store, s.links[c], i, ok);
      case Write(c) => WriteKeeps(s.links[c]);
      case Stall(c) => StallKeeps(s.links[c]);
      case Receive(c) => ReceiveKeeps(s.links[c]);
    }
  }

  lemma InvKept(s: State, step: Step)
    requires Inv(s) && Enabled(s, step)
    ensures Inv(Do(s, step))
  {
    var s' := Do(s, step);
    if step.Work? {
      var l := s.links[step.c];
      assert l.tasks[step.i] in l.tasks;
      DispatchedKeeps(s.store, s.log, l, l.tasks[step.i], step.ok);
      ListedStays(s.store, l.session, l.tasks[step.i], step.ok);
    }
    forall c | c in s'.links
      ensures Sane(s'.store, s'.links[c]) && (s'.links[c].conforming ==> InStep(s'.links[c]))
    {
      if c == step.c {
        OwnLinkSane(s, step);
        if s'.links[c].conforming { OwnLinkInStep(s, step); }
      } else {
        SaneStays(s.store, s'.store, s.links[c]);
      }
    }
  }

  lemma {:induction false} InvAlways(s: State, steps: seq<Step>)
    requires Inv(s) && Legal(s, steps)
    ensures Inv(After(s, steps))
    decreases |steps|
  {
    if steps != [] {
      InvKept(s, steps[0]);
      InvAlways(Do(s, steps[0]), steps[1..]);
    }
  }

  // ---- Main results ----

  /** Lockstep: in every run, whatever the other clients do, no task of a conforming client is
      refused when a worker takes it, and no refusal is on its way to such a client. */
  lemma NeverRefused(steps: seq<Step>, c: LinkId)
    requires Legal(Init(), steps) && c in After(Init(), steps).links && After(Init(), steps).links[c].conforming
    ensures var l := After(Init(), steps).links[c];
            && (forall t :: t in l.tasks ==> Gate(l.session, t).None?)
            && (forall r :: r in l.out || r in l.pipe ==> !r.Refused?)
  {
    InvAlways(Init(), steps);
    var l := After(Init(), steps).links[c];
    forall t | t in l.tasks ensures Gate(l.session, t).None? {
      assert WillPass(l, t);
    }
  }

  /** Resume: in every run the stored ids are the last recorded ones and lie in 100..32766. */
  lemma StoreIsLastRecorded(steps: seq<Step>, d: Uuid, u: UserId)
    requires Legal(Init(), steps)
    ensures var s := After(Init(), steps);
            Listed(s.store, (d, u)) ==>
              s.store[d][u] == LastFor(s.log, (d, u)) && 100 <= s.store[d][u] <= 32766
  {
    InvAlways(Init(), steps);
    RecordedInRange(After(Init(), steps).store, After(Init(), steps).log);
  }

  lemma ConnectResumes(store: Store, log: seq<Entry>, session: Session, t: Task)
    requires Recorded(store, log) && Gate(session, t).None? && t.message.request.Connect?
    requires Listed(store, (t.message.request.uuid, t.message.request.user))
    ensures var start := LastFor(log, (t.message.request.uuid, t.message.request.user)) + 1;
            var (_, session', reply) := Dispatched(store, session, t, true);
            && MIN_SESSION_ID < start <= MAX_SESSION_ID
            && session'.sessionid == start && reply == ConnectOk(start)
            && Written(store, session, t, true) == []
  {
    RecordedInRange(store, log);
    assert !t.message.Numbered();
  }

  /** Task i of connection c is a connect of a listed user, and the gate lets it through. */
  ghost predicate Reconnecting(s: State, c: LinkId, i: nat) {
    && Enabled(s, Work(c, i, true))
    && Gate(s.links[c].session, s.links[c].tasks[i]).None?
    && s.links[c].tasks[i].message.request.Connect?
    && Listed(s.store, (s.links[c].tasks[i].message.request.uuid, s.links[c].tasks[i].message.request.user))
  }

  /** Working on it starts the counter one above the last id recorded for this user on this device,
      and tells the client so. */
  ghost predicate Resumes(s: State, c: LinkId, i: nat)
    requires Reconnecting(s, c, i)
  {
    var r := s.links[c].tasks[i].message.request;
    var start := LastFor(s.log, (r.uuid, r.user)) + 1;
    var s' := Do(s, Work(c, i, true));
    && MIN_SESSION_ID < start <= MAX_SESSION_ID
    && s'.links[c].session.sessionid == start && s'.links[c].out == s.links[c].out + [ConnectOk(start)]
    && s'.log == s.log
  }

  lemma InvResumes(s: State, c: LinkId, i: nat)
    requires Inv(s) && Reconnecting(s, c, i)
    ensures Resumes(s, c, i)
  {
    ConnectResumes(s.store, s.log, s.links[c].session, s.links[c].tasks[i]);
    assert s.log + [] == s.log;
  }

  /** In every run a successful connect resumes the count. */
  lemma ReconnectResumes(steps: seq<Step>, c: LinkId, i: nat)
    requires Legal(Init(), steps) && Reconnecting(After(Init(), steps), c, i)
    ensures Resumes(After(Init(), steps), c, i)
  {
    InvAlways(Init(), steps);
    InvResumes(After(Init(), steps), c, i);
  }

  /** A connection after the event loop has read everything that is on the wire. */
  function Drained(l: Link): Link
    decreases |l.wire|
  {
    if l.wire == [] then l else Drained(LinkRead(l))
  }

  lemma {:induction false} DrainedReachesEnd(l: Link)
    requires Follows(l.session.sessionid, l.wire)
    ensures Drained(l).session == l.session.(sessionid := End(l.session.sessionid, l.wire))
    decreases |l.wire|
  {
    if l.wire != [] {
      DrainedReachesEnd(LinkRead(l));
    }
  }

  /** The converse of lockstep: behind whatever a conforming client has pipelined, a numbered message
      passes if and only if it carries the id the client is at. */
  lemma OnlyTheRightIdPasses(steps: seq<Step>, c: LinkId, m: Envelope)
    requires Legal(Init(), steps) && c in After(Init(), steps).links && m.Numbered()
    requires var l := After(Init(), steps).links[c]; l.conforming && l.client.next.Some? && !l.client.waiting
    ensures var l := After(Init(), steps).links[c];
            var later := Drained(l).session;
            Gate(later, Task(m, Expected(later, m))).None? <==> m.stamp == Issued(l.client.next.value)
  {
    InvAlways(Init(), steps);
    var l := After(Init(), steps).links[c];
    NoReplies(l);
    DrainedReachesEnd(l);
    EndInRange(l.session.sessionid, l.wire);
  }

  lemma {:induction false} EndInRange(sid: uint16, wire: seq<Envelope>)
    requires InRange(sid)
    ensures InRange(End(sid, wire))
    decreases |wire|
  {
    if wire != [] {
      EndInRange(if wire[0].Numbered() then Next(sid) else sid, wire[1..]);
    }
  }
}
