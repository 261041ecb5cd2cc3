/** What the answers in a run say: who was accepted where and with which id. From that alone it follows
    what the store holds, which requests are refused and what a connect is answered with. */
module SessionHistory {
  import opened Options
  import opened SessionId
  import opened SessionGate
  import opened Sessions

  /** The types that carry a number, by request. */
  predicate NumberedType(r: Request) {
    match r
    case Login(_, _) => false
    case Connect(_, _) => false
    case Disconnect(_, _) => true
    case Logout(_, _) => true
    case Other(kind) => kind in {8, 10, 12, 14, 16, 20, 23, 26, 28, 30, 33, 35, 36, 38, 48}
  }

  /** What is noted of a run: whom the last successful connect of a connection named, which connections
      have had a connect response at the front of their write queue, the accepted ids with the names they
      count for, and who has logged in on which device. */
  datatype History = History(
    named: map<LinkId, (Uuid, UserId)>,
    answered: set<LinkId>,
    ids: seq<Entry>,
    listed: set<(Uuid, UserId)>,
    devices: set<Uuid>
  )

  const NOTHING := History(map[], {}, [], {}, {})

  /** The answer to the task that a worker has just taken. */
  function AnswerTo(s: State, c: LinkId, i: nat, ok: bool): Reply
    requires Enabled(s, Work(c, i, ok))
  {
    var out := Do(s, Work(c, i, ok)).links[c].out;
    out[|out| - 1]
  }

  /** An accepted disconnect writes the id for the user it names, an accepted logout for the device id. */
  function ByName(h: History, m: Envelope, ok: bool): seq<Entry>
    requires m.stamp < 0x1_0000
  {
    match m.request
    case Disconnect(d, u) => if ok && d in h.devices then [((d, u), m.stamp)] else []
    case Logout(d, _) => if ok && d in h.devices then [((d, d), m.stamp)] else []
    case _ => []
  }

  function ByConnection(h: History, c: LinkId, m: Envelope): seq<Entry>
    requires m.stamp < 0x1_0000
  {
    if NumberedType(m.request) && c in h.named then [(h.named[c], m.stamp)] else []
  }

  function NewlyListed(h: History, r: Request, ok: bool): set<(Uuid, UserId)> {
    match r
    case Login(d, u) => if ok then {(d, u)} else {}
    case Disconnect(d, u) => if ok && d in h.devices then {(d, u)} else {}
    case Logout(d, _) => if ok && d in h.devices then {(d, d)} else {}
    case _ => {}
  }

  /** An accepted task. */
  function Accepted(h: History, c: LinkId, m: Envelope, ok: bool, reply: Reply): History
    requires m.stamp < 0x1_0000
  {
    History(
      if reply.ConnectOk? && m.request.Connect? then h.named[c := (m.request.uuid, m.request.user)] else h.named,
      h.answered,
      h.ids + ByConnection(h, c, m) + ByName(h, m, ok),
      h.listed + NewlyListed(h, m.request, ok),
      h.devices + if ok && m.request.Login? then {m.request.uuid} else {})
  }

  function Note(s: State, h: History, step: Step): History
    requires Enabled(s, step)
  {
    match step
    case Write(c) => Fronted(s, h, c)
    case Stall(c) => Fronted(s, h, c)
    case Work(c, i, ok) =>
      var m := s.links[c].tasks[i].message;
      var reply := AnswerTo(s, c, i, ok);
      if reply.Refused? || m.stamp >= 0x1_0000 then h else Accepted(h, c, m, ok, reply)
    case _ => h
  }

  function Fronted(s: State, h: History, c: LinkId): History
    requires c in s.links && s.links[c].out != []
  {
    var front := s.links[c].out[0];
    if front.ConnectOk? || front.ConnectFailed? then h.(answered := h.answered + {c}) else h
  }

  function Noted(s: State, h: History, steps: seq<Step>): History
    requires Legal(s, steps)
    decreases |steps|
  {
    if steps == [] then h else Noted(Do(s, steps[0]), Note(s, h, steps[0]), steps[1..])
  }

  /** The history of a whole run. */
  function Past(steps: seq<Step>): History
    requires Legal(Init(), steps)
  {
    Noted(Init(), NOTHING, steps)
  }

  /** The last id for a device and user, 100 if there is none. */
  function LastOf(ids: seq<Entry>, who: (Uuid, UserId)): int {
    if ids == [] then 100
    else if ids[|ids| - 1].0 == who then ids[|ids| - 1].1
    else LastOf(ids[..|ids| - 1], who)
  }

  // ---- The server's state agrees with it ----

  ghost predicate LinkMatches(h: History, c: LinkId, session: Session) {
    && session.key == (if c in h.named then Some(h.named[c]) else None)
    && (session.isConnect <==> c in h.answered)
  }

  ghost predicate StoreMatches(store: Store, h: History) {
    && (forall d, u :: Listed(store, (d, u)) <==> (d, u) in h.listed)
    && (forall d :: d in store <==> d in h.devices)
  }

  ghost predicate Matches(s: State, h: History) {
    && (forall c :: c in s.links ==> LinkMatches(h, c, s.links[c].session))
    && (forall c :: c in h.named || c in h.answered ==> c in s.links)
    && StoreMatches(s.store, h) && s.log == h.ids
  }

  lemma NumberedIsType(m: Envelope)
    requires m.Valid()
    ensures m.Numbered() <==> NumberedType(m.request)
  {
  }

  /** The gate, from what a caller can see. */
  lemma GateIs(s: Session, t: Task)
    requires t.message.Valid()
    ensures Gate(s, t) == Some(11010) <==> t.message.stamp != t.expected
    ensures Gate(s, t) == Some(11011) <==>
              t.message.stamp == t.expected && t.expected >= 100 && !(s.isConnect && NumberedType(t.message.request))
    ensures Gate(s, t) == Some(11013) <==>
              t.message.stamp == t.expected && t.expected < 100 && NumberedType(t.message.request)
    ensures Gate(s, t).Some? ==> Gate(s, t).value in {11010, 11011, 11013}
  {
    NumberedIsType(t.message);
  }

  lemma AnswerIs(s: State, c: LinkId, i: nat, ok: bool)
    requires Enabled(s, Work(c, i, ok))
    ensures var l := s.links[c];
            var (store', session', reply) := Dispatched(s.store, l.session, l.tasks[i], ok);
            var s' := Do(s, Work(c, i, ok));
            && AnswerTo(s, c, i, ok) == reply && s'.store == store' && s'.links[c].session == session'
            && s'.log == s.log + Written(s.store, l.session, l.tasks[i], ok)
            && (reply.Refused? <==> Gate(l.session, l.tasks[i]).Some?)
            && (reply.Refused? ==> Gate(l.session, l.tasks[i]) == Some(reply.code))
  {
  }

  /** The messages under way are well formed. */
  ghost predicate Formed(s: State) {
    forall c :: c in s.links ==>
      (forall m :: m in s.links[c].wire ==> m.Valid()) && forall t :: t in s.links[c].tasks ==> t.message.Valid()
  }

  lemma FormedKept(s: State, step: Step)
    requires Formed(s) && Enabled(s, step)
    ensures Formed(Do(s, step))
  {
    var s' := Do(s, step);
    forall c | c in s'.links
      ensures (forall m :: m in s'.links[c].wire ==> m.Valid())
      ensures forall t :: t in s'.links[c].tasks ==> t.message.Valid()
    {
      if c == step.c {
        OwnFormed(s, step);
      }
    }
  }

  lemma OwnFormed(s: State, step: Step)
    requires Formed(s) && Enabled(s, step)
    ensures (forall m :: m in NextLink(s, step).wire ==> m.Valid())
    ensures forall t :: t in NextLink(s, step).tasks ==> t.message.Valid()
  {
    match step {
      case Read(c) => assert s.links[c].wire[0] in s.links[c].wire;
      case Work(c, i, ok) =>
        var tasks := s.links[c].tasks;
        assert forall t :: t in tasks[..i] + tasks[i + 1..] ==> t in tasks;
      case _ =>
    }
  }

  /** What an accepted task does to the store. */
  lemma StoreFollows(store: Store, h: History, c: LinkId, s: Session, t: Task, ok: bool)
    requires StoreMatches(store, h) && Gate(s, t).None? && t.message.Valid() && LinkMatches(h, c, s)
    ensures var (store', s', reply) := Dispatched(store, s, t, ok);
            StoreMatches(store', Accepted(h, c, t.message, ok, reply))
  {
    var recorded := if t.expected >= 100 then Record(store, s.key, t.expected) else store;
    assert StoreMatches(recorded, h);
    var h' := Accepted(h, c, t.message, ok, Dispatched(store, s, t, ok).2);
    var store' := Dispatched(store, s, t, ok).0;
    HandledLists(recorded, s, t.message.request, t.expected, ok);
    assert forall d, u :: Listed(store', (d, u)) <==> (d, u) in h'.listed;
  }

  lemma HandledLists(store: Store, s: Session, r: Request, id: uint16, ok: bool)
    ensures var store' := Handled(store, s, r, id, ok).0;
            && (forall d, u :: Listed(store', (d, u)) <==>
                  || Listed(store, (d, u)) || (ok && r == Login(d, u))
                  || (ok && r == Disconnect(d, u) && d in store) || (ok && r.Logout? && r.uuid == d == u && d in store))
            && (forall d :: d in store' <==> d in store || (ok && r.Login? && r.uuid == d))
  {
  }

  lemma SessionFollows(store: Store, h: History, c: LinkId, s: Session, t: Task, ok: bool)
    requires Gate(s, t).None? && t.message.Valid() && LinkMatches(h, c, s)
    ensures var (store', s', reply) := Dispatched(store, s, t, ok);
            LinkMatches(Accepted(h, c, t.message, ok, reply), c, s')
  {
  }

  lemma LogFollows(store: Store, h: History, c: LinkId, s: Session, t: Task, ok: bool)
    requires StoreMatches(store, h) && Gate(s, t).None? && t.message.Valid() && LinkMatches(h, c, s)
    ensures Written(store, s, t, ok) == ByConnection(h, c, t.message) + ByName(h, t.message, ok)
  {
    NumberedIsType(t.message);
  }

  lemma WorkNoted(s: State, h: History, c: LinkId, i: nat, ok: bool)
    requires Matches(s, h) && Formed(s) && Enabled(s, Work(c, i, ok))
    ensures Matches(Do(s, Work(c, i, ok)), Note(s, h, Work(c, i, ok)))
  {
    var l := s.links[c];
    var t := l.tasks[i];
    assert t in l.tasks;
    AnswerIs(s, c, i, ok);
    if Gate(l.session, t).None? {
      AcceptedNoted(s, h, c, i, ok);
    } else {
      assert s.log + [] == s.log;
    }
  }

  lemma AcceptedNoted(s: State, h: History, c: LinkId, i: nat, ok: bool)
    requires Matches(s, h) && Enabled(s, Work(c, i, ok))
    requires Gate(s.links[c].session, s.links[c].tasks[i]).None? && s.links[c].tasks[i].message.Valid()
    ensures Matches(Do(s, Work(c, i, ok)), Accepted(h, c, s.links[c].tasks[i].message, ok, AnswerTo(s, c, i, ok)))
  {
    var session, t := s.links[c].session, s.links[c].tasks[i];
    AnswerIs(s, c, i, ok);
    StoreFollows(s.store, h, c, session, t, ok);
    SessionFollows(s.store, h, c, session, t, ok);
    LogFollows(s.store, h, c, session, t, ok);
    Associative3(h.ids, ByConnection(h, c, t.message), ByName(h, t.message, ok));
  }

  lemma Associative3<T>(x: seq<T>, y: seq<T>, z: seq<T>)
    ensures x + (y + z) == x + y + z
  {
  }

  lemma OtherNoted(s: State, h: History, step: Step)
    requires Matches(s, h) && Enabled(s, step) && !step.Work?
    ensures Matches(Do(s, step), Note(s, h, step))
  {
  }

  lemma {:induction false} NotedMatches(s: State, h: History, steps: seq<Step>)
    requires Matches(s, h) && Formed(s) && Legal(s, steps)
    ensures Matches(After(s, steps), Noted(s, h, steps)) && Formed(After(s, steps))
    decreases |steps|
  {
    if steps != [] {
      FormedKept(s, steps[0]);
      if steps[0].Work? {
        WorkNoted(s, h, steps[0].c, steps[0].i, steps[0].ok);
      } else {
        OtherNoted(s, h, steps[0]);
      }
      NotedMatches(Do(s, steps[0]), Note(s, h, steps[0]), steps[1..]);
    }
  }

  lemma {:induction false} LastIs(ids: seq<Entry>, who: (Uuid, UserId))
    ensures LastOf(ids, who) == LastFor(ids, who)
  {
    if ids != [] {
      LastIs(ids[..|ids| - 1], who);
    }
  }

  // ---- Main results ----

  /** In every run the store lists exactly the users who have logged in on a device, or were written there
      by name, and holds for each the last id that was accepted for him there, 100 if there is none. */
  lemma StoreFollowsAnswers(steps: seq<Step>, d: Uuid, u: UserId)
    requires Legal(Init(), steps)
    ensures var store, h := After(Init(), steps).store, Past(steps);
            && (d in store && u in store[d] <==> (d, u) in h.listed)
            && (d in store && u in store[d] ==> store[d][u] == LastOf(h.ids, (d, u)) && 100 <= store[d][u] <= 32766)
  {
    NotedMatches(Init(), NOTHING, steps);
    StoreIsLastRecorded(steps, d, u);
    LastIs(Past(steps).ids, (d, u));
    assert Listed(After(Init(), steps).store, (d, u)) <==> (d, u) in Past(steps).listed;
  }

  /** In every run and for every connection, whether its client conforms or not: exactly when a task is
      refused, and with which code. A refused task changes nothing. Before a connect response has been at
      the front of the write queue no numbered request is accepted. */
  lemma RefusedExactly(steps: seq<Step>, c: LinkId, i: nat, ok: bool)
    requires Legal(Init(), steps) && Enabled(After(Init(), steps), Work(c, i, ok))
    ensures var s, h := After(Init(), steps), Past(steps);
            var t, s', reply := s.links[c].tasks[i], Do(s, Work(c, i, ok)), AnswerTo(s, c, i, ok);
            && (reply == Refused(11010) <==> t.message.stamp != t.expected)
            && (reply == Refused(11011) <==>
                  && t.message.stamp == t.expected && t.expected >= 100
                  && !(c in h.answered && NumberedType(t.message.request)))
            && (reply == Refused(11013) <==>
                  t.message.stamp == t.expected && t.expected < 100 && NumberedType(t.message.request))
            && (reply.Refused? ==>
                  && reply.code in {11010, 11011, 11013}
                  && s'.store == s.store && s'.links[c].session == s.links[c].session)
            && (NumberedType(t.message.request) && c !in h.answered ==> reply.Refused?)
  {
    NotedMatches(Init(), NOTHING, steps);
    var s := After(Init(), steps);
    var t := s.links[c].tasks[i];
    assert t in s.links[c].tasks;
    GateIs(s.links[c].session, t);
    AnswerIs(s, c, i, ok);
  }

  /** What the event loop expects of a message it hands to a worker: a numbered one gets the counter's
      value, 100 at the end of the range, and moves it on; any other gets 0. */
  lemma ReadIssues(steps: seq<Step>, c: LinkId)
    requires Legal(Init(), steps) && Enabled(After(Init(), steps), Read(c))
    ensures var l, l' := After(Init(), steps).links[c], Do(After(Init(), steps), Read(c)).links[c];
            var m, sid, sid' := l.wire[0], l.session.sessionid, l'.session.sessionid;
            if TypeOf(m.request) == 42 || TypeOf(m.request) == 43 then l'.tasks == l.tasks && sid' == sid
            else
              && l'.tasks == l.tasks
                             + [Task(m, if !NumberedType(m.request) then 0 else if sid == 32767 then 100 else sid)]
              && sid' == if !NumberedType(m.request) then sid else if sid == 32767 then 100 else (sid + 1) % 65536
  {
    NotedMatches(Init(), NOTHING, steps);
    var l := After(Init(), steps).links[c];
    assert l.wire[0] in l.wire;
    NumberedIsType(l.wire[0]);
  }

  /** In every run: a connect that is not refused and whose lookups succeed is answered with one above the
      last id accepted for this user on this device, if he is listed there; any other fails. The counter
      of the connection is what the answer says. */
  lemma ConnectAnswers(steps: seq<Step>, c: LinkId, i: nat, ok: bool)
    requires Legal(Init(), steps) && Enabled(After(Init(), steps), Work(c, i, ok))
    requires var s := After(Init(), steps);
             s.links[c].tasks[i].message.request.Connect? && !AnswerTo(s, c, i, ok).Refused?
    ensures var s, h := After(Init(), steps), Past(steps);
            var r := s.links[c].tasks[i].message.request;
            var who := (r.uuid, r.user);
            && (who in h.listed ==> 100 <= LastOf(h.ids, who) < 32767)
            && AnswerTo(s, c, i, ok) ==
                 (if ok && who in h.listed then ConnectOk(LastOf(h.ids, who) + 1) else ConnectFailed)
            && (AnswerTo(s, c, i, ok).ConnectOk? ==>
                  Do(s, Work(c, i, ok)).links[c].session.sessionid == AnswerTo(s, c, i, ok).sid)
  {
    var s := After(Init(), steps);
    var r := s.links[c].tasks[i].message.request;
    NotedMatches(Init(), NOTHING, steps);
    StoreFollowsAnswers(steps, r.uuid, r.user);
    AnswerIs(s, c, i, ok);
    assert s.links[c].tasks[i] in s.links[c].tasks;
    NumberedIsType(s.links[c].tasks[i].message);
  }

  lemma {:induction false} ListedForGood(s: State, h: History, steps: seq<Step>)
    requires Legal(s, steps)
    ensures h.listed <= Noted(s, h, steps).listed
    decreases |steps|
  {
    if steps != [] {
      ListedForGood(Do(s, steps[0]), Note(s, h, steps[0]), steps[1..]);
    }
  }

  lemma {:induction false} NotedInTwo(s: State, h: History, steps: seq<Step>, more: seq<Step>)
    requires Legal(s, steps) && Legal(After(s, steps), more)
    ensures Legal(s, steps + more) && After(s, steps + more) == After(After(s, steps), more)
    ensures Noted(s, h, steps + more) == Noted(After(s, steps), Noted(s, h, steps), more)
    decreases |steps|
  {
    if steps == [] {
      assert [] + more == more;
    } else {
      assert (steps + more)[0] == steps[0] && (steps + more)[1..] == steps[1..] + more;
      NotedInTwo(Do(s, steps[0]), Note(s, h, steps[0]), steps[1..], more);
    }
  }

  /** After an accepted login, whatever happens in between, a connect of that user on that device that is
      not refused and whose lookups succeed is answered with success. */
  lemma LoginThenConnect(steps: seq<Step>, b: LinkId, j: nat, more: seq<Step>, c: LinkId, i: nat)
    requires Legal(Init(), steps) && Enabled(After(Init(), steps), Work(b, j, true))
    requires Legal(Do(After(Init(), steps), Work(b, j, true)), more)
    requires var s := After(Init(), steps);
             s.links[b].tasks[j].message.request.Login? && !AnswerTo(s, b, j, true).Refused?
    requires var s, s' := After(Init(), steps), After(Do(After(Init(), steps), Work(b, j, true)), more);
             && Enabled(s', Work(c, i, true)) && !AnswerTo(s', c, i, true).Refused?
             && s'.links[c].tasks[i].message.request.Connect?
             && s'.links[c].tasks[i].message.request.uuid == s.links[b].tasks[j].message.request.uuid
             && s'.links[c].tasks[i].message.request.user == s.links[b].tasks[j].message.request.user
    ensures AnswerTo(After(Do(After(Init(), steps), Work(b, j, true)), more), c, i, true).ConnectOk?
  {
    var s, h, login := After(Init(), steps), Past(steps), Work(b, j, true);
    NotedMatches(Init(), NOTHING, steps);
    assert s.links[b].tasks[j] in s.links[b].tasks;
    var rest := [login] + more;
    assert rest[0] == login && rest[1..] == more;
    assert Legal(s, rest) && After(s, rest) == After(Do(s, login), more);
    assert Noted(s, h, rest) == Noted(Do(s, login), Note(s, h, login), more);
    ListedForGood(Do(s, login), Note(s, h, login), more);
    NotedInTwo(Init(), NOTHING, steps, rest);
    ConnectAnswers(steps + rest, c, i, true);
  }
}
