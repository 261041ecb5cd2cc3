/** The gate in front of every request: the read callback says which id it expects, the worker
    compares it with the stamp, records the accepted id and lets the request through. */
module SessionGate {
  import opened VarLength
  import opened Frames
  import opened SessionId
  import opened Options

  type Uuid = string
  type UserId = string

  /** connectInfo: per device, the users that logged in on it with their recorded session ids. */
  type Store = map<Uuid, map<UserId, int>>

  const LOGIN: byte := 3
  const CLIENT_CONNECT: byte := 6
  const CLIENT_DISCONNECT: byte := 8
  const LOGOUT: byte := 10

  const WRONG_SESSION_ID := 11010
  const NOT_CONNECTED := 11011
  const CHECKED_WITHOUT_ID := 11013

  datatype Request =
    | Login(uuid: Uuid, user: UserId)
    | Connect(uuid: Uuid, user: UserId)
    | Disconnect(uuid: Uuid, user: UserId)
    | Logout(uuid: Uuid, user: UserId)
    | Other(kind: byte)

  function TypeOf(r: Request): byte {
    match r
    case Login(_, _) => LOGIN
    case Connect(_, _) => CLIENT_CONNECT
    case Disconnect(_, _) => CLIENT_DISCONNECT
    case Logout(_, _) => LOGOUT
    case Other(kind) => kind
  }

  /** A reassembled message with the session id of its last frame. */
  datatype Envelope = Envelope(request: Request, stamp: nat) {
    predicate Numbered() { Checked(TypeOf(request)) }

    /** Types 42 and 43 never reach a worker; the id field of a frame has 15 bits. */
    predicate Valid() {
      && stamp <= MAX_SESSION_ID
      && (request.Other? ==> request.kind !in {LOGIN, CLIENT_CONNECT, CLIENT_DISCONNECT, LOGOUT})
    }

    predicate ForWorker() {
      TypeOf(request) != SERVER_CONNECT && TypeOf(request) != SERVER_DISCONNECT
    }
  }

  datatype Task = Task(message: Envelope, expected: uint16)

  datatype Reply = ConnectOk(sid: uint16) | ConnectFailed | Refused(code: nat) | Answer

  /** What the server keeps per connection; key is None until a connect succeeded. */
  datatype Session = Session(sessionid: uint16, isConnect: bool, key: Option<(Uuid, UserId)>)

  // ---- The read callback ----

  function Expected(s: Session, m: Envelope): uint16 {
    if m.Numbered() then Issued(s.sessionid) else 0
  }

  function Advanced(s: Session, m: Envelope): Session {
    if m.Numbered() then s.(sessionid := Next(s.sessionid)) else s
  }

  // ---- The worker ----

  /** The error a task is refused with, if any. */
  function Gate(s: Session, t: Task): Option<nat> {
    if t.expected != t.message.stamp then Some(WRONG_SESSION_ID)
    else if t.expected >= MIN_SESSION_ID then
      if s.isConnect && t.message.Numbered() then None else Some(NOT_CONNECTED)
    else if !t.message.Numbered() then None
    else Some(CHECKED_WITHOUT_ID)
  }

  /** updateSessionID: nothing happens unless the device's record lists the user. */
  function Record(store: Store, key: Option<(Uuid, UserId)>, id: uint16): Store {
    match key
    case None => store
    case Some((uuid, user)) =>
      if uuid in store && user in store[uuid] then store[uuid := store[uuid][user := id]] else store
  }

  /** The handlers that touch sessions; ok says whether their lookups of user and device succeed. */
  function Handled(store: Store, s: Session, r: Request, id: uint16, ok: bool): (Store, Session, Reply) {
    match r
    case Login(uuid, user) =>
      if !ok then (store, s, Answer)
      else
        var users := if uuid in store then store[uuid] else map[];
        (store[uuid := if user in users then users else users[user := MIN_SESSION_ID]], s, Answer)
    case Connect(uuid, user) =>
      if ok && uuid in store && user in store[uuid] then
        var sid := (store[uuid][user] + 1) % UINT16;
        (store, s.(sessionid := sid, key := Some((uuid, user))), ConnectOk(sid))
      else (store, s, ConnectFailed)
    case Disconnect(uuid, user) =>
      if ok && uuid in store then (store[uuid := store[uuid][user := id]], s, Answer) else (store, s, Answer)
    case Logout(uuid, user) =>
      // the map is indexed by the device id here, not by the user id
      if ok && uuid in store then (store[uuid := store[uuid][uuid := id]], s, Answer) else (store, s, Answer)
    case Other(_) => (store, s, Answer)
  }

  function Dispatched(store: Store, s: Session, t: Task, ok: bool): (Store, Session, Reply) {
    match Gate(s, t)
    case Some(code) => (store, s, Refused(code))
    case None =>
      var recorded := if t.expected >= MIN_SESSION_ID then Record(store, s.key, t.expected) else store;
      Handled(recorded, s, t.message.request, t.expected, ok)
  }

  /** History: the ids a task records, and for whom. The gate records under the connection's key,
      the handlers of disconnect and logout under the names in the request. */
  function Written(store: Store, s: Session, t: Task, ok: bool): seq<((Uuid, UserId), uint16)> {
    if Gate(s, t).Some? then []
    else if t.expected < MIN_SESSION_ID then WrittenBy(store, t.message.request, t.expected, ok)
    else
      (if s.key.Some? then [(s.key.value, t.expected)] else [])
      + WrittenBy(store, t.message.request, t.expected, ok)
  }

  function WrittenBy(store: Store, r: Request, id: uint16, ok: bool): seq<((Uuid, UserId), uint16)> {
    match r
    case Disconnect(uuid, user) => if ok && uuid in store then [((uuid, user), id)] else []
    case Logout(uuid, user) => if ok && uuid in store then [((uuid, uuid), id)] else []
    case _ => []
  }

  /** The write callback: any connect response sets the flag, a failed one too. */
  function Wrote(s: Session, r: Reply): Session {
    if r.ConnectOk? || r.ConnectFailed? then s.(isConnect := true) else s
  }

  // ---- The same, in place ----

  class Database {
    var connectInfo: Store

    method UpdateSessionID(key: Option<(Uuid, UserId)>, id: uint16)
      modifies this
      ensures connectInfo == Record(old(connectInfo), key, id)
    {
      if key.Some? {
        var (uuid, user) := key.value;
        if uuid in connectInfo && user in connectInfo[uuid] {
          connectInfo := connectInfo[uuid := connectInfo[uuid][user := id]];
        }
      }
    }
  }

  /** The session part of Read_IO. */
  class Node {
    var sessionid: uint16
    var isConnect: bool
    var key: Option<(Uuid, UserId)>

    ghost function View(): Session
      reads this
    {
      Session(sessionid, isConnect, key)
    }

    /** connection_read_callback: the id the worker has to compare with. */
    method Issue(m: Envelope) returns (id: uint16)
      modifies this
      ensures id == Expected(old(View()), m) && View() == Advanced(old(View()), m)
    {
      id := 0;
      if m.Numbered() {
        if sessionid == MAX_SESSION_ID {
          sessionid := MIN_SESSION_ID;
          id := sessionid;
        } else {
          id := sessionid;
          sessionid := (sessionid + 1) % UINT16;
        }
      }
    }

    method OnLogin(db: Database, uuid: Uuid, user: UserId, ok: bool) returns (reply: Reply)
      modifies db
      ensures (db.connectInfo, View(), reply) == Handled(old(db.connectInfo), old(View()), Login(uuid, user), 0, ok)
    {
      reply := Answer;
      if ok {
        var users := map[];
        if uuid in db.connectInfo {
          users := db.connectInfo[uuid];
        }
        if user !in users {
          users := users[user := MIN_SESSION_ID];
        }
        db.connectInfo := db.connectInfo[uuid := users];
      }
    }

    method OnConnect(db: Database, uuid: Uuid, user: UserId, ok: bool) returns (reply: Reply)
      modifies this
      ensures (db.connectInfo, View(), reply) == Handled(old(db.connectInfo), old(View()), Connect(uuid, user), 0, ok)
    {
      if ok && uuid in db.connectInfo && user in db.connectInfo[uuid] {
        key := Some((uuid, user));
        sessionid := db.connectInfo[uuid][user] % UINT16;
        sessionid := (sessionid + 1) % UINT16;
        reply := ConnectOk(sessionid);
      } else {
        reply := ConnectFailed;
      }
    }

    /** dispatch: the gate, then the handler. */
    method Dispatch(db: Database, t: Task, ok: bool) returns (reply: Reply)
      modifies this, db
      ensures (db.connectInfo, View(), reply) == Dispatched(old(db.connectInfo), old(View()), t, ok)
    {
      if t.expected == t.message.stamp {
        if t.expected >= MIN_SESSION_ID {
          if isConnect && t.message.Numbered() {
            db.UpdateSessionID(key, t.expected);
            reply := Handle(db, t.message.request, t.expected, ok);
          } else {
            reply := Refused(NOT_CONNECTED);
          }
        } else if !t.message.Numbered() {
          reply := Handle(db, t.message.request, t.expected, ok);
        } else {
          reply := Refused(CHECKED_WITHOUT_ID);
        }
      } else {
        reply := Refused(WRONG_SESSION_ID);
      }
    }

    method Handle(db: Database, r: Request, id: uint16, ok: bool) returns (reply: Reply)
      modifies this, db
      ensures (db.connectInfo, View(), reply) == Handled(old(db.connectInfo), old(View()), r, id, ok)
    {
      match r {
        case Login(uuid, user) => reply := OnLogin(db, uuid, user, ok);
        case Connect(uuid, user) => reply := OnConnect(db, uuid, user, ok);
        case Disconnect(uuid, user) =>
          if ok && uuid in db.connectInfo {
            db.connectInfo := db.connectInfo[uuid := db.connectInfo[uuid][user := id]];
          }
          reply := Answer;
        case Logout(uuid, user) =>
          if ok && uuid in db.connectInfo {
            db.connectInfo := db.connectInfo[uuid := db.connectInfo[uuid][uuid := id]];
          }
          reply := Answer;
        case Other(_) => reply := Answer;
      }
    }
  }
}
