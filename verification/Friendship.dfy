/** Asking for and agreeing to a friendship: two sequences of database writes that record in the
    request how far they came. The process may stop before any write. */
module Friendship {
  import opened Options

  type UserId = string
  type NodeId = nat

  datatype Status =
    | Asked                // "request"
    | NodeMade             // "createNode"
    | CountMade            // "createNodeCount"
    | Agreed               // "agree"
    | InviterAdded         // "inviter"
    | InviterUnread        // "userUnreadInviter"
    | InviteeAdded         // "invitee"
    | Finished             // "finish"

  datatype Request = Request(inviter: UserId, invitee: UserId, node: Option<NodeId>, status: Status)

  datatype User = User(friends: set<(NodeId, UserId)>, version: nat)

  /** The collections user, addFriend, messageNode, messageNodeCount and userUnread. */
  datatype Db = Db(
    users: map<UserId, User>,
    requests: map<string, Request>,
    nodes: map<NodeId, (UserId, UserId)>,
    next: NodeId,
    counts: map<NodeId, nat>,
    unread: set<(UserId, NodeId)>,
    made: map<NodeId, string>,         // history: the request each node was made for
    agreed: map<string, UserId>        // history: who agreed to each request
  )

  datatype Outcome = Done | Stopped | Failed(code: nat)

  // ---- The key of a pair ----

  predicate Less(a: string, b: string) {
    if a == "" || b == "" then b != ""
    else if a[0] != b[0] then a[0] < b[0]
    else Less(a[1..], b[1..])
  }

  function Key(a: UserId, b: UserId): string {
    if Less(a, b) then a + "_" + b else b + "_" + a
  }

  lemma {:induction false} LessIsTotal(a: string, b: string)
    requires a != b
    ensures Less(a, b) <==> !Less(b, a)
  {
    if a != "" && b != "" && a[0] == b[0] {
      assert a == [a[0]] + a[1..] && b == [b[0]] + b[1..];
      LessIsTotal(a[1..], b[1..]);
    }
  }

  lemma KeyIsSymmetric(a: UserId, b: UserId)
    ensures Key(a, b) == Key(b, a)
  {
    if a != b {
      LessIsTotal(a, b);
    }
  }

  lemma SplitAtBar(a: string, b: string, c: string, d: string)
    requires '_' !in a && '_' !in b && a + "_" + b == c + "_" + d
    ensures a == c && b == d
  {
    var s := a + "_" + b;
    assert forall i :: 0 <= i < |s| && s[i] == '_' ==> i == |a|;
    assert s[|c|] == '_';
    assert s[..|a|] == a && s[..|c|] == c;
    assert s[|a| + 1..] == b && s[|c| + 1..] == d;
  }

  /** Ids without a bar share their key with nobody else, in either direction. */
  lemma KeyIsUnique(a: UserId, b: UserId, c: UserId, d: UserId)
    requires '_' !in a && '_' !in b
    ensures Key(a, b) == Key(c, d) <==> (a == c && b == d) || (a == d && b == c)
  {
    KeyIsSymmetric(a, b);
    if Key(a, b) == Key(c, d) {
      var (l, r) := if Less(a, b) then (a, b) else (b, a);
      var (l', r') := if Less(c, d) then (c, d) else (d, c);
      SplitAtBar(l, r, l', r');
    }
  }

  lemma BarsCanCollide()
    ensures Key("a_b", "c") == Key("a", "b_c")
  {
    assert Less("a_b", "c") && Less("a", "b_c");
    assert "a_b" + "_" + "c" == "a" + "_" + "b_c";
  }

  // ---- One write ----

  datatype Write =
    | InsertRequest(key: string, inviter: UserId, invitee: UserId)
    | InsertNode(key: string, inviter: UserId, invitee: UserId)
    | SetNode(key: string, node: NodeId)
    | InsertCount(node: NodeId)
    | SetStatus(key: string, status: Status)
    | Consent(key: string, who: UserId)
    | TakeNumber(node: NodeId)
    | AddToFriends(user: UserId, node: NodeId, friend: UserId)
    | InsertUnread(user: UserId, node: NodeId)

  function Apply(db: Db, w: Write): Db {
    match w
    case InsertRequest(key, a, b) => db.(requests := db.requests[key := Request(a, b, None, Asked)])
    case InsertNode(key, a, b) =>
      db.(nodes := db.nodes[db.next := (a, b)], next := db.next + 1, made := db.made[db.next := key])
    case SetNode(key, n) =>
      if key !in db.requests then db
      else db.(requests := db.requests[key := db.requests[key].(node := Some(n), status := NodeMade)])
    case InsertCount(n) => db.(counts := db.counts[n := 0])
    case SetStatus(key, status) =>
      if key !in db.requests then db
      else db.(requests := db.requests[key := db.requests[key].(status := status)])
    case Consent(key, who) =>
      if key !in db.requests then db
      else db.(requests := db.requests[key := db.requests[key].(status := Agreed)], agreed := db.agreed[key := who])
    case TakeNumber(n) => if n in db.counts then db.(counts := db.counts[n := db.counts[n] + 1]) else db
    case AddToFriends(u, n, f) =>
      // $addToSet and $inc in one update
      if u !in db.users then db
      else
        var user := db.users[u];
        db.(users := db.users[u := User(user.friends + {(n, f)}, user.version + 1)])
    case InsertUnread(u, n) => db.(unread := db.unread + {(u, n)})
  }

  function Run(db: Db, plan: seq<Write>): Db
    decreases |plan|
  {
    if plan == [] then db else Run(Apply(db, plan[0]), plan[1..])
  }

  lemma {:induction false} RunPrefix(db: Db, plan: seq<Write>, i: nat)
    requires i < |plan|
    ensures Run(db, plan[..i + 1]) == Apply(Run(db, plan[..i]), plan[i])
    decreases i
  {
    if i > 0 {
      RunPrefix(Apply(db, plan[0]), plan[1..], i - 1);
      assert plan[..i + 1][1..] == plan[1..][..i] && plan[..i][1..] == plan[1..][..i - 1];
    }
  }

  // ---- The two operations ----

  /** addFriend: the request, the node, its counter, and the number of the request message. */
  function AskPlan(key: string, a: UserId, b: UserId, n: NodeId): seq<Write> {
    [InsertRequest(key, a, b), InsertNode(key, a, b), SetNode(key, n), InsertCount(n), SetStatus(key, CountMade),
     TakeNumber(n)]
  }

  /** addFriendAuthorize: both users' lists and unread entries, with the status in between. */
  function AgreePlan(key: string, a: UserId, b: UserId, n: NodeId): seq<Write> {
    [Consent(key, b),
     AddToFriends(a, n, b), SetStatus(key, InviterAdded),
     InsertUnread(a, n), SetStatus(key, InviterUnread),
     AddToFriends(b, n, a), SetStatus(key, InviteeAdded),
     InsertUnread(b, n), SetStatus(key, Finished)]
  }

  predicate Lists(db: Db, u: UserId, friend: UserId) {
    u in db.users && exists e :: e in db.users[u].friends && e.1 == friend
  }

  /** What the handler and addFriend reject before the first write. */
  function AskError(db: Db, current: UserId, a: UserId, b: UserId): Option<nat> {
    if a == "" || b == "" || a != current then Some(11012)
    else if b !in db.users || a !in db.users then Some(40003)
    else if Lists(db, a, b) then Some(11020)
    else if Lists(db, b, a) then Some(11022)
    else if Key(a, b) in db.requests then Some(40004)
    else None
  }

  /** Which of the two is the invitee is taken from the caller, not from the request. (In AgreePlan
      the one who agrees is b: the caller.) */
  function AgreeError(db: Db, current: UserId, a: UserId, b: UserId): Option<nat> {
    if a == "" || b == "" || b != current then Some(11023)
    else if Key(a, b) !in db.requests then Some(40008)
    else if !db.requests[Key(a, b)].status.CountMade? then Some(40009)
    else None
  }

  datatype Op =
    | Ask(current: UserId, inviter: UserId, invitee: UserId, stop: nat)
    | Agree(current: UserId, inviter: UserId, invitee: UserId, stop: nat)

  function Error(db: Db, op: Op): Option<nat> {
    match op
    case Ask(current, a, b, _) => AskError(db, current, a, b)
    case Agree(current, a, b, _) => AgreeError(db, current, a, b)
  }

  function Plan(db: Db, op: Op): seq<Write> {
    var key := Key(op.inviter, op.invitee);
    if op.Ask? then AskPlan(key, op.inviter, op.invitee, db.next)
    else if key in db.requests && db.requests[key].node.Some? then
      AgreePlan(key, op.inviter, op.invitee, db.requests[key].node.value)
    else []
  }

  /** The writes of a process that stops after that many. */
  function Halted(db: Db, plan: seq<Write>, stop: nat): (Db, Outcome) {
    if stop < |plan| then (Run(db, plan[..stop]), Stopped) else (Run(db, plan), Done)
  }

  function Perform(db: Db, op: Op): (Db, Outcome) {
    match Error(db, op)
    case Some(code) => (db, Failed(code))
    case None => Halted(db, Plan(db, op), op.stop)
  }

  lemma WholePlan(db: Db, plan: seq<Write>)
    ensures Run(db, plan[..0]) == db && plan[..|plan|] == plan
  {
  }

  // ---- The same, write by write ----

  class Mongo {
    var db: Db
    var left: nat            // writes this process still gets to do

    /** What is known after i writes of a plan. */
    ghost predicate Progress(start: Db, plan: seq<Write>, stop: nat, i: nat)
      reads this
    {
      i <= stop && i <= |plan| && left == stop - i && db == Run(start, plan[..i])
    }

    /** One journalled write, number i of the plan, unless the process stops before it. */
    method Next(w: Write, ghost start: Db, ghost plan: seq<Write>, ghost stop: nat, ghost i: nat) returns (ok: bool)
      requires i < |plan| && w == plan[i] && Progress(start, plan, stop, i)
      modifies this
      ensures ok ==> Progress(start, plan, stop, i + 1)
      ensures !ok ==> (db, Stopped) == Halted(start, plan, stop)
    {
      RunPrefix(start, plan, i);
      ok := left > 0;
      if ok {
        db := Apply(db, w);
        left := left - 1;
      }
    }

    method AskWrites(key: string, a: UserId, b: UserId, node: NodeId) returns (r: Outcome)
      modifies this
      ensures (db, r) == Halted(old(db), AskPlan(key, a, b, node), old(left))
    {
      ghost var start, plan, stop := db, AskPlan(key, a, b, node), left;
      WholePlan(start, plan);
      var ok := Next(InsertRequest(key, a, b), start, plan, stop, 0);
      if ok {
        ok := NodeWrites(key, a, b, node, start, plan, stop);
      }
      if ok {
        ok := Next(TakeNumber(node), start, plan, stop, 5);
      }
      r := if ok then Done else Stopped;
    }

    /** The message node and its counter, and the status that records them. */
    method NodeWrites(key: string, a: UserId, b: UserId, node: NodeId,
                      ghost start: Db, ghost plan: seq<Write>, ghost stop: nat) returns (ok: bool)
      requires |plan| == 6 && Progress(start, plan, stop, 1)
      requires plan[1] == InsertNode(key, a, b) && plan[2] == SetNode(key, node)
      requires plan[3] == InsertCount(node) && plan[4] == SetStatus(key, CountMade)
      modifies this
      ensures ok ==> Progress(start, plan, stop, 5)
      ensures !ok ==> (db, Stopped) == Halted(start, plan, stop)
    {
      ok := Next(InsertNode(key, a, b), start, plan, stop, 1);
      if !ok { return; }
      ok := Next(SetNode(key, node), start, plan, stop, 2);
      if !ok { return; }
      ok := Next(InsertCount(node), start, plan, stop, 3);
      if !ok { return; }
      ok := Next(SetStatus(key, CountMade), start, plan, stop, 4);
    }

    method AgreeWrites(key: string, a: UserId, b: UserId, node: NodeId) returns (r: Outcome)
      modifies this
      ensures (db, r) == Halted(old(db), AgreePlan(key, a, b, node), old(left))
    {
      ghost var start, plan, stop := db, AgreePlan(key, a, b, node), left;
      WholePlan(start, plan);
      var ok := Next(Consent(key, b), start, plan, stop, 0);
      if ok {
        ok := InviterWrites(key, a, b, node, start, plan, stop);
      }
      if ok {
        ok := InviteeWrites(key, a, b, node, start, plan, stop);
      }
      r := if ok then Done else Stopped;
    }

    /** The part of addFriendAuthorize that concerns the inviter. */
    method InviterWrites(key: string, a: UserId, b: UserId, node: NodeId,
                         ghost start: Db, ghost plan: seq<Write>, ghost stop: nat) returns (ok: bool)
      requires |plan| == 9 && Progress(start, plan, stop, 1)
      requires plan[1] == AddToFriends(a, node, b) && plan[2] == SetStatus(key, InviterAdded)
      requires plan[3] == InsertUnread(a, node) && plan[4] == SetStatus(key, InviterUnread)
      modifies this
      ensures ok ==> Progress(start, plan, stop, 5)
      ensures !ok ==> (db, Stopped) == Halted(start, plan, stop)
    {
      ok := Next(AddToFriends(a, node, b), start, plan, stop, 1);
      if !ok { return; }
      ok := Next(SetStatus(key, InviterAdded), start, plan, stop, 2);
      if !ok { return; }
      ok := Next(InsertUnread(a, node), start, plan, stop, 3);
      if !ok { return; }
      ok := Next(SetStatus(key, InviterUnread), start, plan, stop, 4);
    }

    /** The part that concerns the invitee. */
    method InviteeWrites(key: string, a: UserId, b: UserId, node: NodeId,
                         ghost start: Db, ghost plan: seq<Write>, ghost stop: nat) returns (ok: bool)
      requires |plan| == 9 && Progress(start, plan, stop, 5)
      requires plan[5] == AddToFriends(b, node, a) && plan[6] == SetStatus(key, InviteeAdded)
      requires plan[7] == InsertUnread(b, node) && plan[8] == SetStatus(key, Finished)
      modifies this
      ensures ok ==> Progress(start, plan, stop, 9)
      ensures !ok ==> (db, Stopped) == Halted(start, plan, stop)
    {
      ok := Next(AddToFriends(b, node, a), start, plan, stop, 5);
      if !ok { return; }
      ok := Next(SetStatus(key, InviteeAdded), start, plan, stop, 6);
      if !ok { return; }
      ok := Next(InsertUnread(b, node), start, plan, stop, 7);
      if !ok { return; }
      ok := Next(SetStatus(key, Finished), start, plan, stop, 8);
    }

    method AddFriend(current: UserId, inviter: UserId, invitee: UserId) returns (r: Outcome)
      modifies this
      ensures (db, r) == Perform(old(db), Ask(current, inviter, invitee, old(left)))
    {
      if inviter == "" || invitee == "" || inviter != current { return Failed(11012); }
      if invitee !in db.users { return Failed(40003); }
      if inviter !in db.users { return Failed(40003); }
      if Lists(db, inviter, invitee) { return Failed(11020); }
      if Lists(db, invitee, inviter) { return Failed(11022); }
      var key := Key(inviter, invitee);
      if key in db.requests { return Failed(40004); }
      r := AskWrites(key, inviter, invitee, db.next);
    }

    method AddFriendAuthorize(current: UserId, inviter: UserId, invitee: UserId) returns (r: Outcome)
      requires forall key :: key in db.requests && db.requests[key].status.CountMade? ==> db.requests[key].node.Some?
      modifies this
      ensures (db, r) == Perform(old(db), Agree(current, inviter, invitee, old(left)))
    {
      if inviter == "" || invitee == "" || invitee != current { return Failed(11023); }
      var key := Key(inviter, invitee);
      if key !in db.requests { return Failed(40008); }
      if !db.requests[key].status.CountMade? { return Failed(40009); }
      r := AgreeWrites(key, inviter, invitee, db.requests[key].node.value);
    }
  }
}
