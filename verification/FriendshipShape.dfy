/** The shape of the friendship collections, the effects of the two workflows on them, and what single
    writes do to both. */
module FriendshipShape {
  import opened Options
  import opened Friendship

  // ---- Effects and claims ----

  /** What the workflow has to bring about for node n, when x's list comes before y's. */
  ghost predicate Effect(db: Db, n: NodeId, x: UserId, y: UserId, k: int) {
    match k
    case 1 => n in db.counts
    case 2 => x in db.users && (n, y) in db.users[x].friends
    case 3 => (x, n) in db.unread
    case 4 => y in db.users && (n, x) in db.users[y].friends
    case 5 => (y, n) in db.unread
    case _ => true
  }

  /** All effects below this number are claimed by the status. */
  function Claimed(s: Status): int {
    match s
    case Asked => 0
    case NodeMade => 1
    case CountMade => 2
    case Agreed => 2
    case InviterAdded => 3
    case InviterUnread => 4
    case InviteeAdded => 5
    case Finished => 6
  }

  /** The effects may lead the status by one write; nobody is befriended before "agree". */
  function Reached(s: Status): int {
    if s.CountMade? || s.Finished? then Claimed(s) else Claimed(s) + 1
  }

  /** A user who befriends himself has one list entry and one unread entry for both sides. */
  function Rank(x: UserId, y: UserId, k: int): int { if x == y && k >= 4 then k - 2 else k }

  /** Exactly the effects below e are there. */
  ghost predicate Upto(db: Db, n: NodeId, x: UserId, y: UserId, e: int) {
    forall k :: 1 <= k <= 5 ==> (Effect(db, n, x, y, k) <==> Rank(x, y, k) < e)
  }

  ghost predicate Ladder(db: Db, n: NodeId, x: UserId, y: UserId, s: Status) {
    exists e :: Claimed(s) <= e <= Reached(s) && Upto(db, n, x, y, e)
  }

  // ---- The shape of the database ----

  ghost predicate RequestOk(db: Db, key: string)
    requires key in db.requests
  {
    var r := db.requests[key];
    && r.inviter in db.users && r.invitee in db.users
    && (r.node.None? <==> r.status.Asked?)
    && (r.node.Some? ==> r.node.value in db.nodes && r.node.value in db.made && db.made[r.node.value] == key)
  }

  ghost predicate NodeOk(db: Db, n: NodeId)
    requires n in db.nodes
  {
    && n < db.next && n in db.made && db.made[n] in db.requests
    && var r := db.requests[db.made[n]];
       db.nodes[n] == (r.inviter, r.invitee) && (r.node.Some? ==> r.node.value == n)
  }

  /** Nothing mentions a node that does not exist, or names others than its two members. */
  ghost predicate NoStrays(db: Db) {
    && (forall n :: n in db.counts ==> n in db.nodes)
    && (forall u, n :: (u, n) in db.unread ==> n in db.nodes)
    && (forall u, n, f :: u in db.users && (n, f) in db.users[u].friends ==>
          n in db.nodes && (db.nodes[n] == (u, f) || db.nodes[n] == (f, u)))
  }

  ghost predicate OnePerRequest(made: map<NodeId, string>) {
    forall n, m :: n in made && m in made && made[n] == made[m] ==> n == m
  }

  /** Requests and nodes refer to each other one to one. */
  ghost predicate Linked(db: Db) {
    && (forall key :: key in db.requests ==> RequestOk(db, key))
    && (forall n :: n in db.nodes ==> NodeOk(db, n))
    && OnePerRequest(db.made) && db.made.Keys == db.nodes.Keys
  }

  ghost predicate Shape(db: Db) { Linked(db) && NoStrays(db) }

  ghost predicate HasLadder(db: Db, n: NodeId)
    requires n in db.nodes && NodeOk(db, n)
  {
    var (a, b) := db.nodes[n];
    var s := db.requests[db.made[n]].status;
    Ladder(db, n, a, b, s) || Ladder(db, n, b, a, s)
  }

  ghost predicate Inv(db: Db) {
    Shape(db) && forall n :: n in db.nodes ==> HasLadder(db, n)
  }

  // ---- What a write leaves alone ----

  ghost predicate SameFor(db: Db, db': Db, n: NodeId) {
    && (n in db.counts <==> n in db'.counts)
    && (forall u :: (u, n) in db.unread <==> (u, n) in db'.unread)
    && (forall u, f :: u in db.users && u in db'.users ==>
          ((n, f) in db.users[u].friends <==> (n, f) in db'.users[u].friends))
    && db.users.Keys == db'.users.Keys
  }

  /** The write belongs to this pair's workflow. */
  predicate About(w: Write, key: string, n: NodeId) {
    match w
    case InsertRequest(k, _, _) => k == key
    case InsertNode(k, _, _) => k == key
    case SetNode(k, m) => k == key && m == n
    case InsertCount(m) => m == n
    case SetStatus(k, _) => k == key
    case Consent(k, _) => k == key
    case TakeNumber(m) => m == n
    case AddToFriends(_, m, _) => m == n
    case InsertUnread(_, m) => m == n
  }

  lemma OtherNodeUntouched(db: Db, w: Write, key: string, n: NodeId, m: NodeId)
    requires About(w, key, n) && m != n
    ensures SameFor(db, Apply(db, w), m)
  {
  }

  lemma OtherRequestUntouched(db: Db, w: Write, key: string, n: NodeId, k: string)
    requires About(w, key, n) && k != key
    ensures k in db.requests <==> k in Apply(db, w).requests
    ensures k in db.requests ==> Apply(db, w).requests[k] == db.requests[k]
    ensures k in db.agreed <==> k in Apply(db, w).agreed
    ensures k in db.agreed ==> Apply(db, w).agreed[k] == db.agreed[k]
  {
  }

  /** Two databases that differ in this request only. */
  ghost predicate OnlyThis(db: Db, db': Db, key: string) {
    && (forall k :: k != key ==> (k in db.requests <==> k in db'.requests) && (k in db.agreed <==> k in db'.agreed))
    && (forall k :: k != key && k in db.requests ==> db'.requests[k] == db.requests[k])
    && (forall k :: k != key && k in db.agreed ==> db'.agreed[k] == db.agreed[k])
  }

  lemma OthersUntouched(db: Db, w: Write, key: string, n: NodeId)
    requires About(w, key, n)
    ensures forall m :: m != n ==> SameFor(db, Apply(db, w), m)
    ensures OnlyThis(db, Apply(db, w), key)
  {
    forall m | m != n ensures SameFor(db, Apply(db, w), m) {
      OtherNodeUntouched(db, w, key, n, m);
    }
    forall k | k != key
      ensures (k in db.requests <==> k in Apply(db, w).requests) && (k in db.agreed <==> k in Apply(db, w).agreed)
      ensures k in db.requests ==> Apply(db, w).requests[k] == db.requests[k]
      ensures k in db.agreed ==> Apply(db, w).agreed[k] == db.agreed[k]
    {
      OtherRequestUntouched(db, w, key, n, k);
    }
  }

  lemma LadderOnlyNeedsSame(db: Db, db': Db, n: NodeId, x: UserId, y: UserId, s: Status)
    requires SameFor(db, db', n) && Ladder(db, n, x, y, s)
    ensures Ladder(db', n, x, y, s)
  {
    var e :| Claimed(s) <= e <= Reached(s) && Upto(db, n, x, y, e);
    assert Upto(db', n, x, y, e) by {
      forall k | 1 <= k <= 5 ensures Effect(db', n, x, y, k) <==> Rank(x, y, k) < e {
        assert Effect(db, n, x, y, k) <==> Rank(x, y, k) < e;
        assert Effect(db', n, x, y, k) <==> Effect(db, n, x, y, k);
      }
    }
  }

  // ---- One workflow against all the others ----

  /** n is the only node of its request, and every other node has its ladder. */
  ghost predicate OthersOk(db: Db, key: string, n: NodeId) {
    && Shape(db)
    && forall m :: m in db.nodes && m != n ==> db.made[m] != key && HasLadder(db, m)
  }

  lemma NodesStay(db: Db, w: Write, m: NodeId)
    requires m in db.nodes && m in db.made && (w.InsertNode? ==> db.next != m)
    ensures var db' := Apply(db, w);
            m in db'.nodes && m in db'.made && db'.nodes[m] == db.nodes[m] && db'.made[m] == db.made[m]
  {
  }

  lemma NoOtherNodes(db: Db, w: Write, m: NodeId)
    requires m in Apply(db, w).nodes && (w.InsertNode? ==> db.next != m)
    ensures m in db.nodes
  {
  }

  lemma OthersKept(db: Db, w: Write, key: string, n: NodeId)
    requires OthersOk(db, key, n) && About(w, key, n) && Shape(Apply(db, w))
    requires w.InsertNode? ==> db.next == n
    ensures OthersOk(Apply(db, w), key, n)
  {
    var db' := Apply(db, w);
    forall m | m in db'.nodes && m != n ensures db'.made[m] != key && HasLadder(db', m) {
      NoOtherNodes(db, w, m);
      OtherKept(db, w, key, n, m);
    }
  }

  lemma OtherKept(db: Db, w: Write, key: string, n: NodeId, m: NodeId)
    requires About(w, key, n) && m != n && m in db.nodes && (w.InsertNode? ==> db.next == n)
    requires NodeOk(db, m) && HasLadder(db, m) && db.made[m] != key
    requires m in Apply(db, w).nodes ==> NodeOk(Apply(db, w), m)
    ensures var db' := Apply(db, w); m in db'.nodes && db'.made[m] != key && HasLadder(db', m)
  {
    NodesStay(db, w, m);
    OtherNodeUntouched(db, w, key, n, m);
    OtherRequestUntouched(db, w, key, n, db.made[m]);
    OtherLadderKept(db, Apply(db, w), m);
  }

  lemma OtherLadderKept(db: Db, db': Db, m: NodeId)
    requires m in db.nodes && m in db'.nodes && db'.nodes[m] == db.nodes[m]
    requires NodeOk(db, m) && NodeOk(db', m) && HasLadder(db, m) && SameFor(db, db', m)
    requires db'.made[m] == db.made[m] && db'.requests[db.made[m]] == db.requests[db.made[m]]
    ensures HasLadder(db', m)
  {
    var (a, b) := db.nodes[m];
    var s := db.requests[db.made[m]].status;
    if Ladder(db, m, a, b, s) {
      LadderOnlyNeedsSame(db, db', m, a, b, s);
    } else {
      LadderOnlyNeedsSame(db, db', m, b, a, s);
    }
  }

  // ---- The shape under single writes ----

  lemma LinkedSame(db: Db, db': Db)
    requires Linked(db) && db'.nodes == db.nodes && db'.requests == db.requests && db'.made == db.made
    requires db'.next == db.next && db'.users.Keys == db.users.Keys
    ensures Linked(db')
  {
    forall n | n in db'.nodes ensures NodeOk(db', n) {
      assert NodeOk(db, n);
    }
    forall k | k in db'.requests ensures RequestOk(db', k) {
      assert RequestOk(db, k) && forall u :: u in db.users <==> u in db'.users;
    }
  }

  /** The request's node or status changes, for the same two users. */
  ghost predicate Updates(db: Db, db': Db, key: string, r': Request) {
    && key in db.requests && db'.requests == db.requests[key := r']
    && db'.nodes == db.nodes && db'.made == db.made && db'.next == db.next && db'.users == db.users
    && r'.inviter == db.requests[key].inviter && r'.invitee == db.requests[key].invitee
    && (r'.node.None? <==> r'.status.Asked?)
  }

  lemma NodeAfterUpdate(db: Db, db': Db, key: string, r': Request, n: NodeId)
    requires Updates(db, db', key, r') && OnePerRequest(db.made) && n in db.nodes && NodeOk(db, n)
    requires r'.node.Some? ==> r'.node.value in db.made && db.made[r'.node.value] == key
    ensures NodeOk(db', n)
  {
  }

  lemma LinkedAfterUpdate(db: Db, db': Db, key: string, r': Request)
    requires Linked(db) && Updates(db, db', key, r')
    requires r'.node.Some? ==> r'.node.value in db.nodes && db.made[r'.node.value] == key
    ensures Linked(db')
  {
    forall n | n in db'.nodes ensures NodeOk(db', n) {
      NodeAfterUpdate(db, db', key, r', n);
    }
    forall k | k in db'.requests ensures RequestOk(db', k) {
      assert RequestOk(db, k);
    }
  }

  lemma StraysWithMore(db: Db, db': Db)
    requires NoStrays(db) && db'.counts == db.counts && db'.unread == db.unread && db'.users == db.users
    requires forall m :: m in db.nodes ==> m in db'.nodes && db'.nodes[m] == db.nodes[m]
    ensures NoStrays(db')
  {
  }

  lemma LinkedAfterRequest(db: Db, key: string, a: UserId, b: UserId)
    requires Linked(db) && key !in db.requests && a in db.users && b in db.users
    ensures Linked(Apply(db, InsertRequest(key, a, b)))
  {
    var db' := Apply(db, InsertRequest(key, a, b));
    forall n | n in db'.nodes ensures NodeOk(db', n) {
      assert NodeOk(db, n);
    }
    forall k | k in db'.requests ensures RequestOk(db', k) {
      assert k != key ==> RequestOk(db, k);
    }
  }

  lemma ShapeAfterRequest(db: Db, key: string, a: UserId, b: UserId)
    requires Shape(db) && key !in db.requests && a in db.users && b in db.users
    ensures Shape(Apply(db, InsertRequest(key, a, b)))
  {
    LinkedAfterRequest(db, key, a, b);
    StraysWithMore(db, Apply(db, InsertRequest(key, a, b)));
  }

  lemma NodesAfterNode(db: Db, key: string, a: UserId, b: UserId)
    requires key in db.requests && db.requests[key] == Request(a, b, None, Asked)
    requires forall n :: n in db.nodes ==> NodeOk(db, n)
    ensures forall n :: n in Apply(db, InsertNode(key, a, b)).nodes ==> NodeOk(Apply(db, InsertNode(key, a, b)), n)
  {
    var db' := Apply(db, InsertNode(key, a, b));
    forall m | m in db'.nodes ensures NodeOk(db', m) {
      assert m != db.next ==> NodeOk(db, m);
    }
  }

  lemma RequestsAfterNode(db: Db, key: string, a: UserId, b: UserId)
    requires db.next !in db.nodes && forall k :: k in db.requests ==> RequestOk(db, k)
    ensures var db' := Apply(db, InsertNode(key, a, b)); forall k :: k in db'.requests ==> RequestOk(db', k)
  {
    var db' := Apply(db, InsertNode(key, a, b));
    forall k | k in db'.requests ensures RequestOk(db', k) {
      assert RequestOk(db, k);
    }
  }

  lemma OnePerRequestAdded(made: map<NodeId, string>, n: NodeId, key: string)
    requires OnePerRequest(made) && forall m :: m in made ==> made[m] != key
    ensures OnePerRequest(made[n := key])
  {
  }

  lemma LinkedAfterNode(db: Db, key: string, a: UserId, b: UserId)
    requires Linked(db) && key in db.requests && db.requests[key] == Request(a, b, None, Asked)
    requires db.next !in db.nodes && forall m :: m in db.made ==> db.made[m] != key
    ensures Linked(Apply(db, InsertNode(key, a, b)))
  {
    NodesAfterNode(db, key, a, b);
    RequestsAfterNode(db, key, a, b);
    OnePerRequestAdded(db.made, db.next, key);
  }

  lemma ShapeAfterNode(db: Db, key: string, a: UserId, b: UserId)
    requires Shape(db) && key in db.requests && db.requests[key] == Request(a, b, None, Asked)
    requires db.next !in db.nodes && forall m :: m in db.made ==> db.made[m] != key
    ensures Shape(Apply(db, InsertNode(key, a, b)))
  {
    StraysWithMore(db, Apply(db, InsertNode(key, a, b)));
    LinkedAfterNode(db, key, a, b);
  }

  lemma ShapeAfterSetNode(db: Db, key: string, n: NodeId)
    requires Shape(db) && key in db.requests && n in db.nodes && db.made[n] == key
    ensures Shape(Apply(db, SetNode(key, n)))
  {
    var db' := Apply(db, SetNode(key, n));
    LinkedAfterUpdate(db, db', key, db.requests[key].(node := Some(n), status := NodeMade));
    StraysWithMore(db, db');
  }

  lemma ShapeAfterStatus(db: Db, key: string, s: Status)
    requires Shape(db) && key in db.requests && !s.Asked? && !db.requests[key].status.Asked?
    ensures Shape(Apply(db, SetStatus(key, s)))
  {
    var db' := Apply(db, SetStatus(key, s));
    assert RequestOk(db, key);
    LinkedAfterUpdate(db, db', key, db.requests[key].(status := s));
    StraysWithMore(db, db');
  }

  lemma ShapeAfterConsent(db: Db, key: string, who: UserId)
    requires Shape(db) && key in db.requests && !db.requests[key].status.Asked?
    ensures Shape(Apply(db, Consent(key, who)))
  {
    var db' := Apply(db, Consent(key, who));
    assert RequestOk(db, key);
    LinkedAfterUpdate(db, db', key, db.requests[key].(status := Agreed));
    StraysWithMore(db, db');
  }

  lemma EntryIsNoStray(db: Db, db': Db, n: NodeId)
    requires NoStrays(db) && n in db.nodes && db'.nodes == db.nodes && db'.users == db.users
    requires forall m :: m in db'.counts ==> m in db.counts || m == n
    requires forall u, m :: (u, m) in db'.unread ==> (u, m) in db.unread || m == n
    ensures NoStrays(db')
  {
  }

  lemma EntryOnly(db: Db, w: Write, n: NodeId)
    requires w == InsertCount(n) || w == TakeNumber(n) || (w.InsertUnread? && w.node == n)
    ensures var db' := Apply(db, w);
            && db'.users == db.users && db'.nodes == db.nodes && db'.requests == db.requests && db'.made == db.made
            && db'.next == db.next && (forall m :: m in db'.counts ==> m in db.counts || m == n)
            && (forall u, m :: (u, m) in db'.unread ==> (u, m) in db.unread || m == n)
  {
  }

  /** Counters and unread entries of an existing node. */
  lemma ShapeAfterEntry(db: Db, w: Write, n: NodeId)
    requires Shape(db) && n in db.nodes
    requires w == InsertCount(n) || w == TakeNumber(n) || (w.InsertUnread? && w.node == n)
    ensures Shape(Apply(db, w))
  {
    EntryOnly(db, w, n);
    LinkedSame(db, Apply(db, w));
    EntryIsNoStray(db, Apply(db, w), n);
  }

  lemma FriendIsNoStray(db: Db, user: UserId, n: NodeId, friend: UserId)
    requires NoStrays(db) && n in db.nodes && (db.nodes[n] == (user, friend) || db.nodes[n] == (friend, user))
    ensures NoStrays(Apply(db, AddToFriends(user, n, friend)))
  {
  }

  lemma ShapeAfterFriend(db: Db, user: UserId, n: NodeId, friend: UserId)
    requires Shape(db) && n in db.nodes && (db.nodes[n] == (user, friend) || db.nodes[n] == (friend, user))
    ensures Shape(Apply(db, AddToFriends(user, n, friend)))
  {
    LinkedSame(db, Apply(db, AddToFriends(user, n, friend)));
    FriendIsNoStray(db, user, n, friend);
  }
}
