/** The versions of users: what the two friendship workflows do to them over any run. */
module FriendshipVersions {
  import opened Friendship
  import opened FriendshipShape
  import opened FriendshipRuns

  /** The request in which u asks himself. */
  ghost predicate AsksHimself(db: Db, u: UserId, key: string) {
    key in db.requests && db.requests[key].inviter == u && db.requests[key].invitee == u
  }

  /** By how much a version exceeds what it started from and the number of list entries. */
  function Extra(db: Db, base: map<UserId, nat>, u: UserId): int
    requires u in db.users && u in base
  {
    db.users[u].version - base[u] - |db.users[u].friends|
  }

  /** Only agreeing with himself bumps a user's version once too often: between the unread entry and
      the last list update it may have happened, after that it has. */
  ghost predicate ExtraOk(db: Db, u: UserId, extra: int) {
    && (extra == 0 || (extra == 1 && exists key :: AsksHimself(db, u, key) && Claimed(db.requests[key].status) >= 4))
    && (forall key :: AsksHimself(db, u, key) && Claimed(db.requests[key].status) >= 5 ==> extra == 1)
  }

  ghost predicate VersionsMatch(db: Db, base: map<UserId, nat>) {
    forall u :: u in db.users ==> u in base && ExtraOk(db, u, Extra(db, base, u))
  }

  lemma OneSelfRequest(db: Db, u: UserId, k: string, l: string)
    requires Named(db) && AsksHimself(db, u, k) && AsksHimself(db, u, l)
    ensures k == l == Key(u, u)
  {
  }

  // ---- One write ----

  /** The requests of others and the user's own figures are as before. */
  lemma ExtraStays(db: Db, db': Db, u: UserId, key: string, extra: int)
    requires ExtraOk(db, u, extra)
    requires forall k :: k != key ==> (k in db.requests <==> k in db'.requests)
    requires forall k :: k != key && k in db.requests ==> db'.requests[k] == db.requests[k]
    requires !AsksHimself(db, u, key)
    requires AsksHimself(db', u, key) ==> Claimed(db'.requests[key].status) < 5
    ensures ExtraOk(db', u, extra)
  {
    if extra == 1 {
      var k :| AsksHimself(db, u, k) && Claimed(db.requests[k].status) >= 4;
      assert AsksHimself(db', u, k);
    }
    forall k | AsksHimself(db', u, k) && Claimed(db'.requests[k].status) >= 5 ensures extra == 1 {
      assert AsksHimself(db, u, k);
    }
  }

  // ---- Asking ----

  /** The user's own request, which has not come to the lists. */
  lemma OwnAsking(db: Db, db': Db, u: UserId, key: string, extra: int)
    requires ExtraOk(db, u, extra) && OnlyThis(db, db', key)
    requires AsksHimself(db, u, key) ==> Claimed(db.requests[key].status) <= 2
    requires AsksHimself(db', u, key) ==> Claimed(db'.requests[key].status) <= 2
    ensures ExtraOk(db', u, extra)
  {
    if extra == 1 {
      var k :| AsksHimself(db, u, k) && Claimed(db.requests[k].status) >= 4;
      assert AsksHimself(db', u, k);
    }
    forall k | AsksHimself(db', u, k) && Claimed(db'.requests[k].status) >= 5 ensures extra == 1 {
      assert AsksHimself(db, u, k);
    }
  }

  lemma AskMatches(db: Db, base: map<UserId, nat>, key: string, a: UserId, b: UserId, i: nat)
    requires Inv(db) && key !in db.requests && a in db.users && b in db.users && i <= 6 && VersionsMatch(db, base)
    ensures VersionsMatch(Run(db, AskPlan(key, a, b, db.next)[..i]), base)
  {
    var plan := AskPlan(key, a, b, db.next)[..i];
    var db' := Run(db, plan);
    AskRun(db, key, a, b, i);
    AskWritesAbout(key, a, b, db.next, i);
    RunTouchesThis(db, plan, key, db.next);
    UsersUntouched(db, plan);
    AskedEarly(db', key, a, b, db.next, i);
    forall u | u in db'.users ensures u in base && ExtraOk(db', u, Extra(db', base, u)) {
      assert ExtraOk(db, u, Extra(db, base, u));
      OwnAsking(db, db', u, key, Extra(db, base, u));
    }
  }

  lemma AskedEarly(db: Db, key: string, a: UserId, b: UserId, n: NodeId, i: nat)
    requires AskStage(db, key, a, b, n, i)
    ensures key in db.requests ==> Claimed(db.requests[key].status) <= 2
  {
  }

  // ---- Agreeing ----

  /** One who agrees with himself has been bumped twice from the sixth write on. */
  ghost predicate VersionStage(db: Db, base: map<UserId, nat>, key: string, a: UserId, b: UserId, i: nat) {
    && VersionsMatch(db, base)
    && (a == b && a in db.users && a in base ==>
          && Extra(db, base, a) == (if i >= 6 then 1 else 0)
          && forall k :: AsksHimself(db, a, k) ==> k == key)
  }

  lemma NoExtraYet(db: Db, u: UserId, key: string, extra: int)
    requires ExtraOk(db, u, extra) && AsksHimself(db, u, key) && Claimed(db.requests[key].status) < 4
    requires forall k :: AsksHimself(db, u, k) ==> k == key
    ensures extra == 0
  {
  }

  lemma VersionStart(db: Db, base: map<UserId, nat>, key: string, a: UserId, b: UserId, n: NodeId)
    requires Named(db) && VersionsMatch(db, base) && AgreeStage(db, key, a, b, n, 0)
    ensures VersionStage(db, base, key, a, b, 0)
  {
    if a == b {
      Members(db, key, a, b, n);
      SelfStart(db, base, key, a);
    }
  }

  lemma SelfStart(db: Db, base: map<UserId, nat>, key: string, a: UserId)
    requires Named(db) && VersionsMatch(db, base) && AsksHimself(db, a, key) && a in db.users
    requires db.requests[key].status.CountMade?
    ensures a in base && Extra(db, base, a) == 0 && forall k :: AsksHimself(db, a, k) ==> k == key
  {
    forall k | AsksHimself(db, a, k) ensures k == key {
      OneSelfRequest(db, a, k, key);
    }
    NoExtraYet(db, a, key, Extra(db, base, a));
  }

  lemma ListUpdate(db: Db, base: map<UserId, nat>, who: UserId, n: NodeId, f: UserId, u: UserId)
    requires u in db.users && u in base && who in db.users
    ensures var db' := Apply(db, AddToFriends(who, n, f));
            u in db'.users &&
            Extra(db', base, u) == Extra(db, base, u) + if u == who && (n, f) in db.users[u].friends then 1 else 0
  {
    if u == who && (n, f) in db.users[u].friends {
      assert db.users[u].friends + {(n, f)} == db.users[u].friends;
    }
  }

  /** What a write of the consent does to a user's figures. */
  lemma ExtraAfter(db: Db, base: map<UserId, nat>, key: string, a: UserId, b: UserId, n: NodeId, i: nat, u: UserId)
    requires i < 9 && u in db.users && u in base && Upto(db, n, a, b, 2 + i / 2) && a in db.users && b in db.users
    ensures var db' := Apply(db, AgreePlan(key, a, b, n)[i]);
            u in db'.users &&
            Extra(db', base, u) == Extra(db, base, u) + if a == b == u && i == 5 then 1 else 0
  {
    AgreePlanAt(key, a, b, n, i);
    match i {
      case 1 =>
        assert Effect(db, n, a, b, 2) <==> Rank(a, b, 2) < 2;
        ListUpdate(db, base, a, n, b, u);
      case 5 =>
        assert Effect(db, n, a, b, 4) <==> Rank(a, b, 4) < 4;
        ListUpdate(db, base, b, n, a, u);
      case _ => assert Apply(db, AgreePlan(key, a, b, n)[i]).users == db.users;
    }
  }

  lemma OwnAgreeing(db': Db, u: UserId, key: string, i: nat)
    requires i <= 9 && AsksHimself(db', u, key) && db'.requests[key].status == AgreeStatus(i)
    requires forall k :: AsksHimself(db', u, k) ==> k == key
    ensures ExtraOk(db', u, if i >= 6 then 1 else 0)
  {
  }

  lemma AgreeMatchesFor(db: Db, db': Db, base: map<UserId, nat>, key: string, a: UserId, b: UserId, i: nat, u: UserId)
    requires i < 9 && u in db.users && u in db'.users && u in base && ExtraOk(db, u, Extra(db, base, u))
    requires Extra(db', base, u) == Extra(db, base, u) + if a == b == u && i == 5 then 1 else 0
    requires key in db.requests && key in db'.requests
    requires db'.requests[key] == db.requests[key].(status := AgreeStatus(i + 1))
    requires var r := db.requests[key]; (r.inviter, r.invitee) == (a, b) || (r.inviter, r.invitee) == (b, a)
    requires forall k :: k != key ==> (k in db.requests <==> k in db'.requests)
    requires forall k :: k != key && k in db.requests ==> db'.requests[k] == db.requests[k]
    requires a == b == u ==>
               Extra(db, base, u) == (if i >= 6 then 1 else 0) && forall k :: AsksHimself(db, u, k) ==> k == key
    ensures ExtraOk(db', u, Extra(db', base, u))
    ensures a == b == u ==>
               Extra(db', base, u) == (if i + 1 >= 6 then 1 else 0) && forall k :: AsksHimself(db', u, k) ==> k == key
  {
    if a == b == u {
      forall k | AsksHimself(db', u, k) ensures k == key {
        assert k != key ==> AsksHimself(db, u, k);
      }
      OwnAgreeing(db', u, key, i + 1);
    } else {
      ExtraStays(db, db', u, key, Extra(db, base, u));
    }
  }

  lemma AgreeMatches(db: Db, base: map<UserId, nat>, key: string, a: UserId, b: UserId, n: NodeId, i: nat)
    requires i < 9 && AgreeStage(db, key, a, b, n, i) && VersionStage(db, base, key, a, b, i)
    ensures VersionStage(Apply(db, AgreePlan(key, a, b, n)[i]), base, key, a, b, i + 1)
  {
    var w := AgreePlan(key, a, b, n)[i];
    var db' := Apply(db, w);
    AgreeTables(db, key, a, b, n, i);
    OthersUntouched(db, w, key, n);
    Members(db, key, a, b, n);
    assert forall u :: u in db'.users <==> u in db.users;
    forall u | u in db'.users
      ensures u in base && ExtraOk(db', u, Extra(db', base, u))
      ensures a == b == u ==>
                Extra(db', base, u) == (if i + 1 >= 6 then 1 else 0) && forall k :: AsksHimself(db', u, k) ==> k == key
    {
      ExtraAfter(db, base, key, a, b, n, i, u);
      AgreeMatchesFor(db, db', base, key, a, b, i, u);
    }
  }

  lemma {:induction false} AgreeRunMatches(
    db: Db, base: map<UserId, nat>, key: string, a: UserId, b: UserId, n: NodeId, i: nat)
    requires AgreeStage(db, key, a, b, n, 0) && i <= 9 && VersionStage(db, base, key, a, b, 0)
    ensures VersionStage(Run(db, AgreePlan(key, a, b, n)[..i]), base, key, a, b, i)
  {
    if i > 0 {
      AgreeRunMatches(db, base, key, a, b, n, i - 1);
      RunPrefix(db, AgreePlan(key, a, b, n), i - 1);
      AgreeRun(db, key, a, b, n, i - 1);
      AgreeMatches(Run(db, AgreePlan(key, a, b, n)[..i - 1]), base, key, a, b, n, i - 1);
    }
  }

  // ---- Whole runs ----

  lemma PerformMatches(db: Db, op: Op, base: map<UserId, nat>)
    requires Inv(db) && Named(db) && VersionsMatch(db, base)
    ensures VersionsMatch(Perform(db, op).0, base)
  {
    if Error(db, op).None? {
      var key, a, b := Key(op.inviter, op.invitee), op.inviter, op.invitee;
      var k := WritesDone(db, op);
      if op.Ask? {
        AskMatches(db, base, key, a, b, k);
      } else {
        AgreeingMatches(db, base, a, b, k);
      }
    }
  }

  lemma AgreeingMatches(db: Db, base: map<UserId, nat>, a: UserId, b: UserId, k: nat)
    requires Inv(db) && Named(db) && VersionsMatch(db, base) && AgreeError(db, b, a, b).None? && k <= 9
    ensures var n := db.requests[Key(a, b)].node;
            n.Some? && VersionsMatch(Run(db, AgreePlan(Key(a, b), a, b, n.value)[..k]), base)
  {
    var n := StageOfRequest(db, a, b);
    VersionStart(db, base, Key(a, b), a, b, n);
    AgreeRunMatches(db, base, Key(a, b), a, b, n, k);
  }

  lemma {:induction false} VersionsAlwaysMatch(db: Db, ops: seq<Op>, base: map<UserId, nat>)
    requires Inv(db) && Named(db) && VersionsMatch(db, base)
    ensures VersionsMatch(AfterOps(db, ops), base)
    decreases |ops|
  {
    if ops != [] {
      PerformMatches(db, ops[0], base);
      PerformKeeps(db, ops[0]);
      VersionsAlwaysMatch(Perform(db, ops[0]).0, ops[1..], base);
    }
  }

  /** Over every run a user's version has grown by the number of his friends, each listed once and
      under one node, plus one if he has agreed with himself and come as far as the second list. */
  lemma OneBumpPerFriend(users: map<UserId, User>, ops: seq<Op>, u: UserId)
    requires Fresh(users) && u in AfterOps(Start(users), ops).users && u in users
    ensures var db := AfterOps(Start(users), ops);
            var user := db.users[u];
            var extra := user.version - users[u].version - |user.friends|;
            && (extra == 0 ||
                (extra == 1 && AsksHimself(db, u, Key(u, u)) && Claimed(db.requests[Key(u, u)].status) >= 4))
            && (AsksHimself(db, u, Key(u, u)) && Claimed(db.requests[Key(u, u)].status) >= 5 ==> extra == 1)
            && (forall e, e' :: e in user.friends && e' in user.friends && (e.0 == e'.0 || e.1 == e'.1) ==> e == e')
  {
    var base := map v | v in users :: users[v].version;
    StartMatches(users, base);
    VersionsAlwaysMatch(Start(users), ops, base);
    InvAlways(Start(users), ops);
    var db := AfterOps(Start(users), ops);
    var user := db.users[u];
    var extra := Extra(db, base, u);
    assert ExtraOk(db, u, extra);
    if extra == 1 {
      var k :| AsksHimself(db, u, k) && Claimed(db.requests[k].status) >= 4;
      OneSelfRequest(db, u, k, k);
    }
    forall e, e' | e in user.friends && e' in user.friends && (e.0 == e'.0 || e.1 == e'.1) ensures e == e' {
      OneEntry(db, u, e.0, e.1, e'.0, e'.1);
    }
  }

  lemma StartMatches(users: map<UserId, User>, base: map<UserId, nat>)
    requires Fresh(users) && base == map v | v in users :: users[v].version
    ensures VersionsMatch(Start(users), base)
  {
    forall u | u in users ensures ExtraOk(Start(users), u, Extra(Start(users), base, u)) {
      assert Start(users).users[u].friends == {};
    }
  }

  lemma OneEntry(db: Db, u: UserId, n: NodeId, f: UserId, m: NodeId, g: UserId)
    requires Shape(db) && Named(db) && u in db.users && (n == m || f == g)
    requires (n, f) in db.users[u].friends && (m, g) in db.users[u].friends
    ensures n == m && f == g
  {
    assert n in db.nodes && (db.nodes[n] == (u, f) || db.nodes[n] == (f, u));
    assert m in db.nodes && (db.nodes[m] == (u, g) || db.nodes[m] == (g, u));
    if f == g {
      SamePairSameNode(db, n, m);
    }
  }

  /** An undisturbed consent bumps each side once if and only if the two are different users. */
  lemma ConsentBumpsOnceIffDistinct(users: map<UserId, User>, ops: seq<Op>, a: UserId, b: UserId, stop: nat)
    requires Fresh(users) && stop >= 9
    requires AgreeError(AfterOps(Start(users), ops), b, a, b).None?
    ensures var db := AfterOps(Start(users), ops);
            var db' := Perform(db, Agree(b, a, b, stop)).0;
            && a in db.users && b in db.users && a in db'.users && b in db'.users
            && (db'.users[a].version == db.users[a].version + 1 && db'.users[b].version == db.users[b].version + 1
                <==> a != b)
  {
    InvAlways(Start(users), ops);
    ConsentBumps(AfterOps(Start(users), ops), a, b, stop);
  }

  lemma ConsentBumps(db: Db, a: UserId, b: UserId, stop: nat)
    requires Inv(db) && Named(db) && stop >= 9 && AgreeError(db, b, a, b).None?
    ensures var db' := Perform(db, Agree(b, a, b, stop)).0;
            && a in db.users && b in db.users && a in db'.users && b in db'.users
            && (db'.users[a].version == db.users[a].version + 1 && db'.users[b].version == db.users[b].version + 1
                <==> a != b)
  {
    var n := StageOfRequest(db, a, b);
    var k := WritesDone(db, Agree(b, a, b, stop));
    VersionAfter(db, Key(a, b), a, b, n, 9, a);
    VersionAfter(db, Key(a, b), a, b, n, 9, b);
  }

  /** The version after so many writes of the consent. */
  lemma {:induction false} VersionAfter(db: Db, key: string, a: UserId, b: UserId, n: NodeId, i: nat, u: UserId)
    requires i <= 9 && u in db.users
    ensures var db' := Run(db, AgreePlan(key, a, b, n)[..i]);
            && u in db'.users
            && db'.users[u].version ==
               db.users[u].version + (if i >= 2 && u == a then 1 else 0) + (if i >= 6 && u == b then 1 else 0)
  {
    if i > 0 {
      VersionAfter(db, key, a, b, n, i - 1, u);
      RunPrefix(db, AgreePlan(key, a, b, n), i - 1);
      AgreePlanAt(key, a, b, n, i - 1);
      VersionStep(Run(db, AgreePlan(key, a, b, n)[..i - 1]), AgreePlan(key, a, b, n)[i - 1], u);
    }
  }

  lemma VersionStep(db: Db, w: Write, u: UserId)
    requires u in db.users
    ensures u in Apply(db, w).users
    ensures Apply(db, w).users[u].version == db.users[u].version + if w.AddToFriends? && w.user == u then 1 else 0
  {
  }

  lemma UsersUntouchedOnce(db: Db, w: Write)
    requires !w.AddToFriends?
    ensures Apply(db, w).users == db.users
  {
  }

  lemma {:induction false} UsersUntouched(db: Db, plan: seq<Write>)
    requires forall w :: w in plan ==> !w.AddToFriends?
    ensures Run(db, plan).users == db.users
    decreases |plan|
  {
    if plan != [] {
      assert plan[0] in plan;
      UsersUntouchedOnce(db, plan[0]);
      UsersUntouched(Apply(db, plan[0]), plan[1..]);
    }
  }
}
