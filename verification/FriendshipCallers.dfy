/** Who may do what: only the users a request names can move it, and each refusal has its code. */
module FriendshipCallers {
  import opened Options
  import opened Friendship
  import opened FriendshipShape
  import opened FriendshipRuns
  import opened FriendshipConsent

  /** The request has been agreed to, whatever came of it. */
  predicate Past(db: Db, key: string) {
    key in db.requests && db.requests[key].status !in {Asked, NodeMade, CountMade}
  }

  /** Whoever sent the operation that took the request past "createNodeCount". */
  function ConsentedBy(db: Db, ops: seq<Op>, key: string): Option<UserId>
    decreases |ops|
  {
    if ops == [] then None
    else
      var db' := Perform(db, ops[0]).0;
      if !Past(db, key) && Past(db', key) then Some(ops[0].current) else ConsentedBy(db', ops[1..], key)
  }

  /** An operation that changes anything was sent by the user it names as the one who acts: the inviter
      who asks, the invitee who agrees. */
  lemma OnlyTheNamedAct(db: Db, op: Op)
    ensures Perform(db, op).0 != db ==>
              op.inviter != "" && op.invitee != "" && op.current == if op.Ask? then op.inviter else op.invitee
  {
  }

  /** What the handler of a consent refuses, with each code. */
  lemma ConsentCodes(db: Db, current: UserId, a: UserId, b: UserId, stop: nat)
    ensures var outcome := Perform(db, Agree(current, a, b, stop)).1;
            var mayAct := a != "" && b != "" && b == current;
            && (outcome == Failed(11023) <==> !mayAct)
            && (outcome == Failed(40008) <==> mayAct && Key(a, b) !in db.requests)
            && (outcome == Failed(40009) <==>
                  mayAct && Key(a, b) in db.requests && db.requests[Key(a, b)].status != CountMade)
            && (!outcome.Failed? <==> mayAct && Key(a, b) in db.requests && db.requests[Key(a, b)].status == CountMade)
  {
  }

  ghost predicate Befriends(db: Db, u: UserId, v: UserId)
    requires u in db.users
  {
    exists n :: (n, v) in db.users[u].friends
  }

  lemma ListsBefriends(db: Db, u: UserId, v: UserId)
    requires u in db.users
    ensures Lists(db, u, v) <==> Befriends(db, u, v)
  {
    if Lists(db, u, v) {
      var e :| e in db.users[u].friends && e.1 == v;
      assert (e.0, v) in db.users[u].friends;
    }
  }

  /** What the handler of a request refuses, with each code. */
  lemma RequestCodes(db: Db, current: UserId, a: UserId, b: UserId, stop: nat)
    ensures var outcome := Perform(db, Ask(current, a, b, stop)).1;
            var mayAct := a != "" && b != "" && a == current;
            && (outcome == Failed(11012) <==> !mayAct)
            && (outcome == Failed(40003) <==> mayAct && (a !in db.users || b !in db.users))
            && (mayAct && a in db.users && b in db.users ==>
                  && (outcome == Failed(11020) <==> Befriends(db, a, b))
                  && (outcome == Failed(11022) <==> !Befriends(db, a, b) && Befriends(db, b, a))
                  && (outcome == Failed(40004) <==>
                        !Befriends(db, a, b) && !Befriends(db, b, a) && Key(a, b) in db.requests)
                  && (!outcome.Failed? <==>
                        !Befriends(db, a, b) && !Befriends(db, b, a) && Key(a, b) !in db.requests))
  {
    if a in db.users && b in db.users {
      ListsBefriends(db, a, b);
      ListsBefriends(db, b, a);
    }
  }

  lemma AskTakesNobodyPast(db: Db, op: Op, key: string)
    requires Inv(db) && op.Ask? && !Past(db, key)
    ensures !Past(Perform(db, op).0, key)
  {
    if Error(db, op).None? {
      var k := WritesDone(db, op);
      AskRecords(db, Key(op.inviter, op.invitee), op.inviter, op.invitee, k);
    }
  }

  /** The step that takes a request past "createNodeCount" is a consent by one of its two users. */
  lemma WhoTakesItPast(db: Db, op: Op, key: string)
    requires Inv(db) && Named(db) && !Past(db, key) && Past(Perform(db, op).0, key)
    ensures var r := Perform(db, op).0.requests[key];
            op.Agree? && Key(op.inviter, op.invitee) == key && (op.current == r.inviter || op.current == r.invitee)
  {
    if op.Ask? {
      AskTakesNobodyPast(db, op, key);
    } else {
      OnlyTheNamedAct(db, op);
      var n := StageOfRequest(db, op.inviter, op.invitee);
      var k := WritesDone(db, op);
      WholePlan(db, Plan(db, op));
      if k > 0 {
        ConsentTakesItPast(db, op.inviter, op.invitee, n, k, key);
      }
    }
  }

  lemma ConsentTakesItPast(db: Db, a: UserId, b: UserId, n: NodeId, k: nat, key: string)
    requires AgreeStage(db, Key(a, b), a, b, n, 0) && 1 <= k <= 9
    requires var db' := Run(db, AgreePlan(Key(a, b), a, b, n)[..k]); !Past(db, key) && Past(db', key)
    ensures var r := Run(db, AgreePlan(Key(a, b), a, b, n)[..k]).requests[key];
            Key(a, b) == key && (b == r.inviter || b == r.invitee)
  {
    AgreeRecords(db, Key(a, b), a, b, n, k);
    Members(db, Key(a, b), a, b, n);
  }

  lemma {:induction false} CallerFrom(db: Db, ops: seq<Op>, key: string)
    requires Inv(db) && Named(db) && !Past(db, key) && Past(AfterOps(db, ops), key)
    ensures var who, r := ConsentedBy(db, ops, key), AfterOps(db, ops).requests[key];
            who.Some? && (who.value == r.inviter || who.value == r.invitee)
    decreases |ops|
  {
    var db' := Perform(db, ops[0]).0;
    PerformKeeps(db, ops[0]);
    if Past(db', key) {
      WhoTakesItPast(db, ops[0], key);
      StuckForever(db', ops[1..], key);
    } else {
      CallerFrom(db', ops[1..], key);
    }
  }

  /** Over every run: a request past "createNodeCount" was taken there by a consent that one of its two
      users sent. */
  lemma ConsentedByMember(users: map<UserId, User>, ops: seq<Op>, key: string)
    requires Fresh(users) && Past(AfterOps(Start(users), ops), key)
    ensures var who, r := ConsentedBy(Start(users), ops, key), AfterOps(Start(users), ops).requests[key];
            who.Some? && (who.value == r.inviter || who.value == r.invitee)
  {
    InvAlways(Start(users), []);
    CallerFrom(Start(users), ops, key);
  }

  // ---- The conversation's counter ----

  lemma {:induction false} CountSoFar(db: Db, key: string, a: UserId, b: UserId, n: NodeId, i: nat)
    requires i <= 6 && n !in db.counts
    ensures var counts := Run(db, AskPlan(key, a, b, n)[..i]).counts;
            if i < 4 then n !in counts else n in counts && counts[n] == if i < 6 then 0 else 1
    decreases i
  {
    if i > 0 {
      CountSoFar(db, key, a, b, n, i - 1);
      RunPrefix(db, AskPlan(key, a, b, n), i - 1);
      AskPlanAt(key, a, b, n, i - 1);
    }
  }

  /** In every run, a request that is not disturbed leaves its conversation's counter at one: the first
      number has gone to the request message. */
  lemma RequestTakesFirstNumber(users: map<UserId, User>, ops: seq<Op>, a: UserId, b: UserId, stop: nat)
    requires Fresh(users) && stop >= 6 && Error(AfterOps(Start(users), ops), Ask(a, a, b, stop)).None?
    ensures var db := AfterOps(Start(users), ops);
            var db' := Perform(db, Ask(a, a, b, stop)).0;
            && Key(a, b) in db'.requests && db'.requests[Key(a, b)] == Request(a, b, Some(db.next), CountMade)
            && db.next in db'.counts && db'.counts[db.next] == 1
  {
    InvAlways(Start(users), ops);
    FullRequest(AfterOps(Start(users), ops), a, b, stop);
  }

  lemma NextIsNotCounted(db: Db)
    requires Inv(db)
    ensures db.next !in db.counts
  {
    assert db.next in db.nodes ==> NodeOk(db, db.next);
  }

  lemma FullRequest(db: Db, a: UserId, b: UserId, stop: nat)
    requires Inv(db) && stop >= 6 && Error(db, Ask(a, a, b, stop)).None?
    ensures var db' := Perform(db, Ask(a, a, b, stop)).0;
            && Key(a, b) in db'.requests && db'.requests[Key(a, b)] == Request(a, b, Some(db.next), CountMade)
            && db.next in db'.counts && db'.counts[db.next] == 1
  {
    NextIsNotCounted(db);
    var db' := Perform(db, Ask(a, a, b, stop)).0;
    var k := WritesDone(db, Ask(a, a, b, stop));
    assert db' == Run(db, AskPlan(Key(a, b), a, b, db.next)[..6]);
    CountSoFar(db, Key(a, b), a, b, db.next, 6);
    AskRun(db, Key(a, b), a, b, 6);
    AskedRecord(db', Key(a, b), a, b, db.next);
  }
}
