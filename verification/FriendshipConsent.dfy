/** Which requests can still move, and who has agreed to those that did. */
module FriendshipConsent {
  import opened Options
  import opened Friendship
  import opened FriendshipShape
  import opened FriendshipRuns

  // ---- Crashed requests ----

  /** The write is about another request. */
  predicate Elsewhere(w: Write, key: string) {
    w.InsertRequest? || w.SetNode? || w.SetStatus? || w.Consent? ==> w.key != key
  }

  lemma RequestUntouchedOnce(db: Db, w: Write, key: string)
    requires key in db.requests && Elsewhere(w, key)
    ensures key in Apply(db, w).requests && Apply(db, w).requests[key] == db.requests[key]
  {
  }

  lemma {:induction false} RequestUntouched(db: Db, plan: seq<Write>, key: string)
    requires key in db.requests && forall w :: w in plan ==> Elsewhere(w, key)
    ensures key in Run(db, plan).requests && Run(db, plan).requests[key] == db.requests[key]
    decreases |plan|
  {
    if plan != [] {
      assert plan[0] in plan;
      RequestUntouchedOnce(db, plan[0], key);
      RequestUntouched(Apply(db, plan[0]), plan[1..], key);
    }
  }

  lemma AskElsewhere(k: string, a: UserId, b: UserId, n: NodeId, key: string)
    requires k != key
    ensures forall w :: w in AskPlan(k, a, b, n) ==> Elsewhere(w, key)
    ensures forall w :: w in AgreePlan(k, a, b, n) ==> Elsewhere(w, key)
  {
    forall i | 0 <= i < 6 ensures Elsewhere(AskPlan(k, a, b, n)[i], key) {
      AskPlanAt(k, a, b, n, i);
    }
    forall i | 0 <= i < 9 ensures Elsewhere(AgreePlan(k, a, b, n)[i], key) {
      AgreePlanAt(k, a, b, n, i);
    }
  }

  lemma OneOpLeavesStuck(db: Db, op: Op, key: string)
    requires key in db.requests && !db.requests[key].status.CountMade?
    ensures key in Perform(db, op).0.requests && Perform(db, op).0.requests[key] == db.requests[key]
  {
    PerformedRuns(db, op);
    if Error(db, op).None? {
      var k := Key(op.inviter, op.invitee);
      assert k != key;
      var n := if op.Ask? || db.requests[k].node.None? then db.next else db.requests[k].node.value;
      AskElsewhere(k, op.inviter, op.invitee, n, key);
      assert forall w :: w in Performed(db, op) ==> w in Plan(db, op);
      RequestUntouched(db, Performed(db, op), key);
    }
  }

  /** Only a request that came as far as "createNodeCount" can ever move again: any other stays as
      it is whatever happens later, and every further attempt by this pair is rejected. */
  lemma {:induction false} StuckForever(db: Db, ops: seq<Op>, key: string)
    requires key in db.requests && !db.requests[key].status.CountMade?
    ensures key in AfterOps(db, ops).requests && AfterOps(db, ops).requests[key] == db.requests[key]
    ensures forall op: Op :: Key(op.inviter, op.invitee) == key ==> Error(AfterOps(db, ops), op).Some?
    decreases |ops|
  {
    if ops != [] {
      OneOpLeavesStuck(db, ops[0], key);
      StuckForever(Perform(db, ops[0]).0, ops[1..], key);
    }
  }

  lemma MovableNow(db: Db, key: string)
    requires Named(db) && key in db.requests
    ensures (exists op: Op :: Key(op.inviter, op.invitee) == key && Error(db, op).None?) <==>
            db.requests[key].status.CountMade?
  {
    var r := db.requests[key];
    if r.status.CountMade? {
      var op := Agree(r.invitee, r.inviter, r.invitee, 9);
      assert Key(op.inviter, op.invitee) == key && Error(db, op).None?;
    } else {
      StuckForever(db, [], key);
    }
  }

  /** In every run a request can be taken further, by whatever operation on its pair, if and only if
      it is at "createNodeCount". */
  lemma MovableExactly(users: map<UserId, User>, ops: seq<Op>, key: string)
    requires Fresh(users) && key in AfterOps(Start(users), ops).requests
    ensures var db := AfterOps(Start(users), ops);
            (exists op: Op :: Key(op.inviter, op.invitee) == key && Error(db, op).None?) <==>
            db.requests[key].status.CountMade?
  {
    InvAlways(Start(users), ops);
    MovableNow(AfterOps(Start(users), ops), key);
  }

  // ---- Who agreed ----

  predicate Consented(s: Status) { !s.Asked? && !s.NodeMade? && !s.CountMade? }

  /** A name is recorded for exactly the requests that were agreed to. */
  ghost predicate ConsentsKnown(db: Db) {
    forall key :: key in db.agreed <==> key in db.requests && Consented(db.requests[key].status)
  }

  lemma AgreedStaysOnce(db: Db, w: Write)
    requires !w.Consent?
    ensures Apply(db, w).agreed == db.agreed
  {
  }

  lemma {:induction false} AgreedStays(db: Db, plan: seq<Write>)
    requires forall w :: w in plan ==> !w.Consent?
    ensures Run(db, plan).agreed == db.agreed
    decreases |plan|
  {
    if plan != [] {
      assert plan[0] in plan;
      AgreedStaysOnce(db, plan[0]);
      AgreedStays(Apply(db, plan[0]), plan[1..]);
    }
  }

  /** The request names the same two users. */
  ghost predicate SameParties(db: Db, db': Db, key: string)
    requires key in db.requests
  {
    && key in db'.requests && db'.requests[key].inviter == db.requests[key].inviter
    && db'.requests[key].invitee == db.requests[key].invitee
  }

  lemma PartiesStayOnce(db: Db, w: Write, key: string)
    requires key in db.requests && !w.InsertRequest?
    ensures SameParties(db, Apply(db, w), key)
  {
  }

  lemma {:induction false} PartiesStay(db: Db, plan: seq<Write>, key: string)
    requires key in db.requests && forall w :: w in plan ==> !w.InsertRequest?
    ensures SameParties(db, Run(db, plan), key)
    decreases |plan|
  {
    if plan != [] {
      assert plan[0] in plan;
      PartiesStayOnce(db, plan[0], key);
      PartiesStay(Apply(db, plan[0]), plan[1..], key);
    }
  }

  lemma AgreeWritesAbout(key: string, a: UserId, b: UserId, n: NodeId, i: nat)
    requires 1 <= i <= 9
    ensures var plan := AgreePlan(key, a, b, n)[..i];
            && (forall w :: w in plan ==> About(w, key, n) && !w.InsertRequest?)
            && plan == [Consent(key, b)] + plan[1..] && (forall w :: w in plan[1..] ==> !w.Consent?)
  {
    var all, plan := AgreePlan(key, a, b, n), AgreePlan(key, a, b, n)[..i];
    forall j | 0 <= j < i
      ensures About(plan[j], key, n) && !plan[j].InsertRequest? && (j == 0 <==> plan[j].Consent?)
    {
      assert plan[j] == all[j];
      AgreePlanAt(key, a, b, n, j);
    }
    assert plan[0] == Consent(key, b);
  }

  lemma ConsentThenOthers(db: Db, key: string, b: UserId, plan: seq<Write>)
    requires key in db.requests && plan != [] && plan == [Consent(key, b)] + plan[1..]
    requires forall w :: w in plan[1..] ==> !w.Consent?
    ensures Run(db, plan).agreed == db.agreed[key := b]
  {
    AgreedStays(Apply(db, Consent(key, b)), plan[1..]);
  }

  /** What an accepted consent records. */
  lemma AgreeRecords(db: Db, key: string, a: UserId, b: UserId, n: NodeId, i: nat)
    requires AgreeStage(db, key, a, b, n, 0) && 1 <= i <= 9
    ensures var db' := Run(db, AgreePlan(key, a, b, n)[..i]);
            && OnlyThis(db, db', key) && db'.agreed == db.agreed[key := b]
            && SameParties(db, db', key) && db'.requests[key].status == AgreeStatus(i)
  {
    var plan := AgreePlan(key, a, b, n)[..i];
    AgreeWritesAbout(key, a, b, n, i);
    RunTouchesThis(db, plan, key, n);
    PartiesStay(db, plan, key);
    ConsentThenOthers(db, key, b, plan);
    AgreeRun(db, key, a, b, n, i);
  }

  /** A request records no consent. */
  lemma AskRecords(db: Db, key: string, a: UserId, b: UserId, i: nat)
    requires Inv(db) && i <= 6 && key !in db.requests && a in db.users && b in db.users
    ensures var db' := Run(db, AskPlan(key, a, b, db.next)[..i]);
            && OnlyThis(db, db', key) && db'.agreed == db.agreed
            && (key in db'.requests ==> !Consented(db'.requests[key].status))
  {
    var plan := AskPlan(key, a, b, db.next)[..i];
    AskRun(db, key, a, b, i);
    AskWritesAbout(key, a, b, db.next, i);
    RunTouchesThis(db, plan, key, db.next);
    AgreedStays(db, plan);
    NotConsented(Run(db, plan), key, a, b, db.next, i);
  }

  lemma NotConsented(db: Db, key: string, a: UserId, b: UserId, n: NodeId, i: nat)
    requires AskStage(db, key, a, b, n, i)
    ensures key in db.requests ==> !Consented(db.requests[key].status)
  {
  }

  /** The condition a caller can check: whoever agrees is the recorded invitee. */
  predicate Oriented(db: Db, op: Op) {
    op.Agree? && op.stop > 0 && Error(db, op).None? ==>
      op.invitee == db.requests[Key(op.inviter, op.invitee)].invitee
  }

  ghost predicate AgreedByInvitee(db: Db) {
    forall key :: key in db.agreed && key in db.requests ==> db.agreed[key] == db.requests[key].invitee
  }

  /** Somebody of the pair has agreed. */
  ghost predicate AgreedByMember(db: Db) {
    forall key :: key in db.agreed && key in db.requests ==>
      db.agreed[key] == db.requests[key].invitee || db.agreed[key] == db.requests[key].inviter
  }

  /** One more request, which nobody has agreed to. */
  lemma NewRequest(db: Db, db': Db, key: string)
    requires ConsentsKnown(db) && AgreedByMember(db) && OnlyThis(db, db', key) && db'.agreed == db.agreed
    requires key !in db.requests && (key in db'.requests ==> !Consented(db'.requests[key].status))
    ensures ConsentsKnown(db') && AgreedByMember(db') && (AgreedByInvitee(db') <==> AgreedByInvitee(db))
  {
    assert key !in db.agreed;
    assert forall k :: k in db.agreed ==>
             k != key && k in db.requests && k in db'.requests && db'.requests[k] == db.requests[k];
  }

  lemma AskStepConsents(db: Db, key: string, a: UserId, b: UserId, i: nat)
    requires Inv(db) && i <= 6 && key !in db.requests && a in db.users && b in db.users
    requires ConsentsKnown(db) && AgreedByMember(db)
    ensures var db' := Run(db, AskPlan(key, a, b, db.next)[..i]);
            ConsentsKnown(db') && AgreedByMember(db') && (AgreedByInvitee(db') <==> AgreedByInvitee(db))
  {
    AskRecords(db, key, a, b, i);
    NewRequest(db, Run(db, AskPlan(key, a, b, db.next)[..i]), key);
  }

  /** One more consent, by one of the two. */
  lemma NewConsent(db: Db, db': Db, key: string, who: UserId)
    requires ConsentsKnown(db) && AgreedByMember(db) && OnlyThis(db, db', key)
    requires key in db.requests && !Consented(db.requests[key].status) && SameParties(db, db', key)
    requires Consented(db'.requests[key].status) && db'.agreed == db.agreed[key := who]
    requires who == db.requests[key].invitee || who == db.requests[key].inviter
    ensures ConsentsKnown(db') && AgreedByMember(db')
    ensures AgreedByInvitee(db') <==> AgreedByInvitee(db) && who == db.requests[key].invitee
  {
    assert key !in db.agreed;
    assert forall k :: k in db.agreed ==>
             k != key && db'.agreed[k] == db.agreed[k] && db'.requests[k] == db.requests[k];
    assert db'.agreed[key] == who;
  }

  lemma ConsentedFromFirst(i: nat)
    requires 1 <= i <= 9
    ensures Consented(AgreeStatus(i)) && !Consented(AgreeStatus(0))
  {
  }

  lemma AgreeStepConsents(db: Db, key: string, a: UserId, b: UserId, n: NodeId, i: nat)
    requires AgreeStage(db, key, a, b, n, 0) && 1 <= i <= 9 && ConsentsKnown(db) && AgreedByMember(db)
    ensures var db' := Run(db, AgreePlan(key, a, b, n)[..i]);
            && ConsentsKnown(db') && AgreedByMember(db')
            && (AgreedByInvitee(db') <==> AgreedByInvitee(db) && b == db.requests[key].invitee)
  {
    AgreeRecords(db, key, a, b, n, i);
    ConsentedFromFirst(i);
    Members(db, key, a, b, n);
    NewConsent(db, Run(db, AgreePlan(key, a, b, n)[..i]), key, b);
  }

  lemma StepConsents(db: Db, op: Op)
    requires Inv(db) && Named(db) && ConsentsKnown(db) && AgreedByMember(db)
    ensures var db' := Perform(db, op).0;
            && ConsentsKnown(db') && AgreedByMember(db')
            && (AgreedByInvitee(db') <==> AgreedByInvitee(db) && Oriented(db, op))
  {
    if Error(db, op).None? {
      var k := WritesDone(db, op);
      if op.Ask? {
        AskStepConsents(db, Key(op.inviter, op.invitee), op.inviter, op.invitee, k);
      } else {
        var n := StageOfRequest(db, op.inviter, op.invitee);
        if k > 0 {
          AgreeStepConsents(db, Key(op.inviter, op.invitee), op.inviter, op.invitee, n, k);
        } else {
          assert Plan(db, op)[..0] == [];
        }
      }
    }
  }

  predicate AllOriented(db: Db, ops: seq<Op>)
    decreases |ops|
  {
    ops == [] || (Oriented(db, ops[0]) && AllOriented(Perform(db, ops[0]).0, ops[1..]))
  }

  lemma {:induction false} ConsentsAlways(db: Db, ops: seq<Op>)
    requires Inv(db) && Named(db) && ConsentsKnown(db) && AgreedByMember(db)
    ensures var db' := AfterOps(db, ops);
            && ConsentsKnown(db') && AgreedByMember(db')
            && (AgreedByInvitee(db') <==> AgreedByInvitee(db) && AllOriented(db, ops))
    decreases |ops|
  {
    if ops != [] {
      StepConsents(db, ops[0]);
      PerformKeeps(db, ops[0]);
      ConsentsAlways(Perform(db, ops[0]).0, ops[1..]);
    }
  }

  /** Over every run: each request past "createNodeCount", a finished one too, was agreed to by one of
      the two it names; and all of them by their invitees if and only if every consent that was
      accepted and got as far as its first write came from the recorded invitee. */
  lemma WhoAgreed(users: map<UserId, User>, ops: seq<Op>)
    requires Fresh(users)
    ensures var db := AfterOps(Start(users), ops);
            && (forall key :: key in db.requests && Consented(db.requests[key].status) ==>
                  && key in db.agreed
                  && (db.agreed[key] == db.requests[key].invitee || db.agreed[key] == db.requests[key].inviter))
            && ((forall key :: key in db.requests && key in db.agreed ==> db.agreed[key] == db.requests[key].invitee)
                <==> AllOriented(Start(users), ops))
  {
    ConsentsAlways(Start(users), ops);
  }

  lemma NobodyKnown(users: map<UserId, User>, a: UserId, b: UserId)
    requires Fresh(users) && a in users && b in users && a != "" && b != ""
    ensures Error(Start(users), Ask(a, a, b, 6)).None?
  {
    assert Start(users).users[a].friends == {} && Start(users).users[b].friends == {};
  }

  /** A request that is not disturbed. */
  lemma AskedInFull(db: Db, a: UserId, b: UserId)
    requires Inv(db) && Named(db) && Error(db, Ask(a, a, b, 6)).None?
    ensures var db' := Perform(db, Ask(a, a, b, 6)).0;
            && Inv(db') && Named(db') && Key(a, b) in db'.requests
            && db'.requests[Key(a, b)] == Request(a, b, Some(db.next), CountMade)
  {
    var db' := Perform(db, Ask(a, a, b, 6)).0;
    var k := WritesDone(db, Ask(a, a, b, 6));
    AskRun(db, Key(a, b), a, b, 6);
    AskedRecord(db', Key(a, b), a, b, db.next);
    PerformKeeps(db, Ask(a, a, b, 6));
  }

  lemma AskedRecord(db: Db, key: string, a: UserId, b: UserId, n: NodeId)
    requires AskStage(db, key, a, b, n, 6)
    ensures key in db.requests && db.requests[key] == Request(a, b, Some(n), CountMade)
  {
  }

  /** The input that fails: a user asks another and then agrees himself, naming the other as inviter. */
  lemma InviterCanAgree(users: map<UserId, User>, a: UserId, b: UserId)
    requires Fresh(users) && a in users && b in users && a != b && a != "" && b != ""
    ensures var db := AfterOps(Start(users), [Ask(a, a, b, 6), Agree(a, b, a, 9)]);
            && Key(a, b) in db.requests && db.requests[Key(a, b)].status.Finished?
            && db.requests[Key(a, b)].invitee == b
            && Key(a, b) in db.agreed && db.agreed[Key(a, b)] == a
  {
    var ask, agree := Ask(a, a, b, 6), Agree(a, b, a, 9);
    var db := Perform(Start(users), ask).0;
    NobodyKnown(users, a, b);
    AskedInFull(Start(users), a, b);
    KeyIsSymmetric(a, b);
    AgreedInFull(db, Key(b, a), a, b, 0);
    TwoOps(Start(users), ask, agree);
  }

  lemma TwoOps(db: Db, first: Op, second: Op)
    ensures AfterOps(db, [first, second]) == Perform(Perform(db, first).0, second).0
  {
    assert [first, second][1..] == [second] && [second][1..] == [];
    assert AfterOps(Perform(db, first).0, [second]) == Perform(Perform(db, first).0, second).0;
  }

  lemma AgreedInFull(db: Db, key: string, a: UserId, b: UserId, n: NodeId)
    requires Inv(db) && Named(db) && a != "" && b != "" && key == Key(b, a) && key in db.requests
    requires db.requests[key] == Request(a, b, Some(n), CountMade)
    ensures var db' := Perform(db, Agree(a, b, a, 9)).0;
            && key in db'.requests && db'.requests[key].status.Finished?
            && db'.requests[key].invitee == b && db'.agreed == db.agreed[key := a]
  {
    var k := WritesDone(db, Agree(a, b, a, 9));
    var m := StageOfRequest(db, b, a);
    AgreeRecords(db, key, b, a, n, 9);
  }
}
