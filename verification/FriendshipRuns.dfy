/** What the recorded status says about the database, over every sequence of requests and consents
    and every point at which one of them may have stopped. */
module FriendshipRuns {
  import opened Options
  import opened Friendship
  import opened FriendshipShape

  // ---- Write by write ----

  function AskStatus(i: nat): Status {
    if i <= 2 then Asked else if i <= 4 then NodeMade else CountMade
  }

  /** This pair's workflow after i writes of addFriend. */
  ghost predicate AskStage(db: Db, key: string, a: UserId, b: UserId, n: NodeId, i: nat) {
    && OthersOk(db, key, n) && a in db.users && b in db.users
    && (if i == 0 then key !in db.requests
        else key in db.requests && db.requests[key] == Request(a, b, if i <= 2 then None else Some(n), AskStatus(i)))
    && (if i < 2 then n == db.next else n in db.nodes && db.nodes[n] == (a, b) && db.made[n] == key)
    && Upto(db, n, a, b, if i < 4 then 1 else 2)
  }

  lemma AskStart(db: Db, key: string, a: UserId, b: UserId)
    requires Inv(db) && key !in db.requests && a in db.users && b in db.users
    ensures AskStage(db, key, a, b, db.next, 0)
  {
    assert db.next !in db.nodes;
    forall m | m in db.nodes && m != db.next ensures db.made[m] != key && HasLadder(db, m) {
      assert NodeOk(db, m);
    }
  }

  lemma AskPlanAt(key: string, a: UserId, b: UserId, n: NodeId, i: nat)
    requires i < 6
    ensures var w := AskPlan(key, a, b, n)[i];
            match i
            case 0 => w == InsertRequest(key, a, b)
            case 1 => w == InsertNode(key, a, b)
            case 2 => w == SetNode(key, n)
            case 3 => w == InsertCount(n)
            case 4 => w == SetStatus(key, CountMade)
            case _ => w == TakeNumber(n)
    ensures About(AskPlan(key, a, b, n)[i], key, n) && !AskPlan(key, a, b, n)[i].Consent?
  {
  }

  lemma AskShape(db: Db, key: string, a: UserId, b: UserId, n: NodeId, i: nat)
    requires i < 6 && AskStage(db, key, a, b, n, i)
    ensures Shape(Apply(db, AskPlan(key, a, b, n)[i]))
  {
    AskPlanAt(key, a, b, n, i);
    match i {
      case 0 => ShapeAfterRequest(db, key, a, b);
      case 1 =>
        AllMadeElsewhere(db, key, n);
        ShapeAfterNode(db, key, a, b);
      case 2 => ShapeAfterSetNode(db, key, n);
      case 4 => ShapeAfterStatus(db, key, CountMade);
      case _ => ShapeAfterEntry(db, AskPlan(key, a, b, n)[i], n);
    }
  }

  lemma AskTables(db: Db, key: string, a: UserId, b: UserId, n: NodeId, i: nat)
    requires i < 6 && (i < 2 ==> n == db.next)
    requires if i == 0 then key !in db.requests
             else
               && key in db.requests
               && db.requests[key] == Request(a, b, if i <= 2 then None else Some(n), AskStatus(i))
    requires i < 2 || (n in db.nodes && db.nodes[n] == (a, b) && n in db.made && db.made[n] == key)
    ensures var db' := Apply(db, AskPlan(key, a, b, n)[i]);
            && db'.users == db.users && db'.agreed == db.agreed && key in db'.requests
            && db'.requests[key] == Request(a, b, if i < 2 then None else Some(n), AskStatus(i + 1))
            && (if i == 0 then n == db'.next
                else n in db'.nodes && db'.nodes[n] == (a, b) && n in db'.made && db'.made[n] == key)
  {
    AskPlanAt(key, a, b, n, i);
  }

  lemma AskStep(db: Db, key: string, a: UserId, b: UserId, n: NodeId, i: nat)
    requires i < 6 && AskStage(db, key, a, b, n, i)
    ensures AskStage(Apply(db, AskPlan(key, a, b, n)[i]), key, a, b, n, i + 1)
  {
    AskShape(db, key, a, b, n, i);
    AskTables(db, key, a, b, n, i);
    AskPlanAt(key, a, b, n, i);
    OthersKept(db, AskPlan(key, a, b, n)[i], key, n);
    AskEffects(db, key, a, b, n, i);
  }

  lemma AllMadeElsewhere(db: Db, key: string, n: NodeId)
    requires OthersOk(db, key, n) && n == db.next
    ensures n !in db.nodes && forall m :: m in db.made ==> db.made[m] != key
  {
    assert n in db.nodes ==> NodeOk(db, n);
    forall m | m in db.made ensures db.made[m] != key {
      assert m in db.nodes;
    }
  }

  lemma AskEffects(db: Db, key: string, a: UserId, b: UserId, n: NodeId, i: nat)
    requires i < 6 && Upto(db, n, a, b, if i < 4 then 1 else 2)
    ensures Upto(Apply(db, AskPlan(key, a, b, n)[i]), n, a, b, if i + 1 < 4 then 1 else 2)
  {
    AskPlanAt(key, a, b, n, i);
    if i == 3 {
      CountAddsOne(db, n, a, b);
    } else {
      NothingAdded(db, AskPlan(key, a, b, n)[i], n, a, b, if i < 4 then 1 else 2);
    }
  }

  lemma CountAddsOne(db: Db, n: NodeId, a: UserId, b: UserId)
    requires Upto(db, n, a, b, 1)
    ensures Upto(Apply(db, InsertCount(n)), n, a, b, 2)
  {
    forall k | 1 <= k <= 5 ensures Effect(Apply(db, InsertCount(n)), n, a, b, k) <==> Rank(a, b, k) < 2 {
      assert Effect(db, n, a, b, k) <==> Rank(a, b, k) < 1;
    }
  }

  /** Tables that the effects do not speak about. */
  lemma NothingAdded(db: Db, w: Write, n: NodeId, x: UserId, y: UserId, e: int)
    requires Upto(db, n, x, y, e)
    requires w.InsertRequest? || w.InsertNode? || w.SetNode? || w.SetStatus? || w.Consent? || w.TakeNumber?
    ensures Upto(Apply(db, w), n, x, y, e)
  {
    forall k | 1 <= k <= 5 ensures Effect(Apply(db, w), n, x, y, k) <==> Rank(x, y, k) < e {
      assert Effect(db, n, x, y, k) <==> Rank(x, y, k) < e;
    }
  }

  lemma AskStageInv(db: Db, key: string, a: UserId, b: UserId, n: NodeId, i: nat)
    requires i <= 6 && AskStage(db, key, a, b, n, i)
    ensures Inv(db)
  {
    forall m | m in db.nodes ensures HasLadder(db, m) {
      if m == n && i >= 2 {
        assert Ladder(db, n, a, b, AskStatus(i));
      }
    }
  }

  lemma {:induction false} AskRun(db: Db, key: string, a: UserId, b: UserId, i: nat)
    requires Inv(db) && key !in db.requests && a in db.users && b in db.users && i <= 6
    ensures AskStage(Run(db, AskPlan(key, a, b, db.next)[..i]), key, a, b, db.next, i)
    ensures Inv(Run(db, AskPlan(key, a, b, db.next)[..i]))
  {
    if i == 0 {
      AskStart(db, key, a, b);
    } else {
      AskRun(db, key, a, b, i - 1);
      RunPrefix(db, AskPlan(key, a, b, db.next), i - 1);
      AskStep(Run(db, AskPlan(key, a, b, db.next)[..i - 1]), key, a, b, db.next, i - 1);
    }
    AskStageInv(Run(db, AskPlan(key, a, b, db.next)[..i]), key, a, b, db.next, i);
  }

  function AgreeStatus(i: nat): Status {
    if i == 0 then CountMade else if i <= 2 then Agreed else if i <= 4 then InviterAdded
    else if i <= 6 then InviterUnread else if i <= 8 then InviteeAdded else Finished
  }

  /** This pair's workflow after i writes of addFriendAuthorize. */
  ghost predicate AgreeStage(db: Db, key: string, a: UserId, b: UserId, n: NodeId, i: nat) {
    && OthersOk(db, key, n) && a in db.users && b in db.users
    && key in db.requests && db.requests[key].status == AgreeStatus(i) && db.requests[key].node == Some(n)
    && n in db.nodes && (db.nodes[n] == (a, b) || db.nodes[n] == (b, a)) && db.made[n] == key
    && Upto(db, n, a, b, 2 + i / 2)
  }

  lemma AgreeStart(db: Db, key: string, a: UserId, b: UserId, n: NodeId)
    requires Inv(db) && key in db.requests && db.requests[key].status.CountMade? && db.requests[key].node == Some(n)
    requires n in db.nodes && (db.nodes[n] == (a, b) || db.nodes[n] == (b, a))
    ensures AgreeStage(db, key, a, b, n, 0)
  {
    assert RequestOk(db, key) && NodeOk(db, n) && HasLadder(db, n);
    var (x, y) := db.nodes[n];
    assert Upto(db, n, x, y, 2) || Upto(db, n, y, x, 2);
    NoneBefriended(db, n, a, b);
  }

  /** Before anybody is added the two sides cannot be told apart. */
  lemma NoneBefriended(db: Db, n: NodeId, a: UserId, b: UserId)
    requires Upto(db, n, a, b, 2) || Upto(db, n, b, a, 2)
    ensures Upto(db, n, a, b, 2)
  {
    if Upto(db, n, b, a, 2) {
      assert Effect(db, n, b, a, 1) && !Effect(db, n, b, a, 2) && !Effect(db, n, b, a, 3)
             && !Effect(db, n, b, a, 4) && !Effect(db, n, b, a, 5);
    }
  }

  /** The writes of the consent, each followed by the status that records it. */
  lemma AgreePlanAt(key: string, a: UserId, b: UserId, n: NodeId, i: nat)
    requires i < 9
    ensures var w := AgreePlan(key, a, b, n)[i];
            match i
            case 0 => w == Consent(key, b)
            case 1 => w == AddToFriends(a, n, b)
            case 3 => w == InsertUnread(a, n)
            case 5 => w == AddToFriends(b, n, a)
            case 7 => w == InsertUnread(b, n)
            case _ => w == SetStatus(key, AgreeStatus(i + 1))
    ensures i % 2 == 1 ==> AgreeStatus(i) == AgreeStatus(i + 1)
    ensures i % 2 == 0 ==> i == 0 || i == 2 || i == 4 || i == 6 || i == 8
  {
  }

  lemma AgreeShape(db: Db, key: string, a: UserId, b: UserId, n: NodeId, i: nat)
    requires i < 9 && AgreeStage(db, key, a, b, n, i)
    ensures Shape(Apply(db, AgreePlan(key, a, b, n)[i]))
  {
    AgreePlanAt(key, a, b, n, i);
    ShapeAfterAgreeing(db, key, a, b, n, i, AgreePlan(key, a, b, n)[i]);
  }

  lemma ShapeAfterAgreeing(db: Db, key: string, a: UserId, b: UserId, n: NodeId, i: nat, w: Write)
    requires Shape(db) && key in db.requests && !db.requests[key].status.Asked?
    requires n in db.nodes && (db.nodes[n] == (a, b) || db.nodes[n] == (b, a))
    requires w == Consent(key, b) || w == AddToFriends(a, n, b) || w == InsertUnread(a, n) ||
             w == AddToFriends(b, n, a) || w == InsertUnread(b, n) || w == SetStatus(key, AgreeStatus(i + 1))
    ensures Shape(Apply(db, w))
  {
    match w {
      case Consent(_, _) => ShapeAfterConsent(db, key, b);
      case SetStatus(_, s) => ShapeAfterStatus(db, key, s);
      case AddToFriends(u, _, f) => ShapeAfterFriend(db, u, n, f);
      case _ => ShapeAfterEntry(db, w, n);
    }
  }

  lemma StatusOnly(db: Db, w: Write, key: string, s: Status)
    requires key in db.requests && (w == SetStatus(key, s) || (w.Consent? && w.key == key && s == Agreed))
    ensures var db' := Apply(db, w);
            && db'.nodes == db.nodes && db'.made == db.made && db'.users == db.users
            && db'.requests == db.requests[key := db.requests[key].(status := s)]
  {
  }

  lemma ListsOnly(db: Db, w: Write)
    requires w.AddToFriends? || w.InsertUnread?
    ensures var db' := Apply(db, w);
            && db'.nodes == db.nodes && db'.made == db.made && db'.users.Keys == db.users.Keys
            && db'.requests == db.requests
  {
  }

  lemma AgreeTables(db: Db, key: string, a: UserId, b: UserId, n: NodeId, i: nat)
    requires i < 9 && key in db.requests && db.requests[key].status == AgreeStatus(i)
    ensures var db' := Apply(db, AgreePlan(key, a, b, n)[i]);
            && db'.nodes == db.nodes && db'.made == db.made && db'.users.Keys == db.users.Keys
            && key in db'.requests && db'.requests[key] == db.requests[key].(status := AgreeStatus(i + 1))
            && About(AgreePlan(key, a, b, n)[i], key, n) && !AgreePlan(key, a, b, n)[i].InsertNode?
  {
    AgreePlanAt(key, a, b, n, i);
    var w := AgreePlan(key, a, b, n)[i];
    if i % 2 == 1 {
      ListsOnly(db, w);
    } else {
      StatusOnly(db, w, key, AgreeStatus(i + 1));
    }
  }

  lemma AgreeStep(db: Db, key: string, a: UserId, b: UserId, n: NodeId, i: nat)
    requires i < 9 && AgreeStage(db, key, a, b, n, i)
    ensures AgreeStage(Apply(db, AgreePlan(key, a, b, n)[i]), key, a, b, n, i + 1)
  {
    AgreeShape(db, key, a, b, n, i);
    AgreeTables(db, key, a, b, n, i);
    OthersKept(db, AgreePlan(key, a, b, n)[i], key, n);
    AgreeEffects(db, key, a, b, n, i);
  }

  lemma FriendAddsOne(db: Db, n: NodeId, x: UserId, y: UserId, second: bool)
    requires Upto(db, n, x, y, if second then 4 else 2) && x in db.users && y in db.users
    ensures var w := if second then AddToFriends(y, n, x) else AddToFriends(x, n, y);
            Upto(Apply(db, w), n, x, y, if second then 5 else 3)
  {
    var db' := Apply(db, if second then AddToFriends(y, n, x) else AddToFriends(x, n, y));
    forall k | 1 <= k <= 5 ensures Effect(db', n, x, y, k) <==> Rank(x, y, k) < if second then 5 else 3 {
      assert Effect(db, n, x, y, k) <==> Rank(x, y, k) < if second then 4 else 2;
    }
  }

  lemma UnreadAddsOne(db: Db, n: NodeId, x: UserId, y: UserId, second: bool)
    requires Upto(db, n, x, y, if second then 5 else 3)
    ensures Upto(Apply(db, InsertUnread(if second then y else x, n)), n, x, y, if second then 6 else 4)
  {
    var db' := Apply(db, InsertUnread(if second then y else x, n));
    forall k | 1 <= k <= 5 ensures Effect(db', n, x, y, k) <==> Rank(x, y, k) < if second then 6 else 4 {
      assert Effect(db, n, x, y, k) <==> Rank(x, y, k) < if second then 5 else 3;
    }
  }

  lemma AgreeEffects(db: Db, key: string, a: UserId, b: UserId, n: NodeId, i: nat)
    requires i < 9 && Upto(db, n, a, b, 2 + i / 2) && a in db.users && b in db.users
    ensures Upto(Apply(db, AgreePlan(key, a, b, n)[i]), n, a, b, 2 + (i + 1) / 2)
  {
    AgreePlanAt(key, a, b, n, i);
    match i {
      case 1 => FriendAddsOne(db, n, a, b, false);
      case 3 => UnreadAddsOne(db, n, a, b, false);
      case 5 => FriendAddsOne(db, n, a, b, true);
      case 7 => UnreadAddsOne(db, n, a, b, true);
      case _ => NothingAdded(db, AgreePlan(key, a, b, n)[i], n, a, b, 2 + i / 2);
    }
  }

  lemma AgreeStageInv(db: Db, key: string, a: UserId, b: UserId, n: NodeId, i: nat)
    requires i <= 9 && AgreeStage(db, key, a, b, n, i)
    ensures Inv(db)
  {
    forall m | m in db.nodes ensures HasLadder(db, m) {
      if m == n {
        assert Ladder(db, n, a, b, AgreeStatus(i));
      }
    }
  }

  lemma {:induction false} AgreeRun(db: Db, key: string, a: UserId, b: UserId, n: NodeId, i: nat)
    requires AgreeStage(db, key, a, b, n, 0) && i <= 9
    ensures AgreeStage(Run(db, AgreePlan(key, a, b, n)[..i]), key, a, b, n, i)
    ensures Inv(Run(db, AgreePlan(key, a, b, n)[..i]))
  {
    if i > 0 {
      AgreeRun(db, key, a, b, n, i - 1);
      RunPrefix(db, AgreePlan(key, a, b, n), i - 1);
      AgreeStep(Run(db, AgreePlan(key, a, b, n)[..i - 1]), key, a, b, n, i - 1);
    }
    AgreeStageInv(Run(db, AgreePlan(key, a, b, n)[..i]), key, a, b, n, i);
  }

  // ---- Whole runs ----

  lemma {:induction false} RunTouchesThis(db: Db, plan: seq<Write>, key: string, n: NodeId)
    requires forall w :: w in plan ==> About(w, key, n)
    ensures OnlyThis(db, Run(db, plan), key)
    decreases |plan|
  {
    if plan != [] {
      assert plan[0] in plan;
      OthersUntouched(db, plan[0], key, n);
      RunTouchesThis(Apply(db, plan[0]), plan[1..], key, n);
    }
  }

  lemma AskWritesAbout(key: string, a: UserId, b: UserId, n: NodeId, i: nat)
    requires i <= 6
    ensures forall w :: w in AskPlan(key, a, b, n)[..i] ==> About(w, key, n) && !w.Consent? && !w.AddToFriends?
  {
    forall j | 0 <= j < i
      ensures var w := AskPlan(key, a, b, n)[..i][j]; About(w, key, n) && !w.Consent? && !w.AddToFriends?
    {
      AskPlanAt(key, a, b, n, j);
    }
  }

  ghost predicate Named(db: Db) {
    && (forall u :: u in db.users ==> '_' !in u)
    && (forall key :: key in db.requests ==>
          && key == Key(db.requests[key].inviter, db.requests[key].invitee)
          && db.requests[key].inviter != "" && db.requests[key].invitee != "")
  }

  ghost predicate WellKeyed(plan: seq<Write>) {
    forall w :: w in plan && w.InsertRequest? ==> Keyed(w)
  }

  predicate Keyed(w: Write)
    requires w.InsertRequest?
  {
    w.key == Key(w.inviter, w.invitee) && w.inviter != "" && w.invitee != ""
  }

  lemma {:induction false} NamedKept(db: Db, plan: seq<Write>)
    requires Named(db) && WellKeyed(plan)
    ensures Named(Run(db, plan)) && Run(db, plan).users.Keys == db.users.Keys
    decreases |plan|
  {
    if plan != [] {
      assert plan[0] in plan;
      NamedAfter(db, plan[0]);
      NamedKept(Apply(db, plan[0]), plan[1..]);
    }
  }

  lemma RequestsStay(db: Db, w: Write)
    requires !w.InsertRequest? && !w.SetNode? && !w.SetStatus? && !w.Consent?
    ensures Apply(db, w).requests == db.requests
  {
  }

  lemma NamesStay(db: Db, w: Write, k: string)
    requires (w.SetNode? || w.SetStatus? || w.Consent?) && k in Apply(db, w).requests
    ensures k in db.requests
    ensures var (r, r') := (db.requests[k], Apply(db, w).requests[k]);
            r'.inviter == r.inviter && r'.invitee == r.invitee
  {
  }

  /** The names in a request stay as they are. */
  lemma NamesAfter(db: Db, w: Write, k: string)
    requires k in Apply(db, w).requests
    ensures var r' := Apply(db, w).requests[k];
            if w.InsertRequest? && w.key == k then r'.inviter == w.inviter && r'.invitee == w.invitee
            else k in db.requests && r'.inviter == db.requests[k].inviter && r'.invitee == db.requests[k].invitee
  {
    if w.SetNode? || w.SetStatus? || w.Consent? {
      NamesStay(db, w, k);
    } else if !w.InsertRequest? {
      RequestsStay(db, w);
    }
  }

  lemma NamedAfter(db: Db, w: Write)
    requires Named(db) && (w.InsertRequest? ==> Keyed(w))
    ensures Named(Apply(db, w)) && Apply(db, w).users.Keys == db.users.Keys
  {
    assert Apply(db, w).users.Keys == db.users.Keys;
    assert forall u :: u in Apply(db, w).users <==> u in db.users;
    forall k | k in Apply(db, w).requests
      ensures var r := Apply(db, w).requests[k]; k == Key(r.inviter, r.invitee) && r.inviter != "" && r.invitee != ""
    {
      NamesAfter(db, w, k);
    }
  }

  /** The writes an operation gets to do. */
  function Performed(db: Db, op: Op): seq<Write> {
    if Error(db, op).Some? then []
    else if op.stop < |Plan(db, op)| then Plan(db, op)[..op.stop] else Plan(db, op)
  }

  lemma PerformedRuns(db: Db, op: Op)
    ensures Perform(db, op).0 == Run(db, Performed(db, op))
  {
  }

  lemma AskWellKeyed(key: string, a: UserId, b: UserId, n: NodeId)
    requires key == Key(a, b) && a != "" && b != ""
    ensures WellKeyed(AskPlan(key, a, b, n))
  {
    forall i | 0 <= i < 6 && AskPlan(key, a, b, n)[i].InsertRequest? ensures Keyed(AskPlan(key, a, b, n)[i]) {
      AskPlanAt(key, a, b, n, i);
    }
  }

  lemma PlanWellKeyed(db: Db, op: Op)
    ensures WellKeyed(Performed(db, op))
  {
    if Error(db, op).None? {
      if op.Ask? {
        AskWellKeyed(Key(op.inviter, op.invitee), op.inviter, op.invitee, db.next);
        assert forall w :: w in Performed(db, op) ==> w in Plan(db, op);
      } else {
        assert forall w :: w in Performed(db, op) ==> w in Plan(db, op);
      }
    }
  }

  /** How many of its writes an accepted operation gets to do. */
  lemma WritesDone(db: Db, op: Op) returns (k: nat)
    requires Error(db, op).None?
    ensures k == (if op.stop < |Plan(db, op)| then op.stop else |Plan(db, op)|)
    ensures Performed(db, op) == Plan(db, op)[..k]
    ensures Perform(db, op).0 == Run(db, Plan(db, op)[..k])
  {
    var plan := Plan(db, op);
    k := if op.stop < |plan| then op.stop else |plan|;
    assert plan[..|plan|] == plan;
  }

  lemma PerformKeeps(db: Db, op: Op)
    requires Inv(db) && Named(db)
    ensures Inv(Perform(db, op).0) && Named(Perform(db, op).0)
  {
    PerformedRuns(db, op);
    PlanWellKeyed(db, op);
    NamedKept(db, Performed(db, op));
    if Error(db, op).None? {
      var k := WritesDone(db, op);
      if op.Ask? {
        AskRun(db, Key(op.inviter, op.invitee), op.inviter, op.invitee, k);
      } else {
        var n := StageOfRequest(db, op.inviter, op.invitee);
        AgreeRun(db, Key(op.inviter, op.invitee), op.inviter, op.invitee, n, k);
      }
    }
  }

  lemma Members(db: Db, key: string, a: UserId, b: UserId, n: NodeId)
    requires Shape(db) && key in db.requests && n in db.nodes && db.made[n] == key
    requires db.nodes[n] == (a, b) || db.nodes[n] == (b, a)
    ensures var r := db.requests[key]; (r.inviter, r.invitee) == (a, b) || (r.inviter, r.invitee) == (b, a)
  {
    assert NodeOk(db, n);
  }

  /** The node that an accepted consent is about, and its two members. */
  lemma NodeOfRequest(db: Db, a: UserId, b: UserId) returns (n: NodeId)
    requires Inv(db) && Named(db) && Key(a, b) in db.requests && db.requests[Key(a, b)].status.CountMade?
    ensures db.requests[Key(a, b)].node == Some(n) && n in db.nodes && db.made[n] == Key(a, b)
    ensures db.nodes[n] == (a, b) || db.nodes[n] == (b, a)
  {
    var r := db.requests[Key(a, b)];
    assert RequestOk(db, Key(a, b));
    n := r.node.value;
    assert NodeOk(db, n);
    KeyIsUnique(r.inviter, r.invitee, a, b);
  }

  lemma StageOfRequest(db: Db, a: UserId, b: UserId) returns (n: NodeId)
    requires Inv(db) && Named(db) && Key(a, b) in db.requests && db.requests[Key(a, b)].status.CountMade?
    ensures db.requests[Key(a, b)].node == Some(n) && AgreeStage(db, Key(a, b), a, b, n, 0)
  {
    n := NodeOfRequest(db, a, b);
    AgreeStart(db, Key(a, b), a, b, n);
  }

  function AfterOps(db: Db, ops: seq<Op>): Db
    decreases |ops|
  {
    if ops == [] then db else AfterOps(Perform(db, ops[0]).0, ops[1..])
  }

  /** Users with nobody in their lists; ids are hexadecimal and hold no bar. */
  ghost predicate Fresh(users: map<UserId, User>) {
    forall u :: u in users ==> '_' !in u && users[u].friends == {}
  }

  function Start(users: map<UserId, User>): Db { Db(users, map[], map[], 0, map[], {}, map[], map[]) }

  lemma {:induction false} InvAlways(db: Db, ops: seq<Op>)
    requires Inv(db) && Named(db)
    ensures Inv(AfterOps(db, ops)) && Named(AfterOps(db, ops))
    decreases |ops|
  {
    if ops != [] {
      PerformKeeps(db, ops[0]);
      InvAlways(Perform(db, ops[0]).0, ops[1..]);
    }
  }

  // ---- Main results ----

  /** Over every run: the effects for a pair are applied in order, the recorded status claims none
      that is missing, and they lead it by at most one write. */
  lemma StatusNeverLies(users: map<UserId, User>, ops: seq<Op>, key: string)
    requires Fresh(users) && key in AfterOps(Start(users), ops).requests
    ensures var db := AfterOps(Start(users), ops);
            var r := db.requests[key];
            && (forall n :: n in db.made && db.made[n] == key ==>
                  Ladder(db, n, r.inviter, r.invitee, r.status) || Ladder(db, n, r.invitee, r.inviter, r.status))
            && (Claimed(r.status) >= 1 ==> r.node.Some? && r.node.value in db.made && db.made[r.node.value] == key)
  {
    InvAlways(Start(users), ops);
    var db := AfterOps(Start(users), ops);
    assert RequestOk(db, key);
    forall n | n in db.made && db.made[n] == key
      ensures var r := db.requests[key];
              Ladder(db, n, r.inviter, r.invitee, r.status) || Ladder(db, n, r.invitee, r.inviter, r.status)
    {
      assert n in db.nodes && NodeOk(db, n) && HasLadder(db, n);
    }
  }

  /** "finish" means that both list each other under the same node and both have their unread entry. */
  lemma FinishIsMutual(users: map<UserId, User>, ops: seq<Op>, key: string)
    requires Fresh(users) && key in AfterOps(Start(users), ops).requests
    requires AfterOps(Start(users), ops).requests[key].status.Finished?
    ensures var db := AfterOps(Start(users), ops);
            var r := db.requests[key];
            && r.node.Some? && r.inviter in db.users && r.invitee in db.users
            && (r.node.value, r.invitee) in db.users[r.inviter].friends
            && (r.node.value, r.inviter) in db.users[r.invitee].friends
            && (r.inviter, r.node.value) in db.unread && (r.invitee, r.node.value) in db.unread
            && r.node.value in db.counts
  {
    StatusNeverLies(users, ops, key);
    var db := AfterOps(Start(users), ops);
    var r := db.requests[key];
    var n := r.node.value;
    assert Upto(db, n, r.inviter, r.invitee, 6) || Upto(db, n, r.invitee, r.inviter, 6);
    AllThere(db, n, r.inviter, r.invitee);
    assert Effect(db, n, r.inviter, r.invitee, 1) && Effect(db, n, r.inviter, r.invitee, 2)
           && Effect(db, n, r.inviter, r.invitee, 3) && Effect(db, n, r.inviter, r.invitee, 4)
           && Effect(db, n, r.inviter, r.invitee, 5);
  }

  lemma AllThere(db: Db, n: NodeId, a: UserId, b: UserId)
    requires Upto(db, n, a, b, 6) || Upto(db, n, b, a, 6)
    ensures forall k :: 1 <= k <= 5 ==> Effect(db, n, a, b, k)
  {
    if Upto(db, n, b, a, 6) {
      assert Effect(db, n, b, a, 1) && Effect(db, n, b, a, 2) && Effect(db, n, b, a, 3)
             && Effect(db, n, b, a, 4) && Effect(db, n, b, a, 5);
    }
  }

  /** However often two users ask each other, in whichever direction, there is one node for them. */
  lemma OneNodePerPair(users: map<UserId, User>, ops: seq<Op>, n: NodeId, m: NodeId)
    requires Fresh(users) && n in AfterOps(Start(users), ops).nodes && m in AfterOps(Start(users), ops).nodes
    requires var nodes := AfterOps(Start(users), ops).nodes;
             nodes[n] == nodes[m] || nodes[n] == (nodes[m].1, nodes[m].0)
    ensures n == m
  {
    InvAlways(Start(users), ops);
    SamePairSameNode(AfterOps(Start(users), ops), n, m);
  }

  lemma SamePairSameNode(db: Db, n: NodeId, m: NodeId)
    requires Shape(db) && Named(db) && n in db.nodes && m in db.nodes
    requires db.nodes[n] == db.nodes[m] || db.nodes[n] == (db.nodes[m].1, db.nodes[m].0)
    ensures n == m
  {
    assert NodeOk(db, n) && NodeOk(db, m);
    KeyIsSymmetric(db.nodes[m].0, db.nodes[m].1);
    assert db.made[n] == db.made[m];
  }
}
