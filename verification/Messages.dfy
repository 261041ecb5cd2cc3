/** Messages of a conversation: how they get their numbers, from many workers at once, and how they
    are read back page by page. */
module Messages {

  type NodeId = nat
  type UserId = string
  type WorkerId = nat
  type Content = string

  const PAGE_LIMIT := 50

  const QUERY_INVALID := 11008
  const INSERT_FAILURE := 40051

  // ---- Numbering ----

  /** A number taken from the counter whose message is not stored yet. */
  datatype Pending = Pending(node: NodeId, id: nat, content: Content)

  datatype State = State(
    counts: map<NodeId, nat>,                       // messageNodeCount
    stored: map<(NodeId, nat), Content>,            // nodeMessage
    pending: map<WorkerId, Pending>,
    lost: set<(NodeId, nat)>                        // history: numbers whose insert failed
  )

  datatype Step =
    | Open(n: NodeId)                               // addFriend or creategroup make the counter
    | Take(w: WorkerId, n: NodeId, content: Content)
    | Store(w: WorkerId)
    | Fail(w: WorkerId)

  function Init(): State { State(map[], map[], map[], {}) }

  predicate Enabled(s: State, step: Step) {
    match step
    case Open(n) => n !in s.counts
    case Take(w, n, _) => w !in s.pending && n in s.counts
    case Store(w) => w in s.pending && (s.pending[w].node, s.pending[w].id) !in s.stored
    case Fail(w) => w in s.pending
  }

  /** Each step is one call into the database. */
  function Do(s: State, step: Step): State
    requires Enabled(s, step)
  {
    match step
    case Open(n) => s.(counts := s.counts[n := 0])
    case Take(w, n, content) =>
      // find_one_and_update answers with the document as it was
      s.(counts := s.counts[n := s.counts[n] + 1], pending := s.pending[w := Pending(n, s.counts[n], content)])
    case Store(w) =>
      var p := s.pending[w];
      s.(stored := s.stored[(p.node, p.id) := p.content], pending := s.pending - {w})
    case Fail(w) =>
      s.(lost := s.lost + {(s.pending[w].node, s.pending[w].id)}, pending := s.pending - {w})
  }

  predicate Legal(s: State, steps: seq<Step>)
    decreases |steps|
  {
    steps == [] || (Enabled(s, steps[0]) && Legal(Do(s, steps[0]), steps[1..]))
  }

  function After(s: State, steps: seq<Step>): State
    requires Legal(s, steps)
    decreases |steps|
  {
    if steps == [] then s else After(Do(s, steps[0]), steps[1..])
  }

  ghost predicate InFlight(s: State, n: NodeId, i: nat) {
    exists w :: w in s.pending && s.pending[w].node == n && s.pending[w].id == i
  }

  ghost predicate Taken(s: State, n: NodeId, i: nat) {
    (n, i) in s.stored || (n, i) in s.lost || InFlight(s, n, i)
  }

  /** Every number below the counter was taken once: it is stored, lost, or with one worker. */
  ghost predicate Inv(s: State) {
    && (forall n, i: nat :: Taken(s, n, i) <==> n in s.counts && i < s.counts[n])
    && (forall n, i: nat :: (n, i) in s.stored ==> (n, i) !in s.lost)
    && (forall w :: w in s.pending ==>
          (s.pending[w].node, s.pending[w].id) !in s.stored && (s.pending[w].node, s.pending[w].id) !in s.lost)
    && (forall v, w :: v in s.pending && w in s.pending && v != w ==>
          s.pending[v].node != s.pending[w].node || s.pending[v].id != s.pending[w].id)
  }

  lemma TakenAfter(s: State, step: Step, n: NodeId, i: nat)
    requires Inv(s) && Enabled(s, step)
    ensures Taken(Do(s, step), n, i) <==>
            Taken(s, n, i) || (step.Take? && step.n == n && s.counts[n] == i)
  {
    var s' := Do(s, step);
    match step {
      case Open(_) =>
      case Take(w, m, _) =>
        if InFlight(s, n, i) {
          var v :| v in s.pending && s.pending[v].node == n && s.pending[v].id == i;
          assert v in s'.pending && s'.pending[v] == s.pending[v];
        }
        assert w in s'.pending && s'.pending[w].node == m && s'.pending[w].id == s.counts[m];
      case Store(w) => HandedOn(s, s', w, n, i);
      case Fail(w) => HandedOn(s, s', w, n, i);
    }
  }

  lemma HandedOn(s: State, s': State, w: WorkerId, n: NodeId, i: nat)
    requires w in s.pending && s'.pending == s.pending - {w}
    ensures InFlight(s, n, i) <==> InFlight(s', n, i) || (s.pending[w].node == n && s.pending[w].id == i)
  {
    if InFlight(s, n, i) {
      var v :| v in s.pending && s.pending[v].node == n && s.pending[v].id == i;
      assert v != w ==> v in s'.pending && s'.pending[v] == s.pending[v];
    }
  }

  lemma InvKept(s: State, step: Step)
    requires Inv(s) && Enabled(s, step)
    ensures Inv(Do(s, step))
  {
    var s' := Do(s, step);
    forall n, i: nat ensures Taken(s', n, i) <==> n in s'.counts && i < s'.counts[n] {
      TakenAfter(s, step, n, i);
      assert Taken(s, n, i) <==> n in s.counts && i < s.counts[n];
    }
    if step.Take? {
      assert !Taken(s, step.n, s.counts[step.n]);
      FreshNumber(s, step.n, s.counts[step.n]);
    }
  }

  lemma FreshNumber(s: State, n: NodeId, i: nat)
    requires !Taken(s, n, i)
    ensures (n, i) !in s.stored && (n, i) !in s.lost
    ensures forall w :: w in s.pending ==> s.pending[w].node != n || s.pending[w].id != i
  {
  }

  lemma {:induction false} InvAlways(s: State, steps: seq<Step>)
    requires Inv(s) && Legal(s, steps)
    ensures Inv(After(s, steps))
    decreases |steps|
  {
    if steps != [] {
      InvKept(s, steps[0]);
      InvAlways(Do(s, steps[0]), steps[1..]);
    }
  }

  lemma InitInv()
    ensures Inv(Init())
  {
    assert forall n, i: nat :: !Taken(Init(), n, i);
  }

  /** Over every run, with any number of workers and any failures: stored numbers lie below the
      next one to be given out, a number about to be stored is free, and the stored ones have no
      gap if and only if none was lost and none is on its way. */
  lemma NumberedOnce(steps: seq<Step>, n: NodeId)
    requires Legal(Init(), steps) && n in After(Init(), steps).counts
    ensures var s := After(Init(), steps);
            && (forall i: nat :: (n, i) in s.stored ==> i < s.counts[n])
            && (forall w :: w in s.pending ==> Enabled(s, Store(w)))
            && ((forall i: nat :: i < s.counts[n] ==> (n, i) in s.stored) <==>
                (forall i: nat :: (n, i) !in s.lost && !InFlight(s, n, i)))
  {
    InitInv();
    InvAlways(Init(), steps);
    var s := After(Init(), steps);
    assert forall i: nat :: (n, i) in s.stored ==> Taken(s, n, i);
    if forall i: nat :: i < s.counts[n] ==> (n, i) in s.stored {
      forall i: nat ensures (n, i) !in s.lost && !InFlight(s, n, i) {
        assert Taken(s, n, i) <==> i < s.counts[n];
      }
    } else {
      var i: nat :| i < s.counts[n] && (n, i) !in s.stored;
      assert Taken(s, n, i);
    }
  }

  // ---- What the numbers stand for ----

  function TakesFor(n: NodeId, steps: seq<Step>): nat {
    if steps == [] then 0 else (if steps[0].Take? && steps[0].n == n then 1 else 0) + TakesFor(n, steps[1..])
  }

  /** Over every run: the conversations are those that were opened, and the number each gives out next is
      how many it has given out, whoever took them and whatever became of them. */
  lemma {:induction false} CountIsTakes(s: State, steps: seq<Step>, n: NodeId)
    requires Legal(s, steps)
    ensures var s' := After(s, steps);
            && (n in s'.counts <==> n in s.counts || Open(n) in steps)
            && (n in s'.counts ==>
                  s'.counts[n] == (if n in s.counts then s.counts[n] else 0) + TakesFor(n, steps))
    decreases |steps|
  {
    if steps != [] {
      CountIsTakes(Do(s, steps[0]), steps[1..], n);
      assert Open(n) in steps <==> steps[0] == Open(n) || Open(n) in steps[1..];
    }
  }

  /** What the run asked to store: each number that was given out, with the content it was taken for. */
  function Takes(s: State, steps: seq<Step>): seq<((NodeId, nat), Content)>
    requires Legal(s, steps)
    decreases |steps|
  {
    if steps == [] then []
    else
      (if steps[0].Take? then [((steps[0].n, s.counts[steps[0].n]), steps[0].content)] else [])
      + Takes(Do(s, steps[0]), steps[1..])
  }

  ghost predicate Waiting(s: State, n: NodeId, i: nat, content: Content) {
    exists w :: w in s.pending && s.pending[w] == Pending(n, i, content)
  }

  /** A message that is stored at the end was stored before, was on its way, or was taken for. */
  lemma {:induction false} StoredComesFrom(s: State, steps: seq<Step>, n: NodeId, i: nat)
    requires Legal(s, steps) && (n, i) in After(s, steps).stored
    ensures var content := After(s, steps).stored[(n, i)];
            || ((n, i) in s.stored && s.stored[(n, i)] == content) || Waiting(s, n, i, content)
            || ((n, i), content) in Takes(s, steps)
    decreases |steps|
  {
    if steps != [] {
      StoredComesFrom(Do(s, steps[0]), steps[1..], n, i);
      OneStepBack(s, steps[0], n, i, After(s, steps).stored[(n, i)]);
    }
  }

  lemma OneStepBack(s: State, step: Step, n: NodeId, i: nat, content: Content)
    requires Enabled(s, step)
    ensures var s' := Do(s, step);
            && ((n, i) in s'.stored && s'.stored[(n, i)] == content ==>
                  ((n, i) in s.stored && s.stored[(n, i)] == content) || Waiting(s, n, i, content))
            && (Waiting(s', n, i, content) ==>
                  || Waiting(s, n, i, content)
                  || (step.Take? && step.n == n && s.counts[n] == i && step.content == content))
  {
    var s' := Do(s, step);
    if Waiting(s', n, i, content) {
      var w :| w in s'.pending && s'.pending[w] == Pending(n, i, content);
      assert (step.Take? && step.w == w) || (w in s.pending && s.pending[w] == s'.pending[w]);
    }
    if step.Store? {
      assert s.pending[step.w] == Pending(s.pending[step.w].node, s.pending[step.w].id, s.pending[step.w].content);
    }
  }

  lemma {:induction false} NumbersGoUp(s: State, steps: seq<Step>)
    requires Legal(s, steps)
    ensures forall t :: t in Takes(s, steps) && t.0.0 in s.counts ==> t.0.1 >= s.counts[t.0.0]
    decreases |steps|
  {
    if steps != [] {
      NumbersGoUp(Do(s, steps[0]), steps[1..]);
    }
  }

  /** No number is given out twice. */
  lemma {:induction false} TakenForOnce(s: State, steps: seq<Step>)
    requires Legal(s, steps)
    ensures forall t, u :: t in Takes(s, steps) && u in Takes(s, steps) && t.0 == u.0 ==> t == u
    decreases |steps|
  {
    if steps != [] {
      NumbersGoUp(Do(s, steps[0]), steps[1..]);
      TakenForOnce(Do(s, steps[0]), steps[1..]);
    }
  }

  /** What is stored stays as it is. */
  lemma {:induction false} StoredForGood(s: State, steps: seq<Step>, n: NodeId, i: nat)
    requires Legal(s, steps) && (n, i) in s.stored
    ensures (n, i) in After(s, steps).stored && After(s, steps).stored[(n, i)] == s.stored[(n, i)]
    decreases |steps|
  {
    if steps != [] {
      StoredForGood(Do(s, steps[0]), steps[1..], n, i);
    }
  }

  /** Over every run: a stored message has the content that the one insert which got its number was
      called with, and whatever happens later it keeps it. */
  lemma ContentIsKept(steps: seq<Step>, later: seq<Step>, n: NodeId, i: nat)
    requires Legal(Init(), steps) && (n, i) in After(Init(), steps).stored && Legal(After(Init(), steps), later)
    ensures var content := After(Init(), steps).stored[(n, i)];
            && ((n, i), content) in Takes(Init(), steps)
            && (forall other :: ((n, i), other) in Takes(Init(), steps) ==> other == content)
            && (n, i) in After(After(Init(), steps), later).stored
            && After(After(Init(), steps), later).stored[(n, i)] == content
  {
    StoredComesFrom(Init(), steps, n, i);
    TakenForOnce(Init(), steps);
    StoredForGood(After(Init(), steps), later, n, i);
  }

  // ---- Paging ----

  /** The stored numbers of a conversation in lo..hi, highest first. */
  function Page(stored: map<(NodeId, nat), Content>, n: NodeId, lo: nat, hi: nat): seq<nat>
    decreases hi
  {
    if hi <= lo then []
    else (if (n, hi - 1) in stored then [hi - 1] else []) + Page(stored, n, lo, hi - 1)
  }

  predicate Descending(p: seq<nat>) { forall i, j :: 0 <= i < j < |p| ==> p[i] > p[j] }

  lemma {:induction false} PageIsExact(stored: map<(NodeId, nat), Content>, n: NodeId, lo: nat, hi: nat)
    ensures forall i :: i in Page(stored, n, lo, hi) <==> lo <= i < hi && (n, i) in stored
    ensures Descending(Page(stored, n, lo, hi))
    ensures lo <= hi ==> |Page(stored, n, lo, hi)| <= hi - lo
    decreases hi
  {
    if hi > lo {
      PageIsExact(stored, n, lo, hi - 1);
      var rest := Page(stored, n, lo, hi - 1);
      assert forall j :: 0 <= j < |rest| ==> rest[j] in rest;
    }
  }

  lemma SomeElement(q: seq<nat>)
    ensures q == [] || exists i :: i in q
  {
    if q != [] {
      assert q[0] in q;
    }
  }

  /** A descending sequence is determined by its elements: there is no other right answer. */
  lemma {:induction false} AnswerIsUnique(p: seq<nat>, q: seq<nat>)
    requires Descending(p) && Descending(q) && forall i :: i in p <==> i in q
    ensures p == q
  {
    SomeElement(q);
    if p != [] {
      assert p[0] in q && q[0] in p;
      assert p[0] == q[0];
      assert forall i :: i in p <==> i == p[0] || i in p[1..];
      assert forall i :: i in q <==> i == q[0] || i in q[1..];
      assert forall i :: i in p[1..] ==> i < p[0];
      assert forall i :: i in q[1..] ==> i < q[0];
      AnswerIsUnique(p[1..], q[1..]);
    }
  }

  lemma {:induction false} AdjacentPages(stored: map<(NodeId, nat), Content>, n: NodeId, a: nat, b: nat, c: nat)
    requires a <= b <= c
    ensures Page(stored, n, a, c) == Page(stored, n, b, c) + Page(stored, n, a, b)
    decreases c
  {
    if b < c {
      AdjacentPages(stored, n, a, b, c - 1);
    }
  }

  /** What the handler refuses. An end of 0 means "to the newest". */
  predicate Refused(from: int, to: int) {
    (to <= from && to != 0) || to - from > PAGE_LIMIT
  }

  /** The filter of queryMessage; numbers are never negative, and below the counter. */
  function Query(s: State, n: NodeId, from: int, to: int): seq<nat> {
    var lo := if from < 0 then 0 else from;
    if to == 0 then Page(s.stored, n, lo, if n in s.counts then s.counts[n] else 0)
    else if to < 0 then []
    else Page(s.stored, n, lo, to)
  }

  /** What is answered: every range of one to fifty numbers, and every open one from -50 on. */
  lemma AnswersExactly(from: int, to: int)
    ensures !Refused(from, to) <==> from < to <= from + 50 || (to == 0 && from >= -50)
  {
  }

  /** When all numbers lie below the counter, an accepted query finds exactly those of the range. */
  lemma QueryFinds(s: State, n: NodeId, from: int, to: int)
    requires !Refused(from, to)
    ensures Descending(Query(s, n, from, to)) && (to != 0 ==> |Query(s, n, from, to)| <= PAGE_LIMIT)
    ensures (forall i: nat :: (n, i) in s.stored ==> n in s.counts && i < s.counts[n]) ==>
              forall i: nat ::
                i in Query(s, n, from, to) <==> from <= i && (to == 0 || i < to) && (n, i) in s.stored
  {
    var lo := if from < 0 then 0 else from;
    var hi := if to != 0 then to else if n in s.counts then s.counts[n] else 0;
    if hi >= 0 {
      PageIsExact(s.stored, n, lo, hi);
    }
  }

  /** In every reachable state an accepted query with an end answers with exactly the stored numbers
      in [from, to), strictly descending and at most 50; without an end, with all from that start. */
  lemma QueryIsExact(steps: seq<Step>, n: NodeId, from: int, to: int)
    requires Legal(Init(), steps) && !Refused(from, to)
    ensures var s := After(Init(), steps);
            var r := Query(s, n, from, to);
            && (forall i: nat :: i in r <==> from <= i && (to == 0 || i < to) && (n, i) in s.stored)
            && Descending(r)
            && (to != 0 ==> |r| <= 50)
  {
    InitInv();
    InvAlways(Init(), steps);
    var s := After(Init(), steps);
    forall i: nat | (n, i) in s.stored ensures n in s.counts && i < s.counts[n] {
      assert Taken(s, n, i);
    }
    QueryFinds(s, n, from, to);
  }

  /** A message that was just inserted is what a query for its number answers with. */
  lemma InsertedIsRead(steps: seq<Step>, w: WorkerId, n: NodeId, content: Content)
    requires Legal(Init(), steps) && Enabled(After(Init(), steps), Take(w, n, content))
    ensures var s := After(Init(), steps);
            var i := s.counts[n];
            var taken := Do(s, Take(w, n, content));
            && Enabled(taken, Store(w))
            && Query(Do(taken, Store(w)), n, i, i + 1) == [i]
            && Do(taken, Store(w)).stored == s.stored[(n, i) := content]
  {
    InitInv();
    InvAlways(Init(), steps);
    var s := After(Init(), steps);
    var i := s.counts[n];
    assert !Taken(s, n, i);
    var stored := Do(Do(s, Take(w, n, content)), Store(w)).stored;
    assert Page(stored, n, i, i) == [];
  }

  /** Without an end there is no limit: a conversation without gaps comes back whole. */
  lemma {:induction false} OpenEndHasNoLimit(stored: map<(NodeId, nat), Content>, n: NodeId, count: nat)
    requires forall i: nat :: i < count ==> (n, i) in stored
    ensures |Page(stored, n, 0, count)| == count && !Refused(0, 0)
  {
    if count > 0 {
      OpenEndHasNoLimit(stored, n, count - 1);
    }
  }

  /** Reading back from hi in steps of 50. */
  function Walk(s: State, n: NodeId, hi: nat): seq<nat>
    decreases hi
  {
    if hi == 0 then []
    else
      var lo := if hi < PAGE_LIMIT then 0 else hi - PAGE_LIMIT;
      Query(s, n, lo, hi) + Walk(s, n, lo)
  }

  /** No page of such a walk is refused, and together they are everything below hi, once. */
  lemma {:induction false} WalkReadsEverything(s: State, n: NodeId, hi: nat)
    ensures Walk(s, n, hi) == Page(s.stored, n, 0, hi)
    ensures hi > 0 ==> !Refused(if hi < PAGE_LIMIT then 0 else hi - PAGE_LIMIT, hi)
    decreases hi
  {
    if hi > 0 {
      var lo := if hi < PAGE_LIMIT then 0 else hi - PAGE_LIMIT;
      WalkReadsEverything(s, n, lo);
      AdjacentPages(s.stored, n, 0, lo, hi);
    }
  }

  // ---- The same, in place ----

  datatype Result<T> = Ok(value: T) | Err(code: nat)

  /** updateReadedIncrement: $set under a $lt filter. */
  function Marked(readed: map<(UserId, NodeId), int>, k: (UserId, NodeId), increment: int): map<(UserId, NodeId), int> {
    if k in readed && readed[k] < increment then readed[k := increment] else readed
  }

  /** A mark that is there becomes the larger of itself and the increment; nothing else changes. */
  lemma MarkMovesTo(readed: map<(UserId, NodeId), int>, k: (UserId, NodeId), increment: int)
    ensures Marked(readed, k, increment).Keys == readed.Keys
    ensures k in readed ==> Marked(readed, k, increment)[k] == if readed[k] < increment then increment else readed[k]
    ensures forall x :: x in readed && x != k ==> Marked(readed, k, increment)[x] == readed[x]
  {
    assert Marked(readed, k, increment).Keys == readed.Keys;
  }

  /** Marks only move forward, whatever the order in which queries arrive. */
  lemma MarksCommute(readed: map<(UserId, NodeId), int>, k: (UserId, NodeId), i: int, l: (UserId, NodeId), j: int)
    ensures Marked(Marked(readed, k, i), l, j) == Marked(Marked(readed, l, j), k, i)
    ensures forall x :: x in readed ==> x in Marked(readed, k, i) && Marked(readed, k, i)[x] >= readed[x]
  {
    var one, other := Marked(Marked(readed, k, i), l, j), Marked(Marked(readed, l, j), k, i);
    assert one.Keys == other.Keys == readed.Keys;
    assert forall x :: x in one ==> one[x] == other[x];
  }

  class Mongo {
    var counts: map<NodeId, nat>
    var stored: map<(NodeId, nat), Content>
    var readed: map<(UserId, NodeId), int>

    ghost function View(): State
      reads this
    {
      State(counts, stored, map[], {})
    }

    /** insertMessage: the counter first, then the message; ok says whether that insert goes
        through. Both errors come out as the same code. */
    method InsertMessage(n: NodeId, content: Content, ok: bool) returns (r: Result<nat>)
      modifies this
      ensures n !in old(counts) ==> r == Err(INSERT_FAILURE) && View() == old(View())
      ensures n in old(counts) ==>
                var taken := Do(old(View()), Take(0, n, content));
                if ok && Enabled(taken, Store(0)) then
                  r == Ok(old(counts)[n]) && View() == Do(taken, Store(0))
                else
                  r == Err(INSERT_FAILURE) && View() == Do(taken, Fail(0)).(lost := {})
      ensures r.Ok? ==> n in old(counts) && r.value == old(counts)[n] && stored == old(stored)[(n, r.value) := content]
      ensures r.Ok? <==> n in old(counts) && (n, old(counts)[n]) !in old(stored) && ok
      ensures r.Err? ==> r.code == 40051 && stored == old(stored)
      ensures counts == if n in old(counts) then old(counts)[n := old(counts)[n] + 1] else old(counts)
      ensures readed == old(readed)
    {
      if n !in counts {
        return Err(INSERT_FAILURE);
      }
      var incrementid := counts[n];
      counts := counts[n := counts[n] + 1];
      if !ok || (n, incrementid) in stored {
        return Err(INSERT_FAILURE);
      }
      stored := stored[(n, incrementid) := content];
      r := Ok(incrementid);
    }

    method UpdateReadedIncrement(user: UserId, n: NodeId, increment: int)
      modifies this`readed
      ensures readed == Marked(old(readed), (user, n), increment)
      ensures (user, n) in old(readed) ==>
                readed == old(readed)[(user, n) := if old(readed)[(user, n)] < increment then increment
                                                   else old(readed)[(user, n)]]
      ensures (user, n) !in old(readed) ==> readed == old(readed)
    {
      if (user, n) in readed && readed[(user, n)] < increment {
        readed := readed[(user, n) := increment];
      }
    }

    method QueryMessage(user: UserId, n: NodeId, from: int, to: int) returns (r: Result<seq<(nat, Content)>>)
      modifies this`readed
      ensures r.Ok? <==> from < to <= from + 50 || (to == 0 && from >= -50)
      ensures r.Err? ==> r.code == 11008 && readed == old(readed)
      ensures r.Ok? ==> Contents(stored, n, Query(View(), n, from, to), r.value)
      ensures r.Ok? ==> Answers(View(), n, from, to, r.value)
      ensures r.Ok? ==> readed == Marked(old(readed), (user, n), to - 1)
    {
      if (to <= from && to != 0) || to - from > PAGE_LIMIT {
        return Err(QUERY_INVALID);
      }
      UpdateReadedIncrement(user, n, to - 1);
      ghost var view := View();
      var cursor := Query(State(counts, stored, map[], {}), n, from, to);
      OnlyStored(view, n, from, to);
      var res := Gather(n, cursor);
      AnswerIs(view, n, from, to, res);
      r := Ok(res);
    }

    /** The loop over the cursor. */
    method Gather(n: NodeId, cursor: seq<nat>) returns (res: seq<(nat, Content)>)
      requires forall i :: i in cursor ==> (n, i) in stored
      ensures Contents(stored, n, cursor, res)
    {
      res := [];
      for i := 0 to |cursor|
        invariant |res| == i
        invariant forall j :: 0 <= j < i ==> (n, cursor[j]) in stored && res[j] == (cursor[j], stored[(n, cursor[j])])
      {
        assert cursor[i] in cursor;
        res := res + [(cursor[i], stored[(n, cursor[i])])];
      }
    }
  }

  /** The numbers with the contents stored under them. */
  ghost predicate Contents(stored: map<(NodeId, nat), Content>, n: NodeId, page: seq<nat>, res: seq<(nat, Content)>) {
    && |res| == |page|
    && forall i :: 0 <= i < |page| ==> (n, page[i]) in stored && res[i] == (page[i], stored[(n, page[i])])
  }

  /** Exactly the stored messages of the range, the newest first. */
  ghost predicate Answers(s: State, n: NodeId, from: int, to: int, res: seq<(nat, Content)>) {
    && (forall j, k :: 0 <= j < k < |res| ==> res[j].0 > res[k].0)
    && ((forall i: nat :: (n, i) in s.stored ==> n in s.counts && i < s.counts[n]) ==>
          forall i: nat, c ::
            (i, c) in res <==> from <= i && (to == 0 || i < to) && (n, i) in s.stored && s.stored[(n, i)] == c)
  }

  lemma AnswerIs(s: State, n: NodeId, from: int, to: int, res: seq<(nat, Content)>)
    requires !Refused(from, to) && Contents(s.stored, n, Query(s, n, from, to), res)
    ensures Answers(s, n, from, to, res)
  {
    var page := Query(s, n, from, to);
    QueryFinds(s, n, from, to);
    forall i: nat, c ensures (i, c) in res <==> i in page && (n, i) in s.stored && s.stored[(n, i)] == c {
      if i in page && (n, i) in s.stored && s.stored[(n, i)] == c {
        var j :| 0 <= j < |page| && page[j] == i;
        assert res[j] == (i, c);
      }
    }
  }

  lemma OnlyStored(s: State, n: NodeId, from: int, to: int)
    ensures forall i :: i in Query(s, n, from, to) ==> (n, i) in s.stored
  {
    var lo := if from < 0 then 0 else from;
    PageIsExact(s.stored, n, lo, if to > 0 then to else 0);
    PageIsExact(s.stored, n, lo, if n in s.counts then s.counts[n] else 0);
  }
}
