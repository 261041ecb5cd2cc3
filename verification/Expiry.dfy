/** What the ping list means: connections in the order in which they were last written to, and a
    timer that drops the ones written to too long ago. */
module Expiry {
  import opened Options

  /** Seconds, as PINGPONGTIMEOUT and PINGPONGTIME. */
  const TIMEOUT := 120
  const PERIOD := 120

  type uint64 = n: int | 0 <= n < 0x1_0000_0000_0000_0000

  /** A connection with its ping_time. */
  type Entry<N> = (N, uint64)

  /** The unsigned difference the callback computes. */
  function Age(now: uint64, t: uint64): uint64 { (now - t) % 0x1_0000_0000_0000_0000 }

  predicate Expired(now: uint64, t: uint64) { Age(now, t) > TIMEOUT }

  function Append<N>(l: seq<Entry<N>>, n: N, now: uint64): seq<Entry<N>> { l + [(n, now)] }

  function Without<N(==)>(l: seq<Entry<N>>, n: N): seq<Entry<N>> {
    if l == [] then [] else (if l[0].0 == n then [] else [l[0]]) + Without(l[1..], n)
  }

  ghost predicate Listed<N>(l: seq<Entry<N>>, n: N) { exists e :: e in l && e.0 == n }

  /** How many entries the loop removes before it meets a fresh one. */
  function Stale<N>(l: seq<Entry<N>>, now: uint64): (k: nat)
    ensures k <= |l|
    ensures forall i :: 0 <= i < k ==> Expired(now, l[i].1)
    ensures k < |l| ==> !Expired(now, l[k].1)
  {
    if l == [] || !Expired(now, l[0].1) then 0 else 1 + Stale(l[1..], now)
  }

  function Scan<N>(l: seq<Entry<N>>, now: uint64): seq<Entry<N>> { l[Stale(l, now)..] }

  function Fresh<N>(l: seq<Entry<N>>, now: uint64): seq<Entry<N>> {
    if l == [] then [] else (if Expired(now, l[0].1) then [] else [l[0]]) + Fresh(l[1..], now)
  }

  predicate Sorted<N>(l: seq<Entry<N>>) { forall i, j :: 0 <= i < j < |l| ==> l[i].1 <= l[j].1 }

  predicate Distinct<N(==)>(l: seq<Entry<N>>) { forall i, j :: 0 <= i < j < |l| ==> l[i].0 != l[j].0 }

  // ---- The scan and the filter ----

  lemma {:induction false} AllFresh<N(!new)>(l: seq<Entry<N>>, now: uint64)
    ensures Fresh(l, now) == l <==> forall e :: e in l ==> !Expired(now, e.1)
    ensures |Fresh(l, now)| <= |l|
  {
    if l != [] {
      AllFresh(l[1..], now);
      assert forall e :: e in l <==> e == l[0] || e in l[1..];
    }
  }

  lemma {:induction false} FreshDropsPrefix<N(!new)>(l: seq<Entry<N>>, now: uint64, k: nat)
    requires k <= |l| && forall i :: 0 <= i < k ==> Expired(now, l[i].1)
    ensures Fresh(l, now) == Fresh(l[k..], now)
  {
    if k > 0 {
      FreshDropsPrefix(l[1..], now, k - 1);
      assert l[1..][k - 1..] == l[k..];
    } else {
      assert l[0..] == l;
    }
  }

  /** The loop that stops at the first fresh entry removes exactly the expired ones if and only if
      no expired entry stands behind a fresh one. */
  lemma ScanIsFilter<N(!new)>(l: seq<Entry<N>>, now: uint64)
    ensures Scan(l, now) == Fresh(l, now) <==>
            forall i, j :: 0 <= i < j < |l| && Expired(now, l[j].1) ==> Expired(now, l[i].1)
  {
    var k := Stale(l, now);
    FreshDropsPrefix(l, now, k);
    AllFresh(l[k..], now);
    if Scan(l, now) == Fresh(l, now) {
      forall i, j | 0 <= i < j < |l| && Expired(now, l[j].1) ensures Expired(now, l[i].1) {
      }
    } else {
      var e :| e in l[k..] && Expired(now, e.1);
      var j :| k <= j < |l| && l[j] == e;
      assert k < j;
    }
  }

  lemma {:induction false} FreshElements<N(!new)>(l: seq<Entry<N>>, now: uint64)
    ensures forall e :: e in Fresh(l, now) <==> e in l && !Expired(now, e.1)
  {
    if l != [] {
      FreshElements(l[1..], now);
      assert forall e :: e in l <==> e == l[0] || e in l[1..];
    }
  }

  /** A sorted list read with a clock that is not behind it is such a list. */
  lemma SortedScan<N(!new)>(l: seq<Entry<N>>, now: uint64)
    requires Sorted(l) && forall e :: e in l ==> e.1 <= now
    ensures Scan(l, now) == Fresh(l, now)
    ensures forall e :: e in Scan(l, now) <==> e in l && now - e.1 <= 120
  {
    assert forall e :: e in l ==> Age(now, e.1) == now - e.1;
    assert forall i :: 0 <= i < |l| ==> l[i] in l;
    ScanIsFilter(l, now);
    FreshElements(l, now);
  }

  /** Written to more than 120 s ago. */
  predicate Late(now: uint64, t: uint64) { now - t > 120 }

  /** The time lies ahead of the clock, by less than would bring the difference round again. */
  predicate Wraps(now: uint64, t: uint64) { now < t && t - now < 0x1_0000_0000_0000_0000 - 120 }

  /** The unsigned comparison says what it is meant to say if and only if the difference does not wrap. */
  lemma ExpiredIsLate(now: uint64, t: uint64)
    ensures (Expired(now, t) <==> Late(now, t)) <==> !Wraps(now, t)
    ensures Late(now, t) || Wraps(now, t) <==> Expired(now, t)
  {
  }

  /** What the callback is meant to leave. */
  function Recent<N>(l: seq<Entry<N>>, now: uint64): seq<Entry<N>> {
    if l == [] then [] else (if Late(now, l[0].1) then [] else [l[0]]) + Recent(l[1..], now)
  }

  lemma {:induction false} RecentElements<N(!new)>(l: seq<Entry<N>>, now: uint64)
    ensures forall e :: e in Recent(l, now) ==> e in l && !Late(now, e.1)
    ensures Recent(l, now) == l <==> forall e :: e in l ==> !Late(now, e.1)
    ensures |Recent(l, now)| <= |l|
  {
    if l != [] {
      RecentElements(l[1..], now);
      assert forall e :: e in l <==> e == l[0] || e in l[1..];
    }
  }

  lemma {:induction false} RecentDropsPrefix<N(!new)>(l: seq<Entry<N>>, now: uint64, k: nat)
    requires k <= |l| && forall i :: 0 <= i < k ==> Late(now, l[i].1)
    ensures Recent(l, now) == Recent(l[k..], now)
  {
    if k > 0 {
      RecentDropsPrefix(l[1..], now, k - 1);
      assert l[1..][k - 1..] == l[k..];
    } else {
      assert l[0..] == l;
    }
  }

  /** How many entries in front are late. */
  function LateInFront<N>(l: seq<Entry<N>>, now: uint64): (k: nat)
    ensures k <= |l|
    ensures forall i :: 0 <= i < k ==> Late(now, l[i].1)
    ensures k < |l| ==> !Late(now, l[k].1)
  {
    if l == [] || !Late(now, l[0].1) then 0 else 1 + LateInFront(l[1..], now)
  }

  /** For any list and any clock: exactly when the callback leaves precisely the entries that were
      written to within the last 120 s. No late entry may stand behind one that is not, and the first
      that is not late must not lie so far ahead of the clock that the difference wraps. */
  lemma ScanIsRecent<N(!new)>(l: seq<Entry<N>>, now: uint64)
    ensures var k := LateInFront(l, now);
            Scan(l, now) == Recent(l, now) <==>
              (forall i :: k <= i < |l| ==> !Late(now, l[i].1)) && (k < |l| ==> !Wraps(now, l[k].1))
  {
    var k, j := LateInFront(l, now), Stale(l, now);
    RecentDropsPrefix(l, now, k);
    RecentElements(l[k..], now);
    assert k <= j by {
      if j < k {
        ExpiredIsLate(now, l[j].1);
      }
    }
    assert forall i :: k <= i < |l| ==> l[i] in l[k..];
    if k < |l| {
      ExpiredIsLate(now, l[k].1);
    }
    if k == j {
      assert forall e :: e in l[k..] ==> exists i :: k <= i < |l| && l[i] == e;
    } else {
      WrappedInFront(l, now, k, j);
    }
  }

  lemma {:induction false} RecentKeepsSuffix<N(!new)>(l: seq<Entry<N>>, now: uint64, j: nat)
    requires j <= |l| && forall i :: j <= i < |l| ==> !Late(now, l[i].1)
    ensures |Recent(l, now)| >= |l| - j
  {
    if j > 0 {
      RecentKeepsSuffix(l[1..], now, j - 1);
    } else {
      RecentElements(l, now);
      assert Recent(l, now) == l;
    }
  }

  lemma {:induction false} RecentKeepsOneMore<N(!new)>(l: seq<Entry<N>>, now: uint64, k: nat, j: nat)
    requires k < j <= |l| && !Late(now, l[k].1) && forall i :: j <= i < |l| ==> !Late(now, l[i].1)
    ensures |Recent(l, now)| > |l| - j
  {
    if k > 0 {
      RecentKeepsOneMore(l[1..], now, k - 1, j - 1);
    } else {
      RecentKeepsSuffix(l[1..], now, j - 1);
    }
  }

  /** If the scan runs past the late entries in front, it drops one that it should keep. */
  lemma WrappedInFront<N(!new)>(l: seq<Entry<N>>, now: uint64, k: nat, j: nat)
    requires k < j <= |l| && j == Stale(l, now) && k == LateInFront(l, now)
    ensures Wraps(now, l[k].1) && Scan(l, now) != Recent(l, now)
  {
    ExpiredIsLate(now, l[k].1);
    RecentElements(l, now);
    if i :| j <= i < |l| && Late(now, l[i].1) {
      assert l[j..][i - j] == l[i] && l[i] in Scan(l, now);
    } else {
      RecentKeepsOneMore(l, now, k, j);
    }
  }

  /** A list whose every time lies a little ahead of the clock, as after the clock was set back, is
      dropped altogether, though nothing in it is late. */
  lemma {:induction false} BackwardsClockDropsAll<N(!new)>(l: seq<Entry<N>>, now: uint64)
    requires forall i :: 0 <= i < |l| ==> Wraps(now, l[i].1)
    ensures Scan(l, now) == [] && Recent(l, now) == l
  {
    if l != [] {
      ExpiredIsLate(now, l[0].1);
      BackwardsClockDropsAll(l[1..], now);
      assert l[1..][|l| - 1..] == [];
    }
  }

  // ---- Membership and order under the operations ----

  lemma {:induction false} WithoutElements<N(!new)>(l: seq<Entry<N>>, n: N)
    ensures forall e :: e in Without(l, n) <==> e in l && e.0 != n
  {
    if l != [] {
      WithoutElements(l[1..], n);
      assert forall e :: e in l <==> e == l[0] || e in l[1..];
    }
  }

  lemma {:induction false} WithoutSorted<N(!new)>(l: seq<Entry<N>>, n: N)
    requires Sorted(l)
    ensures Sorted(Without(l, n))
  {
    if l != [] {
      WithoutSorted(l[1..], n);
      WithoutElements(l[1..], n);
      assert forall e :: e in l[1..] ==> l[0].1 <= e.1;
    }
  }

  lemma {:induction false} WithoutDistinct<N(!new)>(l: seq<Entry<N>>, n: N)
    requires Distinct(l)
    ensures Distinct(Without(l, n))
  {
    if l != [] {
      WithoutDistinct(l[1..], n);
      WithoutElements(l[1..], n);
      assert forall e :: e in l[1..] ==> l[0].0 != e.0;
    }
  }

  lemma {:induction false} WithoutAbsent<N>(l: seq<Entry<N>>, n: N)
    requires !Listed(l, n)
    ensures Without(l, n) == l
  {
    if l != [] {
      assert l[0] in l;
      WithoutAbsent(l[1..], n);
    }
  }

  lemma {:induction false} WithoutAt<N>(l: seq<Entry<N>>, i: nat)
    requires i < |l| && Distinct(l)
    ensures Without(l, l[i].0) == l[..i] + l[i + 1..]
  {
    if i == 0 {
      assert forall e :: e in l[1..] ==> e.0 != l[0].0;
      WithoutAbsent(l[1..], l[0].0);
    } else {
      WithoutAt(l[1..], i - 1);
      assert l[..i] + l[i + 1..] == [l[0]] + (l[1..][..i - 1] + l[1..][i..]);
    }
  }

  // ---- Runs ----

  datatype Step<N> =
    | Accept(n: N, now: uint64)      // ping_append
    | Written(n: N, now: uint64)     // ping_move2back
    | Erase(n: N, now: uint64)       // ping_erase
    | Tick(now: uint64)              // pingtime_callback

  datatype State<N> = State(list: seq<Entry<N>>, clock: uint64, ticked: uint64)

  /** The clock does not go back, and no more than a period passes without a tick. */
  ghost predicate Enabled<N(!new)>(s: State<N>, step: Step<N>) {
    && s.clock <= step.now <= s.ticked + PERIOD
    && (step.Accept? ==> !Listed(s.list, step.n))
  }

  ghost function Do<N(!new)>(s: State<N>, step: Step<N>): State<N> {
    match step
    case Accept(n, now) => State(Append(s.list, n, now), now, s.ticked)
    case Written(n, now) =>
      State(if Listed(s.list, n) then Append(Without(s.list, n), n, now) else s.list, now, s.ticked)
    case Erase(n, now) => State(Without(s.list, n), now, s.ticked)
    case Tick(now) => State(Scan(s.list, now), now, now)
  }

  ghost predicate Legal<N(!new)>(s: State<N>, steps: seq<Step<N>>)
    decreases |steps|
  {
    steps == [] || (Enabled(s, steps[0]) && Legal(Do(s, steps[0]), steps[1..]))
  }

  ghost function After<N(!new)>(s: State<N>, steps: seq<Step<N>>): State<N>
    decreases |steps|
  {
    if steps == [] then s else After(Do(s, steps[0]), steps[1..])
  }

  ghost predicate Inv<N(!new)>(s: State<N>) {
    && Sorted(s.list) && Distinct(s.list)
    && (forall e :: e in s.list ==> s.ticked - TIMEOUT <= e.1 <= s.clock)
    && s.ticked <= s.clock <= s.ticked + PERIOD
  }

  lemma ScanKeepsShape<N(!new)>(l: seq<Entry<N>>, now: uint64)
    ensures Sorted(l) ==> Sorted(Scan(l, now))
    ensures Distinct(l) ==> Distinct(Scan(l, now))
  {
  }

  lemma TickKeeps<N(!new)>(s: State<N>, now: uint64)
    requires Inv(s) && Enabled(s, Tick(now))
    ensures Inv(Do(s, Tick(now)))
  {
    SortedScan(s.list, now);
    ScanKeepsShape(s.list, now);
  }

  lemma WithoutKeeps<N(!new)>(s: State<N>, n: N)
    requires Inv(s)
    ensures Inv(s.(list := Without(s.list, n))) && !Listed(Without(s.list, n), n)
  {
    WithoutElements(s.list, n);
    WithoutSorted(s.list, n);
    WithoutDistinct(s.list, n);
  }

  lemma AppendKeeps<N(!new)>(s: State<N>, n: N, now: uint64)
    requires Inv(s) && !Listed(s.list, n) && s.clock <= now <= s.ticked + PERIOD
    ensures Inv(State(Append(s.list, n, now), now, s.ticked))
  {
    assert forall i :: 0 <= i < |s.list| ==> s.list[i] in s.list;
  }

  lemma InvKept<N(!new)>(s: State<N>, step: Step<N>)
    requires Inv(s) && Enabled(s, step)
    ensures Inv(Do(s, step))
  {
    match step {
      case Accept(n, now) => AppendKeeps(s, n, now);
      case Tick(now) => TickKeeps(s, now);
      case Written(n, now) =>
        if Listed(s.list, n) {
          WithoutKeeps(s, n);
          AppendKeeps(s.(list := Without(s.list, n)), n, now);
        }
      case Erase(n, _) => WithoutKeeps(s, n);
    }
  }

  lemma {:induction false} InvAlways<N(!new)>(s: State<N>, steps: seq<Step<N>>)
    requires Inv(s) && Legal(s, steps)
    ensures Inv(After(s, steps))
    decreases |steps|
  {
    if steps != [] {
      InvKept(s, steps[0]);
      InvAlways(Do(s, steps[0]), steps[1..]);
    }
  }

  /** The node was listed with time t and is left alone or written to again before 120 s are over
      at each tick. */
  ghost predicate KeptAlive<N(!new)>(steps: seq<Step<N>>, n: N, t: uint64)
    decreases |steps|
  {
    steps == [] ||
    match steps[0]
    case Written(m, now) => KeptAlive(steps[1..], n, if m == n then now else t)
    case Erase(m, _) => m != n && KeptAlive(steps[1..], n, t)
    case Tick(now) => now - t <= 120 && KeptAlive(steps[1..], n, t)
    case Accept(_, _) => KeptAlive(steps[1..], n, t)
  }

  /** A connection that at no tick has gone unwritten for more than 120 s stays listed. */
  lemma {:induction false} NeverExpiredWhileWritten<N(!new)>(s: State<N>, steps: seq<Step<N>>, n: N, t: uint64)
    requires Inv(s) && Legal(s, steps) && (n, t) in s.list && KeptAlive(steps, n, t)
    ensures Listed(After(s, steps).list, n)
    decreases |steps|
  {
    if steps != [] {
      var s' := Do(s, steps[0]);
      InvKept(s, steps[0]);
      match steps[0] {
        case Written(m, now) =>
          WithoutElements(s.list, m);
          NeverExpiredWhileWritten(s', steps[1..], n, if m == n then now else t);
        case Erase(m, _) =>
          WithoutElements(s.list, m);
          NeverExpiredWhileWritten(s', steps[1..], n, t);
        case Tick(now) =>
          SortedScan(s.list, now);
          NeverExpiredWhileWritten(s', steps[1..], n, t);
        case Accept(_, _) => NeverExpiredWhileWritten(s', steps[1..], n, t);
      }
    } else {
      assert (n, t) in s.list;
    }
  }

  ghost predicate Untouched<N(!new)>(steps: seq<Step<N>>, n: N) {
    forall step :: step in steps ==> (step.Accept? || step.Written?) ==> step.n != n
  }

  /** While nothing is written to it, a listed connection keeps its time. */
  lemma {:induction false} UntouchedKeepsTime<N(!new)>(s: State<N>, steps: seq<Step<N>>, n: N, t: uint64)
    requires Inv(s) && Legal(s, steps) && Untouched(steps, n)
    requires forall e :: e in s.list && e.0 == n ==> e.1 == t
    ensures forall e :: e in After(s, steps).list && e.0 == n ==> e.1 == t
    decreases |steps|
  {
    if steps != [] {
      InvKept(s, steps[0]);
      assert steps[0] in steps;
      match steps[0] {
        case Written(m, _) => WithoutElements(s.list, m);
        case Erase(m, _) => WithoutElements(s.list, m);
        case _ =>
      }
      UntouchedKeepsTime(Do(s, steps[0]), steps[1..], n, t);
    }
  }

  /** A connection not written to since t is gone after the first tick past t + 120, which comes at
      t + 240 at the latest. */
  lemma GoneAfterTwoPeriods<N(!new)>(s: State<N>, steps: seq<Step<N>>, n: N, t: uint64)
    requires Inv(s) && Legal(s, steps) && Untouched(steps, n)
    requires forall e :: e in s.list && e.0 == n ==> e.1 == t
    ensures var s' := After(s, steps);
            s'.ticked > t + 120 || s'.clock > t + 240 ==> !Listed(s'.list, n)
  {
    InvAlways(s, steps);
    UntouchedKeepsTime(s, steps, n, t);
  }

  /** The time a connection is listed with after one step, from the time before. */
  function Remember<N(==)>(before: Option<uint64>, step: Step<N>, n: N): Option<uint64> {
    match step
    case Accept(m, now) => if m == n then Some(now) else before
    case Written(m, now) => if m == n && before.Some? then Some(now) else before
    case Erase(m, _) => if m == n then None else before
    case Tick(now) => if before.Some? && now - before.value > 120 then None else before
  }

  function Remembered<N(==)>(before: Option<uint64>, steps: seq<Step<N>>, n: N): Option<uint64>
    decreases |steps|
  {
    if steps == [] then before else Remembered(Remember(before, steps[0], n), steps[1..], n)
  }

  ghost predicate ListedWith<N(!new)>(l: seq<Entry<N>>, n: N, time: Option<uint64>) {
    forall t: uint64 :: (n, t) in l <==> time == Some(t)
  }

  /** In every run exactly the connections are listed that were accepted, not erased since, and at no tick
      found unwritten for more than 120 s, each with the time of its last write. */
  lemma {:induction false} ListedExactly<N(!new)>(s: State<N>, steps: seq<Step<N>>, n: N, before: Option<uint64>)
    requires Inv(s) && Legal(s, steps) && ListedWith(s.list, n, before)
    ensures ListedWith(After(s, steps).list, n, Remembered(before, steps, n))
    decreases |steps|
  {
    if steps != [] {
      InvKept(s, steps[0]);
      RememberedStep(s, steps[0], n, before);
      ListedExactly(Do(s, steps[0]), steps[1..], n, Remember(before, steps[0], n));
    }
  }

  lemma RememberedStep<N(!new)>(s: State<N>, step: Step<N>, n: N, before: Option<uint64>)
    requires Inv(s) && Enabled(s, step) && ListedWith(s.list, n, before)
    ensures ListedWith(Do(s, step).list, n, Remember(before, step, n))
  {
    match step {
      case Written(m, _) => WithoutElements(s.list, m);
      case Erase(m, _) => WithoutElements(s.list, m);
      case Tick(now) => SortedScan(s.list, now);
      case Accept(_, _) =>
    }
  }
}
