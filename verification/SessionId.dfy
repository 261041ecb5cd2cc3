/** The session counter of a connection: which id the read callback expects next. */
module SessionId {
  import opened VarLength
  import opened Frames

  const PERIOD: int := MAX_SESSION_ID - MIN_SESSION_ID + 1

  type uint16 = n: int | 0 <= n < UINT16

  /** The id a checked message must carry when the counter is at sid. */
  function Issued(sid: uint16): uint16 { if sid == MAX_SESSION_ID then MIN_SESSION_ID else sid }

  /** The counter afterwards, a 16-bit number. */
  function Next(sid: uint16): uint16 {
    if sid == MAX_SESSION_ID then MIN_SESSION_ID else (sid + 1) % UINT16
  }

  /** The types whose messages are numbered. */
  const CHECKED: set<int> := {8, 10, 12, 14, 16, 20, 23, 26, 28, 30, 33, 35, 36, 38, 48}

  predicate Checked(datatype_: byte) { datatype_ in CHECKED }

  function StateAfter(start: uint16, k: nat): uint16 {
    if k == 0 then start else Next(StateAfter(start, k - 1))
  }

  function IssuedAt(start: uint16, k: nat): uint16 { Issued(StateAfter(start, k)) }

  lemma Around(x: nat, d: nat)
    requires d <= PERIOD
    ensures (x + d) % PERIOD == if x % PERIOD + d < PERIOD then x % PERIOD + d else x % PERIOD + d - PERIOD
  {
    var q := x / PERIOD;
    assert x + d == q * PERIOD + (x % PERIOD + d);
  }

  lemma {:induction false} CounterState(start: uint16, k: nat)
    requires 100 <= start <= 32767
    ensures StateAfter(start, k) == 100 + (start - 100 + k) % 32668
  {
    if k > 0 {
      CounterState(start, k - 1);
      NextAround(start - MIN_SESSION_ID + (k - 1), StateAfter(start, k - 1));
    } else {
      Around(0, start - MIN_SESSION_ID);
    }
  }

  lemma NextAround(x: nat, sid: uint16)
    requires sid == MIN_SESSION_ID + x % PERIOD
    ensures Next(sid) == MIN_SESSION_ID + (x + 1) % PERIOD
  {
    Around(x, 1);
  }

  /** Issued ids never touch the bit that flags the last frame: they survive stamping. */
  lemma IssuedSurvivesStamping(start: uint16, k: nat, last: bool)
    requires MIN_SESSION_ID <= start <= MAX_SESSION_ID
    ensures 100 <= IssuedAt(start, k) <= 32766
    ensures Unstamp(Stamp(IssuedAt(start, k), last)) == (IssuedAt(start, k), last)
  {
    CounterState(start, k);
    StampRoundTrip(IssuedAt(start, k), last);
  }

  /** Two messages less than a period apart share an id exactly when one was issued at the wrap and
      the other right after it or almost a period before it: both of these get 100. */
  lemma SharedIds(start: uint16, i: nat, d: nat)
    requires 100 <= start <= 32767 && 0 < d < 32668
    ensures IssuedAt(start, i) == IssuedAt(start, i + d) <==>
            || (d == 1 && StateAfter(start, i) == 32767)
            || (d == 32667 && StateAfter(start, i) == 100)
    ensures IssuedAt(start, i + 32668) == IssuedAt(start, i)
  {
    CounterState(start, i);
    CounterState(start, i + d);
    CounterState(start, i + PERIOD);
    Around(start - MIN_SESSION_ID + i, d);
    Around(start - MIN_SESSION_ID + i, PERIOD);
  }

  /** Ids can meet again one step before the period is over. */
  lemma SharedBeforeThePeriod()
    ensures PERIOD == 32668 && IssuedAt(100, 0) == IssuedAt(100, 32667) == 100
  {
    SharedIds(100, 0, 32667);
  }

  lemma {:induction false} CountsUp(start: uint16, k: nat)
    requires start + k < UINT16 && (start > MAX_SESSION_ID || start + k <= MAX_SESSION_ID)
    ensures StateAfter(start, k) == start + k
  {
    if k > 0 {
      CountsUp(start, k - 1);
    }
  }

  lemma {:induction false} StateAfterSum(start: uint16, j: nat, k: nat)
    ensures StateAfter(start, j + k) == StateAfter(StateAfter(start, j), k)
  {
    if k > 0 {
      StateAfterSum(start, j, k - 1);
    }
  }

  lemma WrapsToZero(start: uint16)
    requires start > MAX_SESSION_ID
    ensures StateAfter(start, UINT16 - start) == 0
  {
    CountsUp(start, UINT16 - start - 1);
  }

  lemma ReachesRange(start: uint16) returns (j: nat)
    ensures j <= 32768 + MIN_SESSION_ID && MIN_SESSION_ID <= StateAfter(start, j) <= MAX_SESSION_ID
  {
    if start > MAX_SESSION_ID {
      WrapsToZero(start);
      CountsUp(0, MIN_SESSION_ID);
      StateAfterSum(start, UINT16 - start, MIN_SESSION_ID);
      j := UINT16 - start + MIN_SESSION_ID;
    } else if start < MIN_SESSION_ID {
      CountsUp(start, MIN_SESSION_ID - start);
      j := MIN_SESSION_ID - start;
    } else {
      j := 0;
    }
  }

  /** Whatever value the counter was left with, checked messages bring it into range for good. */
  lemma Settles(start: uint16, k: nat)
    requires k >= 32768 + MIN_SESSION_ID
    ensures MIN_SESSION_ID <= StateAfter(start, k) <= MAX_SESSION_ID
  {
    var j := ReachesRange(start);
    StateAfterSum(start, j, k - j);
    CounterState(StateAfter(start, j), k - j);
  }
}
