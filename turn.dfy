/** The turn tracker (the single `Turno` row): whose turn it is to receive
    the next booking, and the commissions that were booked out of turn and
    are owed a skip (`salta_turno`, here a list of numbers; the string form
    is in module TurnEncoding). */
module Turn {

  /** The commission after c, where 8 wraps to 1 (`c + 1`, `if c == 8: c = 1`). */
  function Next(c: int): (r: int)
    ensures 1 <= c <= 7 ==> 1 <= r <= 7
  {
    if c + 1 == 8 then 1 else c + 1
  }

  /** `list.remove(x)`: drop the first occurrence of x, keep the rest in order. */
  function RemoveFirst<T(==)>(s: seq<T>, x: T): (r: seq<T>)
    requires x in s
    ensures multiset(r) == multiset(s) - multiset{x}
    ensures |r| == |s| - 1
  {
    assert s == [s[0]] + s[1..];
    if s[0] == x then s[1..] else [s[0]] + RemoveFirst(s[1..], x)
  }

  /** The numbers a, a+1, ..., b-1. */
  function Run(a: int, b: int): seq<int>
    decreases b - a
  {
    if b <= a then [] else [a] + Run(a + 1, b)
  }

  /** The skip loop of an on-turn booking: while t is pending, consume one
      pending entry t and move on to t + 1 (no wrap inside the loop). */
  function SkipFrom(t: int, pending: seq<int>): (int, seq<int>)
    decreases |pending|
  {
    if t in pending then SkipFrom(t + 1, RemoveFirst(pending, t)) else (t, pending)
  }

  /** The new turn state after a booking for commission c. */
  function RecordBooking(turn: int, pending: seq<int>, c: int): (int, seq<int>) {
    if c != turn then (turn, pending + [c])
    else SkipFrom(Next(turn), pending)
  }

  /** What the stored turn state always satisfies: the turn is 1..8 (8 is
      reachable, see TurnEightReachable), pending entries are real
      commissions, and the turn itself is never pending. */
  ghost predicate TurnInvariant(turn: int, pending: seq<int>) {
    && 1 <= turn <= 8
    && turn !in pending
    && forall p :: p in pending ==> 1 <= p <= 7
  }

  /** The rebuilt `array_saltos` loop of an on-turn booking. */
  method AdvanceTurn(turn: int, pending: seq<int>) returns (t: int, rest: seq<int>)
    ensures (t, rest) == SkipFrom(Next(turn), pending)
  {
    t := turn + 1;
    if t == 8 {
      t := 1;
    }
    rest := pending;
    while t in rest
      invariant SkipFrom(t, rest) == SkipFrom(Next(turn), pending)
      decreases |rest|
    {
      t := t + 1;
      rest := RemoveFirst(rest, t - 1);
    }
  }

  /** The skip loop stops at the first number from t on that is not pending,
      and it has consumed exactly one pending entry for each number it passed. */
  lemma {:induction false} SkipFromConsumes(t: int, pending: seq<int>)
    ensures var (t', rest) := SkipFrom(t, pending);
      && t <= t' <= t + |pending|
      && t' !in rest
      && multiset(pending) == multiset(rest) + multiset(Run(t, t'))
      && |rest| == |pending| - (t' - t)
    decreases |pending|
  {
    if t in pending {
      var p' := RemoveFirst(pending, t);
      SkipFromConsumes(t + 1, p');
      var (t', rest) := SkipFrom(t + 1, p');
      assert Run(t, t') == [t] + Run(t + 1, t');
      assert multiset(Run(t, t')) == multiset{t} + multiset(Run(t + 1, t'));
      assert multiset(pending) == multiset(p') + multiset{t};
    }
  }

  /** Each number from a up to b occurs in the run a, ..., b - 1. */
  lemma RunMembers(a: int, b: int, k: int)
    requires a <= k < b
    ensures k in multiset(Run(a, b))
    decreases b - a
  {
    if k > a {
      RunMembers(a + 1, b, k);
    }
  }

  /** Every number the skip loop passed was pending. */
  lemma PassedWerePending(t: int, pending: seq<int>, k: int)
    requires t <= k < SkipFrom(t, pending).0
    ensures k in pending
  {
    SkipFromConsumes(t, pending);
    RunMembers(t, SkipFrom(t, pending).0, k);
    assert k in multiset(pending);
  }

  /** Facts about the result of an out-of-turn booking: the turn stays and c
      is appended even when it is already pending. */
  lemma OutOfTurn(turn: int, pending: seq<int>, c: int)
    requires c != turn
    ensures var (t, p) := RecordBooking(turn, pending, c);
      && t == turn
      && p == pending + [c]
      && multiset(p)[c] == multiset(pending)[c] + 1
  {
  }

  /** What remains after a removal was already there. */
  lemma RemoveFirstSubset<T>(s: seq<T>, x: T)
    requires x in s
    ensures forall p :: p in RemoveFirst(s, x) ==> p in s
  {
    forall p | p in RemoveFirst(s, x)
      ensures p in s
    {
      assert p in multiset(RemoveFirst(s, x));
    }
  }

  /** Started from a real commission, the skip loop ends on 1..8 and leaves
      only real commissions pending. */
  lemma {:induction false} SkipFromInRange(t: int, pending: seq<int>)
    requires 1 <= t <= 7
    requires forall p :: p in pending ==> 1 <= p <= 7
    ensures 1 <= SkipFrom(t, pending).0 <= 8
    ensures forall p :: p in SkipFrom(t, pending).1 ==> 1 <= p <= 7
    decreases |pending|
  {
    if t in pending {
      var p' := RemoveFirst(pending, t);
      RemoveFirstSubset(pending, t);
      assert SkipFrom(t, pending) == SkipFrom(t + 1, p');
      if t < 7 {
        SkipFromInRange(t + 1, p');
      } else {
        SkipFromPastSeven(p');
      }
    }
  }

  /** Past the last commission the skip loop stops at once. */
  lemma SkipFromPastSeven(pending: seq<int>)
    requires forall p :: p in pending ==> 1 <= p <= 7
    ensures SkipFrom(8, pending) == (8, pending)
  {
    assert 8 !in pending;
  }

  /** Every booking keeps the turn invariant, so the turn is never pending. */
  lemma {:induction false} RecordBookingKeepsInvariant(turn: int, pending: seq<int>, c: int)
    requires TurnInvariant(turn, pending)
    requires 1 <= c <= 7
    ensures TurnInvariant(RecordBooking(turn, pending, c).0, RecordBooking(turn, pending, c).1)
  {
    if c == turn {
      SkipFromConsumes(Next(turn), pending);
      SkipFromInRange(Next(turn), pending);
    }
  }

  /** With nothing pending, an on-turn booking simply passes the turn on. */
  lemma OnTurnNothingPending(turn: int)
    ensures RecordBooking(turn, [], turn) == (Next(turn), [])
  {
  }

  /** n consecutive on-turn bookings. */
  function OnTurnRun(turn: int, pending: seq<int>, n: nat): (int, seq<int>)
    decreases n
  {
    if n == 0 then (turn, pending)
    else
      var (t, p) := RecordBooking(turn, pending, turn);
      OnTurnRun(t, p, n - 1)
  }

  /** With nothing pending, n on-turn bookings move the turn n steps round
      the wheel 1..7 and leave nothing pending. */
  lemma {:induction false} OnTurnRunWheel(turn: int, n: nat)
    requires 1 <= turn <= 7
    ensures OnTurnRun(turn, [], n) == ((turn - 1 + n) % 7 + 1, [])
    decreases n
  {
    if n > 0 {
      OnTurnNothingPending(turn);
      OnTurnRunWheel(Next(turn), n - 1);
      assert Next(turn) - 1 == turn % 7;
    }
  }

  /** The wheel step counted by Cycle in closed form: i steps after turn is
      (turn - 1 + i) % 7 + 1, the formula OnTurnRunWheel uses. */
  lemma {:induction false} CycleWheel(turn: int, i: nat)
    requires 1 <= turn <= 7
    ensures Cycle(turn, i) == (turn - 1 + i) % 7 + 1
  {
    if i > 0 {
      CycleWheel(turn, i - 1);
      NextWheel(turn - 2 + i);
    }
  }

  lemma NextWheel(a: int)
    ensures Next(a % 7 + 1) == (a + 1) % 7 + 1
  {
    var q := a / 7;
    assert a == 7 * q + a % 7;
    if a % 7 == 6 {
      assert a + 1 == 7 * (q + 1);
    } else {
      assert a + 1 == 7 * q + (a % 7 + 1);
    }
  }

  /** The turns of n consecutive on-turn bookings with nothing pending, one
      per booking. */
  function Seen(turn: int, n: nat): (r: seq<int>)
    ensures |r| == n
  {
    if n == 0 then [] else Seen(turn, n - 1) + [OnTurnRun(turn, [], n - 1).0]
  }

  lemma {:induction false} SeenWheel(turn: int, n: nat)
    requires 1 <= turn <= 7
    ensures forall i :: 0 <= i < n ==> Seen(turn, n)[i] == (turn - 1 + i) % 7 + 1
  {
    if n > 0 {
      SeenWheel(turn, n - 1);
      OnTurnRunWheel(turn, n - 1);
    }
  }

  /** Seven on-turn bookings with nothing pending give the turn to every
      commission exactly once and return to the starting turn with nothing
      pending. */
  lemma RotationCoverage(turn: int)
    requires 1 <= turn <= 7
    ensures OnTurnRun(turn, [], 7) == (turn, [])
    ensures forall c :: 1 <= c <= 7 ==> c in Seen(turn, 7)
    ensures forall i, j :: 0 <= i < j < 7 ==> Seen(turn, 7)[i] != Seen(turn, 7)[j]
  {
    RoundReturns(turn, 7);
    SeenCovers(turn, 7);
    SeenDistinct(turn, 7);
  }

  /** Seven on-turn bookings bring the turn back round the wheel. */
  lemma RoundReturns(turn: int, n: nat)
    requires 1 <= turn <= 7 && n == 7
    ensures OnTurnRun(turn, [], n) == (turn, [])
  {
    OnTurnRunWheel(turn, n);
    assert (turn - 1 + n) % 7 == turn - 1;
  }

  /** A round of seven turns passes every commission. */
  lemma SeenCovers(turn: int, n: nat)
    requires 1 <= turn <= 7 && n == 7
    ensures forall c :: 1 <= c <= 7 ==> c in Seen(turn, n)
  {
    SeenWheel(turn, n);
    forall c | 1 <= c <= 7
      ensures c in Seen(turn, n)
    {
      var i := WheelHits(turn, c);
      assert Seen(turn, n)[i] == c;
    }
  }

  /** Within a round of at most seven turns no commission comes twice. */
  lemma SeenDistinct(turn: int, n: nat)
    requires 1 <= turn <= 7 && n <= 7
    ensures forall i, j :: 0 <= i < j < n ==> Seen(turn, n)[i] != Seen(turn, n)[j]
  {
    SeenWheel(turn, n);
    forall i, j | 0 <= i < j < n
      ensures Seen(turn, n)[i] != Seen(turn, n)[j]
    {
      assert Seen(turn, n)[i] == (turn - 1 + i) % 7 + 1;
      assert Seen(turn, n)[j] == (turn - 1 + j) % 7 + 1;
      WheelDistinct(turn - 1, i, j);
    }
  }

  /** Every commission is some number of steps round the wheel from turn. */
  lemma WheelHits(turn: int, c: int) returns (i: nat)
    requires 1 <= turn <= 7 && 1 <= c <= 7
    ensures i < 7 && (turn - 1 + i) % 7 + 1 == c
  {
    if c >= turn {
      i := c - turn;
    } else {
      i := c - turn + 7;
      assert turn - 1 + i == 7 + (c - 1);
    }
  }

  /** Fewer than seven steps round the wheel never come back to the same place. */
  lemma WheelDistinct(a: int, i: int, j: int)
    requires 0 <= i < j < 7
    ensures (a + i) % 7 != (a + j) % 7
  {
    var qi, qj := (a + i) / 7, (a + j) / 7;
    assert a + i == 7 * qi + (a + i) % 7;
    assert a + j == 7 * qj + (a + j) % 7;
    assert j - i == 7 * (qj - qi) + ((a + j) % 7 - (a + i) % 7);
  }

  /** The commission i steps after turn on the wheel 1..7. */
  function Cycle(turn: int, i: nat): int {
    if i == 0 then turn else Next(Cycle(turn, i - 1))
  }

  /** Turn 3 with 4 pending: the turn skips 4 and the pending entry is consumed. */
  lemma SkipScenario()
    ensures RecordBooking(3, [4], 3) == (5, [])
  {
    assert RemoveFirst([4], 4) == [];
  }

  /** Turn 6 with 7 pending ends on turn 8, since the loop does not wrap. */
  lemma TurnEightReachable()
    ensures RecordBooking(6, [7], 6) == (8, [])
  {
    assert RemoveFirst([7], 7) == [];
  }

  /** Once the turn is 8, no booking of a real commission is on turn again, so
      the turn stays 8 and every booking is recorded as out of turn. */
  lemma TurnEightSticks(pending: seq<int>, c: int)
    requires 1 <= c <= 7
    ensures RecordBooking(8, pending, c) == (8, pending + [c])
  {
  }
}
