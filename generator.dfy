/** The calendar generator: the fill branch of the admin page, which
    extends the slot ledger from the last inserted slot up to a target date. */
module Generator {
  import opened Dates
  import opened Records
  import opened Turn

  /** The four fresh slots of one docket day, starting with commission k and
      counting on through the wheel 1..7. */
  function DaySlots(day: int, k: int): seq<Slot> {
    [Slot(day, k, true), Slot(day, Next(k), true), Slot(day, Next(Next(k)), true), Slot(day, Next(Next(Next(k))), true)]
  }

  /** The counter after one day's four slots. */
  function After4(k: int): int {
    Next(Next(Next(Next(k))))
  }

  /** The day's slots count on through the wheel: slot i has the
      commission i steps after k, and the counter ends four steps on. */
  lemma DaySlotsCycle(day: int, k: int)
    ensures forall i :: 0 <= i < 4 ==> DaySlots(day, k)[i] == Slot(day, Cycle(k, i), true)
    ensures After4(k) == Cycle(k, 4)
  {
    assert Cycle(k, 1) == Next(k);
    assert Cycle(k, 2) == Next(Next(k));
    assert Cycle(k, 3) == Next(Next(Next(k)));
  }

  /** The day the loop fills when its cursor is on d: a Saturday or Sunday
      cursor jumps two days ahead, without a second look. */
  function FillDay(d: int): int {
    if IsWeekend(d) then d + 2 else d
  }

  /** The slots the fill loop adds, in order, for a cursor, a counter k and
      the target date. */
  function Generate(cursor: int, k: int, target: int): seq<Slot>
    decreases target - cursor
  {
    if cursor > target then []
    else
      var day := FillDay(cursor);
      DaySlots(day, k) + Generate(day + 1, After4(k), target)
  }

  /** One step of the fill loop: the day the cursor lands on gets its four
      slots, and the loop goes on from the day after with the counter four
      steps on. */
  lemma GenerateStep(cursor: int, k: int, target: int)
    requires cursor <= target
    ensures Generate(cursor, k, target) == DaySlots(FillDay(cursor), k) + Generate(FillDay(cursor) + 1, After4(k), target)
  {
  }

  /** Why a fill request is refused. `EmptyAgenda` stands for the source's
      crash on `Agenda.query.all()[-1]` when there is no slot at all. */
  datatype FillError = EmptyAgenda | NotAfterLast | BeyondOneYear

  datatype FillResult = Filled(added: seq<Slot>) | Rejected(error: FillError)

  /** The whole fill branch: it continues from the LAST INSERTED slot, seeds
      the counter with that slot's commission + 1 (8 becomes 1), and refuses a
      target on or before that slot's date or more than 365 days after it. */
  function Fill(slots: seq<Slot>, target: int): FillResult {
    if slots == [] then Rejected(EmptyAgenda)
    else
      var last := slots[|slots| - 1];
      if target <= last.date then Rejected(NotAfterLast)
      else if target > last.date + 365 then Rejected(BeyondOneYear)
      else Filled(Generate(last.date + 1, Next(last.commission), target))
  }

  // ---------------------------------------------------------------------
  // Dates of the generated slots
  // ---------------------------------------------------------------------

  lemma FillDayIsWeekday(d: int)
    ensures d <= FillDay(d) <= d + 2
    ensures IsoWeekday(FillDay(d)) <= 5
  {
    if IsWeekend(d) {
      TwoDaysAfterWeekend(d);
    }
  }

  /** Every generated slot is free and dated no earlier than the cursor. */
  lemma {:induction false} GenerateFrom(cursor: int, k: int, target: int)
    ensures forall i :: 0 <= i < |Generate(cursor, k, target)| ==>
      cursor <= Generate(cursor, k, target)[i].date && Generate(cursor, k, target)[i].available
    decreases target - cursor
  {
    if cursor <= target {
      var day := FillDay(cursor);
      var rest := Generate(day + 1, After4(k), target);
      var gen := Generate(cursor, k, target);
      GenerateStep(cursor, k, target);
      GenerateFrom(day + 1, After4(k), target);
      forall i | 0 <= i < |gen|
        ensures cursor <= gen[i].date && gen[i].available
      {
        if i >= 4 {
          assert gen[i] == rest[i - 4];
        }
      }
    }
  }

  /** The run is empty exactly when the cursor is past the target, is made
      of whole days of four slots, and its last day reaches the target. */
  lemma {:induction false} GenerateShape(cursor: int, k: int, target: int)
    ensures Generate(cursor, k, target) == [] <==> cursor > target
    ensures |Generate(cursor, k, target)| % 4 == 0
    ensures Generate(cursor, k, target) != [] ==>
      Generate(cursor, k, target)[|Generate(cursor, k, target)| - 1].date >= target
    decreases target - cursor
  {
    if cursor <= target {
      var day := FillDay(cursor);
      var rest := Generate(day + 1, After4(k), target);
      var gen := Generate(cursor, k, target);
      GenerateStep(cursor, k, target);
      GenerateShape(day + 1, After4(k), target);
      assert |gen| == 4 + |rest|;
      if rest == [] {
        assert gen[|gen| - 1] == Slot(day, Next(Next(Next(k))), true);
      } else {
        assert gen[|gen| - 1] == rest[|rest| - 1];
      }
    }
  }

  /** Every generated slot is free, dated Monday to Friday, no earlier than the
      cursor and at most two days past the target. */
  lemma {:induction false} GenerateDates(cursor: int, k: int, target: int)
    ensures forall i :: 0 <= i < |Generate(cursor, k, target)| ==>
      && Generate(cursor, k, target)[i].available
      && cursor <= Generate(cursor, k, target)[i].date <= target + 2
      && IsoWeekday(Generate(cursor, k, target)[i].date) <= 5
    decreases target - cursor
  {
    if cursor <= target {
      var day := FillDay(cursor);
      var rest := Generate(day + 1, After4(k), target);
      var gen := Generate(cursor, k, target);
      GenerateStep(cursor, k, target);
      FillDayIsWeekday(cursor);
      GenerateDates(day + 1, After4(k), target);
      forall i | 0 <= i < |gen|
        ensures gen[i].available && cursor <= gen[i].date <= target + 2 && IsoWeekday(gen[i].date) <= 5
      {
        if i >= 4 {
          assert gen[i] == rest[i - 4];
        } else {
          assert gen[i].date == day;
        }
      }
    }
  }

  /** Generated dates never go down. */
  lemma {:induction false} GenerateSorted(cursor: int, k: int, target: int)
    ensures forall i, j :: 0 <= i < j < |Generate(cursor, k, target)| ==> Generate(cursor, k, target)[i].date <= Generate(cursor, k, target)[j].date
    decreases target - cursor
  {
    if cursor <= target {
      var day := FillDay(cursor);
      var rest := Generate(day + 1, After4(k), target);
      var gen := Generate(cursor, k, target);
      GenerateStep(cursor, k, target);
      GenerateFrom(day + 1, After4(k), target);
      GenerateSorted(day + 1, After4(k), target);
      forall i, j | 0 <= i < j < |gen|
        ensures gen[i].date <= gen[j].date
      {
        if j >= 4 {
          assert gen[j] == rest[j - 4];
        }
        if i >= 4 {
          assert gen[i] == rest[i - 4];
        }
      }
    }
  }

  /** The run is made of days of four slots sharing one date, and each day's
      date is strictly later than the previous day's. */
  lemma {:induction false} GenerateDays(cursor: int, k: int, target: int)
    ensures && (forall i :: 0 < i < |Generate(cursor, k, target)| && i % 4 != 0 ==> Generate(cursor, k, target)[i].date == Generate(cursor, k, target)[i - 1].date)
      && (forall i :: 0 <= i < |Generate(cursor, k, target)| - 4 ==> Generate(cursor, k, target)[i].date < Generate(cursor, k, target)[i + 4].date)
    decreases target - cursor
  {
    if cursor <= target {
      var day := FillDay(cursor);
      var rest := Generate(day + 1, After4(k), target);
      var gen := Generate(cursor, k, target);
      assert gen == DaySlots(day, k) + rest;
      GenerateFrom(day + 1, After4(k), target);
      GenerateDays(day + 1, After4(k), target);
      forall i | 0 < i < |gen| && i % 4 != 0
        ensures gen[i].date == gen[i - 1].date
      {
        if i >= 4 {
          assert gen[i] == rest[i - 4] && gen[i - 1] == rest[i - 5];
          assert (i - 4) % 4 == i % 4;
        }
      }
      forall i | 0 <= i < |gen| - 4
        ensures gen[i].date < gen[i + 4].date
      {
        assert gen[i + 4] == rest[i];
        if i >= 4 {
          assert gen[i] == rest[i - 4];
          assert rest[i - 4].date < rest[i - 4 + 4].date;
        } else {
          assert rest[i].date >= day + 1;
        }
      }
    }
  }

  /** Every weekday from the cursor to the target gets slots, provided the
      cursor does not start on a Sunday (see SundayCursorSkipsMonday). */
  lemma {:induction false} GenerateCovers(cursor: int, k: int, target: int, d: int)
    requires IsoWeekday(cursor) != 7
    requires cursor <= d <= target && IsoWeekday(d) <= 5
    ensures exists i :: 0 <= i < |Generate(cursor, k, target)| && Generate(cursor, k, target)[i].date == d
    decreases target - cursor
  {
    var day := FillDay(cursor);
    var gen := Generate(cursor, k, target);
    assert gen[..4] == DaySlots(day, k);
    NextDay(cursor);
    if d == day {
      assert gen[0].date == d;
    } else {
      if IsWeekend(cursor) {
        // the cursor is a Saturday: d is neither it nor the Sunday after it
        NextDay(cursor + 1);
        NextDay(cursor + 2);
        assert d != cursor && d != cursor + 1;
      }
      assert day + 1 <= d;
      NextDay(day);
      FillDayIsWeekday(cursor);
      GenerateCovers(day + 1, After4(k), target, d);
      var rest := Generate(day + 1, After4(k), target);
      var i :| 0 <= i < |rest| && rest[i].date == d;
      assert gen[4 + i] == rest[i];
    }
  }

  /** A cursor on a Sunday jumps to the Tuesday: the Monday gets no slot. */
  lemma SundayCursorSkipsMonday(cursor: int, k: int, target: int)
    requires IsoWeekday(cursor) == 7 && target >= cursor + 1
    ensures IsoWeekday(cursor + 1) == 1
    ensures forall i :: 0 <= i < |Generate(cursor, k, target)| ==> Generate(cursor, k, target)[i].date != cursor + 1
  {
    NextDay(cursor);
    var gen := Generate(cursor, k, target);
    var rest := Generate(cursor + 3, After4(k), target);
    GenerateStep(cursor, k, target);
    GenerateFrom(cursor + 3, After4(k), target);
    forall i | 0 <= i < |gen|
      ensures gen[i].date != cursor + 1
    {
      if i >= 4 {
        assert gen[i] == rest[i - 4];
      }
    }
  }

  // ---------------------------------------------------------------------
  // Commissions of the generated slots
  // ---------------------------------------------------------------------

  /** The counter runs on through the wheel without a reset, across weekend
      jumps too: the run starts with k and each slot's commission is the
      previous one + 1 (8 becomes 1). */
  lemma {:induction false} GenerateChain(cursor: int, k: int, target: int)
    ensures && (Generate(cursor, k, target) != [] ==> Generate(cursor, k, target)[0].commission == k)
      && (forall i :: 0 <= i < |Generate(cursor, k, target)| - 1 ==> Generate(cursor, k, target)[i + 1].commission == Next(Generate(cursor, k, target)[i].commission))
      && (1 <= k <= 7 ==> forall i :: 0 <= i < |Generate(cursor, k, target)| ==> 1 <= Generate(cursor, k, target)[i].commission <= 7)
    decreases target - cursor
  {
    if cursor <= target {
      var day := FillDay(cursor);
      var rest := Generate(day + 1, After4(k), target);
      GenerateChain(day + 1, After4(k), target);
      GenerateFrom(day + 1, After4(k), target);
      var gen := Generate(cursor, k, target);
      assert gen == DaySlots(day, k) + rest;
      forall i | 0 <= i < |gen| - 1
        ensures gen[i + 1].commission == Next(gen[i].commission)
      {
        if i >= 4 {
          assert gen[i] == rest[i - 4] && gen[i + 1] == rest[i - 3];
        }
      }
    }
  }

  /** The four commissions of a day are pairwise distinct, since 4 < 7. */
  lemma FourDistinct(day: int, k: int)
    requires 1 <= k <= 7
    ensures forall i, j :: 0 <= i < j < 4 ==> DaySlots(day, k)[i].commission != DaySlots(day, k)[j].commission
  {
  }

  /** No two generated slots share a (date, commission) pair. */
  lemma {:induction false} GenerateUnique(cursor: int, k: int, target: int)
    requires 1 <= k <= 7
    ensures forall i, j :: 0 <= i < j < |Generate(cursor, k, target)| ==> !SlotIs(Generate(cursor, k, target)[j], Generate(cursor, k, target)[i].date, Generate(cursor, k, target)[i].commission)
    decreases target - cursor
  {
    if cursor <= target {
      var day := FillDay(cursor);
      var rest := Generate(day + 1, After4(k), target);
      FourDistinct(day, k);
      GenerateFrom(day + 1, After4(k), target);
      GenerateUnique(day + 1, After4(k), target);
      var gen := Generate(cursor, k, target);
      var d := DaySlots(day, k);
      assert gen == d + rest;
      forall i, j | 0 <= i < j < |gen|
        ensures !SlotIs(gen[j], gen[i].date, gen[i].commission)
      {
        if j < 4 {
          assert d[i].commission != d[j].commission;
        } else if i < 4 {
          assert gen[j] == rest[j - 4];
          assert rest[j - 4].date >= day + 1;
        } else {
          assert gen[i] == rest[i - 4] && gen[j] == rest[j - 4];
        }
      }
    }
  }

  // ---------------------------------------------------------------------
  // Pages of the generated days
  // ---------------------------------------------------------------------

  /** No generated slot falls before its cursor, so the page of an earlier day is empty. */
  lemma PageBeforeCursor(gen: seq<Slot>, cursor: int, k: int, target: int, day: int)
    requires gen == Generate(cursor, k, target) && day < cursor
    ensures SlotsOn(gen, day) == []
  {
    GenerateFrom(cursor, k, target);
    SlotsOnNone(gen, day);
  }

  /** The first day of a run is a page of its four slots. */
  lemma RunFirstPage(cursor: int, k: int, target: int)
    requires cursor <= target
    ensures var gen := Generate(cursor, k, target);
      4 <= |gen| && SlotsOn(gen, gen[0].date) == gen[..4]
  {
    var day := FillDay(cursor);
    var d := DaySlots(day, k);
    var rest := Generate(day + 1, After4(k), target);
    assert Generate(cursor, k, target) == d + rest;
    PageBeforeCursor(rest, day + 1, After4(k), target, day);
    SlotsOnAll(d, day);
    SlotsOnAppend(d, rest, day);
    assert (d + rest)[..4] == d;
  }

  /** A later day's page is not affected by the first day's slots. */
  lemma RunLaterPage(cursor: int, k: int, target: int, x: int)
    requires cursor <= target && x > FillDay(cursor)
    ensures SlotsOn(Generate(cursor, k, target), x) == SlotsOn(Generate(FillDay(cursor) + 1, After4(k), target), x)
  {
    var day := FillDay(cursor);
    var d := DaySlots(day, k);
    var rest := Generate(day + 1, After4(k), target);
    GenerateStep(cursor, k, target);
    DaySlotsDate(day, k);
    SlotsOnNone(d, x);
    SlotsOnAppend(d, rest, x);
  }

  /** The four slots of a generated day all carry that day's date. */
  lemma DaySlotsDate(day: int, k: int)
    ensures |DaySlots(day, k)| == 4
    ensures forall i :: 0 <= i < 4 ==> DaySlots(day, k)[i].date == day
  {
  }

  /** Within a generated run, each generated day is a page of exactly its
      four generated slots. */
  lemma {:induction false} RunPages(cursor: int, k: int, target: int, j: nat)
    requires 4 * j < |Generate(cursor, k, target)|
    ensures var gen := Generate(cursor, k, target);
      && 4 * j + 4 <= |gen|
      && SlotsOn(gen, gen[4 * j].date) == gen[4 * j..4 * j + 4]
    decreases target - cursor
  {
    if j == 0 {
      RunFirstPage(cursor, k, target);
    } else {
      var gen := Generate(cursor, k, target);
      var day := FillDay(cursor);
      var rest := Generate(day + 1, After4(k), target);
      GenerateStep(cursor, k, target);
      RunPages(day + 1, After4(k), target, j - 1);
      var x := rest[4 * (j - 1)].date;
      assert x >= day + 1 by {
        GenerateFrom(day + 1, After4(k), target);
      }
      RunLaterPage(cursor, k, target, x);
      ShiftDay(gen, DaySlots(day, k), rest, j);
    }
  }

  /** Behind a first day of four slots, the j-th day of a run is the
      (j - 1)-th day of the rest, and so is its page. */
  lemma ShiftDay(gen: seq<Slot>, first: seq<Slot>, rest: seq<Slot>, j: nat)
    requires gen == first + rest && |first| == 4 && 1 <= j && 4 * (j - 1) + 4 <= |rest|
    requires var x := rest[4 * (j - 1)].date;
      SlotsOn(rest, x) == rest[4 * (j - 1)..4 * (j - 1) + 4] && SlotsOn(gen, x) == SlotsOn(rest, x)
    ensures 4 * j + 4 <= |gen| && SlotsOn(gen, gen[4 * j].date) == gen[4 * j..4 * j + 4]
  {
    ShiftSlice(first, rest, 4 * (j - 1));
  }

  lemma ShiftSlice(first: seq<Slot>, rest: seq<Slot>, m: nat)
    requires |first| == 4 && m + 4 <= |rest|
    ensures (first + rest)[m + 4..m + 8] == rest[m..m + 4]
    ensures (first + rest)[m + 4] == rest[m]
  {
  }

  /** Appended to a ledger whose dates all lie before the cursor, each
      generated day is a page of exactly its four generated slots, all free. */
  lemma GeneratedPages(before: seq<Slot>, cursor: int, k: int, target: int, j: nat)
    requires forall i :: 0 <= i < |before| ==> before[i].date < cursor
    requires 4 * j < |Generate(cursor, k, target)|
    ensures var gen := Generate(cursor, k, target);
      && 4 * j + 4 <= |gen|
      && SlotsOn(before + gen, gen[4 * j].date) == gen[4 * j..4 * j + 4]
  {
    var gen := Generate(cursor, k, target);
    RunPages(cursor, k, target, j);
    GenerateFrom(cursor, k, target);
    SlotsOnNone(before, gen[4 * j].date);
    SlotsOnAppend(before, gen, gen[4 * j].date);
  }

  /** What the admin fill reports: refused exactly on an empty ledger or a
      target outside (last date, last date + 365]; otherwise a non-empty run
      of whole days, all free weekday slots after the last date and at most
      two days past the target, starting from the commission after the last
      slot's and reaching the target. */
  lemma FillOutcome(slots: seq<Slot>, target: int)
    ensures Fill(slots, target).Rejected? <==>
      slots == [] || target <= slots[|slots| - 1].date || target > slots[|slots| - 1].date + 365
    ensures Fill(slots, target) == Rejected(EmptyAgenda) <==> slots == []
    ensures Fill(slots, target).Filled? ==>
      var last := slots[|slots| - 1];
      var added := Fill(slots, target).added;
      && added != [] && |added| % 4 == 0
      && added[0].commission == Next(last.commission)
      && added[|added| - 1].date >= target
      && forall i :: 0 <= i < |added| ==>
        && added[i].available
        && last.date < added[i].date <= target + 2
        && IsoWeekday(added[i].date) <= 5
  {
    if slots != [] {
      var last := slots[|slots| - 1];
      GenerateShape(last.date + 1, Next(last.commission), target);
      GenerateDates(last.date + 1, Next(last.commission), target);
      GenerateChain(last.date + 1, Next(last.commission), target);
    }
  }

  // ---------------------------------------------------------------------
  // Scenarios
  // ---------------------------------------------------------------------

  /** Day 158 is Friday 2024-06-07 and day 161 Monday 2024-06-10: filling to
      the Monday skips the weekend and gives exactly that Monday's four slots,
      the counter carrying on from the Friday. */
  lemma FridayToMonday(last: Slot)
    requires last.date == 158
    ensures Fill([last], 161) == Filled(DaySlots(161, Next(last.commission)))
  {
    assert IsoWeekday(159) == 6;
  }

  /** The target is compared before the weekend jump: a Saturday target
      (2024-06-08) still gives four slots for the following Monday. */
  lemma SaturdayTargetFillsMonday(last: Slot)
    requires last.date == 158
    ensures Fill([last], 159) == Filled(DaySlots(161, Next(last.commission)))
  {
    assert IsoWeekday(159) == 6;
  }
}
