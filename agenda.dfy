/** The stored docket and its handlers: booking a slot, cancelling a
    booking, amending one, the availability check and the admin fill. */
module Docket {
  import opened Dates
  import opened Records
  import opened Turn
  import opened Generator
  import opened Ledger
  import opened Availability
  import opened Amendment

  /** The three tables the core reads and writes: the slot ledger (`Agenda`),
      the bookings (`Apuntes`) and the single turn row (`Turno`, with the
      pending skips as a list of numbers). */
  class Agenda {
    var slots: seq<Slot>
    var bookings: seq<Booking>
    var turn: int
    var pending: seq<int>

    ghost predicate Valid()
      reads this
    {
      WellFormed(slots) && Consistent(slots, bookings) && TurnInvariant(turn, pending)
    }

    /** A freshly seeded docket: a well-formed ledger of free slots, no
        bookings, the turn on a real commission and nothing pending. */
    constructor (initial: seq<Slot>, first: int)
      requires WellFormed(initial)
      requires forall i :: 0 <= i < |initial| ==> initial[i].available
      requires 1 <= first <= 7
      ensures Valid()
      ensures slots == initial && bookings == [] && turn == first && pending == []
    {
      slots := initial;
      bookings := [];
      turn := first;
      pending := [];
    }

    /** The availability check of the booking page for the date center: the
        free dates of the commission whose turn it is, the representatives
        already booked on those dates, and the Friday warning. */
    method CheckAvailability(center: int) returns (w: Window)
      ensures w == CheckWindow(slots, bookings, turn, center)
    {
      var dates := FreeDatesNear(center);
      var reps := CollectConflicts(bookings, dates);
      w := Window(dates, reps, IsoWeekday(center) == 5);
    }

    /** The first loop of the availability check: the free slots of the turn
        commission within five days of center, Fridays skipped. */
    method FreeDatesNear(center: int) returns (dates: seq<int>)
      ensures dates == FreeDates(slots, turn, center)
    {
      dates := [];
      for i := 0 to |slots|
        invariant dates == FreeDates(slots[..i], turn, center)
      {
        var s := slots[i];
        assert slots[..i + 1][..i] == slots[..i];
        if center - 5 <= s.date <= center + 5 && s.commission == turn && s.available {
          if IsoWeekday(s.date) != 5 {
            dates := dates + [s.date];
          }
        }
      }
      assert slots[..|slots|] == slots;
    }

    /** Book commission c on day date. The booking is refused, with nothing
        changed, unless c is among the day's free commissions; otherwise the
        slot is taken, the booking stored and the turn state updated. */
    method Book(date: int, c: int, court: string, representative: string, caseRef: string) returns (ok: bool)
      requires Valid()
      modifies this
      ensures ok <==> c in AvailableOn(old(slots), date)
      ensures ok <==> Slot(date, c, true) in old(slots)
      ensures !ok ==> slots == old(slots) && bookings == old(bookings) && turn == old(turn) && pending == old(pending)
      ensures ok ==> (FirstSlot(old(slots), date, c).Some?
        && slots == SetAvailable(old(slots), FirstSlot(old(slots), date, c).value, false))
      ensures ok ==> bookings == old(bookings) + [Booking(date, c, court, representative, caseRef)]
      ensures ok ==> (turn, pending) == RecordBooking(old(turn), old(pending), c)
      ensures ok ==> Slot(date, c, true) !in slots && IsBooked(bookings, date, c)
      ensures Valid()
    {
      var free := FreeCommissions(date);
      if c !in free {
        return false;
      }
      var b := Booking(date, c, court, representative, caseRef);
      BookKeeps(slots, bookings, b);
      RecordBookingKeepsInvariant(turn, pending, c);
      IsBookedAppend(bookings, b);
      var i := FirstSlot(slots, date, c).value;
      slots := SetAvailable(slots, i, false);
      if c != turn {
        pending := pending + [c];
      } else {
        turn, pending := AdvanceTurn(turn, pending);
      }
      bookings := bookings + [b];
      ok := true;
    }

    /** The loop that collects the free commissions of day date
        (`disponibles`), in ledger order. */
    method FreeCommissions(date: int) returns (free: seq<int>)
      ensures free == AvailableOn(slots, date)
    {
      free := [];
      for i := 0 to |slots|
        invariant free == AvailableOn(slots[..i], date)
      {
        assert slots[..i + 1][..i] == slots[..i];
        if slots[i].date == date && slots[i].available {
          free := free + [slots[i].commission];
        }
      }
      assert slots[..|slots|] == slots;
    }

    /** Cancel the first booking on day date with case reference caseRef:
        its slot becomes free again and the booking is removed; the court
        and commission of the removed booking are reported. The turn state
        is not touched. */
    method Cancel(date: int, caseRef: string) returns (r: Option<(string, int)>)
      requires Valid()
      modifies this
      ensures r.None? <==> FirstBookingByRef(old(bookings), date, caseRef).None?
      ensures r.None? ==> slots == old(slots) && bookings == old(bookings)
      ensures r.Some? ==>
        var k := FirstBookingByRef(old(bookings), date, caseRef).value;
        var b := old(bookings)[k];
        && r.value == (b.court, b.commission)
        && FirstSlot(old(slots), date, b.commission).Some?
        && slots == SetAvailable(old(slots), FirstSlot(old(slots), date, b.commission).value, true)
        && bookings == RemoveAt(old(bookings), k)
        && Slot(date, b.commission, true) in slots
        && !IsBooked(bookings, date, b.commission)
      ensures turn == old(turn) && pending == old(pending)
      ensures Valid()
    {
      var found := FirstBookingByRef(bookings, date, caseRef);
      if found.None? {
        return None;
      }
      var k := found.value;
      var b := bookings[k];
      CancelKeeps(slots, bookings, k);
      var i := FirstSlot(slots, date, b.commission).value;
      slots := SetAvailable(slots, i, true);
      bookings := RemoveAt(bookings, k);
      r := Some((b.court, b.commission));
    }

    /** Amend the first booking for (date, c) with edit e. With no such
        booking an effective edit fails (the source's attribute access on a
        missing row) and changes nothing, while an ineffective one succeeds
        and changes nothing. Slots and turn state are never touched. */
    method Amend(date: int, c: int, e: Edit) returns (ok: bool)
      requires Valid()
      modifies this
      ensures ok <==> IsBooked(old(bookings), date, c) || !Effective(e)
      ensures !IsBooked(old(bookings), date, c) ==> bookings == old(bookings)
      ensures IsBooked(old(bookings), date, c) ==>
        var k := FirstBooking(old(bookings), date, c).value;
        bookings == old(bookings)[k := Amended(old(bookings)[k], e)]
      ensures slots == old(slots) && turn == old(turn) && pending == old(pending)
      ensures Valid()
    {
      var found := FirstBooking(bookings, date, c);
      if found.None? {
        return !Effective(e);
      }
      var k := found.value;
      ReplaceKeeps(slots, bookings, k, Amended(bookings[k], e));
      bookings := bookings[k := Amended(bookings[k], e)];
      ok := true;
    }

    /** The admin fill up to target: refused, with nothing changed, on an
        empty ledger, a target on or before the last slot's date, or one more
        than 365 days after it; otherwise four free slots per weekday are
        appended, continuing the commission counter from the last slot. */
    method Extend(target: int) returns (r: FillResult)
      requires Valid()
      modifies this
      ensures r == Fill(old(slots), target)
      ensures r.Rejected? ==> slots == old(slots)
      ensures r.Filled? ==> slots == old(slots) + r.added
      ensures bookings == old(bookings) && turn == old(turn) && pending == old(pending)
      ensures Valid()
    {
      if |slots| == 0 {
        return Rejected(EmptyAgenda);
      }
      var last := slots[|slots| - 1];
      var cursor := last.date + 1;
      var k := Next(last.commission);
      if target <= last.date {
        return Rejected(NotAfterLast);
      }
      if target > last.date + 365 {
        return Rejected(BeyondOneYear);
      }
      var count := |slots|;
      ghost var start := slots;
      FillFrom(cursor, k, target);
      FillKeeps(start, bookings, target);
      assert slots[count..] == Generate(cursor, k, target);
      r := Filled(slots[count..]);
    }

    /** The fill loop: from the cursor on, day by day up to target, a
        weekend cursor jumping two days ahead first. */
    method FillFrom(cursor: int, k: int, target: int)
      modifies this
      ensures slots == old(slots) + Generate(cursor, k, target)
      ensures bookings == old(bookings) && turn == old(turn) && pending == old(pending)
    {
      var day := cursor;
      var next := k;
      ghost var added: seq<Slot> := [];
      while day <= target
        invariant slots == old(slots) + added
        invariant bookings == old(bookings) && turn == old(turn) && pending == old(pending)
        invariant added + Generate(day, next, target) == Generate(cursor, k, target)
        decreases target - day
      {
        GenerateStep(day, next, target);
        ghost var from := day;
        if IsoWeekday(day) > 5 {
          day := day + 2;
        }
        assert day == FillDay(from);
        ghost var today := DaySlots(day, next);
        ghost var later := Generate(day + 1, After4(next), target);
        Associative(added, today, later);
        Associative(old(slots), added, today);
        next := AppendDay(day, next);
        added := added + today;
        day := day + 1;
      }
      assert Generate(day, next, target) == [];
      assert added + [] == added;
    }

    /** One day of the fill: four free slots dated day, with commissions k
        onwards, each one after the previous on the wheel. */
    method AppendDay(day: int, k: int) returns (next: int)
      modifies this
      ensures slots == old(slots) + DaySlots(day, k)
      ensures next == After4(k)
      ensures bookings == old(bookings) && turn == old(turn) && pending == old(pending)
    {
      DaySlotsCycle(day, k);
      next := k;
      for i := 0 to 4
        invariant slots == old(slots) + DaySlots(day, k)[..i]
        invariant next == Cycle(k, i)
        invariant bookings == old(bookings) && turn == old(turn) && pending == old(pending)
      {
        assert DaySlots(day, k)[..i + 1] == DaySlots(day, k)[..i] + [Slot(day, next, true)];
        slots := slots + [Slot(day, next, true)];
        next := Next(next);
      }
      assert DaySlots(day, k)[..4] == DaySlots(day, k);
    }
  }

  /** The second loop of the availability check: for each listed date in
      turn, the representatives booked on it. */
  method CollectConflicts(bookings: seq<Booking>, dates: seq<int>) returns (reps: seq<(string, int)>)
    ensures reps == Conflicts(bookings, dates)
  {
    reps := [];
    for j := 0 to |dates|
      invariant reps == Conflicts(bookings, dates[..j])
    {
      assert dates[..j + 1][..j] == dates[..j];
      var onDay := CollectBookedOn(bookings, dates[j]);
      reps := reps + onDay;
    }
    assert dates[..|dates|] == dates;
  }

  /** The inner loop: the representatives booked on day d. */
  method CollectBookedOn(bookings: seq<Booking>, d: int) returns (reps: seq<(string, int)>)
    ensures reps == BookedOn(bookings, d)
  {
    reps := [];
    for l := 0 to |bookings|
      invariant reps == BookedOn(bookings[..l], d)
    {
      assert bookings[..l + 1][..l] == bookings[..l];
      if bookings[l].date == d {
        reps := reps + [(bookings[l].representative, d)];
      }
    }
    assert bookings[..|bookings|] == bookings;
  }
}
