/** The read-only views of the docket: the availability check of the
    booking page and the permanencia shown under a day's page. */
module Availability {
  import opened Dates
  import opened Records
  import opened Turn
  import opened Generator

  /** The dates within five days of center that still have a free slot for
      commission turn, Fridays left out, in the ledger's order
      (`fechas_disponibles`). */
  function FreeDates(slots: seq<Slot>, turn: int, center: int): (r: seq<int>)
    ensures forall d :: d in r <==> center - 5 <= d <= center + 5 && IsoWeekday(d) != 5 && Slot(d, turn, true) in slots
    ensures |r| <= |slots|
  {
    if slots == [] then []
    else
      var s := slots[|slots| - 1];
      assert slots == slots[..|slots| - 1] + [s];
      var shown := center - 5 <= s.date <= center + 5 && s.commission == turn && s.available && IsoWeekday(s.date) != 5;
      FreeDates(slots[..|slots| - 1], turn, center) + (if shown then [s.date] else [])
  }

  /** The representatives booked on day d, each with the date, in the
      ledger's order. */
  function BookedOn(bookings: seq<Booking>, d: int): (r: seq<(string, int)>)
    ensures forall x :: x in r <==> x.1 == d && exists k :: 0 <= k < |bookings| && bookings[k].date == d && bookings[k].representative == x.0
  {
    if bookings == [] then []
    else
      var b := bookings[|bookings| - 1];
      var front := bookings[..|bookings| - 1];
      assert forall k :: 0 <= k < |front| ==> front[k] == bookings[k];
      BookedOn(front, d) + (if b.date == d then [(b.representative, d)] else [])
  }

  /** The heads-up list (`representantes`): for each listed date in turn,
      the representatives already booked on it. */
  function Conflicts(bookings: seq<Booking>, dates: seq<int>): (r: seq<(string, int)>)
    ensures forall x :: x in r <==> x.1 in dates && exists k :: 0 <= k < |bookings| && bookings[k].date == x.1 && bookings[k].representative == x.0
  {
    if dates == [] then []
    else
      var d := dates[|dates| - 1];
      assert dates == dates[..|dates| - 1] + [d];
      Conflicts(bookings, dates[..|dates| - 1]) + BookedOn(bookings, d)
  }

  /** What the availability check reports for a chosen date. */
  datatype Window = Window(dates: seq<int>, conflicts: seq<(string, int)>, fridayWarning: bool)

  /** The availability check for the commission whose turn it is. The
      conflicts cover only the dates it lists, and the Friday warning is about
      the chosen date itself. */
  function CheckWindow(slots: seq<Slot>, bookings: seq<Booking>, turn: int, center: int): (w: Window)
    ensures forall d :: d in w.dates ==> center - 5 <= d <= center + 5 && IsoWeekday(d) != 5 && Slot(d, turn, true) in slots
    ensures forall d :: center - 5 <= d <= center + 5 && IsoWeekday(d) != 5 && Slot(d, turn, true) in slots ==> d in w.dates
    ensures forall x :: x in w.conflicts <==> x.1 in w.dates && exists k :: 0 <= k < |bookings| && bookings[k].date == x.1 && bookings[k].representative == x.0
    ensures forall k :: 0 <= k < |bookings| && bookings[k].date in w.dates ==> (bookings[k].representative, bookings[k].date) in w.conflicts
    ensures w.fridayWarning <==> IsoWeekday(center) == 5
  {
    var dates := FreeDates(slots, turn, center);
    Window(dates, Conflicts(bookings, dates), IsoWeekday(center) == 5)
  }

  /** The commission after the fourth slot of day d's page (ordered by
      insertion), 8 becoming 1. A page with fewer than four slots has none:
      the source redirects on an empty page and crashes on one of one to
      three slots. */
  function Permanencia(slots: seq<Slot>, d: int): Option<int> {
    var page := SlotsOn(slots, d);
    if |page| < 4 then None else Some(Next(page[3].commission))
  }

  /** On a generated day the permanencia is the commission that follows the
      day's four slots on the wheel: the one that opens the next generated
      day, or, after the last generated day, the one the next fill starts
      from. */
  lemma PermanenciaOfGeneratedDay(before: seq<Slot>, cursor: int, k: int, target: int, j: nat)
    requires forall i :: 0 <= i < |before| ==> before[i].date < cursor
    requires 4 * j < |Generate(cursor, k, target)|
    requires 1 <= k <= 7
    ensures var gen := Generate(cursor, k, target);
      var p := Permanencia(before + gen, gen[4 * j].date);
      && 4 * j + 4 <= |gen|
      && p == Some(Next(gen[4 * j + 3].commission))
      && 1 <= p.value <= 7
      && (4 * j + 4 < |gen| ==> p == Some(gen[4 * j + 4].commission))
  {
    var gen := Generate(cursor, k, target);
    GeneratedPages(before, cursor, k, target, j);
    GenerateChain(cursor, k, target);
    assert gen[4 * j..4 * j + 4][3] == gen[4 * j + 3];
  }
}
