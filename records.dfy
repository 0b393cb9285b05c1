/** The stored records of the docket and the lookups the handlers make on them.

    A ledger is a sequence in insertion order, so the index of a record plays
    the part of its surrogate `id`; a query's `.first()` is the earliest
    inserted match. */
module Records {

  datatype Option<T> = None | Some(value: T)

  /** One bookable docket position (an `Agenda` row): its date, its
      commission (1..7) and whether it is still free (`disponible`). */
  datatype Slot = Slot(date: int, commission: int, available: bool)

  /** One case booked onto a slot (an `Apuntes` row): `dia`, `comision`,
      `juzgado`, `representante` and the case reference `procedimiento`. */
  datatype Booking = Booking(date: int, commission: int, court: string, representative: string, caseRef: string)

  /** The court choice that means "no court selected" in the booking forms. */
  const UnselectedCourt: string := "juzgado"

  predicate SlotIs(s: Slot, d: int, c: int) {
    s.date == d && s.commission == c
  }

  ghost predicate HasSlot(slots: seq<Slot>, d: int, c: int) {
    exists i :: 0 <= i < |slots| && SlotIs(slots[i], d, c)
  }

  /** The earliest slot for (d, c), free or not: `Agenda.query.filter(comision, fecha).first()`. */
  function FirstSlot(slots: seq<Slot>, d: int, c: int): (r: Option<nat>)
    ensures r.None? <==> !HasSlot(slots, d, c)
    ensures r.Some? ==> r.value < |slots| && SlotIs(slots[r.value], d, c)
    ensures r.Some? ==> forall i :: 0 <= i < r.value ==> !SlotIs(slots[i], d, c)
  {
    if slots == [] then None
    else
      match FirstSlot(slots[..|slots| - 1], d, c)
      case Some(i) => Some(i)
      case None => if SlotIs(slots[|slots| - 1], d, c) then Some(|slots| - 1) else None
  }

  /** The slot at index i with its availability flag set to v; nothing else changes. */
  function SetAvailable(slots: seq<Slot>, i: nat, v: bool): seq<Slot>
    requires i < |slots|
  {
    slots[i := slots[i].(available := v)]
  }

  /** The commissions still free on day d, in insertion order (the list
      `disponibles` the booking handler builds). */
  function AvailableOn(slots: seq<Slot>, d: int): (r: seq<int>)
    ensures forall c :: c in r <==> Slot(d, c, true) in slots
    ensures |r| <= |slots|
  {
    if slots == [] then []
    else
      var last := slots[|slots| - 1];
      assert slots == slots[..|slots| - 1] + [last];
      AvailableOn(slots[..|slots| - 1], d) + (if last.date == d && last.available then [last.commission] else [])
  }

  /** All slots of day d in insertion order (one page of the docket). */
  function SlotsOn(slots: seq<Slot>, d: int): (r: seq<Slot>)
    ensures |r| <= |slots|
  {
    if slots == [] then []
    else
      var last := slots[|slots| - 1];
      assert slots == slots[..|slots| - 1] + [last];
      SlotsOn(slots[..|slots| - 1], d) + (if last.date == d then [last] else [])
  }

  /** The page of day d holds exactly the slots of the ledger dated d. */
  lemma {:induction false} SlotsOnMembers(slots: seq<Slot>, d: int)
    ensures forall s :: s in SlotsOn(slots, d) <==> s in slots && s.date == d
  {
    if slots != [] {
      var last := slots[|slots| - 1];
      assert slots == slots[..|slots| - 1] + [last];
      SlotsOnMembers(slots[..|slots| - 1], d);
    }
  }

  /** Taking the page of a day distributes over concatenated ledgers. */
  lemma {:induction false} SlotsOnAppend(a: seq<Slot>, b: seq<Slot>, d: int)
    ensures SlotsOn(a + b, d) == SlotsOn(a, d) + SlotsOn(b, d)
  {
    if b != [] {
      var b' := b[..|b| - 1];
      assert (a + b)[..|a + b| - 1] == a + b';
      SlotsOnAppend(a, b', d);
    } else {
      assert a + b == a;
    }
  }

  /** A ledger none of whose slots falls on day d has an empty page for d. */
  lemma {:induction false} SlotsOnNone(a: seq<Slot>, d: int)
    requires forall i :: 0 <= i < |a| ==> a[i].date != d
    ensures SlotsOn(a, d) == []
  {
    if a != [] {
      SlotsOnNone(a[..|a| - 1], d);
    }
  }

  /** A ledger all of whose slots fall on day d is its own page for d. */
  lemma {:induction false} SlotsOnAll(a: seq<Slot>, d: int)
    requires forall i :: 0 <= i < |a| ==> a[i].date == d
    ensures SlotsOn(a, d) == a
  {
    if a != [] {
      SlotsOnAll(a[..|a| - 1], d);
    }
  }

  predicate BookingIs(b: Booking, d: int, c: int) {
    b.date == d && b.commission == c
  }

  ghost predicate IsBooked(bookings: seq<Booking>, d: int, c: int) {
    exists k :: 0 <= k < |bookings| && BookingIs(bookings[k], d, c)
  }

  /** The earliest booking for (d, c): `Apuntes.query.filter(dia, comision).first()`. */
  function FirstBooking(bookings: seq<Booking>, d: int, c: int): (r: Option<nat>)
    ensures r.None? <==> !IsBooked(bookings, d, c)
    ensures r.Some? ==> r.value < |bookings| && BookingIs(bookings[r.value], d, c)
    ensures r.Some? ==> forall k :: 0 <= k < r.value ==> !BookingIs(bookings[k], d, c)
  {
    if bookings == [] then None
    else
      match FirstBooking(bookings[..|bookings| - 1], d, c)
      case Some(k) => Some(k)
      case None => if BookingIs(bookings[|bookings| - 1], d, c) then Some(|bookings| - 1) else None
  }

  /** The earliest booking for day d with case reference ref:
      `Apuntes.query.where(dia, procedimiento).first()`. */
  function FirstBookingByRef(bookings: seq<Booking>, d: int, ref: string): (r: Option<nat>)
    ensures r.None? <==> forall k :: 0 <= k < |bookings| ==> !(bookings[k].date == d && bookings[k].caseRef == ref)
    ensures r.Some? ==> r.value < |bookings| && bookings[r.value].date == d && bookings[r.value].caseRef == ref
    ensures r.Some? ==> forall k :: 0 <= k < r.value ==> !(bookings[k].date == d && bookings[k].caseRef == ref)
  {
    if bookings == [] then None
    else
      var last := bookings[|bookings| - 1];
      match FirstBookingByRef(bookings[..|bookings| - 1], d, ref)
      case Some(k) => Some(k)
      case None => if last.date == d && last.caseRef == ref then Some(|bookings| - 1) else None
  }

  /** The ledger without the record at index k, the others in their order. */
  function RemoveAt<T>(s: seq<T>, k: nat): (r: seq<T>)
    requires k < |s|
    ensures |r| == |s| - 1
    ensures forall i :: 0 <= i < k ==> r[i] == s[i]
    ensures forall i :: k <= i < |r| ==> r[i] == s[i + 1]
  {
    s[..k] + s[k + 1..]
  }

  lemma Associative<T>(a: seq<T>, b: seq<T>, c: seq<T>)
    ensures (a + b) + c == a + (b + c)
  {
  }
}
