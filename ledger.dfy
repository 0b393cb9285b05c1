/** What the stored docket keeps true between requests, and why every
    handler keeps it. The facts are stated over the ledgers as values; the
    class in module Docket applies them to its fields. */
module Ledger {
  import opened Records
  import opened Turn
  import opened Generator

  /** The slot ledger: every commission is a real one (1..7), the ledger
      runs in date order (so the last inserted slot also has the latest
      date), and no (date, commission) pair occurs twice. */
  ghost predicate WellFormed(slots: seq<Slot>) {
    && (forall i :: 0 <= i < |slots| ==> 1 <= slots[i].commission <= 7)
    && (forall i, j :: 0 <= i < j < |slots| ==> slots[i].date <= slots[j].date)
    && (forall i, j :: 0 <= i < j < |slots| ==> !SlotIs(slots[j], slots[i].date, slots[i].commission))
  }

  /** The slot flags and the bookings agree: a slot is taken exactly when a
      booking holds its (date, commission), every booking holds a slot, and
      no two bookings hold the same one. */
  ghost predicate Consistent(slots: seq<Slot>, bookings: seq<Booking>) {
    && (forall i :: 0 <= i < |slots| ==> (slots[i].available <==> !IsBooked(bookings, slots[i].date, slots[i].commission)))
    && (forall k :: 0 <= k < |bookings| ==> HasSlot(slots, bookings[k].date, bookings[k].commission))
    && (forall k, l :: 0 <= k < l < |bookings| ==> !BookingIs(bookings[l], bookings[k].date, bookings[k].commission))
  }

  /** Two ledgers that differ only in availability flags. */
  ghost predicate SameKeys(a: seq<Slot>, b: seq<Slot>) {
    |a| == |b| && forall i :: 0 <= i < |a| ==> a[i].date == b[i].date && a[i].commission == b[i].commission
  }

  // ---------------------------------------------------------------------
  // Helpers
  // ---------------------------------------------------------------------

  /** In a well-formed ledger a (date, commission) pair picks out one slot. */
  lemma UniqueIndex(slots: seq<Slot>, i: nat, j: nat)
    requires WellFormed(slots) && i < |slots| && j < |slots|
    requires SlotIs(slots[j], slots[i].date, slots[i].commission)
    ensures i == j
  {
  }

  /** Two different slots of a well-formed ledger differ in date or commission. */
  lemma DistinctKeys(slots: seq<Slot>, i: nat, j: nat)
    requires WellFormed(slots) && i < |slots| && j < |slots| && i != j
    ensures !SlotIs(slots[j], slots[i].date, slots[i].commission)
  {
  }

  /** The free slot for (d, c) is the one the first-match lookup finds. */
  lemma FreeSlotIsFirst(slots: seq<Slot>, d: int, c: int) returns (i: nat)
    requires WellFormed(slots) && Slot(d, c, true) in slots
    ensures FirstSlot(slots, d, c) == Some(i) && slots[i] == Slot(d, c, true)
  {
    var j :| 0 <= j < |slots| && slots[j] == Slot(d, c, true);
    i := FirstSlot(slots, d, c).value;
    UniqueIndex(slots, j, i);
  }

  lemma SetAvailableKeys(slots: seq<Slot>, i: nat, v: bool)
    requires i < |slots|
    ensures SameKeys(slots, SetAvailable(slots, i, v))
  {
  }

  /** Changing flags only keeps a ledger well formed and keeps its slots findable. */
  lemma SameKeysKeep(a: seq<Slot>, b: seq<Slot>)
    requires SameKeys(a, b)
    ensures WellFormed(a) ==> WellFormed(b)
    ensures forall d, c :: HasSlot(a, d, c) ==> HasSlot(b, d, c)
  {
    forall d, c | HasSlot(a, d, c)
      ensures HasSlot(b, d, c)
    {
      var i :| 0 <= i < |a| && SlotIs(a[i], d, c);
      assert SlotIs(b[i], d, c);
    }
  }

  lemma IsBookedAppend(bookings: seq<Booking>, b: Booking)
    ensures forall d, c :: IsBooked(bookings + [b], d, c) <==> IsBooked(bookings, d, c) || BookingIs(b, d, c)
  {
    var bs := bookings + [b];
    forall d, c | IsBooked(bookings, d, c)
      ensures IsBooked(bs, d, c)
    {
      var k :| 0 <= k < |bookings| && BookingIs(bookings[k], d, c);
      assert bs[k] == bookings[k];
    }
    forall d, c | BookingIs(b, d, c)
      ensures IsBooked(bs, d, c)
    {
      assert bs[|bookings|] == b;
    }
    forall d, c | IsBooked(bs, d, c) && !BookingIs(b, d, c)
      ensures IsBooked(bookings, d, c)
    {
      var k :| 0 <= k < |bs| && BookingIs(bs[k], d, c);
      assert k < |bookings| && bs[k] == bookings[k];
    }
  }

  /** With unique booking keys, removing booking k frees exactly its key. */
  lemma IsBookedRemove(bookings: seq<Booking>, k: nat)
    requires k < |bookings|
    requires forall x, y :: 0 <= x < y < |bookings| ==> !BookingIs(bookings[y], bookings[x].date, bookings[x].commission)
    ensures forall d, c :: IsBooked(RemoveAt(bookings, k), d, c) <==> IsBooked(bookings, d, c) && !BookingIs(bookings[k], d, c)
  {
    var rest := RemoveAt(bookings, k);
    forall d, c | IsBooked(rest, d, c)
      ensures IsBooked(bookings, d, c) && !BookingIs(bookings[k], d, c)
    {
      var x :| 0 <= x < |rest| && BookingIs(rest[x], d, c);
      var y := if x < k then x else x + 1;
      assert rest[x] == bookings[y] && y != k;
      if y < k {
        assert !BookingIs(bookings[k], bookings[y].date, bookings[y].commission);
      } else {
        assert !BookingIs(bookings[y], bookings[k].date, bookings[k].commission);
      }
    }
    forall d, c | IsBooked(bookings, d, c) && !BookingIs(bookings[k], d, c)
      ensures IsBooked(rest, d, c)
    {
      var y :| 0 <= y < |bookings| && BookingIs(bookings[y], d, c);
      var x := if y < k then y else y - 1;
      assert rest[x] == bookings[y];
    }
  }

  /** Removing a booking keeps the remaining keys unique. */
  lemma RemoveKeepsUnique(bookings: seq<Booking>, k: nat)
    requires k < |bookings|
    requires forall x, y :: 0 <= x < y < |bookings| ==> !BookingIs(bookings[y], bookings[x].date, bookings[x].commission)
    ensures var rest := RemoveAt(bookings, k);
      forall x, y :: 0 <= x < y < |rest| ==> !BookingIs(rest[y], rest[x].date, rest[x].commission)
  {
    var rest := RemoveAt(bookings, k);
    forall x, y | 0 <= x < y < |rest|
      ensures !BookingIs(rest[y], rest[x].date, rest[x].commission)
    {
      var x' := if x < k then x else x + 1;
      var y' := if y < k then y else y + 1;
      assert rest[x] == bookings[x'] && rest[y] == bookings[y'] && x' < y';
    }
  }

  // ---------------------------------------------------------------------
  // Booking
  // ---------------------------------------------------------------------

  /** Booking a free slot takes exactly that slot, keeps the docket
      consistent and never double-books: afterwards no free slot for the
      pair remains. */
  lemma BookKeeps(slots: seq<Slot>, bookings: seq<Booking>, b: Booking)
    requires WellFormed(slots) && Consistent(slots, bookings)
    requires Slot(b.date, b.commission, true) in slots
    ensures FirstSlot(slots, b.date, b.commission).Some?
    ensures var s := SetAvailable(slots, FirstSlot(slots, b.date, b.commission).value, false);
      && WellFormed(s)
      && Consistent(s, bookings + [b])
      && Slot(b.date, b.commission, false) in s
      && Slot(b.date, b.commission, true) !in s
      && 1 <= b.commission <= 7
  {
    var i := FreeSlotIsFirst(slots, b.date, b.commission);
    var s := SetAvailable(slots, i, false);
    var bs := bookings + [b];
    SetAvailableKeys(slots, i, false);
    SameKeysKeep(slots, s);
    IsBookedAppend(bookings, b);
    assert !IsBooked(bookings, b.date, b.commission);
    forall j | 0 <= j < |s|
      ensures s[j].available <==> !IsBooked(bs, s[j].date, s[j].commission)
    {
      if j != i {
        DistinctKeys(slots, i, j);
      }
    }
    forall k | 0 <= k < |bs|
      ensures HasSlot(s, bs[k].date, bs[k].commission)
    {
      if k == |bookings| {
        assert SlotIs(s[i], b.date, b.commission);
      } else {
        assert bs[k] == bookings[k];
      }
    }
    forall k, l | 0 <= k < l < |bs|
      ensures !BookingIs(bs[l], bs[k].date, bs[k].commission)
    {
      assert bs[k] == bookings[k];
      if l == |bookings| {
        assert BookingIs(bookings[k], b.date, b.commission) ==> IsBooked(bookings, b.date, b.commission);
      } else {
        assert bs[l] == bookings[l];
      }
    }
    assert s[i] == Slot(b.date, b.commission, false);
    forall j | 0 <= j < |s|
      ensures s[j] != Slot(b.date, b.commission, true)
    {
      if j != i {
        DistinctKeys(slots, i, j);
      }
    }
  }

  // ---------------------------------------------------------------------
  // Cancelling
  // ---------------------------------------------------------------------

  /** Cancelling booking k frees its slot, leaves no booking on that slot and
      keeps the docket consistent. */
  lemma CancelKeeps(slots: seq<Slot>, bookings: seq<Booking>, k: nat)
    requires WellFormed(slots) && Consistent(slots, bookings)
    requires k < |bookings|
    ensures FirstSlot(slots, bookings[k].date, bookings[k].commission).Some?
    ensures var b := bookings[k];
      var s := SetAvailable(slots, FirstSlot(slots, b.date, b.commission).value, true);
      var rest := RemoveAt(bookings, k);
      && WellFormed(s)
      && Consistent(s, rest)
      && Slot(b.date, b.commission, true) in s
      && !IsBooked(rest, b.date, b.commission)
  {
    var b := bookings[k];
    assert HasSlot(slots, b.date, b.commission);
    var i := FirstSlot(slots, b.date, b.commission).value;
    var s := SetAvailable(slots, i, true);
    var rest := RemoveAt(bookings, k);
    SetAvailableKeys(slots, i, true);
    SameKeysKeep(slots, s);
    IsBookedRemove(bookings, k);
    RemoveKeepsUnique(bookings, k);
    forall j | 0 <= j < |s|
      ensures s[j].available <==> !IsBooked(rest, s[j].date, s[j].commission)
    {
      if j != i {
        DistinctKeys(slots, i, j);
      }
    }
    forall x | 0 <= x < |rest|
      ensures HasSlot(s, rest[x].date, rest[x].commission)
    {
      var y := if x < k then x else x + 1;
      assert rest[x] == bookings[y];
    }
    assert s[i] == Slot(b.date, b.commission, true);
  }

  // ---------------------------------------------------------------------
  // Amending
  // ---------------------------------------------------------------------

  /** Replacing a booking by one with the same (date, commission) keeps the
      docket consistent. */
  lemma ReplaceKeeps(slots: seq<Slot>, bookings: seq<Booking>, k: nat, b: Booking)
    requires Consistent(slots, bookings)
    requires k < |bookings| && BookingIs(b, bookings[k].date, bookings[k].commission)
    ensures Consistent(slots, bookings[k := b])
  {
    var bs := bookings[k := b];
    forall d, c
      ensures IsBooked(bs, d, c) <==> IsBooked(bookings, d, c)
    {
      if IsBooked(bs, d, c) {
        var x :| 0 <= x < |bs| && BookingIs(bs[x], d, c);
        assert BookingIs(bookings[x], d, c);
      }
      if IsBooked(bookings, d, c) {
        var x :| 0 <= x < |bookings| && BookingIs(bookings[x], d, c);
        assert BookingIs(bs[x], d, c);
      }
    }
    forall x | 0 <= x < |bs|
      ensures HasSlot(slots, bs[x].date, bs[x].commission)
    {
      assert BookingIs(bookings[x], bs[x].date, bs[x].commission);
    }
  }

  // ---------------------------------------------------------------------
  // Filling
  // ---------------------------------------------------------------------

  /** Slots dated after every existing slot keep the ledger well formed
      when they are well formed themselves. */
  lemma AppendLaterWellFormed(slots: seq<Slot>, gen: seq<Slot>, lo: int)
    requires WellFormed(slots) && WellFormed(gen)
    requires forall i :: 0 <= i < |slots| ==> slots[i].date < lo
    requires forall j :: 0 <= j < |gen| ==> lo <= gen[j].date
    ensures WellFormed(slots + gen)
  {
    var all := slots + gen;
    forall i | 0 <= i < |all|
      ensures 1 <= all[i].commission <= 7
    {
      if i >= |slots| {
        assert all[i] == gen[i - |slots|];
      }
    }
    forall i, j | 0 <= i < j < |all|
      ensures all[i].date <= all[j].date && !SlotIs(all[j], all[i].date, all[i].commission)
    {
      if j < |slots| {
        assert all[i] == slots[i] && all[j] == slots[j];
      } else if i < |slots| {
        assert all[i] == slots[i] && all[j] == gen[j - |slots|];
      } else {
        assert all[i] == gen[i - |slots|] && all[j] == gen[j - |slots|];
      }
    }
  }

  /** Free slots dated after every existing slot keep the docket consistent
      with the unchanged bookings: no booking can hold them. */
  lemma AppendLaterConsistent(slots: seq<Slot>, bookings: seq<Booking>, gen: seq<Slot>, lo: int)
    requires Consistent(slots, bookings)
    requires forall i :: 0 <= i < |slots| ==> slots[i].date < lo
    requires forall j :: 0 <= j < |gen| ==> lo <= gen[j].date && gen[j].available
    ensures Consistent(slots + gen, bookings)
  {
    var all := slots + gen;
    forall i | 0 <= i < |all|
      ensures all[i].available <==> !IsBooked(bookings, all[i].date, all[i].commission)
    {
      if i < |slots| {
        assert all[i] == slots[i];
      } else {
        assert all[i] == gen[i - |slots|];
        forall x | 0 <= x < |bookings|
          ensures !BookingIs(bookings[x], all[i].date, all[i].commission)
        {
          assert HasSlot(slots, bookings[x].date, bookings[x].commission);
        }
      }
    }
    forall x | 0 <= x < |bookings|
      ensures HasSlot(all, bookings[x].date, bookings[x].commission)
    {
      var y :| 0 <= y < |slots| && SlotIs(slots[y], bookings[x].date, bookings[x].commission);
      assert all[y] == slots[y];
    }
  }

  /** A generated run with a real starting commission is well formed. */
  lemma GeneratedWellFormed(cursor: int, k: int, target: int)
    requires 1 <= k <= 7
    ensures WellFormed(Generate(cursor, k, target))
  {
    GenerateSorted(cursor, k, target);
    GenerateChain(cursor, k, target);
    GenerateUnique(cursor, k, target);
  }

  /** A fill appends free, well-formed slots dated after every existing slot,
      so the extended ledger stays well formed and consistent with the
      unchanged bookings. */
  lemma FillKeeps(slots: seq<Slot>, bookings: seq<Booking>, target: int)
    requires WellFormed(slots) && Consistent(slots, bookings)
    requires Fill(slots, target).Filled?
    ensures WellFormed(slots + Fill(slots, target).added)
    ensures Consistent(slots + Fill(slots, target).added, bookings)
  {
    var last := slots[|slots| - 1];
    var cursor := last.date + 1;
    var k := Next(last.commission);
    var gen := Generate(cursor, k, target);
    GenerateFrom(cursor, k, target);
    GeneratedWellFormed(cursor, k, target);
    assert forall i :: 0 <= i < |slots| ==> slots[i].date <= last.date;
    AppendLaterWellFormed(slots, gen, cursor);
    AppendLaterConsistent(slots, bookings, gen, cursor);
  }

  /** In a well-formed ledger the last inserted slot has the latest date, so
      continuing from it and continuing from the greatest date agree. */
  lemma LastIsLatest(slots: seq<Slot>)
    requires WellFormed(slots) && slots != []
    ensures forall i :: 0 <= i < |slots| ==> slots[i].date <= slots[|slots| - 1].date
  {
  }

  // ---------------------------------------------------------------------
  // Booking then cancelling
  // ---------------------------------------------------------------------

  /** Cancelling, by its case reference, a booking just made on a free slot
      finds that booking and that slot again and restores both ledgers, when
      no earlier booking on that date carries the same reference. */
  lemma BookThenCancel(slots: seq<Slot>, bookings: seq<Booking>, b: Booking)
    requires WellFormed(slots) && Consistent(slots, bookings)
    requires Slot(b.date, b.commission, true) in slots
    requires forall k :: 0 <= k < |bookings| ==> !(bookings[k].date == b.date && bookings[k].caseRef == b.caseRef)
    ensures var i := FirstSlot(slots, b.date, b.commission);
      var s := SetAvailable(slots, i.value, false);
      var bs := bookings + [b];
      && i.Some?
      && FirstBookingByRef(bs, b.date, b.caseRef) == Some(|bookings|)
      && FirstSlot(s, b.date, b.commission) == i
      && SetAvailable(s, i.value, true) == slots
      && RemoveAt(bs, |bookings|) == bookings
  {
    var i := FreeSlotIsFirst(slots, b.date, b.commission);
    var s := SetAvailable(slots, i, false);
    var bs := bookings + [b];
    assert bs[|bookings|] == b;
    assert forall k :: 0 <= k < |bookings| ==> bs[k] == bookings[k];
    SetAvailableKeys(slots, i, false);
    assert SlotIs(s[i], b.date, b.commission);
    var i' := FirstSlot(s, b.date, b.commission).value;
    assert SlotIs(slots[i'], b.date, b.commission);
    UniqueIndex(slots, i, i');
    assert SetAvailable(s, i, true) == slots;
    assert RemoveAt(bs, |bookings|) == bs[..|bookings|];
  }
}
