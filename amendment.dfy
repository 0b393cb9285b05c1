/** The field edits of the amend handler (`modificar`): each field has a
    "change it" flag and a new value, and two of the fields ignore a
    placeholder value. */
module Amendment {
  import opened Records

  datatype Edit = Edit(
    editRef: bool, caseRef: string,
    editCourt: bool, court: string,
    editRepresentative: bool, representative: string)

  /** The new court is applied only when it is a real court (not the
      placeholder choice). */
  predicate CourtApplies(e: Edit) {
    e.editCourt && e.court != UnselectedCourt
  }

  /** The new representative is applied only when it is non-empty. */
  predicate RepresentativeApplies(e: Edit) {
    e.editRepresentative && e.representative != ""
  }

  /** Whether the edit touches any field at all. When no booking matches,
      the source fails on the first field it tries to set, so this also
      says whether an amend with no booking fails. */
  predicate Effective(e: Edit) {
    e.editRef || CourtApplies(e) || RepresentativeApplies(e)
  }

  /** The booking with the edit applied. */
  function Amended(b: Booking, e: Edit): (r: Booking)
    ensures BookingIs(r, b.date, b.commission)
  {
    b.(caseRef := if e.editRef then e.caseRef else b.caseRef,
       court := if CourtApplies(e) then e.court else b.court,
       representative := if RepresentativeApplies(e) then e.representative else b.representative)
  }

  /** An edit that applies no field leaves the booking as it was, so
      choosing the placeholder court or an empty representative never
      erases the stored value. */
  lemma IneffectiveIsIdentity(b: Booking, e: Edit)
    requires !Effective(e)
    ensures Amended(b, e) == b
  {
  }

  /** Each field is either the new value, when its edit applies, or the old
      one; an edit of one field leaves the other two alone. */
  lemma AmendedFields(b: Booking, e: Edit)
    ensures var r := Amended(b, e);
      && (r.caseRef == e.caseRef || (!e.editRef && r.caseRef == b.caseRef))
      && ((r.court == e.court && e.court != UnselectedCourt) || (!CourtApplies(e) && r.court == b.court))
      && ((r.representative == e.representative && e.representative != "") || (!RepresentativeApplies(e) && r.representative == b.representative))
      && (r.court != b.court ==> CourtApplies(e))
      && (r.representative != b.representative ==> RepresentativeApplies(e))
      && (r.caseRef != b.caseRef ==> e.editRef)
  {
  }
}
