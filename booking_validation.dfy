/**
 * Model of Frontend/utils/bookingValidation.ts: `checkBookingOverlap` decides whether a
 * candidate window [newStart, newEnd) conflicts with any booking already made.
 * Timestamps are integer milliseconds on one clock; the parsing of ISO strings into
 * `Date` values happens before this model.
 */
module BookingValidation {

  /** An existing booking: its start_time and end_time. */
  datatype Booking = Booking(startTime: int, endTime: int)

  /** A window whose start lies strictly before its end. */
  predicate NonEmpty(b: Booking) {
    b.startTime < b.endTime
  }

  /**
   * The three-clause test the source applies to each existing booking: the candidate
   * starts during it, ends during it, or encloses it.
   */
  predicate Conflicts(newStart: int, newEnd: int, b: Booking) {
    || (newStart >= b.startTime && newStart < b.endTime)
    || (newEnd > b.startTime && newEnd <= b.endTime)
    || (newStart <= b.startTime && newEnd >= b.endTime)
  }

  /** The usual half-open interval intersection test. */
  predicate Intersects(newStart: int, newEnd: int, b: Booking) {
    newStart < b.endTime && newEnd > b.startTime
  }

  /** `existingBookings.some(...)`: true iff some existing booking satisfies the three-clause test. */
  function CheckBookingOverlap(newStart: int, newEnd: int, existing: seq<Booking>): (r: bool)
    ensures r <==> exists i :: 0 <= i < |existing| && Conflicts(newStart, newEnd, existing[i])
  {
    if existing == [] then false
    else Conflicts(newStart, newEnd, existing[0]) || CheckBookingOverlap(newStart, newEnd, existing[1..])
  }

  /** With no existing bookings there is never a conflict. */
  lemma NoBookingsNoConflict(newStart: int, newEnd: int)
    ensures !CheckBookingOverlap(newStart, newEnd, [])
  {
  }

  /** For non-empty windows the three clauses amount to the two-inequality intersection test. */
  lemma ConflictsIffIntersects(newStart: int, newEnd: int, b: Booking)
    requires newStart < newEnd && NonEmpty(b)
    ensures Conflicts(newStart, newEnd, b) <==> Intersects(newStart, newEnd, b)
  {
  }

  /**
   * Without the non-emptiness assumption the two tests differ: an empty candidate placed at
   * the start of a booking, or an empty booking at the start of the candidate, is a
   * conflict for the three-clause test only.
   */
  lemma DegenerateWindowsDiffer()
    ensures Conflicts(3, 3, Booking(3, 10)) && !Intersects(3, 3, Booking(3, 10))
    ensures Conflicts(5, 8, Booking(5, 5)) && !Intersects(5, 8, Booking(5, 5))
  {
  }

  /** Over non-empty windows, the overlap check is "some existing booking intersects the candidate". */
  lemma {:induction false} OverlapIffSomeIntersects(newStart: int, newEnd: int, existing: seq<Booking>)
    requires newStart < newEnd
    requires forall i :: 0 <= i < |existing| ==> NonEmpty(existing[i])
    ensures CheckBookingOverlap(newStart, newEnd, existing) <==>
            exists i :: 0 <= i < |existing| && Intersects(newStart, newEnd, existing[i])
  {
    if exists i :: 0 <= i < |existing| && Conflicts(newStart, newEnd, existing[i]) {
      var i :| 0 <= i < |existing| && Conflicts(newStart, newEnd, existing[i]);
      ConflictsIffIntersects(newStart, newEnd, existing[i]);
    }
    if exists i :: 0 <= i < |existing| && Intersects(newStart, newEnd, existing[i]) {
      var i :| 0 <= i < |existing| && Intersects(newStart, newEnd, existing[i]);
      ConflictsIffIntersects(newStart, newEnd, existing[i]);
    }
  }

  /** A back-to-back booking (one window ends where the other starts) is not a conflict. */
  lemma BackToBackIsNoConflict(newStart: int, newEnd: int, b: Booking)
    requires newStart < newEnd && NonEmpty(b)
    requires newStart == b.endTime || newEnd == b.startTime
    ensures !CheckBookingOverlap(newStart, newEnd, [b])
  {
  }

  /** A candidate enclosing an existing booking always conflicts, whatever else is booked. */
  lemma {:induction false} ContainmentConflicts(newStart: int, newEnd: int, existing: seq<Booking>, i: int)
    requires 0 <= i < |existing|
    requires newStart <= existing[i].startTime && newEnd >= existing[i].endTime
    ensures CheckBookingOverlap(newStart, newEnd, existing)
  {
    assert Conflicts(newStart, newEnd, existing[i]);
  }

  /** For non-empty windows overlap is symmetric: candidate and existing booking may swap roles. */
  lemma OverlapSymmetric(a: Booking, b: Booking)
    requires NonEmpty(a) && NonEmpty(b)
    ensures CheckBookingOverlap(a.startTime, a.endTime, [b]) == CheckBookingOverlap(b.startTime, b.endTime, [a])
  {
    ConflictsIffIntersects(a.startTime, a.endTime, b);
    ConflictsIffIntersects(b.startTime, b.endTime, a);
  }

  /** The result depends only on which bookings there are, not on their order. */
  lemma {:induction false} OverlapOrderIndependent(newStart: int, newEnd: int, xs: seq<Booking>, ys: seq<Booking>)
    requires multiset(xs) == multiset(ys)
    ensures CheckBookingOverlap(newStart, newEnd, xs) == CheckBookingOverlap(newStart, newEnd, ys)
  {
    forall zs, ws | multiset(zs) == multiset(ws) && CheckBookingOverlap(newStart, newEnd, zs)
      ensures CheckBookingOverlap(newStart, newEnd, ws)
    {
      var i :| 0 <= i < |zs| && Conflicts(newStart, newEnd, zs[i]);
      assert zs[i] in multiset(ws);
      var j :| 0 <= j < |ws| && ws[j] == zs[i];
      assert Conflicts(newStart, newEnd, ws[j]);
    }
  }

  /** Booking one more window keeps every conflict, and adds exactly the new booking's own. */
  lemma {:induction false} OverlapAppend(newStart: int, newEnd: int, existing: seq<Booking>, b: Booking)
    ensures CheckBookingOverlap(newStart, newEnd, existing + [b]) ==
            (CheckBookingOverlap(newStart, newEnd, existing) || Conflicts(newStart, newEnd, b))
  {
    var xs := existing + [b];
    assert xs[|existing|] == b;
    if CheckBookingOverlap(newStart, newEnd, existing) {
      var i :| 0 <= i < |existing| && Conflicts(newStart, newEnd, existing[i]);
      assert xs[i] == existing[i];
    }
    if CheckBookingOverlap(newStart, newEnd, xs) {
      var i :| 0 <= i < |xs| && Conflicts(newStart, newEnd, xs[i]);
      if i < |existing| {
        assert xs[i] == existing[i];
      }
    }
  }
}
