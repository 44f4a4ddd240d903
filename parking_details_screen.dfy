/**
 * Model of the booking logic of Frontend/app/parking-details.tsx (the component
 * `ParkingDetailsScreen`), a second copy of the details screen. Its `validateTimeSelection`
 * is the same check chain, written with `Date` comparisons, and its `handleBooking` differs
 * only in the status of the row it inserts ("confirmed" instead of "completed"). The data
 * types, the bookings table and the conflict query are those of `ParkingDetails`.
 */
module ParkingDetailsScreen {
  import opened Options
  import PD = ParkingDetails

  /**
   * `validateTimeSelection` of this screen; comparing `Date` objects with `<`, `>` and `<=`
   * compares their timestamps, so it decides exactly as the other screen does.
   */
  function ValidateTimeSelection(startTime: int, endTime: int, availabilityStart: int, availabilityEnd: int,
                                 spaceId: string, rows: seq<PD.BookingRow>, queryFails: bool): (v: PD.Verdict)
    ensures v == PD.ValidateTimeSelection(startTime, endTime, availabilityStart, availabilityEnd, spaceId, rows, queryFails)
  {
    if startTime < availabilityStart || endTime > availabilityEnd then PD.OutsideAvailability
    else if endTime <= startTime then PD.EndNotAfterStart
    else if queryFails then PD.QueryFailed
    else if |PD.ConflictQuery(rows, spaceId, startTime, endTime)| > 0 then PD.Conflict
    else PD.Accepted
  }

  /** The state of this details screen that booking touches. */
  class Screen {
    const spaceId: string
    const availabilityStart: int
    const availabilityEnd: int
    const table: PD.BookingsTable
    var startTime: int
    var endTime: int
    var loading: bool
    var events: seq<PD.Event>

    constructor (spaceId: string, availabilityStart: int, availabilityEnd: int, table: PD.BookingsTable, now: int)
      ensures this.spaceId == spaceId && this.table == table
      ensures this.availabilityStart == availabilityStart && this.availabilityEnd == availabilityEnd
      ensures startTime == now && endTime == now && !loading && events == []
    {
      this.spaceId := spaceId;
      this.availabilityStart := availabilityStart;
      this.availabilityEnd := availabilityEnd;
      this.table := table;
      startTime, endTime := now, now;
      loading := false;
      events := [];
    }

    function Validation(queryFails: bool): PD.Verdict
      reads this, table
    {
      ValidateTimeSelection(startTime, endTime, availabilityStart, availabilityEnd, spaceId, table.rows, queryFails)
    }

    /**
     * The row this screen's `handleBooking` inserts: its status is "confirmed", and the
     * conflict query for the same selection finds it again.
     */
    function NewRow(session: PD.Session): (r: PD.BookingRow)
      reads this
      ensures r.userId == session.userId && r.status == "confirmed"
      ensures startTime <= endTime ==> PD.QueryMatches(r, spaceId, startTime, endTime)
    {
      PD.BookingRow(session.userId, spaceId, startTime, endTime, "confirmed")
    }

    /**
     * `handleBooking`: without a session only an alert; otherwise `loading` is on while the
     * selection is validated and, if accepted, inserted, and off again on every path.
     */
    method HandleBooking(session: Option<PD.Session>, queryFails: bool, insertFails: bool)
      modifies this`loading, this`events, table`rows
      ensures session.None? ==>
                && loading == old(loading)
                && events == old(events) + [PD.ShowAlert(PD.LoginRequiredAlert)]
                && table.rows == old(table.rows)
      ensures session.Some? ==> !loading
      ensures session.Some? && old(Validation(queryFails)) != PD.Accepted ==>
                && events == old(events) + [PD.SetLoading(true)] + PD.RefusalAlerts(old(Validation(queryFails)))
                                         + [PD.SetLoading(false), PD.SetLoading(false)]
                && table.rows == old(table.rows)
      ensures session.Some? && old(Validation(queryFails)) == PD.Accepted && insertFails ==>
                && events == old(events) + [PD.SetLoading(true), PD.ShowAlert(PD.BookingFailedAlert), PD.SetLoading(false)]
                && table.rows == old(table.rows)
      ensures session.Some? && old(Validation(queryFails)) == PD.Accepted && !insertFails ==>
                && events == old(events) + [PD.SetLoading(true), PD.ShowAlert(PD.BookingSucceededAlert), PD.SetLoading(false)]
                && table.rows == old(table.rows) + [NewRow(session.value)]
      ensures table.rows != old(table.rows) ==> session.Some? && old(Validation(queryFails)) == PD.Accepted
      ensures old(PD.WellFormed(table.rows)) ==> PD.WellFormed(table.rows)
    {
      if session.None? {
        events := events + [PD.ShowAlert(PD.LoginRequiredAlert)];
        return;
      }
      loading := true;
      events := events + [PD.SetLoading(true)];
      var isValid := ValidateTimeSelection(startTime, endTime, availabilityStart, availabilityEnd,
                                           spaceId, table.rows, queryFails);
      if isValid != PD.Accepted {
        events := events + PD.RefusalAlerts(isValid);
        loading := false;
        events := events + [PD.SetLoading(false)];
      } else {
        var ok := table.Insert(NewRow(session.value), insertFails);
        if ok {
          events := events + [PD.ShowAlert(PD.BookingSucceededAlert)];
        } else {
          events := events + [PD.ShowAlert(PD.BookingFailedAlert)];
        }
      }
      // finally
      loading := false;
      events := events + [PD.SetLoading(false)];
    }
  }

  /**
   * Two screens showing the same space and selection insert rows that differ only in their
   * status: "completed" from ParkingDetails, "confirmed" from this screen.
   */
  lemma InsertedStatusesDiffer(a: PD.Screen, b: Screen, session: PD.Session)
    requires a.spaceId == b.spaceId && a.startTime == b.startTime && a.endTime == b.endTime
    ensures a.NewRow(session) == b.NewRow(session).(status := "completed")
    ensures a.NewRow(session) != b.NewRow(session)
  {
  }
}
