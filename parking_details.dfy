/**
 * Model of the booking logic of Frontend/app/ParkingDetails.tsx: `validateTimeSelection`,
 * a chain of early-return checks on the selected window, and `handleBooking`, which
 * toggles the screen's `loading` flag around that validation and the insert of the booking.
 *
 * The backend's bookings table is a `BookingsTable` object; the conflict query over it is
 * the predicate `QueryMatches`. Whether the query or the insert fails is an input.
 */
module ParkingDetails {
  import opened Options
  import BookingValidation

  /** The columns of a row of the bookings table that the screen reads or writes. */
  datatype BookingRow = BookingRow(userId: string, spaceId: string, startTime: int, endTime: int, status: string)

  /** A logged-in session. */
  datatype Session = Session(userId: string)

  /** The outcome of `validateTimeSelection`; the source returns `true` exactly for `Accepted`. */
  datatype Verdict = Accepted | OutsideAvailability | EndNotAfterStart | QueryFailed | Conflict

  /** The alerts the screen shows while booking. */
  datatype Alert =
    | LoginRequiredAlert
    | AvailabilityAlert
    | EndBeforeStartAlert
    | ConflictAlert
    | BookingSucceededAlert
    | BookingFailedAlert

  /** What the screen does that the user can observe: a `setLoading` call or an alert. */
  datatype Event = SetLoading(on: bool) | ShowAlert(alert: Alert)

  /**
   * The filter of the conflict query: `.eq("space_id", id).gte("end_time", start)
   * .lte("start_time", end)`; it treats both windows as closed intervals.
   */
  predicate QueryMatches(row: BookingRow, spaceId: string, startTime: int, endTime: int) {
    row.spaceId == spaceId && row.endTime >= startTime && row.startTime <= endTime
  }

  /** The rows the conflict query returns, in table order. */
  function ConflictQuery(rows: seq<BookingRow>, spaceId: string, startTime: int, endTime: int): (r: seq<BookingRow>)
    ensures forall x :: x in r <==> x in rows && QueryMatches(x, spaceId, startTime, endTime)
    ensures |r| <= |rows|
  {
    if rows == [] then []
    else
      var rest := ConflictQuery(rows[1..], spaceId, startTime, endTime);
      assert forall x :: x in rows <==> x == rows[0] || x in rows[1..];
      if QueryMatches(rows[0], spaceId, startTime, endTime) then [rows[0]] + rest else rest
  }

  /**
   * `validateTimeSelection`: the window must lie inside the availability window (both ends
   * inclusive), must end after it starts, and the conflict query must succeed and return no row.
   */
  function ValidateTimeSelection(startTime: int, endTime: int, availabilityStart: int, availabilityEnd: int,
                                 spaceId: string, rows: seq<BookingRow>, queryFails: bool): (v: Verdict)
    ensures v == Accepted <==>
            && availabilityStart <= startTime && endTime <= availabilityEnd
            && startTime < endTime
            && !queryFails
            && forall x :: x in rows ==> !QueryMatches(x, spaceId, startTime, endTime)
    ensures v == Conflict <==>
            && availabilityStart <= startTime && endTime <= availabilityEnd
            && startTime < endTime
            && !queryFails
            && exists x :: x in rows && QueryMatches(x, spaceId, startTime, endTime)
  {
    if startTime < availabilityStart || endTime > availabilityEnd then OutsideAvailability
    else if endTime <= startTime then EndNotAfterStart
    else if queryFails then QueryFailed
    else
      var existingBookings := ConflictQuery(rows, spaceId, startTime, endTime);
      if |existingBookings| > 0 then
        assert existingBookings[0] in existingBookings;
        Conflict
      else Accepted
  }

  /** The availability check comes first: a window outside it is refused whatever else holds. */
  lemma AvailabilityCheckedFirst(startTime: int, endTime: int, availabilityStart: int, availabilityEnd: int,
                                 spaceId: string, rows: seq<BookingRow>, queryFails: bool)
    requires startTime < availabilityStart || endTime > availabilityEnd
    ensures ValidateTimeSelection(startTime, endTime, availabilityStart, availabilityEnd, spaceId, rows, queryFails)
            == OutsideAvailability
  {
  }

  /** The availability window is inclusive: a selection covering exactly all of it passes that check. */
  lemma AvailabilityInclusive(availabilityStart: int, availabilityEnd: int, spaceId: string,
                              rows: seq<BookingRow>, queryFails: bool)
    ensures ValidateTimeSelection(availabilityStart, availabilityEnd, availabilityStart, availabilityEnd,
                                  spaceId, rows, queryFails) != OutsideAvailability
  {
  }

  /** Inside the availability window, a window that does not end after its start is refused. */
  lemma EmptyWindowRefused(startTime: int, endTime: int, availabilityStart: int, availabilityEnd: int,
                           spaceId: string, rows: seq<BookingRow>, queryFails: bool)
    requires availabilityStart <= startTime && endTime <= availabilityEnd
    requires endTime <= startTime
    ensures ValidateTimeSelection(startTime, endTime, availabilityStart, availabilityEnd, spaceId, rows, queryFails)
            == EndNotAfterStart
  {
  }

  /** A failing query refuses a window that passed the first two checks. */
  lemma QueryErrorRefused(startTime: int, endTime: int, availabilityStart: int, availabilityEnd: int,
                          spaceId: string, rows: seq<BookingRow>)
    requires availabilityStart <= startTime < endTime <= availabilityEnd
    ensures ValidateTimeSelection(startTime, endTime, availabilityStart, availabilityEnd, spaceId, rows, true)
            == QueryFailed
  {
  }

  /**
   * Any booking of the same space whose closed interval meets the selection refuses it, even
   * one that only touches it at an endpoint.
   */
  lemma MatchingRowRefuses(startTime: int, endTime: int, availabilityStart: int, availabilityEnd: int,
                           spaceId: string, rows: seq<BookingRow>, queryFails: bool, i: int)
    requires 0 <= i < |rows| && QueryMatches(rows[i], spaceId, startTime, endTime)
    ensures ValidateTimeSelection(startTime, endTime, availabilityStart, availabilityEnd, spaceId, rows, queryFails)
            != Accepted
  {
    assert rows[i] in rows;
  }

  /** A booking ending exactly when the selection starts is a conflict for the query. */
  lemma TouchingBookingRefused(startTime: int, endTime: int, availabilityStart: int, availabilityEnd: int,
                               spaceId: string, row: BookingRow)
    requires availabilityStart <= startTime < endTime <= availabilityEnd
    requires row.spaceId == spaceId && row.startTime < row.endTime == startTime
    ensures ValidateTimeSelection(startTime, endTime, availabilityStart, availabilityEnd, spaceId, [row], false)
            == Conflict
    ensures !BookingValidation.CheckBookingOverlap(startTime, endTime, [Window(row)])
  {
    assert row in [row];
  }

  /** The time window of a row, as the overlap checker sees it. */
  function Window(row: BookingRow): BookingValidation.Booking {
    BookingValidation.Booking(row.startTime, row.endTime)
  }

  /** No stored booking ends before it starts. */
  predicate WellFormed(rows: seq<BookingRow>) {
    forall x :: x in rows ==> x.startTime <= x.endTime
  }

  /** The rows of one space, in table order. */
  function SpaceRows(rows: seq<BookingRow>, spaceId: string): (r: seq<BookingRow>)
    ensures forall x :: x in r <==> x in rows && x.spaceId == spaceId
  {
    if rows == [] then []
    else
      var rest := SpaceRows(rows[1..], spaceId);
      assert forall x :: x in rows <==> x == rows[0] || x in rows[1..];
      if rows[0].spaceId == spaceId then [rows[0]] + rest else rest
  }

  /** The time windows of some rows, in the same order. */
  function Windows(rows: seq<BookingRow>): (ws: seq<BookingValidation.Booking>)
    ensures |ws| == |rows| && forall i :: 0 <= i < |rows| ==> ws[i] == Window(rows[i])
  {
    seq(|rows|, i requires 0 <= i < |rows| => Window(rows[i]))
  }

  /**
   * For non-empty windows, the closed-interval query returns every booking that the half-open
   * test of the overlap checker flags, and besides those only bookings touching the selection.
   */
  lemma QueryCoversOverlap(row: BookingRow, spaceId: string, startTime: int, endTime: int)
    requires row.spaceId == spaceId
    requires startTime < endTime && row.startTime < row.endTime
    ensures BookingValidation.Conflicts(startTime, endTime, Window(row)) ==> QueryMatches(row, spaceId, startTime, endTime)
    ensures QueryMatches(row, spaceId, startTime, endTime) <==>
            BookingValidation.Conflicts(startTime, endTime, Window(row)) || row.endTime == startTime || row.startTime == endTime
  {
    BookingValidation.ConflictsIffIntersects(startTime, endTime, Window(row));
  }

  /**
   * An accepted selection overlaps, in the sense of `checkBookingOverlap`, no booking of the
   * same space, provided every stored booking starts no later than it ends.
   */
  lemma {:induction false} AcceptedHasNoOverlap(startTime: int, endTime: int, availabilityStart: int, availabilityEnd: int,
                                                spaceId: string, rows: seq<BookingRow>)
    requires WellFormed(rows)
    requires ValidateTimeSelection(startTime, endTime, availabilityStart, availabilityEnd, spaceId, rows, false) == Accepted
    ensures !BookingValidation.CheckBookingOverlap(startTime, endTime, Windows(SpaceRows(rows, spaceId)))
  {
    var rs := SpaceRows(rows, spaceId);
    var ws := Windows(rs);
    forall i | 0 <= i < |ws|
      ensures !BookingValidation.Conflicts(startTime, endTime, ws[i])
    {
      assert rs[i] in rs;
      assert !QueryMatches(rs[i], spaceId, startTime, endTime);
    }
  }

  /** Once a selection has been booked, the same selection is refused as a conflict. */
  lemma BookedSelectionConflicts(startTime: int, endTime: int, availabilityStart: int, availabilityEnd: int,
                                 spaceId: string, rows: seq<BookingRow>, row: BookingRow)
    requires ValidateTimeSelection(startTime, endTime, availabilityStart, availabilityEnd, spaceId, rows, false) == Accepted
    requires row.spaceId == spaceId && row.startTime == startTime && row.endTime == endTime
    ensures ValidateTimeSelection(startTime, endTime, availabilityStart, availabilityEnd, spaceId, rows + [row], false)
            == Conflict
  {
    assert row in rows + [row];
  }

  /**
   * The alert `validateTimeSelection` shows for a refusal: one alert for each refusal except a
   * failed query, which is only logged, and none for an accepted selection.
   */
  function RefusalAlerts(v: Verdict): (es: seq<Event>)
    ensures |es| <= 1
    ensures es == [] <==> v == Accepted || v == QueryFailed
    ensures forall k :: 0 <= k < |es| ==> es[k].ShowAlert? && es[k].alert != LoginRequiredAlert
  {
    match v
    case OutsideAvailability => [ShowAlert(AvailabilityAlert)]
    case EndNotAfterStart => [ShowAlert(EndBeforeStartAlert)]
    case Conflict => [ShowAlert(ConflictAlert)]
    case _ => []
  }

  /** The backend's bookings table. */
  class BookingsTable {
    var rows: seq<BookingRow>

    constructor (rows: seq<BookingRow>)
      ensures this.rows == rows
    {
      this.rows := rows;
    }

    /** `insert([row]).select().single()`; `fails` says whether the backend reports an error. */
    method Insert(row: BookingRow, fails: bool) returns (ok: bool)
      modifies this`rows
      ensures ok == !fails
      ensures rows == if ok then old(rows) + [row] else old(rows)
    {
      ok := !fails;
      if ok {
        rows := rows + [row];
      }
    }
  }

  /** The state of the details screen of one parking space that booking touches. */
  class Screen {
    const spaceId: string
    const availabilityStart: int
    const availabilityEnd: int
    const table: BookingsTable
    var startTime: int
    var endTime: int
    var loading: bool
    var events: seq<Event>

    constructor (spaceId: string, availabilityStart: int, availabilityEnd: int, table: BookingsTable, now: int)
      ensures this.spaceId == spaceId && this.table == table
      ensures this.availabilityStart == availabilityStart && this.availabilityEnd == availabilityEnd
      ensures startTime == now && endTime == now && !loading && events == []
    {
      this.spaceId := spaceId;
      this.availabilityStart := availabilityStart;
      this.availabilityEnd := availabilityEnd;
      this.table := table;
      startTime, endTime := now, now;
      loading := false;
      events := [];
    }

    /** The verdict of `validateTimeSelection` for the current selection and table. */
    function Validation(queryFails: bool): Verdict
      reads this, table
    {
      ValidateTimeSelection(startTime, endTime, availabilityStart, availabilityEnd, spaceId, table.rows, queryFails)
    }

    /**
     * The row `handleBooking` inserts for a session: a booking by that user of this space for
     * the current selection, which the conflict query for the same selection finds again.
     */
    function NewRow(session: Session): (r: BookingRow)
      reads this
      ensures r.userId == session.userId && r.status == "completed"
      ensures startTime <= endTime ==> QueryMatches(r, spaceId, startTime, endTime)
    {
      BookingRow(session.userId, spaceId, startTime, endTime, "completed")
    }

    /**
     * `handleBooking`: without a session only an alert; otherwise `loading` is switched on,
     * the selection validated, the booking inserted only if it was accepted, and `loading`
     * is off again on every path (the early return inside `try` also runs `finally`).
     */
    method HandleBooking(session: Option<Session>, queryFails: bool, insertFails: bool)
      modifies this`loading, this`events, table`rows
      ensures session.None? ==>
                && loading == old(loading)
                && events == old(events) + [ShowAlert(LoginRequiredAlert)]
                && table.rows == old(table.rows)
      ensures session.Some? ==> !loading
      ensures session.Some? && old(Validation(queryFails)) != Accepted ==>
                && events == old(events) + [SetLoading(true)] + RefusalAlerts(old(Validation(queryFails)))
                                         + [SetLoading(false), SetLoading(false)]
                && table.rows == old(table.rows)
      ensures session.Some? && old(Validation(queryFails)) == Accepted && insertFails ==>
                && events == old(events) + [SetLoading(true), ShowAlert(BookingFailedAlert), SetLoading(false)]
                && table.rows == old(table.rows)
      ensures session.Some? && old(Validation(queryFails)) == Accepted && !insertFails ==>
                && events == old(events) + [SetLoading(true), ShowAlert(BookingSucceededAlert), SetLoading(false)]
                && table.rows == old(table.rows) + [NewRow(session.value)]
      ensures table.rows != old(table.rows) ==> session.Some? && old(Validation(queryFails)) == Accepted
      ensures old(WellFormed(table.rows)) ==> WellFormed(table.rows)
    {
      if session.None? {
        events := events + [ShowAlert(LoginRequiredAlert)];
        return;
      }
      loading := true;
      events := events + [SetLoading(true)];
      var isValid := ValidateTimeSelection(startTime, endTime, availabilityStart, availabilityEnd,
                                           spaceId, table.rows, queryFails);
      if isValid != Accepted {
        events := events + RefusalAlerts(isValid);
        loading := false;
        events := events + [SetLoading(false)];
      } else {
        var ok := table.Insert(NewRow(session.value), insertFails);
        if ok {
          events := events + [ShowAlert(BookingSucceededAlert)];
        } else {
          events := events + [ShowAlert(BookingFailedAlert)];
        }
      }
      // finally
      loading := false;
      events := events + [SetLoading(false)];
    }
  }

  /**
   * Two successive bookings of the same selection insert it once: the second attempt, made
   * after the first has finished, meets the first one's row as a conflict.
   */
  method BookTwice(screen: Screen, session: Session)
    modifies screen`loading, screen`events, screen.table`rows
    ensures old(screen.Validation(false)) == Accepted ==>
              screen.table.rows == old(screen.table.rows) + [screen.NewRow(session)]
  {
    ghost var accepted := screen.Validation(false) == Accepted;
    ghost var before := screen.table.rows;
    screen.HandleBooking(Some(session), false, false);
    if accepted {
      BookedSelectionConflicts(screen.startTime, screen.endTime, screen.availabilityStart, screen.availabilityEnd,
                               screen.spaceId, before, screen.NewRow(session));
    }
    screen.HandleBooking(Some(session), false, false);
  }
}
