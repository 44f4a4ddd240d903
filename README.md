# Parking marketplace booking and filter logic, modelled in Dafny

This project models the business logic of a mobile app for renting private parking
spaces. Almost all of the app is React Native screens over a hosted backend. Four small
pieces of logic are modelled and proved here:

- **Booking overlap** (`BookingValidation`, `booking_validation.dfy`): `checkBookingOverlap`
  asks whether a candidate window `[newStart, newEnd)` conflicts with any existing booking.
  It uses a three-clause test: the candidate starts inside a booking, ends inside it, or
  encloses it. Timestamps are integer milliseconds.
- **Parking-spot filter** (`ParkingFilter`, `filter_parking_spots.dfy`): `filterParkingSpots`
  keeps, in order, the records that pass four tests: length, width, distance from the user
  and price per hour. Each test has its own rule for being switched on. Record fields and
  criteria are `Option`s, where `None` is JavaScript `undefined`. JavaScript's `Number(...)`
  on a criterion string and the haversine `calculateDistance` are function parameters.
- **Formatters** (`Formatters`, `formatters.dfy`): `formatDuration` (minutes to `"Nh Mmin"`)
  and the branches of `formatDistance`, with JavaScript's number-to-string written out.
- **Booking from the details screens** (`ParkingDetails`, `parking_details.dfy`, and
  `ParkingDetailsScreen`, `parking_details_screen.dfy`): `validateTimeSelection` is a chain
  of early returns. The window must lie inside the availability window, must end after it
  starts, and the backend's conflict query must succeed and return nothing. The query
  (`end_time >= start AND start_time <= end`) is the predicate `QueryMatches` over the
  bookings table. `handleBooking` is a method on a `Screen` class. The class has the
  `loading` flag, the current selection, and a log of observable events (`setLoading`
  calls and alerts). The bookings table is a `BookingsTable` object whose rows the insert
  extends. Whether the query or the insert fails is an input.

The two details screens (`Frontend/app/ParkingDetails.tsx` and
`Frontend/app/parking-details.tsx`) are near-copies. Each gets its own module. The second
module reuses the first one's data types and query. Its `ValidateTimeSelection` is proved
equal to the first one's. Its `handleBooking` inserts status `"confirmed"`, where the first
screen inserts `"completed"`.

On these points the model follows the code as written:

- The price test is on only when both `minPrice` and `maxPrice` are defined. A single bound
  does not constrain anything.
- The distance test is on when `distance` is truthy. So a distance of `0` switches it off.
- Length and width criteria are declared as strings and passed through `Number(...)`. The
  criteria are built in `Frontend/components/FilterPopup.tsx` and handed to the filter by
  `applyFilter` in `Frontend/app/(tabs)/Home.tsx` (lines 59-77). The popup fills length and
  width with numbers instead (lines 55 and 64): `parseFloat(text) || undefined`, so a criterion is either undefined or a
  non-zero number. The model covers that case too. Such a number is a non-empty string here,
  and `toNumber` gives back its value. An empty string switches the test off.
- The filter reads `parking.pricePerHour`. Records shaped like `ParkingSpace` in
  `Frontend/types/types.ts` carry `price_per_hour` instead. Such a record has
  `pricePerHour == None` here, so it fails any active price test (`PriceCriterion`). The popup
  always sets both `minPrice` and `maxPrice` (`Frontend/components/FilterPopup.tsx:137-138`).
  So every filter applied from it keeps no record fetched in that shape
  (`PriceBoundsDropUnpricedRecords`).
- The overlap checker does not reject degenerate windows. Its three-clause test equals the
  two-inequality test only for non-empty windows (`DegenerateWindowsDiffer` gives inputs
  where they differ).

## Model

| member | source | states |
|---|---|---|
| BookingValidation.CheckBookingOverlap | Frontend/utils/bookingValidation.ts:12-22 | true iff some existing booking satisfies the three-clause test (starts during, ends during, or encloses) |
| BookingValidation.NoBookingsNoConflict | Frontend/utils/bookingValidation.ts:12 | with no existing bookings the result is false |
| BookingValidation.ConflictsIffIntersects | Frontend/utils/bookingValidation.ts:17-21 | for non-empty windows the three clauses are equivalent to `newStart < existingEnd && newEnd > existingStart` |
| BookingValidation.DegenerateWindowsDiffer | Frontend/utils/bookingValidation.ts:17-21 | without non-emptiness the equivalence fails: an empty candidate at a booking's start, or an empty booking at the candidate's start, conflicts for the three-clause test only |
| BookingValidation.OverlapIffSomeIntersects | Frontend/utils/bookingValidation.ts:12-21 | over non-empty windows the result is "some booking intersects the candidate as a half-open interval" |
| BookingValidation.BackToBackIsNoConflict | Frontend/utils/bookingValidation.ts:18-19 | a booking ending where the candidate starts, or starting where it ends, is no conflict |
| BookingValidation.ContainmentConflicts | Frontend/utils/bookingValidation.ts:20 | a candidate enclosing any existing booking conflicts, whatever the other bookings are |
| BookingValidation.OverlapSymmetric | Frontend/utils/bookingValidation.ts:17-21 | for non-empty windows, swapping candidate and one existing booking gives the same answer |
| BookingValidation.OverlapOrderIndependent | Frontend/utils/bookingValidation.ts:12 | any permutation of the existing bookings gives the same result |
| BookingValidation.OverlapAppend | Frontend/utils/bookingValidation.ts:12 | adding a booking gives the old result or the new booking's own conflict, so true never turns false |
| ParkingFilter.Keep | Frontend/utils/filterParkingSpots.ts:13-45 | the `.filter` callback: true iff the record passes the length, width, distance and price tests, each vacuous when its criterion is off |
| ParkingFilter.FilterParkingSpots | Frontend/utils/filterParkingSpots.ts:12-46 | the result is a subsequence of the input, every kept record passes all four tests, and each passing record occurs as often as in the input |
| ParkingFilter.KeptIffPasses | Frontend/utils/filterParkingSpots.ts:45 | a record is in the result iff it is in the input and passes length, width, distance and price |
| ParkingFilter.NoCriteriaKeepsAll | Frontend/utils/filterParkingSpots.ts:13-42 | with length and width empty or absent, distance off and the price bounds not both defined, the result is the input unchanged |
| ParkingFilter.LengthCriterion | Frontend/utils/filterParkingSpots.ts:19-21 | with a non-empty length criterion, a kept record has a length and it is at least `Number(length)`; a record without a length, or a NaN threshold, is never kept |
| ParkingFilter.WidthCriterion | Frontend/utils/filterParkingSpots.ts:24-26 | the same for width |
| ParkingFilter.DistanceCriterion | Frontend/utils/filterParkingSpots.ts:29-37 | with a non-zero distance and a user location, a record passing the other tests is kept iff it has coordinates and `Dist(record, user) <= distance` |
| ParkingFilter.DistanceOffIgnored | Frontend/utils/filterParkingSpots.ts:29 | distance 0 or no user location gives the same result as no distance criterion |
| ParkingFilter.PriceCriterion | Frontend/utils/filterParkingSpots.ts:40-42 | with both price bounds defined, a record passing the other tests is kept iff it has `pricePerHour` within the bounds, both ends inclusive |
| ParkingFilter.FilterIdempotent | Frontend/utils/filterParkingSpots.ts:12-46 | filtering twice with the same criteria equals filtering once |
| ParkingFilter.StricterCriteriaSelectFewer | Frontend/utils/filterParkingSpots.ts:12-46 | criteria that pass no record the others reject select a subsequence of what the others select, so never more records |
| ParkingFilter.RaisingLengthSelectsFewer | Frontend/utils/filterParkingSpots.ts:20 | raising the length threshold gives a subsequence of the previous result |
| ParkingFilter.RaisingWidthSelectsFewer | Frontend/utils/filterParkingSpots.ts:25 | raising the width threshold gives a subsequence of the previous result |
| ParkingFilter.RaisingMinPriceSelectsFewer | Frontend/utils/filterParkingSpots.ts:41 | raising `minPrice` gives a subsequence of the previous result |
| ParkingFilter.LoweringMaxPriceSelectsFewer | Frontend/utils/filterParkingSpots.ts:41 | lowering `maxPrice` gives a subsequence of the previous result |
| ParkingFilter.LoweringDistanceSelectsFewer | Frontend/utils/filterParkingSpots.ts:36 | lowering an active distance to a non-zero value gives a subsequence of the previous result |
| ParkingFilter.PriceBoundsDropUnpricedRecords | Frontend/utils/filterParkingSpots.ts:40-42 | with both price bounds set, records that have no `pricePerHour` all fail, so the result is empty |
| ParkingFilter.PriceRangeExample | Frontend/utils/filterParkingSpots.ts:40-42 | spaces at 5, 50 and 15 per hour filtered for 10 to 20 leave exactly the one at 15 |
| Formatters.IntToString | Frontend/utils/formatters.ts:73 | `${n}` of an integer: a non-empty string that starts with `-` exactly when the number is negative, every other character a digit, at least one digit, and no leading zero unless the number is 0 |
| Formatters.IntToStringRoundTrip | Frontend/utils/formatters.ts:73 | the string of any integer reads back as that integer, so distinct numbers print differently |
| Formatters.TruncatedQuotient | Frontend/utils/formatters.ts:70 | the quotient rounded toward zero: its multiple of the divisor lies between 0 and the dividend, less than one divisor away from it |
| Formatters.JsRemainder | Frontend/utils/formatters.ts:70 | JavaScript's `%`: the dividend minus the divisor times the quotient rounded toward zero, so in `[0, b)` for a non-negative dividend and in `(-b, 0]` for a negative one |
| Formatters.FormatDuration | Frontend/utils/formatters.ts:67-83 | the output for a non-negative number of minutes reads back (with `ParseDuration`) as that number, and for no integer does it end in `"h 0min"` |
| Formatters.DurationParts | Frontend/utils/formatters.ts:69-70 | for `minutes >= 0`, `hours * 60 + remainingMinutes == minutes` with `0 <= remainingMinutes < 60` |
| Formatters.DurationUnderAnHour | Frontend/utils/formatters.ts:72-73 | for `0 <= minutes < 60` the output is `"<minutes>min"` |
| Formatters.DurationWholeHours | Frontend/utils/formatters.ts:74-75 | for a positive multiple of 60 the output is `"<minutes/60>h"` |
| Formatters.DurationHoursAndMinutes | Frontend/utils/formatters.ts:76-77 | otherwise, for `minutes >= 60`, the output is `"<h>h <r>min"` with `h*60 + r == minutes` and `0 < r < 60` |
| Formatters.NoZeroMinutesText | Frontend/utils/formatters.ts:72-78 | whatever the hours and the rest, the assembled text never ends in `"h 0min"`: a zero minutes part is dropped |
| Formatters.DurationTextReadsBack | Frontend/utils/formatters.ts:69-78 | for `minutes >= 0` the text assembled from `Math.floor(minutes / 60)` and `minutes % 60` reads back as `minutes` |
| Formatters.DurationInjective | Frontend/utils/formatters.ts:67-83 | distinct non-negative durations are formatted differently |
| Formatters.JsRound | Frontend/utils/formatters.ts:95 | `Math.round(x)` is the integer within half a unit of `x`, halves going up |
| Formatters.FormatDistance | Frontend/utils/formatters.ts:90-99 | the output ends in `" km"` iff `meters >= 1000`; below that it ends in `" m"` and the text before it reads back as `Math.round(meters)` |
| Formatters.MetresText | Frontend/utils/formatters.ts:95 | `"<n> m"` ends in `" m"`, not in `" km"`, and the text before `" m"` reads back as `n` |
| Formatters.DistanceWholeMetres | Frontend/utils/formatters.ts:94-95 | an integer number of metres below 1000 is printed as its decimal followed by `" m"` |
| ParkingDetails.ConflictQuery | Frontend/app/ParkingDetails.tsx:78-83 | returns exactly the rows of the space whose end is at or after the selection's start and whose start is at or before its end |
| ParkingDetails.ValidateTimeSelection | Frontend/app/ParkingDetails.tsx:61-99 | true (`Accepted`) iff the window lies inside the availability window, ends after it starts, the query did not fail and no row of the space meets the window as a closed interval; a `Conflict` (the conflict alert) iff the same holds except that some such row exists |
| ParkingDetails.AvailabilityCheckedFirst | Frontend/app/ParkingDetails.tsx:62-68 | `start < availabilityStart` or `end > availabilityEnd` refuses with the availability alert, whatever else holds |
| ParkingDetails.AvailabilityInclusive | Frontend/app/ParkingDetails.tsx:62 | a window equal to the availability window passes the availability check |
| ParkingDetails.EmptyWindowRefused | Frontend/app/ParkingDetails.tsx:70-76 | inside the availability window, `end <= start` is refused with the "end after start" alert |
| ParkingDetails.QueryErrorRefused | Frontend/app/ParkingDetails.tsx:85-88 | a query error refuses a window that passed the first two checks |
| ParkingDetails.MatchingRowRefuses | Frontend/app/ParkingDetails.tsx:78-96 | any row of the space with `end_time >= start && start_time <= end` means the selection is not accepted |
| ParkingDetails.TouchingBookingRefused | Frontend/app/ParkingDetails.tsx:78-96 | a booking ending exactly at the selection's start is a conflict for the screen, though `checkBookingOverlap` finds no overlap |
| ParkingDetails.QueryCoversOverlap | Frontend/app/ParkingDetails.tsx:78-83 | for non-empty windows the closed-interval query matches every booking the half-open checker flags, and otherwise only bookings touching at an endpoint |
| ParkingDetails.AcceptedHasNoOverlap | Frontend/app/ParkingDetails.tsx:78-98 | an accepted selection has no overlap, in the sense of `checkBookingOverlap`, with any booking of the space, when stored bookings do not end before they start |
| ParkingDetails.BookedSelectionConflicts | Frontend/app/ParkingDetails.tsx:78-96 | after a selection is stored, the same selection is refused as a conflict |
| ParkingDetails.RefusalAlerts | Frontend/app/ParkingDetails.tsx:61-98 | at most one alert per validation, never the login alert; none exactly when the selection is accepted or the query failed (a query error is only logged) |
| ParkingDetails.BookingsTable.Insert | Frontend/app/ParkingDetails.tsx:120-135 | on success the row is appended to the table; on error the table is unchanged |
| ParkingDetails.Screen.NewRow | Frontend/app/ParkingDetails.tsx:122-130 | the inserted row is the session user's, has status "completed", and is found by the conflict query for the same selection |
| ParkingDetails.Screen.HandleBooking | Frontend/app/ParkingDetails.tsx:101-167 | no session: only the login alert, with `loading` and the table untouched; else `setLoading(true)` first and `loading` false at the end on every path, `setLoading(false)` twice after a refusal, and the "completed" row inserted only after validation accepted; a table whose bookings do not end before they start stays so |
| ParkingDetails.BookTwice | Frontend/app/ParkingDetails.tsx:101-167 | two successive booking attempts for the same selection, the second made after the first has finished, insert the row once |
| ParkingDetailsScreen.ValidateTimeSelection | Frontend/app/parking-details.tsx:53-91 | decides exactly as `ParkingDetails.ValidateTimeSelection`: availability first, then `end <= start`, then query error, then closed-interval conflicts |
| ParkingDetailsScreen.Screen.NewRow | Frontend/app/parking-details.tsx:113-121 | the inserted row is the session user's, has status "confirmed", and is found by the conflict query for the same selection |
| ParkingDetailsScreen.Screen.HandleBooking | Frontend/app/parking-details.tsx:93-155 | the same control flow over `loading`, alerts and the insert as the other screen, keeping the table's bookings well-formed; the inserted row has status "confirmed" |
| ParkingDetailsScreen.InsertedStatusesDiffer | Frontend/app/parking-details.tsx:120 | for the same space, selection and session, the two screens insert rows that differ only in status ("completed" against "confirmed") |

## Left out

- `calculateDistance` and `deg2rad` (haversine, floating-point trigonometry) are the parameter `dist` of the filter. Nothing is proved about distances except how the filter compares them.
- `Number(...)` on the length and width strings is the parameter `toNumber`; `None` stands for NaN.
- JavaScript numbers are `real`. NaN and infinities are not modelled.
- A record field or criterion that is `null` rather than `undefined` is not modelled. JavaScript coerces `null` to 0 in `>=`, and `null !== undefined` would switch the price test on.
- The `toFixed(1)` rendering in the kilometre branch of `formatDistance` is the parameter `toFixed1`. Only the branch and the `" km"` suffix are modelled.
- `formatDate`, `formatTime` and `formatCurrency` wrap `Date`/`Intl` locale formatting and are not part of this model.
- The `catch` fallbacks of `formatDuration` and `formatDistance` are not modelled. Nothing in their `try` blocks throws for a number.
- Formatters.FormatDuration: the read-back is stated for `minutes >= 0` only. For negative minutes the source pairs `Math.floor` with JavaScript's truncating `%`, so `-90` gives `"-2h -30min"`. `FormatDuration` models that as written, but the parts do not add back to the input.
- ParkingDetails.AcceptedHasNoOverlap: requires that stored bookings do not end before they start. A reversed stored window can satisfy the three-clause test and still escape the closed-interval query. Rows inserted by either screen meet that requirement, since `HandleBooking` keeps it (`WellFormed`); rows written by other clients are not covered.
- Formatters.FormatDuration: takes an integer number of minutes, and matches the source only for magnitudes up to 2^53. `formatDuration` also accepts fractions (`90.5` gives `"1h 30.5min"`), and those are not modelled. Above 2^53, `minutes / 60` is a rounded double division, and the hours print with the shortest-digits rule above: `formatDuration(60 * 2^60)` gives `"1152921504606847000h"`, where the model gives `"1152921504606846976h"`.
- Formatters.IntToString: models `${n}` only for integers of magnitude at most 2^53 (`Number.MAX_SAFE_INTEGER + 1`). Beyond that a JavaScript number is a double. `${n}` prints the shortest digits that read back to the same double, padded with zeros, so `2^64` prints as `"18446744073709552000"`, not the exact `"18446744073709551616"`. From 1e21 on it switches to exponential notation (`"1e+21"`). The exact decimal numeral here produces neither.
- ISO-string and `Date` parsing, and the NaN check on the availability dates (Frontend/app/ParkingDetails.tsx:43-45), are not modelled. Timestamps arrive as integers.
- The price computation in `handleBooking` (`hours * price_per_hour`) and `calculateHours` are floating point. The inserted row has no `total_price` column here.
- The backend (Supabase) is not part of this model. The query is the predicate `QueryMatches` over the table's rows. A response with neither data nor error, which the source accepts, is not modelled. The `.select().single()` result of the insert is ignored, as the source ignores it.
- `handleBookButtonPress`, the `isModalVisible` flag, the alert buttons' callbacks and navigation are UI. `handleBooking` does not change the modal flag itself.
- The conflict query and the insert in `handleBooking` are separate `await`s (Frontend/app/ParkingDetails.tsx:78 and :120; Frontend/app/parking-details.tsx:70 and :111). The model treats check-then-insert as one uninterrupted step. Two attempts that overlap in time can both pass validation and both insert: a second tap before `disabled={loading}` takes effect, or a second client. `BookTwice` is about successive attempts only.
- React's asynchronous state updates are not modelled: each `setLoading` takes effect at once and is logged in order.
