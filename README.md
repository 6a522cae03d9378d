# busconnect: driver assignment, driving-time rules and the booking page

busconnect is a coach-charter application. A customer asks for a
discretionary trip (origin, destination, seats, departure and arrival) on a
booking page that quotes a price. Back-office staff then put a driver on
each trip. Three parts of the system decide whether a trip can be run and
by whom; this project models those three parts and proves properties of
them.

- **The server's driving-time check** (`backend/routes/viajesDiscrecionales.js`).
  A driver may take a trip only if four rules hold against the driver's other
  confirmed trips:
  - the trip overlaps none of them;
  - at least 9 hours of rest separate the trip from each of them;
  - the trip's start day (a UTC date) holds at most 9 hours of driving;
  - the trip's start week (local ISO week number together with the local
    calendar year) holds at most 56 hours of driving.

  The check is used in two places:
  - `PUT /:id` is meant to validate an edit of a trip's driver or dates
    before writing it (two defects stop it from doing so; see Findings);
  - `POST /:id/auto-assign` gives the trip the first eligible driver the check
    accepts.
- **The batch job** (`backend/batch_assign.js`). It takes every pending trip
  in order of departure. Each trip gets the first candidate the same check
  accepts against the table as it stands at that moment. The trip is then
  confirmed, and the job counts successes and failures.
- **The booking page** (`gestion-discrecionales.js`):
  - the price calculation and its two surcharges (a second driver, an
    overnight stay away from base);
  - the day count derived from the dates;
  - the round-trip pre-check, which uses 4.5-hour driving blocks, each
    followed by a 45-minute break;
  - the dialog that offers the two surcharges when the trip does not fit;
  - two local searches, for a free bus and for a free driver.

The modules:

| module | file | models |
|---|---|---|
| `Opt` | option.dfy | absent values (SQL NULL, missing form fields, failed searches) |
| `Intervals` | intervals.dfy | the half-open overlap test `intervalsOverlap` |
| `Sorting` | sorting.dfy | ordering by an integer key (`ORDER BY`, `Array.sort`) |
| `Calendar` | calendar.dfy | UTC day numbers, weekdays, calendar years and `getWeek` (ISO 8601 week numbers) |
| `Tachograph` | tachograph.dfy | `checkTachograph` and the per-candidate test, both as loops proved against one specification function `Evaluate` |
| `Assignment` | assignment.dfy | the candidate query, the search for the first compliant driver, and the compliance invariant of the trip table |
| `TripRoutes` | trip_routes.dfy | the `PUT /:id` and `POST /:id/auto-assign` handlers |
| `BatchAssign` | batch_assign.dfy | `batchAssign` |
| `Pricing` | pricing.dfy | `requiredBreaksHours`, the pre-check, `updateDiasAuto`'s day count and `calcularCoste` |
| `Resources` | resources.dfy | `findAvailableBus` and `findAvailableDriver` |
| `Negotiation` | negotiation.dfy | the booking page's state (route, days, surcharge flags, dialog) and its event handlers, as a class |

Modelling choices:
- **Trip table.** The table is a `seq<Trip>`. An `UPDATE ... WHERE id = ?`
  rewrites every row with that id.
- **Times.** Times are integer milliseconds since the epoch.
- **Local week and year.** The server reads the week number and the year in
  its local time. That reading is a `LocalCalendar` parameter: the table
  invariants hold for any calendar. `Zone(offset)` is the real calendar of a
  fixed-offset server, and `Zone(0)` is UTC.
- **Booking page numbers.** Hours and euros on the booking page are exact
  reals.
- **Table invariant.** The central invariant is `Assignment.Compliant`:
  - any two confirmed trips of one driver are at least 9 hours apart;
  - every driver is within the daily and weekly limits in the day and the
    week each of their trips departs in.

  Auto-assign and the batch job are proved to preserve this invariant,
  together with unique ids and departures not after arrivals. They also
  preserve the rest rule alone, on a table that already exceeds a driving
  limit. The corrected PUT handler preserves the invariant for edits in
  `TripRoutes.SafeEdit`: the edited row's new times are in order, and a
  confirmation comes with a driver or a date.

The weekly total is modelled as written: it compares the week number *and
the calendar year* of each departure with those of the new trip. In UTC this
has two consequences (`Tachograph.WeekBucketAtTurnOfYear`):
- Monday 2024-01-01 and Monday 2024-12-30 share one weekly total, although
  they are 52 weeks apart, because both are in week 1 of calendar year 2024.
- Monday 2024-12-30 and Wednesday 2025-01-01 fall in one Monday-to-Sunday
  week, yet they do not share a total.

## Model

| member | source | states |
|---|---|---|
| Intervals.OverlapsIffSharedInstant | gestion-discrecionales.js:328 | two non-empty intervals overlap exactly when some millisecond lies in both |
| Intervals.OverlapsSymmetric | gestion-discrecionales.js:328 | the overlap test does not depend on the order of the two intervals |
| Intervals.AdjacentDoNotOverlap | gestion-discrecionales.js:328 | an interval ending where the other begins does not overlap it (the end is excluded) |
| Sorting.SortBy | backend/batch_assign.js:17 | the result is ordered by the key and is a permutation of the input |
| Sorting.SortByMembers | backend/batch_assign.js:17 | sorting keeps exactly the elements it is given |
| Calendar.MondayOfFacts | backend/batch_assign.js:7 | MondayOf(day) is a Monday, on the day itself or up to six days before it |
| Calendar.YearLength | backend/batch_assign.js:8 | every calendar year has 365 or 366 days |
| Calendar.YearOfBounds | backend/batch_assign.js:8 | the year found for a day number starts on or before that day, and the next year starts after it |
| Calendar.YearOfUnique | backend/batch_assign.js:8 | that year is the only year holding the day |
| Calendar.RoundSevenths | backend/batch_assign.js:9 | Math.round(x / 7) is the integer nearest x / 7, rounding halves up |
| Calendar.IsoWeekExact | backend/batch_assign.js:4-10 | the rounding is exact: the week number is 1 plus the whole weeks from the Monday of the week holding January 4 |
| Calendar.IsoWeekRange | backend/batch_assign.js:4-10 | a week number is between 1 and 53 |
| Calendar.IsoWeekConstantOnWeek | backend/batch_assign.js:7 | all days of one Monday-to-Sunday week get the same week number |
| Calendar.Jan4InWeekOne | backend/batch_assign.js:8 | January 4 is always in week 1 |
| Calendar.IsoWeekInYear | backend/batch_assign.js:4-10 | when the week's Thursday lies in year y, the week number is 1 plus the whole weeks from the Monday of the week holding January 4 of y |
| Calendar.WeekOfLastThursdayOf2020 | backend/batch_assign.js:9 | week of Thursday 2020-12-31 is 53 |
| Calendar.FirstOf2021IsWeek53 | backend/batch_assign.js:4-10 | every instant of Friday 2021-01-01 is in week 53 of the previous ISO year |
| Calendar.FirstOf2022IsWeek52 | backend/batch_assign.js:4-10 | every instant of Saturday 2022-01-01 is in week 52 |
| Calendar.TurnOf2024 | backend/batch_assign.js:4-10 | 2024-01-01, 2024-12-30 and 2025-01-01 are all week 1; the first two are in calendar year 2024, the third in 2025; the last two share a Monday |
| Tachograph.ConsideredMembers | backend/routes/viajesDiscrecionales.js:125-128 | the query returns exactly the driver's confirmed trips other than the one being placed |
| Tachograph.SeparatedSymmetric | backend/routes/viajesDiscrecionales.js:151-156 | the 9-hour rest condition is symmetric in the two trips |
| Tachograph.Clash | backend/routes/viajesDiscrecionales.js:146-156 | the loop body's verdict for one trip is overlap, rest-after, rest-before or nothing about that trip; no objection implies 9 hours of rest on one side; for ordered intervals, 9 hours of rest implies no objection |
| Tachograph.ScanFirstOffender | backend/routes/viajesDiscrecionales.js:140-156 | the scan is clean exactly when no trip clashes, and otherwise it reports the first offending trip |
| Tachograph.UtcWeekBucket | backend/routes/viajesDiscrecionales.js:164 | on a UTC server the weekly bucket is the ISO week number paired with the calendar year |
| Tachograph.EvaluateOkIffFits | backend/routes/viajesDiscrecionales.js:123-174 | a trip with ordered times is accepted exactly when it is 9 hours from every trip and both totals are within 9 and 56 hours (inclusive) |
| Tachograph.EvaluateRejection | backend/routes/viajesDiscrecionales.js:169-171 | a limit rejection carries the total that exceeded it, the daily limit is tested first, and limits are tested only after a clean scan |
| Tachograph.NineHourGapSuffices | backend/routes/viajesDiscrecionales.js:138 | a gap of exactly 9 hours on either side is accepted |
| Tachograph.ShorterGapRejected | backend/routes/viajesDiscrecionales.js:151-156 | a gap 1 ms shorter is rejected as rest-after or rest-before |
| Tachograph.CheckTachograph | backend/routes/viajesDiscrecionales.js:123-174 | the loop with early returns gives the verdict of Evaluate on the queried trips |
| Tachograph.Passes | backend/batch_assign.js:47-74 | the isValid/break loop and the final limit test accept exactly when Evaluate says Ok |
| Tachograph.WeekBucketAtTurnOfYear | backend/routes/viajesDiscrecionales.js:164 | in UTC, trips 52 weeks apart share a weekly total while trips of one Monday-to-Sunday week across New Year do not |
| Tachograph.TenHoursInOneDayRejected | backend/routes/viajesDiscrecionales.js:159-161 | 5 h + 5 h departing on the same day is rejected with a daily total of 10 h |
| Tachograph.NineHoursInOneDayAccepted | backend/routes/viajesDiscrecionales.js:170 | 4 h + 5 h on one day, 9 h apart, is exactly the limit and is accepted |
| Assignment.Candidates | backend/routes/viajesDiscrecionales.js:215-217 | a driver is a candidate exactly when it is in the roster, its role is 'conductor' or 'driver', and it is active |
| Assignment.FirstCompliant | backend/routes/viajesDiscrecionales.js:236-266 | a driver found by the search is accepted by the check |
| Assignment.FirstCompliantIsFirst | backend/routes/viajesDiscrecionales.js:236-266 | no driver is found exactly when the check rejects every candidate; a found driver is the earliest candidate the check accepts |
| Assignment.SearchRoster | backend/routes/viajesDiscrecionales.js:236-266 | the candidate loop with its break returns the first compliant candidate |
| Assignment.ConsideredLoad | backend/routes/viajesDiscrecionales.js:158-166 | the driving totals of the queried trips are the driver's load less the trip's own row |
| Assignment.RestKept | backend/routes/viajesDiscrecionales.js:146-156 | a row with a driver accepted at its times may replace a row without breaking the 9-hour rest between any two trips |
| Assignment.LimitsKept | backend/routes/viajesDiscrecionales.js:158-171 | such a replacement keeps every driver within 9 hours a day and 56 hours a week |
| Assignment.ReplaceKeepsCompliance | backend/routes/viajesDiscrecionales.js:186-193 | replacing a row by an admissible one keeps the table compliant, with unique ids and ordered times |
| Assignment.AssignKeepsCompliance | backend/routes/viajesDiscrecionales.js:262-272 | writing a driver that the check accepted keeps the table compliant |
| Assignment.AssignKeepsRest | backend/routes/viajesDiscrecionales.js:254-256 | writing a driver that passed the scan keeps every pair of a driver's confirmed trips 9 hours apart, whatever the daily and weekly totals |
| Assignment.AssignFrame | backend/batch_assign.js:78-81 | the UPDATE changes only the driver (and, when confirming, the status) of the rows with that id |
| TripRoutes.FindTrip | backend/routes/viajesDiscrecionales.js:209-210 | the lookup finds the first row with the id, or reports that no row has it |
| TripRoutes.AutoAssign | backend/routes/viajesDiscrecionales.js:207-279 | 404 when the trip is absent; 409 when no candidate passes; otherwise the first compliant candidate becomes the trip's driver and nothing else changes; the driver is an eligible roster member; compliance is preserved, and so is the rest rule alone on a table already over a driving limit |
| TripRoutes.ApplyEdit | backend/routes/viajesDiscrecionales.js:192-193 | every field of the body replaces that field of the trip's row; other rows are unchanged |
| TripRoutes.CheckedDriverAsWritten | backend/routes/viajesDiscrecionales.js:182 | as written, the checked driver is the body's conductor_id, and none when the body has no conductor_id |
| TripRoutes.CheckedDriver | backend/routes/viajesDiscrecionales.js:182 | corrected: the checked driver is the driver the row has after the update |
| TripRoutes.UpdateTrip | backend/routes/viajesDiscrecionales.js:77-201 | 400 without fields; 404 for a missing trip; 409 with the check's verdict when the check objects; otherwise the edit is applied; a 409 needs a driver or date change; compliance is preserved for edits in SafeEdit (new times in order, a confirmation comes with a driver or a date) |
| TripRoutes.UpdateTripAsWritten | backend/routes/viajesDiscrecionales.js:77-201 | as written: the table changes exactly when the body has fields, the row exists and the check is not reached, and then by the edit; when the check is reached the answer is 500 and nothing is written; no answer is a 409 |
| TripRoutes.DriverEditNeverWrites | backend/routes/viajesDiscrecionales.js:105-132 | as written, a PUT that sets a driver never changes the table and is answered 404 or 500 |
| TripRoutes.DriverEditFailsAsWritten | backend/routes/viajesDiscrecionales.js:115-132 | putting driver 1 on a lone pending 4-hour trip passes the corrected validation, yet as written it fails with 500 and writes nothing |
| TripRoutes.UpdateKeepsCompliance | backend/routes/viajesDiscrecionales.js:176-193 | an edit that passes the corrected validation keeps the table compliant |
| TripRoutes.DateOnlyEditSkipsCheck | backend/routes/viajesDiscrecionales.js:176-190 | as written, moving a trip onto another trip of its driver passes validation, is written, and breaks compliance; the corrected resolver reports the overlap |
| BatchAssign.PendingOf | backend/batch_assign.js:17 | the job's trips are exactly the pending rows |
| BatchAssign.PendingByDeparture | backend/batch_assign.js:17 | the pending rows, ordered by departure |
| BatchAssign.BatchRun | backend/batch_assign.js:35-88 | every pending trip is counted once, as a success or a failure; the table keeps its size |
| BatchAssign.RunBatch | backend/batch_assign.js:12-97 | the job's table and counters are those of the sequential specification over the pending trips in order of departure; the counters add up to the number of pending trips; compliance is preserved, and so is the rest rule alone on a table already over a driving limit |
| BatchAssign.AssignEach | backend/batch_assign.js:35-88 | the loop over the pending trips computes the sequential specification |
| BatchAssign.BatchRunKeepsCompliance | backend/batch_assign.js:35-88 | every assignment the job writes keeps the table compliant |
| BatchAssign.BatchRunKeepsRest | backend/batch_assign.js:54-80 | a table with no overlap and 9 hours of rest between any two confirmed trips of a driver stays that way after the job, even when some driving total was already over its limit |
| BatchAssign.BatchRunFrame | backend/batch_assign.js:77-81 | the job keeps each row's id and times; a row it changes is confirmed with a driver and belongs to a pending trip |
| Pricing.RequiredBreaksHours | gestion-discrecionales.js:231-234 | the result is 0.75 h times n, where n is the number of complete 4.5-hour blocks of driving |
| Pricing.RequiredBreaksMonotone | gestion-discrecionales.js:231-234 | more driving never needs fewer breaks |
| Pricing.WindowHours | gestion-discrecionales.js:271 | the window is the hours from departure to arrival, and 0 when the arrival is not later |
| Pricing.FitsWithoutDates | gestion-discrecionales.js:266-269 | without both dates the pre-check never objects |
| Pricing.FitsBounds | gestion-discrecionales.js:271-279 | a trip that passes drives at most 4.5 h each way, and its round-trip driving fits in the window |
| Pricing.LaterArrivalStillFits | gestion-discrecionales.js:271-279 | a later arrival never turns an accepted trip down |
| Pricing.ShorterRouteStillFits | gestion-discrecionales.js:272-279 | a shorter route never turns an accepted trip down |
| Pricing.SixHoursEachWayNeverFits | gestion-discrecionales.js:276 | 12 hours of round-trip driving is refused whatever the dates |
| Pricing.FourHoursEachWayNeedsEightFortyFive | gestion-discrecionales.js:271-279 | 4 h each way fits in an 8 h 45 min window and not in one a millisecond shorter |
| Pricing.DaysBetween | gestion-discrecionales.js:182-185 | the day count is at least 1, covers the interval, and is the least such count |
| Pricing.Nights | gestion-discrecionales.js:202 | nights are one fewer than the days and never negative |
| Pricing.Cost | gestion-discrecionales.js:191-215 | the advance is a fifth of the total and the remainder the rest; two drivers exactly when a second driver is chosen; the nights follow the days |
| Pricing.BaseFare | gestion-discrecionales.js:195-197 | with neither extra, the price is 2 € per km, 1.20 € per seat and 50 € per day after the first |
| Pricing.SecondDriverSurcharge | gestion-discrecionales.js:199-200 | a second driver adds 180 € per day, and also doubles the overnight cost when both are chosen |
| Pricing.OvernightSurcharge | gestion-discrecionales.js:202-203 | an overnight stay adds 120 € per night for each driver |
| Pricing.OvernightFreeOnOneDay | gestion-discrecionales.js:202-203 | on a one-day trip the overnight choice does not change the quote |
| Pricing.ExtrasNeverLower | gestion-discrecionales.js:199-205 | the extras never lower the price |
| Resources.LargeEnough | gestion-discrecionales.js:333 | the filter keeps exactly the buses with at least the needed seats |
| Resources.BusCandidates | gestion-discrecionales.js:333-334 | the candidates are ordered by seat count (a missing count counts as 999), and they are exactly the buses that are large enough |
| Resources.FirstFreeBusIsSmallest | gestion-discrecionales.js:335-337 | the first free candidate has no more seats than any free bus that is large enough |
| Resources.AllBusesUsed | gestion-discrecionales.js:335-339 | when every candidate is busy, so is every bus that is large enough |
| Resources.FindAvailableBus | gestion-discrecionales.js:330-340 | a returned bus is in the fleet, large enough, free, and the smallest such bus; nothing is returned exactly when every large-enough bus is busy |
| Resources.LowerString | gestion-discrecionales.js:343 | lower-casing keeps the length and lowers each letter |
| Resources.DriverRoleSpellings | gestion-discrecionales.js:343 | 'Driver' and 'DRIVER' match the driver role; 'conductor' and a missing role do not |
| Resources.DriverPool | gestion-discrecionales.js:343 | the pool is exactly the staff with the driver role, other than the excluded id |
| Resources.FirstFree | gestion-discrecionales.js:345-348 | a returned driver is in the pool and has no overlapping trip |
| Resources.PoolSearch | gestion-discrecionales.js:342-350 | filtering first and then searching finds the same driver as the reference search |
| Resources.FirstFreeDriverIsFirst | gestion-discrecionales.js:342-350 | nobody is returned exactly when every selectable employee is busy; otherwise the earliest selectable free employee is returned |
| Resources.FindAvailableDriver | gestion-discrecionales.js:342-350 | the loop returns the reference search's answer |
| Negotiation.BookingPage.constructor | gestion-discrecionales.js:27-31 | no route, one day, no extras, dialog closed, nothing sent |
| Negotiation.BookingPage.SetRoute | gestion-discrecionales.js:68-69 | a found route replaces the distance and duration; nothing else changes |
| Negotiation.BookingPage.UpdateDays | gestion-discrecionales.js:179-188 | with both dates, the day count becomes DaysBetween of them; otherwise it is unchanged |
| Negotiation.BookingPage.ConfirmAndSave | gestion-discrecionales.js:352-385 | a complete form that the server accepts is sent as an accepted trip at the current price and clears both extras; otherwise nothing is sent and the extras stay |
| Negotiation.BookingPage.CreatePendingRequest | gestion-discrecionales.js:387-413 | a complete form that the server accepts is sent as a pending request at the current price; the extras stay |
| Negotiation.BookingPage.OnConfirmClick | gestion-discrecionales.js:453-459 | days refreshed, extras cleared; a fitting trip is saved at the plain price, else the confirm dialog opens and nothing is sent |
| Negotiation.BookingPage.OnGenerateClick | gestion-discrecionales.js:415-451 | a fitting trip is sent as a request at the current price, else the request dialog opens; the extras are kept |
| Negotiation.BookingPage.ChooseSecondDriver | gestion-discrecionales.js:281-287 | the dialog closes and the second-driver flag is set; a confirm attempt saves the trip with that surcharge alone; a request keeps the overnight flag as it was |
| Negotiation.BookingPage.ChooseOvernight | gestion-discrecionales.js:288-295 | the dialog closes and the overnight flag is set; a confirm attempt saves the trip with that surcharge alone; a request keeps the second-driver flag as it was |
| Negotiation.BookingPage.CancelDialog | gestion-discrecionales.js:258-261 | the dialog closes and nothing else changes |

## Left out

- SQL, HTTP, authentication, the DOM, maps, geocoding and routing, PDF generation, toasts, the 900 ms redirect and `localStorage` are all left out. Query results, the trip table, the fleet, the staff, the route's distance and duration, and the server's answer to a submission are parameters.
- Database errors and the `try`/`catch` paths that turn them into a 500, an alert or a console message are left out. A failed submission is modelled as a flag.
- Concurrency is left out. Each handler and the batch job is modelled as one atomic step on the table, and interleaved requests are not modelled.
- Floating point is left out. Driving hours on the server are integer milliseconds compared with 9 h and 56 h exactly. Hours and euros on the booking page are exact reals, so rounding of `0.20`, `1.2` or `routeSeconds / 3600` is not modelled.
- Local time is a `LocalCalendar` parameter, or a fixed-offset `Zone`. Daylight-saving changes, leap seconds and dates outside the JavaScript Date range are not modelled.
- The PUT body is modelled only for what validation reads: conductor_id, the two dates and estado, plus whether any other updatable column is present. Other columns are not modelled individually.
- A PUT body that sets a date to null or empty is not modelled; a date present in the body always carries a value.
- `affectedRows` is modelled as whether some row has the id.
- The response bodies are left out: the re-read row, the error texts and the driving totals formatted with one decimal.
- Ordering of rows with equal sort keys is left out. The model fixes one order for query results and for `ORDER BY fecha_salida`; SQL leaves ties unspecified.
- Number parsing is left out. `parseInt` of the seats and days fields is given as an integer, and NaN is not modelled. Invalid dates are `None`.
- Lower-casing covers only the ASCII letters.
- The `dias` field is shown to the user. The model keeps its value as the page's day count and does not model the user editing it by hand.
- TripRoutes.UpdateTrip: compliance is preserved only for edits in `SafeEdit`, because the handler writes two kinds of edit that can break it. A body that sets estado to 'confirmado' without a driver or a date is written without any check, and can confirm a trip that breaks the rules. An edit whose new arrival is before its new departure is checked, and an accepted one is written with its times inverted.
- Pricing.FitsBounds: requires a non-negative one-way time. Routing durations and distances are never negative.
- Negotiation.BookingPage.OnConfirmClick: requires the dialog to be closed, because the dialog's backdrop covers the page while it is open.
- Negotiation.BookingPage.OnGenerateClick: requires the dialog to be closed, for the same reason.
- `findAvailableBus` and `findAvailableDriver` are modelled, although no handler in the file calls them.
- The chat, the payment marker and the PDF summary of the booking page are outside the modelled core.

## Findings

| source | as written | input that shows it | evidently intended | confidence | as-written member | corrected member |
|---|---|---|---|---|---|---|
| backend/routes/viajesDiscrecionales.js:182 | `newDriverId` starts as `null` and is compared with `undefined`, so when the body has no conductor_id the checked driver is null and the check is skipped | trips 1 (0–4 h) and 2 (48–52 h), both confirmed with driver 1; PUT /2 with only fecha_salida = 1 h and fecha_llegada = 3 h is written and makes the two trips overlap | fall back to the trip's current driver, as the comment at line 176 says (validate date changes for a trip with a driver) | not executed | TripRoutes.CheckedDriverAsWritten (shown by TripRoutes.DateOnlyEditSkipsCheck, which also shows TripRoutes.UpdateTripAsWritten writing the edit) | TripRoutes.CheckedDriver (used by TripRoutes.UpdateTrip; proved by TripRoutes.UpdateKeepsCompliance) |
| backend/routes/viajesDiscrecionales.js:115 | the handler's own getWeek reads `arguments` inside arrow functions of an ES module (the file uses `import`/`export`), which throws a ReferenceError; checkTachograph calls it at line 132 before its loop, so every PUT that reaches the check answers 500 and writes nothing | an existing trip 1 (0–4 h, pending, no driver) and PUT /1 with conductor_id = 1 only: the corrected validation accepts it, as written the answer is 500 and the trip keeps no driver | the week of its argument `d`, as the identical copies at lines 225-231 and in backend/batch_assign.js:4-10 compute it | not executed | TripRoutes.UpdateTripAsWritten (shown by TripRoutes.DriverEditNeverWrites and TripRoutes.DriverEditFailsAsWritten) | TripRoutes.UpdateTrip (uses Tachograph.CheckTachograph with the working getWeek; proved by TripRoutes.UpdateKeepsCompliance) |
