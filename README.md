# Day-off date handling of the Crew web client

This project models, in Dafny, the day-off date handling of the Crew web
client, a React single-page app. The handling is spread over three components:

- **Day-off modal** (`src/components/DayOffModal.tsx`). It has masked text
  inputs for dates (`DD/MM/YYYY`: at most 8 digits, `/` after the 2nd and 4th)
  and times (`HH:MM`: at most 4 digits, `:` after the 2nd). `formatDate` turns
  an instant into `DD/MM/YYYY`, and `parseDisplayDate` reshapes that into
  `YYYY-MM-DD`. The submit handler builds the local literal
  `YYYY-MM-DDTHH:MM`, builds the payload (the repeat fields only when
  `repeat` is set), calls `onSave` while busy, closes the modal only on
  success, and clears the busy flag on every path.
- **Mini calendar** (`src/components/MiniCalendar.tsx`). A month-view tile is
  marked when its midnight-truncated day lies in the inclusive range
  [start day, end day] of some fetched day-off. A month fetch queries the
  visible date's year and its 1-based month. It replaces the list on success
  (a null body gives the empty list) and keeps it on failure.
- **Calendar page** (`src/pages/CalendarPage.tsx`). `isSameDay` compares day,
  month and year. A click deletes the first day-off that *starts* on the
  clicked day, after confirmation and by id, with mode `single`. If there is
  no such day-off, the click creates an 08:00–18:00 non-repeating day-off and
  appends what the store returns. A tile is highlighted only when some
  day-off starts on its day.

Modelling choices:

- **Instants.** An instant is a record of local wall-clock fields, in the
  order the `Date` getters return them: year, 0-based month index, day,
  hour, minute, second, millisecond (`Instants.Instant`). Comparing the
  timestamps of valid instants is comparing these fields lexicographically.
  A midnight-truncated comparison is therefore a comparison of
  (year, month, day) (`Instants.MidnightOrder`).
- **The `DayOff` record** (`DayOffTypes.DayOff`) uses the modal's four
  recurrence kinds: daily, weekly, monthly, yearly. The stored type in
  `src/types/dayoff.ts` declares weekly, monthly, daily and none instead.
  `DayOffTypes.Stored` keeps this mismatch visible: `yearly` has no stored
  counterpart.
  The record follows the fields of `src/types/dayoff.ts:1-11`, except that
  `init_hour` and `end_hour` hold instants rather than ISO strings and every
  optional field is an `Option`.
- **Outside collaborators become parameters.** These are the REST calls, the
  `onSave` prop, `confirm()`, and the platform's parse of the local literal
  (`new Date(literal)`, where an invalid literal makes `toISOString` throw).
  Each handler is a class method over the component's state. It is proved
  against a pure function of the old state and the outcomes
  (`DayOffModal.SubmitRequest`, `CalendarPage.Click`,
  `DayOffTypes.AfterFetch`), and the lemmas are stated about those functions.
- **JavaScript semantics kept.** `existing && existing.id` treats the id `0`
  like a missing id (`CalendarPage.HasTruthyId`). Destructuring
  `split('/')` into `[d, m, y]` renders a missing piece as `undefined` in the
  result (`DayOffModal.ParseDisplayDate`).

## Model

| member | source | states |
|---|---|---|
| `DayOffTypes.Stored` | src/types/dayoff.ts:7 | a submitted recurrence kind has a stored counterpart exactly when it is not `yearly`, and none maps to the stored `none` |
| `DayOffTypes.AfterFetch` | src/components/MiniCalendar.tsx:16-21 | a failed fetch keeps the list, a null body gives the empty list, any other body replaces the list wholesale |
| `Instants.SetHours` | src/pages/CalendarPage.tsx:54-57 | `setHours` keeps the calendar day, sets the time of day, and keeps a valid instant valid for in-range arguments |
| `Instants.Midnight` | src/components/MiniCalendar.tsx:33-35 | truncation keeps the calendar day and zeroes hour, minute, second and millisecond |
| `Instants.MidnightOrder` | src/components/MiniCalendar.tsx:33-36 | comparing midnight-truncated instants is the date-only order on (year, month, day) |
| `Instants.SameDateIffSameMidnight` | src/components/MiniCalendar.tsx:33-35 | two instants fall on the same day iff their midnights are equal |
| `Instants.DayLeTotalPreorder` | src/components/MiniCalendar.tsx:36 | the date-only order is reflexive, total and transitive, and its two-way case is same-day |
| `JsStrings.Digits` | src/components/DayOffModal.tsx:96 | `replace(/\D/g, '')` yields only digits and never lengthens the string |
| `JsStrings.DigitsConcat` | src/components/DayOffModal.tsx:96 | stripping non-digits distributes over concatenation |
| `JsStrings.DigitsOfDigits` | src/components/DayOffModal.tsx:96 | stripping non-digits leaves a string unchanged exactly when it is all digits |
| `JsStrings.Split` | src/components/DayOffModal.tsx:31 | `split` yields at least one piece and no piece contains the separator |
| `JsStrings.SplitJoin` | src/components/DayOffModal.tsx:31 | joining the pieces of a split with the separator gives back the string |
| `JsStrings.SplitNoSeparator` | src/components/DayOffModal.tsx:31 | a string without the separator splits into itself alone |
| `JsStrings.SplitAtSeparator` | src/components/DayOffModal.tsx:31 | splitting `a/b` with separator-free `a` yields `a` followed by the pieces of `b` |
| `JsStrings.NatToString` | src/components/DayOffModal.tsx:24-26 | `String(n)` yields at least one digit, all of them decimal digits |
| `JsStrings.NatToStringNoLeadingZero` | src/components/DayOffModal.tsx:24-26 | `String(n)` of more than one digit does not start with `0` |
| `JsStrings.IntToString` | src/components/DayOffModal.tsx:26 | `String(i)` is all digits for a non-negative integer and starts with `-` for a negative one |
| `JsStrings.NatValueOfNatToString` | src/components/DayOffModal.tsx:24-26 | reading the decimal digits of `String(n)` gives back `n` |
| `JsStrings.NatToStringLength` | src/components/DayOffModal.tsx:24-26 | `String(n)` has 1 digit below 10, 2 digits for 10..99, 3 for 100..999 and 4 for 1000..9999 |
| `JsStrings.PadStart` | src/components/DayOffModal.tsx:24-25 | `padStart` with a one-character fill (characterised by `JsStrings.PadStartSpec`) |
| `JsStrings.PadStartSpec` | src/components/DayOffModal.tsx:24-25 | `padStart` keeps the string as the suffix, fills only the missing positions and reaches the width |
| `JsStrings.NatValueLeadingZero` | src/components/DayOffModal.tsx:24-25 | a leading `0` from padding does not change the value of the digits |
| `DayOffModal.Keep` | src/components/DayOffModal.tsx:97 | truncation keeps a prefix whose length is the smaller of the input length and the cap |
| `DayOffModal.DateMask` | src/components/DayOffModal.tsx:95-101 | the masked date is at most 10 characters long |
| `DayOffModal.DateMaskDigits` | src/components/DayOffModal.tsx:96-97 | the masked date holds only digits and `/`, and its digits are exactly the first 8 digits typed, in order |
| `DayOffModal.DateMaskLayout` | src/components/DayOffModal.tsx:98-99 | with k kept digits, `/` is at index 2 iff k >= 3 and at index 5 iff k >= 5, and nowhere else |
| `DayOffModal.DateMaskIdempotent` | src/components/DayOffModal.tsx:96-99 | masking a masked date changes nothing |
| `DayOffModal.DateMaskTyping` | src/components/DayOffModal.tsx:95-101 | typing a digit after a masked date adds it to the kept digits while fewer than 8 are kept, and a 9th digit is rejected |
| `DayOffModal.DateMaskTypingScenario` | src/components/DayOffModal.tsx:95-101 | typing 15032024 renders 15, 15/0, 15/03, 15/03/2, 15/03/20, 15/03/202, 15/03/2024, and a 9th digit changes nothing |
| `DayOffModal.DayMonthIsMasked` | src/components/DayOffModal.tsx:99 | `DD/M` and `DD/MM` are fixed points of the date mask |
| `DayOffModal.FullDateIsMasked` | src/components/DayOffModal.tsx:98 | `DD/MM/Y` up to `DD/MM/YYYY` are fixed points of the date mask, with digits DD MM Y.. |
| `DayOffModal.TimeMask` | src/components/DayOffModal.tsx:130-135 | the masked time is at most 5 characters long |
| `DayOffModal.TimeMaskDigits` | src/components/DayOffModal.tsx:131-132 | the masked time holds only digits and `:`, and its digits are exactly the first 4 digits typed, in order |
| `DayOffModal.TimeMaskLayout` | src/components/DayOffModal.tsx:133 | `:` sits at index 2 exactly when at least 3 digits are kept, and nowhere else |
| `DayOffModal.TimeMaskIdempotent` | src/components/DayOffModal.tsx:131-133 | masking a masked time changes nothing |
| `DayOffModal.DefaultHoursAreMasked` | src/components/DayOffModal.tsx:16-17 | the default hours `08:00` and `18:00` are fixed points of the time mask |
| `DayOffModal.DigitsOfTwoGroups` | src/components/DayOffModal.tsx:96 | stripping non-digits from two digit groups around a separator gives the two groups joined |
| `DayOffModal.DigitsOfThreeGroups` | src/components/DayOffModal.tsx:96 | stripping non-digits from three digit groups joined by a separator gives the groups joined |
| `DayOffModal.Pad2` | src/components/DayOffModal.tsx:24-25 | a padded number has at least two characters and never contains `/` |
| `DayOffModal.NoSlashInIntToString` | src/components/DayOffModal.tsx:26 | `String(i)` never contains `/`, for negative integers too |
| `DayOffModal.FormatDate` | src/components/DayOffModal.tsx:23-28 | for every date, splitting the formatted date at `/` gives exactly the padded day, the padded month (month index + 1) and the year |
| `DayOffModal.SplitThreePieces` | src/components/DayOffModal.tsx:27-31 | three `/`-free pieces joined by `/` split back into exactly those pieces |
| `DayOffModal.Pad2Value` | src/components/DayOffModal.tsx:24-25 | a day or month number padded to two digits has two digits that read back as the number |
| `DayOffModal.FormatDatePieces` | src/components/DayOffModal.tsx:23-28 | for day 1..31, month index 0..11 and year 1000..9999 the formatted date is two 2-digit groups and a 4-digit group that read back as day, month index + 1 and year |
| `DayOffModal.YearDigits` | src/components/DayOffModal.tsx:26 | a year in 1000..9999 prints as 4 digits that read back as the year |
| `DayOffModal.DisplayDateParts` | src/components/DayOffModal.tsx:27 | joining 2, 2 and 4 characters with `/` puts `/` at 2 and 5 and the groups at 0..2, 3..5 and 6..10 |
| `DayOffModal.FormatDateShape` | src/components/DayOffModal.tsx:23-28 | for a year in 1000..9999 the formatted date has length 10, `/` at 2 and 5, and its groups read back as day, month index + 1 and year |
| `DayOffModal.FormatDateIsMasked` | src/components/DayOffModal.tsx:23-28 | for a year in 1000..9999 the date mask leaves a formatted date unchanged |
| `DayOffModal.ParseDisplayDateOfPieces` | src/components/DayOffModal.tsx:30-33 | `DD/MM/YYYY` with separator-free pieces is reshaped to `YYYY-MM-DD` |
| `DayOffModal.ParseDisplayDate` | src/components/DayOffModal.tsx:30-33 | without any `/` the result is `undefined-undefined-` followed by the input: the missing month and year pieces render as `undefined` |
| `DayOffModal.Piece` | src/components/DayOffModal.tsx:31-32 | a destructured piece is the split piece at that position, or `undefined` when the split has fewer pieces |
| `DayOffModal.ParseDisplayDateDoesNotValidate` | src/components/DayOffModal.tsx:30-33 | no calendar validation: `31/02/2024` becomes `2024-02-31` |
| `DayOffModal.FormatParseRoundTrip` | src/components/DayOffModal.tsx:23-33 | for a year in 1000..9999, reshaping a formatted date gives `YYYY-MM-DD` whose fields read back as year, month index + 1 and day |
| `DayOffModal.ReshapeFormatDate` | src/components/DayOffModal.tsx:23-33 | for every date, whatever its year or sign, reshaping its formatted form gives year, padded month and padded day joined by `-` |
| `DayOffModal.IsoDateFields` | src/components/DayOffModal.tsx:32 | that `YYYY-MM-DD` string has 10 characters, `-` at 4 and 7, and fields that read back as year, month index + 1 and day |
| `DayOffModal.IsoDateParts` | src/components/DayOffModal.tsx:32 | a `YYYY-MM-DD` string has `-` at 4 and 7 and its pieces at 0..4, 5..7 and 8..10 |
| `DayOffModal.LocalLiteralShape` | src/components/DayOffModal.tsx:49-54 | the literal from a formatted date and a fully typed masked time is `YYYY-MM-DDTHH:MM`: 16 characters with `-`, `-`, `T`, `:` at 4, 7, 10, 13 |
| `DayOffModal.LiteralParts` | src/components/DayOffModal.tsx:53 | joining a 10-character date and a 5-character time with `T` puts the separators at 4, 7, 10 and 13 |
| `DayOffModal.DefaultCreateLiteral` | src/components/DayOffModal.tsx:35-54 | a day-off opened on any instant of 15/03/2024 with the default start hour builds the literal `2024-03-15T08:00` |
| `DayOffModal.IsoDateOfMarch15` | src/components/DayOffModal.tsx:23-33 | any instant of 15/03/2024 reshapes to `2024-03-15` |
| `DayOffModal.LocalLiteral` | src/components/DayOffModal.tsx:53-54 | the literal is the reshaped date, `T`, then the hour field (shape stated by `DayOffModal.LocalLiteralShape`) |
| `DayOffModal.SubmitRequest` | src/components/DayOffModal.tsx:49-65 | a payload exists iff both literals parse; it carries both instants and `repeat` always, and `repeat_type`/`repeat_value` iff `repeat` is set, with the form's values; it has no id, user id or timestamps |
| `DayOffModal.Modal.constructor` | src/components/DayOffModal.tsx:14-21 | the form starts empty with hours 08:00/18:00, no repeat, weekly, count 1, not busy |
| `DayOffModal.Modal.Open` | src/components/DayOffModal.tsx:35-40 | opening with a selected date sets both dates to its formatted form; otherwise nothing changes |
| `DayOffModal.Modal.TypeInitDate` | src/components/DayOffModal.tsx:95-101 | the start date field holds the mask of what was typed |
| `DayOffModal.Modal.TypeEndDate` | src/components/DayOffModal.tsx:111-117 | the end date field holds the mask of what was typed |
| `DayOffModal.Modal.TypeInitHour` | src/components/DayOffModal.tsx:130-135 | the start hour field holds the time mask of what was typed |
| `DayOffModal.Modal.TypeEndHour` | src/components/DayOffModal.tsx:145-150 | the end hour field holds the time mask of what was typed |
| `DayOffModal.Modal.SetRepeat` | src/components/DayOffModal.tsx:161 | the repeat flag follows the checkbox |
| `DayOffModal.Modal.SelectRepeatType` | src/components/DayOffModal.tsx:173 | the recurrence kind follows the selection, `yearly` included |
| `DayOffModal.Modal.TypeRepeatCount` | src/components/DayOffModal.tsx:189 | the occurrence count is stored as typed, unbounded |
| `DayOffModal.Modal.HandleSubmit` | src/components/DayOffModal.tsx:44-75 | `onSave` receives the payload of the form while busy; `onClose` runs only when it succeeds; any failure alerts; the busy flag is false after every path; the form is unchanged |
| `MiniCalendar.Covers` | src/components/MiniCalendar.tsx:31-36 | the callback of `some`: the tile's midnight lies between the start's and the end's midnights, inclusive (characterised by `MiniCalendar.SomeCovers`) |
| `MiniCalendar.SomeCovers` | src/components/MiniCalendar.tsx:30-37 | `some` holds iff some day-off has start day <= tile day <= end day |
| `MiniCalendar.TileMarked` | src/components/MiniCalendar.tsx:28-44 | a tile is marked iff the view is the month view and some day-off's inclusive date-only range contains its day |
| `MiniCalendar.OtherViewsUnmarked` | src/components/MiniCalendar.tsx:29-43 | tiles of views other than the month view are never marked |
| `MiniCalendar.MarkingIgnoresTimeOfDay` | src/components/MiniCalendar.tsx:33-35 | moving any start, end or tile instant to another time on the same day keeps the marking |
| `MiniCalendar.InvertedRangeCoversNothing` | src/components/MiniCalendar.tsx:36 | a day-off ending on a day before its start day marks no tile |
| `MiniCalendar.AppendMarks` | src/components/MiniCalendar.tsx:30 | after appending a day-off, the marked tiles are the old ones plus the days it covers, so none is unmarked |
| `MiniCalendar.MonthQueryOf` | src/components/MiniCalendar.tsx:13-14 | the query names the date's full year and its month numbered 1..12 (0-based month + 1) |
| `MiniCalendar.Calendar.constructor` | src/components/MiniCalendar.tsx:9 | the list starts empty |
| `MiniCalendar.Calendar.FetchDayOffs` | src/components/MiniCalendar.tsx:12-22 | the query is the month of the date; the list is replaced on success (empty for a null body) and kept on failure |
| `MiniCalendar.Calendar.ActiveStartDateChange` | src/components/MiniCalendar.tsx:53-57 | a new visible start date triggers a fetch of its month; no date changes nothing |
| `CalendarPage.IsSameDay` | src/pages/CalendarPage.tsx:14-18 | same day of month, month and full year (characterised by `CalendarPage.IsSameDayIsEquivalence`) |
| `CalendarPage.IsSameDayIsEquivalence` | src/pages/CalendarPage.tsx:14-18 | `isSameDay` is reflexive, symmetric and transitive, and holds iff the midnights are equal |
| `CalendarPage.FindStartingOn` | src/pages/CalendarPage.tsx:39-42 | `find` returns nothing iff no day-off starts on the day, and otherwise the first one that does |
| `CalendarPage.Highlighted` | src/pages/CalendarPage.tsx:78-85 | a tile is highlighted iff the view is the month view and some day-off starts on its day |
| `CalendarPage.HighlightedImpliesMarked` | src/pages/CalendarPage.tsx:78-85 | when no range is inverted, every highlighted tile is also marked by the mini calendar |
| `CalendarPage.MultiDayRangeHighlightsStartOnly` | src/pages/CalendarPage.tsx:78-85 | a two-day day-off marks its second day in the mini calendar but does not highlight it here |
| `CalendarPage.RemoveId` | src/pages/CalendarPage.tsx:50 | the filter never lengthens the list and leaves no entry with the removed id |
| `CalendarPage.RemoveIdMembership` | src/pages/CalendarPage.tsx:50 | an entry survives iff it was in the list and carries another id or none |
| `CalendarPage.RemoveIdConcat` | src/pages/CalendarPage.tsx:50 | the filter distributes over concatenation, so the kept entries keep their order |
| `CalendarPage.RemoveIdAbsent` | src/pages/CalendarPage.tsx:50 | without an entry carrying the id, the list is unchanged |
| `CalendarPage.NewDayOff` | src/pages/CalendarPage.tsx:54-63 | the created day-off runs from 08:00:00.000 to 18:00:00.000 on the clicked day, in order, with `repeat` false and no recurrence kind, count, id, user id or timestamps |
| `CalendarPage.HasTruthyId` | src/pages/CalendarPage.tsx:46 | `existing && existing.id`: an id is present and is not 0 |
| `CalendarPage.Click` | src/pages/CalendarPage.tsx:33-75 | every delete uses mode `single`; every request is sent while busy; an alert appears exactly when a request was sent and the store call failed (a rejected delete or a create that returned nothing), and then the list is unchanged |
| `CalendarPage.ClickDeleteRemovesId` | src/pages/CalendarPage.tsx:46-50 | a confirmed, successful delete sends the first match's id with mode `single` and keeps exactly the entries with another id |
| `CalendarPage.ClickDeleteFailsKeepsList` | src/pages/CalendarPage.tsx:46-50 | a confirmed delete that the store rejects sends the request, alerts and keeps the list |
| `CalendarPage.ClickDeclinedKeepsList` | src/pages/CalendarPage.tsx:48 | declining the prompt sends nothing and leaves the list unchanged |
| `CalendarPage.ClickFirstMatchWithoutIdCreates` | src/pages/CalendarPage.tsx:39-46 | if the first match has no id or id 0, the click takes the create branch |
| `CalendarPage.ClickCreateAppends` | src/pages/CalendarPage.tsx:52-67 | with no match, or a first match without a usable id, the click posts the 08:00–18:00 day-off; the new list is the old one plus the returned entry when the store returns one, and an alert appears exactly when it does not |
| `CalendarPage.ClickTwiceToggles` | src/pages/CalendarPage.tsx:33-67 | a created entry with an id on the clicked day is deleted by a second confirmed click on that day |
| `CalendarPage.Page.constructor` | src/pages/CalendarPage.tsx:9-11 | the page starts with an empty list, not busy |
| `CalendarPage.Page.FetchDayOffs` | src/pages/CalendarPage.tsx:20-27 | the list is replaced on success (empty for a null body) and kept on failure |
| `CalendarPage.Page.HandleDayClick` | src/pages/CalendarPage.tsx:33-75 | the list, the requests sent and the alerts follow `Click`; the busy flag is false after every path |

## Left out

- Time zones and the platform's date parsing are not modelled. This covers
  `new Date(...)` on ISO strings and on local literals, `toISOString`, and
  local-offset conversion. Instants are local wall-clock field records, and
  the parse of the local literal is a parameter. The wire encoding is taken
  to be injective, so a payload carries instants rather than ISO strings.
- REST calls (`api.get`, `api.post`, `api.delete`) and the `onSave` prop are
  outcome parameters, not network I/O. The URL text of a request is not
  built: the model records the query fields, the id and the `mode` value.
- `confirm` is a boolean parameter. `alert` and `console.error` are counted
  or dropped.
- React rendering, JSX, CSS class names and hook scheduling are not
  modelled. A tile's class is a boolean, and `setState` takes effect
  immediately. The calendar page's `selectedDate` state only drives
  rendering and is not modelled.
- `CalendarPage.Page.HandleDayClick` appends to the list as it stood at the
  click, while the source appends to the list captured by the handler's
  closure. The two differ only when another update lands while the request
  is in flight. Handlers are sequential here, so that interleaving is not
  modelled.
- `MiniCalendar.Calendar.FetchDayOffs` and
  `MiniCalendar.Calendar.ActiveStartDateChange` treat each month fetch as one
  atomic step whose response belongs to its own query. The source fetches
  on every navigation and never cancels an earlier request, so a slow
  response for a month left behind can replace the list after the visible
  month's response has arrived. The model cannot show this stale-month
  case.
- A `null` body from the create call would be appended as is by the
  source. Here a successful create always returns a day-off.
- The browser's constraint validation of the form is left out. The date
  and hour fields are `required`, and the occurrence count field (shown only
  while `repeat` is set) is `required` with `min` 1 and `max` 365. The form
  has no `noValidate`, so an empty required field or an out-of-range count
  keeps the submit handler from running at all. `handleSubmit` itself
  enforces none of this. `DayOffModal.Modal.HandleSubmit` models the handler
  alone: on an empty date it runs and alerts, because the literal
  `undefined-undefined-T08:00` does not parse.
- The modal renders nothing when closed, so submit is only reachable while
  it is open. Open/closed visibility is not modelled beyond the effect that
  fills the dates.
- `DayOffModal.FormatDateShape`, `DayOffModal.FormatDateIsMasked` and
  `DayOffModal.FormatParseRoundTrip` are stated only for days 1..31,
  month indexes 0..11 and years 1000..9999 (`DayOffModal.InFormatRange`).
  Other years give a year field that is not four digits wide.
- Scope-confirmation editing, edit mode and recurrence expansion do not
  exist in this code. The only `mode` a delete sends is `single`.
