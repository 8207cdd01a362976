# Appointment scheduler and project-detail extractors, in Dafny

This project models two parts of a personal portfolio web site and proves
properties of the model.

**The appointment scheduler** (`src/components/AppointmentScheduler.jsx`) is
a client-side booking widget with these parts:

- **Slot catalog.** A fixed catalog of half-hour slots from 9:00 AM to 5:00 PM.
- **Month grid.** A Sunday-based grid of the displayed month. Past days and
  weekend days cannot be picked, and the first selected day is moved off a
  weekend.
- **Booking ledger.** A list of `MM/DD/YYYY-H:MM AM` keys.
- **Three screens:** pick a slot, enter contact details, confirmation. The
  confirm step requires full name, email and message, and refuses a slot
  that is already booked.
- **Google Calendar link.** It parses the slot's time and covers a
  30-minute window. It writes UTC stamps `YYYYMMDDTHHMMSSZ` and
  percent-encodes the free text as `encodeURIComponent` does (section 2.1 of
  RFC 3986, UTF-8 octets). It adds the organizer as an attendee, and the
  client too when an email was given.
- **Timezone label.** Written as `GMT±HH:MM America/Toronto`.

**The project detail page** (`src/components/ProjectDetail.jsx`) mines a
project description:

- `extractTechnologies` matches whole keywords, ignoring case, against a
  table of about a hundred technologies. It keeps each name once and orders
  them by a fixed priority list.
- `extractFeatures` splits the description into sentences and keeps those
  with an action verb. It strips one leading conjunction, collapses white
  space, capitalises, adds a full stop and bounds the length. It keeps each
  feature once and at most the 8 longest.
- The page's effect looks the project up by identifier. It fills in the
  technology and feature lists only when they are missing or empty, and
  gives a default GitHub link.

Layout, one module per file:

| file | module | what |
|---|---|---|
| wrappers.dfy | Wrappers | `Option` |
| text.dfy | Text | decimal rendering and reading, `padStart`, JavaScript white space, `trim`, ASCII case mapping |
| civil_date.dfy | CivilDate | proleptic Gregorian dates as `(year, month 0..11, day)`, day numbers since 1970-01-01, weekday, the inverse from day numbers |
| collections.dfy | Collections | de-duplication in order of first appearance, `indexOf` |
| stable_sort.dfy | StableSort | the stable sort of `Array.prototype.sort` by an integer key |
| slot_catalog.dfy | SlotCatalog | `generateTimeSlots` |
| calendar_grid.dfy | CalendarGrid | `daysInMonth`, `handleMonthChange`, the disabled-day rule, the initial date, `isSameDay` |
| booking_ledger.dfy | BookingLedger | `getSlotKey`, `isSlotBooked`, the ledger append of `saveBookedSlot`, the confirm guard |
| timezone_label.dfy | TimezoneLabel | the offset label and its fallback |
| time_parse.dfy | TimeParse | the match `/(\d+):(\d+)\s*(AM\|PM)/i` and the 12-to-24-hour conversion |
| percent_encoding.dfy | PercentEncoding | `encodeURIComponent` and its inverse |
| calendar_link.dfy | CalendarLink | `generateGoogleCalendarLink` and `formatGoogleDate` |
| scheduler.dfy | Scheduler | the component as a class whose fields are its React state, one method per handler |
| word_match.dfy | WordMatch | a test of the regular expression `\bw\b` |
| tech_extraction.dfy | TechExtraction | `extractTechnologies` |
| feature_extraction.dfy | FeatureExtraction | `extractFeatures` |
| project_details.dfy | ProjectDetails | the project lookup and the fallback merge |

### How the model is set up

- **Host timezone.** The instant a local date and time denote is computed
  with an explicit offset parameter (minutes east of UTC). Toronto's offset
  is a parameter of the timezone label (`None` when the locale APIs throw).
- **Stored data.** The ledger read from storage, and the projects read from
  storage, are parameters.
- **The scheduler's state.** It is a class. Each handler is a method whose
  contract gives the whole new state. `Consistent()` is the invariant every
  handler keeps: the displayed month is in 0..11, the selected date is
  valid and not disabled, and the selected time is a slot of the catalog.
- **Loops.** The source's loops are methods proved equal to a reference
  function: `CollectSlots`, `BuildMonthGrid`, `ExtractTechnologies`,
  `TidySentence` and `ExtractFeatures`. The extractors take the keyword
  table, the priority list and the word lists as parameters. The constants
  of the site are passed by `ProjectDetails.LoadProject`. The slot loop is
  generic in how a label is written, and `GenerateTimeSlots` passes the
  site's format.

### Where the model follows the code

- **Slot key format.** The key's date part is fixed by the code to `en-US`
  `MM/DD/YYYY`, where the year is the year of the era, printed without a
  sign. The model uses that format and proves that the key can be read back
  for years 1 and later (`BookingLedger.SlotKeyRoundTrip`).
- **Default GitHub link.** The code writes `p.Github || default`, so an
  empty link is replaced as well as an absent one. The model follows the
  code (`ProjectDetails.GithubOrDefault`).
- **Feature endings.** The split on `/[.!?]+/` removes every `.`, `!` and
  `?`. So the check "does not end in `.!?`" always holds, and every feature
  ends in exactly one `.` (`FeatureExtraction.FeatureForm`).
- **`\b` after `c++` and `c#`.** A keyword that ends in a non-word
  character needs a word character right after it for `\b` to hold. The
  model keeps this behaviour: `WordMatch.BoundaryAt` is the regular
  expression's `\b`.
- **Hour 0.** `hour % 12` would print hour 0 as `0`. The model's
  `SlotCatalog.ClockHour` does the same, though the catalog never reaches
  hour 0.

## Model

| member | source | states |
|---|---|---|
| SlotCatalog.CollectSlots | src/components/AppointmentScheduler.jsx:16-25 | the loop over hours 9..17 yields 17 labels. Label i is written for hour 9 + i/2: `:00` for even i, `:30` for odd i. There is no half-hour label for hour 17 |
| SlotCatalog.GenerateTimeSlots | src/components/AppointmentScheduler.jsx:15-26 | the catalog equals the reference list `TimeSlots()` of 17 labels |
| SlotCatalog.TimeSlotsListed | src/components/AppointmentScheduler.jsx:17-24 | the catalog is exactly "9:00 AM", "9:30 AM", …, "12:00 PM", "12:30 PM", "1:00 PM", …, "5:00 PM": 17 labels, on-the-hour and half-hour alternating, hour 12 as "12 PM", no half-hour after 5 PM |
| SlotCatalog.SlotsAt9 | src/components/AppointmentScheduler.jsx:19-22 | hour 9 gives "9:00 AM" and "9:30 AM" |
| SlotCatalog.SlotsAt10 | src/components/AppointmentScheduler.jsx:19-22 | hour 10 gives "10:00 AM" and "10:30 AM" |
| SlotCatalog.SlotsAt11 | src/components/AppointmentScheduler.jsx:19-22 | hour 11 gives "11:00 AM" and "11:30 AM" |
| SlotCatalog.SlotsAt12 | src/components/AppointmentScheduler.jsx:19-22 | hour 12 gives "12:00 PM" and "12:30 PM" (12, not 0, and PM) |
| SlotCatalog.SlotsAt13 | src/components/AppointmentScheduler.jsx:19-22 | hour 13 gives "1:00 PM" and "1:30 PM" |
| SlotCatalog.SlotsAt14 | src/components/AppointmentScheduler.jsx:19-22 | hour 14 gives "2:00 PM" and "2:30 PM" |
| SlotCatalog.SlotsAt15 | src/components/AppointmentScheduler.jsx:19-22 | hour 15 gives "3:00 PM" and "3:30 PM" |
| SlotCatalog.SlotsAt16 | src/components/AppointmentScheduler.jsx:19-22 | hour 16 gives "4:00 PM" and "4:30 PM" |
| SlotCatalog.SlotsAt17 | src/components/AppointmentScheduler.jsx:19-23 | hour 17 gives only "5:00 PM" |
| CivilDate.DaysInMonth | src/components/AppointmentScheduler.jsx:170 | the last day of a month (`new Date(y, m + 1, 0).getDate()`) is 28..31; 29 exactly for February of a leap year, 28 exactly for February of a common year |
| CivilDate.Weekday | src/components/AppointmentScheduler.jsx:171 | `getDay()` lies in 0..6 (0 = Sunday) |
| CivilDate.YearHasAllMonths | src/components/AppointmentScheduler.jsx:170 | the month lengths of a year add up to its length |
| CivilDate.YearStep | src/components/AppointmentScheduler.jsx:170 | the day count before year y + 1 is the one before y plus y's length |
| CivilDate.DaysBeforeYearMonotone | src/components/AppointmentScheduler.jsx:447 | later years start at least 365 days per year later |
| CivilDate.DaysBeforeMonthMonotone | src/components/AppointmentScheduler.jsx:447 | later months start at least 28 days per month later |
| CivilDate.DayOfYearBounds | src/components/AppointmentScheduler.jsx:447 | a valid date's day number lies within its year |
| CivilDate.DayNumberInjective | src/components/AppointmentScheduler.jsx:200-205 | two valid dates with the same day number are the same date |
| CivilDate.EarlierYearEarlierDay | src/components/AppointmentScheduler.jsx:447 | a date of an earlier year comes before (`<` on dates compares instants) |
| CivilDate.EarlierMonthEarlierDay | src/components/AppointmentScheduler.jsx:447 | a date of an earlier month of the same year comes before |
| CivilDate.NextDay | src/components/AppointmentScheduler.jsx:38 | `setDate(getDate() + 1)`: a valid date one day number later |
| CivilDate.WeekdayShift | src/components/AppointmentScheduler.jsx:35-41 | n days later the weekday has moved on by n modulo 7 |
| CivilDate.AddDays | src/components/AppointmentScheduler.jsx:38-41 | `setDate(getDate() + n)` rolls over months and years: a valid date exactly n day numbers later |
| CivilDate.EraLength | src/components/AppointmentScheduler.jsx:263-265 | 400 Gregorian years are 146097 days |
| CivilDate.YearWalk | src/components/AppointmentScheduler.jsx:263 | locating the year of a day count leaves a remainder within that year |
| CivilDate.MonthWalk | src/components/AppointmentScheduler.jsx:264-265 | locating the month and day of a day within a year gives a valid date at that day |
| CivilDate.CivilFromDays | src/components/AppointmentScheduler.jsx:263-265 | `getUTCFullYear/Month/Date` of a day count: a valid date with exactly that day number |
| CivilDate.CivilFromDaysOfDayNumber | src/components/AppointmentScheduler.jsx:263-265 | reading back a valid date's day number gives the date (round trip) |
| CalendarGrid.BuildMonthGrid | src/components/AppointmentScheduler.jsx:167-183 | the two loops build exactly the reference grid `MonthGrid` |
| CalendarGrid.MonthGridShape | src/components/AppointmentScheduler.jsx:167-183 | the grid is w blanks, w being the weekday of day 1, then days 1..N of the month in ascending order; length w + N; cell i falls on weekday i mod 7 |
| CalendarGrid.FebruaryGrids | src/components/AppointmentScheduler.jsx:167-183 | February 2024 has 4 blanks + 29 days, February 2023 has 3 blanks + 28 days |
| CalendarGrid.NavigateMonth | src/components/AppointmentScheduler.jsx:185-198 | the month stays in 0..11, and a step of -1/0/+1 moves the month count `year * 12 + month` by exactly that step |
| CalendarGrid.NavigateMonthWraps | src/components/AppointmentScheduler.jsx:185-198 | +1 from 11 gives (0, year + 1); -1 from 0 gives (11, year - 1); any step that stays in 0..11 keeps the year; +1 then -1, and -1 then +1, restore (month, year) |
| CalendarGrid.GridWeekendColumnsDisabled | src/components/AppointmentScheduler.jsx:447-449 | a day in the first or last grid column (Sunday, Saturday) is disabled; a weekday is disabled exactly when it is before today |
| CalendarGrid.InitialDate | src/components/AppointmentScheduler.jsx:32-44 | the initial date is valid and 0..2 days after the current date |
| CalendarGrid.InitialDateIsFirstWeekday | src/components/AppointmentScheduler.jsx:32-44 | the initial date is not a weekend day; a weekday is kept; every day skipped is a weekend day (Sunday moves +1, Saturday +2) |
| CalendarGrid.SundayShift | src/components/AppointmentScheduler.jsx:36-38 | Sunday + 1 day is a Monday, and only weekend days are skipped |
| CalendarGrid.SaturdayShift | src/components/AppointmentScheduler.jsx:39-41 | Saturday + 2 days is a Monday, and only weekend days are skipped |
| CalendarGrid.WeekendDay | src/components/AppointmentScheduler.jsx:35-41 | the days skipped from a Saturday or a Sunday are weekend days |
| CalendarGrid.InitialDateSelectable | src/components/AppointmentScheduler.jsx:32-44 | the initial date is not disabled under the disabled-day rule (lines 447-449) |
| CalendarGrid.IsSameDayIffSameInstant | src/components/AppointmentScheduler.jsx:200-205 | `isSameDay` holds exactly when both dates are present and denote the same day |
| BookingLedger.DigitsAndLabel | src/components/AppointmentScheduler.jsx:74 | in `digits-label`, the leading digit run ends at the `-` and the label follows it |
| BookingLedger.YearAndLabelRoundTrip | src/components/AppointmentScheduler.jsx:69-74 | the printed year and the slot label can be read back from `year-label` |
| BookingLedger.SlotKeyRoundTrip | src/components/AppointmentScheduler.jsx:68-75 | for a date of year 1 or later, the date and the slot label can be read back from the key `MM/DD/YYYY-label` |
| BookingLedger.SlotKeyInjective | src/components/AppointmentScheduler.jsx:68-75 | for dates of year 1 or later, two keys are equal exactly when their dates and labels are (no two slots share a key) |
| BookingLedger.EraYearsShareKeys | src/components/AppointmentScheduler.jsx:69-74 | `en-US` prints a year y <= 0 as its era year 1 - y without a sign, so such a date shares its key with the same day of year 1 - y |
| BookingLedger.SaveBookedSlotEffect | src/components/AppointmentScheduler.jsx:78-87 | saving appends exactly the slot's key at the end and leaves every earlier entry unchanged; afterwards the slot is booked, and every slot booked before still is |
| BookingLedger.CheckConfirm | src/components/AppointmentScheduler.jsx:319-337 | missing fields exactly when name, email or message is empty; otherwise taken only when booked; a booking exactly when the fields are filled and the slot is free, and it books the slot's key |
| BookingLedger.ConfirmKeepsLedgerDistinct | src/components/AppointmentScheduler.jsx:319-337 | confirming never brings a repeat into a ledger without repeats |
| BookingLedger.SecondConfirmConflicts | src/components/AppointmentScheduler.jsx:319-337 | after a booking, confirming the same slot again is refused as taken and leaves the ledger unchanged |
| TimezoneLabel.RoundToMinutes | src/components/AppointmentScheduler.jsx:226 | `Math.round(ms / 60000)` is the whole minute nearest to the offset, with halves rounded up |
| TimezoneLabel.OffsetLabelShape | src/components/AppointmentScheduler.jsx:225-231 | the label is 25 characters: `GMT`, a sign that is `-` exactly for a negative offset, two hour digits, `:`, two minute digits below 60 that together give the offset's magnitude, then ` America/Toronto` |
| TimezoneLabel.OffsetLabelRoundTrip | src/components/AppointmentScheduler.jsx:225-231 | the offset can be read back from the label |
| TimezoneLabel.FallbackIsEasternStandard | src/components/AppointmentScheduler.jsx:232-235 | the fallback label is the label of the offset -300 minutes (UTC-5) |
| TimeParse.FindTimeLeftmost | src/components/AppointmentScheduler.jsx:241-242 | `match` finds a time exactly when some position matches, and it returns the match at the leftmost such position |
| TimeParse.FindTimeFound | src/components/AppointmentScheduler.jsx:241 | a found time is the match at a position before which nothing matches |
| TimeParse.FindTimeMissed | src/components/AppointmentScheduler.jsx:241-242 | when nothing is found, no position matches |
| TimeParse.To24 | src/components/AppointmentScheduler.jsx:244-250 | PM with hour ≠ 12 adds 12, 12 AM is 0, 12 PM stays 12, and any hour ≤ 12 gives 0..23 |
| TimeParse.To24OfClockHour | src/components/AppointmentScheduler.jsx:249-250 | converting a catalog label's 12-hour clock back to 24 hours returns the original hour |
| TimeParse.MatchFrontOfLabel | src/components/AppointmentScheduler.jsx:241 | `H:MM` followed by white space and AM or PM matches with those hours, minutes and period |
| TimeParse.SlotLabelParses | src/components/AppointmentScheduler.jsx:241-246 | every label the catalog's format writes parses to its clock hour, minutes and period |
| TimeParse.SlotStartMinute | src/components/AppointmentScheduler.jsx:244-254 | catalog slot i starts 540 + 30·i minutes after midnight (9:00 plus i half hours) |
| TimeParse.NoColonNoTime | src/components/AppointmentScheduler.jsx:241-242 | a text without `:` has no time, so no link is built |
| PercentEncoding.HexRoundTrip | src/components/AppointmentScheduler.jsx:277 | the upper-case hex digit of 0..15 reads back as that value |
| PercentEncoding.Utf8 | src/components/AppointmentScheduler.jsx:277 | a character is 1..4 UTF-8 octets, and one octet exactly for ASCII, which is kept as it is |
| PercentEncoding.PercentOctets | src/components/AppointmentScheduler.jsx:277 | each octet becomes `%XX`: three characters each, only `%` and hex digits |
| PercentEncoding.EncodeURIComponent | src/components/AppointmentScheduler.jsx:277 | the encoding is no shorter than the text and holds only `%` and unreserved characters |
| PercentEncoding.EncodedHasNoDelimiters | src/components/AppointmentScheduler.jsx:310-315 | an encoded value holds none of `& = ? # / :` or space, so it cannot break the URL |
| PercentEncoding.PercentDecodeOfEncode | src/components/AppointmentScheduler.jsx:277 | percent-decoding the encoding yields the text's UTF-8 octets |
| PercentEncoding.Utf8RoundTrip | src/components/AppointmentScheduler.jsx:277 | UTF-8 decoding of the UTF-8 octets gives back the text |
| PercentEncoding.EncodeRoundTrip | src/components/AppointmentScheduler.jsx:277 | `decodeURIComponent(encodeURIComponent(s)) == s` for every text |
| PercentEncoding.EncodeKeepsUnreserved | src/components/AppointmentScheduler.jsx:310-311 | a text of unreserved characters only is left unchanged |
| CalendarLink.StampShape | src/components/AppointmentScheduler.jsx:262-270 | the stamp is 16 characters `YYYYMMDDTHHMMSSZ` of zero-padded digit fields: month 1..12, day 1..31, hour < 24, minute < 60, seconds 00 |
| CalendarLink.StampFieldsOf | src/components/AppointmentScheduler.jsx:262-270 | the stamp's fields are the UTC year, month + 1, day, hour and minute of the instant, and seconds 0 |
| CalendarLink.StampPieces | src/components/AppointmentScheduler.jsx:263-269 | the stamp is the concatenation of the six padded fields around `T` and `Z` |
| CalendarLink.StampRoundTrip | src/components/AppointmentScheduler.jsx:262-270 | the instant can be read back from its stamp |
| CalendarLink.WindowIsThirtyMinutes | src/components/AppointmentScheduler.jsx:256-258 | the end stamp denotes exactly 30 minutes after the start stamp |
| CalendarLink.LinkNoneIffNoTime | src/components/AppointmentScheduler.jsx:241-242 | no link is built exactly when the selected time does not match `H:MM AM\|PM` |
| CalendarLink.LinkContents | src/components/AppointmentScheduler.jsx:239-316 | the link is the base URL plus the `&`-joined parameters, built from the title, the two stamps of the window (start, start + 30), the details, the location and the attendees; splitting the query on `&` gives back those parameters |
| CalendarLink.QueryParamsFacts | src/components/AppointmentScheduler.jsx:276-315 | the query splits back into its parameters: `action=TEMPLATE`, the title, `dates=start/end`, details, location and the organizer's `add=` always, and a 7th (the client's `add=`) exactly when the email is non-empty; each value decodes back to its text |
| CalendarLink.ParamsShape | src/components/AppointmentScheduler.jsx:311-315 | the parameters in order; the client attendee appears exactly when its encoded address is non-empty |
| CalendarLink.AddParamExpansion | src/components/AppointmentScheduler.jsx:310-313 | `addParam` is `&add=` plus the organizer, and `&add=` plus the client only for a non-empty email |
| CalendarLink.EncodedEmpty | src/components/AppointmentScheduler.jsx:310-312 | an encoding is empty exactly when its text is, so the client attendee depends only on the email |
| CalendarLink.ParamReadsBack | src/components/AppointmentScheduler.jsx:315 | a `key=` parameter with an encoded value decodes back to the value |
| CalendarLink.SplitJoin | src/components/AppointmentScheduler.jsx:315 | joining parameters without `&` by `&` and splitting again gives them back |
| CalendarLink.StampHasNoDelimiters | src/components/AppointmentScheduler.jsx:269 | a stamp holds no `&` and no `/`, so `dates=start/end` separates cleanly |
| CalendarLink.TemplateIsJoin | src/components/AppointmentScheduler.jsx:311-315 | the URL template is the `&`-join of its parameters |
| CalendarLink.QueryIsJoin | src/components/AppointmentScheduler.jsx:315 | the query is the `&`-join of the encoded parameters |
| CalendarLink.DigitRunReadsDigits | src/components/AppointmentScheduler.jsx:264-269 | a field reads as a number exactly when it is all digits, and then as their value |
| Scheduler.ApplyEdit | src/components/AppointmentScheduler.jsx:546-598 | an edit replaces exactly the field it names and keeps the other four |
| Scheduler.CatalogSlotHasTime | src/components/AppointmentScheduler.jsx:241-242 | every catalog slot parses as a time |
| Scheduler.CatalogSlotHasLink | src/components/AppointmentScheduler.jsx:239-316 | for every catalog slot a link is built |
| Scheduler.AppointmentScheduler.constructor | src/components/AppointmentScheduler.jsx:32-65 | the initial state: today is the current date moved off a weekend, the month shown is today's, date today, time "9:00 AM" (a catalog slot), first screen, empty details, the stored ledger or an empty one, and the label of the given offset |
| Scheduler.AppointmentScheduler.ChangeMonth | src/components/AppointmentScheduler.jsx:185-198 | the month arrows move (month, year) as `NavigateMonth` does, one month count at a time, changing nothing else |
| Scheduler.AppointmentScheduler.ClickDay | src/components/AppointmentScheduler.jsx:441-457 | a click on a day of the grid that is not disabled selects it; blanks and disabled days change nothing |
| Scheduler.AppointmentScheduler.ClickSlot | src/components/AppointmentScheduler.jsx:482-490 | a click on a slot selects it unless it is already booked for the selected date; the selected time stays a catalog slot (`Consistent()`) |
| Scheduler.AppointmentScheduler.Continue | src/components/AppointmentScheduler.jsx:511 | moves to the details screen, keeping the draft |
| Scheduler.AppointmentScheduler.Back | src/components/AppointmentScheduler.jsx:532 | moves back to the slot screen, keeping the draft |
| Scheduler.AppointmentScheduler.EditDetails | src/components/AppointmentScheduler.jsx:546-598 | the details become `ApplyEdit` of the old ones; nothing else changes |
| Scheduler.AppointmentScheduler.ConfirmAppointment | src/components/AppointmentScheduler.jsx:319-337 | the outcome is the confirm guard's; with missing fields or a taken slot neither the screen nor the ledger changes; a booking appends the slot's key, which was not booked before and is afterwards, and moves to the confirmation; a ledger without repeats keeps none |
| Scheduler.AppointmentScheduler.StartOver | src/components/AppointmentScheduler.jsx:675-683 | back to the slot screen with empty details |
| Scheduler.AppointmentScheduler.AddToGoogleCalendar | src/components/AppointmentScheduler.jsx:670-684 | the link is the one for the draft, and there always is one because the selected time is a catalog slot; the no-link branch would change nothing; with the link the screen returns to slot selection and the details are cleared; the ledger, date and time are never touched |
| WordMatch.SearchFindsMatch | src/components/ProjectDetail.jsx:198-199 | the scan finds the word exactly when it occurs as a whole word at or after the start position |
| WordMatch.Test | src/components/ProjectDetail.jsx:198-199 | `new RegExp('\\b' + w + '\\b', 'i').test(s)` holds exactly when `w` occurs in `s` between word boundaries, ignoring ASCII case |
| WordMatch.LowerCasingKeepsMatches | src/components/ProjectDetail.jsx:183-199 | lower-casing the description does not change which keywords occur, because the test ignores case |
| Text.NatToString | src/components/AppointmentScheduler.jsx:264-268 | the decimal digits read back as the number, without leading zero, with 1, 2 or 4 digits for numbers below 10, 100 or 10000 |
| Text.PadStartZeros | src/components/AppointmentScheduler.jsx:264-268 | `padStart(w, "0")` keeps a long enough text and otherwise puts zeros in front of it up to width w |
| Text.Pad2 | src/components/AppointmentScheduler.jsx:264-268 | a two-digit field reads back as its number, and it is exactly 2 characters for numbers below 100 |
| Text.TrimIsSlice | src/components/ProjectDetail.jsx:238 | `trim()` yields the part of the text after its leading white space |
| Text.TrimDropsOnlySpace | src/components/ProjectDetail.jsx:238 | `trim()` removes only white space, before and after |
| Text.TrimEnds | src/components/ProjectDetail.jsx:238 | a trimmed text neither starts nor ends with white space |
| Text.ToLowerFacts | src/components/ProjectDetail.jsx:183 | `toLowerCase` keeps the text equal up to case, leaves no upper-case letter, maps each upper-case letter to its lower-case partner, keeps every other character, and is idempotent |
| Collections.DedupFacts | src/components/ProjectDetail.jsx:202-203 | keeping only first occurrences leaves no repeats and loses no element |
| Collections.IndexOf | src/components/ProjectDetail.jsx:221-222 | `indexOf` is -1 exactly for an absent element, and otherwise the first position that holds it |
| StableSort.SortByKeyFacts | src/components/ProjectDetail.jsx:220-227 | the sort orders by the key and is a permutation of its input |
| StableSort.SortByKeyStable | src/components/ProjectDetail.jsx:284 | the sort is stable: the elements with any one key come out in their input order |
| StableSort.SortedPrefixFromInput | src/components/ProjectDetail.jsx:284 | the first n of the sorted list are ordered by the key and drawn from the input |
| StableSort.SortedPrefixKeepsSmallest | src/components/ProjectDetail.jsx:284 | nothing left out of the first n has a smaller key than one kept |
| TechExtraction.MaxKeywordLength | src/components/ProjectDetail.jsx:187-188 | `Math.max` of the keyword lengths is at least every length and, for a non-empty list, is one of them |
| TechExtraction.Prioritised | src/components/ProjectDetail.jsx:186-190 | the pre-sort is a permutation of the table ordered by longest keyword, longest first |
| TechExtraction.Rank | src/components/ProjectDetail.jsx:221-225 | a name's rank is its position in the priority list, or the list's length when it is not listed |
| TechExtraction.DiscoveredFacts | src/components/ProjectDetail.jsx:193-205 | the loop collects each mentioned name once, and exactly the names of rows that have a keyword in the lower-cased description |
| TechExtraction.TechnologiesMembership | src/components/ProjectDetail.jsx:50-228 | the result has no repeats, and a name is in it exactly when one of its row's keywords occurs as a whole word in the description, ignoring case; so an empty description yields nothing |
| TechExtraction.RankSortedIsPriorityOrder | src/components/ProjectDetail.jsx:220-227 | in a list sorted by rank, a listed name is preceded only by listed names earlier in the priority list |
| TechExtraction.TechnologiesOrdered | src/components/ProjectDetail.jsx:208-227 | in the result every name of the priority list precedes every name not in it, and listed names come in the list's order |
| TechExtraction.ExtractTechnologies | src/components/ProjectDetail.jsx:50-228 | the loop and sort compute the reference `Technologies` |
| FeatureExtraction.SplitLosesOnlySeparators | src/components/ProjectDetail.jsx:235 | the pieces of `split(/[.!?]+/)` joined back together are the description without its `.`, `!` and `?` |
| FeatureExtraction.SplitPiecesClean | src/components/ProjectDetail.jsx:235 | no piece of the split holds `.`, `!` or `?` |
| FeatureExtraction.LongPiecesMembership | src/components/ProjectDetail.jsx:235 | the filter keeps exactly the pieces longer than 15 characters after trimming |
| FeatureExtraction.StripLeadWordFacts | src/components/ProjectDetail.jsx:260 | at most one leading word is removed: the result is a suffix of the sentence; it is unchanged when no listed word leads it followed by white space; otherwise it is what follows that word and its white space |
| FeatureExtraction.CollapseSpaceFacts | src/components/ProjectDetail.jsx:261 | after `replace(/\s+/g, ' ')` no white space remains except single spaces between words, and every other character comes from the input |
| FeatureExtraction.CollapseKeepsText | src/components/ProjectDetail.jsx:261 | collapsing keeps every non-space character, in order |
| FeatureExtraction.TidiedFacts | src/components/ProjectDetail.jsx:259-262 | the cleaned sentence holds no `.!?`, has only single spaces, and neither starts nor ends with white space |
| FeatureExtraction.CapitalizeKeepsForm | src/components/ProjectDetail.jsx:265-266 | capitalising keeps the length, the single spaces and the absence of `.!?` |
| FeatureExtraction.CandidateShape | src/components/ProjectDetail.jsx:238-276 | a sentence yields a feature only when it is at least 15 characters after trimming and holds an action verb as a whole word; the feature is 25..200 characters, starts with a non-space, has single spaces, and ends in exactly one `.` |
| FeatureExtraction.TidySentence | src/components/ProjectDetail.jsx:238-272 | the imperative steps of one sentence compute its reference outcome `Candidate` |
| FeatureExtraction.CandidatesMembership | src/components/ProjectDetail.jsx:237-279 | a text is a candidate exactly when some sentence yields it |
| FeatureExtraction.CollectedFacts | src/components/ProjectDetail.jsx:234-279 | the collected features have no repeats, and a text is collected exactly when some split piece longer than 15 after trimming yields it |
| FeatureExtraction.ExtractFeatures | src/components/ProjectDetail.jsx:231-288 | the loop, the de-duplication and the top-8 cut compute the reference `Features` |
| FeatureExtraction.FeaturesAreCollected | src/components/ProjectDetail.jsx:274-287 | at most 8 features and no repeats, all of them collected; when at most 8 were collected they are returned as collected, in order of first appearance |
| FeatureExtraction.FeaturesKeepLongest | src/components/ProjectDetail.jsx:282-285 | when more than 8 were collected the result is 8 of them, in non-increasing length, and none left out is longer than one kept |
| FeatureExtraction.CollectedShape | src/components/ProjectDetail.jsx:235-276 | a collected feature has the feature form and comes from a long enough piece with an action verb |
| FeatureExtraction.NoFeaturesWithoutDescription | src/components/ProjectDetail.jsx:232 | an empty description yields no feature |
| FeatureExtraction.FeaturesShape | src/components/ProjectDetail.jsx:231-288 | every returned feature is 25..200 characters, ends in one `.`, and comes from a split piece longer than 15 after trimming that contains an action verb |
| ProjectDetails.FindProject | src/components/ProjectDetail.jsx:331 | `find` gives nothing exactly when no project has the identifier; otherwise the first project that has it |
| ProjectDetails.GithubOrDefault | src/components/ProjectDetail.jsx:347 | the link is never empty: a non-empty stored link is kept, an absent or empty one becomes the default |
| ProjectDetails.Enhance | src/components/ProjectDetail.jsx:335-348 | identifier, description and the other fields are kept; a stored non-empty list is kept unchanged; a missing or empty one is the extraction from the description (empty text when absent); the link is filled in |
| ProjectDetails.EnhanceIdempotent | src/components/ProjectDetail.jsx:335-348 | enhancing an enhanced project changes nothing |
| ProjectDetails.EnhancedFeaturesBounded | src/components/ProjectDetail.jsx:339-341 | filled-in features are at most 8, without repeats, each 25..200 characters and ending in `.` |
| ProjectDetails.EnhancedTechnologiesFromTable | src/components/ProjectDetail.jsx:335-337 | filled-in technologies have no repeats and each names a row of the table |
| ProjectDetails.LoadProject | src/components/ProjectDetail.jsx:328-350 | no project exactly when none has the identifier; otherwise the first one with it, enhanced with the site's keyword table, priority list and word lists |

## Left out

- Email dispatch (`emailjs.send`, lines 90-157 of `AppointmentScheduler.jsx`): a network call to a foreign library. `saveBookedSlot` is modelled by its ledger append only, which happens before the first `await`.
- `localStorage` and `JSON.parse`: browser storage. The stored ledger and the stored projects are parameters; a missing or unreadable ledger is `None` and becomes the empty ledger.
- Timezone discovery with `Intl.DateTimeFormat` and `toLocaleString`: it depends on the host's timezone data. Toronto's offset is a parameter, and so is the host offset used to turn the local start time into UTC. Only the formatting of lines 225-235 is modelled.
- Daylight-saving changes inside the 30-minute window: the model uses one host offset for both ends.
- The long, human-readable dates (`monthLabel`, the date line of the event details, the e-mail dates): locale formatting. The date line is a string parameter of the link.
- `localeCompare` in the technology sort: locale collation. The model's stable sort keeps names missing from the priority list in the order they were found, rather than alphabetically. The properties proved are about the listed names.
- The specificity pre-sort (`ProjectDetail.jsx` lines 186-190): modelled as a stable sort by longest keyword. It only affects the order in which names missing from the priority list are found.
- React rendering, `alert`, `window.open`, `window.scrollTo`, navigation and React's strict-mode double calls: user interface.
- Dates with a year in 0..99, which `new Date(y, m, d)` maps to 1900..1999: the model takes years as they are.
- BookingLedger.SlotKeyRoundTrip, BookingLedger.SlotKeyInjective: stated only for years 1 and later, because the `en-US` date prints a year y <= 0 as 1 - y with no era, so keys do collide there (`BookingLedger.EraYearsShareKeys`); the scheduler never selects such a date, as it only selects dates from today on.
- `CalendarLink.StampRoundTrip`, `CalendarLink.StampShape`: stated only for years 1000..9999, where `getUTCFullYear()` prints exactly four digits.
- `TimezoneLabel.OffsetLabelShape`, `TimezoneLabel.OffsetLabelRoundTrip`: stated only for offsets below 100 hours, where the hour field has two digits.
- Case mapping and string length: `toLowerCase`, `toUpperCase` and the case-insensitive match are modelled for ASCII letters only, and lengths count characters rather than UTF-16 units.
- `parseInt` on very long digit strings: the model reads them exactly, where JavaScript loses precision.
- `TechExtraction.MaxKeywordLength`: the empty keyword list gives 0 rather than `-Infinity`, because every row of the table has keywords.
- Project identifiers: compared in their string form (`String(p.id)`). The conversion of numbers to strings is not modelled.
- `encodeURIComponent` on lone surrogates (a `URIError` in JavaScript): a Dafny `char` is always a Unicode scalar value, so it cannot arise.
- Other parts of the site: `src/Pages/About.jsx`, `src/components/SocialLinks.jsx`, `src/data/projects.js`, `src/supabase.js` and `vite.config.js` are not part of this model (markup, static content and configuration).
