# Deadline tracker: a verified model

This project models the core of a small deadline tracker. Users type a
subject, a recipient and a deadline. The deadline is either relative
("N dias") or an absolute date ("DD/MM/AAAA"). The store parses the
deadline, classifies each record by how close its due date is, keeps the
list, and re-classifies it as the days go by. The page component validates
the form, hands it to the store, and shows the list sorted by due date with
a status label and a countdown line on each card.

The modules follow the source files:

- `DeadlineModel` (`deadline_model.dfy`): the record and status types.
- `Calendar` (`calendar.dfy`): proleptic-Gregorian dates and their day
  numbers. It stands in for JavaScript's `Date` at local midnight.
- `Text` (`text.dfy`): the JavaScript string built-ins the parser uses:
  `trim`, `toLowerCase`, `endsWith`, `parseInt` and the decimal rendering
  of numbers.
- `Service` (`deadline_service.dfy`): the deadline store. The parser and
  the classifier are functions. The store is the class `DeadlineService`,
  whose methods replace its `deadlines` list.
- `App` (`app_component.dfy`): the page component. It holds the form state
  in the class `AppComponent` and defines the sorted view and the two card
  labels as functions.

Dates are day numbers: days since 1 January of year 0. The current date
`today` is a parameter, and so is the id of a new record. `notifications`
counts the writes to the list signal. Each such write makes the
persistence hook rewrite the stored copy.

The model follows what the code accepts, which is looser than the page
suggests:

- The page's own hint (src/app/app.component.ts:61) is `X dias`, a number
  followed by the word. The code accepts any trimmed, lower-cased text that
  ends in "dias" and starts with a non-negative integer `parseInt` can read
  (or "-0"). So it also accepts "3dias", "+3 dias", "3 DIAS", "3 xyz dias"
  and "-0 dias" (which counts as zero days). A negative count such as
  "-3 dias" is refused (src/services/deadline.service.ts:50).
- Ids are not promised to be unique. The source takes them from the clock
  (src/services/deadline.service.ts:76).

## Model

| member | source | states |
|---|---|---|
| Service.ParseDeadlineInput | src/services/deadline.service.ts:44-69 | No contract of its own. Its behaviour on every input is stated by ParseRefused, ParseDispatch, RelativeForm, AbsoluteForm and ParsePadded. |
| Service.Normalize | src/services/deadline.service.ts:45 | No contract of its own. It trims, then lower-cases. ParsePadded, Text.TrimSpec and Text.ToLower state what that does. |
| Service.ParseRelative | src/services/deadline.service.ts:47-56 | No contract of its own. RelativeForm states its result on every sign-digits-rest text, and ParseRefused states when it refuses. |
| Service.MatchDate | src/services/deadline.service.ts:59 | No contract of its own. MatchDateSpec states which texts it matches and which groups it returns. |
| Service.ParseAbsolute | src/services/deadline.service.ts:58-66 | No contract of its own. AbsoluteForm and AbsoluteRoundTrip state its result on every D/M/YYYY text. |
| Service.ParseRefused | src/services/deadline.service.ts:44-69 | The parser gives no date exactly when neither form applies. A text ending in "dias" is refused exactly when it has no readable leading integer or that integer is negative. Any other text is refused exactly when the date pattern does not match or the date does not exist. |
| Service.ParseDispatch | src/services/deadline.service.ts:47-66 | A normalised text ending in "dias" is decided by the relative branch alone. Any other text is decided by the date branch alone. A failed relative form that falls through to the date pattern can never be accepted there. |
| Service.RelativeForm | src/services/deadline.service.ts:45-56 | An optional sign, digits, then text that starts with a non-digit and ends in "dias" in any letter case. It parses to today + N for a non-negative count N, and to no date for a negative count. "-0" counts as zero. |
| Service.ThreeDays | src/services/deadline.service.ts:45-56 | "3 dias" is due on today + 3, and that due date is classified as upcoming. |
| Service.ParsePadded | src/services/deadline.service.ts:45 | White space before and after the input does not change the result. |
| Service.MatchDateSpec | src/services/deadline.service.ts:59-61 | The date pattern matches exactly the texts of the shape D{1,2}/M{1,2}/YYYY. Its groups are read as the day, month and year whatever their lengths. |
| Service.AbsoluteForm | src/services/deadline.service.ts:58-66 | "D/M/YYYY" with one or two digits for the day and the month parses to the day number of exactly that date when the date exists. Otherwise it parses to no date. |
| Service.AbsoluteRoundTrip | src/services/deadline.service.ts:58-66 | A date written as DD/MM/YYYY parses back to that very date when it is valid, and to no date when it is not. |
| Service.ImpossibleDays | src/services/deadline.service.ts:62-63 | 31/02/2024, 29/02/2023 and day 00 are refused, not rolled over into the next month. |
| Service.ImpossibleMonthsAndYears | src/services/deadline.service.ts:62-63 | Month 00, month 13 and year 0099 are refused. For year 0099, `Date` would move the year into the 1900s. |
| Service.LeapDayAccepted | src/services/deadline.service.ts:62-64 | 29/02/2024 is accepted. |
| Service.DayDifference | src/services/deadline.service.ts:113-114 | No contract of its own. It is the difference of two day numbers. GetDeadlineStatus and DaysRemainingMatchesStatus state what the two callers do with it. |
| Service.Classify | src/services/deadline.service.ts:113-119 | The four statuses partition the day difference. Below 0 is overdue, 0 is due, 1 to 7 is upcoming, above 7 is safe. Each holds in both directions. |
| Service.GetDeadlineStatus | src/services/deadline.service.ts:108-120 | Overdue exactly when the due day is before today. Due exactly on today. Upcoming exactly when the due day is 1 to 7 days ahead. Safe exactly when it is more than 7 days ahead. |
| Service.ClassifyMonotonic | src/services/deadline.service.ts:116-119 | A later due date is never more urgent than an earlier one. |
| Service.DeadlineService.constructor | src/services/deadline.service.ts:12-13 | The list loaded from storage starts out re-classified for today, so every status is current. |
| Service.NewDeadline | src/services/deadline.service.ts:75-82 | No contract of its own. DeadlineService.AddDeadline's contract states the appended record, and AppendCurrent states that its status is current. |
| Service.DeadlineService.AddDeadline | src/services/deadline.service.ts:71-86 | Returns true exactly when the input parses. On failure the list and the notification count are unchanged. On success one record is appended: the given id, untrimmed subject and recipient, the parsed due date, the raw input, and the status of that due date today. The list is written once. A list whose statuses were current stays current. |
| Service.DeadlineService.DeleteDeadline | src/services/deadline.service.ts:88-90 | The new list is the old one filtered by id, and the signal is written once. A list whose statuses were current for a day stays current for that day. |
| Service.Without | src/services/deadline.service.ts:89 | No contract of its own. Its properties are stated by WithoutSpec, WithoutConcat, WithoutAbsent and WithoutCurrent. |
| Service.WithoutCurrent | src/services/deadline.service.ts:89 | Deleting records keeps a list with current statuses current. |
| Service.WithoutSpec | src/services/deadline.service.ts:89 | After deletion no record has the id, every record with another id remains, and no record is added. |
| Service.WithoutConcat | src/services/deadline.service.ts:89 | Deletion distributes over concatenation, so the surviving records keep their relative order. |
| Service.WithoutAbsent | src/services/deadline.service.ts:89 | Deleting an id that no record carries leaves the list unchanged. |
| Service.DeadlineService.UpdateStatuses | src/services/deadline.service.ts:92-106 | The loop builds the re-classified list and tracks whether any status changed. Afterwards the list is the old list re-classified for today and every status is current. The signal is written exactly when some status was stale. |
| Service.Refreshed | src/services/deadline.service.ts:94-101 | No contract of its own. Its properties are stated by RefreshedIsCurrent, RefreshedUnchangedIffCurrent and RefreshedIdempotent. |
| Service.RefreshedIsCurrent | src/services/deadline.service.ts:94-101 | Re-classifying keeps the length, the order and every field except the status. Every status becomes current. |
| Service.RefreshedUnchangedIffCurrent | src/services/deadline.service.ts:96-104 | Re-classifying changes the list exactly when some status was stale. |
| Service.RefreshedIdempotent | src/services/deadline.service.ts:92-106 | Re-classifying twice for the same day is the same as once. By UpdateStatuses' contract, the second call on the same day writes nothing. |
| Service.AppendCurrent | src/services/deadline.service.ts:81-84 | Appending a record whose status is current keeps a current list current. |
| Calendar.ValidDate | src/services/deadline.service.ts:62-63 | No contract of its own. It is the read-back check: year at least 100, month 1 to 12, day within the month. AbsoluteForm, ImpossibleDays, ImpossibleMonthsAndYears and LeapDayAccepted state what it accepts. |
| Calendar.DayNumber | src/services/deadline.service.ts:62 | No contract of its own. It stands for the `Date` value built here and the one stepped at line 53. DayNumberMonotonic, DayNumberInjective, DayNumberNext and DayNumberAddDays state its properties. |
| Calendar.NextDay | src/services/deadline.service.ts:53 | No contract of its own. DayNumberNext states that it is valid and one day number later. |
| Calendar.DayNumberAddDays | src/services/deadline.service.ts:51-53 | Stepping the calendar forward N days, rolling over month and year ends, adds exactly N to the day number. So today + N is N calendar days after today. |
| Calendar.AddDays | src/services/deadline.service.ts:53 | Stepping a valid date forward gives a valid date. |
| Calendar.DayNumberNext | src/services/deadline.service.ts:53 | The day after a valid date is valid, and its day number is one more. |
| Calendar.DayNumberMonotonic | src/services/deadline.service.ts:62-63 | Day numbers follow the calendar order of valid dates. |
| Calendar.DayNumberInjective | src/services/deadline.service.ts:62-63 | Distinct valid dates have distinct day numbers, so a parsed date determines its day, month and year. |
| Calendar.DaysInMonth | src/services/deadline.service.ts:62-63 | Every month has 28 to 31 days. It has 29 exactly for February of a leap year. |
| Text.Trim | src/services/deadline.service.ts:45 | No contract of its own. Its properties are stated by TrimSpec, TrimPadded and TrimClean. |
| Text.TrimSpec | src/services/deadline.service.ts:45 | Trimming never lengthens the text. It leaves nothing exactly when the text is all white space. Otherwise the result neither starts nor ends with white space. |
| Text.TrimStartSpec | src/services/deadline.service.ts:45 | Trimming the start keeps a suffix, drops only white space, and keeps no leading white space. |
| Text.TrimEndSpec | src/services/deadline.service.ts:45 | Trimming the end keeps a prefix, drops only white space, and keeps no trailing white space. |
| Text.TrimPadded | src/services/deadline.service.ts:45 | Trimming removes exactly the white space around a text whose ends are not white space. |
| Text.TrimClean | src/services/deadline.service.ts:45 | Trimming leaves a text whose ends are not white space unchanged. |
| Text.ToLower | src/services/deadline.service.ts:45 | Lower-casing keeps the length. It leaves no upper-case ASCII letter. Each upper-case letter becomes its lower-case partner, and every other character stays in place. |
| Text.ToLowerKeeps | src/services/deadline.service.ts:45 | A text without upper-case ASCII letters is left unchanged. |
| Text.ToLowerConcat | src/services/deadline.service.ts:45 | Lower-casing distributes over concatenation. |
| Text.ToLowerIdempotent | src/services/deadline.service.ts:45 | Lower-casing twice is lower-casing once. |
| Text.EndsWith | src/services/deadline.service.ts:48 | No contract of its own. RelativeForm, ParseDispatch and ParseRefused use it as `endsWith('dias')`. |
| Text.ParseInt | src/services/deadline.service.ts:49 | No contract of its own. ParseIntOf states what it reads from every text of the form white space, sign, digits, rest. |
| Text.ParseIntOf | src/services/deadline.service.ts:49 | `parseInt` skips leading white space and reads back exactly the sign and digits in front of the first non-digit. |
| Text.DigitPrefix | src/services/deadline.service.ts:49 | The digits `parseInt` reads form the longest prefix made of decimal digits. |
| Text.DecimalString | src/app/app.component.ts:98-100 | The decimal rendering of a number is a non-empty digit string whose value is that number. It has no leading zero unless the number is zero. |
| Text.DecimalStringInjective | src/app/app.component.ts:98-100 | Different numbers render differently. |
| Text.Padded | src/app/app.component.ts:61 | A rendering helper for the "DD/MM/AAAA" form the page asks for. A zero-padded rendering has exactly the requested width and denotes the number. |
| App.AppComponent.constructor | src/app/app.component.ts:15-21 | The component starts with empty fields, no error message, and the given store. |
| App.AnyBlank | src/app/app.component.ts:44 | No contract of its own. AppComponent.AddDeadline's contract states what happens when it holds and when it does not. |
| App.AppComponent.AddDeadline | src/app/app.component.ts:43-63 | With a blank field after trimming, it reports the required-fields message and changes nothing else. Otherwise it hands the untrimmed fields to the store. On success it clears all three fields and the error, and the store's list gains the record. On failure it reports the format message, keeps the fields, and the store is unchanged. |
| App.AppComponent.DeleteDeadline | src/app/app.component.ts:65-67 | The store's list loses the records with the id. |
| App.AppComponent.SortedDeadlines | src/app/app.component.ts:25-27 | The view is ascending by due date and is a permutation of the store's list. |
| App.AppComponent.HasDeadlines | src/app/app.component.ts:29 | No contract of its own. HasDeadlinesIffSortedNonEmpty relates it to the sorted view. |
| App.AppComponent.HasDeadlinesIffSortedNonEmpty | src/app/app.component.ts:25-29 | `hasDeadlines` holds exactly when the sorted view is non-empty. |
| App.SortByDueDate | src/app/app.component.ts:25-27 | The sorted view is in ascending due-date order. It is a function of the list, so the list itself is not reordered. |
| App.SortPermutes | src/app/app.component.ts:26 | The sorted view is a permutation of the list. |
| App.SortStable | src/app/app.component.ts:26 | Records due on the same day keep their order in the list. |
| App.StableSortUnique | src/app/app.component.ts:26 | Any list that is sorted by due date and keeps the same-day order of the input is this sort's result. Every stable sort with the comparator therefore gives the same view. |
| App.SortedOrdered | src/app/app.component.ts:26 | In the sorted view, every record is due no earlier than any record before it. |
| App.InsertByDueDate | src/app/app.component.ts:26 | Inserting into a sorted list keeps it sorted. |
| App.InsertPermutes | src/app/app.component.ts:26 | Inserting adds the record and keeps every record already there. |
| App.InsertDueOn | src/app/app.component.ts:26 | The inserted record goes ahead of those already due on its day. |
| App.GetStatusText | src/app/app.component.ts:80-88 | No contract of its own. StatusTextInjective states that its four labels differ. |
| App.StatusTextInjective | src/app/app.component.ts:80-88 | The four statuses have four different labels. |
| App.DaysRemainingText | src/app/app.component.ts:95-100 | No contract of its own. DaysRemainingShape and DaysRemainingInjective state its properties. |
| App.GetDaysRemaining | src/app/app.component.ts:90-101 | No contract of its own. Its properties are stated by DaysRemainingShape, DaysRemainingMatchesStatus and DaysRemainingInjective. |
| App.DaysRemainingShape | src/app/app.component.ts:98-100 | The countdown line starts with "Venceu há " exactly when the day difference is negative, and with "Vence em " exactly when it is positive. It is "Vence hoje" exactly when the difference is zero. |
| App.DaysRemainingMatchesStatus | src/app/app.component.ts:90-100 | On the classifier's day difference: "Vence hoje" exactly when the status is due, the "Venceu há" line exactly when it is overdue, and the "Vence em" line exactly when it is upcoming or safe. |
| App.DaysRemainingInjective | src/app/app.component.ts:98-100 | Different day differences give different countdown lines. |

## Left out

- Reading and writing `localStorage`, `JSON.parse`/`stringify` and the `window` probe (src/services/deadline.service.ts:24-42) are browser I/O. The constructor takes the stored list as a parameter.
- The persistence `effect` and the one-minute `setInterval` timer (src/services/deadline.service.ts:16-21) are framework plumbing. `notifications` counts the writes that would trigger the effect, and `UpdateStatuses` may be called at any time.
- Serialising and reloading the list is not modelled, so the storage round trip is not stated.
- The clock is not modelled: `new Date()` and `Date.now()` are replaced by the `today` and `id` parameters.
- The day difference is taken as the plain difference of day numbers. `Math.ceil` over milliseconds across a daylight-saving change, and time zones, are not modelled.
- `parseInt` results are unbounded integers. Counts so large that `Date` would leave its range, or lose precision as a double, are not modelled.
- Service.DeadlineService.AddDeadline: does not promise a unique id, because the source does not either.
- `toLowerCase` is modelled for ASCII letters only. Other letters cannot change whether the ASCII-only grammars match.
- `getCardClasses` (src/app/app.component.ts:69-78), the input event handlers (:31-41), the Angular decorators and src/app/app.config.ts are presentation or configuration only.
- `new Date(y, m - 1, d)` rolling over impossible fields is not modelled. The model keeps only what the read-back check at src/services/deadline.service.ts:63 decides, the validity predicate `Calendar.ValidDate`.
- The relative form is stated in two steps. `Service.RelativeForm` gives today + N. `Calendar.DayNumberAddDays` shows that today + N is the date `setDate` reaches N calendar days later.
- Service.ImpossibleDays: states the refused dates through their DD/MM/YYYY rendering (`FormatDate`), not as string literals.
- Service.ImpossibleMonthsAndYears: states the refused dates through their DD/MM/YYYY rendering (`FormatDate`), not as string literals.
