# Verified model of the virginmobile call-history downloader

`virgin.py` downloads a subscriber's call history from the Virgin Mobile
Poland self-care API. It has no ordering or merge logic of its own beyond
three planning steps and a sort:

- **Calendar bounds.** A calendar month or year becomes an inclusive range.
  The range runs from the period's first second to one second before the next
  period begins (`iter_history_month`, `iter_history_year`).
- **Window planner.** The requested end is clamped to the current time. The
  range is then walked in 15-day windows (`iter_history`).
- **Pagination.** Each window is fetched page by page, 500 records per page,
  until a page comes back short (`iter_history_step`).
- **Sort.** The whole stream is sorted by date (`sorted(entries)` in `main`,
  with `Entry.__lt__`).

This project models these four steps in Dafny as pure functions and proves
their properties.

Modules, one per component:

- `Wrappers`: `Result`, the success-or-exception outcome (ValueError, OverflowError).
- `Calendar`: proleptic Gregorian instants numbered the way Python's datetime
  numbers days. An instant is the number of seconds since 0001-01-01T00:00:00,
  and `MaxInstant` is `datetime.max` at one-second resolution.
- `Entries`: the `Entry` record, `Less` (`__lt__`) and `Sort`, a stable
  insertion sort that stands in for Python's stable `sorted`.
- `Bounds`: month and year bounds.
- `Planner`: the 15-day windows.
- `Pagination`: the page loop over an abstract transport.
- `History`: the composed stream and the sorted report.

Modelling choices:

- The HTTP service is a `Transport`, a function from a request's parameters
  (msisdn, window start and end, page index, page size) to the decoded
  records it returns.
- The source's page loop ends only when the service sends a short page. The
  model therefore takes a page index `bound` by which every fetched window has
  come back short (`ShortWithin`). Each window still stops at its own first
  short page, which may differ from window to window; the bound only has to
  lie at or after all of them. One bound for all windows loses nothing: given
  a bound per window, the latest of them serves for every window
  (`CommonBound`). The result does not depend on which bound is chosen:
  not for one window (`FetchBoundIrrelevant`), not for a run of windows
  (`FetchAllBoundIrrelevant`), not for the stream
  (`StreamBoundIrrelevant`), and not for the report (`ReportBoundIrrelevant`).
- A window whose start + 15 days overflows raises before it is fetched, so
  nothing is required of that window (`FetchedShortBy`).
- The wall clock becomes the parameter `now`.
- The source's `while start <= end` loop advances `start` by a full 15 days.
  The next window therefore starts exactly where the previous one ended, and
  the boundary second is requested in both windows. February 2023 is planned
  as [1 Feb 00:00:00, 16 Feb 00:00:00] and [16 Feb 00:00:00, 28 Feb 23:59:59]
  (`FebruaryTwentyTwentyThree`).
- `virgin.py` has no step that merges, deduplicates or reconciles several
  record sets. Nothing of the kind is modelled. The stream is sorted and
  nothing else.

## Model

| member | source | states |
|---|---|---|
| Calendar.NextMonth | virgin.py:56-59 | the month after (year, month) is a month 1..12 and the running month count year*12 + month goes up by exactly one, so December rolls over to January of year+1 |
| Calendar.DaysBeforeYearNext | virgin.py:63-66 | the day count before `year+1` is the count before `year` plus 365 or 366, by the Gregorian leap rule, so `datetime(year + 1, 1, 1)` is exactly one year after `datetime(year, 1, 1)` |
| Calendar.MonthEndsWhereNextBegins | virgin.py:56-60 | one second before the first instant of the next month, with December rolling over to January of year+1, is 23:59:59 on the month's last day |
| Calendar.InMonthIff | virgin.py:54-60 | an instant lies between a month's first second and its last second exactly when it is a valid day and time of that month |
| Calendar.InYearIff | virgin.py:63-66 | an instant lies between Jan 1 00:00:00 and Dec 31 23:59:59 exactly when it falls in one of the year's twelve months |
| Calendar.InstantInRange | virgin.py:55 | every valid date and time of day in years 1..9999 is an instant a datetime can hold |
| Bounds.MonthBounds | virgin.py:54-60 | OverflowError when the year or the month is not a C int (outside -2^31..2^31-1), as CPython's datetime constructor raises before any range check; otherwise ValueError exactly when the year is outside 1..9999, the month is outside 1..12, or the period is December 9999; otherwise start is day 1 at 00:00:00, end is the last day at 23:59:59, start < end, end + 1 is the next month's first instant, and both are valid datetimes |
| Bounds.YearBounds | virgin.py:63-66 | OverflowError when the year is not a C int (outside -2^31..2^31-1); otherwise ValueError exactly when the year or year+1 is outside 1..9999; otherwise the range is Jan 1 00:00:00 to Dec 31 23:59:59, end + 1 is Jan 1 of year+1, and it holds exactly the year's 365 or 366 days of seconds |
| Bounds.MonthBoundsExact | virgin.py:54-61 | the month range holds exactly the instants of that civil month, both directions |
| Bounds.YearBoundsExact | virgin.py:63-67 | the year range holds exactly the instants of that civil year, both directions |
| Bounds.YearIsTwelveMonths | virgin.py:54-66 | a year range starts where January's month range starts and ends where December's ends |
| Entries.Less | virgin.py:36-37 | `__lt__` holds exactly when the first entry's date is earlier; type, direction, quantity, price and number are never compared |
| Entries.LessIsStrictWeakOrder | virgin.py:36-37 | `__lt__` is irreflexive, asymmetric and transitive; two entries are mutually non-less exactly when their dates are equal, whatever their other fields |
| Entries.Insert | virgin.py:160 | inserting an entry adds exactly that entry: the result's multiset is the input's plus it |
| Entries.InsertOrdered | virgin.py:160 | inserting into a date-ordered sequence keeps it date-ordered |
| Entries.InsertStable | virgin.py:160 | an inserted entry lands after every entry of its own date |
| Entries.Sort | virgin.py:160 | `sorted` returns a permutation of the stream that is non-decreasing by date |
| Entries.SortStable | virgin.py:160 | `sorted` is stable: for every date, the entries of that date appear in the same order as in the stream |
| Entries.OrderedStableUnique | virgin.py:160 | two date-ordered sequences with the same entries, in the same order, at every date are equal |
| Entries.SortCharacterized | virgin.py:160 | any ordered sequence that keeps each date's entries in stream order is exactly the result of `sorted` |
| Planner.Windows | virgin.py:82-86 | for `start <= end` the loop visits floor((end-start)/15d)+1 windows and none otherwise; window i is [start + i*15d, min(end, start + (i+1)*15d)] |
| Planner.Plan | virgin.py:79-83 | no windows at all exactly when start > min(end, now); otherwise the first window starts at start, the last ends at min(end, now), and no window ends after now |
| Planner.WindowsEndAtEnd | virgin.py:82-83 | the last window ends exactly at the clamped end |
| Planner.WindowsShape | virgin.py:80-86 | every window has start <= end and spans at most 15 days; each non-final window ends where the next one starts, and the next one starts exactly 15 days later |
| Planner.WindowsCover | virgin.py:82-86 | an instant is in some window exactly when it lies in [start, clamped end]: no gaps and nothing outside |
| Planner.WindowsOverlapOnlyAtBoundary | virgin.py:83-86 | two windows that share an instant are neighbours, and the shared instant is their boundary, so a boundary second is requested twice |
| Planner.PlanStartsIncrease | virgin.py:82-86 | window starts never decrease, so if any window's start + 15 days overflows, the last window's does |
| Planner.PlanWithinRange | virgin.py:80-86 | every window starts at or before its end, and no window ends after min(end, now) |
| Planner.PlanLength | virgin.py:80-86 | the plan has floor((min(end, now) - start)/15d) + 1 windows when start <= min(end, now), else none |
| Pagination.FetchFrom | virgin.py:91-121 | from a given page on, for any service that answers short at some page up to the bound: one request per page with the same number, the same window bounds and pageSize 500, page indices consecutive; every page but the last returned at least 500 records; the last returned fewer; the records are every response's records in request order |
| Pagination.FetchWindow | virgin.py:88-121 | request k asks for page k of the window, starting at 0; the loop continues after every full page, stops right after the first short page, and yields exactly the concatenated pages |
| Pagination.FetchFromFullPage | virgin.py:118-121 | a page of 500 or more records is always followed by a request for the next page, whose records come after it |
| Pagination.FetchBoundIrrelevant | virgin.py:93-121 | the fetch depends only on where the first short page is, not on the termination bound assumed |
| History.FetchAllBoundIrrelevant | virgin.py:82-121 | for a run of windows, the requests and records do not depend on which termination bound is assumed |
| History.StreamBoundIrrelevant | virgin.py:79-121 | the stream, success or OverflowError, does not depend on which termination bound is assumed |
| History.ReportBoundIrrelevant | virgin.py:146-160 | the sorted report for a period does not depend on which termination bound is assumed |
| Pagination.ServedPagedData | virgin.py:108-121 | asking a service that pages through a record list for pages p..n collects the list from record 500p on |
| Pagination.FetchFromPagedData | virgin.py:91-121 | against a service that pages through a record list, fetching from page p yields the list from record 500p on, in floor(len/500) - p + 1 requests |
| Pagination.FetchWindowPagedData | virgin.py:91-121 | against a service that pages through a record list, the window yields that list exactly, nothing dropped or repeated, in floor(len/500)+1 requests; a length that is a multiple of 500 costs one extra request answered with an empty page |
| History.CommonBound | virgin.py:82-121 | when each window comes back short by a page index of its own, the latest of those indices is a bound for every window, so one shared bound excludes no service on which every window's loop ends |
| History.FetchAll | virgin.py:82-86 | the stream's records are exactly the concatenation of every response, in request order; every request carries the number, pageSize 500 and the bounds of one of the planned windows |
| History.FetchAllAppend | virgin.py:82-86 | fetching two consecutive runs of windows is the first run's requests and records followed by the second's: window order then page order |
| History.FetchAllSingle | virgin.py:84-85 | one window's share of the stream is exactly iter_history_step's fetch of that window |
| History.Stream | virgin.py:79-86 | asks only that the windows fetched before any overflow come back short; OverflowError exactly when some window's start + 15 days is past datetime.max; otherwise every window is short by the bound and the result is the fetch of every planned window in order, and nothing at all when start > min(end, now) |
| History.StreamWithoutOverflow | virgin.py:79-86 | a plan with no overflow whose windows all come back short streams exactly the fetch of all its windows |
| History.PeriodBounds | virgin.py:146-153 | the `month` command succeeds exactly for years 1..9999 and months 1..12 other than December 9999, the `year` command exactly for years 1..9998; otherwise OverflowError when one of the command's numbers is not a C int, ValueError when all are; a success is a non-empty range of valid datetimes |
| History.Report | virgin.py:146-160 | fails exactly when the period's bounds do, with OverflowError for a number that is not a C int and ValueError otherwise; a period datetime can hold never fails, because its stream never overflows; otherwise a date-ordered permutation of the stream that keeps equal-date entries in fetch order |
| History.PeriodNeverOverflows | virgin.py:54-86 | for a month or year datetime can hold, no window's start + 15 days passes datetime.max, so the planner's OverflowError cannot arise from the `month` or `year` commands |
| History.StaggeredShortPages | virgin.py:79-121 | a service whose first window is short at page 0 and whose second window is short only at page 1 is streamed with bound 1: 3 requests and the one full page's 500 records |
| History.FebruaryTwentyTwentyThree | virgin.py:54-86 | February 2023, requested after it ended, is planned as the two windows [1 Feb 00:00:00, 16 Feb 00:00:00] and [16 Feb 00:00:00, 28 Feb 23:59:59] |

## Left out

- Login, the HTTP session, the GET requests and `raise_for_status` (virgin.py:41-52, 100-107) are network I/O. They are replaced by the `Transport` function. A non-success response, which aborts the whole run in the source, is not modelled.
- JSON decoding of the response, parsing of the `date` field with `strptime`, formatting of the window bounds with `strftime`, and the `int()`/`float()` coercions (virgin.py:89-90, 107-116) are library parsing. Decoded `Entry` values are opaque inputs, and `cost` is carried as a `real` that is never computed with. A response whose `records` key or an element's field is missing (KeyError), or whose field `strptime`, `int()` or `float()` rejects (ValueError), aborts the whole run in the source after the earlier requests were sent; the `Transport` always yields decoded entries, so that abort is not modelled.
- `iter_history_last_month` and `iter_history_last_year` (virgin.py:69-77) read the wall clock and are just `utcnow - 31 days` and `utcnow - 366 days` passed to the same planner. Their mix of UTC and local time is not modelled either.
- `datetime.now()` has microseconds; `now` is taken at whole seconds. With whole-second window starts, `start <= now` and `min(end, now)` give the same requests at either resolution, because the bounds are formatted to the second.
- History.Stream: on OverflowError the model returns only the error. It does not model the requests of the windows fetched before the failing addition, because `main` discards their records when the exception propagates through `sorted`.
- Pagination.FetchWindow: terminates only on the assumption that the service answers short at some page up to `bound`. If the service returns full pages for ever, the source loops forever, and that case is outside the model.
- Argument parsing, credential prompts and table/CSV rendering (virgin.py:124-173) are I/O and formatting with no invariants.
- The `Entry` field `type` is named `kind`, because `type` is a Dafny keyword.
