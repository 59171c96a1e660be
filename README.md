# Market calendar: verified model

A Dafny model of the logic at the heart of a small Anvil app. The app
scrapes the ForexFactory economic calendar, stores the USD events in a
`marketcalendar` table and shows upcoming events by date range. Three
pieces are modelled:

- **The calendar table store** (`server_code/Shared_Functions/DB_Utils.py`).
  The table is a class holding a sequence of rows. The module has three operations:
  - `save_market_calendar_events` is a batch upsert. It is keyed on the text `date_time_event` and keeps `added`/`updated`/`skipped` counters. It has a mode that first clears the batch's dates.
  - `clear_market_calendar_events` deletes the rows in an inclusive date range.
  - `get_market_calendar_events` is a query filtered by date and currency, ordered by date and, within a date, by time (see Left out for the assumed meaning of the Anvil calls).
- **The scraper** (`server_code/Market_Calendar/Retrieve_Events.py`).
  - The row loop works on pre-parsed page rows. It carries the date of the last date header forward and keeps USD events dated within ten days of now.
  - It extracts the time, name, impact, forecast, previous and event ID from each row, with `''` defaults.
  - A header date is completed with the current year, then moved to next year when it is more than 300 days in the past.
  - `save_events_to_table` is a second keyed upsert, whose failed appends are not counted.
- **The date ranges of the upcoming-events form**
  (`client_code/Upcoming_Events_Form/__init__.py`, `get_date_range`):
  Today, Tomorrow, the Monday-based This/Next Week, and This/Next Month with
  the December wrap.

Supporting modules:
- `Calendar`: Python's proleptic Gregorian `date`, with `toordinal`, `weekday` and day stepping.
- `IsoDate`: `strftime("%Y-%m-%d")`, and a `strptime("%Y-%m-%d")` with its acceptance of unpadded fields.
- `Text`: `str.strip`, substring search, greedy digit runs and string order.

Methods are proved against specification functions: `SaveSpec`, `SaveEventsSpec`, `Scan`, `Select`/`Reject` and `UpsertFold`. The lemmas state what those functions mean.

## Model

| member | source | states |
|---|---|---|
| Text.Strip | server_code/Market_Calendar/Retrieve_Events.py:70 | the result is a contiguous slice of the input; everything cut before and after it is whitespace (Python's `isspace` set); the result neither starts nor ends with whitespace |
| Text.StripIdempotent | server_code/Market_Calendar/Retrieve_Events.py:94 | stripping an already stripped text changes nothing |
| Text.StrLeTotal | server_code/Shared_Functions/DB_Utils.py:305 | any two time texts are ordered one way or the other, so ordering by time is always defined |
| Text.StrLeReflexive | server_code/Shared_Functions/DB_Utils.py:305 | helper for the sort proofs: every text is ordered before or equal to itself |
| Text.IndexOf | server_code/Market_Calendar/Retrieve_Events.py:113 | the result is the first position at or after `from` where the pattern occurs, and None exactly when it occurs nowhere there |
| Text.DigitRun | server_code/Market_Calendar/Retrieve_Events.py:133 | the result is the longest all-digit prefix (greedy `\d+`): a prefix of digits followed by a non-digit or the end |
| Calendar.DaysInMonth | client_code/Upcoming_Events_Form/__init__.py:139-142 | each month has 28 to 31 days, and February has 29 exactly in leap years |
| Calendar.WeekdayOfOrdinal | client_code/Upcoming_Events_Form/__init__.py:122 | `weekday()` lies in 0..6 |
| Calendar.OrdinalWithinYear | client_code/Upcoming_Events_Form/__init__.py:139-142 | a date's ordinal lies after the days of all earlier years and no later than the last day of its year |
| Calendar.DaysBeforeNextYear | client_code/Upcoming_Events_Form/__init__.py:139-142 | a year adds 365 days, or 366 in a leap year, to the days before it |
| Calendar.DaysBeforeYearMonotone | client_code/Upcoming_Events_Form/__init__.py:139-142 | each later year starts at least 365 days further on |
| Calendar.OrdinalMonotone | server_code/Shared_Functions/DB_Utils.py:228-232 | chronological date order is exactly ordinal order, and equal dates are exactly equal ordinals |
| Calendar.NextDay | client_code/Upcoming_Events_Form/__init__.py:117 | `d + timedelta(days=1)` is the date with the next ordinal |
| Calendar.PrevDay | client_code/Upcoming_Events_Form/__init__.py:139-142 | `d - timedelta(days=1)` is the date with the previous ordinal |
| Calendar.AddDays | client_code/Upcoming_Events_Form/__init__.py:122-124 | `d + timedelta(days=n)` is the date whose ordinal is `n` more, for any result inside the calendar |
| IsoDate.FormatIsoDate | server_code/Shared_Functions/DB_Utils.py:86 | the rendering is ten characters with dashes at positions 4 and 7 |
| IsoDate.ParseIsoDate | server_code/Shared_Functions/DB_Utils.py:56 | an accepted text is four digits giving the year, a dash, a `%m` token giving the month, a dash, and a `%d` token giving the day that runs to the end; conversely, every text of that shape whose fields form a real date is accepted |
| IsoDate.ParseFormatRoundTrip | server_code/Shared_Functions/DB_Utils.py:106-130 | parsing the `YYYY-MM-DD` rendering of any date gives back that date |
| IsoDate.FormatInjective | server_code/Shared_Functions/DB_Utils.py:86-87 | distinct dates render as distinct key texts |
| IsoDate.ParseAcceptsUnpadded | server_code/Shared_Functions/DB_Utils.py:56 | examples: `2024-3-4` and `2024-03- 4` are read as 4 March 2024; `2023-02-29`, `0000-01-01` and a trailing space are rejected |
| IsoDate.YearPadValue | server_code/Shared_Functions/DB_Utils.py:86 | the four-digit rendering of a year reads back as that year |
| IsoDate.FieldPadValue | server_code/Shared_Functions/DB_Utils.py:86 | the two-digit rendering of a month or day reads back as that number |
| IsoDate.PadValues | server_code/Shared_Functions/DB_Utils.py:86 | each field of a rendered date reads back as the date's field |
| UpcomingEvents.MonthBounds | client_code/Upcoming_Events_Form/__init__.py:139-142 | the first of the next month minus one day is the month's last day, December included |
| UpcomingEvents.WeekOf | client_code/Upcoming_Events_Form/__init__.py:120-131 | a week range starts `weekday()` days before today (this week) or seven days after that (next week), and ends six days after its start |
| UpcomingEvents.GetDateRange | client_code/Upcoming_Events_Form/__init__.py:108-165 | for every selector the start is not after the end |
| UpcomingEvents.DayRanges | client_code/Upcoming_Events_Form/__init__.py:113-118 | Today is (today, today), Tomorrow is one day later at both ends, any other text falls back to (today, today) |
| UpcomingEvents.ThisWeekRange | client_code/Upcoming_Events_Form/__init__.py:120-125 | the start is a Monday, today lies in the range, the end is six days on, and the days of the range have weekdays 0 to 6 in order |
| UpcomingEvents.NextWeekRange | client_code/Upcoming_Events_Form/__init__.py:127-132 | the start is the first Monday strictly after today (at most seven days on, with no Monday in between), and the end is the Sunday six days later |
| UpcomingEvents.ThisMonthRange | client_code/Upcoming_Events_Form/__init__.py:134-142 | the range is day 1 to the last day of today's month, and a date lies in it exactly when it is in today's month |
| UpcomingEvents.NextMonthRange | client_code/Upcoming_Events_Form/__init__.py:144-162 | the range is the whole of the following month, December wrapping to January of the next year |
| UpcomingEvents.WeekArithmetic | client_code/Upcoming_Events_Form/__init__.py:122-131 | subtracting the weekday lands on a Monday at most six days back, and the seven days from it have weekdays 0..6 |
| UpcomingEvents.WeekdayPeriodic | client_code/Upcoming_Events_Form/__init__.py:129-131 | weekdays repeat every seven days |
| UpcomingEvents.RoomAroundToday | client_code/Upcoming_Events_Form/__init__.py:120-132 | before year 9999 the week's Monday and the day thirteen days on both exist |
| UpcomingEvents.OrdinalAtLeastOne | client_code/Upcoming_Events_Form/__init__.py:122 | every date has ordinal at least 1 |
| UpcomingEvents.YearOfRoomBeforeMax | client_code/Upcoming_Events_Form/__init__.py:129-131 | before year 9999 a full year of days remains |
| UpcomingEvents.MondayNotBeforeMinDate | client_code/Upcoming_Events_Form/__init__.py:122 | a week's Monday never falls before 0001-01-01 |
| CalendarStore.KeyIgnoresFieldBoundaries | server_code/Shared_Functions/DB_Utils.py:87 | the `date_time_event` key is plain text: for any texts, an underscore-joined part can move from the end of the time to the start of the event without changing the key |
| CalendarStore.LastPositions | server_code/Shared_Functions/DB_Utils.py:83-88 | the dictionary maps each key to its last position |
| CalendarStore.KeyIndex | server_code/Shared_Functions/DB_Utils.py:80-90 | every stored key is in the dictionary, mapped to the last row that carries it |
| CalendarStore.IndexByKey | server_code/Shared_Functions/DB_Utils.py:83-88 | the loop builds that dictionary |
| CalendarStore.Select | server_code/Shared_Functions/DB_Utils.py:70 | a query finds no more rows than the table holds |
| CalendarStore.Reject | server_code/Shared_Functions/DB_Utils.py:73-75 | deletion leaves no more rows than the table held |
| CalendarStore.SelectRejectPartition | server_code/Shared_Functions/DB_Utils.py:70-75 | found and not-found rows partition the table (sizes, multisets, and membership on each side) |
| CalendarStore.PrefixStep | server_code/Shared_Functions/DB_Utils.py:73-75 | one more row of the table adds it to exactly one side |
| CalendarStore.DeleteStep | server_code/Shared_Functions/DB_Utils.py:246-248 | deleting or keeping the row under the cursor extends the processed prefix by one |
| CalendarStore.DeleteWhere | server_code/Shared_Functions/DB_Utils.py:245-251 | the found rows are deleted, the others stay in order, and the count is the number deleted |
| CalendarStore.RowLeTotal | server_code/Shared_Functions/DB_Utils.py:305 | any two rows are ordered by (date, time) one way or the other |
| CalendarStore.InsertByDateTime | server_code/Shared_Functions/DB_Utils.py:305 | inserting into a sorted list keeps it sorted and adds exactly that row |
| CalendarStore.SortByDateTime | server_code/Shared_Functions/DB_Utils.py:305-309 | the result is ordered by (date, time) and is a permutation of the rows |
| CalendarStore.Refresh | server_code/Shared_Functions/DB_Utils.py:149-151 | an update touches only impact, forecast and previous, after which nothing needs updating |
| CalendarStore.UpsertFold | server_code/Shared_Functions/DB_Utils.py:93-174 | the batch loop never removes rows |
| CalendarStore.UpsertOne | server_code/Shared_Functions/DB_Utils.py:134-174 | one pass of the loop: update, skip or append, as the step function says |
| CalendarStore.UpsertAll | server_code/Shared_Functions/DB_Utils.py:93-174 | the loop over the batch yields the table and counters of the fold |
| CalendarStore.LastFor | server_code/Shared_Functions/DB_Utils.py:134-151 | the event chosen for a row is one found at that row |
| CalendarStore.UpsertFoldReference | server_code/Shared_Functions/DB_Utils.py:93-174 | after a batch, each stored row carries the values of the last event found at it; the appended rows follow in batch order; `added` counts them |
| CalendarStore.UpsertFoldEmptyIndex | server_code/Shared_Functions/DB_Utils.py:127-170 | with no dictionary, stored rows are untouched and every successful append is added at the end |
| CalendarStore.UpsertFoldCounts | server_code/Shared_Functions/DB_Utils.py:93-174 | each event moves exactly one counter, except a failed append when such failures are not counted |
| CalendarStore.UpsertFoldUpdates | server_code/Shared_Functions/DB_Utils.py:134-156 | `updated` is exactly the number of events that find a stored row whose impact, forecast or previous, as the earlier events left it, differs from theirs |
| CalendarStore.StoredEventRefreshed | server_code/Shared_Functions/DB_Utils.py:134-152 | one event whose key is stored with other values rewrites that row's three values and counts one update |
| CalendarStore.UpsertFoldSingle | server_code/Shared_Functions/DB_Utils.py:93-174 | a one-event batch is one step from zero counters |
| CalendarStore.KeyIndexIgnoresValues | server_code/Shared_Functions/DB_Utils.py:149-151 | updating a row's values leaves the key dictionary unchanged |
| CalendarStore.UpsertFindsItsRow | server_code/Market_Calendar/Retrieve_Events.py:195-235 | after an upsert, the next dictionary finds a row with the upsert's values |
| DbUtils.Normalize | server_code/Shared_Functions/DB_Utils.py:53-59 | only a parsable text date changes, and it becomes the parsed date; an unparsable text date stays as it was |
| DbUtils.EventDatesOfBatch | server_code/Shared_Functions/DB_Utils.py:53-62 | a date is among the batch's dates exactly when some event's `date` is that date or a text that parses to it |
| DbUtils.NormalizeBatch | server_code/Shared_Functions/DB_Utils.py:53-59 | the first loop converts every event |
| DbUtils.Prepare | server_code/Shared_Functions/DB_Utils.py:96-131 | an event is used exactly when it has `date` and `event` and its date is a date or a parsable text; missing fields default to `''`; its key is the stored row's key |
| DbUtils.SaveSpec | server_code/Shared_Functions/DB_Utils.py:36-38 | an empty batch returns zero counters and leaves the table as it was |
| DbUtils.SaveMarketCalendarEvents | server_code/Shared_Functions/DB_Utils.py:25-177 | the table and the counters after the call are those of the specification |
| DbUtils.SaveCountsCoverBatch | server_code/Shared_Functions/DB_Utils.py:93-174 | added + updated + skipped equals the batch size |
| DbUtils.InvalidEventSkipped | server_code/Shared_Functions/DB_Utils.py:93-112 | in merge mode, an event without `date` or `event`, or with a malformed date, at the end of any batch is counted skipped and leaves the table as the rest of the batch left it |
| DbUtils.PreparedAppend | server_code/Shared_Functions/DB_Utils.py:53-59 | one more event in the batch adds exactly its own prepared entry at the end |
| DbUtils.InvalidEventStillClears | server_code/Shared_Functions/DB_Utils.py:62-112 | in clear mode a dated event without `event` is counted skipped, yet the stored rows on its date are deleted |
| DbUtils.DuplicateInBatchAppendedTwice | server_code/Shared_Functions/DB_Utils.py:80-170 | two copies of a new event in one batch are both appended (added is 2) |
| DbUtils.MergeKeepsStoredRows | server_code/Shared_Functions/DB_Utils.py:134-156 | merge mode keeps each stored row's date, time, event and currency in place, and the table grows by exactly `added` |
| DbUtils.NoAppendsNoNewRows | server_code/Shared_Functions/DB_Utils.py:134-156 | a batch whose keys are all stored appends nothing |
| DbUtils.ResaveStoredKeysAddsNothing | server_code/Shared_Functions/DB_Utils.py:80-156 | re-saving in merge mode a batch whose keys are stored adds no row |
| DbUtils.ClearModeAppends | server_code/Shared_Functions/DB_Utils.py:158-170 | in clear mode every appended row is on one of the batch's dates |
| DbUtils.ClearKeepsOffDates | server_code/Shared_Functions/DB_Utils.py:65-77 | after the clearing step no kept row is on a batch date, and every row on another date is kept |
| DbUtils.ClearReplacesBatchDates | server_code/Shared_Functions/DB_Utils.py:62-170 | after a clear-mode save, rows on other dates are still there, and every row on a batch date is one the batch appended |
| DbUtils.ResolveBound | server_code/Shared_Functions/DB_Utils.py:210-223 | a bound is absent exactly for None or `''`, malformed exactly for a non-empty text that does not parse, else the given or parsed date |
| DbUtils.ClearMarketCalendarEvents | server_code/Shared_Functions/DB_Utils.py:195-255 | a malformed bound deletes nothing and returns 0; otherwise exactly the rows inside the present bounds are deleted and their number returned |
| DbUtils.ClearWithoutBoundsEmpties | server_code/Shared_Functions/DB_Utils.py:240-242 | with neither bound the table is emptied |
| DbUtils.ClearInvertedRangeKeepsAll | server_code/Shared_Functions/DB_Utils.py:226-233 | a start after the end deletes nothing |
| DbUtils.ViewDateParses | server_code/Shared_Functions/DB_Utils.py:315-318 | a returned dictionary's date text parses back to the row's date |
| DbUtils.ToViews | server_code/Shared_Functions/DB_Utils.py:312-326 | the conversion loop yields the dictionaries of the rows, in row order |
| DbUtils.ViewsOfInsert | server_code/Shared_Functions/DB_Utils.py:305-326 | ordering adds exactly the inserted row's dictionary |
| DbUtils.ViewsOfSort | server_code/Shared_Functions/DB_Utils.py:305-326 | ordering loses and adds no dictionary |
| DbUtils.GetMarketCalendarEvents | server_code/Shared_Functions/DB_Utils.py:258-333 | a malformed bound gives `[]`; otherwise the result is exactly the selected rows as dictionaries (a permutation), ordered by date and by time within a date; the table is read only |
| DbUtils.ReturnedEventsMatchFilters | server_code/Shared_Functions/DB_Utils.py:289-300 | every returned row lies within the present bounds and, for a non-empty currency list, has a listed currency |
| RetrieveEvents.ResolveHeaderDate | server_code/Market_Calendar/Retrieve_Events.py:72-79 | a resolved header has the parsed month and day, this year or next. It is never more than 300 days in the past. It is next year exactly when this year's date would be more than 300 days back |
| RetrieveEvents.RolloverRecoversWindowDate | server_code/Market_Calendar/Retrieve_Events.py:73-79 | every date of the ten-day look-ahead is recovered from its month and day, January read in December included |
| RetrieveEvents.NoPreviousYearRollover | server_code/Market_Calendar/Retrieve_Events.py:76-78 | example: a `Dec 30` header read on 2 January 2025 resolves to 2025-12-30, not to the past December (no backward rollover) |
| RetrieveEvents.InWindowDays | server_code/Market_Calendar/Retrieve_Events.py:140-147 | an event day is in the window exactly when it is one of the next ten days, or today with the run in minute 00:00 (see Left out) |
| RetrieveEvents.CellText | server_code/Market_Calendar/Retrieve_Events.py:118-123 | a present cell gives its stripped text, a missing one `''` |
| RetrieveEvents.ImpactSuffix | server_code/Market_Calendar/Retrieve_Events.py:113-115 | the result is what follows the first `impact--`, or `''` when there is none |
| RetrieveEvents.ReadImpact | server_code/Market_Calendar/Retrieve_Events.py:105-115 | reading fails (row dropped) exactly for a span without classes; a first class containing `impact` gives its `impact--` suffix; a missing cell or span, or a first class without `impact`, gives `''` |
| RetrieveEvents.ReadImpactAsWritten | server_code/Market_Calendar/Retrieve_Events.py:110-115 | fails on exactly the same inputs as the corrected reading |
| RetrieveEvents.ImpactAsWrittenStoresNone | server_code/Market_Calendar/Retrieve_Events.py:107-115 | a first class `impact` yields None as written but `''` when corrected |
| RetrieveEvents.FirstIdMatch | server_code/Market_Calendar/Retrieve_Events.py:133 | the result is the leftmost `event=` followed by a digit, None when there is none |
| RetrieveEvents.EventId | server_code/Market_Calendar/Retrieve_Events.py:125-137 | the ID is all digits, non-empty exactly when the link has an `href` containing `event=` and a digit, and then it is the whole run of digits after the first such `event=` |
| RetrieveEvents.ExtractEvent | server_code/Market_Calendar/Retrieve_Events.py:91-165 | a row yields an event exactly when its currency text is `USD`, its impact reads and the current date is in the window. The event carries USD, United States, the rendered date, the stripped cells, the impact and the ID |
| RetrieveEvents.ProcessRow | server_code/Market_Calendar/Retrieve_Events.py:62-169 | a row appends at most one event and never changes earlier ones; before any date, a row without a header changes nothing; the events grow by exactly the row's contribution: nothing when its own header fails, when it is not a calendar row or when no date is in force, otherwise the event extracted under its own header's date, else the carried one, when the row qualifies |
| RetrieveEvents.Scan | server_code/Market_Calendar/Retrieve_Events.py:57-169 | there are never more events than rows |
| RetrieveEvents.ScanMatchesPage | server_code/Market_Calendar/Retrieve_Events.py:57-169 | the scan's events are exactly, in page order, the events of the rows that contribute one, where a row's contribution is defined from the latest resolved header alone, without the loop's state |
| RetrieveEvents.QualifyingRowEmitted | server_code/Market_Calendar/Retrieve_Events.py:63-165 | every calendar row under a resolved date that is USD, has a readable impact and lies in the window has its event in the output |
| RetrieveEvents.LastRowContributes | server_code/Market_Calendar/Retrieve_Events.py:63-165 | the loop's pass over the last row adds exactly that row's contribution |
| RetrieveEvents.ScanCarriesLatestHeader | server_code/Market_Calendar/Retrieve_Events.py:63-82 | the carried date is always that of the latest header that resolved; a failing header leaves the previous one |
| RetrieveEvents.EventDatedByLatestHeader | server_code/Market_Calendar/Retrieve_Events.py:79-165 | the event a row adds is dated by the latest header that resolved up to and including that row |
| RetrieveEvents.ScanOutputsValid | server_code/Market_Calendar/Retrieve_Events.py:140-163 | every output is USD, United States, with a date text that is a real `YYYY-MM-DD` date inside the window |
| RetrieveEvents.NoHeaderNoEvents | server_code/Market_Calendar/Retrieve_Events.py:85-88 | rows before any date header produce nothing |
| RetrieveEvents.ScanAsWrittenEmitsNothing | server_code/Market_Calendar/Retrieve_Events.py:74-82 | as written, every header fails, so no page produces any event |
| RetrieveEvents.ScanExtends | server_code/Market_Calendar/Retrieve_Events.py:57-165 | the events of a prefix of the page are a prefix of the page's events (page order kept) |
| RetrieveEvents.PrefixTransitive | server_code/Market_Calendar/Retrieve_Events.py:165 | helper for `ScanExtends`: a prefix of a prefix is a prefix |
| RetrieveEvents.ScrapeEvents | server_code/Market_Calendar/Retrieve_Events.py:57-169 | the loop yields the scan's events, each a valid USD event in the window |
| RetrieveEvents.ScrapedUpsert | server_code/Market_Calendar/Retrieve_Events.py:210-234 | an event is appendable exactly when its date text parses; for a rendered date its key is the stored row's key; the row carries the event's fields |
| RetrieveEvents.SaveEventsSpec | server_code/Market_Calendar/Retrieve_Events.py:186-188 | an empty batch changes nothing |
| RetrieveEvents.SaveEventsToTable | server_code/Market_Calendar/Retrieve_Events.py:181-242 | the table and the counters after the call are those of the specification |
| RetrieveEvents.SaveEventsCounts | server_code/Market_Calendar/Retrieve_Events.py:201-237 | the counters add up to the batch size less the failed appends, so never more than the batch |
| RetrieveEvents.ResaveScrapedEventUnchanged | server_code/Market_Calendar/Retrieve_Events.py:195-231 | saving a scraped event again changes nothing and counts it unchanged |
| RetrieveEvents.SaveChangedScrapedEvent | server_code/Market_Calendar/Retrieve_Events.py:213-229 | saving an event whose key is stored with another impact, forecast or previous rewrites those values of that row and counts one update |
| RetrieveEvents.RetrieveMarketCalendarEvents | server_code/Market_Calendar/Retrieve_Events.py:17-179 | the run succeeds exactly when there is a page and the end date exists. It then saves the scanned events. A failed run leaves the table as it was |

## Left out

- HTTP, HTML parsing, logging, `print` and the Anvil runtime. The page is given as a list of pre-parsed rows. `None` stands for an empty response or a page without the calendar table. Other exceptions in the outer `try` of the scraper are not modelled.
- Timezones and clocks. `now` is a date and a minute of the day in the US/Central zone, given as a parameter. Daylight-saving changes and `pytz` localisation are not modelled: the window is measured in minutes of one zone.
- The header grammar `%a %b %d %Y` (locale day and month names) is a parameter returning a month and a day. The model applies the year and the date validity check.
- `IsoDate.ParseIsoDate`: only ASCII digits are accepted, while `strptime` also accepts other Unicode decimal digits.
- `IsoDate.FormatIsoDate`: years below 1000 are padded to four digits, which `strftime("%Y")` may not do on every platform. Stored keys and event keys use the same rendering either way.
- Whether `add_row` raises is the parameter `accepts`. This includes the scraper passing a text date and the extra `ID` and `country` columns, which the stored `Row` does not hold.
- Event field values that are not strings, and `date` values that are neither text nor dates.
- `DbUtils.SaveMarketCalendarEvents`: a `None` batch is the empty sequence. The `error` field is always None on the modelled paths. The outer failure path (table access raising, the debug listing of tables) is not modelled.
- `DbUtils.NormalizeBatch`: the callers' event dictionaries are rewritten in place; the model converts a copy.
- `DbUtils.GetMarketCalendarEvents`: the table fixes no order among rows with equal date and time, and the model commits to one (a stable insertion sort). Time texts are compared by code point.
- `DbUtils.GetMarketCalendarEvents` and `DbUtils.ClearMarketCalendarEvents` take the Anvil query calls at their evident meaning. `q.greater_than_or_equal_to("date", x)`, `q.less_than_or_equal_to("date", x)` and `q.equal_to("currency", c)` are taken to compare the named column with the value. `tables.order_by("date", "time")` is taken to order by date, then time. If `order_by` reads its second argument as the ascending flag, only date order is guaranteed, and the model's time order is one legal outcome. If the column-first query calls raise, the outer `except` returns `[]` or `0`; that path is not modelled.
- `DbUtils.EventDates`: a text date that did not parse is left out of the dates to clear. This assumes a date column matches no text and that `q.any_of` given such a text does not raise; a raise would end in the outer handler's zero counters with an error message, which is not modelled.
- `Text.IsDigit`: only ASCII digits. Python's `\d` in the event-ID pattern also matches other Unicode decimal digits, so `RetrieveEvents.EventId` reads IDs written in ASCII digits only.
- `RetrieveEvents.InWindow`: `now` is measured in whole minutes. The real `now` also carries seconds and microseconds, so as the code stands today's events pass `event_date < now` only at exactly 00:00:00.000000; the model keeps them for the whole minute 00:00.
- `UpcomingEvents.GetDateRange` requires `today.year <= 9998`. In year 9999 some selectors raise an overflow or invalid-date error and others do not; that year is not modelled.
- `RetrieveEvents.RetrieveMarketCalendarEvents` uses the corrected header rule and the corrected impact reading (see Findings), not the code as it stands.
- The form's UI glue (`__init__`, `refresh_events`, dropdown handlers), the navigation form and server functions that are not part of these files.

## Findings

| source | as written | input that shows it | evidently intended | confidence | as-written member | corrected member |
|---|---|---|---|---|---|---|
| server_code/Market_Calendar/Retrieve_Events.py:77 | `now - parsed_date` subtracts a naive datetime from the timezone-aware `now` and raises `TypeError`; the handler skips the row, so no header ever sets the current date and every run saves nothing yet reports success | any page with a date header such as `Mon Mar 4` | compare in days and move dates more than 300 days back to next year | high; not executed | RetrieveEvents.ScanAsWrittenEmitsNothing | RetrieveEvents.RolloverRecoversWindowDate |
| server_code/Market_Calendar/Retrieve_Events.py:113-115 | when the first class contains `impact` but not `impact--`, the failed match (None) is assigned to `impact` and stored | an impact span whose first class is `impact` | keep the `''` default | medium; not executed | RetrieveEvents.ImpactAsWrittenStoresNone | RetrieveEvents.ReadImpact |
