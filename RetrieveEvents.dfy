/** The calendar scraper: walks the rows of the calendar page, carries the
    date of the last date header forward, keeps USD events that fall in the
    next ten days, and saves them with its own duplicate check. */
module RetrieveEvents {

  import opened Wrappers
  import opened Text
  import opened Calendar
  import opened IsoDate
  import opened CalendarStore

  // ---------------------------------------------------------------------------
  // The page and the clock

  /** A date cell; `span` is the text of its `<span>`, if it has one. */
  datatype DateCell = DateCell(span: Option<string>)

  /** A link; `href` is its attribute, if present. */
  datatype Anchor = Anchor(href: Option<string>)

  /** The event-name cell: its text and its first link. */
  datatype EventCell = EventCell(text: string, link: Option<Anchor>)

  /** The impact cell: the class list of its `<span>` (empty when the span
      has no class attribute), if it has a span. */
  datatype ImpactCell = ImpactCell(span: Option<seq<string>>)

  /** One `<tr>` of the calendar table, reduced to what is read from it: the
      cells that are present (as their text) and whether the row carries
      the `calendar__row` class. */
  datatype PageRow = PageRow(dateCell: Option<DateCell>, isCalendarRow: bool,
                             currency: Option<string>, time: Option<string>,
                             event: Option<EventCell>, impact: Option<ImpactCell>,
                             forecast: Option<string>, previous: Option<string>)

  type MinuteOfDay = m: int | 0 <= m < 1440

  /** The current local date and minute of the day at the start of a run. */
  datatype Clock = Clock(today: CalDate, minute: MinuteOfDay)

  /** One scraped event, the dictionary built for each kept row. */
  datatype ScrapedEvent = ScrapedEvent(id: string, date: string, time: string, event: string,
                                       country: string, currency: string, impact: string,
                                       forecast: string, previous: string)

  // ---------------------------------------------------------------------------
  // Date headers

  /** How the header date is completed. `AsWritten` is the code as it
      stands: subtracting the naive parsed date from the timezone-aware
      `now` raises, so every header fails. `Intended` applies the rule the
      code means: a date more than 300 days in the past moves to next year. */
  datatype DateRule = AsWritten | Intended

  datatype HeaderOutcome = Failed | Resolved(day: CalDate)

  /** A header whose text parsed as month `md.0` and day `md.1` (`None` when
      `strptime` rejects the text), completed with the current year. */
  function ResolveHeaderDate(rule: DateRule, md: Option<(int, int)>, today: CalDate): (r: HeaderOutcome)
    ensures rule.AsWritten? ==> r.Failed?
    ensures r.Resolved? ==> md.Some? && r.day.month == md.value.0 && r.day.day == md.value.1
    ensures r.Resolved? ==> r.day.year == today.year || r.day.year == today.year + 1
    ensures r.Resolved? ==> Ordinal(today) - Ordinal(r.day) <= 300
    ensures r.Resolved? ==> ValidDate(Date(today.year, md.value.0, md.value.1))
    ensures r.Resolved? ==>
      (r.day.year == today.year + 1 <==> Ordinal(today) - Ordinal(Date(today.year, md.value.0, md.value.1)) > 300)
  {
    if md.None? then Failed
    else
      var first := Date(today.year, md.value.0, md.value.1);
      if !ValidDate(first) then Failed
      else if rule.AsWritten? then Failed
      else if Ordinal(today) - Ordinal(first) > 300 then
        var next := Date(today.year + 1, md.value.0, md.value.1);
        if ValidDate(next) then
          OrdinalMonotone(today, next);
          Resolved(next)
        else Failed
      else Resolved(first)
  }

  /** Any date of the ten-day look-ahead is recovered from its month and
      day alone, including January dates read in late December. */
  lemma RolloverRecoversWindowDate(today: CalDate, e: CalDate)
    requires Ordinal(today) <= Ordinal(e) <= Ordinal(today) + 10
    ensures ResolveHeaderDate(Intended, Some((e.month, e.day)), today) == Resolved(e)
  {
    OrdinalMonotone(e, today);
    OrdinalWithinYear(today);
    OrdinalWithinYear(e);
    if e.year != today.year {
      var ty := today.year;
      DaysBeforeYearMonotone(ty + 1, e.year);
      assert e.year == ty + 1;
      assert e.month == 1;
      var first: CalDate := Date(ty, 1, e.day);
      DaysBeforeNextYear(ty);
      assert Ordinal(today) - Ordinal(first) > 300;
    }
  }

  /** There is no move to the previous year: a late-December header read
      in early January is put in December of the current year. */
  lemma NoPreviousYearRollover()
    ensures ResolveHeaderDate(Intended, Some((12, 30)), Date(2025, 1, 2)) == Resolved(Date(2025, 12, 30))
  {
    OrdinalMonotone(Date(2025, 1, 2), Date(2025, 12, 30));
  }

  // ---------------------------------------------------------------------------
  // The ten-day window

  /** `event_date < now or event_date > end_date` is false: the event's day,
      taken at midnight, is not before the current minute and not after the
      same minute ten days later. */
  predicate InWindow(d: CalDate, clock: Clock) {
    var event := Ordinal(d) * 1440;
    var now := Ordinal(clock.today) * 1440 + clock.minute;
    !(event < now || event > now + 10 * 1440)
  }

  /** The window in days: the next ten days, plus today only when the run
      starts at midnight exactly. */
  lemma InWindowDays(d: CalDate, clock: Clock)
    ensures InWindow(d, clock) <==>
      && (Ordinal(d) > Ordinal(clock.today) || (Ordinal(d) == Ordinal(clock.today) && clock.minute == 0))
      && Ordinal(d) <= Ordinal(clock.today) + 10
  {
    var k := Ordinal(d) - Ordinal(clock.today);
    assert Ordinal(d) * 1440 - Ordinal(clock.today) * 1440 == k * 1440;
  }

  // ---------------------------------------------------------------------------
  // Cells

  /** `cell.text.strip()` of a cell that may be missing, '' when missing. */
  function CellText(cell: Option<string>): (r: string)
    ensures cell.Some? ==> r == Strip(cell.value)
    ensures cell.None? ==> r == ""
  {
    if cell.Some? then Strip(cell.value) else ""
  }

  /** The impact suffix: what follows the first `impact--` of the class
      name, and '' when there is none. */
  function ImpactSuffix(cls: string): (r: string)
    ensures Contains(cls, "impact--") ==>
      var i := |cls| - |r| - 8;
      && OccursAt(cls, "impact--", i) && r == cls[i + 8..]
      && forall j :: 0 <= j < i ==> !OccursAt(cls, "impact--", j)
    ensures !Contains(cls, "impact--") ==> r == ""
  {
    match IndexOf(cls, "impact--", 0)
    case Some(i) =>
      assert i + 8 <= |cls| && |cls[i + 8..]| == |cls| - i - 8;
      cls[i + 8..]
    case None => ""
  }

  /** The impact value read from the impact cell; `None` when reading it
      raises (a span without classes), which drops the row. A first class
      containing `impact` gives its suffix; anything else gives ''. */
  function ReadImpact(cell: Option<ImpactCell>): (r: Option<string>)
    ensures r.None? <==> cell.Some? && cell.value.span == Some([])
    ensures r.Some? && r.value != "" ==>
      && cell.Some? && cell.value.span.Some? && cell.value.span.value != []
      && Contains(cell.value.span.value[0], "impact") && r.value == ImpactSuffix(cell.value.span.value[0])
    ensures cell.Some? && cell.value.span.Some? && cell.value.span.value != []
            && Contains(cell.value.span.value[0], "impact") ==>
      r == Some(ImpactSuffix(cell.value.span.value[0]))
    ensures || cell.None? || cell.value.span.None?
            || (cell.value.span.value != [] && !Contains(cell.value.span.value[0], "impact")) ==>
      r == Some("")
  {
    match cell
    case None => Some("")
    case Some(ImpactCell(span)) =>
      match span
      case None => Some("")
      case Some(classes) =>
        if classes == [] then None
        else if Contains(classes[0], "impact") then Some(ImpactSuffix(classes[0]))
        else Some("")
  }

  /** The same reading as the code stands: when the first class contains
      `impact` but not `impact--`, the failed regex match (None) is stored
      as the impact. The inner `None` is that None. */
  function ReadImpactAsWritten(cell: Option<ImpactCell>): (r: Option<Option<string>>)
    ensures r.None? <==> ReadImpact(cell).None?
  {
    match cell
    case None => Some(Some(""))
    case Some(ImpactCell(span)) =>
      match span
      case None => Some(Some(""))
      case Some(classes) =>
        if classes == [] then None
        else if Contains(classes[0], "impact") then
          (match IndexOf(classes[0], "impact--", 0)
           case Some(i) => Some(Some(classes[0][i + 8..]))
           case None => Some(None))
        else Some(Some(""))
  }

  /** A class such as `impact` makes the code as written store None
      where the '' default is evidently meant. */
  lemma ImpactAsWrittenStoresNone()
    ensures ReadImpactAsWritten(Some(ImpactCell(Some(["impact"])))) == Some(None)
    ensures ReadImpact(Some(ImpactCell(Some(["impact"])))) == Some("")
  {
    assert OccursAt("impact", "impact", 0);
  }

  /** `event=` followed by a digit starts at `i` in `s`. */
  predicate IdMatchAt(s: string, i: int) {
    OccursAt(s, "event=", i) && i + 6 < |s| && IsDigit(s[i + 6])
  }

  /** Where `re.search(r'event=(\d+)', s)` matches: the first such position. */
  function FirstIdMatch(s: string, from: nat): (r: Option<nat>)
    ensures r.Some? ==> from <= r.value && IdMatchAt(s, r.value)
    ensures r.Some? ==> forall j :: from <= j < r.value ==> !IdMatchAt(s, j)
    ensures r.None? ==> forall j :: from <= j ==> !IdMatchAt(s, j)
    decreases |s| - from
  {
    if from + 6 >= |s| then None
    else if IdMatchAt(s, from) then Some(from)
    else FirstIdMatch(s, from + 1)
  }

  /** The event ID: the digits after the first `event=` that is followed by
      a digit, taken greedily; '' when there is no link, no `href` or no match. */
  function EventId(cell: Option<EventCell>): (r: string)
    ensures AllDigits(r)
    ensures r != "" <==> cell.Some? && cell.value.link.Some? && cell.value.link.value.href.Some?
                         && FirstIdMatch(cell.value.link.value.href.value, 0).Some?
    ensures r != "" ==>
      var href := cell.value.link.value.href.value;
      var k := FirstIdMatch(href, 0).value + 6;
      && k + |r| <= |href| && href[k..k + |r|] == r
      && (k + |r| == |href| || !IsDigit(href[k + |r|]))
  {
    if cell.None? || cell.value.link.None? || cell.value.link.value.href.None? then ""
    else
      var href := cell.value.link.value.href.value;
      match FirstIdMatch(href, 0)
      case None => ""
      case Some(i) =>
        var digits := DigitRun(href[i + 6..]);
        assert |digits| > 0;
        assert href[i + 6..][..|digits|] == href[i + 6..i + 6 + |digits|];
        digits
  }

  // ---------------------------------------------------------------------------
  // Rows

  /** The event of a calendar row, given the current date. The row is kept
      when its currency text is `USD`, its impact cell can be read and the
      current date falls in the window; the date is read back from its own
      `%Y-%m-%d` text for the window check. */
  function ExtractEvent(current: CalDate, row: PageRow, clock: Clock): (r: Option<ScrapedEvent>)
    ensures r.Some? <==> && row.currency.Some? && Strip(row.currency.value) == "USD"
                         && ReadImpact(row.impact).Some? && InWindow(current, clock)
    ensures r.Some? ==>
      && r.value.currency == "USD" && r.value.country == "United States"
      && r.value.date == FormatIsoDate(current)
      && r.value.time == CellText(row.time) && r.value.forecast == CellText(row.forecast)
      && r.value.previous == CellText(row.previous)
      && r.value.event == (if row.event.Some? then Strip(row.event.value.text) else "")
      && r.value.impact == ReadImpact(row.impact).value && r.value.id == EventId(row.event)
  {
    ParseFormatRoundTrip(current);
    if row.currency.None? || Strip(row.currency.value) != "USD" then None
    else
      var time := CellText(row.time);
      var name := if row.event.Some? then Strip(row.event.value.text) else "";
      var impact := ReadImpact(row.impact);
      if impact.None? then None
      else
        var text := FormatIsoDate(current);
        match ParseIsoDate(text)
        case None => None
        case Some(d) =>
          if !InWindow(d, clock) then None
          else Some(ScrapedEvent(EventId(row.event), text, time, name, "United States", "USD",
                                 impact.value, CellText(row.forecast), CellText(row.previous)))
  }

  datatype ScanState = ScanState(current: Option<CalDate>, events: seq<ScrapedEvent>)

  /** The event a row yields when `prior` is the date in force before it:
      nothing when its own header fails to resolve, when it is not a
      calendar row or when no date is in force; otherwise the event
      extracted under its own header's date, else under `prior`, if the
      row qualifies. */
  function RowContribution(prior: Option<CalDate>, row: PageRow, rule: DateRule, clock: Clock,
                           parse: string -> Option<(int, int)>): Option<ScrapedEvent>
  {
    var h := HeaderOf(row, rule, clock, parse);
    var date := if h.Some? && h.value.Resolved? then Some(h.value.day) else prior;
    if (h.Some? && h.value.Failed?) || !row.isCalendarRow || date.None? then None
    else ExtractEvent(date.value, row, clock)
  }

  function Contributed(e: Option<ScrapedEvent>): seq<ScrapedEvent> {
    if e.Some? then [e.value] else []
  }

  /** The header a row carries, if its date cell has a span. */
  function HeaderOf(row: PageRow, rule: DateRule, clock: Clock, parse: string -> Option<(int, int)>): Option<HeaderOutcome> {
    if row.dateCell.Some? && row.dateCell.value.span.Some? then
      Some(ResolveHeaderDate(rule, parse(Strip(row.dateCell.value.span.value)), clock.today))
    else None
  }

  /** One pass of the row loop. A header that fails to resolve skips the
      whole row (the `continue` in its handler), keeping the current date;
      a resolved one replaces it. A calendar row before any date is skipped. */
  function ProcessRow(st: ScanState, row: PageRow, rule: DateRule, clock: Clock,
                      parse: string -> Option<(int, int)>): (r: ScanState)
    ensures |st.events| <= |r.events| <= |st.events| + 1 && r.events[..|st.events|] == st.events
    ensures st.current.None? && HeaderOf(row, rule, clock, parse).None? ==> r == st
    ensures r.events == st.events + Contributed(RowContribution(st.current, row, rule, clock, parse))
  {
    var header := HeaderOf(row, rule, clock, parse);
    if header.Some? && header.value.Failed? then st
    else
      var current := if header.Some? then Some(header.value.day) else st.current;
      if !row.isCalendarRow || current.None? then ScanState(current, st.events)
      else
        var e := ExtractEvent(current.value, row, clock);
        var added := if e.Some? then [e.value] else [];
        assert (st.events + added)[..|st.events|] == st.events;
        ScanState(current, st.events + added)
  }

  /** An event a row emits is the one extracted from it under the date the
      row leaves current. */
  lemma EmittedIsExtracted(st: ScanState, row: PageRow, rule: DateRule, clock: Clock,
                           parse: string -> Option<(int, int)>)
    requires |st.events| < |ProcessRow(st, row, rule, clock, parse).events|
    ensures var r := ProcessRow(st, row, rule, clock, parse);
      && r.current.Some? && ExtractEvent(r.current.value, row, clock).Some?
      && r.events[|st.events|] == ExtractEvent(r.current.value, row, clock).value
  {
  }

  /** The state after the loop has seen `rows`. */
  function Scan(rows: seq<PageRow>, rule: DateRule, clock: Clock, parse: string -> Option<(int, int)>): (r: ScanState)
    ensures |r.events| <= |rows|
  {
    if rows == [] then ScanState(None, [])
    else ProcessRow(Scan(rows[..|rows| - 1], rule, clock, parse), rows[|rows| - 1], rule, clock, parse)
  }

  /** The date of the most recent header of `rows` that resolved. */
  function LatestHeader(rows: seq<PageRow>, rule: DateRule, clock: Clock,
                        parse: string -> Option<(int, int)>): Option<CalDate>
  {
    if rows == [] then None
    else match HeaderOf(rows[|rows| - 1], rule, clock, parse)
      case Some(Resolved(d)) => Some(d)
      case _ => LatestHeader(rows[..|rows| - 1], rule, clock, parse)
  }

  /** The carried date is always that of the latest header that resolved:
      a header that fails leaves the previous one in force. */
  lemma {:induction false} ScanCarriesLatestHeader(rows: seq<PageRow>, rule: DateRule, clock: Clock,
                                                   parse: string -> Option<(int, int)>)
    ensures Scan(rows, rule, clock, parse).current == LatestHeader(rows, rule, clock, parse)
  {
    if rows != [] {
      ScanCarriesLatestHeader(rows[..|rows| - 1], rule, clock, parse);
    }
  }

  /** An event emitted by the last row seen is dated by the latest header
      up to and including that row. */
  lemma EventDatedByLatestHeader(rows: seq<PageRow>, rule: DateRule, clock: Clock,
                                 parse: string -> Option<(int, int)>)
    requires rows != []
    requires |Scan(rows[..|rows| - 1], rule, clock, parse).events| < |Scan(rows, rule, clock, parse).events|
    ensures var h := LatestHeader(rows, rule, clock, parse);
      && h.Some?
      && Scan(rows, rule, clock, parse).events[|Scan(rows[..|rows| - 1], rule, clock, parse).events|].date
           == FormatIsoDate(h.value)
  {
    var st := Scan(rows[..|rows| - 1], rule, clock, parse);
    var r := ProcessRow(st, rows[|rows| - 1], rule, clock, parse);
    ScanLast(rows, rule, clock, parse);
    EmittedIsExtracted(st, rows[|rows| - 1], rule, clock, parse);
    ScanCarriesLatestHeader(rows, rule, clock, parse);
    var e := ExtractEvent(r.current.value, rows[|rows| - 1], clock);
    assert r.events[|st.events|] == e.value;
  }

  /** Every scraped event is a USD event whose date text is a real date in
      the ten-day window. */
  predicate ValidScraped(e: ScrapedEvent, clock: Clock) {
    && e.currency == "USD" && e.country == "United States"
    && ParseIsoDate(e.date).Some? && e.date == FormatIsoDate(ParseIsoDate(e.date).value)
    && InWindow(ParseIsoDate(e.date).value, clock)
  }

  lemma {:induction false} ScanOutputsValid(rows: seq<PageRow>, rule: DateRule, clock: Clock,
                                            parse: string -> Option<(int, int)>)
    ensures forall i :: 0 <= i < |Scan(rows, rule, clock, parse).events| ==>
      ValidScraped(Scan(rows, rule, clock, parse).events[i], clock)
  {
    if rows != [] {
      var n := |rows| - 1;
      var st := Scan(rows[..n], rule, clock, parse);
      ScanOutputsValid(rows[..n], rule, clock, parse);
      var r := ProcessRow(st, rows[n], rule, clock, parse);
      ScanLast(rows, rule, clock, parse);
      forall i | 0 <= i < |r.events|
        ensures ValidScraped(r.events[i], clock)
      {
        if i < |st.events| {
          assert r.events[i] == st.events[i];
        } else {
          assert i == |st.events|;
          EmittedIsExtracted(st, rows[n], rule, clock, parse);
          ExtractedValid(r.current.value, rows[n], clock);
        }
      }
    }
  }

  lemma ExtractedValid(current: CalDate, row: PageRow, clock: Clock)
    requires ExtractEvent(current, row, clock).Some?
    ensures ValidScraped(ExtractEvent(current, row, clock).value, clock)
  {
    ParseFormatRoundTrip(current);
  }

  /** A page without any date header yields nothing: every calendar row
      comes before a date. */
  lemma {:induction false} NoHeaderNoEvents(rows: seq<PageRow>, rule: DateRule, clock: Clock,
                                            parse: string -> Option<(int, int)>)
    requires forall i :: 0 <= i < |rows| ==> HeaderOf(rows[i], rule, clock, parse).None?
    ensures Scan(rows, rule, clock, parse) == ScanState(None, [])
  {
    if rows != [] {
      NoHeaderNoEvents(rows[..|rows| - 1], rule, clock, parse);
    }
  }

  /** As the code stands every header fails, so the scan yields nothing,
      whatever the page holds. */
  lemma {:induction false} ScanAsWrittenEmitsNothing(rows: seq<PageRow>, clock: Clock,
                                                     parse: string -> Option<(int, int)>)
    ensures Scan(rows, AsWritten, clock, parse) == ScanState(None, [])
  {
    if rows != [] {
      ScanAsWrittenEmitsNothing(rows[..|rows| - 1], clock, parse);
    }
  }

  /** What row `i` of the page contributes, stated without the loop's
      state: its contribution under the latest header that resolved before it. */
  function RowEvent(rows: seq<PageRow>, i: nat, rule: DateRule, clock: Clock,
                    parse: string -> Option<(int, int)>): Option<ScrapedEvent>
    requires i < |rows|
  {
    RowContribution(LatestHeader(rows[..i], rule, clock, parse), rows[i], rule, clock, parse)
  }

  /** The events of the first `k` rows in page order, one for each row
      that contributes one. */
  function PageEvents(rows: seq<PageRow>, k: nat, rule: DateRule, clock: Clock,
                      parse: string -> Option<(int, int)>): seq<ScrapedEvent>
    requires k <= |rows|
  {
    if k == 0 then []
    else
      PageEvents(rows, k - 1, rule, clock, parse) + Contributed(RowEvent(rows, k - 1, rule, clock, parse))
  }


  /** The scan emits exactly the page's contributing rows' events, in page
      order: no qualifying row is lost and nothing else is emitted. */
  lemma ScanMatchesPage(rows: seq<PageRow>, rule: DateRule, clock: Clock, parse: string -> Option<(int, int)>)
    ensures Scan(rows, rule, clock, parse).events == PageEvents(rows, |rows|, rule, clock, parse)
  {
    ScanPrefixMatchesPage(rows, |rows|, rule, clock, parse);
    assert rows[..|rows|] == rows;
  }

  lemma {:induction false} ScanPrefixMatchesPage(rows: seq<PageRow>, k: nat, rule: DateRule, clock: Clock,
                                                 parse: string -> Option<(int, int)>)
    requires k <= |rows|
    ensures Scan(rows[..k], rule, clock, parse).events == PageEvents(rows, k, rule, clock, parse)
    decreases k
  {
    if k > 0 {
      ScanPrefixMatchesPage(rows, k - 1, rule, clock, parse);
      ScanPrefixStep(rows, k, rule, clock, parse);
    }
  }

  /** Scanning one more row of the page adds that row's contribution. */
  lemma ScanPrefixStep(rows: seq<PageRow>, k: nat, rule: DateRule, clock: Clock,
                       parse: string -> Option<(int, int)>)
    requires 0 < k <= |rows|
    ensures Scan(rows[..k], rule, clock, parse).events
         == Scan(rows[..k - 1], rule, clock, parse).events + Contributed(RowEvent(rows, k - 1, rule, clock, parse))
  {
    var st := Scan(rows[..k - 1], rule, clock, parse);
    ScanPrefixLast(rows, k, rule, clock, parse);
    ScanCarriesLatestHeader(rows[..k - 1], rule, clock, parse);
    assert RowContribution(st.current, rows[k - 1], rule, clock, parse) == RowEvent(rows, k - 1, rule, clock, parse);
  }

  /** The last pass over the first `k` rows, in terms of the scan of the first `k - 1`. */
  lemma ScanPrefixLast(rows: seq<PageRow>, k: nat, rule: DateRule, clock: Clock,
                       parse: string -> Option<(int, int)>)
    requires 0 < k <= |rows|
    ensures Scan(rows[..k], rule, clock, parse)
         == ProcessRow(Scan(rows[..k - 1], rule, clock, parse), rows[k - 1], rule, clock, parse)
  {
    var pre := rows[..k];
    assert |pre| == k && pre[..k - 1] == rows[..k - 1] && pre[k - 1] == rows[k - 1];
    ScanLast(pre, rule, clock, parse);
  }

  /** The loop's last pass adds exactly the last row's contribution. */
  lemma LastRowContributes(rows: seq<PageRow>, rule: DateRule, clock: Clock, parse: string -> Option<(int, int)>)
    requires rows != []
    ensures var n := |rows| - 1;
      Scan(rows, rule, clock, parse).events
        == Scan(rows[..n], rule, clock, parse).events + Contributed(RowEvent(rows, n, rule, clock, parse))
  {
    var n := |rows| - 1;
    ScanLast(rows, rule, clock, parse);
    ScanCarriesLatestHeader(rows[..n], rule, clock, parse);
  }

  /** Every row that qualifies (a calendar row under a resolved or carried
      date, USD, a readable impact, in the window) has its event among the
      scan's output. */
  lemma QualifyingRowEmitted(rows: seq<PageRow>, i: nat, rule: DateRule, clock: Clock,
                             parse: string -> Option<(int, int)>)
    requires i < |rows| && RowEvent(rows, i, rule, clock, parse).Some?
    ensures RowEvent(rows, i, rule, clock, parse).value in Scan(rows, rule, clock, parse).events
  {
    var ev := RowEvent(rows, i, rule, clock, parse);
    ScanPrefixStep(rows, i + 1, rule, clock, parse);
    ScanExtends(rows, i + 1, rule, clock, parse);
    var a, b := Scan(rows[..i + 1], rule, clock, parse).events, Scan(rows, rule, clock, parse).events;
    assert a == Scan(rows[..i], rule, clock, parse).events + [ev.value];
    assert b[|a| - 1] == a[|a| - 1] == ev.value;
  }

  /** The loop's last pass. */
  lemma ScanLast(rows: seq<PageRow>, rule: DateRule, clock: Clock, parse: string -> Option<(int, int)>)
    requires rows != []
    ensures Scan(rows, rule, clock, parse)
         == ProcessRow(Scan(rows[..|rows| - 1], rule, clock, parse), rows[|rows| - 1], rule, clock, parse)
  {
  }

  /** One more row only appends to the events. */
  lemma ScanStep(rows: seq<PageRow>, rule: DateRule, clock: Clock, parse: string -> Option<(int, int)>)
    requires rows != []
    ensures var a, b := Scan(rows[..|rows| - 1], rule, clock, parse).events, Scan(rows, rule, clock, parse).events;
      |a| <= |b| && b[..|a|] == a
  {
    ScanLast(rows, rule, clock, parse);
  }

  /** Events come out in page order: scanning more rows only appends. */
  lemma {:induction false} ScanExtends(rows: seq<PageRow>, k: nat, rule: DateRule, clock: Clock,
                                       parse: string -> Option<(int, int)>)
    requires k <= |rows|
    ensures var a, b := Scan(rows[..k], rule, clock, parse).events, Scan(rows, rule, clock, parse).events;
      |a| <= |b| && b[..|a|] == a
    decreases |rows|
  {
    if k < |rows| {
      var pre := rows[..|rows| - 1];
      assert pre[..k] == rows[..k];
      var a, m, b := Scan(rows[..k], rule, clock, parse).events, Scan(pre, rule, clock, parse).events,
                     Scan(rows, rule, clock, parse).events;
      ScanExtends(pre, k, rule, clock, parse);
      assert |a| <= |m| && m[..|a|] == a;
      ScanStep(rows, rule, clock, parse);
      assert |m| <= |b| && b[..|m|] == m;
      PrefixTransitive(a, m, b);
    } else {
      assert rows[..k] == rows;
    }
  }

  lemma PrefixTransitive<T>(a: seq<T>, b: seq<T>, c: seq<T>)
    requires |a| <= |b| <= |c| && b[..|a|] == a && c[..|b|] == b
    ensures c[..|a|] == a
  {
    assert c[..|a|] == c[..|b|][..|a|];
  }

  /** The row loop. */
  method ScrapeEvents(rows: seq<PageRow>, rule: DateRule, clock: Clock, parse: string -> Option<(int, int)>)
    returns (events: seq<ScrapedEvent>)
    ensures events == Scan(rows, rule, clock, parse).events
    ensures forall i :: 0 <= i < |events| ==> ValidScraped(events[i], clock)
  {
    var st := ScanState(None, []);
    for i := 0 to |rows|
      invariant st == Scan(rows[..i], rule, clock, parse)
    {
      assert rows[..i + 1][..i] == rows[..i];
      st := ProcessRow(st, rows[i], rule, clock, parse);
    }
    assert rows[..|rows|] == rows;
    ScanOutputsValid(rows, rule, clock, parse);
    events := st.events;
  }

  // ---------------------------------------------------------------------------
  // save_events_to_table

  /** What the scraper's save does with one event: its key is built from
      the date text as scraped; the row `add_row` writes takes that text as
      a date. No event is skipped before lookup. */
  function ScrapedUpsert(e: ScrapedEvent): (u: Upsert)
    ensures u.insert.Some? <==> ParseIsoDate(e.date).Some?
    ensures u.insert.Some? && e.date == FormatIsoDate(u.insert.value.date) ==> u.key == RowKey(u.insert.value)
    ensures u.insert.Some? ==> var row := u.insert.value;
      row.time == e.time && row.event == e.event && row.currency == e.currency
      && row.impact == u.impact == e.impact && row.forecast == u.forecast == e.forecast
      && row.previous == u.previous == e.previous
  {
    var insert := match ParseIsoDate(e.date)
      case Some(d) => Some(Row(d, e.time, e.event, e.currency, e.impact, e.forecast, e.previous))
      case None => None;
    Upsert(EventKey(e.date, e.time, e.event), e.impact, e.forecast, e.previous, insert)
  }

  function ScrapedUpserts(events: seq<ScrapedEvent>): (r: seq<Option<Upsert>>)
    ensures |r| == |events|
  {
    seq(|events|, i requires 0 <= i < |events| => Some(ScrapedUpsert(events[i])))
  }

  /** The table and the logged counters after `save_events_to_table`: the
      key dictionary is built from the stored rows, and an append that
      raises is logged but not counted. */
  function SaveEventsSpec(rows0: seq<Row>, events: seq<ScrapedEvent>, accepts: Row -> bool): (st: StoreState)
    ensures events == [] ==> st == StoreState(rows0, Counts(0, 0, 0))
  {
    if events == [] then StoreState(rows0, Counts(0, 0, 0))
    else UpsertFold(rows0, KeyIndex(rows0), ScrapedUpserts(events), accepts, false)
  }

  method SaveEventsToTable(table: CalendarTable, events: seq<ScrapedEvent>, accepts: Row -> bool)
    returns (c: Counts)
    modifies table
    ensures StoreState(table.rows, c) == SaveEventsSpec(old(table.rows), events, accepts)
  {
    if |events| == 0 {
      return Counts(0, 0, 0);
    }
    var idx := IndexByKey(table.rows);
    c := UpsertAll(table, idx, ScrapedUpserts(events), accepts, false);
  }

  /** The counters add up to the batch less the appends that raised. */
  lemma SaveEventsCounts(rows0: seq<Row>, events: seq<ScrapedEvent>, accepts: Row -> bool)
    ensures var c := SaveEventsSpec(rows0, events, accepts).counts;
      && c.added + c.updated + c.skipped
           == |events| - (if events == [] then 0 else FailedAppends(ScrapedUpserts(events), KeyIndex(rows0), accepts))
      && c.added + c.updated + c.skipped <= |events|
  {
    if events != [] {
      UpsertFoldCounts(rows0, KeyIndex(rows0), ScrapedUpserts(events), accepts, false);
    }
  }

  /** Saving a scraped event a second time finds the row the first save
      stored or refreshed, changes nothing and counts it as unchanged. */
  lemma ResaveScrapedEventUnchanged(rows0: seq<Row>, e: ScrapedEvent, accepts: Row -> bool)
    requires ParseIsoDate(e.date).Some? && e.date == FormatIsoDate(ParseIsoDate(e.date).value)
    requires accepts(ScrapedUpsert(e).insert.value)
    ensures var rows1 := SaveEventsSpec(rows0, [e], accepts).rows;
      SaveEventsSpec(rows1, [e], accepts) == StoreState(rows1, Counts(0, 0, 1))
  {
    var u := ScrapedUpsert(e);
    SaveOneScraped(rows0, e, accepts);
    var rows1 := SaveEventsSpec(rows0, [e], accepts).rows;
    UpsertFindsItsRow(rows0, u, accepts, false);
    SaveOneScraped(rows1, e, accepts);
    var idx1 := KeyIndex(rows1);
    assert u.key in idx1 && !NeedsUpdate(rows1[idx1[u.key]], u);
  }

  /** Saving a scraped event whose key is stored with a different impact,
      forecast or previous rewrites those three values of that row and
      counts it as updated. */
  lemma SaveChangedScrapedEvent(rows0: seq<Row>, e: ScrapedEvent, accepts: Row -> bool)
    requires var u := ScrapedUpsert(e);
      u.key in KeyIndex(rows0) && NeedsUpdate(rows0[KeyIndex(rows0)[u.key]], u)
    ensures var u := ScrapedUpsert(e);
      var j := KeyIndex(rows0)[u.key];
      SaveEventsSpec(rows0, [e], accepts) == StoreState(rows0[j := Refresh(rows0[j], u)], Counts(0, 1, 0))
  {
    SaveOneScraped(rows0, e, accepts);
    UpsertFoldSingle(rows0, KeyIndex(rows0), Some(ScrapedUpsert(e)), accepts, false);
    StoredEventRefreshed(rows0, ScrapedUpsert(e), accepts, false);
  }

  /** Saving a single scraped event is one step of the batch loop. */
  lemma SaveOneScraped(rows: seq<Row>, e: ScrapedEvent, accepts: Row -> bool)
    ensures SaveEventsSpec(rows, [e], accepts)
         == UpsertStep(StoreState(rows, Counts(0, 0, 0)), KeyIndex(rows), Some(ScrapedUpsert(e)), accepts, false)
  {
    assert ScrapedUpserts([e]) == [Some(ScrapedUpsert(e))];
    UpsertFoldSingle(rows, KeyIndex(rows), Some(ScrapedUpsert(e)), accepts, false);
  }

  // ---------------------------------------------------------------------------
  // retrieve_market_calendar_events

  /** The background task. `page` is the rows of the calendar table, or
      `None` when the response is empty or holds no calendar table. The run
      fails (false) when the look-ahead end date is beyond the calendar or
      there is no page; otherwise the intended date rule is applied, the
      kept events are saved and the run succeeds. */
  method RetrieveMarketCalendarEvents(table: CalendarTable, page: Option<seq<PageRow>>, clock: Clock,
                                      parse: string -> Option<(int, int)>, accepts: Row -> bool)
    returns (ok: bool)
    modifies table
    ensures ok <==> Ordinal(clock.today) + 10 <= Ordinal(MaxDate) && page.Some?
    ensures !ok ==> table.rows == old(table.rows)
    ensures ok ==> table.rows == SaveEventsSpec(old(table.rows), Scan(page.value, Intended, clock, parse).events, accepts).rows
  {
    if Ordinal(clock.today) + 10 > Ordinal(MaxDate) {
      return false;
    }
    if page.None? {
      return false;
    }
    var events := ScrapeEvents(page.value, Intended, clock, parse);
    var counts := SaveEventsToTable(table, events, accepts);
    return true;
  }
}
