/** The three callable functions of the shared database module: a batch
    save with duplicate detection or date clearing, deletion by an optional
    date range, and retrieval filtered by dates and currencies and ordered
    by date and time. */
module DbUtils {

  import opened Wrappers
  import opened Text
  import opened Calendar
  import opened IsoDate
  import opened CalendarStore

  // ---------------------------------------------------------------------------
  // Incoming events

  /** A `date` value as callers pass it: text, or an actual date. */
  datatype DateValue = Text(s: string) | Day(d: CalDate)

  /** One event dictionary; `None` is a key the dictionary lacks. */
  datatype EventInput = EventInput(date: Option<DateValue>, time: Option<string>, event: Option<string>,
                                   currency: Option<string>, impact: Option<string>,
                                   forecast: Option<string>, previous: Option<string>)

  /** The first pass over the batch: a text date that parses as `%Y-%m-%d`
      is replaced by the date; one that does not is left as it was. */
  function Normalize(e: EventInput): (r: EventInput)
    ensures r.(date := e.date) == e
    ensures e.date.Some? <==> r.date.Some?
    ensures r.date.Some? && r.date.value.Text? ==> r.date == e.date && ParseIsoDate(r.date.value.s).None?
    ensures e.date.Some? && e.date.value.Text? && ParseIsoDate(e.date.value.s).Some? ==>
      r.date == Some(Day(ParseIsoDate(e.date.value.s).value))
    ensures !(e.date.Some? && e.date.value.Text? && ParseIsoDate(e.date.value.s).Some?) ==> r == e
  {
    match e.date
    case Some(Text(s)) =>
      (match ParseIsoDate(s)
       case Some(d) => e.(date := Some(Day(d)))
       case None => e)
    case _ => e
  }

  function Normalized(events: seq<EventInput>): (r: seq<EventInput>)
    ensures |r| == |events|
  {
    seq(|events|, i requires 0 <= i < |events| => Normalize(events[i]))
  }

  /** The date an event's `date` value denotes: the date itself, or the
      date its text parses to. */
  predicate Denotes(v: DateValue, d: CalDate) {
    v == Day(d) || (v.Text? && ParseIsoDate(v.s) == Some(d))
  }

  /** The dates the clearing step uses are exactly those the batch's
      `date` values denote; a text that does not parse contributes none. */
  lemma EventDatesOfBatch(events: seq<EventInput>, d: CalDate)
    ensures d in EventDates(Normalized(events)) <==>
      exists i :: 0 <= i < |events| && events[i].date.Some? && Denotes(events[i].date.value, d)
  {
    var norm := Normalized(events);
    if d in EventDates(norm) {
      var i :| 0 <= i < |norm| && norm[i].date.Some? && norm[i].date.value.Day? && norm[i].date.value.d == d;
      assert norm[i] == Normalize(events[i]);
      assert events[i].date.Some? && Denotes(events[i].date.value, d);
    }
    if exists i :: 0 <= i < |events| && events[i].date.Some? && Denotes(events[i].date.value, d) {
      var i :| 0 <= i < |events| && events[i].date.Some? && Denotes(events[i].date.value, d);
      assert norm[i] == Normalize(events[i]);
      assert norm[i].date == Some(Day(d));
    }
  }

  /** Some event of the batch has a `date` key at all. */
  predicate AnyDated(events: seq<EventInput>) {
    exists i :: 0 <= i < |events| && events[i].date.Some?
  }

  /** The dates in the set of batch dates that a date column can match: a
      text that did not parse matches no stored row. */
  function EventDates(events: seq<EventInput>): set<CalDate> {
    set i | 0 <= i < |events| && events[i].date.Some? && events[i].date.value.Day? :: events[i].date.value.d
  }

  /** What the save loop does with one event: `None` when it is skipped
      before any lookup (no `date` or no `event`, or a date that is not a
      `%Y-%m-%d` text); otherwise the missing fields default to '' and the
      key is built from the date rendered back as `YYYY-MM-DD`. */
  function Prepare(e: EventInput): (r: Option<Upsert>)
    ensures r.Some? <==> e.date.Some? && e.event.Some?
                         && (e.date.value.Text? ==> ParseIsoDate(e.date.value.s).Some?)
    ensures r.Some? ==> r.value.insert.Some?
    ensures r.Some? ==>
      var row := r.value.insert.value;
      && row.event == e.event.value
      && row.time == e.time.GetOr("") && row.currency == e.currency.GetOr("")
      && row.impact == r.value.impact == e.impact.GetOr("")
      && row.forecast == r.value.forecast == e.forecast.GetOr("")
      && row.previous == r.value.previous == e.previous.GetOr("")
      && r.value.key == RowKey(row)
      && (e.date.value.Day? ==> row.date == e.date.value.d)
      && (e.date.value.Text? ==> Some(row.date) == ParseIsoDate(e.date.value.s))
  {
    if e.date.None? || e.event.None? then None
    else
      var day := match e.date.value
        case Day(d) => Some(d)
        case Text(s) => ParseIsoDate(s);
      if day.None? then None
      else
        var row := Row(day.value, e.time.GetOr(""), e.event.value, e.currency.GetOr(""),
                       e.impact.GetOr(""), e.forecast.GetOr(""), e.previous.GetOr(""));
        Some(Upsert(RowKey(row), row.impact, row.forecast, row.previous, Some(row)))
  }

  function Prepared(events: seq<EventInput>): (r: seq<Option<Upsert>>)
    ensures |r| == |events|
  {
    seq(|events|, i requires 0 <= i < |events| => Prepare(events[i]))
  }

  // ---------------------------------------------------------------------------
  // save_market_calendar_events

  /** The table and the counters after `save_market_calendar_events`. An
      empty batch changes nothing. In clear mode the stored rows on the
      batch's dates are deleted first and no duplicate check is made; in
      merge mode the key dictionary of the stored rows is consulted. An
      append that raises is counted as skipped. */
  function SaveSpec(rows0: seq<Row>, events: seq<EventInput>, clearExisting: bool,
                    accepts: Row -> bool): (st: StoreState)
    ensures events == [] ==> st == StoreState(rows0, Counts(0, 0, 0))
  {
    if events == [] then StoreState(rows0, Counts(0, 0, 0))
    else
      var norm := Normalized(events);
      var rows1 := if clearExisting && AnyDated(norm) then Reject(rows0, DateAmong(EventDates(norm))) else rows0;
      var idx := if clearExisting then map[] else KeyIndex(rows1);
      UpsertFold(rows1, idx, Prepared(norm), accepts, true)
  }

  /** The first loop over the batch, converting text dates. */
  method NormalizeBatch(events: seq<EventInput>) returns (norm: seq<EventInput>)
    ensures norm == Normalized(events)
  {
    norm := [];
    for i := 0 to |events|
      invariant norm == Normalized(events[..i])
    {
      norm := norm + [Normalize(events[i])];
    }
    assert events[..|events|] == events;
  }

  method SaveMarketCalendarEvents(table: CalendarTable, events: seq<EventInput>, clearExisting: bool,
                                  accepts: Row -> bool) returns (c: Counts)
    modifies table
    ensures StoreState(table.rows, c) == SaveSpec(old(table.rows), events, clearExisting, accepts)
  {
    if |events| == 0 {
      return Counts(0, 0, 0);
    }
    var norm := NormalizeBatch(events);
    if clearExisting && AnyDated(norm) {
      var deleted := DeleteWhere(table, DateAmong(EventDates(norm)));
    }
    var idx: map<string, nat> := map[];
    if !clearExisting {
      idx := IndexByKey(table.rows);
    }
    c := UpsertAll(table, idx, Prepared(norm), accepts, true);
  }

  /** Each event of a non-empty batch is counted once: added, updated or skipped. */
  lemma SaveCountsCoverBatch(rows0: seq<Row>, events: seq<EventInput>, clearExisting: bool, accepts: Row -> bool)
    ensures var c := SaveSpec(rows0, events, clearExisting, accepts).counts;
      c.added + c.updated + c.skipped == |events|
  {
    if events != [] {
      var norm := Normalized(events);
      var rows1 := if clearExisting && AnyDated(norm) then Reject(rows0, DateAmong(EventDates(norm))) else rows0;
      var idx := if clearExisting then map[] else KeyIndex(rows1);
      UpsertFoldCounts(rows1, idx, Prepared(norm), accepts, true);
    }
  }

  /** In merge mode, an event without `date` or `event`, or with a date
      that is not a `%Y-%m-%d` text, is counted as skipped and writes
      nothing, wherever it stands in the batch: the save of `B + [e]` is the
      save of `B` with one more skip. */
  lemma InvalidEventSkipped(rows0: seq<Row>, batch: seq<EventInput>, e: EventInput, accepts: Row -> bool)
    requires Prepare(e).None?
    ensures var before := SaveSpec(rows0, batch, false, accepts);
      SaveSpec(rows0, batch + [e], false, accepts)
        == StoreState(before.rows, before.counts.(skipped := before.counts.skipped + 1))
  {
    var ups := Prepared(Normalized(batch));
    PreparedAppend(batch, e);
    NormalizeKeepsPreparation(e);
    SaveInMergeMode(rows0, batch, accepts);
    SaveInMergeMode(rows0, batch + [e], accepts);
    UpsertFoldSkip(rows0, KeyIndex(rows0), ups, accepts);
  }

  /** In merge mode the save is the batch loop over the prepared events,
      against the dictionary of the stored rows. */
  lemma SaveInMergeMode(rows0: seq<Row>, events: seq<EventInput>, accepts: Row -> bool)
    ensures SaveSpec(rows0, events, false, accepts)
         == UpsertFold(rows0, KeyIndex(rows0), Prepared(Normalized(events)), accepts, true)
  {
    if events == [] {
      assert Prepared(Normalized(events)) == [];
    }
  }

  /** A skipped entry at the end of a batch only adds one skip. */
  lemma UpsertFoldSkip(rows: seq<Row>, idx: map<string, nat>, ups: seq<Option<Upsert>>, accepts: Row -> bool)
    requires IndexFits(idx, rows)
    ensures var before := UpsertFold(rows, idx, ups, accepts, true);
      UpsertFold(rows, idx, ups + [None], accepts, true)
        == StoreState(before.rows, before.counts.(skipped := before.counts.skipped + 1))
  {
    assert (ups + [None])[..|ups|] == ups;
  }

  /** Converting a text date first does not change how an event is prepared. */
  lemma NormalizeKeepsPreparation(e: EventInput)
    ensures Prepare(Normalize(e)) == Prepare(e)
  {
  }

  /** Preparing a batch with one more event appends that event's preparation. */
  lemma PreparedAppend(batch: seq<EventInput>, e: EventInput)
    ensures Prepared(Normalized(batch + [e])) == Prepared(Normalized(batch)) + [Prepare(Normalize(e))]
  {
    var lhs, rhs := Prepared(Normalized(batch + [e])), Prepared(Normalized(batch)) + [Prepare(Normalize(e))];
    assert forall i :: 0 <= i < |lhs| ==> lhs[i] == rhs[i] by {
      forall i | 0 <= i < |lhs|
        ensures lhs[i] == rhs[i]
      {
        if i < |batch| {
          assert (batch + [e])[i] == batch[i];
        }
      }
    }
  }

  /** In clear mode the same skipped event still takes part in clearing:
      a dated event without `event` deletes the stored rows on its date. */
  lemma InvalidEventStillClears(rows0: seq<Row>, e: EventInput, accepts: Row -> bool)
    requires Prepare(e).None? && Normalize(e).date.Some? && Normalize(e).date.value.Day?
    ensures SaveSpec(rows0, [e], true, accepts)
         == StoreState(Reject(rows0, DateAmong({Normalize(e).date.value.d})), Counts(0, 0, 1))
  {
    var norm := Normalized([e]);
    assert norm[0] == Normalize(e);
    assert AnyDated(norm);
    assert EventDates(norm) == {Normalize(e).date.value.d};
    assert Prepare(Normalize(e)) == Prepare(e);
    assert Prepared(norm) == [None];
    var rows1 := Reject(rows0, DateAmong(EventDates(norm)));
    UpsertFoldSingle(rows1, map[], None, accepts, true);
  }

  /** The dictionary is built once, before the loop: two copies of a new
      event in one batch are both appended. */
  lemma DuplicateInBatchAppendedTwice(rows0: seq<Row>, e: EventInput, accepts: Row -> bool)
    requires Prepare(e).Some? && Prepare(e).value.key !in KeyIndex(rows0)
    requires accepts(Prepare(e).value.insert.value)
    ensures var row := Prepare(e).value.insert.value;
      SaveSpec(rows0, [e, e], false, accepts) == StoreState(rows0 + [row, row], Counts(2, 0, 0))
  {
    var norm := Normalized([e, e]);
    assert Prepare(Normalize(e)) == Prepare(e);
    assert Prepared(norm) == [Prepare(e), Prepare(e)];
    UnseenTwiceAppendsTwice(rows0, KeyIndex(rows0), Prepare(e).value, accepts);
  }

  /** Two copies of an event whose key is not in the dictionary both append. */
  lemma UnseenTwiceAppendsTwice(rows: seq<Row>, idx: map<string, nat>, u: Upsert, accepts: Row -> bool)
    requires IndexFits(idx, rows) && u.key !in idx && u.insert.Some? && accepts(u.insert.value)
    ensures UpsertFold(rows, idx, [Some(u), Some(u)], accepts, true)
         == StoreState(rows + [u.insert.value, u.insert.value], Counts(2, 0, 0))
  {
    var ups := [Some(u), Some(u)];
    var x := u.insert.value;
    assert ups[..1] == [Some(u)] && ups[..1][..0] == [];
    assert UpsertFold(rows, idx, ups[..1], accepts, true) == StoreState(rows + [x], Counts(1, 0, 0));
    assert rows + [x] + [x] == rows + [x, x];
  }

  /** Merge mode only rewrites impact, forecast and previous of stored rows:
      each stored row keeps its date, time, event and currency (hence its
      key), the appended rows follow, and `added` counts exactly them. */
  lemma MergeKeepsStoredRows(rows0: seq<Row>, events: seq<EventInput>, accepts: Row -> bool)
    requires events != []
    ensures var st := SaveSpec(rows0, events, false, accepts);
      && |st.rows| == |rows0| + st.counts.added
      && forall j :: 0 <= j < |rows0| ==>
           var r, s := rows0[j], st.rows[j];
           s.date == r.date && s.time == r.time && s.event == r.event && s.currency == r.currency
  {
    var norm := Normalized(events);
    var idx := KeyIndex(rows0);
    var ups := Prepared(norm);
    var st := UpsertFold(rows0, idx, ups, accepts, true);
    assert SaveSpec(rows0, events, false, accepts) == st;
    UpsertFoldReference(rows0, idx, ups, accepts, true);
    RefreshesKeepIdentity(rows0, idx, ups);
    assert forall j :: 0 <= j < |rows0| ==> st.rows[j] == Refreshes(rows0, idx, ups)[j];
  }

  /** Nothing is appended to a batch whose every event has a stored key. */
  lemma NoAppendsNoNewRows(ups: seq<Option<Upsert>>, idx: map<string, nat>, accepts: Row -> bool)
    requires forall i :: 0 <= i < |ups| && ups[i].Some? ==> ups[i].value.key in idx
    ensures NewRows(ups, idx, accepts) == []
  {
    if ups != [] {
      NoAppendsNoNewRows(ups[..|ups| - 1], idx, accepts);
    }
  }

  /** Saving again, in merge mode, a batch whose keys are all stored
      appends nothing: the table keeps its size and `added` is zero. */
  lemma ResaveStoredKeysAddsNothing(rows0: seq<Row>, events: seq<EventInput>, accepts: Row -> bool)
    requires forall i :: 0 <= i < |events| && Prepare(events[i]).Some? ==>
               Prepare(events[i]).value.key in KeyIndex(rows0)
    ensures var st := SaveSpec(rows0, events, false, accepts);
      st.counts.added == 0 && |st.rows| == |rows0|
  {
    if events != [] {
      var norm := Normalized(events);
      var ups := Prepared(norm);
      var idx := KeyIndex(rows0);
      forall i | 0 <= i < |ups| && ups[i].Some?
        ensures ups[i].value.key in idx
      {
        assert Prepare(Normalize(events[i])) == Prepare(events[i]);
      }
      NoAppendsNoNewRows(ups, idx, accepts);
      UpsertFoldReference(rows0, idx, ups, accepts, true);
    }
  }

  /** With an empty dictionary every prepared event that `add_row` accepts
      is appended, and each appended row is on one of the batch's dates. */
  lemma {:induction false} ClearModeAppends(norm: seq<EventInput>, ups: seq<Option<Upsert>>, accepts: Row -> bool)
    requires ups == Prepared(norm)
    requires forall i :: 0 <= i < |norm| ==> norm[i] == Normalize(norm[i])
    ensures forall r :: r in NewRows(ups, map[], accepts) ==> r.date in EventDates(norm)
  {
    if ups != [] {
      var n := |ups| - 1;
      assert Prepared(norm[..n]) == ups[..n];
      ClearModeAppends(norm[..n], ups[..n], accepts);
      forall r | r in NewRows(ups[..n], map[], accepts)
        ensures r.date in EventDates(norm)
      {
        assert r.date in EventDates(norm[..n]);
        var i :| 0 <= i < n && norm[..n][i].date.Some? && norm[..n][i].date.value.Day?
                 && norm[..n][i].date.value.d == r.date;
        assert norm[i] == norm[..n][i];
      }
      if Appends(ups[n], map[], accepts) {
        var e := norm[n];
        assert Normalize(e) == e;
        assert e.date.value.Day?;
        assert ups[n].value.insert.value.date == e.date.value.d;
      }
    }
  }

  /** The deletion step of clear mode: the kept rows are exactly the
      stored rows off the batch's dates. */
  lemma ClearKeepsOffDates(rows0: seq<Row>, dates: set<CalDate>, anyDated: bool)
    requires anyDated || dates == {}
    ensures var rows1 := if anyDated then Reject(rows0, DateAmong(dates)) else rows0;
      && (forall i :: 0 <= i < |rows1| ==> rows1[i].date !in dates)
      && (forall r :: r in rows0 && r.date !in dates ==> r in rows1)
  {
    var rows1 := if anyDated then Reject(rows0, DateAmong(dates)) else rows0;
    SelectRejectPartition(rows0, DateAmong(dates));
    forall i | 0 <= i < |rows1|
      ensures rows1[i].date !in dates
    {
      assert rows1[i] in rows1;
    }
  }

  /** Clear mode: a stored row survives exactly when it is not on one of
      the batch's dates, so afterwards every row on a batch date is one of
      the batch's own rows, and every stored row on another date is kept. */
  lemma ClearReplacesBatchDates(rows0: seq<Row>, events: seq<EventInput>, accepts: Row -> bool)
    requires events != []
    ensures var norm := Normalized(events);
      var st := SaveSpec(rows0, events, true, accepts);
      && (forall r :: r in rows0 && r.date !in EventDates(norm) ==> r in st.rows)
      && (forall j :: 0 <= j < |st.rows| && st.rows[j].date in EventDates(norm) ==>
            st.rows[j] in NewRows(Prepared(norm), map[], accepts))
  {
    var norm := Normalized(events);
    var ups := Prepared(norm);
    var dates := EventDates(norm);
    var rows1 := if AnyDated(norm) then Reject(rows0, DateAmong(dates)) else rows0;
    var st := SaveSpec(rows0, events, true, accepts);
    UpsertFoldEmptyIndex(rows1, ups, accepts, true);
    assert st.rows == rows1 + NewRows(ups, map[], accepts);
    if !AnyDated(norm) {
      assert dates == {};
    }
    ClearKeepsOffDates(rows0, dates, AnyDated(norm));
  }

  // ---------------------------------------------------------------------------
  // Optional date bounds

  /** A `start_date`/`end_date` argument after its conversion: absent (None,
      or the empty string, which is false), a date, or text that does not
      parse as `%Y-%m-%d`, which makes the call return its empty result. */
  datatype Bound = NoBound | At(day: CalDate) | BadBound

  function ResolveBound(b: Option<DateValue>): (r: Bound)
    ensures r.BadBound? <==> b.Some? && b.value.Text? && b.value.s != [] && ParseIsoDate(b.value.s).None?
    ensures r.NoBound? <==> b.None? || b == Some(Text([]))
    ensures r.At? && b.value.Day? ==> r.day == b.value.d
    ensures r.At? && b.value.Text? ==> Some(r.day) == ParseIsoDate(b.value.s)
  {
    match b
    case None => NoBound
    case Some(Day(d)) => At(d)
    case Some(Text(s)) =>
      if s == [] then NoBound
      else match ParseIsoDate(s)
        case Some(d) => At(d)
        case None => BadBound
  }

  function BoundDay(b: Bound): Option<CalDate> {
    if b.At? then Some(b.day) else None
  }

  // ---------------------------------------------------------------------------
  // clear_market_calendar_events

  /** Deletes the rows whose date lies in the inclusive range given by the
      bounds that are present (all rows when neither is) and returns how
      many went; a malformed bound deletes nothing and returns 0. */
  method ClearMarketCalendarEvents(table: CalendarTable, startDate: Option<DateValue>, endDate: Option<DateValue>)
    returns (count: nat)
    modifies table
    ensures var lo, hi := ResolveBound(startDate), ResolveBound(endDate);
      if lo.BadBound? || hi.BadBound? then count == 0 && table.rows == old(table.rows)
      else
        && table.rows == Reject(old(table.rows), Within(BoundDay(lo), BoundDay(hi), []))
        && count == |old(table.rows)| - |table.rows|
  {
    var lo := ResolveBound(startDate);
    if lo.BadBound? {
      return 0;
    }
    var hi := ResolveBound(endDate);
    if hi.BadBound? {
      return 0;
    }
    count := DeleteWhere(table, Within(BoundDay(lo), BoundDay(hi), []));
  }

  /** With neither bound every row is deleted. */
  lemma {:induction false} ClearWithoutBoundsEmpties(rows: seq<Row>)
    ensures Reject(rows, Within(None, None, [])) == []
  {
    if rows != [] {
      ClearWithoutBoundsEmpties(rows[..|rows| - 1]);
    }
  }

  /** A range whose start is after its end deletes nothing. */
  lemma {:induction false} ClearInvertedRangeKeepsAll(rows: seq<Row>, lo: CalDate, hi: CalDate)
    requires Before(hi, lo)
    ensures Reject(rows, Within(Some(lo), Some(hi), [])) == rows
  {
    if rows != [] {
      var n := |rows| - 1;
      ClearInvertedRangeKeepsAll(rows[..n], lo, hi);
      InvertedRangeHoldsNoDate(lo, hi, rows[n].date);
      assert rows[..n + 1] == rows;
      PrefixStep(rows, n, Within(Some(lo), Some(hi), []));
    }
  }

  lemma InvertedRangeHoldsNoDate(lo: CalDate, hi: CalDate, d: CalDate)
    requires Before(hi, lo)
    ensures !(NotAfter(lo, d) && NotAfter(d, hi))
  {
  }

  // ---------------------------------------------------------------------------
  // get_market_calendar_events

  /** One returned dictionary: the row with its date rendered `YYYY-MM-DD`. */
  datatype EventView = EventView(date: string, time: string, event: string, currency: string,
                                 impact: string, forecast: string, previous: string)

  function View(r: Row): EventView {
    EventView(FormatIsoDate(r.date), r.time, r.event, r.currency, r.impact, r.forecast, r.previous)
  }

  /** A returned dictionary's date text parses back to the row's date. */
  lemma ViewDateParses(r: Row)
    ensures ParseIsoDate(View(r).date) == Some(r.date)
  {
    ParseFormatRoundTrip(r.date);
  }

  function Views(rows: seq<Row>): (vs: seq<EventView>)
    ensures |vs| == |rows|
  {
    seq(|rows|, i requires 0 <= i < |rows| => View(rows[i]))
  }

  lemma {:induction false} ViewsOfInsert(x: Row, s: seq<Row>)
    requires SortedByDateTime(s)
    ensures multiset(Views(InsertByDateTime(x, s))) == multiset(Views(s)) + multiset{View(x)}
  {
    var r := InsertByDateTime(x, s);
    ViewsCons(r);
    if s == [] || RowLe(x, s[0]) {
      assert r == [x] + s && r[1..] == s;
    } else {
      var rest := InsertByDateTime(x, s[1..]);
      assert r == [s[0]] + rest && r[1..] == rest;
      ViewsOfInsert(x, s[1..]);
      ViewsCons(s);
    }
  }

  /** The dictionaries of a non-empty list: the first row's, then the rest's. */
  lemma ViewsCons(s: seq<Row>)
    requires s != []
    ensures Views(s) == [View(s[0])] + Views(s[1..])
  {
    var lhs, rhs := Views(s), [View(s[0])] + Views(s[1..]);
    assert forall i :: 0 <= i < |s| ==> lhs[i] == rhs[i] by {
      forall i | 0 <= i < |s|
        ensures lhs[i] == rhs[i]
      {
        if 0 < i {
          assert s[1..][i - 1] == s[i];
        }
      }
    }
  }

  /** Sorting rearranges the returned dictionaries and loses or adds none. */
  lemma {:induction false} ViewsOfSort(s: seq<Row>)
    ensures multiset(Views(SortByDateTime(s))) == multiset(Views(s))
  {
    if s != [] {
      var sorted := SortByDateTime(s[1..]);
      assert SortByDateTime(s) == InsertByDateTime(s[0], sorted);
      ViewsOfSort(s[1..]);
      ViewsOfInsert(s[0], sorted);
      ViewsCons(s);
    }
  }

  /** Two returned dictionaries in order: by the date their text denotes,
      then by time text. */
  predicate ViewLe(a: EventView, b: EventView) {
    && ParseIsoDate(a.date).Some? && ParseIsoDate(b.date).Some?
    && RowLe(Row(ParseIsoDate(a.date).value, a.time, "", "", "", "", ""),
             Row(ParseIsoDate(b.date).value, b.time, "", "", "", "", ""))
  }

  /** The conversion loop: one dictionary per row, in row order. */
  method ToViews(rows: seq<Row>) returns (events: seq<EventView>)
    ensures events == Views(rows)
  {
    events := [];
    for i := 0 to |rows|
      invariant events == Views(rows[..i])
    {
      assert rows[..i + 1] == rows[..i] + [rows[i]];
      ViewsAppend(rows[..i], rows[i]);
      events := events + [View(rows[i])];
    }
    assert rows[..|rows|] == rows;
  }

  lemma ViewsAppend(s: seq<Row>, x: Row)
    ensures Views(s + [x]) == Views(s) + [View(x)]
  {
    var lhs, rhs := Views(s + [x]), Views(s) + [View(x)];
    assert forall i :: 0 <= i <= |s| ==> lhs[i] == rhs[i] by {
      forall i | 0 <= i <= |s|
        ensures lhs[i] == rhs[i]
      {
        if i < |s| {
          assert (s + [x])[i] == s[i];
        }
      }
    }
  }

  lemma ViewKeepsOrder(a: Row, b: Row)
    requires RowLe(a, b)
    ensures ViewLe(View(a), View(b))
  {
    ViewDateParses(a);
    ViewDateParses(b);
  }

  /** The query the arguments build: bounds that are present, and the
      currency list when it is given and non-empty. */
  function Query(lo: Bound, hi: Bound, currencies: Option<seq<string>>): Selector {
    Within(BoundDay(lo), BoundDay(hi), currencies.GetOr([]))
  }

  /** Returns exactly the rows the filters select — each once, as a
      dictionary whose date text parses back to the row's date — ordered by
      date and then time; a malformed bound returns the empty list. */
  method GetMarketCalendarEvents(table: CalendarTable, startDate: Option<DateValue>, endDate: Option<DateValue>,
                                 currencies: Option<seq<string>>) returns (events: seq<EventView>)
    ensures var lo, hi := ResolveBound(startDate), ResolveBound(endDate);
      if lo.BadBound? || hi.BadBound? then events == []
      else
        && multiset(events) == multiset(Views(Select(table.rows, Query(lo, hi, currencies))))
        && (forall i :: 0 <= i < |events| - 1 ==> ViewLe(events[i], events[i + 1]))
  {
    var lo := ResolveBound(startDate);
    if lo.BadBound? {
      return [];
    }
    var hi := ResolveBound(endDate);
    if hi.BadBound? {
      return [];
    }
    var found := Select(table.rows, Query(lo, hi, currencies));
    var rows := SortByDateTime(found);
    events := ToViews(rows);
    ViewsOfSort(found);
    forall i | 0 <= i < |events| - 1
      ensures ViewLe(events[i], events[i + 1])
    {
      ViewKeepsOrder(rows[i], rows[i + 1]);
    }
  }

  /** Every returned dictionary satisfies the filters: its date within the
      bounds that are present and its currency in a non-empty list. */
  lemma ReturnedEventsMatchFilters(rows: seq<Row>, lo: Bound, hi: Bound, currencies: Option<seq<string>>)
    ensures forall r :: r in Select(rows, Query(lo, hi, currencies)) ==>
      && (lo.At? ==> NotAfter(lo.day, r.date))
      && (hi.At? ==> NotAfter(r.date, hi.day))
      && (currencies.Some? && currencies.value != [] ==> r.currency in currencies.value)
  {
    SelectRejectPartition(rows, Query(lo, hi, currencies));
  }
}
