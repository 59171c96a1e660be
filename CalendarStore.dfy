/** The `marketcalendar` table both server modules read and write, held in
    memory as a sequence of rows, with the pieces the two batch upserts and
    the queries share: the `date_time_event` key, the key-to-row dictionary
    built once per batch, query predicates, row deletion, ordering by
    (date, time), and one upsert step with its counters. */
module CalendarStore {

  import opened Wrappers
  import opened Text
  import opened Calendar
  import opened IsoDate

  /** One row of the table: the seven columns. */
  datatype Row = Row(date: CalDate, time: string, event: string, currency: string,
                     impact: string, forecast: string, previous: string)

  /** The table itself; `rows` is in the order a full `search()` returns them. */
  class CalendarTable {
    var rows: seq<Row>

    constructor ()
      ensures rows == []
    {
      rows := [];
    }
  }

  // ---------------------------------------------------------------------------
  // Keys and the key-to-row dictionary

  /** The duplicate-detection key `f"{date}_{time}_{event}"`: exact text, no
      case or whitespace normalisation. */
  function EventKey(date: string, time: string, event: string): string {
    date + "_" + time + "_" + event
  }

  /** The key of a stored row; its date is rendered `YYYY-MM-DD`. */
  function RowKey(r: Row): string {
    EventKey(FormatIsoDate(r.date), r.time, r.event)
  }

  /** The key does not tell the three fields apart: an underscore inside the
      time or the event name moves between them without changing the key. */
  lemma KeyIgnoresFieldBoundaries(date: string, time: string, middle: string, event: string)
    ensures EventKey(date, time + "_" + middle, event) == EventKey(date, time, middle + "_" + event)
  {
  }

  /** The dictionary a sequence of keys builds when each key in turn is
      assigned its position: every key maps to its LAST position. */
  function LastPositions(keys: seq<string>): (idx: map<string, nat>)
    ensures forall k :: k in idx ==> idx[k] < |keys| && keys[idx[k]] == k
    ensures forall j :: 0 <= j < |keys| ==> keys[j] in idx && j <= idx[keys[j]]
  {
    if keys == [] then map[]
    else
      var n := |keys| - 1;
      var prev := LastPositions(keys[..n]);
      assert forall j :: 0 <= j < n ==> keys[..n][j] == keys[j];
      prev[keys[n] := n]
  }

  /** The keys of the stored rows, in table order. */
  function RowKeys(rows: seq<Row>): (keys: seq<string>)
    ensures |keys| == |rows|
  {
    seq(|rows|, j requires 0 <= j < |rows| => RowKey(rows[j]))
  }

  /** The dictionary `existing_events` after `for row in search():
      existing_events[key] = row`: every stored key maps to the LAST row that
      carries it. */
  function KeyIndex(rows: seq<Row>): (idx: map<string, nat>)
    ensures forall k :: k in idx ==> idx[k] < |rows| && RowKey(rows[idx[k]]) == k
    ensures forall j :: 0 <= j < |rows| ==> RowKey(rows[j]) in idx && j <= idx[RowKey(rows[j])]
  {
    var keys := RowKeys(rows);
    assert forall j :: 0 <= j < |rows| ==> keys[j] == RowKey(rows[j]);
    LastPositions(keys)
  }

  /** The loop that builds `existing_events`. */
  method IndexByKey(rows: seq<Row>) returns (idx: map<string, nat>)
    ensures idx == KeyIndex(rows)
  {
    idx := map[];
    ghost var keys := RowKeys(rows);
    for i := 0 to |rows|
      invariant idx == LastPositions(keys[..i])
    {
      LastPositionsStep(keys, i);
      idx := idx[RowKey(rows[i]) := i];
    }
    assert keys[..|rows|] == keys;
  }

  lemma LastPositionsStep(keys: seq<string>, i: nat)
    requires i < |keys|
    ensures LastPositions(keys[..i + 1]) == LastPositions(keys[..i])[keys[i] := i]
  {
    assert keys[..i + 1][..i] == keys[..i];
  }

  // ---------------------------------------------------------------------------
  // Query predicates and deletion

  /** The query objects the server builds: `date=q.any_of(*dates)`, or an
      inclusive date range whose bounds may be absent combined with
      `currency` being one of a list (an empty list means any currency). */
  datatype Selector =
    | DateAmong(dates: set<CalDate>)
    | Within(from: Option<CalDate>, to: Option<CalDate>, currencies: seq<string>)

  predicate Selects(q: Selector, r: Row) {
    match q
    case DateAmong(dates) => r.date in dates
    case Within(from, to, currencies) =>
      && (from.None? || NotAfter(from.value, r.date))
      && (to.None? || NotAfter(r.date, to.value))
      && (currencies == [] || r.currency in currencies)
  }

  /** The rows `search(q)` finds, in table order. */
  function Select(rows: seq<Row>, q: Selector): (r: seq<Row>)
    ensures |r| <= |rows|
  {
    if rows == [] then []
    else Select(rows[..|rows| - 1], q) + (if Selects(q, rows[|rows| - 1]) then [rows[|rows| - 1]] else [])
  }

  /** The rows `search(q)` does not find, in table order. */
  function Reject(rows: seq<Row>, q: Selector): (r: seq<Row>)
    ensures |r| <= |rows|
  {
    if rows == [] then []
    else Reject(rows[..|rows| - 1], q) + (if Selects(q, rows[|rows| - 1]) then [] else [rows[|rows| - 1]])
  }

  /** Every row is found by a query or not found, once: the two parts
      partition the table, and each holds exactly the rows on its side. */
  lemma SelectRejectPartition(rows: seq<Row>, q: Selector)
    ensures |Select(rows, q)| + |Reject(rows, q)| == |rows|
    ensures multiset(Select(rows, q)) + multiset(Reject(rows, q)) == multiset(rows)
    ensures forall r :: r in Select(rows, q) <==> r in rows && Selects(q, r)
    ensures forall r :: r in Reject(rows, q) <==> r in rows && !Selects(q, r)
  {
    SelectRejectMultisets(rows, q);
    SelectMembers(rows, q);
    RejectMembers(rows, q);
  }

  lemma {:induction false} SelectRejectMultisets(rows: seq<Row>, q: Selector)
    ensures multiset(Select(rows, q)) + multiset(Reject(rows, q)) == multiset(rows)
  {
    if rows != [] {
      var n := |rows| - 1;
      var pre, x := rows[..n], rows[n];
      SelectRejectMultisets(pre, q);
      assert rows == pre + [x];
      assert multiset(rows) == multiset(pre) + multiset{x};
      if Selects(q, x) {
        assert multiset(Select(rows, q)) == multiset(Select(pre, q)) + multiset{x};
        assert Reject(rows, q) == Reject(pre, q);
      } else {
        assert Select(rows, q) == Select(pre, q);
        assert multiset(Reject(rows, q)) == multiset(Reject(pre, q)) + multiset{x};
      }
    }
  }

  lemma {:induction false} SelectMembers(rows: seq<Row>, q: Selector)
    ensures forall r :: r in Select(rows, q) <==> r in rows && Selects(q, r)
  {
    if rows != [] {
      var n := |rows| - 1;
      SelectMembers(rows[..n], q);
      assert rows == rows[..n] + [rows[n]];
    }
  }

  lemma {:induction false} RejectMembers(rows: seq<Row>, q: Selector)
    ensures forall r :: r in Reject(rows, q) <==> r in rows && !Selects(q, r)
  {
    if rows != [] {
      var n := |rows| - 1;
      RejectMembers(rows[..n], q);
      assert rows == rows[..n] + [rows[n]];
    }
  }

  lemma PrefixStep(rows: seq<Row>, i: nat, q: Selector)
    requires i < |rows|
    ensures Select(rows[..i + 1], q) == Select(rows[..i], q) + (if Selects(q, rows[i]) then [rows[i]] else [])
    ensures Reject(rows[..i + 1], q) == Reject(rows[..i], q) + (if Selects(q, rows[i]) then [] else [rows[i]])
  {
    assert rows[..i + 1][..i] == rows[..i];
  }

  /** One pass of the deletion loop: the row under the cursor is the next
      row of the original table, and removing or keeping it extends the
      processed prefix by one. */
  lemma DeleteStep(rows0: seq<Row>, i: nat, k: nat, cur: seq<Row>, q: Selector)
    requires i < |rows0| && k == |Reject(rows0[..i], q)|
    requires cur == Reject(rows0[..i], q) + rows0[i..]
    ensures k < |cur| && cur[k] == rows0[i]
    ensures Selects(q, rows0[i]) ==>
      && cur[..k] + cur[k + 1..] == Reject(rows0[..i + 1], q) + rows0[i + 1..]
      && k == |Reject(rows0[..i + 1], q)|
      && |Select(rows0[..i + 1], q)| == |Select(rows0[..i], q)| + 1
    ensures !Selects(q, rows0[i]) ==>
      && cur == Reject(rows0[..i + 1], q) + rows0[i + 1..]
      && k + 1 == |Reject(rows0[..i + 1], q)|
      && |Select(rows0[..i + 1], q)| == |Select(rows0[..i], q)|
  {
    PrefixStep(rows0, i, q);
    var kept := Reject(rows0[..i], q);
    assert cur[..k] == kept && cur[k..] == rows0[i..];
    assert rows0[i..] == [rows0[i]] + rows0[i + 1..];
    if Selects(q, rows0[i]) {
      assert cur[k + 1..] == rows0[i + 1..];
    } else {
      assert cur == (kept + [rows0[i]]) + rows0[i + 1..];
    }
  }

  /** `for row in search(q): row.delete(); count += 1`: the matching rows go,
      the others stay in their order, and the count is the number deleted. */
  method DeleteWhere(table: CalendarTable, q: Selector) returns (count: nat)
    modifies table
    ensures table.rows == Reject(old(table.rows), q)
    ensures count == |Select(old(table.rows), q)| == |old(table.rows)| - |table.rows|
  {
    var rows0 := table.rows;
    var i, k := 0, 0;
    count := 0;
    while i < |rows0|
      invariant 0 <= i <= |rows0|
      invariant k == |Reject(rows0[..i], q)|
      invariant table.rows == Reject(rows0[..i], q) + rows0[i..]
      invariant count == |Select(rows0[..i], q)| && count + k == i
    {
      DeleteStep(rows0, i, k, table.rows, q);
      if Selects(q, table.rows[k]) {
        table.rows := table.rows[..k] + table.rows[k + 1..];
        count := count + 1;
      } else {
        k := k + 1;
      }
      i := i + 1;
    }
    assert rows0[..|rows0|] == rows0;
  }

  // ---------------------------------------------------------------------------
  // Ordering by (date, time)

  /** `order_by("date", "time")`: by date, then by the time text compared as a string. */
  predicate RowLe(a: Row, b: Row) {
    Before(a.date, b.date) || (a.date == b.date && StrLe(a.time, b.time))
  }

  lemma RowLeTotal(a: Row, b: Row)
    ensures RowLe(a, b) || RowLe(b, a)
  {
    StrLeTotal(a.time, b.time);
  }

  predicate SortedByDateTime(s: seq<Row>) {
    forall i :: 0 <= i < |s| - 1 ==> RowLe(s[i], s[i + 1])
  }

  function InsertByDateTime(x: Row, s: seq<Row>): (r: seq<Row>)
    requires SortedByDateTime(s)
    ensures SortedByDateTime(r)
    ensures multiset(r) == multiset(s) + multiset{x}
    ensures |r| == |s| + 1 && (r[0] == x || (s != [] && r[0] == s[0]))
  {
    if s == [] || RowLe(x, s[0]) then [x] + s
    else
      RowLeTotal(x, s[0]);
      var rest := InsertByDateTime(x, s[1..]);
      assert s == [s[0]] + s[1..];
      [s[0]] + rest
  }

  /** The order in which the table hands back a query's rows. Rows with the
      same date and time may come in any order; this is one such order. */
  function SortByDateTime(s: seq<Row>): (r: seq<Row>)
    ensures SortedByDateTime(r)
    ensures multiset(r) == multiset(s)
  {
    if s == [] then []
    else
      assert s == [s[0]] + s[1..];
      InsertByDateTime(s[0], SortByDateTime(s[1..]))
  }

  // ---------------------------------------------------------------------------
  // One upsert step, shared by both batch saves

  datatype Counts = Counts(added: nat, updated: nat, skipped: nat)

  /** What a batch save does with one incoming event: its key, the three
      values that may change on a stored row, and the row `add_row` would
      write (None when writing it raises). */
  datatype Upsert = Upsert(key: string, impact: string, forecast: string, previous: string,
                           insert: Option<Row>)

  /** Some of impact, forecast, previous differs from the stored row. */
  predicate NeedsUpdate(r: Row, u: Upsert) {
    r.impact != u.impact || r.forecast != u.forecast || r.previous != u.previous
  }

  /** `existing_row['impact'] = ...` and so on: only the three values change. */
  function Refresh(r: Row, u: Upsert): (s: Row)
    ensures s.date == r.date && s.time == r.time && s.event == r.event && s.currency == r.currency
    ensures !NeedsUpdate(s, u)
  {
    r.(impact := u.impact, forecast := u.forecast, previous := u.previous)
  }

  datatype StoreState = StoreState(rows: seq<Row>, counts: Counts)

  /** Every dictionary entry points at a row of the table. */
  predicate IndexFits(idx: map<string, nat>, rows: seq<Row>) {
    forall k :: k in idx ==> idx[k] < |rows|
  }

  /** One pass of the batch loop. `None` is an event skipped before lookup.
      A key found in the dictionary updates that row when a value differs
      and is otherwise skipped; any other event is appended, and an append
      that raises is counted as skipped only when `countFailures` holds. */
  function UpsertStep(st: StoreState, idx: map<string, nat>, u: Option<Upsert>,
                      accepts: Row -> bool, countFailures: bool): (r: StoreState)
    requires IndexFits(idx, st.rows)
  {
    var c := st.counts;
    match u
    case None => StoreState(st.rows, c.(skipped := c.skipped + 1))
    case Some(up) =>
      if up.key in idx then
        var j := idx[up.key];
        if NeedsUpdate(st.rows[j], up) then
          StoreState(st.rows[j := Refresh(st.rows[j], up)], c.(updated := c.updated + 1))
        else StoreState(st.rows, c.(skipped := c.skipped + 1))
      else if up.insert.Some? && accepts(up.insert.value) then
        StoreState(st.rows + [up.insert.value], c.(added := c.added + 1))
      else if countFailures then StoreState(st.rows, c.(skipped := c.skipped + 1))
      else st
  }

  /** The batch loop over a prepared batch, from counters at zero. */
  function UpsertFold(rows: seq<Row>, idx: map<string, nat>, ups: seq<Option<Upsert>>,
                      accepts: Row -> bool, countFailures: bool): (r: StoreState)
    requires IndexFits(idx, rows)
    ensures |rows| <= |r.rows|
  {
    if ups == [] then StoreState(rows, Counts(0, 0, 0))
    else
      var prev := UpsertFold(rows, idx, ups[..|ups| - 1], accepts, countFailures);
      UpsertStep(prev, idx, ups[|ups| - 1], accepts, countFailures)
  }

  /** One iteration of the batch loop, on the table. */
  method UpsertOne(table: CalendarTable, idx: map<string, nat>, u: Option<Upsert>,
                   accepts: Row -> bool, countFailures: bool, c: Counts) returns (c': Counts)
    requires IndexFits(idx, table.rows)
    modifies table
    ensures StoreState(table.rows, c') == UpsertStep(StoreState(old(table.rows), c), idx, u, accepts, countFailures)
  {
    c' := c;
    if u.None? {
      c' := c.(skipped := c.skipped + 1);
    } else {
      var up := u.value;
      if up.key in idx {
        var j := idx[up.key];
        var existing := table.rows[j];
        if NeedsUpdate(existing, up) {
          table.rows := table.rows[j := Refresh(existing, up)];
          c' := c.(updated := c.updated + 1);
        } else {
          c' := c.(skipped := c.skipped + 1);
        }
      } else if up.insert.Some? && accepts(up.insert.value) {
        table.rows := table.rows + [up.insert.value];
        c' := c.(added := c.added + 1);
      } else if countFailures {
        c' := c.(skipped := c.skipped + 1);
      }
    }
  }

  /** The batch loop: one upsert step per prepared event, in batch order,
      against the dictionary built before the loop. */
  method UpsertAll(table: CalendarTable, idx: map<string, nat>, ups: seq<Option<Upsert>>,
                   accepts: Row -> bool, countFailures: bool) returns (c: Counts)
    requires IndexFits(idx, table.rows)
    modifies table
    ensures StoreState(table.rows, c) == UpsertFold(old(table.rows), idx, ups, accepts, countFailures)
  {
    ghost var rows0 := table.rows;
    c := Counts(0, 0, 0);
    for i := 0 to |ups|
      invariant |rows0| <= |table.rows|
      invariant StoreState(table.rows, c) == UpsertFold(rows0, idx, ups[..i], accepts, countFailures)
    {
      assert ups[..i + 1][..i] == ups[..i];
      c := UpsertOne(table, idx, ups[i], accepts, countFailures, c);
    }
    assert ups[..|ups|] == ups;
  }

  // ---------------------------------------------------------------------------
  // What a whole batch does, stated without the loop

  /** `u` is an event found in the dictionary at row `j`. */
  predicate Targets(u: Option<Upsert>, idx: map<string, nat>, j: int) {
    u.Some? && u.value.key in idx && idx[u.value.key] == j
  }

  /** `u` is an event not in the dictionary whose append succeeds. */
  predicate Appends(u: Option<Upsert>, idx: map<string, nat>, accepts: Row -> bool) {
    u.Some? && u.value.key !in idx && u.value.insert.Some? && accepts(u.value.insert.value)
  }

  /** `u` is an event not in the dictionary whose append raises. */
  predicate AppendFails(u: Option<Upsert>, idx: map<string, nat>, accepts: Row -> bool) {
    u.Some? && u.value.key !in idx && !(u.value.insert.Some? && accepts(u.value.insert.value))
  }

  /** The last event of the batch that is found at row `j`. */
  function LastFor(ups: seq<Option<Upsert>>, idx: map<string, nat>, j: int): (r: Option<Upsert>)
    ensures r.Some? ==> Targets(r, idx, j)
  {
    if ups == [] then None
    else if Targets(ups[|ups| - 1], idx, j) then ups[|ups| - 1]
    else LastFor(ups[..|ups| - 1], idx, j)
  }

  /** The rows the batch appends, in batch order: every appending event,
      however many share a key, since the dictionary is never refreshed. */
  function NewRows(ups: seq<Option<Upsert>>, idx: map<string, nat>, accepts: Row -> bool): seq<Row> {
    if ups == [] then []
    else
      var u := ups[|ups| - 1];
      NewRows(ups[..|ups| - 1], idx, accepts) + (if Appends(u, idx, accepts) then [u.value.insert.value] else [])
  }

  function FailedAppends(ups: seq<Option<Upsert>>, idx: map<string, nat>, accepts: Row -> bool): nat {
    if ups == [] then 0
    else FailedAppends(ups[..|ups| - 1], idx, accepts) + (if AppendFails(ups[|ups| - 1], idx, accepts) then 1 else 0)
  }

  function Refreshed(r: Row, u: Option<Upsert>): Row {
    if u.Some? then Refresh(r, u.value) else r
  }

  /** The stored rows after a batch: each carries the values of the last
      event found at it, or is untouched. */
  function Refreshes(rows: seq<Row>, idx: map<string, nat>, ups: seq<Option<Upsert>>): (r: seq<Row>)
    ensures |r| == |rows|
    ensures forall j :: 0 <= j < |rows| ==> r[j] == Refreshed(rows[j], LastFor(ups, idx, j))
  {
    seq(|rows|, j requires 0 <= j < |rows| => Refreshed(rows[j], LastFor(ups, idx, j)))
  }

  /** A batch changes no stored row's date, time, event or currency. */
  lemma RefreshesKeepIdentity(rows: seq<Row>, idx: map<string, nat>, ups: seq<Option<Upsert>>)
    ensures forall j :: 0 <= j < |rows| ==>
      var r, s := rows[j], Refreshes(rows, idx, ups)[j];
      s.date == r.date && s.time == r.time && s.event == r.event && s.currency == r.currency
  {
  }

  /** The table after a batch, independently of the loop: each existing row
      carries the values of the last event that found it (or is untouched),
      and the appended rows follow in batch order; `added` counts them. */
  lemma {:induction false} UpsertFoldReference(rows: seq<Row>, idx: map<string, nat>, ups: seq<Option<Upsert>>,
                                               accepts: Row -> bool, countFailures: bool)
    requires IndexFits(idx, rows)
    ensures var st := UpsertFold(rows, idx, ups, accepts, countFailures);
      && st.rows == Refreshes(rows, idx, ups) + NewRows(ups, idx, accepts)
      && st.counts.added == |NewRows(ups, idx, accepts)|
  {
    if ups == [] {
      assert Refreshes(rows, idx, ups) == rows;
    } else {
      UpsertFoldReference(rows, idx, ups[..|ups| - 1], accepts, countFailures);
      ReferenceStep(rows, idx, ups, accepts, countFailures);
    }
  }

  /** One event of the batch keeps the reference description true. */
  lemma ReferenceStep(rows: seq<Row>, idx: map<string, nat>, ups: seq<Option<Upsert>>,
                      accepts: Row -> bool, countFailures: bool)
    requires IndexFits(idx, rows) && ups != []
    requires var st := UpsertFold(rows, idx, ups[..|ups| - 1], accepts, countFailures);
      && st.rows == Refreshes(rows, idx, ups[..|ups| - 1]) + NewRows(ups[..|ups| - 1], idx, accepts)
      && st.counts.added == |NewRows(ups[..|ups| - 1], idx, accepts)|
    ensures var st := UpsertFold(rows, idx, ups, accepts, countFailures);
      && st.rows == Refreshes(rows, idx, ups) + NewRows(ups, idx, accepts)
      && st.counts.added == |NewRows(ups, idx, accepts)|
  {
    var u := ups[|ups| - 1];
    if u.Some? && u.value.key in idx {
      ReferenceStepFound(rows, idx, ups, accepts, countFailures);
    } else {
      ReferenceStepMissed(rows, idx, ups, accepts, countFailures);
    }
  }

  lemma ReferenceStepFound(rows: seq<Row>, idx: map<string, nat>, ups: seq<Option<Upsert>>,
                      accepts: Row -> bool, countFailures: bool)
    requires IndexFits(idx, rows) && ups != []
    requires var st := UpsertFold(rows, idx, ups[..|ups| - 1], accepts, countFailures);
      && st.rows == Refreshes(rows, idx, ups[..|ups| - 1]) + NewRows(ups[..|ups| - 1], idx, accepts)
      && st.counts.added == |NewRows(ups[..|ups| - 1], idx, accepts)|
    requires ups[|ups| - 1].Some? && ups[|ups| - 1].value.key in idx
    ensures var st := UpsertFold(rows, idx, ups, accepts, countFailures);
      && st.rows == Refreshes(rows, idx, ups) + NewRows(ups, idx, accepts)
      && st.counts.added == |NewRows(ups, idx, accepts)|
  {
    var n := |ups| - 1;
    var pre, u := ups[..n], ups[n].value;
    var before := UpsertFold(rows, idx, pre, accepts, countFailures);
    var after := UpsertFold(rows, idx, ups, accepts, countFailures);
    assert after == UpsertStep(before, idx, ups[n], accepts, countFailures);
    var was, added := Refreshes(rows, idx, pre), NewRows(pre, idx, accepts);
    var j0 := idx[u.key];
    var renewed := Refresh(rows[j0], u);
    RefreshesFound(rows, idx, ups);
    RefreshOverrides(rows[j0], LastFor(pre, idx, j0), u);
    assert before.rows[j0] == was[j0];
    if !NeedsUpdate(before.rows[j0], u) {
      UpdateWithSame(before.rows, j0);
    }
    assert after.rows == before.rows[j0 := renewed];
    assert NewRows(ups, idx, accepts) == added;
    UpdateInPrefix(was, added, j0, renewed);
  }

  /** Refreshing a row overrides any earlier refresh of it. */
  lemma RefreshOverrides(r: Row, earlier: Option<Upsert>, u: Upsert)
    ensures Refresh(Refreshed(r, earlier), u) == Refresh(r, u)
  {
  }

  /** Writing back the value already there changes nothing. */
  lemma UpdateWithSame(s: seq<Row>, j: nat)
    requires j < |s|
    ensures s[j := s[j]] == s
  {
  }

  lemma UpdateInPrefix(a: seq<Row>, b: seq<Row>, j: nat, x: Row)
    requires j < |a|
    ensures (a + b)[j := x] == a[j := x] + b
  {
  }

  lemma ReferenceStepMissed(rows: seq<Row>, idx: map<string, nat>, ups: seq<Option<Upsert>>,
                      accepts: Row -> bool, countFailures: bool)
    requires IndexFits(idx, rows) && ups != []
    requires var st := UpsertFold(rows, idx, ups[..|ups| - 1], accepts, countFailures);
      && st.rows == Refreshes(rows, idx, ups[..|ups| - 1]) + NewRows(ups[..|ups| - 1], idx, accepts)
      && st.counts.added == |NewRows(ups[..|ups| - 1], idx, accepts)|
    requires !(ups[|ups| - 1].Some? && ups[|ups| - 1].value.key in idx)
    ensures var st := UpsertFold(rows, idx, ups, accepts, countFailures);
      && st.rows == Refreshes(rows, idx, ups) + NewRows(ups, idx, accepts)
      && st.counts.added == |NewRows(ups, idx, accepts)|
  {
    var n := |ups| - 1;
    var pre, u := ups[..n], ups[n];
    var before := UpsertFold(rows, idx, pre, accepts, countFailures);
    var after := UpsertFold(rows, idx, ups, accepts, countFailures);
    assert after == UpsertStep(before, idx, u, accepts, countFailures);
    var was, added := Refreshes(rows, idx, pre), NewRows(pre, idx, accepts);
    RefreshesMissed(rows, idx, ups);
    if Appends(u, idx, accepts) {
      var x := u.value.insert.value;
      assert NewRows(ups, idx, accepts) == added + [x];
      assert after.rows == (was + added) + [x];
    } else {
      assert NewRows(ups, idx, accepts) == added;
      assert after.rows == before.rows;
    }
  }

  /** An event found at row `j0` makes that row carry its values. */
  lemma RefreshesFound(rows: seq<Row>, idx: map<string, nat>, ups: seq<Option<Upsert>>)
    requires IndexFits(idx, rows) && ups != []
    requires ups[|ups| - 1].Some? && ups[|ups| - 1].value.key in idx
    ensures var u := ups[|ups| - 1].value;
      Refreshes(rows, idx, ups)
        == Refreshes(rows, idx, ups[..|ups| - 1])[idx[u.key] := Refresh(rows[idx[u.key]], u)]
  {
    var n := |ups| - 1;
    var u := ups[n];
    var j0 := idx[u.value.key];
    var was, now := Refreshes(rows, idx, ups[..n]), Refreshes(rows, idx, ups);
    forall j | 0 <= j < |rows|
      ensures now[j] == was[j0 := Refresh(rows[j0], u.value)][j]
    {
      LastForLast(ups, idx, j);
      if j == j0 {
        assert Targets(u, idx, j);
      }
    }
  }

  /** An event found at no row leaves every stored row as it was. */
  lemma RefreshesMissed(rows: seq<Row>, idx: map<string, nat>, ups: seq<Option<Upsert>>)
    requires ups != []
    requires !(ups[|ups| - 1].Some? && ups[|ups| - 1].value.key in idx)
    ensures Refreshes(rows, idx, ups) == Refreshes(rows, idx, ups[..|ups| - 1])
  {
    var n := |ups| - 1;
    var was, now := Refreshes(rows, idx, ups[..n]), Refreshes(rows, idx, ups);
    forall j | 0 <= j < |rows|
      ensures now[j] == was[j]
    {
      LastForLast(ups, idx, j);
    }
  }

  lemma LastForLast(ups: seq<Option<Upsert>>, idx: map<string, nat>, j: int)
    requires ups != []
    ensures LastFor(ups, idx, j)
         == if Targets(ups[|ups| - 1], idx, j) then ups[|ups| - 1] else LastFor(ups[..|ups| - 1], idx, j)
  {
  }

  /** With an empty dictionary (clear mode) no stored row is touched and
      every appending event adds its row. */
  lemma {:induction false} UpsertFoldEmptyIndex(rows: seq<Row>, ups: seq<Option<Upsert>>,
                                                accepts: Row -> bool, countFailures: bool)
    ensures UpsertFold(rows, map[], ups, accepts, countFailures).rows == rows + NewRows(ups, map[], accepts)
  {
    if ups != [] {
      UpsertFoldEmptyIndex(rows, ups[..|ups| - 1], accepts, countFailures);
    }
  }

  lemma UpsertFoldSingle(rows: seq<Row>, idx: map<string, nat>, u: Option<Upsert>,
                         accepts: Row -> bool, countFailures: bool)
    requires IndexFits(idx, rows)
    ensures UpsertFold(rows, idx, [u], accepts, countFailures)
         == UpsertStep(StoreState(rows, Counts(0, 0, 0)), idx, u, accepts, countFailures)
  {
    assert [u][..0] == [];
  }

  /** Changing one row's non-key columns leaves the key dictionary as it was. */
  lemma KeyIndexIgnoresValues(rows: seq<Row>, j: nat, x: Row)
    requires j < |rows| && RowKey(x) == RowKey(rows[j])
    ensures KeyIndex(rows[j := x]) == KeyIndex(rows)
  {
    assert RowKeys(rows[j := x]) == RowKeys(rows);
  }

  /** After an upsert whose key is the key of the row it would append, and
      whose append succeeds, the dictionary of the new table finds a row
      that already carries the upsert's values. */
  lemma UpsertFindsItsRow(rows: seq<Row>, u: Upsert, accepts: Row -> bool, countFailures: bool)
    requires u.insert.Some? && accepts(u.insert.value) && u.key == RowKey(u.insert.value)
    requires u.impact == u.insert.value.impact && u.forecast == u.insert.value.forecast
    requires u.previous == u.insert.value.previous
    ensures var rows1 := UpsertStep(StoreState(rows, Counts(0, 0, 0)), KeyIndex(rows), Some(u), accepts, countFailures).rows;
      u.key in KeyIndex(rows1) && !NeedsUpdate(rows1[KeyIndex(rows1)[u.key]], u)
  {
    var idx0 := KeyIndex(rows);
    var rows1 := UpsertStep(StoreState(rows, Counts(0, 0, 0)), idx0, Some(u), accepts, countFailures).rows;
    if u.key in idx0 {
      var j := idx0[u.key];
      var x := if NeedsUpdate(rows[j], u) then Refresh(rows[j], u) else rows[j];
      assert rows1 == rows[j := x];
      StoredKeyStaysFound(rows, j, x, u);
    } else {
      assert rows1 == rows + [u.insert.value];
      AppendedKeyFound(rows, u.insert.value);
    }
  }

  lemma StoredKeyStaysFound(rows: seq<Row>, j: nat, x: Row, u: Upsert)
    requires u.key in KeyIndex(rows) && j == KeyIndex(rows)[u.key]
    requires RowKey(x) == RowKey(rows[j]) && !NeedsUpdate(x, u)
    ensures u.key in KeyIndex(rows[j := x]) && !NeedsUpdate(rows[j := x][KeyIndex(rows[j := x])[u.key]], u)
  {
    KeyIndexIgnoresValues(rows, j, x);
  }

  /** The last row of a table is the one its key maps to. */
  lemma AppendedKeyFound(rows: seq<Row>, x: Row)
    ensures RowKey(x) in KeyIndex(rows + [x]) && KeyIndex(rows + [x])[RowKey(x)] == |rows|
  {
    var all := rows + [x];
    assert all[|rows|] == x;
  }

  /** Each event of a batch moves exactly one counter, except an append that
      raises when such failures are not counted. */
  lemma {:induction false} UpsertFoldCounts(rows: seq<Row>, idx: map<string, nat>, ups: seq<Option<Upsert>>,
                                            accepts: Row -> bool, countFailures: bool)
    requires IndexFits(idx, rows)
    ensures var c := UpsertFold(rows, idx, ups, accepts, countFailures).counts;
      c.added + c.updated + c.skipped
        == |ups| - (if countFailures then 0 else FailedAppends(ups, idx, accepts))
  {
    if ups != [] {
      UpsertFoldCounts(rows, idx, ups[..|ups| - 1], accepts, countFailures);
    }
  }

  /** Event `u` rewrites the stored row it finds, given the events before
      it: that row, as the earlier events left it, differs in impact,
      forecast or previous. */
  predicate Updates(rows: seq<Row>, idx: map<string, nat>, earlier: seq<Option<Upsert>>, u: Option<Upsert>)
    requires IndexFits(idx, rows)
  {
    && u.Some? && u.value.key in idx
    && NeedsUpdate(Refreshed(rows[idx[u.value.key]], LastFor(earlier, idx, idx[u.value.key])), u.value)
  }

  /** How many events of the batch rewrite the row they find. */
  function UpdateCount(rows: seq<Row>, idx: map<string, nat>, ups: seq<Option<Upsert>>): nat
    requires IndexFits(idx, rows)
  {
    if ups == [] then 0
    else
      var n := |ups| - 1;
      UpdateCount(rows, idx, ups[..n]) + (if Updates(rows, idx, ups[..n], ups[n]) then 1 else 0)
  }

  /** `updated` counts exactly the events that find a stored row whose
      impact, forecast or previous differs from theirs; every other found
      event is a skip. */
  lemma {:induction false} UpsertFoldUpdates(rows: seq<Row>, idx: map<string, nat>, ups: seq<Option<Upsert>>,
                                             accepts: Row -> bool, countFailures: bool)
    requires IndexFits(idx, rows)
    ensures UpsertFold(rows, idx, ups, accepts, countFailures).counts.updated == UpdateCount(rows, idx, ups)
  {
    if ups != [] {
      var n := |ups| - 1;
      var pre := ups[..n];
      UpsertFoldUpdates(rows, idx, pre, accepts, countFailures);
      UpsertFoldReference(rows, idx, pre, accepts, countFailures);
      var prev := UpsertFold(rows, idx, pre, accepts, countFailures);
      if ups[n].Some? && ups[n].value.key in idx {
        var j := idx[ups[n].value.key];
        assert prev.rows[j] == Refreshes(rows, idx, pre)[j];
      }
    }
  }

  /** A single event whose key is stored with other values rewrites that
      row's impact, forecast and previous and counts one update. */
  lemma StoredEventRefreshed(rows: seq<Row>, u: Upsert, accepts: Row -> bool, countFailures: bool)
    requires u.key in KeyIndex(rows) && NeedsUpdate(rows[KeyIndex(rows)[u.key]], u)
    ensures var j := KeyIndex(rows)[u.key];
      UpsertFold(rows, KeyIndex(rows), [Some(u)], accepts, countFailures)
        == StoreState(rows[j := Refresh(rows[j], u)], Counts(0, 1, 0))
  {
    UpsertFoldSingle(rows, KeyIndex(rows), Some(u), accepts, countFailures);
  }
}
