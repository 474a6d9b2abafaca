/**
 * `load_and_deduplicate_logs`: parse every record's `fetch_timestamp`,
 * derive `fetch_date`, sort by the full timestamp and keep the last row of
 * every date. Any failure -- a missing or unreadable file, a timestamp that
 * does not parse -- makes the whole result empty.
 */
module Deduplication {
  import opened Optional
  import opened Timestamps
  import opened Tables
  import opened Sorting

  predicate AllParse(log: seq<LogRecord>) {
    forall k :: 0 <= k < |log| ==> Parse(log[k].fetchTimestamp).Some?
  }

  function ParsedTimestamp(rec: LogRecord): Timestamp
    requires Parse(rec.fetchTimestamp).Some?
  {
    Parse(rec.fetchTimestamp).value
  }

  /** The row a record becomes: its columns, `full_timestamp` and `fetch_date`. */
  function RowOf(rec: LogRecord): DayRow
    requires Parse(rec.fetchTimestamp).Some?
  {
    var ts := ParsedTimestamp(rec);
    DayRow(rec, ts, ts.date)
  }

  /** The two `with_columns` steps; a strict `strptime` fails the whole column. */
  function WithTimestamps(log: seq<LogRecord>): Option<seq<DayRow>> {
    if AllParse(log) then Some(seq(|log|, k requires 0 <= k < |log| && AllParse(log) => RowOf(log[k])))
    else None
  }

  function FullTimestamp(r: DayRow): Timestamp {
    r.fullTimestamp
  }

  /** `unique(subset=["fetch_date"], keep="last")`: a row survives when no later row has its date. */
  function KeepLast(s: seq<DayRow>): seq<DayRow> {
    if s == [] then []
    else if s[0].fetchDate in DateSet(s[1..]) then KeepLast(s[1..])
    else [s[0]] + KeepLast(s[1..])
  }

  /**
   * The loader. `log` is the file's content read as a sequence of records,
   * or None when the file does not exist or a line is not valid JSON.
   */
  function LoadAndDeduplicateLogs(log: Option<seq<LogRecord>>): seq<DayRow> {
    if log.None? then []
    else match WithTimestamps(log.value)
      case None => []
      case Some(rows) => KeepLast(SortBy(rows, FullTimestamp))
  }

  // ---------------------------------------------------------------------------
  // KeepLast

  predicate LastOfItsDate(s: seq<DayRow>, i: int)
    requires 0 <= i < |s|
  {
    forall j :: i < j < |s| ==> s[j].fetchDate != s[i].fetchDate
  }

  lemma {:induction false} KeepLastDates(s: seq<DayRow>)
    ensures DateSet(KeepLast(s)) == DateSet(s)
  {
    if s != [] {
      KeepLastDates(s[1..]);
      assert s == [s[0]] + s[1..];
      assert DateSet(s) == {s[0].fetchDate} + DateSet(s[1..]);
      if s[0].fetchDate !in DateSet(s[1..]) {
        var k := KeepLast(s[1..]);
        assert DateSet([s[0]] + k) == {s[0].fetchDate} + DateSet(k);
      }
    }
  }

  lemma {:induction false} KeepLastDistinct(s: seq<DayRow>)
    ensures DistinctDates(KeepLast(s))
  {
    if s != [] {
      KeepLastDistinct(s[1..]);
      if s[0].fetchDate !in DateSet(s[1..]) {
        var k := KeepLast(s[1..]);
        KeepLastDates(s[1..]);
        var r := [s[0]] + k;
        forall i, j | 0 <= i < j < |r| ensures r[i].fetchDate != r[j].fetchDate {
          assert r[j] == k[j - 1];
          if i == 0 {
            assert k[j - 1] in k;
          } else {
            assert r[i] == k[i - 1];
          }
        }
      }
    }
  }

  /** Every surviving row is a row of the input with no later row on its date. */
  lemma {:induction false} KeepLastKeepsLast(s: seq<DayRow>)
    ensures forall r :: r in KeepLast(s) ==>
      exists i :: 0 <= i < |s| && s[i] == r && LastOfItsDate(s, i)
  {
    if s != [] {
      KeepLastKeepsLast(s[1..]);
      forall r | r in KeepLast(s)
        ensures exists i :: 0 <= i < |s| && s[i] == r && LastOfItsDate(s, i)
      {
        if s[0].fetchDate !in DateSet(s[1..]) && r == s[0] {
          assert LastOfItsDate(s, 0) by {
            forall j | 0 < j < |s| ensures s[j].fetchDate != s[0].fetchDate {
              assert s[j] == s[1..][j - 1];
            }
          }
        } else {
          assert r in KeepLast(s[1..]);
          var i :| 0 <= i < |s[1..]| && s[1..][i] == r && LastOfItsDate(s[1..], i);
          assert s[i + 1] == r;
          assert LastOfItsDate(s, i + 1) by {
            forall j | i + 1 < j < |s| ensures s[j].fetchDate != s[i + 1].fetchDate {
              assert s[j] == s[1..][j - 1];
            }
          }
        }
      }
    }
  }

  /** On rows that all share one date, only the last survives. */
  lemma {:induction false} KeepLastOneDate(s: seq<DayRow>, d: Date)
    requires s != []
    requires forall i :: 0 <= i < |s| ==> s[i].fetchDate == d
    ensures KeepLast(s) == [s[|s| - 1]]
  {
    if |s| > 1 {
      assert s[1..][0].fetchDate == d;
      KeepLastOneDate(s[1..], d);
    }
  }

  // ---------------------------------------------------------------------------
  // The loader's guarantees

  lemma WithTimestampsRows(log: seq<LogRecord>)
    requires AllParse(log)
    ensures WithTimestamps(log).Some?
    ensures var rows := WithTimestamps(log).value;
      && |rows| == |log|
      && (forall k :: 0 <= k < |log| ==> rows[k] == RowOf(log[k]))
      && (forall r :: r in rows ==> r.fetchDate == r.fullTimestamp.date)
  {
  }

  /** Failure is all or nothing: the result is empty exactly when the input is absent, empty or has a timestamp that does not parse. */
  lemma {:induction false} LoadFailsWhole(log: Option<seq<LogRecord>>)
    ensures log.None? ==> LoadAndDeduplicateLogs(log) == []
    ensures log.Some? && !AllParse(log.value) ==> LoadAndDeduplicateLogs(log) == []
    ensures LoadAndDeduplicateLogs(log) != [] <==> log.Some? && log.value != [] && AllParse(log.value)
  {
    if log.Some? && AllParse(log.value) {
      var rows := WithTimestamps(log.value).value;
      var sorted := SortBy(rows, FullTimestamp);
      SortByCorrect(rows, FullTimestamp);
      KeepLastDates(sorted);
      if log.value != [] {
        assert rows[0] in sorted;
        assert rows[0].fetchDate in DateSet(sorted);
      }
    }
  }

  /** No two rows of the loaded table share a date. */
  lemma LoadDatesDistinct(log: Option<seq<LogRecord>>)
    ensures DistinctDates(LoadAndDeduplicateLogs(log))
  {
    if log.Some? && AllParse(log.value) {
      KeepLastDistinct(SortBy(WithTimestamps(log.value).value, FullTimestamp));
    }
  }

  /** Deduplication of already parsed rows, the loader's last two steps. */
  function Dedup(rows: seq<DayRow>): seq<DayRow> {
    KeepLast(SortBy(rows, FullTimestamp))
  }

  lemma DedupKeepsDates(rows: seq<DayRow>)
    ensures DateSet(Dedup(rows)) == DateSet(rows)
  {
    var sorted := SortBy(rows, FullTimestamp);
    SortByCorrect(rows, FullTimestamp);
    KeepLastDates(sorted);
    forall d | d in DateSet(sorted) ensures d in DateSet(rows) {
      var r :| r in sorted && r.fetchDate == d;
    }
    forall d | d in DateSet(rows) ensures d in DateSet(sorted) {
      var r :| r in rows && r.fetchDate == d;
    }
  }

  lemma LatestOfItsDate(sorted: seq<DayRow>, i: nat, x: DayRow)
    requires i < |sorted| && LastOfItsDate(sorted, i)
    requires SortedBy(sorted, FullTimestamp)
    requires x in sorted && x.fetchDate == sorted[i].fetchDate
    ensures NotAfter(x.fullTimestamp, sorted[i].fullTimestamp)
  {
    var j :| 0 <= j < |sorted| && sorted[j] == x;
    if j < i {
      assert NotAfter(FullTimestamp(sorted[j]), FullTimestamp(sorted[i]));
    }
  }

  lemma DedupKeepsLatest(rows: seq<DayRow>)
    ensures forall r :: r in Dedup(rows) ==>
      && r in rows
      && (forall x :: x in rows && x.fetchDate == r.fetchDate ==> NotAfter(x.fullTimestamp, r.fullTimestamp))
  {
    var sorted := SortBy(rows, FullTimestamp);
    SortByCorrect(rows, FullTimestamp);
    KeepLastKeepsLast(sorted);
    forall r | r in Dedup(rows)
      ensures r in rows
      ensures forall x :: x in rows && x.fetchDate == r.fetchDate ==> NotAfter(x.fullTimestamp, r.fullTimestamp)
    {
      var i :| 0 <= i < |sorted| && sorted[i] == r && LastOfItsDate(sorted, i);
      forall x | x in rows && x.fetchDate == r.fetchDate
        ensures NotAfter(x.fullTimestamp, r.fullTimestamp)
      {
        LatestOfItsDate(sorted, i, x);
      }
    }
  }

  /** The loaded dates are exactly the dates of the log's records: none lost, none invented. */
  lemma LoadKeepsEveryDate(log: seq<LogRecord>)
    requires AllParse(log)
    ensures DateSet(LoadAndDeduplicateLogs(Some(log)))
         == set k | 0 <= k < |log| :: ParsedTimestamp(log[k]).date
  {
    var rows := WithTimestamps(log).value;
    WithTimestampsRows(log);
    DedupKeepsDates(rows);
    var want := set k | 0 <= k < |log| :: ParsedTimestamp(log[k]).date;
    forall d | d in DateSet(rows) ensures d in want {
      var r :| r in rows && r.fetchDate == d;
      var k :| 0 <= k < |rows| && rows[k] == r;
    }
    forall d | d in want ensures d in DateSet(rows) {
      var k :| 0 <= k < |log| && ParsedTimestamp(log[k]).date == d;
      assert rows[k] in rows;
    }
  }

  /**
   * Last fetch of the day wins: every loaded row is one of the log's
   * records, and no record of the same date has a later timestamp.
   */
  lemma LoadLastFetchWins(log: seq<LogRecord>)
    requires AllParse(log)
    ensures forall r :: r in LoadAndDeduplicateLogs(Some(log)) ==>
      && (exists k :: 0 <= k < |log| && r == RowOf(log[k]))
      && (forall k :: 0 <= k < |log| && ParsedTimestamp(log[k]).date == r.fetchDate ==>
            NotAfter(ParsedTimestamp(log[k]), r.fullTimestamp))
  {
    var rows := WithTimestamps(log).value;
    WithTimestampsRows(log);
    DedupKeepsLatest(rows);
    forall r | r in Dedup(rows)
      ensures exists k :: 0 <= k < |log| && r == RowOf(log[k])
      ensures forall k :: 0 <= k < |log| && ParsedTimestamp(log[k]).date == r.fetchDate ==>
            NotAfter(ParsedTimestamp(log[k]), r.fullTimestamp)
    {
      var i :| 0 <= i < |rows| && rows[i] == r;
      forall k | 0 <= k < |log| && ParsedTimestamp(log[k]).date == r.fetchDate
        ensures NotAfter(ParsedTimestamp(log[k]), r.fullTimestamp)
      {
        assert rows[k] in rows;
      }
    }
  }

  lemma DedupOneDay(rows: seq<DayRow>, m: nat)
    requires m < |rows|
    requires forall k :: 0 <= k < |rows| ==> rows[k].fetchDate == rows[m].fetchDate
    requires forall k :: 0 <= k < |rows| && k != m ==> Before(rows[k].fullTimestamp, rows[m].fullTimestamp)
    ensures Dedup(rows) == [rows[m]]
  {
    var sorted := SortBy(rows, FullTimestamp);
    SortByCorrect(rows, FullTimestamp);
    forall i | 0 <= i < |sorted| ensures sorted[i].fetchDate == rows[m].fetchDate {
      assert sorted[i] in rows;
    }
    KeepLastOneDate(sorted, rows[m].fetchDate);
    var r := sorted[|sorted| - 1];
    DedupKeepsLatest(rows);
    assert r in Dedup(rows);
    assert rows[m] in rows;
    assert NotAfter(rows[m].fullTimestamp, r.fullTimestamp);
    var k :| 0 <= k < |rows| && rows[k] == r;
    if k != m {
      OrderFacts(r.fullTimestamp, rows[m].fullTimestamp, r.fullTimestamp);
    }
  }

  /**
   * Deduplication idempotence: a log whose records all fall on one day loads
   * exactly as the log holding only its chronologically last record.
   */
  lemma SameDayKeepsOnlyLast(log: seq<LogRecord>, m: nat)
    requires AllParse(log) && m < |log|
    requires forall k :: 0 <= k < |log| ==> ParsedTimestamp(log[k]).date == ParsedTimestamp(log[m]).date
    requires forall k :: 0 <= k < |log| && k != m ==> Before(ParsedTimestamp(log[k]), ParsedTimestamp(log[m]))
    ensures LoadAndDeduplicateLogs(Some(log)) == LoadAndDeduplicateLogs(Some([log[m]]))
    ensures LoadAndDeduplicateLogs(Some([log[m]])) == [RowOf(log[m])]
  {
    var rows := WithTimestamps(log).value;
    WithTimestampsRows(log);
    DedupOneDay(rows, m);
    var one := WithTimestamps([log[m]]).value;
    WithTimestampsRows([log[m]]);
    DedupOneDay(one, 0);
  }
}
