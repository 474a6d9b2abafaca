/**
 * `extract_daily_activity_metrics`: project the nested `studied.today_*`
 * counters of every day row to flat `daily_*` columns, null read as 0, with
 * `fetch_date` cast to a date-time, sorted by date.
 */
module DailyActivity {
  import opened Optional
  import opened Timestamps
  import opened Tables
  import opened Sorting

  datatype DailyRow = DailyRow(
    fetchDate: Timestamp,
    dailyAll: int, dailyGrammar: int, dailyVocab: int, dailyKanji: int, dailySent: int)

  /** `pl.col("studied").struct.field(name).fill_null(0)`. */
  function Counter(studied: map<string, Option<int>>, name: string): int {
    Field(studied, name).GetOr(0)
  }

  function DailyRowOf(row: DayRow): DailyRow {
    var st := row.record.studied;
    DailyRow(DateKey(row.fetchDate),
      Counter(st, "today_all"), Counter(st, "today_grammar"), Counter(st, "today_vocab"),
      Counter(st, "today_kanji"), Counter(st, "today_sent"))
  }

  function RowDate(r: DailyRow): Timestamp {
    r.fetchDate
  }

  /**
   * The view: empty for an empty table, otherwise the projected rows as a
   * permutation of the table's rows, ascending by date.
   */
  function ExtractDailyActivityMetrics(table: seq<DayRow>): (daily: seq<DailyRow>)
    ensures |daily| == |table|
    ensures multiset(daily) == multiset(seq(|table|, i requires 0 <= i < |table| => DailyRowOf(table[i])))
    ensures SortedBy(daily, RowDate)
  {
    if table == [] then []
    else
      var projected := seq(|table|, i requires 0 <= i < |table| => DailyRowOf(table[i]));
      SortByCorrect(projected, RowDate);
      SortBy(projected, RowDate)
  }

  /** A counter as the source reads it: its value when present, 0 when null or absent. */
  predicate ReadsAs(studied: map<string, Option<int>>, name: string, v: int) {
    && (name in studied && studied[name].Some? ==> v == studied[name].value)
    && (name !in studied || studied[name].None? ==> v == 0)
  }

  /** `d` is the daily row of day row `x`. */
  predicate Projects(d: DailyRow, x: DayRow) {
    var st := x.record.studied;
    && d.fetchDate == Timestamp(x.fetchDate, Midnight)
    && ReadsAs(st, "today_all", d.dailyAll)
    && ReadsAs(st, "today_grammar", d.dailyGrammar)
    && ReadsAs(st, "today_vocab", d.dailyVocab)
    && ReadsAs(st, "today_kanji", d.dailyKanji)
    && ReadsAs(st, "today_sent", d.dailySent)
  }

  /**
   * One output row per input row and no other: every daily row is the
   * projection of a day row, every day row is projected, and counters
   * default to 0.
   */
  lemma DailyRowsProjectTable(table: seq<DayRow>)
    ensures forall d :: d in ExtractDailyActivityMetrics(table) ==>
      exists x :: x in table && Projects(d, x)
    ensures forall x :: x in table ==>
      exists d :: d in ExtractDailyActivityMetrics(table) && Projects(d, x)
  {
    var daily := ExtractDailyActivityMetrics(table);
    var projected := seq(|table|, i requires 0 <= i < |table| => DailyRowOf(table[i]));
    MembersOfSameMultiset(daily, projected);
    MembersOfSameMultiset(projected, daily);
    forall d | d in daily ensures exists x :: x in table && Projects(d, x) {
      var i :| 0 <= i < |projected| && projected[i] == d;
      assert Projects(d, table[i]);
    }
    forall x | x in table ensures exists d :: d in daily && Projects(d, x) {
      var i :| 0 <= i < |table| && table[i] == x;
      assert projected[i] in projected;
      assert Projects(projected[i], x);
    }
  }

  /** On a table without repeated dates the view has exactly one row per date. */
  lemma DailyDatesDistinct(table: seq<DayRow>)
    requires DistinctDates(table)
    ensures KeysDistinct(ExtractDailyActivityMetrics(table), RowDate)
  {
    if table != [] {
      var projected := seq(|table|, i requires 0 <= i < |table| => DailyRowOf(table[i]));
      assert KeysDistinct(projected, RowDate) by {
        forall i, j | 0 <= i < j < |projected| ensures RowDate(projected[i]) != RowDate(projected[j]) {
          assert table[i].fetchDate != table[j].fetchDate;
        }
      }
      SortByKeysDistinct(projected, RowDate);
    }
  }
}
