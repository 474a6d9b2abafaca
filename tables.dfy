/**
 * The shapes of the data the processor works on: one log record per line of
 * the JSON Lines log, and one row of the deduplicated day table.
 */
module Tables {
  import opened Optional
  import opened Timestamps

  /**
   * One profile snapshot as read from the log. JSON null and an absent key
   * both read as `None` (Polars gives an absent struct field the value null).
   *  - studied: the `studied` object, counter name to value;
   *  - levelProgressPercs: category to (JLPT level to percentage); a
   *    category that is absent or null has no entry.
   */
  datatype LogRecord = LogRecord(
    fetchTimestamp: string,
    studied: map<string, Option<int>>,
    levelProgressPercs: map<string, map<string, Option<int>>>)

  /**
   * A row of the loaded table: every column of the record, plus the
   * parsed `full_timestamp` and the derived `fetch_date`.
   */
  datatype DayRow = DayRow(record: LogRecord, fullTimestamp: Timestamp, fetchDate: Date)

  /** A JSON value that may be absent or null, read as Polars reads it. */
  function Field<K>(m: map<K, Option<int>>, k: K): Option<int> {
    if k in m then m[k] else None
  }

  function DateSet(table: seq<DayRow>): set<Date> {
    set r | r in table :: r.fetchDate
  }

  /** No two rows share a `fetch_date`. */
  predicate DistinctDates(table: seq<DayRow>) {
    forall i, j :: 0 <= i < j < |table| ==> table[i].fetchDate != table[j].fetchDate
  }

  /** The date-time a date is cast to (midnight), used as a sort key. */
  function DateKey(d: Date): Timestamp {
    Timestamp(d, Midnight)
  }
}
