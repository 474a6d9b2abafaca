/**
 * `get_latest_progress_snapshot`: find the maximum `fetch_date`, keep the
 * rows of that date, and for every category build a table of
 * level -> percentage from those rows. Nulls stay null here: this step
 * applies no `fill_null`.
 */
module LatestSnapshot {
  import opened Optional
  import opened Timestamps
  import opened Tables
  import opened Settings

  /** One category's table: one level -> value row per selected day row. */
  type CategoryTable = seq<map<string, Option<int>>>

  /** Category -> its table. */
  type Snapshot = map<string, CategoryTable>

  /** `pl.col("fetch_date").max()` of a non-empty table. */
  function MaxDate(table: seq<DayRow>): (d: Date)
    requires table != []
    ensures exists k :: 0 <= k < |table| && table[k].fetchDate == d
    ensures forall k :: 0 <= k < |table| ==> DateNotAfter(table[k].fetchDate, d)
  {
    if |table| == 1 then table[0].fetchDate
    else
      var m := MaxDate(table[1..]);
      assert forall k :: 1 <= k < |table| ==> table[k] == table[1..][k - 1];
      if DateNotAfter(m, table[0].fetchDate) then
        assert forall k :: 1 <= k < |table| ==> DateNotAfter(table[k].fetchDate, table[0].fetchDate) by {
          forall k | 1 <= k < |table| ensures DateNotAfter(table[k].fetchDate, table[0].fetchDate) {
            DateOrderFacts(table[k].fetchDate, m, table[0].fetchDate);
          }
        }
        table[0].fetchDate
      else
        DateOrderFacts(m, table[0].fetchDate, m);
        m
  }

  /** `filter(pl.col("fetch_date") == d)`, keeping the table's order. */
  function RowsOn(table: seq<DayRow>, d: Date): (rows: seq<DayRow>)
    ensures forall r :: r in rows ==> r in table && r.fetchDate == d
    ensures forall r :: r in table && r.fetchDate == d ==> r in rows
  {
    if table == [] then []
    else if table[0].fetchDate == d then [table[0]] + RowsOn(table[1..], d)
    else RowsOn(table[1..], d)
  }

  /** One row of a category's table: every configured level, null when absent. */
  function LevelValues(rec: LogRecord, category: string, levels: seq<string>): map<string, Option<int>> {
    var m := if category in rec.levelProgressPercs then rec.levelProgressPercs[category] else map[];
    map l | l in levels :: Field(m, l)
  }

  /** `select(...struct.field(category)).unnest(category)` over the selected rows. */
  function TableOf(rows: seq<DayRow>, category: string, levels: seq<string>): CategoryTable {
    seq(|rows|, i requires 0 <= i < |rows| => LevelValues(rows[i].record, category, levels))
  }

  /** The snapshot: empty for an empty table, otherwise one table per category from the latest date's rows. */
  function SnapshotOf(cfg: Config, table: seq<DayRow>): Snapshot {
    if table == [] then map[]
    else
      var latest := RowsOn(table, MaxDate(table));
      map c | c in cfg.categories :: TableOf(latest, c, cfg.levels)
  }

  /** The method: the source's loop over categories fills the dictionary one key at a time. */
  method GetLatestProgressSnapshot(cfg: Config, table: seq<DayRow>) returns (snapshots: Snapshot)
    ensures snapshots == SnapshotOf(cfg, table)
    ensures table == [] ==> snapshots == map[]
    ensures table != [] ==> snapshots.Keys == set c | c in cfg.categories
  {
    if |table| == 0 {
      return map[];
    }
    var latestDate := MaxDate(table);
    var latestData := RowsOn(table, latestDate);
    snapshots := map[];
    var i := 0;
    while i < |cfg.categories|
      invariant 0 <= i <= |cfg.categories|
      invariant snapshots == map c | c in cfg.categories[..i] :: TableOf(latestData, c, cfg.levels)
    {
      var category := cfg.categories[i];
      assert cfg.categories[..i + 1] == cfg.categories[..i] + [category];
      snapshots := snapshots[category := TableOf(latestData, category, cfg.levels)];
      i := i + 1;
    }
    assert cfg.categories[..i] == cfg.categories;
  }

  lemma {:induction false} RowsOnNone(table: seq<DayRow>, d: Date)
    requires forall k :: 0 <= k < |table| ==> table[k].fetchDate != d
    ensures RowsOn(table, d) == []
  {
    if table != [] {
      RowsOnNone(table[1..], d);
    }
  }

  lemma {:induction false} RowsOnSingle(table: seq<DayRow>, k: nat)
    requires DistinctDates(table) && k < |table|
    ensures RowsOn(table, table[k].fetchDate) == [table[k]]
  {
    var d := table[k].fetchDate;
    assert DistinctDates(table[1..]) by {
      forall i, j | 0 <= i < j < |table[1..]| ensures table[1..][i].fetchDate != table[1..][j].fetchDate {
        assert table[1..][i] == table[i + 1] && table[1..][j] == table[j + 1];
      }
    }
    if k == 0 {
      assert forall j :: 0 <= j < |table[1..]| ==> table[1..][j].fetchDate != d by {
        forall j | 0 <= j < |table[1..]| ensures table[1..][j].fetchDate != d {
          assert table[j + 1] == table[1..][j];
        }
      }
      RowsOnNone(table[1..], d);
    } else {
      assert table[0].fetchDate != d;
      assert table[k] == table[1..][k - 1];
      RowsOnSingle(table[1..], k - 1);
    }
  }

  /**
   * The snapshot is built only from rows of the maximum date: every row of
   * every category's table comes from a row whose date no other row exceeds,
   * and an absent value stays null.
   */
  lemma SnapshotFromLatestDate(cfg: Config, table: seq<DayRow>)
    requires table != []
    ensures forall c :: c in cfg.categories ==>
      c in SnapshotOf(cfg, table) &&
      forall i :: 0 <= i < |SnapshotOf(cfg, table)[c]| ==>
        exists x :: (x in table
          && (forall y :: y in table ==> DateNotAfter(y.fetchDate, x.fetchDate))
          && SnapshotOf(cfg, table)[c][i] == LevelValues(x.record, c, cfg.levels))
  {
    var d := MaxDate(table);
    var latest := RowsOn(table, d);
    forall c, i | c in cfg.categories && 0 <= i < |SnapshotOf(cfg, table)[c]|
      ensures exists x :: (x in table
          && (forall y :: y in table ==> DateNotAfter(y.fetchDate, x.fetchDate))
          && SnapshotOf(cfg, table)[c][i] == LevelValues(x.record, c, cfg.levels))
    {
      var x := latest[i];
      assert x in latest;
      forall y | y in table ensures DateNotAfter(y.fetchDate, x.fetchDate) {
        var k :| 0 <= k < |table| && table[k] == y;
      }
    }
  }

  /**
   * On a deduplicated table the latest date has exactly one row, and every
   * category's table is that row's values.
   */
  lemma SnapshotSingleRow(cfg: Config, table: seq<DayRow>)
    requires table != [] && DistinctDates(table)
    ensures exists x :: (x in table
      && (forall y :: y in table ==> DateNotAfter(y.fetchDate, x.fetchDate))
      && forall c :: c in cfg.categories ==>
           c in SnapshotOf(cfg, table) && SnapshotOf(cfg, table)[c] == [LevelValues(x.record, c, cfg.levels)])
  {
    var d := MaxDate(table);
    var k :| 0 <= k < |table| && table[k].fetchDate == d;
    RowsOnSingle(table, k);
    var x := table[k];
    forall y | y in table ensures DateNotAfter(y.fetchDate, x.fetchDate) {
      var j :| 0 <= j < |table| && table[j] == y;
    }
  }

  /** Selecting the latest of the dates 2024-01-01, 2024-01-03 and 2024-01-02 keeps only the 2024-01-03 row. */
  lemma LatestSelectionExample(a: DayRow, b: DayRow, c: DayRow)
    requires a.fetchDate == Date(2024, 1, 1) && b.fetchDate == Date(2024, 1, 3) && c.fetchDate == Date(2024, 1, 2)
    ensures MaxDate([a, b, c]) == Date(2024, 1, 3)
    ensures RowsOn([a, b, c], MaxDate([a, b, c])) == [b]
  {
    var t := [a, b, c];
    assert t[1..] == [b, c] && t[1..][1..] == [c];
    RowsOnSingle(t, 1);
  }
}
