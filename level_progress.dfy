/**
 * `extract_level_progress_metrics`: reshape the nested
 * `level_progress_percs` of every day row from wide to long. One flat column
 * "{category}_{level}" is made per configured pair (null read as 0), the flat
 * table is sorted by date and unpivoted, and the column name is split on
 * its underscore back into `category` and `level`.
 */
module LevelProgress {
  import opened Optional
  import opened Timestamps
  import opened Tables
  import opened Sorting
  import opened Settings
  import opened Aliases

  /** One appended expression: `pl.col(category).struct.field(level).fill_null(0).alias(...)`. */
  datatype Column = Column(category: string, level: string)

  function ColumnName(c: Column): string {
    Alias(c.category, c.level)
  }

  /** The columns appended for one category, in level order. */
  function LevelColumns(category: string, levels: seq<string>): seq<Column> {
    seq(|levels|, j requires 0 <= j < |levels| => Column(category, levels[j]))
  }

  /** All appended columns: categories in declaration order, levels within each. */
  function Columns(categories: seq<string>, levels: seq<string>): seq<Column> {
    if categories == [] then []
    else Columns(categories[..|categories| - 1], levels) + LevelColumns(categories[|categories| - 1], levels)
  }

  /** `level_progress_percs[category][level]`, 0 when absent or null. */
  function Percentage(rec: LogRecord, category: string, level: string): int {
    if category in rec.levelProgressPercs then Field(rec.levelProgressPercs[category], level).GetOr(0)
    else 0
  }

  /** A row of the flat table: the date and one value per column. */
  datatype FlatRow = FlatRow(fetchDate: Date, values: seq<int>)

  function FlatRowOf(columns: seq<Column>, x: DayRow): FlatRow {
    FlatRow(x.fetchDate,
      seq(|columns|, k requires 0 <= k < |columns| => Percentage(x.record, columns[k].category, columns[k].level)))
  }

  function FlatDate(r: FlatRow): Timestamp {
    DateKey(r.fetchDate)
  }

  predicate Rectangular(flat: seq<FlatRow>, width: nat) {
    forall i :: 0 <= i < |flat| ==> |flat[i].values| == width
  }

  /** A row of the long table, with the split-off `category` and `level` columns. */
  datatype ProgressRow = ProgressRow(
    fetchDate: Date, metricLevel: string, percentage: int, category: string, level: Option<string>)

  /** One unpivoted cell, with the `with_columns` split of its column name. */
  function Melted(date: Date, name: string, value: int): ProgressRow {
    var f := SplitExact1(name);
    ProgressRow(date, name, value, f.field0, f.field1)
  }

  function Cell(columns: seq<Column>, flat: seq<FlatRow>, c: nat, i: nat): ProgressRow
    requires c < |columns| && i < |flat| && Rectangular(flat, |columns|)
  {
    Melted(flat[i].fetchDate, ColumnName(columns[c]), flat[i].values[c])
  }

  /**
   * The order in which `unpivot` emits cells, as (column, row) pairs: column
   * after column from column `k` on, each over all rows.
   */
  function CellOrder(width: nat, height: nat, k: nat): seq<(nat, nat)>
    requires k <= width
    decreases width - k
  {
    if k == width then []
    else seq(height, i requires 0 <= i < height => (k, i)) + CellOrder(width, height, k + 1)
  }

  /** `unpivot(on=<the columns>, index=["fetch_date"])`, followed by the split of each column name. */
  function Unpivot(columns: seq<Column>, flat: seq<FlatRow>): seq<ProgressRow>
    requires Rectangular(flat, |columns|)
  {
    var order := CellOrder(|columns|, |flat|, 0);
    CellOrderBounds(|columns|, |flat|, 0);
    seq(|order|, p requires 0 <= p < |order| => Cell(columns, flat, order[p].0, order[p].1))
  }

  function FlatTable(columns: seq<Column>, table: seq<DayRow>): seq<FlatRow> {
    seq(|table|, i requires 0 <= i < |table| => FlatRowOf(columns, table[i]))
  }

  /** The flat table sorted by date, then unpivoted and split. */
  function Reshape(columns: seq<Column>, table: seq<DayRow>): seq<ProgressRow> {
    var flat := SortBy(FlatTable(columns, table), FlatDate);
    SortedFlatTable(columns, table);
    Unpivot(columns, flat)
  }

  /** The long view: empty for an empty table. */
  function LongView(cfg: Config, table: seq<DayRow>): seq<ProgressRow> {
    if table == [] then [] else Reshape(Columns(cfg.categories, cfg.levels), table)
  }

  /** The row the view should hold for day row `x`, category `c` and level `l`. */
  function Expected(x: DayRow, c: string, l: string): ProgressRow {
    ProgressRow(x.fetchDate, Alias(c, l), Percentage(x.record, c, l), c, Some(l))
  }

  function Triple(r: ProgressRow): (Date, string, Option<string>) {
    (r.fetchDate, r.category, r.level)
  }

  /** No (date, category, level) triple occurs twice. */
  predicate TriplesDistinct(rows: seq<ProgressRow>) {
    forall p, q :: 0 <= p < q < |rows| ==> Triple(rows[p]) != Triple(rows[q])
  }

  // ---------------------------------------------------------------------------
  // The method: the source's nested loops build the column list

  method ExtractLevelProgressMetrics(cfg: Config, table: seq<DayRow>) returns (long: seq<ProgressRow>)
    ensures long == LongView(cfg, table)
    ensures |long| == |table| * |cfg.categories| * |cfg.levels|
  {
    LevelProgressCount(cfg, table);
    if |table| == 0 {
      return [];
    }
    var columns: seq<Column> := [];
    var i := 0;
    while i < |cfg.categories|
      invariant 0 <= i <= |cfg.categories|
      invariant columns == Columns(cfg.categories[..i], cfg.levels)
    {
      var category := cfg.categories[i];
      var j := 0;
      while j < |cfg.levels|
        invariant 0 <= j <= |cfg.levels|
        invariant columns == Columns(cfg.categories[..i], cfg.levels) + LevelColumns(category, cfg.levels[..j])
      {
        assert LevelColumns(category, cfg.levels[..j + 1])
            == LevelColumns(category, cfg.levels[..j]) + [Column(category, cfg.levels[j])];
        columns := columns + [Column(category, cfg.levels[j])];
        j := j + 1;
      }
      assert cfg.levels[..j] == cfg.levels;
      assert cfg.categories[..i + 1][..i] == cfg.categories[..i];
      i := i + 1;
    }
    assert cfg.categories[..i] == cfg.categories;
    long := Reshape(columns, table);
  }

  // ---------------------------------------------------------------------------
  // The column list

  lemma {:induction false} ColumnsLength(categories: seq<string>, levels: seq<string>)
    ensures |Columns(categories, levels)| == |categories| * |levels|
  {
    if categories != [] {
      var n := |categories|;
      ColumnsLength(categories[..n - 1], levels);
      assert (n - 1) * |levels| + |levels| == n * |levels|;
    }
  }

  lemma {:induction false} ColumnsSound(categories: seq<string>, levels: seq<string>)
    ensures forall k :: 0 <= k < |Columns(categories, levels)| ==>
      Columns(categories, levels)[k].category in categories && Columns(categories, levels)[k].level in levels
  {
    if categories != [] {
      var n := |categories|;
      var front := Columns(categories[..n - 1], levels);
      ColumnsSound(categories[..n - 1], levels);
      var cols := Columns(categories, levels);
      forall k | 0 <= k < |cols| ensures cols[k].category in categories && cols[k].level in levels {
        if k < |front| {
          assert cols[k] == front[k];
          assert front[k].category in categories[..n - 1];
        } else {
          assert cols[k] == LevelColumns(categories[n - 1], levels)[k - |front|];
        }
      }
    }
  }

  lemma {:induction false} ColumnsComplete(categories: seq<string>, levels: seq<string>, c: string, l: string)
    requires c in categories && l in levels
    ensures exists k :: 0 <= k < |Columns(categories, levels)| && Columns(categories, levels)[k] == Column(c, l)
  {
    var n := |categories|;
    var front := Columns(categories[..n - 1], levels);
    var cols := Columns(categories, levels);
    if c == categories[n - 1] {
      var j :| 0 <= j < |levels| && levels[j] == l;
      assert cols[|front| + j] == LevelColumns(c, levels)[j];
    } else {
      assert c in categories[..n - 1] by {
        var i :| 0 <= i < n && categories[i] == c;
        assert categories[..n - 1][i] == c;
      }
      ColumnsComplete(categories[..n - 1], levels, c, l);
      var k :| 0 <= k < |front| && front[k] == Column(c, l);
      assert cols[k] == front[k];
    }
  }

  lemma {:induction false} ColumnsDistinct(categories: seq<string>, levels: seq<string>)
    requires Distinct(categories) && Distinct(levels)
    ensures Distinct(Columns(categories, levels))
  {
    if categories != [] {
      var n := |categories|;
      var front := Columns(categories[..n - 1], levels);
      var back := LevelColumns(categories[n - 1], levels);
      ColumnsDistinct(categories[..n - 1], levels);
      ColumnsSound(categories[..n - 1], levels);
      var cols := front + back;
      forall p, q | 0 <= p < q < |cols| ensures cols[p] != cols[q] {
        if q >= |front| && p < |front| {
          assert cols[p].category in categories[..n - 1];
          assert cols[q].category == categories[n - 1];
          assert categories[n - 1] !in categories[..n - 1];
        } else if p >= |front| {
          assert cols[p] == back[p - |front|] && cols[q] == back[q - |front|];
        } else {
          assert cols[p] == front[p] && cols[q] == front[q];
        }
      }
    }
  }

  /** In a well-formed configuration every column name splits back into its own pair. */
  lemma ColumnsSplitBack(cfg: Config)
    requires WellFormed(cfg)
    ensures forall k :: 0 <= k < |Columns(cfg.categories, cfg.levels)| ==>
      var col := Columns(cfg.categories, cfg.levels)[k];
      SplitExact1(ColumnName(col)) == Fields(col.category, Some(col.level))
  {
    var cols := Columns(cfg.categories, cfg.levels);
    ColumnsSound(cfg.categories, cfg.levels);
    forall k | 0 <= k < |cols|
      ensures SplitExact1(ColumnName(cols[k])) == Fields(cols[k].category, Some(cols[k].level))
    {
      var i :| 0 <= i < |cfg.categories| && cfg.categories[i] == cols[k].category;
      var j :| 0 <= j < |cfg.levels| && cfg.levels[j] == cols[k].level;
      SplitAliasRoundTrip(cols[k].category, cols[k].level);
    }
  }

  // ---------------------------------------------------------------------------
  // The flat table

  /** The flat table: one row of the right width per day row, ascending by date. */
  lemma SortedFlatTable(columns: seq<Column>, table: seq<DayRow>)
    ensures Rectangular(SortBy(FlatTable(columns, table), FlatDate), |columns|)
    ensures forall i :: 0 <= i < |SortBy(FlatTable(columns, table), FlatDate)| ==>
      exists x :: x in table && SortBy(FlatTable(columns, table), FlatDate)[i] == FlatRowOf(columns, x)
    ensures forall x :: x in table ==> FlatRowOf(columns, x) in SortBy(FlatTable(columns, table), FlatDate)
    ensures |SortBy(FlatTable(columns, table), FlatDate)| == |table|
    ensures SortedBy(SortBy(FlatTable(columns, table), FlatDate), FlatDate)
  {
    var pre := FlatTable(columns, table);
    var flat := SortBy(pre, FlatDate);
    SortByCorrect(pre, FlatDate);
    forall i | 0 <= i < |flat| ensures exists x :: x in table && flat[i] == FlatRowOf(columns, x) {
      assert flat[i] in pre;
      var k :| 0 <= k < |pre| && pre[k] == flat[i];
      assert table[k] in table;
    }
    forall x | x in table ensures FlatRowOf(columns, x) in flat {
      var k :| 0 <= k < |table| && table[k] == x;
      assert pre[k] in pre;
    }
  }

  lemma SortedFlatDatesDistinct(columns: seq<Column>, table: seq<DayRow>)
    requires DistinctDates(table)
    ensures KeysDistinct(SortBy(FlatTable(columns, table), FlatDate), FlatDate)
  {
    var pre := FlatTable(columns, table);
    assert KeysDistinct(pre, FlatDate) by {
      forall i, j | 0 <= i < j < |pre| ensures FlatDate(pre[i]) != FlatDate(pre[j]) {
        assert table[i].fetchDate != table[j].fetchDate;
      }
    }
    SortByKeysDistinct(pre, FlatDate);
  }

  // ---------------------------------------------------------------------------
  // Unpivot

  lemma {:induction false} CellOrderBounds(width: nat, height: nat, k: nat)
    requires k <= width
    ensures |CellOrder(width, height, k)| == (width - k) * height
    ensures forall p :: 0 <= p < |CellOrder(width, height, k)| ==>
      k <= CellOrder(width, height, k)[p].0 < width && CellOrder(width, height, k)[p].1 < height
    decreases width - k
  {
    if k < width {
      CellOrderBounds(width, height, k + 1);
      var block := seq(height, i requires 0 <= i < height => (k, i));
      var rest := CellOrder(width, height, k + 1);
      var o := block + rest;
      assert (width - k) * height == height + (width - (k + 1)) * height;
      forall p | 0 <= p < |o| ensures k <= o[p].0 < width && o[p].1 < height {
        if p >= height { assert o[p] == rest[p - height]; }
      }
    }
  }

  lemma {:induction false} CellOrderComplete(width: nat, height: nat, k: nat, c: nat, i: nat)
    requires k <= c < width && i < height
    ensures (c, i) in CellOrder(width, height, k)
    decreases width - k
  {
    var block := seq(height, i requires 0 <= i < height => (k, i));
    if c == k {
      assert block[i] == (c, i);
      assert (block + CellOrder(width, height, k + 1))[i] == (c, i);
    } else {
      CellOrderComplete(width, height, k + 1, c, i);
    }
  }

  lemma {:induction false} CellOrderDistinct(width: nat, height: nat, k: nat)
    requires k <= width
    ensures Distinct(CellOrder(width, height, k))
    decreases width - k
  {
    if k < width {
      CellOrderDistinct(width, height, k + 1);
      CellOrderBounds(width, height, k + 1);
      var block := seq(height, i requires 0 <= i < height => (k, i));
      var rest := CellOrder(width, height, k + 1);
      var o := block + rest;
      forall p, q | 0 <= p < q < |o| ensures o[p] != o[q] {
        if q < height {
          assert o[p] == (k, p) && o[q] == (k, q);
        } else if p >= height {
          assert o[p] == rest[p - height] && o[q] == rest[q - height];
        } else {
          assert o[p].0 == k && o[q] == rest[q - height];
        }
      }
    }
  }

  predicate SplitsApart(columns: seq<Column>) {
    forall c1, c2 :: 0 <= c1 < c2 < |columns| ==>
      SplitExact1(ColumnName(columns[c1])) != SplitExact1(ColumnName(columns[c2]))
  }

  lemma CellTriple(columns: seq<Column>, flat: seq<FlatRow>, c: nat, i: nat)
    requires c < |columns| && i < |flat| && Rectangular(flat, |columns|)
    ensures var f := SplitExact1(ColumnName(columns[c]));
      Triple(Cell(columns, flat, c, i)) == (flat[i].fetchDate, f.field0, f.field1)
  {
  }

  /** Two different cells have different triples when dates are distinct and names split apart. */
  lemma CellsApart(columns: seq<Column>, flat: seq<FlatRow>, c1: nat, i1: nat, c2: nat, i2: nat)
    requires c1 < |columns| && i1 < |flat| && c2 < |columns| && i2 < |flat| && Rectangular(flat, |columns|)
    requires KeysDistinct(flat, FlatDate) && SplitsApart(columns)
    requires (c1, i1) != (c2, i2)
    ensures Triple(Cell(columns, flat, c1, i1)) != Triple(Cell(columns, flat, c2, i2))
  {
    CellTriple(columns, flat, c1, i1);
    CellTriple(columns, flat, c2, i2);
    if c1 == c2 {
      if i1 < i2 {
        assert FlatDate(flat[i1]) != FlatDate(flat[i2]);
      } else {
        assert FlatDate(flat[i2]) != FlatDate(flat[i1]);
      }
    } else if c1 < c2 {
      assert SplitExact1(ColumnName(columns[c1])) != SplitExact1(ColumnName(columns[c2]));
    } else {
      assert SplitExact1(ColumnName(columns[c2])) != SplitExact1(ColumnName(columns[c1]));
    }
  }

  lemma UnpivotDistinct(columns: seq<Column>, flat: seq<FlatRow>)
    requires Rectangular(flat, |columns|)
    requires KeysDistinct(flat, FlatDate) && SplitsApart(columns)
    ensures TriplesDistinct(Unpivot(columns, flat))
  {
    var order := CellOrder(|columns|, |flat|, 0);
    CellOrderBounds(|columns|, |flat|, 0);
    CellOrderDistinct(|columns|, |flat|, 0);
    var u := Unpivot(columns, flat);
    forall p, q | 0 <= p < q < |u| ensures Triple(u[p]) != Triple(u[q]) {
      CellsApart(columns, flat, order[p].0, order[p].1, order[q].0, order[q].1);
    }
  }

  // ---------------------------------------------------------------------------
  // The view's guarantees

  /** Row-count completeness: D days give D x |categories| x |levels| rows (none for an empty table). */
  lemma LevelProgressCount(cfg: Config, table: seq<DayRow>)
    ensures |LongView(cfg, table)| == |table| * |cfg.categories| * |cfg.levels|
  {
    if table != [] {
      var columns := Columns(cfg.categories, cfg.levels);
      var flat := SortBy(FlatTable(columns, table), FlatDate);
      ColumnsLength(cfg.categories, cfg.levels);
      SortedFlatTable(columns, table);
      CellOrderBounds(|columns|, |flat|, 0);
      assert |LongView(cfg, table)| == |columns| * |table|;
      Reorder(|cfg.categories|, |cfg.levels|, |table|);
    }
  }

  lemma Reorder(c: nat, l: nat, d: nat)
    ensures (c * l) * d == d * c * l
  {
  }

  lemma CellIsExpected(cfg: Config, table: seq<DayRow>, c: nat, i: nat)
    requires WellFormed(cfg)
    requires var columns := Columns(cfg.categories, cfg.levels);
      c < |columns| && i < |SortBy(FlatTable(columns, table), FlatDate)|
    ensures var columns := Columns(cfg.categories, cfg.levels);
      var flat := SortBy(FlatTable(columns, table), FlatDate);
      Rectangular(flat, |columns|) &&
      exists x :: x in table && Cell(columns, flat, c, i) == Expected(x, columns[c].category, columns[c].level)
  {
    var columns := Columns(cfg.categories, cfg.levels);
    var flat := SortBy(FlatTable(columns, table), FlatDate);
    SortedFlatTable(columns, table);
    ColumnsSplitBack(cfg);
    var x :| x in table && flat[i] == FlatRowOf(columns, x);
    assert Cell(columns, flat, c, i) == Expected(x, columns[c].category, columns[c].level);
  }

  /**
   * Every long row is the expected row of some day row, configured category
   * and configured level: its percentage is the nested value, or 0 for null.
   */
  lemma LevelProgressSound(cfg: Config, table: seq<DayRow>)
    requires WellFormed(cfg)
    ensures forall r :: r in LongView(cfg, table) ==>
      exists x, c, l :: x in table && c in cfg.categories && l in cfg.levels && r == Expected(x, c, l)
  {
    if table != [] {
      var columns := Columns(cfg.categories, cfg.levels);
      var flat := SortBy(FlatTable(columns, table), FlatDate);
      SortedFlatTable(columns, table);
      var order := CellOrder(|columns|, |flat|, 0);
      CellOrderBounds(|columns|, |flat|, 0);
      ColumnsSound(cfg.categories, cfg.levels);
      var u := LongView(cfg, table);
      forall r | r in u
        ensures exists x, c, l :: x in table && c in cfg.categories && l in cfg.levels && r == Expected(x, c, l)
      {
        var p :| 0 <= p < |u| && u[p] == r;
        assert r == Cell(columns, flat, order[p].0, order[p].1);
        CellIsExpected(cfg, table, order[p].0, order[p].1);
      }
    }
  }

  lemma ExpectedPresent(cfg: Config, table: seq<DayRow>, x: DayRow, c: string, l: string)
    requires WellFormed(cfg)
    requires x in table && c in cfg.categories && l in cfg.levels
    ensures Expected(x, c, l) in LongView(cfg, table)
  {
    var columns := Columns(cfg.categories, cfg.levels);
    var flat := SortBy(FlatTable(columns, table), FlatDate);
    SortedFlatTable(columns, table);
    ColumnsComplete(cfg.categories, cfg.levels, c, l);
    var k :| 0 <= k < |columns| && columns[k] == Column(c, l);
    assert FlatRowOf(columns, x) in flat;
    var i :| 0 <= i < |flat| && flat[i] == FlatRowOf(columns, x);
    CellOrderComplete(|columns|, |flat|, 0, k, i);
    var order := CellOrder(|columns|, |flat|, 0);
    CellOrderBounds(|columns|, |flat|, 0);
    var p :| 0 <= p < |order| && order[p] == (k, i);
    SplitAliasRoundTrip(c, l);
    assert Cell(columns, flat, k, i) == Expected(x, c, l);
    assert LongView(cfg, table)[p] == Cell(columns, flat, k, i);
  }

  /** Every (day row, category, level) combination has its row. */
  lemma LevelProgressComplete(cfg: Config, table: seq<DayRow>)
    requires WellFormed(cfg)
    ensures forall x, c, l :: x in table && c in cfg.categories && l in cfg.levels ==>
      Expected(x, c, l) in LongView(cfg, table)
  {
    forall x, c, l | x in table && c in cfg.categories && l in cfg.levels
      ensures Expected(x, c, l) in LongView(cfg, table)
    {
      ExpectedPresent(cfg, table, x, c, l);
    }
  }

  /** On a table without repeated dates each (date, category, level) triple occurs exactly once. */
  lemma LevelProgressUnique(cfg: Config, table: seq<DayRow>)
    requires WellFormed(cfg) && DistinctDates(table)
    ensures TriplesDistinct(LongView(cfg, table))
  {
    if table != [] {
      var columns := Columns(cfg.categories, cfg.levels);
      var flat := SortBy(FlatTable(columns, table), FlatDate);
      SortedFlatTable(columns, table);
      SortedFlatDatesDistinct(columns, table);
      ColumnsSplitBack(cfg);
      ColumnsDistinct(cfg.categories, cfg.levels);
      assert SplitsApart(columns) by {
        forall c1, c2 | 0 <= c1 < c2 < |columns|
          ensures SplitExact1(ColumnName(columns[c1])) != SplitExact1(ColumnName(columns[c2]))
        {
          assert columns[c1] != columns[c2];
        }
      }
      UnpivotDistinct(columns, flat);
    }
  }
}
