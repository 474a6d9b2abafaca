# Renshuu log processing, modelled in Dafny

This project models the log-to-views pipeline of a small Renshuu progress
tracker. A log is a JSON Lines file of profile snapshots. Each snapshot has a
`fetch_timestamp` string, a `studied` struct of `today_*` counters and a
`level_progress_percs` struct holding category → level → percentage. The
pipeline turns the log into three views:

- **Loading and deduplication** (`Deduplication`) parses every
  `fetch_timestamp` with the format `%Y-%m-%dT%H:%M:%S%.f` and derives
  `fetch_date`. It sorts by the full timestamp and keeps the last row of each
  calendar date. A missing file, an unreadable file or any timestamp that
  does not parse yields an empty table.
- **Daily activity** (`DailyActivity`) projects `studied.today_*` into the
  flat `daily_*` counters, with a null or absent counter read as 0. Its rows
  ascend by date.
- **Level progress** (`LevelProgress`) reshapes the nested percentages from
  wide to long: one row per (date, category, level). The column name
  `category_level` is split back with `split_exact("_", 1)`, and null is
  read as 0. The column list is built by the source's nested loops, so it is
  modelled as a method with loop invariants.
- **Latest snapshot** (`LatestSnapshot`) finds the maximum `fetch_date`,
  keeps that date's rows and builds a level → value table for each category.
  Nulls stay null here. The dictionary is filled by the source's loop over
  categories, so it is modelled as a method.
- **Pipeline** (`Pipeline`) composes the steps above.

Supporting modules:

- `Timestamps` holds the calendar, the timestamp order, the strict parser,
  and the ISO writer used by the log appender (`datetime.isoformat()` in
  `src/data_fetcher.py`). The writer is the parser's round-trip partner.
- `Sorting` is a stable sort by a timestamp key.
- `Aliases` holds the alias string and Polars' `split_exact`.
- `Tables` holds records and day rows.
- `Settings` holds the configuration: the category keys and level list of
  `config/settings.py`, passed in as ordered sequences.

Notes on how the model follows the code:

- A record is modelled by its three fields. A struct field that is absent
  reads as null, exactly like a null value.
- Reading the file is a parameter: the log arrives as `Option<seq<LogRecord>>`,
  where `None` stands for a missing file or a line that is not valid JSON.
- Polars does not fix the row order of `unique(keep="last")`, nor the order
  of rows with equal sort keys. The model chooses sorted order and a stable
  insertion sort. No lemma depends on that choice beyond what the source
  itself promises.
- `load_and_process_data` promises three values: its return annotation is a
  three-element tuple (`src/data_processor.py:135`), its docstring says it
  returns `(daily_metrics, progress_metrics, snapshots)` (line 139), and its
  caller unpacks three names (`scripts/generate_plots.py:30`). On the empty
  path the code returns a tuple of two. The model records this (see
  Findings) and then models the intended three empty views.
- Polars infers the unit of the parsed `Datetime` from the format, and for
  `%.f` that unit is microseconds. The model's timestamps therefore carry
  microseconds, and fraction digits past the sixth are truncated.

## Model

| member | source | states |
|---|---|---|
| Settings.DefaultWellFormed | config/settings.py:17-24 | The shipped configuration has 4 distinct categories and 5 distinct levels, none containing an underscore |
| Timestamps.Parse | src/data_processor.py:26-30 | A timestamp the strict format accepts is a real calendar date-time: month 1-12, a day that exists in that month (leap years included), hour < 24, minute and second < 60 |
| Timestamps.ParseIsoFormat | src/data_processor.py:26-30 | Every timestamp the appender writes (ISO 8601 form, fraction omitted when zero, else six digits) parses back to exactly that date-time |
| Timestamps.ParseRejectsMalformed | src/data_processor.py:26-30 | A bare date and a 30 February are rejected |
| Timestamps.ParseTruncatesToMicroseconds | src/data_processor.py:26-30 | A written stamp with a seventh fraction digit parses to the same microsecond as the stamp without it |
| Timestamps.IsoFormat | src/data_fetcher.py:54 | The writer's `isoformat()` string. Its contract is carried by ParseIsoFormat (the parser reads it back exactly) and ParseTruncatesToMicroseconds |
| Timestamps.NumberOfPadded | src/data_processor.py:28 | A zero-padded decimal field reads back as its number |
| Timestamps.OrderFacts | src/data_processor.py:38 | Timestamp order is total, antisymmetric and transitive, is refined by date order, and strict order is the negation of the reverse |
| Timestamps.DateOrderFacts | src/data_processor.py:34 | Date order is total, antisymmetric and transitive, and agrees with the order of the matching midnight timestamps |
| Sorting.SortBy | src/data_processor.py:38 | Sorting keeps the same rows with their multiplicities |
| Sorting.SortByCorrect | src/data_processor.py:38 | The sorted table has the same length and the same rows as its input, and its keys ascend |
| Sorting.SortByKeysDistinct | src/data_processor.py:38 | Sorting keeps keys pairwise distinct |
| Deduplication.KeepLastDates | src/data_processor.py:39 | `unique(keep="last")` loses no date and invents none |
| Deduplication.KeepLastDistinct | src/data_processor.py:39 | After `unique`, no two rows share a date |
| Deduplication.KeepLastKeepsLast | src/data_processor.py:39 | Every kept row is the last row of its date in the input order |
| Deduplication.KeepLastOneDate | src/data_processor.py:39 | Rows that all share one date reduce to the last of them |
| Deduplication.KeepLast | src/data_processor.py:39 | `unique(subset=["fetch_date"], keep="last")`. Its contract is carried by KeepLastDates, KeepLastDistinct, KeepLastKeepsLast and KeepLastOneDate |
| Deduplication.WithTimestamps | src/data_processor.py:26-35 | Parsing every timestamp and deriving its date, failing as a whole. Its contract is carried by WithTimestampsRows and LoadFailsWhole |
| Deduplication.LoadAndDeduplicateLogs | src/data_processor.py:14-46 | The loader. Its contract is carried by LoadFailsWhole, LoadDatesDistinct, LoadKeepsEveryDate, LoadLastFetchWins and SameDayKeepsOnlyLast |
| Deduplication.WithTimestampsRows | src/data_processor.py:26-35 | When every timestamp parses, row k keeps record k and carries its parsed timestamp and that timestamp's date |
| Deduplication.LoadFailsWhole | src/data_processor.py:18-46 | A missing file, or any timestamp that fails to parse, gives an empty table. The table is non-empty exactly when the log exists, is non-empty and parses entirely |
| Deduplication.LoadDatesDistinct | src/data_processor.py:33-39 | No two loaded rows share a `fetch_date` |
| Deduplication.DedupKeepsDates | src/data_processor.py:38-39 | Sorting then deduplicating keeps exactly the input's set of dates |
| Deduplication.Dedup | src/data_processor.py:38-39 | The sort by full timestamp followed by `unique(keep="last")`, on parsed rows. Its contract is carried by DedupKeepsDates, DedupKeepsLatest and DedupOneDay |
| Deduplication.LatestOfItsDate | src/data_processor.py:38-39 | In a sorted table, the last row of a date has a timestamp no earlier than any other row of that date |
| Deduplication.DedupKeepsLatest | src/data_processor.py:38-39 | Every kept row is an input row whose timestamp is maximal among the rows of its date |
| Deduplication.LoadKeepsEveryDate | src/data_processor.py:33-39 | The loaded dates are exactly the dates of the log's timestamps |
| Deduplication.LoadLastFetchWins | src/data_processor.py:38-39 | Every loaded row comes from a record of the log, and no record of the same date was fetched later |
| Deduplication.DedupOneDay | src/data_processor.py:38-39 | Rows of a single day with a unique latest row reduce to that row |
| Deduplication.SameDayKeepsOnlyLast | src/data_processor.py:38-39 | A log of fetches on one day loads to the latest fetch alone, the same table as a log of that fetch only |
| DailyActivity.ExtractDailyActivityMetrics | src/data_processor.py:53-63 | Empty for an empty table. Otherwise the rows are the table's rows projected, one per input row (same multiset), in ascending date order |
| DailyActivity.DailyRowsProjectTable | src/data_processor.py:56-62 | Every daily row projects some input row and every input row is projected. Each `daily_X` is `today_X` when present and 0 when null or absent, and `fetch_date` becomes that day's midnight |
| DailyActivity.DailyDatesDistinct | src/data_processor.py:56-63 | On a deduplicated table the daily view has one row per date |
| DailyActivity.DailyRowOf | src/data_processor.py:56-62 | The projection of one day row. Its contract is carried by DailyRowsProjectTable, against the independent ReadsAs (present value, else 0) |
| Aliases.Alias | src/data_processor.py:88 | The alias is the category, one underscore, then the level |
| Aliases.Prefix | src/data_processor.py:101-102 | The text before the first underscore: underscore-free, a prefix of the input, and shorter than the input exactly when the input has an underscore |
| Aliases.SplitExact1 | src/data_processor.py:101-102 | `split_exact("_", 1)`. Its contract is carried by SplitAliasRoundTrip and ColumnsSplitBack, and by the contract of Prefix (field_0 is the text before the first underscore) |
| Aliases.PrefixOfUnderscoreFree | src/data_processor.py:101 | If the category has no underscore, the first piece of its alias is the category |
| Aliases.PrefixWhole | src/data_processor.py:102 | An underscore-free string is a single piece |
| Aliases.SplitAliasRoundTrip | src/data_processor.py:88-102 | Splitting the alias gives back exactly the category and the level if and only if neither contains an underscore |
| LevelProgress.ExtractLevelProgressMetrics | src/data_processor.py:72-103 | The nested loops build the column list in category-major order, and the result is the long view with exactly D × categories × levels rows |
| LevelProgress.ColumnsLength | src/data_processor.py:82-89 | There is one column per category and level pair |
| LevelProgress.Columns | src/data_processor.py:82-89 | The `expressions` list, category by category and level by level. Its contract is carried by ColumnsLength, ColumnsSound, ColumnsComplete, ColumnsDistinct and ColumnsSplitBack, and ExtractLevelProgressMetrics's loops are proved to build it |
| LevelProgress.ColumnsSound | src/data_processor.py:82-89 | Every column is a configured category with a configured level |
| LevelProgress.ColumnsComplete | src/data_processor.py:82-89 | Every configured category and level pair has a column |
| LevelProgress.ColumnsDistinct | src/data_processor.py:82-89 | With distinct names, no column repeats |
| LevelProgress.ColumnsSplitBack | src/data_processor.py:88-102 | In a well-formed configuration, every column name splits back into its own category and level |
| LevelProgress.Percentage | src/data_processor.py:86-87 | The nested percentage, or 0 when null or absent. Its contract is carried by CellIsExpected, LevelProgressSound and LevelProgressComplete |
| LevelProgress.SortedFlatTable | src/data_processor.py:76-91 | The flat table has one row of the right width per input row, every row is the flattening of an input row and every input row is flattened, and the rows ascend by date |
| LevelProgress.FlatTable | src/data_processor.py:76-91 | `select(expressions)` over the unnested frame, one flat row per day row. Its contract is carried by SortedFlatTable and SortedFlatDatesDistinct |
| LevelProgress.SortedFlatDatesDistinct | src/data_processor.py:91 | Sorting the flat table keeps its dates distinct |
| LevelProgress.CellOrderBounds | src/data_processor.py:95-100 | `unpivot` visits width × height cells, all in range |
| LevelProgress.CellOrderComplete | src/data_processor.py:95-100 | `unpivot` visits every cell |
| LevelProgress.CellOrderDistinct | src/data_processor.py:95-100 | `unpivot` visits no cell twice |
| LevelProgress.CellTriple | src/data_processor.py:95-102 | A cell's long row carries its flat row's date and its column name's split |
| LevelProgress.CellsApart | src/data_processor.py:95-102 | Two different cells get different (date, category, level) triples |
| LevelProgress.UnpivotDistinct | src/data_processor.py:95-102 | No (date, category, level) triple occurs twice in the unpivoted table |
| LevelProgress.Unpivot | src/data_processor.py:95-103 | `unpivot` of the flat table in column-major cell order. Its contract is carried by CellOrderBounds, CellOrderComplete, CellOrderDistinct, CellTriple and UnpivotDistinct |
| LevelProgress.LevelProgressCount | src/data_processor.py:72-100 | D input rows give exactly D × categories × levels long rows, and none for an empty table |
| LevelProgress.CellIsExpected | src/data_processor.py:85-102 | Each cell is the row for its day, category and level, with percentage `level_progress_percs[category][level]`, or 0 when null |
| LevelProgress.LevelProgressSound | src/data_processor.py:85-102 | Every long row is the row for a day row, a configured category and a configured level, carrying the nested percentage or 0 |
| LevelProgress.ExpectedPresent | src/data_processor.py:85-102 | The row for a given day row, category and level is present |
| LevelProgress.LevelProgressComplete | src/data_processor.py:85-102 | Every (day row, category, level) combination has its long row |
| LevelProgress.LevelProgressUnique | src/data_processor.py:95-102 | On a deduplicated table each (date, category, level) triple appears exactly once |
| LevelProgress.LongView | src/data_processor.py:72-105 | The long view. Its contract is carried by LevelProgressCount, LevelProgressSound, LevelProgressComplete and LevelProgressUnique, and ExtractLevelProgressMetrics is proved equal to it |
| LevelProgress.Reshape | src/data_processor.py:91-103 | Sort by date, `unpivot`, then split the alias. Its contract is carried by LevelProgressCount, LevelProgressSound, LevelProgressComplete and LevelProgressUnique |
| LatestSnapshot.MaxDate | src/data_processor.py:117-119 | The maximum date is some row's date and no row's date exceeds it |
| LatestSnapshot.RowsOn | src/data_processor.py:120-122 | The filter keeps exactly the table's rows of the given date |
| LatestSnapshot.RowsOnNone | src/data_processor.py:120-122 | Filtering on a date that no row has gives nothing |
| LatestSnapshot.RowsOnSingle | src/data_processor.py:120-122 | On a table with distinct dates, filtering on a row's date gives that row alone |
| LatestSnapshot.LevelValues | src/data_processor.py:125-127 | One category-table row: every configured level with its value, null when absent and not defaulted. Its contract is carried by SnapshotFromLatestDate and SnapshotSingleRow |
| LatestSnapshot.TableOf | src/data_processor.py:125-127 | The per-category `select(struct.field(category)).unnest(category)`, one row per selected day row. Its contract is carried by SnapshotFromLatestDate and SnapshotSingleRow |
| LatestSnapshot.SnapshotOf | src/data_processor.py:113-131 | The snapshot. Its contract is carried by GetLatestProgressSnapshot (empty for an empty table, keys exactly the categories), SnapshotFromLatestDate and SnapshotSingleRow |
| LatestSnapshot.GetLatestProgressSnapshot | src/data_processor.py:113-131 | The loop fills the snapshot: empty for an empty table, otherwise keyed by exactly the configured categories |
| LatestSnapshot.SnapshotFromLatestDate | src/data_processor.py:117-129 | Every row of every category's table reads, without defaulting nulls, the values of a row whose date is the maximum |
| LatestSnapshot.SnapshotSingleRow | src/data_processor.py:117-129 | On a deduplicated table, each category's table is the single row of the latest day |
| LatestSnapshot.LatestSelectionExample | src/data_processor.py:117-122 | For dates 1, 3 and 2 January 2024, selection keeps only the 3 January row |
| Pipeline.Unpack3 | scripts/generate_plots.py:30 | Unpacking into three names succeeds exactly on a three-element result |
| Pipeline.LoadAndProcessDataAsWritten | src/data_processor.py:135-153 | The function as written, with the two-element result on the empty path. Its contract is carried by AsWrittenEmptyLoadBreaksUnpacking |
| Pipeline.ProcessedViews | src/data_processor.py:135-153 | The intended function, with three empty views on the empty path. Its contract is carried by ProcessedViewsUnpack, and LoadAndProcessData is proved equal to it |
| Pipeline.AsWrittenEmptyLoadBreaksUnpacking | src/data_processor.py:145-146 | As written, the caller's unpacking fails exactly when the loaded table is empty, for instance for a missing file |
| Pipeline.ProcessedViewsUnpack | src/data_processor.py:135-153 | With three empty views on the empty path, unpacking always succeeds. The caller's test "daily and progress empty" holds exactly when the log is missing, empty or unparseable, and the snapshot is then empty too |
| Pipeline.LoadAndProcessData | src/data_processor.py:135-153 | The three views are those of the one deduplicated table: D daily rows and D × categories × levels progress rows. The daily view is empty exactly when loading yields nothing |

## Left out

- Reading the log file, decoding JSON Lines and the `os.path.exists` test become the `Option<seq<LogRecord>>` parameter. Status messages printed to the console are not modelled.
- Polars' null `fetch_timestamp` for a record that lacks the key while other records have it is not modelled: every record carries a timestamp string.
- Timestamps.Parse: accepts only the strict shape (four-digit year, two-digit fields, an optional fraction of 1 to 9 digits). Polars' more lenient spellings and leap seconds are not modelled.
- A schema error when a field is absent from every record, and the error Polars raises on duplicate output column names (a configuration with repeated names), are not modelled. Lemmas that need distinct names require a well-formed configuration.
- LoadAndDeduplicateLogs: the output order of `unique` and the order of equal-timestamp rows are not promised. The model picks sorted order, and its lemmas state only what holds for any order.
- GetLatestProgressSnapshot: the final `.sort(by=LEVELS)` on each category's table is not modelled. Rows stay in table order, which is the same thing for the single row of a deduplicated table.
- GetLatestProgressSnapshot: each category's table holds a value for every configured level. Extra struct fields, and the column order of the unnested frame, are not modelled.
- Counters and percentages are integers. Float values, and Polars' integer widths, are not modelled.
- Appending to the log, the HTTP client, rendering and the script glue are not modelled. The script glue is covered only by the unpacking of the pipeline's result.

## Findings

| source | as written | input that shows it | evidently intended | confidence | as-written member | corrected member |
|---|---|---|---|---|---|---|
| src/data_processor.py:146 | `return pl.DataFrame(), pl.DataFrame(),` builds a tuple of two; the trailing comma adds no third element. The caller's `df_daily, df_progress, snapshots = ...` (scripts/generate_plots.py:30) then raises instead of reaching its "No data available" branch | a missing log file, an empty log, or a log with one timestamp that does not parse | three values: two empty frames and an empty snapshot dictionary | not executed | Pipeline.AsWrittenEmptyLoadBreaksUnpacking | Pipeline.ProcessedViewsUnpack |
