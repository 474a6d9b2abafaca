/**
 * `load_and_process_data`: load and deduplicate, then derive the daily
 * view, the long progress view and the latest snapshot from the same
 * deduplicated table. Its caller unpacks the result into three names.
 */
module Pipeline {
  import opened Optional
  import opened Tables
  import opened Settings
  import opened Deduplication
  import opened DailyActivity
  import opened LevelProgress
  import opened LatestSnapshot

  /** The three views, as the caller's three-name unpacking receives them. */
  datatype Views = Views(daily: seq<DailyRow>, progress: seq<ProgressRow>, snapshots: Snapshot)

  /** A Python tuple of the arity the function actually returns. */
  datatype Returned =
    | Two(first: seq<DailyRow>, second: seq<ProgressRow>)
    | Three(views: Views)

  /** `a, b, c = returned`: a tuple of any other length raises instead of binding. */
  function Unpack3(r: Returned): (v: Option<Views>)
    ensures v.Some? <==> r.Three?
    ensures r.Three? ==> v == Some(r.views)
  {
    match r
    case Two(_, _) => None
    case Three(views) => Some(views)
  }

  /**
   * The function as written: on the empty path `return pl.DataFrame(), pl.DataFrame(),`
   * builds a tuple of two (the trailing comma adds no element).
   */
  function LoadAndProcessDataAsWritten(cfg: Config, log: Option<seq<LogRecord>>): Returned {
    var table := LoadAndDeduplicateLogs(log);
    if table == [] then Two([], [])
    else Three(Views(ExtractDailyActivityMetrics(table), LongView(cfg, table), SnapshotOf(cfg, table)))
  }

  /**
   * As written, the caller's unpacking fails exactly when the loaded table is
   * empty: for a missing file, an empty file, or a timestamp that does not
   * parse, so the caller's "no data" message is never reached.
   */
  lemma AsWrittenEmptyLoadBreaksUnpacking(cfg: Config, log: Option<seq<LogRecord>>)
    ensures Unpack3(LoadAndProcessDataAsWritten(cfg, log)).None? <==> LoadAndDeduplicateLogs(log) == []
    ensures log.None? ==> Unpack3(LoadAndProcessDataAsWritten(cfg, log)).None?
  {
    LoadFailsWhole(log);
  }

  /** The three views of a log, with the empty path returning three empty values. */
  function ProcessedViews(cfg: Config, log: Option<seq<LogRecord>>): Views {
    var table := LoadAndDeduplicateLogs(log);
    if table == [] then Views([], [], map[])
    else Views(ExtractDailyActivityMetrics(table), LongView(cfg, table), SnapshotOf(cfg, table))
  }

  /**
   * The corrected pipeline: the caller's unpacking always succeeds, and its
   * emptiness test on the first two views detects precisely an input that
   * yields no rows; then the snapshot is empty as well.
   */
  lemma ProcessedViewsUnpack(cfg: Config, log: Option<seq<LogRecord>>)
    ensures Unpack3(Three(ProcessedViews(cfg, log))) == Some(ProcessedViews(cfg, log))
    ensures ProcessedViews(cfg, log).daily == [] && ProcessedViews(cfg, log).progress == []
        <==> !(log.Some? && log.value != [] && AllParse(log.value))
    ensures ProcessedViews(cfg, log).daily == [] ==> ProcessedViews(cfg, log).snapshots == map[]
  {
    LoadFailsWhole(log);
  }

  /**
   * The pipeline as a method: the three views of the one deduplicated table,
   * each as its own operation defines it.
   */
  method LoadAndProcessData(cfg: Config, log: Option<seq<LogRecord>>)
    returns (daily: seq<DailyRow>, progress: seq<ProgressRow>, snapshots: Snapshot)
    ensures Views(daily, progress, snapshots) == ProcessedViews(cfg, log)
    ensures |daily| == |LoadAndDeduplicateLogs(log)|
    ensures |progress| == |LoadAndDeduplicateLogs(log)| * |cfg.categories| * |cfg.levels|
    ensures daily == [] <==> !(log.Some? && log.value != [] && AllParse(log.value))
  {
    LoadFailsWhole(log);
    var deduplicated := LoadAndDeduplicateLogs(log);
    if |deduplicated| == 0 {
      return [], [], map[];
    }
    daily := ExtractDailyActivityMetrics(deduplicated);
    progress := ExtractLevelProgressMetrics(cfg, deduplicated);
    snapshots := GetLatestProgressSnapshot(cfg, deduplicated);
  }
}
