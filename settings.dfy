/**
 * The fixed study configuration: the category keys of CATEGORIES, in
 * declaration order, and the JLPT levels of LEVELS, from n5 to n1.
 */
module Settings {

  /** An ordered configuration, passed to every extraction step. */
  datatype Config = Config(categories: seq<string>, levels: seq<string>)

  /** The repository's configuration. */
  const Default: Config :=
    Config(["vocab", "grammar", "kanji", "sent"], ["n5", "n4", "n3", "n2", "n1"])

  predicate Distinct<T(==)>(s: seq<T>) {
    forall i, j :: 0 <= i < j < |s| ==> s[i] != s[j]
  }

  predicate UnderscoreFree(s: string) {
    '_' !in s
  }

  /**
   * What the reshaping step silently relies on: names are distinct (they
   * become column names) and contain no underscore (the column name
   * "category_level" is split on one).
   */
  predicate WellFormed(cfg: Config) {
    && Distinct(cfg.categories)
    && Distinct(cfg.levels)
    && (forall i :: 0 <= i < |cfg.categories| ==> UnderscoreFree(cfg.categories[i]))
    && (forall j :: 0 <= j < |cfg.levels| ==> UnderscoreFree(cfg.levels[j]))
  }

  lemma DefaultWellFormed()
    ensures WellFormed(Default)
    ensures |Default.categories| == 4 && |Default.levels| == 5
  {
  }
}
