/**
 * The column alias "{category}_{level}" built for every (category, level)
 * pair, and Polars' `str.split_exact("_", 1)` that takes it apart again:
 * the string is cut at every underscore and the first two pieces are kept,
 * the second being null when there is no underscore at all.
 */
module Aliases {
  import opened Optional

  function Alias(category: string, level: string): (a: string)
    ensures |a| == |category| + 1 + |level|
  {
    category + "_" + level
  }

  /** The text of `s` up to (not including) its first underscore. */
  function Prefix(s: string): (p: string)
    ensures '_' !in p
    ensures |p| <= |s| && p == s[..|p|]
    ensures |p| < |s| <==> '_' in s
    ensures |p| < |s| ==> s[|p|] == '_'
  {
    if s == [] || s[0] == '_' then [] else [s[0]] + Prefix(s[1..])
  }

  datatype Fields = Fields(field0: string, field1: Option<string>)

  /** Polars' `split_exact("_", 1)` on a non-null string. */
  function SplitExact1(s: string): (f: Fields)
  {
    var head := Prefix(s);
    if |head| == |s| then Fields(s, None)
    else Fields(head, Some(Prefix(s[|head| + 1..])))
  }

  lemma {:induction false} PrefixOfUnderscoreFree(a: string, b: string)
    requires '_' !in a
    ensures Prefix(a + "_" + b) == a
  {
    if a != [] {
      assert (a + "_" + b)[0] == a[0];
      assert (a + "_" + b)[1..] == a[1..] + "_" + b;
      PrefixOfUnderscoreFree(a[1..], b);
    } else {
      assert (a + "_" + b)[0] == '_';
    }
  }

  lemma {:induction false} PrefixWhole(s: string)
    requires '_' !in s
    ensures Prefix(s) == s
  {
    if s != [] {
      assert s[0] != '_';
      assert '_' !in s[1..] by {
        forall k | 0 <= k < |s[1..]| ensures s[1..][k] != '_' { assert s[1..][k] == s[k + 1]; }
      }
      PrefixWhole(s[1..]);
    }
  }

  /**
   * The alias round trip holds exactly when neither name contains an
   * underscore: then the split yields the category and the level back;
   * otherwise one of the two comes back wrong.
   */
  lemma {:induction false} SplitAliasRoundTrip(category: string, level: string)
    ensures SplitExact1(Alias(category, level)) == Fields(category, Some(level))
        <==> '_' !in category && '_' !in level
  {
    var a := Alias(category, level);
    if '_' !in category {
      PrefixOfUnderscoreFree(category, level);
      assert |Prefix(a)| < |a|;
      assert a[|category| + 1..] == level;
      if '_' in level {
        assert |Prefix(level)| < |level|;
      } else {
        PrefixWhole(level);
      }
    } else {
      var k :| 0 <= k < |category| && category[k] == '_';
      assert a[k] == '_';
      var p := Prefix(a);
      assert |p| <= k;
      assert p != category;
    }
  }
}
