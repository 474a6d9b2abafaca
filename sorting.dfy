/**
 * Sorting a table ascending by a timestamp-valued column, as Polars'
 * `DataFrame.sort` does. Polars does not promise an order among rows with
 * equal keys; this insertion sort is one admissible choice, and nothing
 * else in the model depends on which.
 */
module Sorting {
  import opened Timestamps

  predicate SortedBy<T>(s: seq<T>, key: T -> Timestamp) {
    forall i, j :: 0 <= i < j < |s| ==> NotAfter(key(s[i]), key(s[j]))
  }

  /** No two rows share a key. */
  predicate KeysDistinct<T>(s: seq<T>, key: T -> Timestamp) {
    forall i, j :: 0 <= i < j < |s| ==> key(s[i]) != key(s[j])
  }

  function Insert<T>(x: T, s: seq<T>, key: T -> Timestamp): (r: seq<T>)
    ensures multiset(r) == multiset(s) + multiset{x}
  {
    if s == [] || NotAfter(key(x), key(s[0])) then [x] + s
    else
      assert s == [s[0]] + s[1..];
      [s[0]] + Insert(x, s[1..], key)
  }

  /** The rows of `s`, rearranged so that their keys ascend. */
  function SortBy<T>(s: seq<T>, key: T -> Timestamp): (r: seq<T>)
    ensures multiset(r) == multiset(s)
  {
    if s == [] then []
    else
      assert s == [s[0]] + s[1..];
      Insert(s[0], SortBy(s[1..], key), key)
  }

  lemma MembersOfSameMultiset<T>(a: seq<T>, b: seq<T>)
    requires multiset(a) == multiset(b)
    ensures |a| == |b|
    ensures forall y :: y in a <==> y in b
    ensures forall k :: 0 <= k < |a| ==> a[k] in b
  {
    assert |a| == |multiset(a)|;
    forall y ensures y in a <==> y in b {
      assert y in a <==> y in multiset(a);
      assert y in b <==> y in multiset(b);
    }
  }

  lemma {:induction false} InsertSorted<T>(x: T, s: seq<T>, key: T -> Timestamp)
    requires SortedBy(s, key)
    ensures SortedBy(Insert(x, s, key), key)
  {
    var r := Insert(x, s, key);
    if s == [] || NotAfter(key(x), key(s[0])) {
      forall i, j | 0 <= i < j < |r| ensures NotAfter(key(r[i]), key(r[j])) {
        if i == 0 {
          assert r[j] == s[j - 1];
          OrderFacts(key(x), key(s[0]), key(s[j - 1]));
        } else {
          assert r[i] == s[i - 1] && r[j] == s[j - 1];
        }
      }
    } else {
      var rest := Insert(x, s[1..], key);
      InsertSorted(x, s[1..], key);
      var pool := s[1..] + [x];
      MembersOfSameMultiset(rest, pool);
      assert r == [s[0]] + rest;
      forall i, j | 0 <= i < j < |r| ensures NotAfter(key(r[i]), key(r[j])) {
        if i == 0 {
          var y := rest[j - 1];
          assert y in rest;
          assert y in pool;
          if y == x {
            OrderFacts(key(x), key(s[0]), key(s[0]));
          } else {
            var k :| 0 <= k < |s[1..]| && s[1..][k] == y;
            assert s[k + 1] == y;
          }
        } else {
          assert r[i] == rest[i - 1] && r[j] == rest[j - 1];
        }
      }
    }
  }

  lemma {:induction false} InsertKeysDistinct<T>(x: T, s: seq<T>, key: T -> Timestamp)
    requires KeysDistinct(s, key)
    requires forall y :: y in s ==> key(y) != key(x)
    ensures KeysDistinct(Insert(x, s, key), key)
  {
    var r := Insert(x, s, key);
    if s == [] || NotAfter(key(x), key(s[0])) {
      forall i, j | 0 <= i < j < |r| ensures key(r[i]) != key(r[j]) {
        assert r[j] == s[j - 1];
        if i > 0 { assert r[i] == s[i - 1]; }
      }
    } else {
      var rest := Insert(x, s[1..], key);
      assert forall y :: y in s[1..] ==> y in s;
      InsertKeysDistinct(x, s[1..], key);
      var pool := s[1..] + [x];
      MembersOfSameMultiset(rest, pool);
      assert r == [s[0]] + rest;
      forall i, j | 0 <= i < j < |r| ensures key(r[i]) != key(r[j]) {
        if i == 0 {
          var y := rest[j - 1];
          assert y in rest;
          assert y in pool;
          if y != x {
            var k :| 0 <= k < |s[1..]| && s[1..][k] == y;
            assert s[k + 1] == y;
          }
        } else {
          assert r[i] == rest[i - 1] && r[j] == rest[j - 1];
        }
      }
    }
  }

  /** Sorting keeps exactly the rows it was given and leaves them in ascending key order. */
  lemma {:induction false} SortByCorrect<T>(s: seq<T>, key: T -> Timestamp)
    ensures |SortBy(s, key)| == |s|
    ensures forall y :: y in SortBy(s, key) ==> y in s
    ensures forall y :: y in s ==> y in SortBy(s, key)
    ensures SortedBy(SortBy(s, key), key)
  {
    MembersOfSameMultiset(SortBy(s, key), s);
    if s != [] {
      SortByCorrect(s[1..], key);
      InsertSorted(s[0], SortBy(s[1..], key), key);
    }
  }

  /** Sorting rows whose keys are pairwise distinct leaves them pairwise distinct. */
  lemma {:induction false} SortByKeysDistinct<T>(s: seq<T>, key: T -> Timestamp)
    requires KeysDistinct(s, key)
    ensures KeysDistinct(SortBy(s, key), key)
  {
    if s != [] {
      var rest := SortBy(s[1..], key);
      SortByKeysDistinct(s[1..], key);
      SortByCorrect(s[1..], key);
      forall y | y in rest ensures key(y) != key(s[0]) {
        assert y in s[1..];
        var k :| 0 <= k < |s[1..]| && s[1..][k] == y;
        assert s[k + 1] == y;
      }
      InsertKeysDistinct(s[0], rest, key);
    }
  }
}
