/** What several components share. */
module Wrappers {
  datatype Option<+T> = None | Some(value: T) {
    function GetOr(default: T): T {
      if Some? then value else default
    }
  }

  /** Python's `part in whole` on strings. */
  predicate IsPart(part: string, whole: string) {
    exists i :: 0 <= i <= |whole| && part <= whole[i..]
  }

  lemma PartIs(part: string, whole: string)
    ensures IsPart(part, whole) <==> exists a, b :: whole == a + part + b
  {
    if IsPart(part, whole) {
      var i :| 0 <= i <= |whole| && part <= whole[i..];
      assert whole == whole[..i] + part + whole[i + |part|..];
    }
    if a, b :| whole == a + part + b {
      assert part <= whole[|a|..];
    }
  }

  lemma SubsetSize<T>(a: set<T>, b: set<T>)
    requires a <= b
    ensures |a| <= |b|
  {
    assert b == a + (b - a);
  }

  /** The values of a set of keys, added up in some order. */
  ghost function Fold<K, T>(keys: set<K>, value: K -> T, add: (T, T) -> T, zero: T): T {
    if keys == {} then zero
    else
      var k :| k in keys;
      add(value(k), Fold(keys - {k}, value, add, zero))
  }

  /** When the additions commute, the order does not matter. */
  lemma {:induction false} FoldRemove<K, T>(keys: set<K>, value: K -> T, add: (T, T) -> T, zero: T, k: K)
    requires k in keys
    requires forall a, b, c :: add(a, add(b, c)) == add(b, add(a, c))
    ensures Fold(keys, value, add, zero) == add(value(k), Fold(keys - {k}, value, add, zero))
    decreases |keys|
  {
    var first :| first in keys
              && Fold(keys, value, add, zero) == add(value(first), Fold(keys - {first}, value, add, zero));
    if first == k {
    } else {
      FoldRemove(keys - {first}, value, add, zero, k);
      FoldRemove(keys - {k}, value, add, zero, first);
      assert keys - {first} - {k} == keys - {k} - {first};
      Commute(add, value(first), value(k), Fold(keys - {k} - {first}, value, add, zero));
    }
  }

  lemma Commute<T>(add: (T, T) -> T, a: T, b: T, c: T)
    requires forall a, b, c :: add(a, add(b, c)) == add(b, add(a, c))
    ensures add(a, add(b, c)) == add(b, add(a, c))
  {
  }
}
