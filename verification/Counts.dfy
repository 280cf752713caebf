/** Counting tables: a map that holds the keys with a positive count only. */
module Counts {
  function CountOf<K(==)>(counts: map<K, int>, key: K): int {
    if key in counts then counts[key] else 0
  }

  /** One less for key, which goes when nothing is left. */
  function CountsWithout<K(==)>(counts: map<K, int>, key: K): map<K, int> {
    var left := CountOf(counts, key) - 1;
    if left <= 0 then counts - {key} else counts[key := left]
  }
}
