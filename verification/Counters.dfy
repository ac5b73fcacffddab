/** Dictionaries of counts, where a missing key counts zero. */
module Counters {
  function Get<K>(counts: map<K, nat>, key: K): nat {
    if key in counts then counts[key] else 0
  }

  /** A counter with one more for each of these keys. */
  function Bumped<K(!new)>(counts: map<K, nat>, keys: set<K>): (bumped: map<K, nat>)
    ensures forall k :: Get(bumped, k) == Get(counts, k) + if k in keys then 1 else 0
  {
    map k | k in counts.Keys + keys :: Get(counts, k) + if k in keys then 1 else 0
  }
}
