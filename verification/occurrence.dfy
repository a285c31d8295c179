/** The occurrence allocator: a multiset difference between a file and the store, one row at a time. */
module Occurrences {
  import opened Sequences

  // How many rows the store holds for a key, and the largest occurrence in use (-1 when there is none).
  datatype Known = Known(count: nat, maxOccurrence: int)

  const UNKNOWN := Known(0, -1)

  /** The answer to the `seen`-th request for a key: the first `count` copies are already stored. */
  function Ordinal(known: Known, seen: nat): Option<int> {
    if seen <= known.count then None else Some(known.maxOccurrence + (seen - known.count))
  }

  function Lookup<K(==)>(existing: map<K, Known>, key: K): Known {
    if key in existing then existing[key] else UNKNOWN
  }

  class OccurrenceAllocator<K(==,!new)> {
    const existing: map<K, Known>
    var seen: map<K, nat>
    ghost var requests: seq<K>

    ghost predicate Valid()
      reads this
    {
      forall key :: multiset(requests)[key] == if key in seen then seen[key] else 0
    }

    constructor (existing: map<K, Known>)
      ensures Valid() && this.existing == existing && requests == []
    {
      this.existing, this.seen, this.requests := existing, map[], [];
    }

    /** The tally moves on every call, whatever the caller then does with the answer. */
    method Allocate(key: K) returns (occurrence: Option<int>)
      requires Valid()
      modifies this
      ensures Valid() && requests == old(requests) + [key]
      ensures occurrence == Ordinal(Lookup(existing, key), multiset(requests)[key])
    {
      var known := if key in existing then existing[key] else UNKNOWN;
      var tally := (if key in seen then seen[key] else 0) + 1;
      seen := seen[key := tally];
      requests := requests + [key];
      if tally <= known.count {
        return None;
      }
      return Some(known.maxOccurrence + (tally - known.count));
    }
  }
}
