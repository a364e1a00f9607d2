// Sequence helpers shared by several components.

module Sequences {

  function Concat<T>(parts: seq<seq<T>>): seq<T> {
    if parts == [] then [] else parts[0] + Concat(parts[1..])
  }

  // The first element with the given key, or the length when there is none.
  function IndexOf<T, K(==)>(s: seq<T>, keyOf: T -> K, key: K): (i: nat)
    ensures i <= |s| && (i < |s| ==> keyOf(s[i]) == key)
    ensures forall j :: 0 <= j < i ==> keyOf(s[j]) != key
  {
    if s == [] || keyOf(s[0]) == key then 0 else 1 + IndexOf(s[1..], keyOf, key)
  }
}
