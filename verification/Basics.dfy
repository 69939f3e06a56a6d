/** What several parts share: an optional value, picking from a set, powers of two. */
module Basics {

  datatype Option<+T> = None | Some(value: T)

  /** Some element of a non-empty set, for loops over a collection in an order that does not matter. */
  method AnyOf<T(==)>(s: set<T>) returns (x: T)
    requires s != {}
    ensures x in s
  {
    x :| x in s;
  }

  ghost function Some1<T>(s: set<T>): (x: T)
    requires s != {}
    ensures x in s
  {
    var x :| x in s;
    x
  }

  function Pow2(n: nat): (p: nat)
    ensures p > n
  {
    if n == 0 then 1 else 2 * Pow2(n - 1)
  }
}
