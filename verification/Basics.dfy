/** What every part of the model uses. */
module Basics {

  datatype Option<+T> = None | Some(value: T)

  predicate IsDigit(c: char) { '0' <= c <= '9' }

  predicate IsPrefix<T(==)>(a: seq<T>, b: seq<T>) { |a| <= |b| && b[..|a|] == a }

  function ToSet<T>(items: seq<T>): set<T> { set x | x in items }
}
