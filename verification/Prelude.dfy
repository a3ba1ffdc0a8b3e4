/** Shared value types. */
module Prelude {

  datatype Option<+T> = None | Some(value: T)

  datatype Result<+T> = Ok(result: T) | Err(message: string)

  /** The items of a set, each once, in some order: what a walk over a map or an unordered SELECT sees. */
  ghost predicate Enumerates<T(!new)>(order: seq<T>, items: set<T>) {
    && (forall x :: x in order <==> x in items)
    && (forall i, j :: 0 <= i < j < |order| ==> order[i] != order[j])
  }
}
