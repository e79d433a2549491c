/** What the models share: optional and fallible results, and the order of a hash map. */
module Wrappers {
  datatype Option<+T> = None | Some(value: T)

  datatype Result<+T, +E> = Ok(value: T) | Err(error: E)

  /** `order` lists the keys of a hash map, each once, as some iteration over it does. */
  ghost predicate Enumerates<T(!new)>(order: seq<T>, keys: set<T>) {
    && (forall k :: k in order <==> k in keys)
    && Distinct(order)
  }

  ghost predicate Distinct<T>(order: seq<T>) {
    forall i, j :: 0 <= i < j < |order| ==> order[i] != order[j]
  }

  /** How an atomic write of a file goes: it fails and leaves the old file, or it fails
      when the new one has replaced it already (crates/abigail-core/src/secure_fs.rs). */
  datatype AtomicWrite = Done | Kept | Replaced
}
