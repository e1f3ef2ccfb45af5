/** Small helper types shared by every layer of the domain model. */
module Wrappers {

  /** An optional value (Python's `Optional[T]`, `None` or a value). */
  datatype Option<+T> = None | Some(value: T)

  /** Python's truth value of an optional string: present and not empty. */
  predicate Truthy(o: Option<string>) {
    o.Some? && o.value != ""
  }

  /** `x if x is not None else current`: the argument when one was given. */
  function ValueOr<T>(o: Option<T>, current: T): T {
    if o.Some? then o.value else current
  }
}

/**
 * Timestamps. The domain reads the wall clock (`datetime.now()`) when it
 * creates or mutates an entity; here the reading is passed in by the caller.
 */
module Clock {

  type Instant = int
}
