/** Result shapes shared by the container's operations. */
module Outcomes {

  /** Rust's `Option`: what `get` and the iterator hand back. */
  datatype Option<T> = None | Some(value: T)

  /** The reasons for which the container panics on purpose. */
  datatype Panic =
    | TypeMismatch       // `assert_eq!(TypeId::of::<T>(), self.element_type)` failed
    | PopOnEmpty         // `pop` on a vector of length 0
    | IndexOutOfBounds   // `remove` with `index >= len`

  /** A call either finishes with a value or panics; a panic leaves the container as it was. */
  datatype Outcome<T> = Done(value: T) | Panicked(reason: Panic)
}
