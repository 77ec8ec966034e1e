/**
 * What a conversion can end in. Every failure in these conversions is a Rust panic
 * (`expect`, `assert_eq!`, `unwrap`); the model returns it as a value so that the
 * failing inputs can be stated and proved rather than excluded.
 */
module Outcomes {

  datatype Option<T> = None | Some(value: T)

  /** The panics raised by the conversions, one constructor per panic site kind. */
  datatype Panic =
    | NegativeStride                                   // expect("Negative stride")
    | NegativeRowStride                                // expect("can only convert positive row stride to nalgebra")
    | NegativeColStride                                // expect("can only convert positive col stride to nalgebra")
    | ChannelCountMismatch(found: nat, expected: nat)  // assert_eq!(c, expected)
    | UnwrapFailed                                     // unwrap() on a None or an Err

  datatype Result<T> = Ok(value: T) | Err(panic: Panic)
}
