/**
 * Shared vocabulary of the model: bytes, optional values, and the errors the
 * shared-container code raises (as exceptions in the original).
 */
module Basics {

  /** One byte of a shared-memory segment. */
  type byte = x: int | 0 <= x < 256

  datatype Option<+T> = None | Some(value: T)

  /** The exceptions the protocol raises, one constructor per distinct cause. */
  datatype Error =
    | MissingValue        // create requested without an initial value
    | UnsupportedKind     // the initial value is not one of the six container kinds
    | DescriptorTooLarge  // the kind descriptor does not fit the control block
    | NotFound            // no segment of that name exists
    | AlreadyExists       // a segment of that name already exists
    | InvalidSize         // a segment of size zero was requested
    | NoNewSnapshot       // unforced reload without a newer snapshot counter
    | StorageExhausted    // no unused segment name is left
    | Overflow            // a 4-byte field cannot hold the value
    | Corrupt             // shared bytes do not decode
    | HandleClosed        // the handle's views into the control block were released
    | TypeError
    | ValueError
    | IndexError
    | KeyError
    | AttributeError      // the mirror's kind has no such method

  datatype Result<+T> = Ok(value: T) | Err(error: Error)

  datatype Outcome = Pass | Fail(error: Error)
}
