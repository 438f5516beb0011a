/** Failure-carrying results shared by every handler of the ledger.

    Each Express handler either commits its writes or answers with an error
    status; here that is `Ok(new state)` or `Err(reason)`, and an `Err` means
    the handler's transaction wrote nothing.
 */
module Outcomes {

  datatype Option<+T> = None | Some(value: T)

  /** The reasons a handler refuses a request, one per distinct error answer. */
  datatype Error =
    | MissingFields                 // a required registration field is empty
    | InvalidGrNumber               // parseInt of the GR number gave NaN
    | CardDrawsExhausted            // every supplied random draw was already in use
    | GrOutOfRange                  // the GR number does not fit the INTEGER column
    | DuplicateActiveCard           // the GR number already has an active card
    | NotFound                      // student, store or settlement row absent
    | ConflictingActiveCard         // another card of the same GR number is active
    | InvalidParameters             // settlement request without store id or positive amount
    | InvalidAmount                 // missing or non-positive amount
    | ExceedsPending(available: int)        // more than the store's pending amount
    | InvalidState                  // settlement edited outside `requested`
    | ExceedsMaxAllowed(maximum: int)       // more than original + remaining pending
    | ExceedsStorePending(pending: int)     // more than the store's pending amount (edit)
    | AlreadyCompleted              // payment on a completed settlement
    | ExceedsRemaining              // payment above total - settled
    | ForeignKeyViolation           // a kept row still refers to a deleted one

  datatype Result<+T> = Ok(value: T) | Err(error: Error)
}
