/** Failure-carrying result types shared by every module of the model. */
module Wrappers {

  /** A value that may be absent: Python's `X | None`. */
  datatype Option<+T> = None | Some(value: T)

  /** The outcome of an operation that either returns a value or raises an error. */
  datatype Result<+R, +E> = Success(value: R) | Failure(error: E)

  /** The outcome of a check that returns nothing or raises an error. */
  datatype Outcome<+E> = Pass | Fail(error: E)
}

/** The application's error taxonomy (src/core/errors.py), each carrying its message. */
module Errors {

  datatype AppError =
    | BusinessError(message: string)
    | NotFoundError(message: string)
    | ForbiddenError(message: string)

  const OutsideWorkingHours := "Requested time is outside of working hours"
  const InThePast := "Booking time cannot be in the past"
  const TooFarAhead := "Booking date is too far in the future"
  const NotAligned := "Booking time must align to the slot minutes"
  const TableNotAvailable := "Table is not available for the selected time"
  const CancelTooLate := "Booking cannot be canceled less than 1 hour before start"
  const BookingNotFound := "Booking not found"
  const TableNotFound := "Table not found"
  const CannotModify := "You cannot modify this booking"
  const CannotCancel := "You cannot cancel this booking"
}
