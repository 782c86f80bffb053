/**
 * The entities the reservation core works on: a row of the reservation table
 * and the authenticated user, plus the small option/result wrappers the other
 * modules use for absent values and for the errors the handlers raise.
 *
 * Timestamps are integers (an instant on some fixed clock, e.g. minutes since
 * an epoch); only their order matters. A user id stands for the account UUID.
 */
module Models {

  datatype Option<+T> = None | Some(value: T)

  /** A value or the error that replaced it (an exception in the source). */
  datatype Result<+T, +E> = Ok(value: T) | Err(error: E)

  /** A check that either passes or raises. */
  datatype Outcome<+E> = Pass | Fail(error: E)

  type UserId = int

  /**
   * One reservation row. `userId` is nullable in the table: rows written
   * before owners were tracked have none.
   */
  datatype Reservation = Reservation(
    id: int,
    fromReserve: int,
    toReserve: int,
    meetingroomId: int,
    userId: Option<UserId>)

  /** The authenticated caller. */
  datatype User = User(id: UserId, isSuperuser: bool)
}
