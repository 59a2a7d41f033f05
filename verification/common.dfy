/**
 * The notions both controllers share: the users' serial id, which gadgets
 * reference as their creator, the clock, and the catch-all error reply.
 */
module Common {
  /** A user id: the serial `users.id`, which `gadgets.created_by` references. */
  type UserId = int

  /** A timestamp in seconds, read from the clock parameter that stands in for `NOW()` and `Date.now()`. */
  type Time = nat

  /** The message of every handler's catch-all 500 reply. */
  const InternalError := "Internal server error"
}
