/** Shared vocabulary of the order-service model: identifiers, instants, money,
    optional values, and the outcome of one repository call. */
module Common {

  /** An opaque entity identifier (a GUID in the service). */
  type Id = nat

  /** An opaque point in time; the model only compares instants. */
  type Instant = int

  /** An amount of money in minor units (cents); the service stores decimal(18,2). */
  type Money = int

  /** A value that may be absent: a nullable column or a `null` return. */
  datatype Option<+T> = None | Some(value: T)

  /** The exceptions a repository call can raise. */
  datatype Failure =
    | KeyNotFound       // KeyNotFoundException: the id names no row
    | InvalidOperation  // InvalidOperationException: a status guard refused the call
    | DuplicateKey      // the persistence layer refuses a second row under an existing key

  /** One repository call taken as an atomic step: either it completes, leaving
      the store `store` and returning `value`, or it throws and nothing is saved. */
  datatype Outcome<S, T> = Ok(store: S, value: T) | Threw(failure: Failure)
}
