/** The normalised exit record shared by every proxy source. */
module ProxyRecord {
  import opened Wrappers

  /** Milliseconds since the epoch; the refresh interval may be fractional. */
  type Time = real
  type Id = string

  datatype Stability = Fixed | UntilExpiry

  /** `expiresAt` is `None` when the provider gave no trustworthy expiry. */
  datatype Exit = Exit(
    id: Id,
    server: string,
    stability: Stability,
    username: Option<string>,
    password: Option<string>,
    expiresAt: Option<Time>,
    sourceId: string)

  /** Fewer than `minRemaining` milliseconds of life are left. */
  predicate TooShort(exit: Exit, now: Time, minRemaining: Time) {
    exit.expiresAt.Some? && exit.expiresAt.value - now < minRemaining
  }

  predicate Expired(exit: Exit, now: Time) {
    exit.expiresAt.Some? && exit.expiresAt.value <= now
  }
}
