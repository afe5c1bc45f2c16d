/** Names shared by the scheduler and the worker. */
module Common {
  type PeerId = nat

  const SECOND: nat := 1_000_000_000   // times are in nanoseconds

  /** How long an offer holds its lease, and how long each renewal extends it. */
  const OFFER_TIMEOUT: nat := 10 * SECOND
  const LEASE_TIMEOUT: nat := 180 * SECOND
}
