/**
 * Instants of time.Time as a count of nanoseconds since Go's zero time,
 * 0001-01-01T00:00:00 UTC. The zero Time is then 0, and t.UTC() changes only
 * the location, never the instant, so it is the identity here.
 */
module Instants {

  type Instant = nat

  const ZeroInstant: Instant := 0

  const NanosPerSecond: nat := 1_000_000_000

  predicate IsZero(t: Instant) {
    t == ZeroInstant
  }

  /** t.Truncate(time.Second): t rounded down to a whole second since the zero time. */
  function Truncate(t: Instant): (r: Instant)
    ensures r % NanosPerSecond == 0
    ensures r <= t < r + NanosPerSecond
  {
    t - t % NanosPerSecond
  }

  /** The whole second at or before t is the only one within a second of it. */
  lemma TruncateUnique(t: Instant, r: Instant)
    requires r % NanosPerSecond == 0 && r <= t < r + NanosPerSecond
    ensures r == Truncate(t)
  {
    assert r / NanosPerSecond == t / NanosPerSecond;
  }

  /** Truncating twice is truncating once. */
  lemma TruncateIdempotent(t: Instant)
    ensures Truncate(Truncate(t)) == Truncate(t)
  {
    TruncateUnique(Truncate(t), Truncate(t));
  }
}
