/**
  Session expiry. Instants are `DateTime` tick counts (100 ns units); the
  session lifetime is configured in whole minutes.
 */
module Expiry {

  /** Ticks in one minute: 60 s of 10,000,000 ticks each. */
  const TicksPerMinute: int := 600_000_000

  /** The expiry instant set by a refresh at `now`. */
  function ExpiryAfter(now: int, minutes: int): int {
    now + minutes * TicksPerMinute
  }

  /** A session is expired once its expiry instant is strictly before `now`. */
  predicate IsExpired(expire: int, now: int) {
    expire < now
  }

  /**
    Right after a refresh with a positive lifetime the session is live, and it
    is expired at exactly the instants later than the lifetime allows.
   */
  lemma RefreshedExpiry(now: int, minutes: int, t: int)
    requires minutes > 0
    ensures !IsExpired(ExpiryAfter(now, minutes), now)
    ensures IsExpired(ExpiryAfter(now, minutes), t) <==> t > now + minutes * TicksPerMinute
  {
  }

  /** Without a refresh, an expired session stays expired as time goes on. */
  lemma ExpiredStaysExpired(expire: int, t: int, t': int)
    requires IsExpired(expire, t) && t <= t'
    ensures IsExpired(expire, t')
  {
  }
}
