/** The immutable cooldown record (models/Cooldown.java, typed as in the database layer). */
module Cooldowns {

  datatype CooldownType = Buy | Open

  /**
   * A cooldown of one kind on one chest in one storage context. The player it belongs to
   * is the key under which it is stored. Times are whole seconds.
   */
  datatype Cooldown = Cooldown(context: string, kind: CooldownType, chest: string, expiresAt: int)

  /** `isExpired`: the current time is strictly after the expiry. */
  predicate IsExpired(c: Cooldown, now: int)
  {
    now > c.expiresAt
  }

  /** Whole seconds from `now` to the expiry, as `Duration.between(now, expiresAt).abs()`. */
  function SecondsLeft(c: Cooldown, now: int): (r: nat)
    ensures !IsExpired(c, now) ==> now + r == c.expiresAt
    ensures IsExpired(c, now) ==> now - r == c.expiresAt
  {
    if c.expiresAt >= now then c.expiresAt - now else now - c.expiresAt
  }

  /** At the expiry instant itself a cooldown is still running. */
  lemma NotExpiredAtExpiry(c: Cooldown)
    ensures !IsExpired(c, c.expiresAt)
  {
  }

  /** Expiry is monotone in time: once expired, a cooldown stays expired. */
  lemma ExpiryIsMonotone(c: Cooldown, t: int, t': int)
    requires t <= t' && IsExpired(c, t)
    ensures IsExpired(c, t')
  {
  }

  /** A remaining time read from the store refuses the action when it is positive, unless the player may bypass it. */
  predicate CooldownBlocks(remaining: int, bypass: bool)
  {
    remaining > 0 && !bypass
  }
}
