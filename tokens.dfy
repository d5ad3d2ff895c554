/**
 * RandomToken.is_expired (quark/base/models.py). Instants are integers on
 * one timeline, for example microseconds since the epoch; the clock reading
 * `timezone.now()` is the parameter `now`.
 */
module Tokens {

  /** A token is expired once its expiration instant lies strictly before now. */
  predicate IsExpired(expirationDate: int, now: int) {
    expirationDate < now
  }

  /**
   * A token is still valid at its expiration instant itself, and once
   * expired it stays expired as the clock moves forward.
   */
  lemma ExpiryIsStrictAndPermanent(expirationDate: int, now: int, later: int)
    ensures !IsExpired(expirationDate, expirationDate)
    ensures IsExpired(expirationDate, now) && now <= later ==> IsExpired(expirationDate, later)
    ensures !IsExpired(expirationDate, now) <==> now <= expirationDate
  {
  }
}
