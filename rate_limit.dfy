// The per-email login rate limiter of the mock backend: a fixed 15-minute window,
// a lockout after five failures, and the record transitions `login` performs.

module RateLimit {
  import opened AuthTypes
  import opened Encoding

  /** Length of the counting window and of a lockout, in milliseconds. */
  const RATE_LIMIT_WINDOW: nat := 15 * 60 * 1000
  /** Failures after which the email is locked. */
  const MAX_ATTEMPTS: nat := 5
  const MS_PER_MINUTE: nat := 60000

  /** The attempt record kept per email; times are milliseconds since the epoch. */
  datatype LoginAttempt = LoginAttempt(count: nat, firstAttempt: nat, lockedUntil: Option<nat>)

  /**
   * What a stored record always satisfies: it was stored after at least one failure,
   * and it carries a lockout exactly when the failures reached the maximum.
   */
  predicate AttemptValid(a: LoginAttempt)
  {
    a.count >= 1 && (a.lockedUntil.Some? <==> a.count >= MAX_ATTEMPTS)
  }

  /** `loginAttempts[email] || { count: 0, firstAttempt: now }`. */
  function AttemptFor(attempts: map<string, LoginAttempt>, email: string, now: nat): LoginAttempt
  {
    if email in attempts then attempts[email] else LoginAttempt(0, now, None)
  }

  /** `attempt.lockedUntil && now < attempt.lockedUntil` (a zero lockout is falsy, and `now < 0` never holds). */
  predicate IsLocked(a: LoginAttempt, now: nat)
  {
    a.lockedUntil.Some? && now < a.lockedUntil.value
  }

  /** `Math.ceil((lockedUntil - now) / 60000)`: whole minutes left, rounded up. */
  function MinutesLeft(lockedUntil: nat, now: nat): (m: nat)
    requires now < lockedUntil
    ensures 1 <= m
    ensures (m - 1) * MS_PER_MINUTE < lockedUntil - now <= m * MS_PER_MINUTE
    ensures lockedUntil - now <= RATE_LIMIT_WINDOW ==> m <= 15
  {
    (lockedUntil - now + MS_PER_MINUTE - 1) / MS_PER_MINUTE
  }

  /** A window older than RATE_LIMIT_WINDOW starts afresh at `now`, without a lockout. */
  function WindowReset(a: LoginAttempt, now: nat): LoginAttempt
  {
    if now - a.firstAttempt > RATE_LIMIT_WINDOW then LoginAttempt(0, now, None) else a
  }

  /** `attempt.count++`, and a lockout of one window from `now` once the maximum is reached. */
  function RecordFailure(a: LoginAttempt, now: nat): LoginAttempt
  {
    var count := a.count + 1;
    LoginAttempt(count, a.firstAttempt, if count >= MAX_ATTEMPTS then Some(now + RATE_LIMIT_WINDOW) else a.lockedUntil)
  }

  /**
   * The record a failed, unlocked attempt stores: the count goes up by exactly one from
   * the (possibly reset) record, the window start is kept or moved to `now`, and a
   * lockout ending one window from `now` is set exactly when the maximum is reached.
   * A valid or missing record gives a valid one.
   */
  lemma FailureRecord(attempts: map<string, LoginAttempt>, email: string, now: nat)
    requires email in attempts ==> AttemptValid(attempts[email])
    ensures var a := AttemptFor(attempts, email, now);
      var reset := now - a.firstAttempt > RATE_LIMIT_WINDOW;
      var b := RecordFailure(WindowReset(a, now), now);
      && b.count == (if reset then 0 else a.count) + 1
      && b.firstAttempt == (if reset then now else a.firstAttempt)
      && (b.count >= MAX_ATTEMPTS ==> b.lockedUntil == Some(now + RATE_LIMIT_WINDOW))
      && (b.count < MAX_ATTEMPTS ==> b.lockedUntil == None)
      && AttemptValid(b)
  {
  }

  /** Once a lockout has passed and the window it closed has run out, the next attempt starts a fresh count. */
  lemma ExpiredLockResets(a: LoginAttempt, now: nat)
    requires a.lockedUntil.Some? && a.firstAttempt + RATE_LIMIT_WINDOW < a.lockedUntil.value
    requires a.lockedUntil.value <= now
    ensures !IsLocked(a, now)
    ensures WindowReset(a, now) == LoginAttempt(0, now, None)
  {
  }
}
