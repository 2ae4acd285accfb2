// Properties of sequences of calls: duplicate sign-up, sign-up then login, the
// lock -> expiry -> unlock cycle of the rate limiter, the second-factor flow, the
// federated login's find-or-create, and that a failed login does not reveal accounts.

module Scenarios {
  import opened AuthTypes
  import opened Encoding
  import opened Lookup
  import opened RateLimit
  import opened AuthSpec
  import Invariants

  /** A second registration with the same email is refused, and the email stays on exactly one account. */
  lemma RegisterTwiceConflicts(s: Store, email: string, password: string, fullName: string,
                               phone: Option<string>, id: string, createdAt: string,
                               password2: string, fullName2: string, phone2: Option<string>,
                               id2: string, createdAt2: string)
    requires Consistent(s)
    requires EmailIndex(s.users, email).None?
    ensures var first := AuthSpec.Register(s, email, password, fullName, phone, id, createdAt);
      var second := AuthSpec.Register(first.store, email, password2, fullName2, phone2, id2, createdAt2);
      && first.response.success
      && second == Outcome(first.store, [], Failed(EMAIL_TAKEN))
      && FindByEmail(second.store.users, email) == first.response.data
      && forall i, j :: 0 <= i < j < |second.store.users| ==>
           second.store.users[i].email != second.store.users[j].email
  {
    var u := NewUser(email, password, fullName, phone, id, createdAt);
    SaveNewEmail(s.users, u);
  }

  /**
   * After a successful registration, and while the email is not locked, a password
   * login succeeds exactly for the registered password, without a second factor.
   */
  lemma RegisterThenLogin(s: Store, email: string, password: string, fullName: string,
                          phone: Option<string>, id: string, createdAt: string,
                          attempt: string, now: nat, nonce: string)
    requires Consistent(s)
    requires EmailIndex(s.users, email).None?
    requires !IsLocked(AttemptFor(s.attempts, email, now), now)
    ensures var registered := AuthSpec.Register(s, email, password, fullName, phone, id, createdAt);
      var login := AuthSpec.Login(registered.store, email, attempt, now, nonce);
      && (login.response.success <==> attempt == password)
      && (login.response.success ==>
            && login.response.data.value.user == registered.response.data.value
            && !login.response.data.value.requireMfa
            && email !in login.store.attempts)
  {
    var u := NewUser(email, password, fullName, phone, id, createdAt);
    SaveNewEmail(s.users, u);
    EncodeInjective(attempt, password);
  }

  /** A login try: the password typed, the clock reading, the token's random characters. */
  datatype Try = Try(password: string, now: nat, nonce: string)

  /** The state after the given login tries for one email, oldest first. */
  function Replay(s: Store, email: string, tries: seq<Try>): Store
    decreases |tries|
  {
    if tries == [] then s
    else
      var last := tries[|tries| - 1];
      AuthSpec.Login(Replay(s, email, tries[..|tries| - 1]), email, last.password, last.now, last.nonce).store
  }

  /** The tries fail on credentials and all fall within one window of the first. */
  predicate FailingWithinWindow(users: seq<User>, email: string, tries: seq<Try>)
  {
    && tries != []
    && (forall k :: 0 <= k < |tries| ==> !CredentialsMatch(users, email, tries[k].password))
    && (forall k :: 0 <= k < |tries| ==> tries[k].now <= tries[0].now + RATE_LIMIT_WINDOW)
  }

  /**
   * Up to five failed tries within one window, from no record, count up one by one
   * from the first try's time; the fifth sets a lockout one window after itself.
   */
  lemma {:induction false} FailuresAccumulate(s: Store, email: string, tries: seq<Try>)
    requires email !in s.attempts
    requires |tries| <= MAX_ATTEMPTS
    requires FailingWithinWindow(s.users, email, tries)
    ensures var r := Replay(s, email, tries);
      && r.users == s.users
      && email in r.attempts
      && r.attempts[email] == LoginAttempt(|tries|, tries[0].now,
           if |tries| == MAX_ATTEMPTS then Some(tries[|tries| - 1].now + RATE_LIMIT_WINDOW) else None)
  {
    var n := |tries|;
    var prefix := tries[..n - 1];
    if n > 1 {
      assert prefix[0] == tries[0];
      assert FailingWithinWindow(s.users, email, prefix);
      FailuresAccumulate(s, email, prefix);
    }
  }

  /**
   * Five failed tries within one window lock the email: until one window after the
   * fifth, every login is refused as locked whatever the password, and changes nothing;
   * from then on the right password logs in and clears the record.
   */
  lemma LockoutCycle(s: Store, email: string, tries: seq<Try>, password: string, now: nat, nonce: string)
    requires email !in s.attempts
    requires |tries| == MAX_ATTEMPTS
    requires FailingWithinWindow(s.users, email, tries)
    ensures var locked := Replay(s, email, tries);
      var until := tries[MAX_ATTEMPTS - 1].now + RATE_LIMIT_WINDOW;
      var next := AuthSpec.Login(locked, email, password, now, nonce);
      && email in locked.attempts && locked.attempts[email].lockedUntil == Some(until)
      && (now < until ==> !next.response.success && next.store == locked && next.logged == [])
      && (now >= until && CredentialsMatch(s.users, email, password) ==>
            next.response.success && email !in next.store.attempts)
  {
    FailuresAccumulate(s, email, tries);
  }

  /**
   * With a second factor on, the right password yields no token and asks for the
   * code; the second-factor code then marks the account verified.
   */
  lemma MfaLoginThenOtp(s: Store, email: string, password: string, now: nat, nonce: string)
    requires Consistent(s)
    requires CredentialsMatch(s.users, email, password)
    requires s.users[EmailIndex(s.users, email).value].mfaEnabled
    requires !IsLocked(AttemptFor(s.attempts, email, now), now)
    ensures var login := AuthSpec.Login(s, email, password, now, nonce);
      var otp := AuthSpec.VerifyOtp(login.store, email, "999999");
      var i := EmailIndex(s.users, email).value;
      && login.response.data.value.requireMfa
      && login.response.data.value.token == ""
      && otp.response.success
      && otp.store.users == s.users[i := s.users[i].(isVerified := true)]
  {
    var i := EmailIndex(s.users, email).value;
    SaveExisting(s.users, i, s.users[i].(isVerified := true));
  }

  /**
   * The federated login never makes a second account: its second call stores nothing
   * and logs only the login, and the demo email is on exactly one account.
   */
  lemma GoogleLoginFindsOrCreates(s: Store, now: nat, createdAt: string, now2: nat, createdAt2: string)
    requires Consistent(s)
    ensures var first := AuthSpec.GoogleLogin(s, now, createdAt);
      var second := AuthSpec.GoogleLogin(first.store, now2, createdAt2);
      && second.store == first.store
      && |second.logged| == 1 && second.logged[0].event == LoginSuccess
      && second.response.data.value.user == first.response.data.value.user
      && |first.logged| == (if EmailIndex(s.users, GOOGLE_EMAIL).None? then 2 else 1)
      && forall i, j :: 0 <= i < j < |first.store.users| ==>
           first.store.users[i].email != first.store.users[j].email
  {
    if EmailIndex(s.users, GOOGLE_EMAIL).None? {
      SaveNewEmail(s.users, GoogleUser(createdAt));
    }
    Invariants.GoogleLoginKeepsConsistent(s, now, createdAt);
  }

  /**
   * The account made by the federated login stores an empty credential, which is
   * the encoding of the empty password: a password login with "" succeeds for it.
   */
  lemma GoogleAccountAcceptsEmptyPassword(s: Store, now: nat, createdAt: string, later: nat, nonce: string)
    requires Consistent(s)
    requires EmailIndex(s.users, GOOGLE_EMAIL).None?
    requires !IsLocked(AttemptFor(s.attempts, GOOGLE_EMAIL, later), later)
    ensures var google := AuthSpec.GoogleLogin(s, now, createdAt);
      var login := AuthSpec.Login(google.store, GOOGLE_EMAIL, "", later, nonce);
      login.response.success && login.response.data.value.user == GoogleUser(createdAt)
  {
    SaveNewEmail(s.users, GoogleUser(createdAt));
  }

  /**
   * A failed login answers and counts the same whether the email has no account or
   * the password is wrong: only the audit log, which the caller does not see, differs.
   */
  lemma FailureRevealsNoAccount(withAccount: Store, without: Store, email: string,
                                password: string, now: nat, nonce: string)
    requires withAccount.attempts == without.attempts
    requires EmailIndex(without.users, email).None?
    requires !CredentialsMatch(withAccount.users, email, password)
    ensures var a := AuthSpec.Login(withAccount, email, password, now, nonce);
      var b := AuthSpec.Login(without, email, password, now, nonce);
      a.response == b.response && a.store.attempts == b.store.attempts && b.logged == []
  {
  }

  /**
   * At exactly the end of a lockout set by five failures in the same millisecond the
   * window is not over (its age equals the window, it does not exceed it), so one more
   * failure locks the email again at once; a millisecond later it would count from one.
   */
  lemma LockoutBoundary(s: Store, email: string, password: string, t: nat, nonce: string)
    requires email in s.attempts && s.attempts[email] == LoginAttempt(5, t, Some(t + RATE_LIMIT_WINDOW))
    requires !CredentialsMatch(s.users, email, password)
    ensures var atEnd := AuthSpec.Login(s, email, password, t + RATE_LIMIT_WINDOW, nonce);
      atEnd.store.attempts[email] == LoginAttempt(6, t, Some(t + 2 * RATE_LIMIT_WINDOW))
    ensures var after := AuthSpec.Login(s, email, password, t + RATE_LIMIT_WINDOW + 1, nonce);
      after.store.attempts[email] == LoginAttempt(1, t + RATE_LIMIT_WINDOW + 1, None)
  {
  }
}
