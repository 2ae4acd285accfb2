// What each public operation of the mock backend does, as a function of the state
// before the call: the new accounts and attempt records, the audit entries it
// prepends (newest first) and the answer it returns.

module AuthSpec {
  import opened AuthTypes
  import opened Encoding
  import opened Lookup
  import opened RateLimit

  /** The part of an audit entry the service decides; id, ip and timestamp are synthetic. */
  datatype Entry = Entry(userId: string, event: AuditEvent, status: AuditStatus, details: Option<string>)

  function Summary(log: AuditLog): Entry
  {
    Entry(log.userId, log.event, log.status, log.details)
  }

  /** The state the behaviour depends on: stored accounts and the in-memory attempt map. */
  datatype Store = Store(users: seq<User>, attempts: map<string, LoginAttempt>)

  /** A call's effect: the new state, the entries it prepends to the log (newest first), its answer. */
  datatype Outcome<T> = Outcome(store: Store, logged: seq<Entry>, response: T)

  /** The invariant every reachable state keeps. */
  predicate Consistent(s: Store)
  {
    Unique(s.users) && forall email :: email in s.attempts ==> AttemptValid(s.attempts[email])
  }

  const EMAIL_TAKEN := "Email already exists"
  const REGISTERED := "Registration successful. Please verify your email."
  const INVALID_CREDENTIALS := "Invalid email or password"
  const MFA_REQUIRED := "MFA Required"
  const LOGIN_OK := "Login successful"
  const INVALID_OTP := "Invalid OTP code"
  const TOKEN_PREFIX := "jwt_mock_"
  const GOOGLE_TOKEN_PREFIX := "jwt_mock_google_"
  const GOOGLE_EMAIL := "demo.user@gmail.com"
  const GOOGLE_ID := "google_user_123"

  /** `Account locked. Try again in ${timeLeft} minutes.` */
  function LockedMessage(minutes: nat): string
  {
    "Account locked. Try again in " + DecimalString(minutes) + " minutes."
  }

  /** The one-time codes the demo accepts: the sign-up code and the second-factor code. */
  predicate IsAcceptedCode(code: string)
  {
    code == "123456" || code == "999999"
  }

  /** The answer of a successful password login. */
  datatype LoginData = LoginData(user: User, token: string, requireMfa: bool)

  /** The answer of the federated login. */
  datatype AuthData = AuthData(user: User, token: string)

  /** The account `register` creates. */
  function NewUser(email: string, password: string, fullName: string, phone: Option<string>,
                   id: string, createdAt: string): User
  {
    User(id, email, fullName, phone, Encode(password), false, false, createdAt)
  }

  /**
   * `register(email, password, fullName, phone)`, where `id` and `createdAt` are the
   * random id and the clock reading the call draws.
   */
  function Register(s: Store, email: string, password: string, fullName: string,
                    phone: Option<string>, id: string, createdAt: string): (o: Outcome<ApiResponse<User>>)
    // a taken email is refused and nothing changes
    ensures EmailIndex(s.users, email).Some? <==> !o.response.success
    ensures EmailIndex(s.users, email).Some? ==> o == Outcome(s, [], Failed(EMAIL_TAKEN))
    // otherwise one new, unverified account without a second factor is stored and answered
    ensures o.response.success ==>
      && o.response.data.Some?
      && var u := o.response.data.value;
      && u.id == id && u.email == email && u.fullName == fullName && u.phone == phone
      && u.passwordHash == Encode(password) && !u.mfaEnabled && !u.isVerified
      && o.store.users == Saved(s.users, u)
      && (IdIndex(s.users, id).None? ==> o.store.users == s.users + [u])
      && o.store.attempts == s.attempts
      && o.logged == [Entry(id, Signup, Success, Some("User registered"))]
      && o.response.message == Some(REGISTERED)
  {
    if EmailIndex(s.users, email).Some? then
      Outcome(s, [], Failed(EMAIL_TAKEN))
    else
      var u := NewUser(email, password, fullName, phone, id, createdAt);
      Outcome(s.(users := Saved(s.users, u)),
              [Entry(id, Signup, Success, Some("User registered"))],
              ApiResponse(true, Some(u), Some(REGISTERED)))
  }

  /** Whether the stored credential of the account with this email matches the password. */
  predicate CredentialsMatch(users: seq<User>, email: string, password: string)
  {
    var i := EmailIndex(users, email);
    i.Some? && users[i.value].passwordHash == Encode(password)
  }

  /** The entries a failed login leaves, newest first: only for a known account. */
  function FailureEntries(users: seq<User>, email: string, locking: bool): seq<Entry>
  {
    match EmailIndex(users, email)
    case None => []
    case Some(i) =>
      [Entry(users[i].id, LoginFailed, Failure, Some("Invalid credentials"))]
      + (if locking then [Entry(users[i].id, AccountLocked, Warning, Some("Too many failed attempts"))] else [])
  }

  /**
   * `login(email, password)` at clock reading `now`; `nonce` stands for the random
   * characters of the minted token.
   */
  function Login(s: Store, email: string, password: string, now: nat, nonce: string): (o: Outcome<ApiResponse<LoginData>>)
    // locked: refused with the minutes left, nothing changes
    ensures var a := AttemptFor(s.attempts, email, now);
      IsLocked(a, now) ==>
        && o == Outcome(s, [], Failed(LockedMessage(MinutesLeft(a.lockedUntil.value, now))))
        && 1 <= MinutesLeft(a.lockedUntil.value, now)
    // the accounts never change
    ensures o.store.users == s.users
    // unlocked and wrong credentials: counted, same message whether or not the account exists
    ensures var a := AttemptFor(s.attempts, email, now);
      !IsLocked(a, now) && !CredentialsMatch(s.users, email, password) ==>
        var b := RecordFailure(WindowReset(a, now), now);
        && o.response == Failed(INVALID_CREDENTIALS)
        && o.store.attempts == s.attempts[email := b]
        && o.logged == FailureEntries(s.users, email, b.count >= MAX_ATTEMPTS)
    // unlocked and right credentials: the record is dropped, then the second factor or a token
    ensures var a := AttemptFor(s.attempts, email, now);
      !IsLocked(a, now) && CredentialsMatch(s.users, email, password) ==>
        var u := s.users[EmailIndex(s.users, email).value];
        && o.store.attempts == s.attempts - {email}
        && o.response.success
        && o.response.data.Some? && o.response.data.value.user == u
        && (u.mfaEnabled ==>
              && o.response.data.value == LoginData(u, "", true)
              && o.response.message == Some(MFA_REQUIRED)
              && o.logged == [])
        && (!u.mfaEnabled ==>
              && !o.response.data.value.requireMfa
              && |o.response.data.value.token| >= |TOKEN_PREFIX| > 0
              && o.response.data.value.token[..|TOKEN_PREFIX|] == TOKEN_PREFIX
              && o.response.message == Some(LOGIN_OK)
              && o.logged == [Entry(u.id, LoginSuccess, Success, Some("Login via Password"))])
  {
    var a := AttemptFor(s.attempts, email, now);
    if IsLocked(a, now) then
      Outcome(s, [], Failed(LockedMessage(MinutesLeft(a.lockedUntil.value, now))))
    else
      var b := WindowReset(a, now);
      if !CredentialsMatch(s.users, email, password) then
        var c := RecordFailure(b, now);
        Outcome(s.(attempts := s.attempts[email := c]),
                FailureEntries(s.users, email, c.count >= MAX_ATTEMPTS),
                Failed(INVALID_CREDENTIALS))
      else
        var u := s.users[EmailIndex(s.users, email).value];
        var cleared := s.(attempts := s.attempts - {email});
        if u.mfaEnabled then
          Outcome(cleared, [], ApiResponse(true, Some(LoginData(u, "", true)), Some(MFA_REQUIRED)))
        else
          Outcome(cleared,
                  [Entry(u.id, LoginSuccess, Success, Some("Login via Password"))],
                  ApiResponse(true, Some(LoginData(u, TOKEN_PREFIX + nonce, false)), Some(LOGIN_OK)))
  }

  /** `verifyOtp(email, code)`. */
  function VerifyOtp(s: Store, email: string, code: string): (o: Outcome<ApiResponse<bool>>)
    // the answer depends on the code alone
    ensures o.response == if IsAcceptedCode(code) then ApiResponse(true, Some(true), None) else Failed(INVALID_OTP)
    // the attempt records never change
    ensures o.store.attempts == s.attempts
    // a wrong code or an unknown email changes nothing
    ensures !IsAcceptedCode(code) || EmailIndex(s.users, email).None? ==> o.store == s && o.logged == []
    // an accepted code marks the account verified, saved by its id, and logs it
    ensures IsAcceptedCode(code) && EmailIndex(s.users, email).Some? ==>
      var u := s.users[EmailIndex(s.users, email).value];
      && o.store.users == Saved(s.users, u.(isVerified := true))
      && o.logged == [Entry(u.id, LoginSuccess, Success, Some("OTP Verified"))]
  {
    if IsAcceptedCode(code) then
      match EmailIndex(s.users, email)
      case None => Outcome(s, [], ApiResponse(true, Some(true), None))
      case Some(i) =>
        var u := s.users[i].(isVerified := true);
        Outcome(s.(users := Saved(s.users, u)),
                [Entry(u.id, LoginSuccess, Success, Some("OTP Verified"))],
                ApiResponse(true, Some(true), None))
    else
      Outcome(s, [], Failed(INVALID_OTP))
  }

  /** The account the federated login creates on first use. */
  function GoogleUser(createdAt: string): User
  {
    User(GOOGLE_ID, GOOGLE_EMAIL, "Demo Google User", None, "", false, true, createdAt)
  }

  /**
   * `googleLogin()` at clock reading `now`, with `createdAt` its ISO rendering.
   */
  function GoogleLogin(s: Store, now: nat, createdAt: string): (o: Outcome<ApiResponse<AuthData>>)
    // always succeeds with a token stamped with the clock, and never touches attempt records
    ensures o.response.success && o.response.data.Some? && o.response.message.None?
    ensures o.response.data.value.token == GOOGLE_TOKEN_PREFIX + DecimalString(now)
    ensures o.response.data.value.user.email == GOOGLE_EMAIL
    ensures o.store.attempts == s.attempts
    // the account exists already: nothing is stored, one login entry for it
    ensures EmailIndex(s.users, GOOGLE_EMAIL).Some? ==>
      var u := s.users[EmailIndex(s.users, GOOGLE_EMAIL).value];
      && o.store.users == s.users
      && o.response.data.value.user == u
      && o.logged == [Entry(u.id, LoginSuccess, Success, Some("Login via Google OAuth"))]
    // first use: the fixed, verified account is stored, then sign-up and login are logged
    ensures EmailIndex(s.users, GOOGLE_EMAIL).None? ==>
      && o.store.users == Saved(s.users, GoogleUser(createdAt))
      && o.response.data.value.user == GoogleUser(createdAt)
      && o.logged == [Entry(GOOGLE_ID, LoginSuccess, Success, Some("Login via Google OAuth")),
                      Entry(GOOGLE_ID, Signup, Success, Some("Registered via Google OAuth"))]
  {
    var token := GOOGLE_TOKEN_PREFIX + DecimalString(now);
    match EmailIndex(s.users, GOOGLE_EMAIL)
    case Some(i) =>
      var u := s.users[i];
      Outcome(s, [Entry(u.id, LoginSuccess, Success, Some("Login via Google OAuth"))],
              ApiResponse(true, Some(AuthData(u, token)), None))
    case None =>
      var u := GoogleUser(createdAt);
      Outcome(s.(users := Saved(s.users, u)),
              [Entry(u.id, LoginSuccess, Success, Some("Login via Google OAuth")),
               Entry(u.id, Signup, Success, Some("Registered via Google OAuth"))],
              ApiResponse(true, Some(AuthData(u, token)), None))
  }

  /** The detail text of an MFA toggle entry. */
  function MfaDetails(enabled: bool): string
  {
    if enabled then "MFA Enabled" else "MFA Disabled"
  }

  /** `toggleMfa(userId, enabled)`. */
  function ToggleMfa(s: Store, userId: string, enabled: bool): (o: Outcome<bool>)
    // true exactly when an account has this id
    ensures o.response <==> exists i :: 0 <= i < |s.users| && s.users[i].id == userId
    ensures o.store.attempts == s.attempts
    // unknown id: nothing changes
    ensures !o.response ==> o.store == s && o.logged == []
    // known id: only that account's flag changes, and one warning is logged
    ensures o.response ==>
      var i := IdIndex(s.users, userId).value;
      && |o.store.users| == |s.users|
      && o.store.users[i] == s.users[i].(mfaEnabled := enabled)
      && (forall j :: 0 <= j < |s.users| && j != i ==> o.store.users[j] == s.users[j])
      && o.logged == [Entry(userId, MfaToggle, Warning, Some(MfaDetails(enabled)))]
  {
    match IdIndex(s.users, userId)
    case None => Outcome(s, [], false)
    case Some(i) =>
      var u := s.users[i].(mfaEnabled := enabled);
      Outcome(s.(users := Saved(s.users, u)),
              [Entry(u.id, MfaToggle, Warning, Some(MfaDetails(enabled)))],
              true)
  }
}
