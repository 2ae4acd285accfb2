// MockBackendService (services/mockBackend.ts): the stored accounts, the newest-first
// audit log and the per-email attempt map, updated step by step by each operation.
// Every public method is proved to leave the state and answer that AuthSpec describes.

module MockBackend {
  import opened AuthTypes
  import opened Encoding
  import opened Lookup
  import opened RateLimit
  import opened AuthSpec
  import Invariants

  /** `logs` is `entries` (newest first) put in front of `older`, which is kept verbatim. */
  predicate Prepended(older: seq<AuditLog>, logs: seq<AuditLog>, entries: seq<Entry>)
  {
    && |logs| == |entries| + |older|
    && logs[|entries|..] == older
    && forall i :: 0 <= i < |entries| ==> Summary(logs[i]) == entries[i]
  }

  /** The entry `logEvent` builds from what it is told and what it draws. */
  function Stamped(e: Entry, stamp: Stamp): (log: AuditLog)
    ensures Summary(log) == e
    ensures log.id == stamp.id && log.ip == stamp.ip && log.timestamp == stamp.timestamp
  {
    AuditLog(stamp.id, e.userId, e.event, e.status, stamp.ip, stamp.timestamp, e.details)
  }

  /** The deterministic part of each entry of a log, in the log's order. */
  function Summaries(logs: seq<AuditLog>): (r: seq<Entry>)
    ensures |r| == |logs|
    ensures forall i :: 0 <= i < |logs| ==> r[i] == Summary(logs[i])
  {
    Map(logs, Summary)
  }

  /** The condition that picks an account's entries. */
  function ConcernsUser(userId: string): Entry -> bool
  {
    (e: Entry) => e.userId == userId
  }

  /** The entries among `entries` that belong to `userId`, order kept. */
  function EntriesOf(entries: seq<Entry>, userId: string): seq<Entry>
  {
    Filter(entries, ConcernsUser(userId))
  }

  /** An account's view of a log, summarised, is the summarised log's entries for that account. */
  lemma SummariesOfUserLogs(logs: seq<AuditLog>, userId: string)
    ensures Summaries(UserLogs(logs, userId)) == EntriesOf(Summaries(logs), userId)
  {
    FilterMap(logs, Summary, OwnedBy(userId), ConcernsUser(userId));
  }

  /**
   * After the entries `entries` are put in front of `older`, an account's view of the
   * log (`getAuditLogs`) is its own entries among `entries`, in order, followed by
   * exactly what it saw before.
   */
  lemma NewEntriesShownFirst(older: seq<AuditLog>, logs: seq<AuditLog>, entries: seq<Entry>, userId: string)
    requires Prepended(older, logs, entries)
    ensures UserLogs(logs, userId) == UserLogs(logs[..|entries|], userId) + UserLogs(older, userId)
    ensures Summaries(UserLogs(logs[..|entries|], userId)) == EntriesOf(entries, userId)
    ensures Summaries(UserLogs(logs, userId)) == EntriesOf(entries, userId) + Summaries(UserLogs(older, userId))
  {
    var added := logs[..|entries|];
    assert logs == added + older;
    UserLogsAppend(added, older, userId);
    assert Summaries(added) == entries;
    SummariesOfUserLogs(added, userId);
    MapAppend(UserLogs(added, userId), UserLogs(older, userId), Summary);
  }

  /** A single entry put in front of the log heads its account's view of the log. */
  lemma NewEntryShownFirst(older: seq<AuditLog>, logs: seq<AuditLog>, e: Entry)
    requires Prepended(older, logs, [e])
    ensures Summaries(UserLogs(logs, e.userId)) == [e] + Summaries(UserLogs(older, e.userId))
  {
    NewEntriesShownFirst(older, logs, [e], e.userId);
    FilterSingle(e, ConcernsUser(e.userId));
  }

  class MockBackendService {
    /** The stored account collection. */
    var users: seq<User>
    /** The stored audit log, newest entry first. */
    var logs: seq<AuditLog>
    /** The in-memory attempt records, keyed by login email. */
    var attempts: map<string, LoginAttempt>

    /** The state the behaviour depends on. */
    function Current(): Store
      reads this
    {
      Store(users, attempts)
    }

    ghost predicate Valid()
      reads this
    {
      Consistent(Current())
    }

    /** A service over empty storage. */
    constructor ()
      ensures Valid()
      ensures users == [] && logs == [] && attempts == map[]
    {
      users := [];
      logs := [];
      attempts := map[];
    }

    /** `saveUser(user)`: overwrite the first account with the same id, or append. */
    method SaveUser(user: User)
      modifies this`users
      ensures IdIndex(old(users), user.id).Some? ==>
        users == old(users)[IdIndex(old(users), user.id).value := user]
      ensures IdIndex(old(users), user.id).None? ==> users == old(users) + [user]
      ensures users == Saved(old(users), user)
    {
      var existingIndex := IdIndex(users, user.id);
      if existingIndex.Some? {
        users := users[existingIndex.value := user];
      } else {
        users := users + [user];
      }
    }

    /** `logEvent(...)`: put one new entry in front of the log, with the id, ip and time drawn for it. */
    method LogEvent(userId: string, event: AuditEvent, status: AuditStatus, details: Option<string>, stamp: Stamp)
      modifies this`logs
      ensures logs == [Stamped(Entry(userId, event, status, details), stamp)] + old(logs)
      ensures Prepended(old(logs), logs, [Entry(userId, event, status, details)])
    {
      var newLog := AuditLog(stamp.id, userId, event, status, stamp.ip, stamp.timestamp, details);
      logs := [newLog] + logs;
    }

    method Register(email: string, password: string, fullName: string, phone: Option<string>,
                    id: string, createdAt: string, stamp: Stamp) returns (r: ApiResponse<User>)
      requires Valid()
      modifies this
      ensures Valid()
      ensures var o := AuthSpec.Register(old(Current()), email, password, fullName, phone, id, createdAt);
        Current() == o.store && r == o.response && Prepended(old(logs), logs, o.logged)
      ensures r.success ==>
        Summaries(UserLogs(logs, id)) == [Entry(id, Signup, Success, Some("User registered"))] + Summaries(UserLogs(old(logs), id))
    {
      if EmailIndex(users, email).Some? {
        return Failed(EMAIL_TAKEN);
      }
      ghost var before := logs;
      var newUser := NewUser(email, password, fullName, phone, id, createdAt);
      Invariants.RegisterKeepsConsistent(Current(), email, password, fullName, phone, id, createdAt);
      SaveUser(newUser);
      LogEvent(newUser.id, Signup, Success, Some("User registered"), stamp);
      NewEntryShownFirst(before, logs, Entry(id, Signup, Success, Some("User registered")));
      r := ApiResponse(true, Some(newUser), Some(REGISTERED));
    }

    /**
     * The failed-credentials branch of `login`: count the failure on the (possibly reset)
     * record, lock once the maximum is reached, and log for a known account only.
     */
    method CountFailure(email: string, attempt: LoginAttempt, now: nat, stamp: Stamp, lockStamp: Stamp)
      modifies this`attempts, this`logs
      ensures attempts == old(attempts)[email := RecordFailure(attempt, now)]
      ensures Prepended(old(logs), logs, FailureEntries(users, email, RecordFailure(attempt, now).count >= MAX_ATTEMPTS))
    {
      var index := EmailIndex(users, email);
      var attempt := attempt.(count := attempt.count + 1);
      if attempt.count >= MAX_ATTEMPTS {
        attempt := attempt.(lockedUntil := Some(now + RATE_LIMIT_WINDOW));
        if index.Some? {
          LogEvent(users[index.value].id, AccountLocked, Warning, Some("Too many failed attempts"), lockStamp);
        }
      }
      attempts := attempts[email := attempt];
      if index.Some? {
        LogEvent(users[index.value].id, LoginFailed, Failure, Some("Invalid credentials"), stamp);
      }
    }

    method Login(email: string, password: string, now: nat, nonce: string, stamp: Stamp, lockStamp: Stamp) returns (r: ApiResponse<LoginData>)
      requires Valid()
      modifies this
      ensures Valid()
      ensures var o := AuthSpec.Login(old(Current()), email, password, now, nonce);
        Current() == o.store && r == o.response && Prepended(old(logs), logs, o.logged)
    {
      Invariants.LoginKeepsConsistent(Current(), email, password, now, nonce);
      ghost var stored := AttemptFor(attempts, email, now);
      var attempt := if email in attempts then attempts[email] else LoginAttempt(0, now, None);

      if attempt.lockedUntil.Some? && now < attempt.lockedUntil.value {
        var timeLeft := MinutesLeft(attempt.lockedUntil.value, now);
        return Failed(LockedMessage(timeLeft));
      }

      if now - attempt.firstAttempt > RATE_LIMIT_WINDOW {
        attempt := attempt.(count := 0, firstAttempt := now, lockedUntil := None);
      }
      assert !IsLocked(stored, now) && attempt == WindowReset(stored, now);

      var index := EmailIndex(users, email);

      if index.None? || users[index.value].passwordHash != Encode(password) {
        assert !CredentialsMatch(old(users), email, password);
        CountFailure(email, attempt, now, stamp, lockStamp);
        return Failed(INVALID_CREDENTIALS);
      }

      assert CredentialsMatch(users, email, password);
      var user := users[index.value];
      attempts := attempts - {email};

      if user.mfaEnabled {
        return ApiResponse(true, Some(LoginData(user, "", true)), Some(MFA_REQUIRED));
      }

      var token := TOKEN_PREFIX + nonce;
      LogEvent(user.id, LoginSuccess, Success, Some("Login via Password"), stamp);
      r := ApiResponse(true, Some(LoginData(user, token, false)), Some(LOGIN_OK));
    }

    method VerifyOtp(email: string, code: string, stamp: Stamp) returns (r: ApiResponse<bool>)
      requires Valid()
      modifies this
      ensures Valid()
      ensures var o := AuthSpec.VerifyOtp(old(Current()), email, code);
        Current() == o.store && r == o.response && Prepended(old(logs), logs, o.logged)
    {
      if IsAcceptedCode(code) {
        var index := EmailIndex(users, email);
        if index.Some? {
          var user := users[index.value];
          user := user.(isVerified := true);
          Invariants.VerifyOtpKeepsConsistent(Current(), email, code);
          SaveUser(user);
          LogEvent(user.id, LoginSuccess, Success, Some("OTP Verified"), stamp);
        }
        return ApiResponse(true, Some(true), None);
      }
      return Failed(INVALID_OTP);
    }

    method GoogleLogin(now: nat, createdAt: string, stamp: Stamp, signupStamp: Stamp) returns (r: ApiResponse<AuthData>)
      requires Valid()
      modifies this
      ensures Valid()
      ensures var o := AuthSpec.GoogleLogin(old(Current()), now, createdAt);
        Current() == o.store && r == o.response && Prepended(old(logs), logs, o.logged)
    {
      Invariants.GoogleLoginKeepsConsistent(Current(), now, createdAt);
      var email := GOOGLE_EMAIL;
      var index := EmailIndex(users, email);
      var user: User;
      if index.Some? {
        user := users[index.value];
      } else {
        user := GoogleUser(createdAt);
        SaveUser(user);
        LogEvent(user.id, Signup, Success, Some("Registered via Google OAuth"), signupStamp);
      }
      LogEvent(user.id, LoginSuccess, Success, Some("Login via Google OAuth"), stamp);
      var token := GOOGLE_TOKEN_PREFIX + DecimalString(now);
      r := ApiResponse(true, Some(AuthData(user, token)), None);
    }

    /** `getAuditLogs(userId)`: that account's entries, newest first. */
    method GetAuditLogs(userId: string) returns (r: seq<AuditLog>)
      ensures forall e :: e in r <==> e in logs && e.userId == userId
      ensures forall e :: multiset(r)[e] == if e.userId == userId then multiset(logs)[e] else 0
      ensures r == UserLogs(logs, userId)
    {
      r := UserLogs(logs, userId);
      UserLogsCount(logs, userId);
    }

    method ToggleMfa(userId: string, enabled: bool, stamp: Stamp) returns (found: bool)
      requires Valid()
      modifies this
      ensures Valid()
      ensures var o := AuthSpec.ToggleMfa(old(Current()), userId, enabled);
        Current() == o.store && found == o.response && Prepended(old(logs), logs, o.logged)
    {
      var index := IdIndex(users, userId);
      if index.Some? {
        var user := users[index.value];
        user := user.(mfaEnabled := enabled);
        Invariants.ToggleMfaKeepsConsistent(Current(), userId, enabled);
        SaveUser(user);
        LogEvent(user.id, MfaToggle, Warning, Some(MfaDetails(enabled)), stamp);
        return true;
      }
      return false;
    }
  }
}
