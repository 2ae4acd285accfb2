# Mock authentication backend — a Dafny model

This project models `MockBackendService`, the client-side mock identity provider of an
authentication demo. The service keeps three pieces of state:

- a list of accounts;
- a newest-first audit log;
- an in-memory map of login-attempt records, keyed by email.

It offers six operations: `register`, `login`, `verifyOtp`, `googleLogin`, `getAuditLogs`
and `toggleMfa`. `login` puts a rate limiter in front of the password check. The limiter
counts failures in a 15-minute window and locks the email for 15 minutes after the fifth.

Modules, one concern each:

- `AuthTypes` (`types.dfy`): the record shapes and the closed event and status enumerations.
- `Encoding` (`encoding.dfy`): the reversible password encoding and the decimal rendering of numbers.
- `Lookup` (`lookup.dfy`): `find`/`findIndex` by email or id, the upsert done by `saveUser`, and the `filter` of `getAuditLogs`.
- `RateLimit` (`rate_limit.dfy`): the constants, the attempt record and its transitions.
- `AuthSpec` (`auth_spec.dfy`): each operation as a function of the state before the call. It returns the new accounts and attempt map, the audit entries it prepends (newest first), and the answer.
- `MockBackend` (`mock_backend.dfy`): the class `MockBackendService`. Its fields `users`, `logs` and `attempts` are reassigned step by step, as in the source. Each public method is proved to leave exactly the state and answer that `AuthSpec` gives.
- `Invariants` (`invariants.dfy`): every operation keeps emails and ids unique. It also keeps every stored attempt record valid: at least one failure, and a lockout exactly when the count has reached the maximum.
- `Scenarios` (`scenarios.dfy`): properties of call sequences.

Parameters stand in for the clock and the random values:

- `now` is the clock reading, in milliseconds.
- `createdAt` is its ISO text.
- `id` is the random account id.
- `nonce` is the random part of a password-login token.
- A `Stamp` holds what `logEvent` draws for one entry: the random id and ip, and the clock's ISO timestamp. Each public method takes one `Stamp` per entry it may log (`Login` has `lockStamp` for the lockout entry, `GoogleLogin` has `signupStamp` for the sign-up entry).

Two behaviours of the source are proved as they are written:

- `Scenarios.GoogleAccountAcceptsEmptyPassword`: the account that `googleLogin` creates stores the empty credential. The encoding of the empty password is also empty (`btoa('')` is `''`). So a password login with `""` succeeds for `demo.user@gmail.com`.
- `Scenarios.LockoutBoundary`: suppose five failures land in the same millisecond. At exactly the end of the lockout, the window's age equals the window length but does not exceed it, so the window is not reset. One more failure then locks the email again at once.

How many audit entries each call writes, and when a lockout ends, as the code does it:

- A failed login that locks writes two entries (`ACCOUNT_LOCKED`, then `LOGIN_FAILED`). A failed login for an unknown email writes none. A login that asks for the second factor writes none. The first `googleLogin` writes two. Every other state-changing call writes one.
- A lockout is cleared only by the window reset or by a successful login. After a lockout has expired, the count restarts only if the window started more than 15 minutes before the next try; the boundary case above is where it does not.

## Model

| member | source | states |
|---|---|---|
| `Encoding.Encode` | services/mockBackend.ts:72 | The stored credential is empty exactly when the password is empty, as with `btoa`. |
| `Encoding.DecodeEncode` | services/mockBackend.ts:72 | The stored credential is reversible: decoding it gives back the password. |
| `Encoding.EncodeInjective` | services/mockBackend.ts:109 | Two passwords give the same stored credential exactly when they are equal. So the credential comparison is a password comparison. |
| `Encoding.DecimalString` | services/mockBackend.ts:95-96 | The `${timeLeft}` rendering is non-empty, all decimal digits, and has no leading zero. Read back as a decimal number it is the number rendered, so distinct numbers give distinct texts. |
| `Lookup.FindIndex` | services/mockBackend.ts:33 | `findIndex` (and `find`, at lines 63, 107, 142, 158 and 212) gives the first position whose element satisfies the test. `None` means no element satisfies it. Lookups by email and by id are this function with `u.email === email` and `u.id === id`. |
| `Lookup.SaveNewEmail` | services/mockBackend.ts:31-40 | Saving an account with a new email keeps emails and ids unique. The account is then found by its email. With a fresh id it is appended. |
| `Lookup.SaveExisting` | services/mockBackend.ts:31-40 | Saving a changed copy of an account (same id and email) overwrites exactly its slot and keeps uniqueness. |
| `Lookup.Filter` | services/mockBackend.ts:182 | `filter` returns no more elements than it is given, and every element it returns satisfies the test. |
| `Lookup.FilterCount` | services/mockBackend.ts:182 | `filter` keeps each element that satisfies the test exactly as often as it occurs, and no other element. |
| `Lookup.FilterAppend` | services/mockBackend.ts:182 | Filtering two sequences joined is filtering each and joining the results in the same order. |
| `Lookup.FilterMap` | services/mockBackend.ts:182 | Filtering commutes with a mapping when the test on an image agrees with the test on the element. |
| `Lookup.UserLogsCount` | services/mockBackend.ts:179-183 | An account's view of the log holds each of its entries as often as the log does, and nothing else. |
| `Lookup.UserLogsAppend` | services/mockBackend.ts:179-183 | An account's view of two joined log parts is its view of the first part followed by its view of the second. |
| `RateLimit.MinutesLeft` | services/mockBackend.ts:95 | The reported minutes are the ceiling of the remaining milliseconds over 60000. The value is at least 1, and at most 15 when at most one window remains. |
| `RateLimit.FailureRecord` | services/mockBackend.ts:92-115 | A failed, unlocked attempt stores a record whose count is one more than the (possibly reset) record's. The window start is kept, or moved to `now` on reset. A lockout ending one window from `now` is set exactly when the count reaches 5. The stored record is valid. |
| `RateLimit.ExpiredLockResets` | services/mockBackend.ts:94-104 | After a lockout has passed, and its window started before the lockout's last failure, the record is unlocked and reset to `{0, now}`. |
| `AuthSpec.Register` | services/mockBackend.ts:59-85 | A taken email fails with "Email already exists" and changes nothing. Otherwise one account is saved: unverified, second factor off, credential `Encode(password)`, with the given fields. It is appended when its id is fresh. One SIGNUP/success entry is logged for it. |
| `AuthSpec.Login` | services/mockBackend.ts:87-135 | Locked: the call fails with the minutes left (at least 1) and changes nothing. Wrong credentials: the call fails with the same "Invalid email or password" whether or not the account exists. The count rises by one and the lockout is set at 5. LOGIN_FAILED (newest), with ACCOUNT_LOCKED before it when locking, is logged only for a known account. Right credentials: the record is dropped. With the second factor on, the answer has an empty token and requireMfa, and nothing is logged. Otherwise the token starts with "jwt_mock_" and one LOGIN_SUCCESS entry is logged. The accounts never change. |
| `AuthSpec.VerifyOtp` | services/mockBackend.ts:137-151 | The call succeeds exactly for "123456" or "999999", and otherwise fails with "Invalid OTP code". A wrong code or an unknown email changes nothing. An accepted code for a known account saves it, by id, as verified and logs LOGIN_SUCCESS. The attempt map never changes. |
| `AuthSpec.GoogleLogin` | services/mockBackend.ts:153-177 | The call always succeeds, with a token "jwt_mock_google_" followed by the clock reading. An existing demo account is reused: nothing is stored and one LOGIN_SUCCESS entry is logged. Otherwise the fixed verified account (second factor off, empty credential) is saved, and SIGNUP then LOGIN_SUCCESS are logged. |
| `AuthSpec.ToggleMfa` | services/mockBackend.ts:209-220 | The call answers true exactly when some account has the id. Then only that account's `mfaEnabled` becomes `enabled`, and one MFA_TOGGLE/warning entry is logged. Otherwise nothing changes. |
| `Invariants.RegisterKeepsConsistent` | services/mockBackend.ts:59-85 | `register` keeps emails and ids unique and attempt records valid. |
| `Invariants.LoginKeepsConsistent` | services/mockBackend.ts:87-135 | `login` keeps emails and ids unique and attempt records valid. |
| `Invariants.VerifyOtpKeepsConsistent` | services/mockBackend.ts:137-151 | `verifyOtp` keeps emails and ids unique and attempt records valid. |
| `Invariants.GoogleLoginKeepsConsistent` | services/mockBackend.ts:153-177 | `googleLogin` keeps emails and ids unique and attempt records valid. |
| `Invariants.ToggleMfaKeepsConsistent` | services/mockBackend.ts:209-220 | `toggleMfa` keeps emails and ids unique and attempt records valid. |
| `MockBackend.Stamped` | services/mockBackend.ts:44-52 | The entry `logEvent` builds carries the given account, event, status and details, and the drawn id, ip and timestamp. |
| `MockBackend.SummariesOfUserLogs` | services/mockBackend.ts:179-183 | An account's view of the log, without id, ip and timestamp, is the account's entries among the log's, in order. |
| `MockBackend.NewEntriesShownFirst` | services/mockBackend.ts:53 | After any entries are put in front of the log, an account's view is its own entries among them, in order, followed by exactly what it saw before. |
| `MockBackend.NewEntryShownFirst` | services/mockBackend.ts:53 | An entry just logged is the first one `getAuditLogs` returns for its account, followed by exactly what that account saw before. |
| `MockBackend.MockBackendService.constructor` | services/mockBackend.ts:23-28 | The service starts with no accounts, no log entries and no attempt records, which satisfies the invariant. |
| `MockBackend.MockBackendService.SaveUser` | services/mockBackend.ts:31-40 | The first account with the same id is overwritten, or else the account is appended. |
| `MockBackend.MockBackendService.LogEvent` | services/mockBackend.ts:42-55 | Exactly one entry, with the given account, event, status and details and the drawn id, ip and timestamp, goes in front of the log. The older entries are kept verbatim. |
| `MockBackend.MockBackendService.Register` | services/mockBackend.ts:59-85 | The new state, the answer and the prepended entries are those of `AuthSpec.Register`, and the invariant is kept. After a sign-up, the account's view of the log is the SIGNUP entry followed by what that id saw before. |
| `MockBackend.MockBackendService.CountFailure` | services/mockBackend.ts:108-116 | A failed, unlocked login stores the counted record for the email, and logs ACCOUNT_LOCKED (when locking) then LOGIN_FAILED for a known account only. |
| `MockBackend.MockBackendService.Login` | services/mockBackend.ts:87-135 | The new state, the answer and the prepended entries are those of `AuthSpec.Login`, and the invariant is kept. |
| `MockBackend.MockBackendService.VerifyOtp` | services/mockBackend.ts:137-151 | The new state, the answer and the prepended entries are those of `AuthSpec.VerifyOtp`, and the invariant is kept. |
| `MockBackend.MockBackendService.GoogleLogin` | services/mockBackend.ts:153-177 | The new state, the answer and the prepended entries are those of `AuthSpec.GoogleLogin`, and the invariant is kept. |
| `MockBackend.MockBackendService.GetAuditLogs` | services/mockBackend.ts:179-183 | The call returns exactly the stored entries of that account, each as often as the log holds it, in log order (newest first). |
| `MockBackend.MockBackendService.ToggleMfa` | services/mockBackend.ts:209-220 | The new state, the answer and the prepended entries are those of `AuthSpec.ToggleMfa`, and the invariant is kept. |
| `Scenarios.RegisterTwiceConflicts` | services/mockBackend.ts:61-65 | A second sign-up with the same email fails with "Email already exists" and changes nothing. The email stays on exactly one account, the first one. |
| `Scenarios.RegisterThenLogin` | services/mockBackend.ts:72 | After a sign-up, a password login on an unlocked email succeeds exactly for the registered password. It answers the new account, asks for no second factor and clears the record. |
| `Scenarios.FailuresAccumulate` | services/mockBackend.ts:92-115 | Up to five failed logins within one window, starting from no record, count 1, 2, ... from the first try's time. The fifth locks the email until one window after itself. |
| `Scenarios.LockoutCycle` | services/mockBackend.ts:94-123 | After five failures in one window, every login before the lockout's end fails as locked, whatever the password, and changes nothing. From the lockout's end on, the right password succeeds and clears the record. |
| `Scenarios.MfaLoginThenOtp` | services/mockBackend.ts:125-146 | With the second factor on, the right password gives requireMfa and an empty token. The second-factor code then marks exactly that account verified. |
| `Scenarios.GoogleLoginFindsOrCreates` | services/mockBackend.ts:156-174 | A second `googleLogin` stores nothing, logs only LOGIN_SUCCESS and answers the same account. The first call logs two entries exactly when it creates the account. The demo email is on exactly one account. |
| `Scenarios.GoogleAccountAcceptsEmptyPassword` | services/mockBackend.ts:160-170 | Once `googleLogin` has created the demo account, an unlocked password login with the empty password succeeds for it. |
| `Scenarios.FailureRevealsNoAccount` | services/mockBackend.ts:109-119 | A failed login gives the same answer and the same attempt record whether the email has no account or the password is wrong. Only the audit log differs. |
| `Scenarios.LockoutBoundary` | services/mockBackend.ts:99-112 | At exactly the end of a lockout set by five same-millisecond failures, one more failure gives count 6 and an immediate new lockout. One millisecond later it would restart the count at 1. |

## Left out

- The artificial latency (`delay`, `setTimeout`) and the asynchrony: each operation is one sequential step.
- Browser storage and JSON (`localStorage`, `JSON.parse`/`stringify`): the accounts and the log are in-memory sequences. A malformed stored value, which would make `JSON.parse` throw, is not modelled.
- `Math.random`, `Date.now` and `toISOString`: these are parameters (`id`, `now`, `createdAt`, `nonce`, and the `Stamp` of each audit entry). A stamp's timestamp is not tied to `now`.
- `Encoding.Encode`: it stands in for `btoa` by reversing the text. It keeps the properties the service relies on: it is reversible, and the empty string maps to the empty string. The base64 alphabet and `btoa`'s exception on characters above U+00FF are not modelled.
- `AuthSpec.Login`: the contract states only the token's "jwt_mock_" prefix. `MockBackend.MockBackendService.Login` pins the token to "jwt_mock_" followed by `nonce`. The source's two base-36 random strings are not modelled.
- The `requireMfa?` field of the login answer is a `bool`. An absent field reads as `false`.
- The `console.log` "dispatch" of one-time codes: this is output only.
- `getSessions`: it returns two fixed sample records with random ips and has no behaviour to state.
- The generative-AI log summary (`geminiService.ts`), the React pages, `components/ui.tsx` and `App.tsx`: these are presentation and I/O. The model follows the service's own signatures, not the pages' calls.
- The attempt map is a module-level object in the source. It is a field of the one service instance here.
- The source mutates a stored attempt record in place; here the record is a value that is stored back or deleted. The paths that return normally all end in a store, a delete or a locked answer that changed nothing, so on them the two agree. The two cases below are where they do not.
- `Encoding.Encode` does not throw. In the source, `btoa(password)` (line 109) throws on a character above U+00FF when the email has an account. If that email's stored record was reset first (lines 101-104), the map is left holding `{count 0, firstAttempt now}`, a record that `RateLimit.AttemptValid` excludes, and the call fails with an exception instead of the credentials message.
- Emails are plain map keys. In the source, `loginAttempts[email]` on an email such as "constructor" or "toString" yields an inherited function, not `undefined`. Its `count++` gives `NaN`, `NaN >= 5` is false, so that email is never locked.
