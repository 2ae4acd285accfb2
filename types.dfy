// The record shapes of the authentication demo (types.ts).

module AuthTypes {

  /** An optional value: a TypeScript `field?: T` or a value that may be `undefined`. */
  datatype Option<+T> = None | Some(value: T)

  /** An account. `passwordHash` holds the reversible encoding of the password. */
  datatype User = User(
    id: string,
    email: string,
    fullName: string,
    phone: Option<string>,
    passwordHash: string,
    mfaEnabled: bool,
    isVerified: bool,
    createdAt: string)

  /** The closed set of audit events. */
  datatype AuditEvent =
    | LoginSuccess
    | LoginFailed
    | Logout
    | Signup
    | PasswordReset
    | MfaToggle
    | AccountLocked

  /** The closed set of audit statuses. */
  datatype AuditStatus = Success | Failure | Warning

  /** One audit-log entry; `id`, `ip` and `timestamp` are synthetic. */
  datatype AuditLog = AuditLog(
    id: string,
    userId: string,
    event: AuditEvent,
    status: AuditStatus,
    ip: string,
    timestamp: string,
    details: Option<string>)

  /** What `logEvent` draws for a new entry: a random id and ip, and the clock's ISO time. */
  datatype Stamp = Stamp(id: string, ip: string, timestamp: string)

  /** The envelope every service operation answers with (`error` is never set by the service). */
  datatype ApiResponse<T> = ApiResponse(success: bool, data: Option<T>, message: Option<string>)

  /** A failure answer carrying only a message. */
  function Failed<T>(message: string): ApiResponse<T>
  {
    ApiResponse(false, None, Some(message))
  }
}
