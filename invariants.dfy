// Every operation keeps the service's invariant: emails and ids stay unique, and every
// stored attempt record counts at least one failure and is locked exactly at the maximum.

module Invariants {
  import opened AuthTypes
  import opened Lookup
  import opened RateLimit
  import opened AuthSpec

  lemma RegisterKeepsConsistent(s: Store, email: string, password: string, fullName: string,
                                phone: Option<string>, id: string, createdAt: string)
    requires Consistent(s)
    ensures Consistent(AuthSpec.Register(s, email, password, fullName, phone, id, createdAt).store)
  {
    if EmailIndex(s.users, email).None? {
      SaveNewEmail(s.users, NewUser(email, password, fullName, phone, id, createdAt));
    }
  }

  lemma LoginKeepsConsistent(s: Store, email: string, password: string, now: nat, nonce: string)
    requires Consistent(s)
    ensures Consistent(AuthSpec.Login(s, email, password, now, nonce).store)
  {
    var o := AuthSpec.Login(s, email, password, now, nonce);
    var a := AttemptFor(s.attempts, email, now);
    if !IsLocked(a, now) && !CredentialsMatch(s.users, email, password) {
      FailureRecord(s.attempts, email, now);
      assert o.store.attempts == s.attempts[email := RecordFailure(WindowReset(a, now), now)];
    }
  }

  lemma VerifyOtpKeepsConsistent(s: Store, email: string, code: string)
    requires Consistent(s)
    ensures Consistent(AuthSpec.VerifyOtp(s, email, code).store)
  {
    var i := EmailIndex(s.users, email);
    if IsAcceptedCode(code) && i.Some? {
      SaveExisting(s.users, i.value, s.users[i.value].(isVerified := true));
    }
  }

  lemma GoogleLoginKeepsConsistent(s: Store, now: nat, createdAt: string)
    requires Consistent(s)
    ensures Consistent(AuthSpec.GoogleLogin(s, now, createdAt).store)
  {
    if EmailIndex(s.users, GOOGLE_EMAIL).None? {
      SaveNewEmail(s.users, GoogleUser(createdAt));
    }
  }

  lemma ToggleMfaKeepsConsistent(s: Store, userId: string, enabled: bool)
    requires Consistent(s)
    ensures Consistent(AuthSpec.ToggleMfa(s, userId, enabled).store)
  {
    var i := IdIndex(s.users, userId);
    if i.Some? {
      SaveExisting(s.users, i.value, s.users[i.value].(mfaEnabled := enabled));
    }
  }
}
