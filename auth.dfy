/** Admin gating of the `useAuth` hook: the signed-in user, the
    `isAuthenticated` and `loading` flags, and the `adminVerified` item that the
    browser's local storage keeps across page loads. The auth service's
    events and replies are inputs. */
module Auth {
  import opened Common
  import opened JsString

  const AdminPasscode: string := "143143"
  const AllowedAdminDomains: seq<string> := ["gmail.com"]
  /** The value of the `adminVerified` storage item once the passcode was accepted. */
  const Verified: string := "true"

  /** The fields of the auth service's user that the hook reads; the address
      is optional in the service's user record. */
  datatype User = User(id: string, email: Option<string>)

  /** What `verifyPasscode` resolves with: `{ success, error }`. */
  datatype PasscodeResult = Accepted | Rejected(message: string)

  /** How the auth service's sign-out call ends. */
  datatype SignOutReply = SignedOut | SignOutError(message: string) | SignOutThrew

  /** `email.split('@')[1]`: the segment after the first '@', up to the next
      '@'; `undefined` when there is no '@'. */
  function EmailDomain(email: string): (d: Option<string>)
    ensures d.Some? <==> '@' in email
    ensures d.Some? ==> '@' !in d.value
  {
    var parts := Split(email, '@');
    JoinSplit(email, '@');
    if |parts| > 1 then Some(parts[1]) else None
  }

  /** `ALLOWED_ADMIN_DOMAINS.includes(emailDomain)`. */
  predicate DomainAllowed(email: string)
    ensures '@' !in email ==> !DomainAllowed(email)
  {
    var d := EmailDomain(email);
    d.Some? && d.value in AllowedAdminDomains
  }

  /** The domain is exactly what follows the first '@' up to the next '@'
      (or the end), whatever comes after it. */
  lemma EmailDomainOf(local: string, domain: string, rest: string)
    requires '@' !in local && '@' !in domain
    requires rest == [] || rest[0] == '@'
    ensures EmailDomain(local + "@" + domain + rest) == Some(domain)
  {
    var email := local + "@" + domain + rest;
    var after := domain + rest;
    assert email == local + ['@'] + after;
    SplitPrefix(local, after, '@');
    var parts := Split(email, '@');
    assert parts == [local] + Split(after, '@');
    if rest == [] {
      assert after == domain;
    } else {
      assert after == domain + ['@'] + rest[1..];
      SplitPrefix(domain, rest[1..], '@');
    }
    assert Split(after, '@')[0] == domain;
    assert parts[1] == domain;
  }

  /** Every address at gmail.com passes the domain check; an address with no
      '@' or any other domain after its first '@' does not. */
  lemma DomainCheck(local: string, domain: string)
    requires '@' !in local && '@' !in domain
    ensures DomainAllowed(local + "@" + domain) <==> domain == "gmail.com"
  {
    EmailDomainOf(local, domain, []);
    assert local + "@" + domain + [] == local + "@" + domain;
  }

  /** Only the first '@' counts: an address with a second '@' after a
      gmail.com segment is accepted. */
  lemma SecondAtIgnored(local: string, tail: string)
    requires '@' !in local
    ensures DomainAllowed(local + "@gmail.com@" + tail)
  {
    EmailDomainOf(local, "gmail.com", "@" + tail);
    assert local + "@" + "gmail.com" + ("@" + tail) == local + "@gmail.com@" + tail;
  }

  class AuthState {
    var user: Option<User>
    var isAuthenticated: bool
    var loading: bool
    /** The `adminVerified` item of local storage; `None` when absent. */
    var adminVerified: Option<string>

    /** Being authenticated needs a signed-in user and the stored verification. */
    ghost predicate Valid()
      reads this
    {
      isAuthenticated ==> user.Some? && adminVerified == Some(Verified)
    }

    /** A fresh hook on a page whose storage holds `stored`. */
    constructor (stored: Option<string>)
      ensures Valid()
      ensures user == None && !isAuthenticated && loading && adminVerified == stored
    {
      user := None;
      isAuthenticated := false;
      loading := true;
      adminVerified := stored;
    }

    /** The `onAuthStateChange` listener, for `event` with the session's user. */
    method OnAuthStateChange(event: string, sessionUser: Option<User>)
      requires Valid()
      modifies this
      ensures Valid()
      ensures user == sessionUser && loading == old(loading)
      ensures sessionUser.None? || event == "SIGNED_OUT" ==> !isAuthenticated && adminVerified == None
      ensures sessionUser.Some? && event != "SIGNED_OUT" ==>
        && adminVerified == old(adminVerified)
        && (old(adminVerified) == Some(Verified) ==> isAuthenticated)
        && (old(adminVerified) != Some(Verified) ==> isAuthenticated == old(isAuthenticated))
    {
      if sessionUser.Some? {
        user := sessionUser;
        if adminVerified == Some(Verified) {
          isAuthenticated := true;
        }
      } else {
        user := None;
        isAuthenticated := false;
        adminVerified := None;
      }
      if event == "SIGNED_OUT" {
        adminVerified := None;
        isAuthenticated := false;
      }
    }

    /** The handling of the `getSession` reply at mount: an existing session
        user is taken over, authenticated when the stored flag says so, and
        loading ends either way. */
    method HandleInitialSession(sessionUser: Option<User>)
      requires Valid()
      modifies this
      ensures Valid()
      ensures !loading && adminVerified == old(adminVerified)
      ensures sessionUser.None? ==> user == old(user) && isAuthenticated == old(isAuthenticated)
      ensures sessionUser.Some? ==>
        && user == sessionUser
        && isAuthenticated == (old(isAuthenticated) || old(adminVerified) == Some(Verified))
    {
      if sessionUser.Some? {
        user := sessionUser;
        if adminVerified == Some(Verified) {
          isAuthenticated := true;
        }
      }
      loading := false;
    }

    /** `verifyPasscode`: a signed-in user whose address is at an allowed
        domain and who gives the admin passcode is verified; the flag is
        stored and the hook becomes authenticated. Every refusal leaves the
        state as it was. */
    method VerifyPasscode(passcode: string) returns (r: PasscodeResult)
      requires Valid()
      modifies this
      ensures Valid()
      ensures user == old(user) && loading == old(loading)
      ensures old(user).None? ==> r == Rejected("Not signed in")
      ensures old(user).Some? && old(user).value.email.None? ==> r == Rejected("Verification failed")
      ensures old(user).Some? && old(user).value.email.Some? ==>
        var email := old(user).value.email.value;
        && (!DomainAllowed(email) ==> r == Rejected("Email domain not authorized for admin access"))
        && (DomainAllowed(email) && passcode != AdminPasscode ==> r == Rejected("Invalid passcode"))
        && (DomainAllowed(email) && passcode == AdminPasscode ==> r == Accepted)
      ensures r.Accepted? ==> isAuthenticated && adminVerified == Some(Verified)
      ensures r.Rejected? ==> isAuthenticated == old(isAuthenticated) && adminVerified == old(adminVerified)
    {
      if user.None? {
        return Rejected("Not signed in");
      }
      if user.value.email.None? {
        // `user.email.split` throws on a missing address; the catch answers.
        return Rejected("Verification failed");
      }
      var emailDomain := EmailDomain(user.value.email.value);
      var isDomainAllowed := emailDomain.Some? && emailDomain.value in AllowedAdminDomains;
      if !isDomainAllowed {
        return Rejected("Email domain not authorized for admin access");
      }
      if passcode == AdminPasscode {
        adminVerified := Some(Verified);
        isAuthenticated := true;
        r := Accepted;
      } else {
        r := Rejected("Invalid passcode");
      }
    }

    /** `signOut`: the flag and `isAuthenticated` are cleared before the
        service is called, so they stay cleared whatever it answers. */
    method SignOut(reply: SignOutReply) returns (error: Option<string>)
      requires Valid()
      modifies this
      ensures Valid()
      ensures !isAuthenticated && adminVerified == None
      ensures user == old(user) && loading == old(loading)
      ensures reply.SignedOut? ==> error == None
      ensures reply.SignOutError? ==> error == Some(reply.message)
      ensures reply.SignOutThrew? ==> error == Some("An unexpected error occurred")
    {
      adminVerified := None;
      isAuthenticated := false;
      match reply
      case SignedOut => error := None;
      case SignOutError(message) => error := Some(message);
      case SignOutThrew => error := Some("An unexpected error occurred");
    }
  }

  /** The stored flag is not tied to the account that earned it: on a page
      whose storage already holds it, whichever user signs in next is
      authenticated without `verifyPasscode`, whatever the domain of their
      address; on a page without it, signing in alone never authenticates. */
  method SignInWithStoredFlag(stored: Option<string>, u: User) returns (authenticated: bool)
    ensures authenticated <==> stored == Some(Verified)
  {
    var auth := new AuthState(stored);
    auth.OnAuthStateChange("SIGNED_IN", Some(u));
    authenticated := auth.isAuthenticated;
  }
}
