/** Logins behind the lockout. */
module Logins {
  import opened Text
  import opened Limiter
  import opened Users

  datatype Page = LockedOut | Rejected | LoggedIn | SecondFactor

  method IsLockedOut(user: User, now: int) returns (locked: bool)
    ensures locked == Open(user.Logins(), now)
  {
    locked := user.lockedUntil.Some? && user.lockedUntil.value > now;
  }

  method RegisterFailedLogin(user: User, now: int)
    modifies user`failedLoginAttempts, user`lockedUntil
    ensures user.Logins() == AfterFailure(old(user.Logins()), now)
  {
    user.failedLoginAttempts := user.failedLoginAttempts + 1;
    if user.failedLoginAttempts >= THRESHOLD {
      user.lockedUntil := Some(now + COOLDOWN);
    }
  }

  /** Saves only if there is something to clear. */
  method RegisterSuccessfulLogin(user: User) returns (saved: bool)
    modifies user`failedLoginAttempts, user`lockedUntil
    ensures user.Logins() == CLOSED
    ensures saved <==> old(user.Logins()) != CLOSED
  {
    saved := user.failedLoginAttempts != 0 || user.lockedUntil.Some?;
    if saved {
      user.failedLoginAttempts := 0;
      user.lockedUntil := None;
    }
  }

  /** A login form for the account of that name, if there is one. `fits` is what
      the password check would say; a locked account does not reach it. */
  method Login(candidate: User?, fits: bool, start: int, end: int) returns (page: Page, checked: bool)
    modifies if candidate == null then {} else {candidate}
    ensures candidate == null ==> page == Rejected
    ensures candidate != null ==>
      var attempt := Attempt(start, end, if fits then Succeeds else Fails);
      var verdict := Judge(old(candidate.Logins()), attempt);
      && candidate.Logins() == Advance(old(candidate.Logins()), attempt)
      && checked == (verdict != Refused)
      && candidate.Webhooks() == old(candidate.Webhooks())
      && candidate.totpEnabled == old(candidate.totpEnabled)
    ensures candidate != null ==>
      var locked := old(candidate.lockedUntil.Some? && candidate.lockedUntil.value > start);
      && (page == LockedOut <==> locked) && (page == Rejected <==> !locked && !fits)
      && (page == SecondFactor <==> !locked && fits && candidate.totpEnabled)
      && (page == LoggedIn <==> !locked && fits && !candidate.totpEnabled)
      && (locked ==> candidate.Logins() == old(candidate.Logins()))
      && (!locked && fits ==> candidate.failedLoginAttempts == 0 && candidate.lockedUntil == None)
      && (!locked && !fits ==>
            && candidate.failedLoginAttempts == old(candidate.failedLoginAttempts) + 1
            && candidate.lockedUntil
               == if candidate.failedLoginAttempts >= 5 then Some(end + 900_000_000) else old(candidate.lockedUntil))
    ensures candidate == null ==> checked
  {
    checked := false;
    if candidate != null {
      var locked := IsLockedOut(candidate, start);
      if locked { return LockedOut, false; }
    }
    checked := true;
    if candidate != null && fits {
      var _ := RegisterSuccessfulLogin(candidate);
      return if candidate.totpEnabled then SecondFactor else LoggedIn, true;
    }
    if candidate != null {
      RegisterFailedLogin(candidate, end);
    }
    page := Rejected;
  }
}
