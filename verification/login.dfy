/**
 The POST branch of the login route (app.py:152-180): normalise the address,
 refuse while the lockout tracker says the account is locked, otherwise look
 the user up and compare passwords, telling the tracker about the failure or
 the success.

 The lockout tracker of validation.py is not part of this model: its answer
 for a key is the input `lockOf`, and the calls the route makes into it are
 returned in order.
 */
module Login {
  import opened Optional
  import opened Text
  import opened Users

  /** `is_account_locked(key)`: whether the key is locked, and for how many more seconds. */
  datatype LockStatus = LockStatus(locked: bool, seconds: int)

  /** A call the route makes into the lockout tracker. */
  datatype TrackerCall =
    | CheckLock(key: string)         // `is_account_locked`
    | RegisterFailed(key: string)    // `register_failed_attempt`
    | RegisterSuccess(key: string)   // `register_successful_login`

  datatype LoginOutcome =
    | AccountLocked(seconds: int)    // "Account locked. Try again in {seconds} seconds."
    | InvalidCredentials             // "Invalid credentials."
    | LoggedIn(sessionEmail: string) // `session["user_email"]` is set

  datatype LoginResult = LoginResult(outcome: LoginOutcome, calls: seq<TrackerCall>)

  /** `user.get("password") != password` fails: a record was found and its password is the submitted one. */
  predicate PasswordMatches(user: Option<User>, password: string) {
    user.Some? && user.value.password == Some(password)
  }

  /**
   `login` for a POST with form fields `email` and `password` ("" when
   missing). Lockout is checked first, before the user list is read.
   */
  function Login(users: seq<User>, email: string, password: string, lockOf: string -> LockStatus): (r: LoginResult)
    ensures var key := EmailKey(email);
            && |r.calls| >= 1 && r.calls[0] == CheckLock(key)
            && (r.outcome.AccountLocked? <==> lockOf(key).locked)
            && (r.outcome.AccountLocked? ==> r.outcome.seconds == lockOf(key).seconds && r.calls == [CheckLock(key)])
            && (r.outcome.LoggedIn? <==> !lockOf(key).locked && PasswordMatches(FindUserByEmail(users, email), password))
            && (r.outcome.LoggedIn? ==> r.outcome.sessionEmail == key && r.calls == [CheckLock(key), RegisterSuccess(key)])
            && (r.outcome.InvalidCredentials? ==> r.calls == [CheckLock(key), RegisterFailed(key)])
  {
    var key := EmailKey(email);
    var lock := lockOf(key);
    if lock.locked then
      LoginResult(AccountLocked(lock.seconds), [CheckLock(key)])
    else
      var user := FindUserByEmail(users, email);
      if !PasswordMatches(user, password) then
        LoginResult(InvalidCredentials, [CheckLock(key), RegisterFailed(key)])
      else
        LoginResult(LoggedIn(key), [CheckLock(key), RegisterSuccess(key)])
  }

  /** While an address is locked, the outcome depends neither on the user list nor on the password. */
  lemma LockedRevealsNothing(users: seq<User>, otherUsers: seq<User>, email: string,
                             password: string, otherPassword: string, lockOf: string -> LockStatus)
    requires lockOf(EmailKey(email)).locked
    ensures Login(users, email, password, lockOf) == Login(otherUsers, email, otherPassword, lockOf)
  {
  }

  /**
   After a successful login, looking up the address stored in the session
   finds the very record whose password was checked.
   */
  lemma SessionResolves(users: seq<User>, email: string, password: string, lockOf: string -> LockStatus)
    requires Login(users, email, password, lockOf).outcome.LoggedIn?
    ensures var session := Login(users, email, password, lockOf).outcome.sessionEmail;
            && FindUserByEmail(users, session) == FindUserByEmail(users, email)
            && PasswordMatches(FindUserByEmail(users, session), password)
  {
    FindByKeyAgrees(users, email);
  }

  /**
   An admin change that keeps e-mail addresses and passwords leaves every
   login as it was: the login route never reads the status or the role.
   */
  lemma UpdateKeepsLogin(users: seq<User>, userId: int, change: User -> User,
                         email: string, password: string, lockOf: string -> LockStatus)
    requires forall u :: change(u).email == u.email && change(u).password == u.password
    ensures Login(UpdateFirst(users, userId, change), email, password, lockOf) == Login(users, email, password, lockOf)
  {
    UpdateKeepsLookup(users, userId, change, EmailKey(email));
  }

  /** A disabled account logs in like an active one: toggling a user never changes a login's outcome. */
  lemma ToggleKeepsLogin(users: seq<User>, userId: int, email: string, password: string, lockOf: string -> LockStatus)
    ensures Login(ToggleUser(users, userId), email, password, lockOf) == Login(users, email, password, lockOf)
  {
    UpdateKeepsLogin(users, userId, Flipped, email, password, lockOf);
  }

  /** A role change never changes a login's outcome. */
  lemma ChangeRoleKeepsLogin(users: seq<User>, userId: int, formRole: Option<string>,
                             email: string, password: string, lockOf: string -> LockStatus)
    ensures Login(ChangeRole(users, userId, formRole), email, password, lockOf) == Login(users, email, password, lockOf)
  {
    UpdateKeepsLogin(users, userId, WithRole(formRole), email, password, lockOf);
  }
}
