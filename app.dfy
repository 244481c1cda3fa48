/**
 * The request handlers of app.py as the methods of one object. The object holds the two
 * tables of database.py with their AUTOINCREMENT counters, a logical clock standing for
 * `datetime('now')`, and the session of one client (the `user_email` entry of Flask's
 * signed cookie). Each handler returns what it ends in instead of flashing a message and
 * redirecting or rendering a page.
 */
module App {
  import opened Wrappers
  import opened Text
  import opened Security
  import opened Database

  // The `event` texts the handlers write into audit_logs.
  const RegisterSuccess: string := "REGISTER_SUCCESS"
  const LoginSuccess: string := "LOGIN_SUCCESS"
  const LoginFailed: string := "LOGIN_FAILED"
  const PasswordResetSuccess: string := "PASSWORD_RESET_SUCCESS"
  const LogoutEvent: string := "LOGOUT"
  const AccountDeletedByUser: string := "ACCOUNT_DELETED_BY_USER"

  /** The dashboard lists this many audit rows. */
  const RecentLimit: nat := 5

  /** What a form submission ends in. */
  datatype Status =
    | Done                // the change was made
    | EmailTaken          // the INSERT raised sqlite3.IntegrityError
    | InvalidCredentials  // "Invalid email or password."
    | WeakPassword        // the new password failed is_strong_password
    | LoginRedirect       // no signed-in user: redirect to the login page

  /** A page that needs a signed-in user: either a redirect to login or the page itself. */
  datatype Page<V> = ToLogin | Show(view: V)

  datatype DashboardInfo = DashboardInfo(
    name: string,
    lastLogin: Option<nat>,
    memberSince: nat,
    logs: seq<AuditEntry>)

  datatype ProfileInfo = ProfileInfo(fullName: string, email: string, createdAt: nat)

  /** forgot_password either sends the user straight to the reset page or shows a neutral notice. */
  datatype ForgotOutcome = ToResetPage(email: string) | ResetNotice

  class Portal {
    /** generate_password_hash and check_password_hash, left uninterpreted. */
    const hasher: Hasher
    const checker: Checker

    /** The `users` table, keyed by its UNIQUE email column. */
    var users: Users
    /** The `audit_logs` table in insertion order. */
    var audit: seq<AuditEntry>
    /** `session.get("user_email")`. */
    var session: Option<string>
    /** The next AUTOINCREMENT id of each table. */
    var nextUserId: nat
    var nextAuditId: nat
    /** The time `datetime('now')` would read. */
    var clock: nat

    /**
     * The schema constraints on both tables, and that a session always names an existing
     * account (only login writes the session, and delete clears it with the row).
     */
    ghost predicate Valid()
      reads this
    {
      UsersWellFormed(users, nextUserId, clock) &&
      AuditWellFormed(audit, nextAuditId, clock) &&
      (session.Some? ==> session.value in users)
    }

    /**
     * Every stored email is in the form register gives it, `(email or "").strip().lower()`:
     * register is the only INSERT into users, so no two accounts differ only in case or
     * surrounding whitespace.
     */
    ghost predicate EmailsNormalized()
      reads this
    {
      forall e :: e in users ==> NormalizeEmail(Some(e)) == e
    }

    /**
     * The guard `if not current_user_email()` of the handlers: a missing entry and an
     * empty email both count as nobody.
     */
    predicate SignedIn()
      reads this
    {
      session.Some? && session.value != ""
    }

    /** The app at start-up: `init_db()` has created both tables in a new database file. */
    constructor (hasher: Hasher, checker: Checker)
      ensures Valid() && EmailsNormalized()
      ensures this.hasher == hasher && this.checker == checker
      ensures users == map[] && audit == [] && session == None
      ensures nextUserId == 1 && nextAuditId == 1 && clock == 0
    {
      this.hasher := hasher;
      this.checker := checker;
      users := map[];
      audit := [];
      session := None;
      nextUserId := 1;
      nextAuditId := 1;
      clock := 0;
    }

    /** `init_db()` again: both CREATE TABLE IF NOT EXISTS find their table and change nothing. */
    method InitDb()
      requires Valid()
      ensures Valid()
      ensures users == old(users) && audit == old(audit) && session == old(session)
      ensures nextUserId == old(nextUserId) && nextAuditId == old(nextAuditId)
    {
    }

    /** Time passes between requests. */
    method AdvanceClock(seconds: nat)
      requires Valid()
      modifies this`clock
      ensures Valid()
      ensures clock == old(clock) + seconds
    {
      clock := clock + seconds;
    }

    /** `current_user_email()`. */
    function CurrentUserEmail(): (email: Option<string>)
      reads this
      requires Valid()
      ensures email.Some? ==> email.value in users
    {
      session
    }

    /** `login_required()`: lets the request through, or aborts it with 403. */
    method LoginRequired() returns (allowed: bool)
      requires Valid()
      ensures allowed <==> SignedIn()
      ensures allowed ==> session.value in users
    {
      allowed := SignedIn();
    }

    // -------------------------------------------------------------------------------------
    // database.py

    /** `log_event`: one new row at the end of audit_logs, with the next id and the current time. */
    method LogEvent(event: string, email: Option<string>, ip: Option<string>)
      requires Valid()
      modifies this`audit, this`nextAuditId
      ensures Valid()
      ensures audit == old(audit) + [AuditEntry(old(nextAuditId), event, email, ip, clock)]
      ensures nextAuditId == old(nextAuditId) + 1
    {
      AppendWellFormed(audit, nextAuditId, clock, AuditEntry(nextAuditId, event, email, ip, clock));
      audit := audit + [AuditEntry(nextAuditId, event, email, ip, clock)];
      nextAuditId := nextAuditId + 1;
    }

    /**
     * The INSERT into users under the schema: a taken email fails with IntegrityError and
     * writes nothing; otherwise the row gets the next id, created_at now and a null last_login.
     */
    method InsertUser(fullName: string, email: string, phone: string, pwHash: string, consent: int)
      returns (ok: bool)
      requires Valid()
      modifies this`users, this`nextUserId
      ensures Valid()
      ensures ok <==> email !in old(users)
      ensures ok ==>
        users == old(users)[email := UserRow(old(nextUserId), fullName, phone, pwHash, consent, clock, None)] &&
        nextUserId == old(nextUserId) + 1
      ensures !ok ==> users == old(users) && nextUserId == old(nextUserId)
    {
      if email in users {
        ok := false;
      } else {
        var row := UserRow(nextUserId, fullName, phone, pwHash, consent, clock, None);
        InsertWellFormed(users, nextUserId, clock, email, row);
        users := users[email := row];
        nextUserId := nextUserId + 1;
        ok := true;
      }
    }

    // -------------------------------------------------------------------------------------
    // app.py handlers

    /**
     * POST /register. The email is normalised and nothing is validated: any name, email
     * and password are stored. A taken email changes nothing.
     */
    method Register(
      fullName: Option<string>, email: Option<string>, phone: Option<string>,
      password: Option<string>, consent: Option<string>, salt: string, ip: Option<string>)
      returns (st: Status)
      requires Valid()
      modifies this`users, this`nextUserId, this`audit, this`nextAuditId
      ensures Valid()
      ensures old(EmailsNormalized()) ==> EmailsNormalized()
      ensures session == old(session)
      ensures var e := NormalizeEmail(email);
        e in old(users) ==>
          st == EmailTaken && users == old(users) && audit == old(audit) &&
          nextUserId == old(nextUserId) && nextAuditId == old(nextAuditId)
      ensures var e := NormalizeEmail(email);
        e !in old(users) ==>
          st == Done &&
          users == old(users)[e := UserRow(
            old(nextUserId), Strip(OrEmpty(fullName)), Strip(OrEmpty(phone)),
            HashPassword(hasher, salt, OrEmpty(password)),
            if consent == Some("on") then 1 else 0, clock, None)] &&
          nextUserId == old(nextUserId) + 1 &&
          audit == old(audit) + [AuditEntry(old(nextAuditId), RegisterSuccess, Some(e), ip, clock)] &&
          nextAuditId == old(nextAuditId) + 1
    {
      var name := Strip(OrEmpty(fullName));
      var e := NormalizeEmail(email);
      var tel := Strip(OrEmpty(phone));
      var pw := OrEmpty(password);
      var agreed := if consent == Some("on") then 1 else 0;
      var pwHash := HashPassword(hasher, salt, pw);
      NormalizeIdempotent(email);
      var ok := InsertUser(name, e, tel, pwHash, agreed);
      if ok {
        LogEvent(RegisterSuccess, Some(e), ip);
        st := Done;
      } else {
        st := EmailTaken;
      }
    }

    /**
     * POST /login. Succeeds exactly when the normalised email has a row whose hash verifies
     * the password; an unknown email and a wrong password end the same way.
     */
    method Login(email: Option<string>, password: Option<string>, ip: Option<string>)
      returns (st: Status)
      requires Valid()
      modifies this`users, this`session, this`audit, this`nextAuditId
      ensures Valid()
      ensures old(EmailsNormalized()) ==> EmailsNormalized()
      ensures nextAuditId == old(nextAuditId) + 1
      ensures var e := NormalizeEmail(email);
        st == Done <==> e in old(users) && VerifyPassword(checker, OrEmpty(password), old(users)[e].passwordHash)
      ensures var e := NormalizeEmail(email);
        st == Done ==>
          users == old(users)[e := old(users)[e].(lastLogin := Some(clock))] &&
          session == Some(e) &&
          audit == old(audit) + [AuditEntry(old(nextAuditId), LoginSuccess, Some(e), ip, clock)]
      ensures var e := NormalizeEmail(email);
        st != Done ==>
          st == InvalidCredentials &&
          users == old(users) && session == old(session) &&
          audit == old(audit) + [AuditEntry(old(nextAuditId), LoginFailed, Some(e), ip, clock)]
    {
      var e := NormalizeEmail(email);
      var pw := OrEmpty(password);
      if e in users && VerifyPassword(checker, pw, users[e].passwordHash) {
        users := users[e := users[e].(lastLogin := Some(clock))];
        session := Some(e);
        LogEvent(LoginSuccess, Some(e), ip);
        st := Done;
      } else {
        LogEvent(LoginFailed, Some(e), ip);
        st := InvalidCredentials;
      }
    }

    /**
     * POST /reset-password. Needs no session. The submitted email is used as it is, not
     * normalised: only a row with exactly that email gets the new hash, and success is
     * logged whether or not a row matched.
     */
    method ResetPassword(email: Option<string>, newPassword: Option<string>, salt: string, ip: Option<string>)
      returns (st: Status)
      requires Valid()
      modifies this`users, this`audit, this`nextAuditId
      ensures Valid()
      ensures old(EmailsNormalized()) ==> EmailsNormalized()
      ensures session == old(session)
      ensures !IsStrongPassword(newPassword) ==>
        st == WeakPassword && users == old(users) && audit == old(audit) && nextAuditId == old(nextAuditId)
      ensures IsStrongPassword(newPassword) ==>
        st == Done &&
        users == (if email.Some? && email.value in old(users)
                  then old(users)[email.value := old(users)[email.value].(
                         passwordHash := HashPassword(hasher, salt, newPassword.value))]
                  else old(users)) &&
        audit == old(audit) + [AuditEntry(old(nextAuditId), PasswordResetSuccess, email, ip, clock)] &&
        nextAuditId == old(nextAuditId) + 1
    {
      if IsStrongPassword(newPassword) {
        var pwHash := HashPassword(hasher, salt, newPassword.value);
        if email.Some? && email.value in users {
          users := users[email.value := users[email.value].(passwordHash := pwHash)];
        }
        LogEvent(PasswordResetSuccess, email, ip);
        st := Done;
      } else {
        st := WeakPassword;
      }
    }

    /** POST /dashboard: the signed-in user changes their password. Nothing is logged. */
    method ChangePassword(newPassword: Option<string>, salt: string) returns (st: Status)
      requires Valid()
      modifies this`users
      ensures Valid()
      ensures old(EmailsNormalized()) ==> EmailsNormalized()
      ensures audit == old(audit) && session == old(session)
      ensures !SignedIn() ==> st == LoginRedirect && users == old(users)
      ensures SignedIn() && !IsStrongPassword(newPassword) ==> st == WeakPassword && users == old(users)
      ensures SignedIn() && IsStrongPassword(newPassword) ==>
        var e := session.value;
        st == Done &&
        users == old(users)[e := old(users)[e].(passwordHash := HashPassword(hasher, salt, newPassword.value))]
    {
      if !SignedIn() {
        st := LoginRedirect;
      } else if IsStrongPassword(newPassword) {
        var e := session.value;
        var pwHash := HashPassword(hasher, salt, newPassword.value);
        users := users[e := users[e].(passwordHash := pwHash)];
        st := Done;
      } else {
        st := WeakPassword;
      }
    }

    /**
     * GET /dashboard: the signed-in user's name, last login and creation time, and the
     * newest audit rows that carry their email, at most five, newest first.
     */
    method Dashboard() returns (page: Page<DashboardInfo>)
      requires Valid()
      ensures page == ToLogin <==> !SignedIn()
      ensures page.Show? ==>
        var row := users[session.value];
        page.view.name == row.fullName && page.view.lastLogin == row.lastLogin &&
        page.view.memberSince == row.createdAt &&
        page.view.logs == Recent(audit, session.value, RecentLimit)
      ensures page.Show? ==>
        |page.view.logs| <= RecentLimit &&
        forall k :: 0 <= k < |page.view.logs| ==>
          page.view.logs[k] in audit && page.view.logs[k].email == session
      ensures page.Show? ==>
        forall a, b :: 0 <= a < b < |page.view.logs| ==>
          page.view.logs[b].createdAt <= page.view.logs[a].createdAt
    {
      if !SignedIn() {
        page := ToLogin;
      } else {
        var e := session.value;
        var row := users[e];
        var logs := Recent(audit, e, RecentLimit);
        RecentRows(audit, e, RecentLimit);
        RecentNewestFirst(audit, e, RecentLimit);
        page := Show(DashboardInfo(row.fullName, row.lastLogin, row.createdAt, logs));
      }
    }

    /** GET /logout: the session ends; LOGOUT is logged only if somebody was signed in. */
    method Logout(ip: Option<string>)
      requires Valid()
      modifies this`session, this`audit, this`nextAuditId
      ensures Valid()
      ensures session == None && users == old(users)
      ensures old(SignedIn()) ==>
        audit == old(audit) + [AuditEntry(old(nextAuditId), LogoutEvent, old(session), ip, clock)] &&
        nextAuditId == old(nextAuditId) + 1
      ensures !old(SignedIn()) ==> audit == old(audit) && nextAuditId == old(nextAuditId)
    {
      if SignedIn() {
        LogEvent(LogoutEvent, session, ip);
      }
      session := None;
    }

    /**
     * GET /profile. Guarded by `'user_email' in session`, not by the truthiness test, so a
     * session holding the empty email is shown its profile.
     */
    method Profile() returns (page: Page<ProfileInfo>)
      requires Valid()
      ensures page == ToLogin <==> session == None
      ensures page.Show? ==>
        page.view.email == session.value && session.value in users &&
        page.view.fullName == users[session.value].fullName &&
        page.view.createdAt == users[session.value].createdAt
    {
      if session == None {
        page := ToLogin;
      } else {
        var e := session.value;
        page := Show(ProfileInfo(users[e].fullName, e, users[e].createdAt));
      }
    }

    /**
     * POST /forgot-password. Reads only: a known (normalised) email goes straight to the
     * reset page, any other gets the neutral notice.
     */
    method ForgotPassword(email: Option<string>) returns (r: ForgotOutcome)
      requires Valid()
      ensures r.ToResetPage? <==> NormalizeEmail(email) in users
      ensures r.ToResetPage? ==> r.email == NormalizeEmail(email)
    {
      var e := NormalizeEmail(email);
      if e in users {
        r := ToResetPage(e);
      } else {
        r := ResetNotice;
      }
    }

    /**
     * POST /delete-account. ACCOUNT_DELETED_BY_USER is logged first, then the signed-in
     * user's row is removed and the session cleared; earlier audit rows stay.
     */
    method DeleteAccount(ip: Option<string>) returns (st: Status)
      requires Valid()
      modifies this`users, this`session, this`audit, this`nextAuditId
      ensures Valid()
      ensures old(EmailsNormalized()) ==> EmailsNormalized()
      ensures !old(SignedIn()) ==>
        st == LoginRedirect && users == old(users) && session == old(session) &&
        audit == old(audit) && nextAuditId == old(nextAuditId)
      ensures old(SignedIn()) ==>
        var e := old(session).value;
        st == Done && session == None &&
        users == old(users) - {e} &&
        audit == old(audit) + [AuditEntry(old(nextAuditId), AccountDeletedByUser, Some(e), ip, clock)] &&
        nextAuditId == old(nextAuditId) + 1
    {
      if !SignedIn() {
        st := LoginRedirect;
        return;
      }
      var e := session.value;
      LogEvent(AccountDeletedByUser, Some(e), ip);
      users := users - {e};
      session := None;
      st := Done;
    }
  }

  /** Two stored emails that normalise alike are the same account. */
  lemma NoTwins(p: Portal, a: string, b: string)
    requires p.EmailsNormalized() && a in p.users && b in p.users
    requires NormalizeEmail(Some(a)) == NormalizeEmail(Some(b))
    ensures a == b
  {
  }
}
