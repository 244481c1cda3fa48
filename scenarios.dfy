/**
 * Request sequences against one portal, proved from the handlers' contracts alone: what
 * a client sees when it registers, signs in, resets a password, signs out and deletes
 * its account.
 */
module Scenarios {
  import opened Wrappers
  import opened Text
  import opened Security
  import opened Database
  import opened App

  /**
   * A fresh account can sign in straight away with the password it registered, whatever
   * the case of the email and the spaces around it.
   */
  method RegisterThenLogin(
    p: Portal, fullName: Option<string>, email: Option<string>, phone: Option<string>,
    password: Option<string>, consent: Option<string>, salt: string, ip: Option<string>,
    typed: Option<string>)
    returns (registered: Status, signedIn: Status)
    requires p.Valid() && HashesVerify(p.hasher, p.checker)
    requires NormalizeEmail(email) !in p.users
    requires NormalizeEmail(typed) == NormalizeEmail(email)
    modifies p
    ensures p.Valid()
    ensures registered == Done && signedIn == Done
    ensures p.session == Some(NormalizeEmail(email))
    ensures p.users[NormalizeEmail(email)].lastLogin == Some(p.clock)
  {
    registered := p.Register(fullName, email, phone, password, consent, salt, ip);
    signedIn := p.Login(typed, password, ip);
  }

  /** Two registrations that differ only in case and surrounding spaces are one account. */
  method RegisterDuplicateCase(
    p: Portal, fullName: Option<string>, password: Option<string>, salt: string, ip: Option<string>)
    returns (first: Status, second: Status)
    requires p.Valid() && "a@b.com" !in p.users
    modifies p
    ensures p.Valid()
    ensures first == Done && second == EmailTaken
    ensures p.users.Keys == old(p.users).Keys + {"a@b.com"}
    ensures |p.audit| == |old(p.audit)| + 1
  {
    NormalizeCollides();
    first := p.Register(fullName, Some("A@B.com"), None, password, None, salt, ip);
    second := p.Register(fullName, Some(" a@b.com"), None, password, None, salt, ip);
  }

  /** After a reset with a strong password, the new password signs in. */
  method ResetThenLogin(p: Portal, email: string, newPassword: string, salt: string, ip: Option<string>)
    returns (reset: Status, signedIn: Status)
    requires p.Valid() && HashesVerify(p.hasher, p.checker)
    requires p.EmailsNormalized() && email in p.users
    requires IsStrongPassword(Some(newPassword))
    modifies p
    ensures p.Valid()
    ensures reset == Done && signedIn == Done && p.session == Some(email)
  {
    reset := p.ResetPassword(Some(email), Some(newPassword), salt, ip);
    signedIn := p.Login(Some(email), Some(newPassword), ip);
  }

  /**
   * The reset form takes the email as typed: a differently-cased email updates no row,
   * yet the reset is logged as a success. The forgot-password step that leads there does
   * find the account.
   */
  method ResetWrongCase(p: Portal, newPassword: Option<string>, salt: string, ip: Option<string>)
    returns (found: ForgotOutcome, reset: Status)
    requires p.Valid() && p.EmailsNormalized() && "a@b.com" in p.users
    requires IsStrongPassword(newPassword)
    modifies p
    ensures p.Valid()
    ensures found == ToResetPage("a@b.com")
    ensures reset == Done && p.users == old(p.users)
    ensures |p.audit| == |old(p.audit)| + 1 && p.audit[|p.audit| - 1].event == PasswordResetSuccess
  {
    NoCaseTwin(p);
    found := p.ForgotPassword(Some("A@B.com"));
    reset := p.ResetPassword(Some("A@B.com"), newPassword, salt, ip);
  }

  /** With stored emails in normal form, `"a@b.com"` has no upper-case twin account. */
  lemma NoCaseTwin(p: Portal)
    requires p.EmailsNormalized() && "a@b.com" in p.users
    ensures "A@B.com" !in p.users
    ensures NormalizeEmail(Some("A@B.com")) == "a@b.com"
  {
    NormalizeCollides();
  }

  /** Signing out twice is signing out once. */
  method LogoutTwice(p: Portal, ip: Option<string>)
    requires p.Valid()
    modifies p
    ensures p.Valid()
    ensures p.session == None && p.users == old(p.users)
    ensures p.audit == old(p.audit) +
      (if old(p.SignedIn()) then [AuditEntry(old(p.nextAuditId), LogoutEvent, old(p.session), ip, p.clock)] else [])
  {
    p.Logout(ip);
    p.Logout(ip);
  }

  /**
   * A deleted account can no longer sign in, its dashboard redirects to login, and the
   * audit rows written under its email stay.
   */
  method DeleteThenLogin(p: Portal, password: Option<string>, ip: Option<string>)
    returns (deleted: Status, signedIn: Status, page: Page<DashboardInfo>)
    requires p.Valid() && p.EmailsNormalized() && p.SignedIn()
    modifies p
    ensures p.Valid()
    ensures deleted == Done && signedIn == InvalidCredentials && page == ToLogin
    ensures old(p.session).value !in p.users
    ensures old(p.audit) <= p.audit
  {
    var e := p.session;
    deleted := p.DeleteAccount(ip);
    signedIn := p.Login(e, password, ip);
    page := p.Dashboard();
  }

  /**
   * Registration accepts a form without an email. That account signs in under the empty
   * email, which the dashboard treats as nobody signed in while the profile page shows it.
   */
  method EmptyEmailAccount(
    p: Portal, password: Option<string>, salt: string, ip: Option<string>)
    returns (registered: Status, signedIn: Status, dash: Page<DashboardInfo>, prof: Page<ProfileInfo>)
    requires p.Valid() && HashesVerify(p.hasher, p.checker) && "" !in p.users
    modifies p
    ensures p.Valid()
    ensures registered == Done && signedIn == Done && p.session == Some("")
    ensures dash == ToLogin && prof.Show? && prof.view.email == ""
  {
    assert NormalizeEmail(None) == "";
    registered := p.Register(None, None, None, password, None, salt, ip);
    signedIn := p.Login(None, password, ip);
    dash := p.Dashboard();
    prof := p.Profile();
  }
}
