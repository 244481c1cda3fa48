/**
 * The input validators and the password-hashing wrappers of security.py.
 */
module Security {
  import opened Wrappers
  import opened Text

  // ---------------------------------------------------------------------------------------
  // is_valid_email: EMAIL_RE = ^[^@\s]+@[^@\s]+\.[^@\s]+$

  /** One `[^@\s]+` run. */
  predicate Segment(s: string) {
    |s| > 0 && forall i :: 0 <= i < |s| ==> s[i] != '@' && !IsSpace(s[i])
  }

  /** `s` splits as a run, `@` at `i`, a run, `.` at `j`, and a run. */
  predicate SplitAt(s: string, i: int, j: int) {
    0 <= i < |s| && i < j < |s| && s[i] == '@' && s[j] == '.' &&
    Segment(s[..i]) && Segment(s[i + 1..j]) && Segment(s[j + 1..])
  }

  /** The whole of `s` is a local part, `@`, a host, `.`, and a final host. */
  predicate EmailPattern(s: string) {
    exists i, j :: 0 <= i < |s| && i < j < |s| && SplitAt(s, i, j)
  }

  /** `re.match` of the pattern: Python's `$` also matches just before a final newline. */
  predicate EmailRegexMatch(s: string) {
    EmailPattern(s) || (|s| > 0 && s[|s| - 1] == '\n' && EmailPattern(s[..|s| - 1]))
  }

  predicate IsValidEmail(email: Option<string>) {
    EmailRegexMatch(NormalizeEmail(email))
  }

  /** The shape the pattern describes, said directly. */
  ghost predicate EmailShape(s: string) {
    (forall k :: 0 <= k < |s| ==> !IsSpace(s[k])) &&
    exists i ::
      0 < i < |s| && s[i] == '@' &&
      (forall k :: 0 <= k < |s| && s[k] == '@' ==> k == i) &&
      exists j :: i + 1 < j < |s| - 1 && s[j] == '.'
  }

  /**
   * The pattern matches exactly the strings with no whitespace, exactly one `@` that is
   * not the first character, and a `.` in the domain with a character on each side.
   */
  lemma EmailPatternShape(s: string)
    ensures EmailPattern(s) <==> EmailShape(s)
  {
    if EmailPattern(s) {
      var i, j :| 0 <= i < |s| && i < j < |s| && SplitAt(s, i, j);
      var local, host, tld := s[..i], s[i + 1..j], s[j + 1..];
      forall k | 0 <= k < |s| && k != i && k != j
        ensures s[k] != '@' && !IsSpace(s[k])
      {
        if k < i {
          assert s[k] == local[k];
        } else if k < j {
          assert s[k] == host[k - i - 1];
        } else {
          assert s[k] == tld[k - j - 1];
        }
      }
      assert 0 < i && i + 1 < j < |s| - 1;
    }
    if EmailShape(s) {
      var i :|
        0 < i < |s| && s[i] == '@' &&
        (forall k :: 0 <= k < |s| && s[k] == '@' ==> k == i) &&
        exists j :: i + 1 < j < |s| - 1 && s[j] == '.';
      var j :| i + 1 < j < |s| - 1 && s[j] == '.';
      var local, host, tld := s[..i], s[i + 1..j], s[j + 1..];
      assert Segment(local) by {
        forall k | 0 <= k < |local| ensures local[k] != '@' && !IsSpace(local[k]) {
          assert local[k] == s[k];
        }
      }
      assert Segment(host) by {
        forall k | 0 <= k < |host| ensures host[k] != '@' && !IsSpace(host[k]) {
          assert host[k] == s[i + 1 + k];
        }
      }
      assert Segment(tld) by {
        forall k | 0 <= k < |tld| ensures tld[k] != '@' && !IsSpace(tld[k]) {
          assert tld[k] == s[j + 1 + k];
        }
      }
      assert SplitAt(s, i, j);
    }
  }

  /** The `$`-before-newline case needs a string that ends in whitespace. */
  lemma RegexMatchUntrimmed(s: string)
    requires s == [] || !IsSpace(s[|s| - 1])
    ensures EmailRegexMatch(s) <==> EmailPattern(s)
  {
  }

  /** After normalisation the `$`-before-newline case cannot arise. */
  lemma ValidEmailIsPattern(email: Option<string>)
    ensures IsValidEmail(email) <==> EmailPattern(NormalizeEmail(email))
  {
    var e := NormalizeEmail(email);
    assert IsValidEmail(email) == EmailRegexMatch(e);
    NormalizedEdges(email);
    RegexMatchUntrimmed(e);
  }

  /**
   * `is_valid_email` accepts exactly the inputs whose normalised form has no whitespace,
   * exactly one `@` with a non-empty local part, and a dot inside the domain.
   */
  lemma ValidEmailShape(email: Option<string>)
    ensures IsValidEmail(email) <==> EmailShape(NormalizeEmail(email))
  {
    var e := NormalizeEmail(email);
    ValidEmailIsPattern(email);
    EmailPatternShape(e);
  }

  /** Validation is insensitive to normalising first. */
  lemma ValidEmailNormalizes(email: Option<string>)
    ensures IsValidEmail(email) == IsValidEmail(Some(NormalizeEmail(email)))
  {
    NormalizeIdempotent(email);
  }

  /** A missing and an empty email are both rejected. */
  lemma EmailRejectsEmpty()
    ensures !IsValidEmail(None) && !IsValidEmail(Some(""))
  {
    assert NormalizeEmail(None) == "" == NormalizeEmail(Some(""));
  }

  lemma EmailAccepts()
    ensures IsValidEmail(Some("a@b.co"))
  {
    var s := "a@b.co";
    NormalizeFixed(s);
    ValidEmailIsPattern(Some(s));
    assert Segment(s[..1]) && Segment(s[2..3]) && Segment(s[4..]);
    assert SplitAt(s, 1, 3);
  }

  lemma EmailRejectsMissingDot()
    ensures !IsValidEmail(Some("a@b"))
  {
    var s := "a@b";
    NormalizeFixed(s);
    ValidEmailShape(Some(s));
  }

  lemma EmailRejectsSpace()
    ensures !IsValidEmail(Some("a b@c.com"))
  {
    var s := "a b@c.com";
    NormalizeFixed(s);
    ValidEmailShape(Some(s));
    assert IsSpace(s[1]);
  }

  // ---------------------------------------------------------------------------------------
  // is_strong_password

  /** `any(p(c) for c in s)`, scanning left to right. */
  function Any(s: string, p: char -> bool): bool {
    |s| > 0 && (p(s[0]) || Any(s[1..], p))
  }

  /** `not pw` rejects a missing or empty password; then length, a letter and a digit. */
  predicate IsStrongPassword(pw: Option<string>) {
    match pw
    case None => false
    case Some(s) => if s == [] || |s| < 8 then false else Any(s, IsAlpha) && Any(s, IsDigit)
  }

  lemma {:induction false} AnyExists(s: string, p: char -> bool)
    ensures Any(s, p) <==> exists i :: 0 <= i < |s| && p(s[i])
  {
    if |s| > 0 {
      AnyExists(s[1..], p);
      if Any(s[1..], p) {
        var i :| 0 <= i < |s| - 1 && p(s[1..][i]);
        assert p(s[i + 1]);
      }
      if !p(s[0]) && exists i :: 0 <= i < |s| && p(s[i]) {
        var i :| 0 <= i < |s| && p(s[i]);
        assert p(s[1..][i - 1]);
      }
    }
  }

  /** Exact characterisation of `is_strong_password`. */
  lemma StrongPasswordIff(pw: string)
    ensures IsStrongPassword(Some(pw)) <==>
      |pw| >= 8 &&
      (exists i :: 0 <= i < |pw| && IsAlpha(pw[i])) &&
      (exists i :: 0 <= i < |pw| && IsDigit(pw[i]))
    ensures !IsStrongPassword(None)
  {
    AnyExists(pw, IsAlpha);
    AnyExists(pw, IsDigit);
  }

  /** Appending characters never makes a strong password weak. */
  lemma StrongPasswordExtends(pw: string, t: string)
    requires IsStrongPassword(Some(pw))
    ensures IsStrongPassword(Some(pw + t))
  {
    StrongPasswordIff(pw);
    StrongPasswordIff(pw + t);
    var i :| 0 <= i < |pw| && IsAlpha(pw[i]);
    var j :| 0 <= j < |pw| && IsDigit(pw[j]);
    assert (pw + t)[i] == pw[i] && (pw + t)[j] == pw[j];
  }

  lemma PasswordAccepts()
    ensures IsStrongPassword(Some("abcd1234"))
  {
  }

  lemma PasswordRejectsNoDigit()
    ensures !IsStrongPassword(Some("abcdefgh"))
  {
  }

  lemma PasswordRejectsNoLetter()
    ensures !IsStrongPassword(Some("12345678"))
  {
  }

  lemma PasswordRejectsShort()
    ensures !IsStrongPassword(Some("")) && !IsStrongPassword(Some("ab1"))
  {
  }

  // ---------------------------------------------------------------------------------------
  // hash_password / verify_password over werkzeug, kept uninterpreted

  /** generate_password_hash as a function of the random salt it draws and the password. */
  type Hasher = (string, string) -> string

  /** check_password_hash(stored hash, candidate password). */
  type Checker = (string, string) -> bool

  function HashPassword(hash: Hasher, salt: string, pw: string): string {
    hash(salt, pw)
  }

  /** `verify_password(pw, h)` passes its arguments to the checker in the other order. */
  function VerifyPassword(check: Checker, pw: string, pwHash: string): bool {
    check(pwHash, pw)
  }

  /** The one property of the pair that the portal relies on: a hash verifies its own password. */
  ghost predicate HashesVerify(hash: Hasher, check: Checker) {
    forall salt, pw :: check(hash(salt, pw), pw)
  }

  /**
   * Through the two wrappers a stored hash verifies the password it was made from: the
   * swapped argument order of `verify_password` lines up with the checker.
   */
  lemma VerifyOwnHash(hash: Hasher, check: Checker, salt: string, pw: string)
    requires HashesVerify(hash, check)
    ensures VerifyPassword(check, pw, HashPassword(hash, salt, pw))
  {
  }
}
