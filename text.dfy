/**
 * The Python string builtins the validators and handlers rely on, restricted to ASCII:
 * `str.isspace` (which is also what the regex class `\s` and `str.strip()` use),
 * `str.isalpha`, `str.isdigit`, `str.strip` and `str.lower`, and the email normalisation
 * `(s or "").strip().lower()` that every handler and `is_valid_email` apply.
 */
module Text {
  import opened Wrappers

  // ---------------------------------------------------------------------------------------
  // Character classes

  /** ASCII whitespace as Python sees it: space, \t \n \v \f \r and the separators 0x1C-0x1F. */
  predicate IsSpace(c: char) {
    c == ' ' || '\t' <= c <= '\r' || '\U{1C}' <= c <= '\U{1F}'
  }

  predicate IsAlpha(c: char) {
    'a' <= c <= 'z' || 'A' <= c <= 'Z'
  }

  predicate IsDigit(c: char) {
    '0' <= c <= '9'
  }

  function LowerChar(c: char): char {
    if 'A' <= c <= 'Z' then (c as int + 32) as char else c
  }

  // ---------------------------------------------------------------------------------------
  // String normalisation: `(s or "").strip().lower()`

  /** Python's `s or ""` for a form field that may be missing. */
  function OrEmpty(s: Option<string>): string {
    if s.Some? then s.value else ""
  }

  /** Drops the leading whitespace. */
  function TrimLeft(s: string): string {
    if |s| > 0 && IsSpace(s[0]) then TrimLeft(s[1..]) else s
  }

  /** Drops the trailing whitespace. */
  function TrimRight(s: string): string {
    if |s| > 0 && IsSpace(s[|s| - 1]) then TrimRight(s[..|s| - 1]) else s
  }

  /** `str.strip()`. */
  function Strip(s: string): string {
    TrimRight(TrimLeft(s))
  }

  /** `str.lower()` on ASCII letters. */
  function Lower(s: string): string {
    seq(|s|, i requires 0 <= i < |s| => LowerChar(s[i]))
  }

  /** How every handler and `is_valid_email` normalise a submitted email. */
  function NormalizeEmail(email: Option<string>): string {
    Lower(Strip(OrEmpty(email)))
  }

  /** `TrimLeft` removes a prefix made of whitespace, and all of it. */
  lemma {:induction false} TrimLeftSpec(s: string)
    ensures var r := TrimLeft(s);
      |r| <= |s| && r == s[|s| - |r|..] &&
      (forall i :: 0 <= i < |s| - |r| ==> IsSpace(s[i])) &&
      (r == [] || !IsSpace(r[0]))
  {
    if |s| > 0 && IsSpace(s[0]) {
      TrimLeftSpec(s[1..]);
      var r := TrimLeft(s[1..]);
      assert s[1..][|s| - 1 - |r|..] == s[|s| - |r|..];
      forall i | 0 < i < |s| - |r| ensures IsSpace(s[i]) {
        assert s[i] == s[1..][i - 1];
      }
    }
  }

  /** `TrimRight` removes a suffix made of whitespace, and all of it. */
  lemma {:induction false} TrimRightSpec(s: string)
    ensures var r := TrimRight(s);
      |r| <= |s| && r == s[..|r|] &&
      (forall i :: |r| <= i < |s| ==> IsSpace(s[i])) &&
      (r == [] || !IsSpace(r[|r| - 1]))
  {
    if |s| > 0 && IsSpace(s[|s| - 1]) {
      TrimRightSpec(s[..|s| - 1]);
      var r := TrimRight(s[..|s| - 1]);
      assert s[..|s| - 1][..|r|] == s[..|r|];
      forall i | |r| <= i < |s| - 1 ensures IsSpace(s[i]) {
        assert s[i] == s[..|s| - 1][i];
      }
    }
  }

  /** `r` is `s` with the `a` characters before it and all after it removed, all of them whitespace. */
  ghost predicate StrippedAt(s: string, a: int, r: string) {
    0 <= a && a + |r| <= |s| && s[a..a + |r|] == r &&
    (forall i :: 0 <= i < a ==> IsSpace(s[i])) &&
    (forall i :: a + |r| <= i < |s| ==> IsSpace(s[i]))
  }

  /** `strip()` keeps the longest infix that neither starts nor ends with whitespace. */
  lemma StripSpec(s: string)
    ensures StrippedAt(s, |s| - |TrimLeft(s)|, Strip(s))
    ensures var r := Strip(s); r == [] || (!IsSpace(r[0]) && !IsSpace(r[|r| - 1]))
  {
    var l := TrimLeft(s);
    var r := TrimRight(l);
    TrimLeftSpec(s);
    TrimRightSpec(l);
    var a := |s| - |l|;
    assert s[a..][..|r|] == s[a..a + |r|];
    forall i | a + |r| <= i < |s| ensures IsSpace(s[i]) {
      assert s[i] == l[i - a];
    }
    assert r != [] ==> r[0] == l[0];
  }

  /** A string without whitespace at either end is left alone by `strip()`. */
  lemma StripUntrimmed(s: string)
    requires s == [] || (!IsSpace(s[0]) && !IsSpace(s[|s| - 1]))
    ensures Strip(s) == s
  {
  }

  /** Lowering changes no character's whitespace-ness. */
  lemma LowerKeepsEdges(s: string)
    requires s == [] || (!IsSpace(s[0]) && !IsSpace(s[|s| - 1]))
    ensures var t := Lower(s); t == [] || (!IsSpace(t[0]) && !IsSpace(t[|t| - 1]))
  {
  }

  /** A normalised email never starts or ends with whitespace. */
  lemma NormalizedEdges(email: Option<string>)
    ensures var e := NormalizeEmail(email); e == [] || (!IsSpace(e[0]) && !IsSpace(e[|e| - 1]))
  {
    StripSpec(OrEmpty(email));
    LowerKeepsEdges(Strip(OrEmpty(email)));
  }

  lemma LowerIdempotent(s: string)
    ensures Lower(Lower(s)) == Lower(s)
  {
    var t := Lower(s);
    forall i | 0 <= i < |s| ensures Lower(t)[i] == t[i] {
      assert t[i] == LowerChar(s[i]);
    }
  }

  /** Normalising twice is normalising once. */
  lemma NormalizeIdempotent(email: Option<string>)
    ensures NormalizeEmail(Some(NormalizeEmail(email))) == NormalizeEmail(email)
  {
    var e := NormalizeEmail(email);
    NormalizedEdges(email);
    StripUntrimmed(e);
    assert OrEmpty(Some(e)) == e;
    LowerIdempotent(Strip(OrEmpty(email)));
  }

  predicate NoUpper(s: string) {
    forall i :: 0 <= i < |s| ==> !('A' <= s[i] <= 'Z')
  }

  /** A lower-case email without surrounding whitespace is its own normal form. */
  lemma NormalizeFixed(s: string)
    requires s == [] || (!IsSpace(s[0]) && !IsSpace(s[|s| - 1]))
    requires NoUpper(s)
    ensures NormalizeEmail(Some(s)) == s
  {
    StripUntrimmed(s);
    assert OrEmpty(Some(s)) == s;
    assert Lower(s) == s;
  }

  /** Two spellings that every handler treats as one account. */
  lemma NormalizeCollides()
    ensures NormalizeEmail(Some("A@B.com")) == NormalizeEmail(Some(" a@b.com")) == "a@b.com"
  {
    StripUntrimmed("A@B.com");
    assert OrEmpty(Some("A@B.com")) == "A@B.com";
    assert Lower("A@B.com") == "a@b.com";
    assert OrEmpty(Some(" a@b.com")) == " a@b.com";
    assert Strip(" a@b.com") == "a@b.com";
    NormalizeFixed("a@b.com");
  }
}
