/** The input checks the registration, authorised-student and parent routes and the
    parent form share: the email and phone regular expressions and the password
    strength rule of the registration route. */
module Validation {
  import opened Text

  predicate NotSpaceOrAt(c: char) {
    !IsJsSpace(c) && c != '@'
  }

  /** `[^\s@]+` without the length bound: no whitespace and no '@'. */
  predicate AllNotSpaceOrAt(s: string) {
    forall k :: 0 <= k < |s| ==> NotSpaceOrAt(s[k])
  }

  /** `^[^\s@]+@[^\s@]+\.[^\s@]+$` read as the regular expression reads it: the string
      splits at an '@' (position i) and a later '.' (position j) into three non-empty
      runs without whitespace or '@'. */
  ghost predicate MatchesEmailPattern(s: string) {
    exists i, j ::
      && 0 < i && i + 1 < j && j + 1 < |s|
      && s[i] == '@' && s[j] == '.'
      && AllNotSpaceOrAt(s[..i]) && AllNotSpaceOrAt(s[i + 1..j]) && AllNotSpaceOrAt(s[j + 1..])
  }

  /** The email check, stated by what an accepted address looks like: no whitespace,
      exactly one '@' which is not the first character, and a '.' in the part after
      the '@' with at least one character on each side of it. */
  predicate IsEmail(s: string) {
    && (forall m :: 0 <= m < |s| ==> !IsJsSpace(s[m]))
    && (exists k :: 0 < k < |s| && s[k] == '@'
         && (forall m :: 0 <= m < |s| && s[m] == '@' ==> m == k)
         && (exists p :: k + 1 < p < |s| - 1 && s[p] == '.'))
  }

  /** The characterisation accepts exactly the strings the regular expression matches. */
  lemma EmailMatchesPattern(s: string)
    ensures IsEmail(s) <==> MatchesEmailPattern(s)
  {
    if IsEmail(s) {
      EmailIsPattern(s);
    }
    if MatchesEmailPattern(s) {
      PatternIsEmail(s);
    }
  }

  /** An accepted address splits at its '@' and a later '.' as the pattern requires. */
  lemma EmailIsPattern(s: string)
    requires IsEmail(s)
    ensures MatchesEmailPattern(s)
  {
    var k :| 0 < k < |s| && s[k] == '@'
      && (forall m :: 0 <= m < |s| && s[m] == '@' ==> m == k)
      && (exists p :: k + 1 < p < |s| - 1 && s[p] == '.');
    var p :| k + 1 < p < |s| - 1 && s[p] == '.';
    var local, domain, tld := s[..k], s[k + 1..p], s[p + 1..];
    assert AllNotSpaceOrAt(local) by {
      forall q | 0 <= q < k ensures NotSpaceOrAt(local[q]) {
        assert local[q] == s[q];
      }
    }
    assert AllNotSpaceOrAt(domain) by {
      forall q | 0 <= q < |domain| ensures NotSpaceOrAt(domain[q]) {
        assert domain[q] == s[k + 1 + q];
      }
    }
    assert AllNotSpaceOrAt(tld) by {
      forall q | 0 <= q < |tld| ensures NotSpaceOrAt(tld[q]) {
        assert tld[q] == s[p + 1 + q];
      }
    }
  }

  /** A string the pattern matches has no whitespace and its '@' is the only one. */
  lemma PatternIsEmail(s: string)
    requires MatchesEmailPattern(s)
    ensures IsEmail(s)
  {
    var i, j :| && 0 < i && i + 1 < j && j + 1 < |s|
      && s[i] == '@' && s[j] == '.'
      && AllNotSpaceOrAt(s[..i]) && AllNotSpaceOrAt(s[i + 1..j]) && AllNotSpaceOrAt(s[j + 1..]);
    forall m | 0 <= m < |s| && m != i && m != j ensures NotSpaceOrAt(s[m]) {
      if m < i {
        assert s[m] == s[..i][m];
      } else if m < j {
        assert s[m] == s[i + 1..j][m - i - 1];
      } else {
        assert s[m] == s[j + 1..][m - j - 1];
      }
    }
    assert forall m :: 0 <= m < |s| && s[m] == '@' ==> m == i;
    assert i + 1 < j < |s| - 1 && s[j] == '.';
  }

  /** `[\d\s-]`: a digit, whitespace or a hyphen. */
  predicate IsPhoneChar(c: char) {
    IsDigit(c) || IsJsSpace(c) || c == '-'
  }

  /** `[\d\s-]{8,}`: at least eight phone characters. */
  predicate IsPhoneBody(s: string) {
    |s| >= 8 && forall k :: 0 <= k < |s| ==> IsPhoneChar(s[k])
  }

  /** `^\+?[\d\s-]{8,}$`. */
  predicate IsPhone(s: string) {
    IsPhoneBody(s) || (|s| > 0 && s[0] == '+' && IsPhoneBody(s[1..]))
  }

  /** An accepted phone number has at least eight digits, spaces or hyphens, and a '+'
      can only be its first character. */
  lemma PhoneShape(s: string)
    requires IsPhone(s)
    ensures |s| >= 8
    ensures forall k :: 0 < k < |s| ==> IsPhoneChar(s[k])
    ensures s[0] == '+' || IsPhoneChar(s[0])
    ensures s[0] == '+' ==> |s| >= 9
  {
    if !IsPhoneBody(s) {
      forall k | 0 < k < |s| ensures IsPhoneChar(s[k]) {
        assert s[k] == s[1..][k - 1];
      }
    }
  }

  /** The characters `[!@#$%^&*(),.?":{}|<>]` that count as special. */
  const SPECIAL_CHARS: string := "!@#$%^&*(),.?\":{}|<>"

  predicate HasCharWhere(s: string, p: char -> bool) {
    exists k :: 0 <= k < |s| && p(s[k])
  }

  /** `isPasswordStrong`: at least 8 characters with an upper-case letter, a lower-case
      letter, a digit and a special character. */
  predicate IsPasswordStrong(password: string) {
    && |password| >= 8
    && HasCharWhere(password, IsUpper)
    && HasCharWhere(password, IsLower)
    && HasCharWhere(password, IsDigit)
    && HasCharWhere(password, c => c in SPECIAL_CHARS)
  }

  /** A character of a string is still there after text is appended. */
  lemma HasCharWhereExtends(s: string, t: string, p: char -> bool)
    requires HasCharWhere(s, p)
    ensures HasCharWhere(s + t, p)
  {
    var k :| 0 <= k < |s| && p(s[k]);
    assert (s + t)[k] == s[k];
  }

  /** Appending characters to a strong password keeps it strong. */
  lemma StrongPasswordExtends(password: string, suffix: string)
    requires IsPasswordStrong(password)
    ensures IsPasswordStrong(password + suffix)
  {
    HasCharWhereExtends(password, suffix, IsUpper);
    HasCharWhereExtends(password, suffix, IsLower);
    HasCharWhereExtends(password, suffix, IsDigit);
    HasCharWhereExtends(password, suffix, c => c in SPECIAL_CHARS);
  }

  /** A string of two parts has a character of a kind exactly when one of the parts has. */
  lemma HasCharWhereAppend(s: string, t: string, p: char -> bool)
    ensures HasCharWhere(s + t, p) <==> HasCharWhere(s, p) || HasCharWhere(t, p)
  {
    if HasCharWhere(s + t, p) {
      var k :| 0 <= k < |s + t| && p((s + t)[k]);
      if k >= |s| {
        assert t[k - |s|] == (s + t)[k];
      }
    }
    if HasCharWhere(t, p) {
      var k :| 0 <= k < |t| && p(t[k]);
      assert (s + t)[|s| + k] == t[k];
    }
    if HasCharWhere(s, p) {
      HasCharWhereExtends(s, t, p);
    }
  }

  /** Each test of `isPasswordStrong` only asks whether a kind of character occurs, so
      the order of the parts of a password does not matter. */
  lemma StrongPasswordOrderFree(a: string, b: string)
    ensures IsPasswordStrong(a + b) <==> IsPasswordStrong(b + a)
  {
    HasCharWhereAppend(a, b, IsUpper);
    HasCharWhereAppend(b, a, IsUpper);
    HasCharWhereAppend(a, b, IsLower);
    HasCharWhereAppend(b, a, IsLower);
    HasCharWhereAppend(a, b, IsDigit);
    HasCharWhereAppend(b, a, IsDigit);
    HasCharWhereAppend(a, b, c => c in SPECIAL_CHARS);
    HasCharWhereAppend(b, a, c => c in SPECIAL_CHARS);
  }

  /** A password meeting all five rules is strong, and one that is too short is weak
      even with every kind of character. */
  lemma PasswordRulesEachNeeded()
    ensures IsPasswordStrong("Passw0rd!")
    ensures !IsPasswordStrong("Pa0!")
  {
    assert IsUpper("Passw0rd!"[0]) && IsLower("Passw0rd!"[1]);
    assert IsDigit("Passw0rd!"[5]) && "Passw0rd!"[8] in SPECIAL_CHARS;
  }

  /** Dropping the upper-case or the lower-case letter from a strong password makes it weak. */
  lemma PasswordNeedsBothCases()
    ensures !IsPasswordStrong("passw0rd!")
    ensures !IsPasswordStrong("PASSW0RD!")
  {
    forall k | 0 <= k < 9 ensures !IsUpper("passw0rd!"[k]) {}
    forall k | 0 <= k < 9 ensures !IsLower("PASSW0RD!"[k]) {}
  }

  /** Dropping the digit or the special character from a strong password makes it weak. */
  lemma PasswordNeedsDigitAndSpecial()
    ensures !IsPasswordStrong("Password!")
    ensures !IsPasswordStrong("Passw0rdd")
  {
    forall k | 0 <= k < 9 ensures !IsDigit("Password!"[k]) {}
    forall k | 0 <= k < 9 ensures "Passw0rdd"[k] !in SPECIAL_CHARS {}
  }
}
