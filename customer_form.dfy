/**
 * The browser-side checks of the customer form: the SIRET and email
 * shapes, and the decision of `validateCustomerForm`. Whitespace is the
 * JavaScript notion behind `\s` and `String.prototype.trim`.
 */
module CustomerFormChecks {
  /** A character matched by `\s` (and removed by `trim`). */
  predicate IsJsSpace(c: char)
  {
    || c == '\t' || c == '\n' || c == '\U{000B}' || c == '\U{000C}' || c == '\r' || c == ' '
    || c == '\U{00A0}' || c == '\U{1680}' || ('\U{2000}' <= c <= '\U{200A}')
    || c == '\U{2028}' || c == '\U{2029}' || c == '\U{202F}' || c == '\U{205F}'
    || c == '\U{3000}' || c == '\U{FEFF}'
  }

  /** `s.trim()` is falsy: the string is empty or holds only whitespace. */
  predicate IsJsBlank(s: string)
  {
    forall i | 0 <= i < |s| :: IsJsSpace(s[i])
  }

  /** `\d`: an ASCII decimal digit. */
  predicate IsDecimalDigit(c: char)
  {
    '0' <= c <= '9'
  }

  /** `s.replace(/\s/g, '')`. */
  function RemoveWhitespace(s: string): (r: string)
    ensures |r| <= |s|
    ensures forall i | 0 <= i < |r| :: !IsJsSpace(r[i])
  {
    if s == [] then []
    else if IsJsSpace(s[0]) then RemoveWhitespace(s[1..])
    else [s[0]] + RemoveWhitespace(s[1..])
  }

  /** Removing whitespace works piecewise. */
  lemma {:induction false} RemoveWhitespaceAppend(a: string, b: string)
    ensures RemoveWhitespace(a + b) == RemoveWhitespace(a) + RemoveWhitespace(b)
  {
    if a == [] {
      assert a + b == b;
    } else {
      assert (a + b)[0] == a[0];
      assert (a + b)[1..] == a[1..] + b;
      RemoveWhitespaceAppend(a[1..], b);
      var head := if IsJsSpace(a[0]) then [] else [a[0]];
      assert RemoveWhitespace(a + b) == head + (RemoveWhitespace(a[1..]) + RemoveWhitespace(b));
      assert head + (RemoveWhitespace(a[1..]) + RemoveWhitespace(b)) == (head + RemoveWhitespace(a[1..])) + RemoveWhitespace(b);
    }
  }

  /** A string without whitespace is left as it is. */
  lemma {:induction false} RemoveWhitespaceKeeps(s: string)
    requires forall i | 0 <= i < |s| :: !IsJsSpace(s[i])
    ensures RemoveWhitespace(s) == s
  {
    if s != [] {
      assert forall i | 0 <= i < |s| - 1 :: s[1..][i] == s[i + 1];
      RemoveWhitespaceKeeps(s[1..]);
      assert s == [s[0]] + s[1..];
    }
  }

  /** Only whitespace removes to nothing. */
  lemma {:induction false} RemoveWhitespaceOfBlank(w: string)
    ensures RemoveWhitespace(w) == "" <==> IsJsBlank(w)
  {
    if w != [] {
      RemoveWhitespaceOfBlank(w[1..]);
      assert forall i | 1 <= i < |w| :: w[1..][i - 1] == w[i];
    }
  }

  /** `isValidSiret`: once whitespace is removed, exactly 14 decimal digits. No checksum is computed. */
  predicate IsValidSiret(siret: string)
  {
    var digits := RemoveWhitespace(siret);
    |digits| == 14 && forall i | 0 <= i < |digits| :: IsDecimalDigit(digits[i])
  }

  /** Whitespace inserted anywhere never changes the verdict. */
  lemma SiretIgnoresWhitespace(s: string, i: nat, w: string)
    requires i <= |s| && IsJsBlank(w)
    ensures IsValidSiret(s[..i] + w + s[i..]) == IsValidSiret(s)
  {
    RemoveWhitespaceAppend(s[..i] + w, s[i..]);
    RemoveWhitespaceAppend(s[..i], w);
    RemoveWhitespaceAppend(s[..i], s[i..]);
    RemoveWhitespaceOfBlank(w);
    assert s[..i] + s[i..] == s;
    assert RemoveWhitespace(s[..i] + w + s[i..]) == RemoveWhitespace(s);
  }

  /** Fourteen digits in a row are a valid SIRET. */
  lemma FourteenDigitsAccepted(s: string)
    requires |s| == 14 && forall i | 0 <= i < |s| :: IsDecimalDigit(s[i])
    ensures IsValidSiret(s)
  {
    RemoveWhitespaceKeeps(s);
  }

  /** Thirteen characters are too few, whatever they are. */
  lemma ShortSiretRefused(s: string)
    requires |s| < 14
    ensures !IsValidSiret(s)
  {
  }

  /** A character that is neither whitespace nor '@', as `[^\s@]` matches. */
  predicate IsWordChar(c: char)
  {
    !IsJsSpace(c) && c != '@'
  }

  /** `s[lo..hi]` is a non-empty run of `[^\s@]`. */
  predicate IsWordRun(s: string, lo: int, hi: int)
  {
    0 <= lo < hi <= |s| && forall i | lo <= i < hi :: IsWordChar(s[i])
  }

  /**
   * `isValidEmail`: the whole string matches `^[^\s@]+@[^\s@]+\.[^\s@]+$`,
   * i.e. it splits at an '@' and, after it, at a '.' into three non-empty
   * runs without whitespace or '@'.
   */
  predicate IsValidEmail(s: string)
  {
    exists at, dot | 0 < at < dot < |s| ::
      && s[at] == '@' && s[dot] == '.'
      && IsWordRun(s, 0, at) && IsWordRun(s, at + 1, dot) && IsWordRun(s, dot + 1, |s|)
  }

  /** The number of times `c` occurs in `s`. */
  function Occurrences(s: string, c: char): (n: nat)
    ensures n <= |s|
    ensures n == 0 <==> forall i | 0 <= i < |s| :: s[i] != c
  {
    if s == [] then 0
    else
      assert forall i | 1 <= i < |s| :: s[1..][i - 1] == s[i];
      (if s[0] == c then 1 else 0) + Occurrences(s[1..], c)
  }

  /** `c` occurs once exactly when there is one position holding it and no other. */
  lemma {:induction false} OccursOnce(s: string, c: char, k: int)
    requires 0 <= k < |s| && s[k] == c
    ensures Occurrences(s, c) == 1 <==> forall i | 0 <= i < |s| && i != k :: s[i] != c
  {
    assert forall i | 1 <= i < |s| :: s[1..][i - 1] == s[i];
    if k > 0 {
      OccursOnce(s[1..], c, k - 1);
    }
  }

  /**
   * The email shape in plain terms: no whitespace, exactly one '@', a
   * non-empty part before it, and after it a '.' that is neither the first
   * nor the last character of that part.
   */
  predicate EmailShaped(s: string)
  {
    && (forall i | 0 <= i < |s| :: !IsJsSpace(s[i]))
    && Occurrences(s, '@') == 1
    && exists at | 0 < at < |s| && s[at] == '@' ::
         exists dot | at + 1 < dot < |s| - 1 :: s[dot] == '.'
  }

  /** The regex accepts exactly the strings of that shape. */
  lemma EmailShape(s: string)
    ensures IsValidEmail(s) <==> EmailShaped(s)
  {
    if IsValidEmail(s) {
      ValidEmailIsShaped(s);
    }
    if EmailShaped(s) {
      ShapedEmailIsValid(s);
    }
  }

  lemma ValidEmailIsShaped(s: string)
    requires IsValidEmail(s)
    ensures EmailShaped(s)
  {
    var at, dot :| 0 < at < dot < |s| && s[at] == '@' && s[dot] == '.'
      && IsWordRun(s, 0, at) && IsWordRun(s, at + 1, dot) && IsWordRun(s, dot + 1, |s|);
    assert forall i | 0 <= i < |s| && i != at :: IsWordChar(s[i]);
    OccursOnce(s, '@', at);
    assert at + 1 < dot < |s| - 1;
  }

  lemma ShapedEmailIsValid(s: string)
    requires EmailShaped(s)
    ensures IsValidEmail(s)
  {
    var at :| 0 < at < |s| && s[at] == '@' && exists dot | at + 1 < dot < |s| - 1 :: s[dot] == '.';
    var dot :| at + 1 < dot < |s| - 1 && s[dot] == '.';
    OccursOnce(s, '@', at);
    assert IsWordRun(s, 0, at) && IsWordRun(s, at + 1, dot) && IsWordRun(s, dot + 1, |s|);
  }

  /** A plain address is accepted. */
  lemma PlainEmailAccepted()
    ensures IsValidEmail("a@b.c")
  {
    var s := "a@b.c";
    assert s[1] == '@' && s[3] == '.';
    assert IsWordRun(s, 0, 1) && IsWordRun(s, 2, 3) && IsWordRun(s, 4, |s|);
  }

  /** A second '@' is refused. */
  lemma TwoAtSignsRefused()
    ensures !IsValidEmail("a@b@c.d")
  {
    var s := "a@b@c.d";
    forall at, dot | 0 < at < dot < |s| && s[at] == '@' && s[dot] == '.'
      ensures !(IsWordRun(s, 0, at) && IsWordRun(s, at + 1, dot) && IsWordRun(s, dot + 1, |s|))
    {
      if at == 1 {
        assert !IsWordChar(s[3]);
      } else {
        assert !IsWordChar(s[1]);
      }
    }
  }

  /** A '.' right after the '@' is refused. */
  lemma DotRightAfterAtRefused()
    ensures !IsValidEmail("a@.c")
  {
    var s := "a@.c";
    forall at, dot | 0 < at < dot < |s| && s[at] == '@' && s[dot] == '.'
      ensures !IsWordRun(s, at + 1, dot)
    {
      assert at == 1 && dot == 2;
    }
  }

  const CompanyNameRequired := "Le nom de société est requis"
  const EmailInvalid := "Format d'email invalide"
  const SiretInvalid := "Format SIRET invalide (14 chiffres requis)"

  /**
   * `validateCustomerForm`: the company name must not be blank; a
   * non-blank email and a non-blank SIRET must have the right shape. Each
   * failed check pushes its message, in that order.
   */
  method ValidateCustomerForm(companyName: string, email: string, siret: string)
    returns (isValid: bool, errors: seq<string>)
    ensures isValid <==> errors == []
    ensures isValid <==>
      && !IsJsBlank(companyName)
      && (IsJsBlank(email) || IsValidEmail(email))
      && (IsJsBlank(siret) || IsValidSiret(siret))
    ensures errors ==
      (if IsJsBlank(companyName) then [CompanyNameRequired] else [])
      + (if !IsJsBlank(email) && !IsValidEmail(email) then [EmailInvalid] else [])
      + (if !IsJsBlank(siret) && !IsValidSiret(siret) then [SiretInvalid] else [])
  {
    isValid := true;
    errors := [];
    if IsJsBlank(companyName) {
      errors := errors + [CompanyNameRequired];
      isValid := false;
    }
    if !IsJsBlank(email) && !IsValidEmail(email) {
      errors := errors + [EmailInvalid];
      isValid := false;
    }
    if !IsJsBlank(siret) && !IsValidSiret(siret) {
      errors := errors + [SiretInvalid];
      isValid := false;
    }
  }
}
