/**
 Concrete inputs that pin down how the validators of validation.py treat the
 edge cases of their patterns. All inputs are ASCII, which NFKC leaves alone.
 */
module ValidationExamples {
  import opened Chars
  import opened Text
  import opened Patterns
  import opened Validation
  import opened ValidationFacts

  /** An ASCII string with no whitespace at its ends is already normalised. */
  lemma AsciiNormalised(u: Unicode, s: string)
    requires u.Valid()
    requires AsciiText(s)
    requires Trimmed(s)
    ensures NormalizeBasic(u, s) == s
  {
    AsciiFixed(u, s);
    StripTrimmed(s);
  }

  // ---------------------------------------------------------------------------
  // Expiry date, against a clock reading of June 2025
  // ---------------------------------------------------------------------------

  lemma ExpiryThisMonthAccepted(u: Unicode)
    requires u.Valid()
    ensures ValidateExpDate(u, "06/25", Clock(2025, 6)) == Checked("06/25", "")
  {
    var s := "06/25";
    assert s[0] == '0' && s[1] == '6' && s[2] == '/' && s[3] == '2' && s[4] == '5';
    AsciiNormalised(u, s);
    assert ExpAccepted(s, Clock(2025, 6));
  }

  lemma ExpiryLastMonthExpired(u: Unicode)
    requires u.Valid()
    ensures ValidateExpDate(u, "05/25", Clock(2025, 6)) == Checked("", ExpiredError)
  {
    var s := "05/25";
    assert s[0] == '0' && s[1] == '5' && s[2] == '/' && s[3] == '2' && s[4] == '5';
    AsciiNormalised(u, s);
  }

  lemma ExpiryFifteenYearsAccepted(u: Unicode)
    requires u.Valid()
    ensures ValidateExpDate(u, "01/40", Clock(2025, 6)) == Checked("01/40", "")
  {
    var s := "01/40";
    assert s[0] == '0' && s[1] == '1' && s[2] == '/' && s[3] == '4' && s[4] == '0';
    AsciiNormalised(u, s);
    assert ExpAccepted(s, Clock(2025, 6));
  }

  lemma ExpirySixteenYearsTooFar(u: Unicode)
    requires u.Valid()
    ensures ValidateExpDate(u, "06/41", Clock(2025, 6)) == Checked("", TooFarError)
  {
    var s := "06/41";
    assert s[0] == '0' && s[1] == '6' && s[2] == '/' && s[3] == '4' && s[4] == '1';
    AsciiNormalised(u, s);
  }

  lemma ExpiryMonthThirteenRejected(u: Unicode)
    requires u.Valid()
    ensures ValidateExpDate(u, "13/25", Clock(2025, 6)) == Checked("", ExpFormatError)
  {
    var s := "13/25";
    assert s[0] == '1' && s[1] == '3' && s[2] == '/' && s[3] == '2' && s[4] == '5';
    AsciiNormalised(u, s);
  }

  // ---------------------------------------------------------------------------
  // Card number
  // ---------------------------------------------------------------------------

  /** A string with no space or hyphen is its own card digits. */
  lemma CardDigitsUnchanged(s: string)
    requires forall k :: 0 <= k < |s| ==> s[k] != ' ' && s[k] != '-'
    ensures CardDigits(s) == s
  {
    WithoutAbsent(s, ' ');
    WithoutAbsent(s, '-');
  }

  /**
   Any 13 to 19 digits and underscores are accepted as they stand: no checksum
   is computed, and `_` passes CARD_DIGITS_RE.
   */
  lemma CardDigitsAccepted(u: Unicode, d: string)
    requires 13 <= |d| <= 19 && AllIn(d, IsCardChar)
    requires u.nfkc(d) == d
    ensures ValidateCardNumber(u, d) == Checked(d, "")
  {
    assert Trimmed(d);
    StripTrimmed(d);
    CardDigitsUnchanged(d);
    assert CardAccepted(d);
  }

  /** Deleting hyphens from a string that ends in one hyphen. */
  lemma WithoutLastHyphen(t: string)
    requires '-' !in t
    ensures Without(t + "-", '-') == t
  {
    WithoutAppend(t, "-", '-');
    WithoutAbsent(t, '-');
    assert Without("-", '-') == "";
  }

  /**
   A newline followed by a hyphen survives `strip()`; deleting the hyphen leaves
   the newline last, where Python's `$` accepts it, and it ends up in the clean
   value.
   */
  lemma CardTrailingNewlineAccepted(u: Unicode, d: string)
    requires 13 <= |d| <= 19 && AllIn(d, IsAsciiDigit)
    requires u.nfkc(d + "\n-") == d + "\n-"
    ensures ValidateCardNumber(u, d + "\n-") == Checked(d + "\n", "")
  {
    var s := d + "\n-";
    assert Trimmed(s);
    StripTrimmed(s);
    NewlineHyphenDigits(d);
  }

  /** The card digits of `d + "\n-"`, and what CARD_DIGITS_RE makes of them. */
  lemma NewlineHyphenDigits(d: string)
    requires 13 <= |d| <= 19 && AllIn(d, IsAsciiDigit)
    ensures CardDigits(d + "\n-") == d + "\n"
    ensures CardAccepted(d + "\n")
  {
    var t := d + "\n";
    var s := t + "-";
    assert s == d + "\n-";
    assert forall k :: 0 <= k < |s| ==> s[k] != ' ';
    WithoutAbsent(s, ' ');
    assert forall k :: 0 <= k < |t| ==> t[k] != '-';
    WithoutLastHyphen(t);
    assert t[..|t| - 1] == d;
  }

  /** Feeding that clean value back in loses the newline to `strip()`. */
  lemma CardTrailingNewlineDropped(u: Unicode, d: string)
    requires 13 <= |d| <= 19 && AllIn(d, IsAsciiDigit)
    requires u.nfkc(d + "\n") == d + "\n"
    ensures ValidateCardNumber(u, d + "\n") == Checked(d, "")
  {
    assert Trimmed(d);
    StripPlusSpace(d, '\n');
    CardDigitsUnchanged(d);
    assert CardAccepted(d);
  }

  // ---------------------------------------------------------------------------
  // CVV and mobile number: unanchored patterns
  // ---------------------------------------------------------------------------

  /** Anything may follow the three characters CVV_RE looks at. */
  lemma CvvLongTailAccepted(u: Unicode)
    requires u.Valid()
    ensures ValidateCvv(u, "12345abc") == Checked("", "")
  {
    var s := "12345abc";
    AsciiNormalised(u, s);
    assert s[..3] == "123";
  }

  lemma CvvTooShortRejected(u: Unicode)
    requires u.Valid()
    ensures ValidateCvv(u, "12") == Checked("", CvvError)
  {
    AsciiNormalised(u, "12");
  }

  /**
   Whatever follows the first seven digits, letters and single spaces included,
   is kept in the clean value.
   */
  lemma MobileTailKept(u: Unicode, s: string)
    requires |s| >= 7 && AllIn(s[..7], IsAsciiDigit)
    requires Trimmed(s) && SingleSpaced(s)
    requires u.nfkc(s) == s
    ensures ValidateMobileNumber(u, s) == Checked(s, "")
  {
    StripTrimmed(s);
    SquashFixed(s);
  }

  /**
   A whitespace run between two groups of digits becomes one plain space, which
   the mobile number keeps: it is collapsed, not removed.
   */
  lemma MobileRunCollapsed(u: Unicode, d: string, w: string, e: string)
    requires u.Valid()
    requires |d| >= 7 && AllIn(d, IsAsciiDigit)
    requires w != [] && AllSpace(w) && AsciiText(w)
    requires e != [] && AllIn(e, IsAsciiDigit)
    ensures ValidateMobileNumber(u, d + w + e) == Checked(d + " " + e, "")
  {
    var raw := d + w + e;
    assert AsciiText(d) && AsciiText(e);
    AsciiAppend(d, w);
    AsciiAppend(d + w, e);
    assert raw[0] == d[0] && raw[|raw| - 1] == e[|e| - 1];
    AsciiNormalised(u, raw);
    DigitRunsSquashed(d, w, e);
    assert (d + " " + e)[..7] == d[..7];
  }

  /** Collapse-then-strip turns digits, a whitespace run and digits into the digits around one space. */
  lemma DigitRunsSquashed(d: string, w: string, e: string)
    requires d != [] && AllIn(d, IsAsciiDigit)
    requires w != [] && AllSpace(w)
    requires e != [] && AllIn(e, IsAsciiDigit)
    ensures Squash(d + w + e) == d + " " + e
  {
    var raw := d + w + e;
    assert raw == d + (w + e);
    CollapseAppend(d, w + e);
    CollapseAppend(w, e);
    CollapseAllSpace(w);
    NoSpaceCollapsed(d);
    NoSpaceCollapsed(e);
    var r := d + " " + e;
    assert CollapseSpaces(raw) == r;
    assert Trimmed(r);
    StripTrimmed(r);
  }

  /** A run of ASCII digits is left unchanged by collapsing whitespace. */
  lemma NoSpaceCollapsed(d: string)
    requires AllIn(d, IsAsciiDigit)
    ensures CollapseSpaces(d) == d
  {
    SingleSpacedMeaning(d);
    CollapseSingleSpaced(d);
  }

  // ---------------------------------------------------------------------------
  // Password
  // ---------------------------------------------------------------------------

  lemma PasswordAllKindsAccepted(u: Unicode)
    requires u.Valid()
    ensures ValidatePassword(u, "Password1!") == Checked("Password1!", "")
  {
    var s := "Password1!";
    AsciiNormalised(u, s);
    PasswordAcceptsIff(u, s);
    SamplePasswordKinds(u);
  }

  /** "Password1!" is made of allowed characters and has one of every kind. */
  lemma SamplePasswordKinds(u: Unicode)
    requires u.Valid()
    ensures AllIn("Password1!", PasswordClass(u)) && HasEveryKind(u, "Password1!")
  {
    var s := "Password1!";
    assert forall k :: 0 <= k < |s| ==> PasswordClass(u)(s[k]);
    assert IsAsciiUpper(s[0]) && IsAsciiLower(s[1]) && u.isDecimal(s[8]) && IsPasswordSymbol(s[9]);
  }

  lemma PasswordWithoutCapitalRejected(u: Unicode)
    requires u.Valid()
    ensures ValidatePassword(u, "password1!") == Checked("", PasswordError)
  {
    var s := "password1!";
    AsciiNormalised(u, s);
    assert forall k :: 0 <= k < |s| ==> !IsAsciiUpper(s[k]);
  }

  lemma PasswordWithSpaceRejected(u: Unicode)
    requires u.Valid()
    ensures ValidatePassword(u, "Pass word1!") == Checked("", PasswordError)
  {
    var s := "Pass word1!";
    AsciiNormalised(u, s);
    assert !PasswordClass(u)(s[4]);
  }

  /** A trailing space is stripped before PASSWORD_RE runs, so it does not cost acceptance. */
  lemma PasswordTrailingSpaceStripped(u: Unicode)
    requires u.Valid()
    ensures ValidatePassword(u, "Password1! ") == Checked("Password1!", "")
  {
    var s := "Password1!";
    assert AsciiText(s) && Trimmed(s);
    TrailingSpaceNormalised(u, s);
    assert s + " " == "Password1! ";
    PasswordSameNormalForm(u, s + " ", s);
    PasswordAllKindsAccepted(u);
  }

  /** The password check reads its input only through `normalize_basic`. */
  lemma PasswordSameNormalForm(u: Unicode, a: string, b: string)
    requires NormalizeBasic(u, a) == NormalizeBasic(u, b)
    ensures ValidatePassword(u, a) == ValidatePassword(u, b)
  {
  }

  /** An ASCII trimmed string followed by one space normalises to the string alone. */
  lemma TrailingSpaceNormalised(u: Unicode, s: string)
    requires u.Valid()
    requires AsciiText(s) && Trimmed(s)
    ensures NormalizeBasic(u, s + " ") == NormalizeBasic(u, s) == s
  {
    AsciiAppend(s, " ");
    AsciiFixed(u, s + " ");
    StripPlusSpace(s, ' ');
    AsciiNormalised(u, s);
  }

  // ---------------------------------------------------------------------------
  // E-mail
  // ---------------------------------------------------------------------------

  /** Addresses are lowered before the pattern is applied. */
  lemma EmailLowered(u: Unicode)
    requires u.Valid()
    ensures ValidateEmail(u, "Ana.Diaz@Example.COM") == Checked("ana.diaz@example.com", "")
  {
    AsciiNormalised(u, "Ana.Diaz@Example.COM");
    SampleEmailLowered();
    SampleEmailPattern();
  }

  lemma SampleEmailLowered()
    ensures Lower("Ana.Diaz@Example.COM") == "ana.diaz@example.com"
  {
  }

  lemma SampleEmailPattern()
    ensures EmailPattern("ana.diaz@example.com")
  {
    assert EmailSplit("ana.diaz@example.com", 8, 16, 20);
  }

  /** A one-letter top-level domain is rejected. */
  lemma EmailShortTopLevelRejected(u: Unicode)
    requires u.Valid()
    ensures ValidateEmail(u, "ana@example.c") == Checked("", EmailFormatError)
  {
    var s := "ana@example.c";
    AsciiNormalised(u, s);
    LowerFixed(s);
    if EmailPattern(s) {
      EmailPatternShape(s);
    }
  }
}
