/**
 Properties of the validators that relate several calls: feeding a clean
 value back in, what the password pattern amounts to, when the payment form
 is error-free, and concrete inputs that show the patterns' edge cases.
 */
module ValidationFacts {
  import opened Chars
  import opened Text
  import opened Patterns
  import opened Validation

  /** A string of ASCII characters. */
  predicate AsciiText(s: string) {
    forall k :: 0 <= k < |s| ==> IsAscii(s[k])
  }

  // ---------------------------------------------------------------------------
  // Validating a clean value again
  // ---------------------------------------------------------------------------

  /** A name's clean value validates to itself; a rejected name's empty clean value is rejected again. */
  lemma NameRevalidates(u: Unicode, raw: string)
    requires u.nfkc(ValidateName(u, raw).clean) == ValidateName(u, raw).clean
    ensures ValidateName(u, ValidateName(u, raw).clean) == ValidateName(u, raw)
  {
    var c := ValidateName(u, raw).clean;
    StripTrimmed(c);
    if ValidateName(u, raw).error == "" {
      SquashFixed(c);
    }
  }

  /**
   A name's clean value holds every non-whitespace character of the NFKC form
   of the input, in order: only whitespace is dropped or collapsed.
   */
  lemma NameKeepsContent(u: Unicode, raw: string)
    requires ValidateName(u, raw).error == ""
    ensures NonSpace(ValidateName(u, raw).clean) == NonSpace(u.nfkc(raw))
  {
    SquashKeepsContent(NormalizeBasic(u, raw));
    StripKeepsContent(u.nfkc(raw));
  }

  /**
   A mobile number's clean value holds every non-whitespace character of the
   NFKC form of the input: whitespace runs are collapsed, not removed.
   */
  lemma MobileKeepsContent(u: Unicode, raw: string)
    requires ValidateMobileNumber(u, raw).error == ""
    ensures NonSpace(ValidateMobileNumber(u, raw).clean) == NonSpace(u.nfkc(raw))
    ensures SingleSpaced(ValidateMobileNumber(u, raw).clean)
  {
    SquashKeepsContent(NormalizeBasic(u, raw));
    StripKeepsContent(u.nfkc(raw));
  }

  /** A mobile number's clean value validates to itself. */
  lemma MobileRevalidates(u: Unicode, raw: string)
    requires ValidateMobileNumber(u, raw).error == ""
    requires u.nfkc(ValidateMobileNumber(u, raw).clean) == ValidateMobileNumber(u, raw).clean
    ensures ValidateMobileNumber(u, ValidateMobileNumber(u, raw).clean) == ValidateMobileNumber(u, raw)
  {
    var c := ValidateMobileNumber(u, raw).clean;
    StripTrimmed(c);
    SquashFixed(c);
  }

  /** An e-mail address's clean value is ASCII, so NFKC leaves it alone, and it validates to itself. */
  lemma EmailRevalidates(u: Unicode, raw: string)
    requires u.Valid()
    requires ValidateEmail(u, raw).error == ""
    ensures ValidateEmail(u, ValidateEmail(u, raw).clean) == ValidateEmail(u, raw)
  {
    var c := ValidateEmail(u, raw).clean;
    EmailPatternAscii(c);
    AsciiFixed(u, c);
    StripTrimmed(c);
    LowerFixed(c);
  }

  /** Every character EMAIL_BASIC_RE admits in a stripped string is ASCII. */
  lemma EmailPatternAscii(s: string)
    requires Trimmed(s) && EmailPattern(s)
    ensures AsciiText(s)
  {
    var at, dot, end :| 0 <= at < dot < end <= |s| && EmailSplit(s, at, dot, end);
    assert end == |s| by {
      assert |s| > 0 ==> IsSpace(s[|s| - 1]) || s[|s| - 1] != '\n';
    }
    forall k | 0 <= k < |s|
      ensures IsAscii(s[k])
    {
      if k < at {
        assert s[..at][k] == s[k];
      } else if at < k < dot {
        assert s[at + 1..dot][k - at - 1] == s[k];
      } else if k > dot {
        assert s[dot + 1..end][k - dot - 1] == s[k];
      }
    }
  }

  /** The concatenation of ASCII strings is ASCII. */
  lemma AsciiAppend(a: string, b: string)
    requires AsciiText(a) && AsciiText(b)
    ensures AsciiText(a + b)
  {
    assert forall k :: 0 <= k < |a| ==> (a + b)[k] == a[k];
    assert forall k :: |a| <= k < |a| + |b| ==> (a + b)[k] == b[k - |a|];
  }

  /** NFKC leaves ASCII text alone. */
  lemma AsciiFixed(u: Unicode, s: string)
    requires u.Valid() && AsciiText(s)
    ensures u.nfkc(s) == s
  {
  }

  /** A password's clean value validates to itself. */
  lemma PasswordRevalidates(u: Unicode, raw: string)
    requires ValidatePassword(u, raw).error == ""
    requires u.nfkc(ValidatePassword(u, raw).clean) == ValidatePassword(u, raw).clean
    ensures ValidatePassword(u, ValidatePassword(u, raw).clean) == ValidatePassword(u, raw)
  {
    StripTrimmed(ValidatePassword(u, raw).clean);
  }

  /** An expiry date's clean value is ASCII, and validates to itself against the same clock. */
  lemma ExpRevalidates(u: Unicode, raw: string, now: Clock)
    requires u.Valid() && now.Valid()
    requires ValidateExpDate(u, raw, now).error == ""
    ensures ValidateExpDate(u, ValidateExpDate(u, raw, now).clean, now) == ValidateExpDate(u, raw, now)
  {
    var c := ValidateExpDate(u, raw, now).clean;
    ExpShapeAscii(c);
    AsciiFixed(u, c);
    StripTrimmed(c);
  }

  /** A string of the `MM/YY` shape is ASCII. */
  lemma ExpShapeAscii(s: string)
    requires ExpShape(s)
    ensures AsciiText(s)
  {
  }

  /**
   A card number's clean value validates to itself unless it ends in the newline
   Python's `$` lets through; `strip()` removes that newline on the second pass.
   */
  lemma CardRevalidates(u: Unicode, raw: string)
    requires u.Valid()
    requires ValidateCardNumber(u, raw).error == ""
    requires ValidateCardNumber(u, raw).clean[|ValidateCardNumber(u, raw).clean| - 1] != '\n'
    ensures ValidateCardNumber(u, ValidateCardNumber(u, raw).clean) == ValidateCardNumber(u, raw)
  {
    var c := ValidateCardNumber(u, raw).clean;
    assert 13 <= |c| <= 19 && AllIn(c, IsCardChar);
    assert AsciiText(c);
    AsciiFixed(u, c);
    assert Trimmed(c);
    StripTrimmed(c);
    WithoutAbsent(c, ' ');
    WithoutAbsent(c, '-');
  }

  // ---------------------------------------------------------------------------
  // Password
  // ---------------------------------------------------------------------------

  /**
   What PASSWORD_RE asks of a normalised password: 8 to 64 allowed characters
   including an ASCII capital, an ASCII small letter, a decimal digit and a
   symbol.
   */
  lemma PasswordAcceptsIff(u: Unicode, raw: string)
    requires u.Valid()
    ensures var p := NormalizeBasic(u, raw);
            ValidatePassword(u, raw).error == "" <==>
              8 <= |p| <= 64 && AllIn(p, PasswordClass(u)) && HasEveryKind(u, p)
  {
    var p := NormalizeBasic(u, raw);
    if 8 <= |p| <= 64 && AllIn(p, PasswordClass(u)) && HasEveryKind(u, p) {
      RunToEndTrimmed(p, PasswordClass(u), 8, 64);
      PasswordHasNoSpace(u, p);
      LookaheadNoNewline(p, IsAsciiUpper);
      LookaheadNoNewline(p, IsAsciiLower);
      LookaheadNoNewline(p, u.isDecimal);
      LookaheadNoNewline(p, IsPasswordSymbol);
      assert PasswordPattern(u, p);
    }
  }

  /** A password made of allowed characters holds no whitespace, so in particular no newline. */
  lemma PasswordHasNoSpace(u: Unicode, p: string)
    requires u.Valid()
    requires AllIn(p, PasswordClass(u))
    ensures forall k :: 0 <= k < |p| ==> !IsSpace(p[k])
    ensures '\n' !in p
  {
    forall k | 0 <= k < |p|
      ensures !IsSpace(p[k])
    {
      assert PasswordClass(u)(p[k]);
    }
  }

  /** An accepted password holds no whitespace. */
  lemma PasswordAcceptedHasNoSpace(u: Unicode, raw: string)
    requires u.Valid()
    requires ValidatePassword(u, raw).error == ""
    ensures forall k :: 0 <= k < |ValidatePassword(u, raw).clean| ==> !IsSpace(ValidatePassword(u, raw).clean[k])
  {
    PasswordHasNoSpace(u, ValidatePassword(u, raw).clean);
  }

  // ---------------------------------------------------------------------------
  // Payment form
  // ---------------------------------------------------------------------------

  /** The payment form is error-free exactly when each of its five validators succeeds. */
  lemma PaymentFormAcceptsIff(u: Unicode, now: Clock, cardNumber: string, expDate: string,
                              cvv: string, nameOnCard: string, billingEmail: string)
    requires now.Valid()
    ensures ValidatePaymentForm(u, now, cardNumber, expDate, cvv, nameOnCard, billingEmail).errors == map[] <==>
              && ValidateCardNumber(u, cardNumber).error == ""
              && ValidateExpDate(u, expDate, now).error == ""
              && ValidateCvv(u, cvv).error == ""
              && ValidateName(u, nameOnCard).error == ""
              && ValidateEmail(u, billingEmail).error == ""
  {
    CollectAcceptsIff(ValidateCardNumber(u, cardNumber), ValidateExpDate(u, expDate, now), ValidateCvv(u, cvv),
                      ValidateName(u, nameOnCard), ValidateEmail(u, billingEmail));
  }

  lemma CollectAcceptsIff(card: Checked, exp: Checked, code: Checked, name: Checked, email: Checked)
    ensures Collect(card, exp, code, name, email).errors == map[] <==>
              card.error == "" && exp.error == "" && code.error == "" && name.error == "" && email.error == ""
  {
    var r := Collect(card, exp, code, name, email);
    if card.error != "" { assert "card_number" in r.errors; }
    if exp.error != "" { assert "exp_date" in r.errors; }
    if code.error != "" { assert "cvv" in r.errors; }
    if name.error != "" { assert "name_on_card" in r.errors; }
    if email.error != "" { assert "billing_email" in r.errors; }
  }
}
