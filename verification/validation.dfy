/**
 The field validators of validation.py. Each one normalises its raw input
 (NFKC, then `strip()`), checks it against one of the patterns, and returns a
 `(clean, error)` pair whose error is empty on success and whose clean value
 is empty on failure.
 */
module Validation {
  import opened Chars
  import opened Text
  import opened Patterns

  /** The `(clean_value, error_message)` pair every validator returns. */
  datatype Checked = Checked(clean: string, error: string)

  /** validation.py:8-14: an error always comes with an empty clean value. */
  predicate Settled(r: Checked) {
    r.error != "" ==> r.clean == ""
  }

  const CardError := "Número de tarjeta inválido: debe contener solo dígitos y tener entre 13 y 19 caracteres."
  const ExpFormatError := "Fecha de expiración inválida: formato debe ser MM/YY y mes entre 01 y 12."
  const ExpiredError := "La tarjeta ha expirado."
  const TooFarError := "Fecha de expiración demasiado lejana."
  const CvvError := "CVV inválido: debe contener solo dígitos y tener 3 o 4 caracteres."
  const EmailLengthError := "Correo electrónico inválido: debe tener máximo 254 caracteres."
  const EmailFormatError := "Correo electrónico inválido: formato incorrecto."
  const NameError := "Nombre inválido: debe tener entre 2 y 60 caracteres y solo contener letras, espacios, apóstrofes o guiones."
  const MobileError := "Número inválido: debe tener entre 7 y 15 númers, sin identificador internacionales ni letras o caracteres especiales."
  const PasswordError := "Contraseña inválida: debe tener entre 8 y 64 caracteres, contener al menos una letra mayúscula, una letra minúscula y un número, y no contener caracteres especiales."

  /**
   `normalize_basic`: NFKC, then `strip()`: the NFKC form with the whitespace
   at both ends cut off, and nothing else.
   */
  function NormalizeBasic(u: Unicode, value: string): (r: string)
    ensures Trimmed(r)
    ensures exists i :: StripsTo(u.nfkc(value), i, r)
  {
    Strip(u.nfkc(value))
  }

  // ---------------------------------------------------------------------------
  // Card number
  // ---------------------------------------------------------------------------

  /** A normalised card number with every ASCII space and hyphen deleted. */
  function CardDigits(s: string): (c: string)
    ensures ' ' !in c && '-' !in c
  {
    Without(Without(s, ' '), '-')
  }

  /**
   What CARD_DIGITS_RE accepts: 13 to 19 characters of `[0-9_]`, optionally
   followed by one newline, which Python's `$` lets through.
   */
  predicate CardAccepted(c: string) {
    || (13 <= |c| <= 19 && AllIn(c, IsCardChar))
    || (13 < |c| <= 20 && c[|c| - 1] == '\n' && AllIn(c[..|c| - 1], IsCardChar))
  }

  /** `validate_card_number`. No Luhn check is made. */
  function ValidateCardNumber(u: Unicode, raw: string): (r: Checked)
    ensures Settled(r)
    ensures r.error == "" || r.error == CardError
    ensures r.error == "" <==> CardAccepted(CardDigits(NormalizeBasic(u, raw)))
    ensures r.error == "" ==> r.clean == CardDigits(NormalizeBasic(u, raw)) && ' ' !in r.clean && '-' !in r.clean
  {
    var c := CardDigits(NormalizeBasic(u, raw));
    RunToEndIff(c, IsCardChar, 13, 19);
    if !RunToEnd(c, IsCardChar, 13, 19) then Checked("", CardError) else Checked(c, "")
  }

  // ---------------------------------------------------------------------------
  // Expiry date
  // ---------------------------------------------------------------------------

  /** The UTC date the expiry check reads from the clock. */
  datatype Clock = Clock(year: int, month: int) {

    predicate Valid() {
      1 <= year <= 9999 && 1 <= month <= 12
    }

    /** `int(str(now.year)[-2:])`: the last two digits of the year. */
    function ShortYear(): (y: int)
      requires Valid()
      ensures 0 <= y <= 99
    {
      year % 100
    }
  }

  function DigitValue(c: char): int
    requires IsAsciiDigit(c)
  {
    c as int - '0' as int
  }

  /** `int(...)` of a two-digit ASCII numeral. */
  function TwoDigits(a: char, b: char): (n: int)
    requires IsAsciiDigit(a) && IsAsciiDigit(b)
    ensures 0 <= n <= 99
  {
    10 * DigitValue(a) + DigitValue(b)
  }

  /** The `MM/YY` shape: two ASCII digits, a slash, two ASCII digits. */
  predicate ExpShape(s: string) {
    |s| == 5 && IsAsciiDigit(s[0]) && IsAsciiDigit(s[1]) && s[2] == '/' && IsAsciiDigit(s[3]) && IsAsciiDigit(s[4])
  }

  function ExpMonth(s: string): int
    requires ExpShape(s)
  {
    TwoDigits(s[0], s[1])
  }

  function ExpYear(s: string): int
    requires ExpShape(s)
  {
    TwoDigits(s[3], s[4])
  }

  /** `(year, month)` is not before `(now year, now month)` in lexicographic order. */
  predicate NotBefore(year: int, month: int, now: Clock)
    requires now.Valid()
  {
    year > now.ShortYear() || (year == now.ShortYear() && month >= now.month)
  }

  /** Everything `validate_exp_date` demands of a normalised expiry date. */
  predicate ExpAccepted(s: string, now: Clock)
    requires now.Valid()
  {
    && ExpShape(s)
    && 1 <= ExpMonth(s) <= 12
    && NotBefore(ExpYear(s), ExpMonth(s), now)
    && ExpYear(s) <= now.ShortYear() + 15
  }

  /**
   On a normalised string EXP_RE is exactly "MM/YY with MM from 01 to 12"; in
   particular `split("/")` yields two parts that `int()` reads, so the
   `except` branch of validate_exp_date cannot be reached.
   */
  lemma ExpPatternMeaning(s: string)
    requires Trimmed(s)
    ensures ExpPattern(s) <==> ExpShape(s) && 1 <= ExpMonth(s) <= 12
    ensures ExpPattern(s) ==> '/' !in s[..2] && '/' !in s[3..]
  {
    if |s| > 5 {
      assert IsSpace(s[|s| - 1]) || s[|s| - 1] != '\n';
    }
  }

  /** `validate_exp_date`, with the clock reading passed in as `now`. */
  function ValidateExpDate(u: Unicode, raw: string, now: Clock): (r: Checked)
    requires now.Valid()
    ensures Settled(r)
    ensures r.error == "" <==> ExpAccepted(NormalizeBasic(u, raw), now)
    ensures r.error == "" ==> r.clean == NormalizeBasic(u, raw)
    ensures r.error == ExpFormatError <==> !(ExpShape(NormalizeBasic(u, raw)) && 1 <= ExpMonth(NormalizeBasic(u, raw)) <= 12)
    ensures r.error == ExpiredError <==>
              var s := NormalizeBasic(u, raw);
              ExpShape(s) && 1 <= ExpMonth(s) <= 12 && !NotBefore(ExpYear(s), ExpMonth(s), now)
    ensures r.error == TooFarError <==>
              var s := NormalizeBasic(u, raw);
              ExpShape(s) && 1 <= ExpMonth(s) <= 12 && NotBefore(ExpYear(s), ExpMonth(s), now)
              && ExpYear(s) > now.ShortYear() + 15
  {
    var s := NormalizeBasic(u, raw);
    ExpPatternMeaning(s);
    if !ExpPattern(s) then Checked("", ExpFormatError)
    else
      var month := TwoDigits(s[0], s[1]);
      var year := TwoDigits(s[3], s[4]);
      var current := now.ShortYear();
      if year < current || (year == current && month < now.month) then Checked("", ExpiredError)
      else if year > current + 15 then Checked("", TooFarError)
      else Checked(s, "")
  }

  // ---------------------------------------------------------------------------
  // CVV
  // ---------------------------------------------------------------------------

  /** `validate_cvv`: CVV_RE has no `$`, so only the first three characters are examined. */
  function ValidateCvv(u: Unicode, raw: string): (r: Checked)
    ensures r.clean == ""
    ensures r.error == "" || r.error == CvvError
    ensures r.error == "" <==>
              var s := NormalizeBasic(u, raw);
              |s| >= 3 && AllIn(s[..3], IsCardChar)
  {
    var s := NormalizeBasic(u, raw);
    RunPrefixIff(s, IsCardChar, 3, 4);
    if !RunPrefix(s, IsCardChar, 3, 4) then Checked("", CvvError) else Checked("", "")
  }

  // ---------------------------------------------------------------------------
  // E-mail
  // ---------------------------------------------------------------------------

  /** The normalised, lowered address `validate_email` works on. */
  function EmailText(u: Unicode, raw: string): (e: string)
    ensures Trimmed(e)
  {
    var n := NormalizeBasic(u, raw);
    LowerTrimmed(n);
    Lower(n)
  }

  /** `validate_email`: the length bound is checked before the pattern. */
  function ValidateEmail(u: Unicode, raw: string): (r: Checked)
    ensures Settled(r)
    ensures r.error == EmailLengthError <==> |EmailText(u, raw)| > 254
    ensures r.error == EmailFormatError <==> |EmailText(u, raw)| <= 254 && !EmailPattern(EmailText(u, raw))
    ensures r.error == "" <==> |EmailText(u, raw)| <= 254 && EmailPattern(EmailText(u, raw))
    ensures r.error == "" ==>
              && r.clean == EmailText(u, raw)
              && 6 <= |r.clean| <= 254
              && (forall k :: 0 <= k < |r.clean| ==> !IsAsciiUpper(r.clean[k]))
              && multiset(r.clean)['@'] == 1
              && IsAsciiLetter(r.clean[|r.clean| - 1]) && IsAsciiLetter(r.clean[|r.clean| - 2])
  {
    var e := EmailText(u, raw);
    if |e| > 254 then Checked("", EmailLengthError)
    else if !EmailPattern(e) then Checked("", EmailFormatError)
    else
      EmailPatternShape(e);
      Checked(e, "")
  }

  // ---------------------------------------------------------------------------
  // Name and mobile number
  // ---------------------------------------------------------------------------

  /** The normalised input with whitespace runs collapsed and the ends stripped again. */
  function SquashedText(u: Unicode, raw: string): (s: string)
    ensures Trimmed(s) && SingleSpaced(s)
  {
    Squash(NormalizeBasic(u, raw))
  }

  /** `validate_name`. */
  function ValidateName(u: Unicode, raw: string): (r: Checked)
    ensures Settled(r)
    ensures r.error == "" || r.error == NameError
    ensures r.error == "" <==>
              var s := SquashedText(u, raw);
              2 <= |s| <= 60 && AllIn(s, IsNameChar)
    ensures r.error == "" ==>
              && r.clean == SquashedText(u, raw)
              && Trimmed(r.clean)
              && SingleSpaced(r.clean)
  {
    var s := SquashedText(u, raw);
    RunToEndTrimmed(s, IsNameChar, 2, 60);
    if !RunToEnd(s, IsNameChar, 2, 60) then Checked("", NameError) else Checked(s, "")
  }

  /**
   `validate_mobile_number`: whitespace runs become single spaces but are kept,
   and MOBILE_RE has no `$`, so only the first seven characters are examined.
   */
  function ValidateMobileNumber(u: Unicode, raw: string): (r: Checked)
    ensures Settled(r)
    ensures r.error == "" || r.error == MobileError
    ensures r.error == "" <==>
              var s := SquashedText(u, raw);
              |s| >= 7 && AllIn(s[..7], IsAsciiDigit)
    ensures r.error == "" ==> r.clean == SquashedText(u, raw)
  {
    var s := SquashedText(u, raw);
    RunPrefixIff(s, IsAsciiDigit, 7, 15);
    if !RunPrefix(s, IsAsciiDigit, 7, 15) then Checked("", MobileError) else Checked(s, "")
  }

  // ---------------------------------------------------------------------------
  // Password
  // ---------------------------------------------------------------------------

  /** The four character kinds PASSWORD_RE's lookaheads insist on, read without newlines. */
  predicate HasEveryKind(u: Unicode, p: string) {
    && Contains(p, IsAsciiUpper)
    && Contains(p, IsAsciiLower)
    && Contains(p, u.isDecimal)
    && Contains(p, IsPasswordSymbol)
  }

  /** `validate_password`: the clean value is the normalised input itself. */
  function ValidatePassword(u: Unicode, raw: string): (r: Checked)
    ensures Settled(r)
    ensures r.error == "" || r.error == PasswordError
    ensures r.error == "" ==>
              var p := NormalizeBasic(u, raw);
              && r.clean == p
              && 8 <= |p| <= 64
              && AllIn(p, PasswordClass(u))
              && HasEveryKind(u, p)
  {
    var p := NormalizeBasic(u, raw);
    if !PasswordPattern(u, p) then Checked("", PasswordError)
    else
      RunToEndTrimmed(p, PasswordClass(u), 8, 64);
      LookaheadContains(p, IsAsciiUpper);
      LookaheadContains(p, IsAsciiLower);
      LookaheadContains(p, u.isDecimal);
      LookaheadContains(p, IsPasswordSymbol);
      Checked(p, "")
  }

  /** A lookahead that succeeds has found a class character. */
  lemma LookaheadContains(s: string, cls: char -> bool)
    requires LookaheadFinds(s, cls)
    ensures Contains(s, cls)
  {
  }

  // ---------------------------------------------------------------------------
  // Payment form
  // ---------------------------------------------------------------------------

  /** The `(clean, errors)` pair of dictionaries `validate_payment_form` returns. */
  datatype FormResult = FormResult(clean: map<string, string>, errors: map<string, string>)

  /** `validate_payment_form`: all five validators run, none short-circuits another. */
  function ValidatePaymentForm(u: Unicode, now: Clock, cardNumber: string, expDate: string,
                               cvv: string, nameOnCard: string, billingEmail: string): (r: FormResult)
    requires now.Valid()
    ensures r.clean.Keys == {"card", "exp_date", "name_on_card", "billing_email"}
    ensures r.errors.Keys <= {"card_number", "exp_date", "cvv", "name_on_card", "billing_email"}
    ensures r.clean["card"] == ValidateCardNumber(u, cardNumber).clean
    ensures r.clean["exp_date"] == ValidateExpDate(u, expDate, now).clean
    ensures r.clean["name_on_card"] == ValidateName(u, nameOnCard).clean
    ensures r.clean["billing_email"] == ValidateEmail(u, billingEmail).clean
    ensures ReportsError(r.errors, "card_number", ValidateCardNumber(u, cardNumber))
    ensures ReportsError(r.errors, "exp_date", ValidateExpDate(u, expDate, now))
    ensures ReportsError(r.errors, "cvv", ValidateCvv(u, cvv))
    ensures ReportsError(r.errors, "name_on_card", ValidateName(u, nameOnCard))
    ensures ReportsError(r.errors, "billing_email", ValidateEmail(u, billingEmail))
  {
    Collect(ValidateCardNumber(u, cardNumber), ValidateExpDate(u, expDate, now), ValidateCvv(u, cvv),
            ValidateName(u, nameOnCard), ValidateEmail(u, billingEmail))
  }

  /**
   The dictionary building of validation.py:182-207: every failed field is
   recorded under its key, every clean value except the CVV's is kept.
   */
  function Collect(card: Checked, exp: Checked, code: Checked, name: Checked, email: Checked): (r: FormResult)
    ensures r.clean.Keys == {"card", "exp_date", "name_on_card", "billing_email"}
    ensures r.errors.Keys <= {"card_number", "exp_date", "cvv", "name_on_card", "billing_email"}
    ensures r.clean["card"] == card.clean && r.clean["exp_date"] == exp.clean
    ensures r.clean["name_on_card"] == name.clean && r.clean["billing_email"] == email.clean
    ensures ReportsError(r.errors, "card_number", card) && ReportsError(r.errors, "exp_date", exp)
    ensures ReportsError(r.errors, "cvv", code) && ReportsError(r.errors, "name_on_card", name)
    ensures ReportsError(r.errors, "billing_email", email)
  {
    var reported := map["card_number" := card.error, "exp_date" := exp.error, "cvv" := code.error,
                         "name_on_card" := name.error, "billing_email" := email.error];
    var errors := map k | k in reported && reported[k] != "" :: reported[k];
    var clean := map["card" := card.clean, "exp_date" := exp.clean,
                     "name_on_card" := name.clean, "billing_email" := email.clean];
    FormResult(clean, errors)
  }

  /** `errors` holds `key` exactly when the validator failed, and then holds its message. */
  predicate ReportsError(errors: map<string, string>, key: string, r: Checked) {
    (key in errors <==> r.error != "") && (key in errors ==> errors[key] == r.error)
  }
}
