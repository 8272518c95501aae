# Payment-form validation and user handling of the event-ticket shop

This project models the part of the shop that decides what input is acceptable and what happens to user and order records:

- **Field validators** of `validation.py`. Each one normalises its argument (NFKC, then `strip()`), checks it against one of seven regular expressions, and returns a `(clean, error)` pair. The error text is one of the Spanish messages of the source, reproduced verbatim as constants. `validate_payment_form` runs five of the validators and gathers their results into two dictionaries.
- **User lookup** by normalised e-mail address, `find_user_by_email` in `app.py`.
- **Admin changes**: toggling a user's status and changing a user's role. Both change the first record with a given id.
- **Order numbering**: `next_order_id`.
- **The POST branch of the login route**: the lockout check comes first, then the user lookup and the password comparison, then one report to the lockout tracker.

## How the model reads the source

- **Strings** are `seq<char>`.
- **Whitespace.** `strip()` and `\s` share one whitespace class (`Chars.IsSpace`), which is Python's `str.isspace()` table.
- **Unicode tables stay abstract.** NFKC normalisation and the Unicode decimal-digit class used by `\d` are not spelled out. They are the two fields of `Chars.Unicode`, and every validator takes them as a parameter. `Unicode.Valid()` states the three facts most lemmas rely on:
  - NFKC leaves ASCII text alone;
  - ASCII digits are decimal;
  - no decimal digit is whitespace.

  Three revalidation lemmas (name, mobile number, password) also assume that NFKC leaves their clean value alone; see "## Left out".
- **Regular expressions.** Each pattern is a predicate with the meaning `re.match` gives it (module `Patterns`):
  - the match is anchored at the start;
  - `{lo,hi}` can stop at any count in its range;
  - `$` matches at the end of the string or just before a final newline.

  Lemmas then reduce each predicate to a plain statement: length and character class, or a prefix of fixed length.
- **The clock.** The expiry check's clock reading is the parameter `now: Clock(year, month)`. The current two-digit year is `year % 100`, which equals `int(str(year)[-2:])` for every year from 1 to 9999.
- **JSON records** are datatypes with `Option` fields. `None` stands for a missing key.
- **The lockout tracker** is an input function `lockOf` giving the lock status of a key. The calls the login route makes into the tracker are returned in the order it makes them.

### Behaviour of the code as written

The model keeps these behaviours exactly as the source has them:

- **Card number.**
  - `CARD_DIGITS_RE` and `CVV_RE` use the class `[0-9_]`, so underscores are accepted as digits.
  - No Luhn checksum is computed: `luhn_is_valid` has only a docstring and `pass`, so it returns `None`, and the validator never calls it.
- **Card number and `$`.** A card number whose digits are followed by a newline is accepted, and the newline stays in the clean value.
  - Example: the input `d + "\n-"` with `d` made of 13 to 19 digits.
  - `strip()` keeps the newline, because the hyphen is last.
  - Deleting hyphens then leaves the newline at the end, where `$` accepts it.
  - `CardTrailingNewlineAccepted` shows this.
  - `CardTrailingNewlineDropped` shows that validating that clean value again loses the newline.
  - Every other accepted card number validates to itself (`CardRevalidates`).
- **CVV and mobile patterns have no `$`.** `CVV_RE` and `MOBILE_RE` only look at the first 3 (CVV) or 7 (mobile) characters; anything may follow them.
  - The mobile validator returns the whole normalised input, letters and single spaces included.
  - The CVV validator never returns its clean value.
- **Mobile spaces.** The mobile validator collapses whitespace runs to single spaces but does not remove them.
- **Unreachable expiry error.** The `except` branch of `validate_exp_date` cannot be reached: once `EXP_RE` matches, both halves of `split("/")` are two ASCII digits (`ExpPatternMeaning`).
- **Password.**
  - A password that passes holds no whitespace, and is therefore its own `strip()`.
  - The four lookaheads of `PASSWORD_RE` reduce to "contains a character of each kind".
- **Login ignores status and role.**
  - A disabled account still logs in. `ToggleKeepsLogin` and `ChangeRoleKeepsLogin` show that no admin change alters any login's outcome.
  - The `not user` test is subsumed by the password comparison: an empty record has no password.
- **A locked account reveals nothing** (`LockedRevealsNothing`). While an address is locked, neither the user list nor the password affects the answer, and no failed or successful attempt is reported to the tracker.
- **A missing status counts as active.** In `admin_toggle_user`, a record with no status is first given `"active"` and then disabled. A role change with no `role` field in the form sets the role to `"user"`.

## Model

| member | source | states |
|---|---|---|
| Validation.NormalizeBasic | validation.py:41-45 | the normalised value is the NFKC form of the input with the whitespace at both ends cut off and nothing else changed: what remains is a slice of that form with no whitespace at either end, and everything cut off is whitespace |
| Text.Strip | validation.py:45 | `strip()` returns a slice of its input with no whitespace at either end, and everything cut off is whitespace |
| Text.StripKeepsContent | validation.py:45 | `strip()` removes whitespace only: the non-whitespace characters are kept in order |
| Text.StripIdempotent | validation.py:45 | stripping twice is the same as stripping once |
| Text.CollapseSpaces | validation.py:134 | `re.sub(r"\s+", " ", s)` never lengthens the string, gives an empty result only for empty input, and starts with whitespace exactly when the input does |
| Text.CollapseIsSingleSpaced | validation.py:134 | the substitution leaves only single plain spaces: no other whitespace character and no two spaces in a row |
| Text.CollapseKeepsEnds | validation.py:134 | the substitution ends with whitespace exactly when the input does |
| Text.CollapseAllSpace | validation.py:134 | a nonempty run made only of whitespace becomes one plain space |
| Text.CollapseAppend | validation.py:134 | the substitution works run by run: if a cut does not fall inside a whitespace run, collapsing the whole is collapsing each side and joining the results |
| Text.CollapseKeepsContent | validation.py:134 | collapsing whitespace runs keeps every non-whitespace character in order |
| Text.CollapseSingleSpaced | validation.py:134 | a string that is already single-spaced is left unchanged by the substitution |
| Text.Squash | validation.py:146 | collapse-then-strip yields a single-spaced string with no whitespace at either end |
| ValidationExamples.DigitRunsSquashed | validation.py:146 | collapse-then-strip turns digits, a whitespace run and more digits into the two digit runs joined by one space |
| Text.SquashFixed | validation.py:146 | a trimmed single-spaced string is a fixed point of collapse-then-strip |
| Text.Without | validation.py:73 | `replace(c, "")` leaves exactly the characters other than `c` |
| Text.WithoutCount | validation.py:73 | `replace(c, "")` keeps each other character as many times as it occurred |
| Text.Lower | validation.py:117 | `lower()`, restricted to ASCII case mapping, keeps the length, maps each capital A-Z to its small letter (code point plus 32), and changes no other character |
| Chars.LowerChar | validation.py:117 | a capital A-Z becomes the small letter 32 code points above it, and every other character is kept |
| Chars.IsSpace | validation.py:45 | the characters `str.isspace()` accepts, which are what `strip()` removes and what `\s` matches: tab to carriage return, the separators U+1C to U+1F, space, U+85, U+A0, U+1680, U+2000 to U+200A, U+2028, U+2029, U+202F, U+205F and U+3000 |
| Chars.IsCardChar | validation.py:29-30 | `[0-9_]`: an ASCII digit or an underscore |
| Chars.IsEmailLocalChar | validation.py:32 | `[a-zA-Z0-9._%+-]`: an ASCII letter or digit, or one of `. _ % + -` |
| Chars.IsEmailDomainChar | validation.py:32 | `[a-zA-Z0-9.-]`: an ASCII letter or digit, a dot or a hyphen |
| Chars.IsNameChar | validation.py:33 | `[A-Za-zÀ-ÖØ-öø-ÿ\s'\-]`: an ASCII letter, a character of U+C0 to U+D6, U+D8 to U+F6 or U+F8 to U+FF, whitespace, an apostrophe or a hyphen |
| Chars.IsPasswordSymbol | validation.py:35 | `[.!@#$%^&*()\-_=\+\[\]{}<>?]`: one of the listed symbols |
| Chars.IsPasswordChar | validation.py:35 | `[.A-Za-z\d!@#$%^&*()\-_=\+\[\]{}<>?]`: a dot, an ASCII letter, a Unicode decimal digit or a listed symbol |
| Patterns.EndsAt | validation.py:29 | Python's `$` matches at the end of the string or just before a final newline |
| Patterns.RunToEnd | validation.py:29 | `^[cls]{lo,hi}$`, as used by CARD_DIGITS_RE, NAME_RE and PASSWORD_RE: some run of `lo` to `hi` class characters starts the string and reaches the `$` position |
| Patterns.RunPrefix | validation.py:30 | `^[cls]{lo,hi}` without `$`, as used by CVV_RE and MOBILE_RE: some run of `lo` to `hi` class characters starts the string |
| Patterns.ExpPattern | validation.py:31 | EXP_RE: a month 01 to 12, a slash and two ASCII digits, then the `$` position |
| Patterns.EmailSplit | validation.py:32 | one reading of EMAIL_BASIC_RE: a nonempty local part, `@`, a domain of at least one character, a dot, at least two ASCII letters, then the `$` position |
| Patterns.EmailPattern | validation.py:32 | EMAIL_BASIC_RE matches when some choice of `@`, dot and end position satisfies the reading |
| Patterns.LookaheadFinds | validation.py:35 | `(?=.*[cls])`: some class character occurs before the first newline |
| Patterns.PasswordPattern | validation.py:35 | PASSWORD_RE: the four lookaheads hold and 8 to 64 allowed characters reach the `$` position |
| Patterns.RunToEndIff | validation.py:29 | `^[cls]{lo,hi}$` accepts exactly a run of `lo` to `hi` class characters, optionally followed by one newline |
| Patterns.RunToEndTrimmed | validation.py:33 | on a stripped string the anchored pattern is a plain length-and-class check |
| Patterns.RunPrefixIff | validation.py:30-34 | an unanchored `^[cls]{lo,hi}` accepts exactly the strings whose first `lo` characters are in the class |
| Patterns.EmailPatternShape | validation.py:32 | a stripped address matching EMAIL_BASIC_RE has exactly one `@`, not first, is at least 6 characters long, ends in two ASCII letters and has a dot before them |
| Patterns.LookaheadNoNewline | validation.py:35 | without a newline, a lookahead `(?=.*[cls])` holds exactly when the string contains a class character |
| Validation.CardDigits | validation.py:73 | deleting every ASCII space and hyphen leaves no space or hyphen |
| Validation.ValidateCardNumber | validation.py:69-79 | accepted exactly when the input, with spaces and hyphens deleted, is 13 to 19 `[0-9_]` characters, optionally followed by one newline; the clean value then has no space or hyphen; every failure carries the card message and an empty clean value |
| Validation.ExpPatternMeaning | validation.py:85-100 | on a stripped string EXP_RE means "two ASCII digits from 01 to 12, a slash, two ASCII digits", and neither half of the split holds a slash, so the `except` branch is unreachable |
| Validation.Clock.ShortYear | validation.py:93 | `int(str(now.year)[-2:])` is the year's last two digits, between 0 and 99 |
| Validation.NotBefore | validation.py:95 | the expiry is not before the current month exactly when its year is later, or the year is the same and the month is not earlier |
| Validation.ValidateExpDate | validation.py:81-102 | a malformed date gets the format message, a month before the current one gets the expired message, a year more than 15 past the current one gets the too-far message, and success returns the normalised date; each message holds exactly when its condition does |
| Validation.ValidateCvv | validation.py:104-112 | accepted exactly when the first three normalised characters are `[0-9_]`; the clean value is always empty |
| Validation.ValidateEmail | validation.py:115-126 | the length message is given exactly for lowered addresses over 254 characters, the format message exactly for shorter ones failing the pattern; an accepted address is lowered, 6 to 254 characters long, holds one `@` and ends in two letters |
| Validation.ValidateName | validation.py:130-140 | accepted exactly when the collapsed, stripped name is 2 to 60 name characters; the clean value is then trimmed and single-spaced |
| Validation.ValidateMobileNumber | validation.py:142-152 | accepted exactly when the collapsed, stripped input starts with seven ASCII digits; the clean value is that whole collapsed input |
| Validation.ValidatePassword | validation.py:154-162 | an accepted password is the normalised input, 8 to 64 allowed characters, with an ASCII capital, an ASCII small letter, a decimal digit and a symbol |
| Validation.ValidatePaymentForm | validation.py:167-209 | all five validators run: each failure is recorded under its own key with its message, no key is recorded for a success, and the clean values of card, expiry, name and e-mail are kept while the CVV's is not |
| Validation.Collect | validation.py:182-209 | the gathered dictionaries hold each error exactly when its validator failed, and the four clean values |
| ValidationFacts.PaymentFormAcceptsIff | validation.py:182-209 | the form has no errors exactly when each of the five validators succeeds |
| ValidationFacts.PasswordAcceptsIff | validation.py:35 | a normalised password is accepted exactly when it is 8 to 64 allowed characters containing all four kinds |
| ValidationFacts.PasswordAcceptedHasNoSpace | validation.py:154-162 | an accepted password holds no whitespace |
| ValidationFacts.CardRevalidates | validation.py:69-79 | under the Unicode facts, an accepted card number not ending in a newline validates to itself |
| ValidationFacts.ExpRevalidates | validation.py:81-102 | under the Unicode facts, an accepted expiry date validates to itself against the same clock |
| ValidationFacts.EmailRevalidates | validation.py:115-126 | under the Unicode facts, an accepted address validates to itself |
| ValidationFacts.NameRevalidates | validation.py:130-140 | if NFKC leaves the clean value unchanged, a name's result is reproduced when its clean value is validated again |
| ValidationFacts.NameKeepsContent | validation.py:132-134 | an accepted name keeps every non-whitespace character of the NFKC form of the input, in order |
| ValidationFacts.MobileRevalidates | validation.py:142-152 | if NFKC leaves the clean value unchanged, an accepted mobile number validates to itself |
| ValidationFacts.MobileKeepsContent | validation.py:144-146 | an accepted mobile number keeps every non-whitespace character of the NFKC form of the input, in order, and is single-spaced |
| ValidationFacts.PasswordRevalidates | validation.py:154-162 | if NFKC leaves the clean value unchanged, an accepted password validates to itself |
| ValidationExamples.ExpiryThisMonthAccepted | validation.py:95 | a card expiring in the current month is accepted |
| ValidationExamples.ExpiryLastMonthExpired | validation.py:95-96 | a card that expired last month gets the expired message |
| ValidationExamples.ExpiryFifteenYearsAccepted | validation.py:97 | an expiry year 15 years ahead is accepted |
| ValidationExamples.ExpirySixteenYearsTooFar | validation.py:97-98 | an expiry year 16 years ahead gets the too-far message |
| ValidationExamples.ExpiryMonthThirteenRejected | validation.py:31 | month 13 gets the format message |
| ValidationExamples.CardDigitsAccepted | validation.py:29 | any 13 to 19 digits or underscores are accepted unchanged, with no checksum |
| ValidationExamples.CardTrailingNewlineAccepted | validation.py:71-79 | digits followed by a newline and a hyphen are accepted, and the newline is kept in the clean value |
| ValidationExamples.CardTrailingNewlineDropped | validation.py:71 | validating digits followed by a newline again returns the digits alone |
| ValidationExamples.CvvLongTailAccepted | validation.py:30 | "12345abc" passes the CVV check |
| ValidationExamples.CvvTooShortRejected | validation.py:104-110 | "12" fails the CVV check |
| ValidationExamples.MobileRunCollapsed | validation.py:142-152 | a whitespace run between digit groups is accepted and becomes one space |
| ValidationExamples.MobileTailKept | validation.py:34 | whatever follows seven leading digits, letters included, is accepted and kept |
| ValidationExamples.PasswordAllKindsAccepted | validation.py:35 | "Password1!" is accepted |
| ValidationExamples.PasswordWithoutCapitalRejected | validation.py:35 | "password1!" is rejected for lack of a capital |
| ValidationExamples.PasswordTrailingSpaceStripped | validation.py:154-162 | "Password1! " is accepted as "Password1!", because the space is stripped before PASSWORD_RE runs |
| ValidationExamples.PasswordWithSpaceRejected | validation.py:35 | "Pass word1!" is rejected because a space is not an allowed character |
| ValidationExamples.EmailLowered | validation.py:117 | "Ana.Diaz@Example.COM" is accepted as "ana.diaz@example.com" |
| ValidationExamples.EmailShortTopLevelRejected | validation.py:32 | a one-letter top-level domain gets the format message |
| Users.EmailKey | app.py:120 | the key is the address with the whitespace at both ends cut off and each remaining character ASCII-lowered; it has no whitespace at either end |
| Users.EmailKeyIdempotent | app.py:120 | normalising an address twice is the same as normalising it once |
| Users.StoredKey | app.py:122 | a stored record's key is its address, `""` when missing, stripped and lowered |
| Users.FindByKey | app.py:121-124 | the lookup returns nothing exactly when no stored address normalises to the key, and otherwise the first record whose address does |
| Users.FindUserByEmail | app.py:118-124 | `find_user_by_email` returns nothing exactly when no stored address matches the normalised query, and otherwise the first record that does |
| Users.FindByKeyAgrees | app.py:118-124 | looking up an already-normalised address finds the same record as looking up the raw one |
| Users.IdOf | app.py:248 | `int(u.get("id", 0))`: a missing id reads as 0 |
| Users.StatusOf | app.py:249 | `setdefault("status", "active")`: a missing status reads as active |
| Users.WithRole | app.py:259-263 | the role change sets the role to the submitted value, or `"user"` when the form has none, and changes no other field |
| Users.UpdateFirst | app.py:246-252 | only the first record with the id is changed, and nothing changes when no record has it |
| Users.Flipped | app.py:249-250 | only the status changes: active or missing becomes disabled, anything else becomes active |
| Users.ToggleUser | app.py:243-253 | `admin_toggle_user` flips the status of the first record with the id and leaves every other record and field alone |
| Users.ToggleTwice | app.py:249-250 | toggling twice restores a record whose status was explicitly active or disabled |
| Users.ChangeRole | app.py:256-266 | `admin_change_role` sets the role of the first record with the id to the submitted role, `"user"` when none was submitted, and changes nothing else |
| Users.ChangeRoleIdempotent | app.py:259-264 | submitting the same role twice has the effect of submitting it once |
| Users.UpdateKeepsLookup | app.py:243-266 | an admin change that keeps addresses and passwords keeps every lookup's result, as far as address and password go |
| Orders.OrderId | app.py:139 | `o.get("id", 0)`: a missing order id reads as 0 |
| Orders.MaxOrderId | app.py:139 | the largest id (missing read as 0) bounds every id and is one of them |
| Orders.NextOrderId | app.py:138-139 | the next id is 1 for no orders, exceeds every existing id, and is one more than some existing id |
| Orders.NextIdKeepsIdsDistinct | app.py:138-139 | appending an order numbered with the next id keeps all ids distinct |
| Login.PasswordMatches | app.py:170 | the password check passes only when a record was found and its stored password equals the submitted one |
| Login.Login | app.py:152-180 | the lock is checked first; a locked address is refused with its seconds and nothing else is called; otherwise login succeeds exactly when the lookup finds a record with the submitted password, stores the normalised address in the session and reports a success, and any other attempt reports a failure |
| Login.LockedRevealsNothing | app.py:162-167 | while an address is locked, the outcome depends on neither the user list nor the password |
| Login.SessionResolves | app.py:169-178 | after a successful login, looking up the address stored in the session finds the record whose password was checked |
| Login.UpdateKeepsLogin | app.py:169-170 | an admin change that keeps addresses and passwords leaves every login's outcome unchanged |
| Login.ToggleKeepsLogin | app.py:169-170 | toggling a user's status never changes a login's outcome |
| Login.ChangeRoleKeepsLogin | app.py:169-170 | changing a user's role never changes a login's outcome |

## Left out

- NFKC normalisation and the Unicode decimal-digit class behind `\d` are parameters (`Chars.Unicode`), not tables. Most lemmas need only the facts stated in `Unicode.Valid()`; the three exceptions are listed below.
- `lower()` is modelled on ASCII letters only. Python's full Unicode case mapping, including mappings that change a string's length, is not modelled.
- `normalize_basic(None)` (the `value or ""` guard) is not modelled: every validator takes a string.
- JSON null values and non-string or non-integer field values in the user and order files are not modelled. `None` stands for a missing key.
  - A stored null e-mail reads as `""`, which matches the source's `or ""`.
  - A null status is treated like a missing one. The source would instead leave a null status in place and then set it to `"active"`.
  - `int(u.get("id", 0))` on a string id is not modelled.
  - A null order id, on which `max` would fail, is not modelled.
- `luhn_is_valid` (validation.py:48-62) is a docstring followed by `pass`, so it computes nothing and returns `None`; no validator calls it.
- The lockout tracker (`is_account_locked`, `register_failed_attempt`, `register_successful_login`) and `has_role` are imported by app.py from validation.py but not defined there. The tracker is not part of this model: its answer is the input `lockOf`, and its calls are returned as a list instead of being made.
- The `admin_required` and `login_required` decorators are not modelled.
- The clock is not modelled: `datetime.now(timezone.utc)` in `validate_exp_date` is the parameter `now`.
- Flask plumbing is not modelled:
  - form and session access, templates, redirects and HTTP status codes;
  - the GET branches;
  - the formatting of the lockout message.
- Loading and saving the JSON files is not modelled: user and order lists are parameters and results.
- The `Event` dataclass, the checkout route and `get_current_user` are outside the modelled core. Only `next_order_id`, which checkout relies on, is modelled.
- Concurrent requests are not modelled. Two concurrent checkouts could read the same orders file and compute the same next id.
- Validation.ValidatePassword: success is stated in one direction only. The converse (every password meeting the conditions is accepted) is `ValidationFacts.PasswordAcceptsIff`, which needs `Unicode.Valid()`.
- ValidationFacts.CardRevalidates: excludes clean values ending in a newline. `ValidationExamples.CardTrailingNewlineDropped` shows that for those the second pass drops the newline.
- Users.ToggleTwice: requires an explicit status. A missing status becomes `"disabled"` and then `"active"`, so it does not come back as missing.
- ValidationFacts.NameRevalidates: assumes NFKC leaves the clean value unchanged. The clean value is NFKC output with only whitespace edited, which real NFKC leaves as it is, but this does not follow from the facts in `Unicode.Valid()`, because an accepted name may contain non-ASCII letters.
- ValidationFacts.MobileRevalidates: assumes NFKC leaves the clean value unchanged. The clean value is NFKC output with only whitespace edited, which real NFKC leaves as it is, but this does not follow from `Unicode.Valid()`, because the text after the seven leading digits may be any characters.
- ValidationFacts.PasswordRevalidates: assumes NFKC leaves the clean value unchanged. The clean value is NFKC output with only whitespace edited, which real NFKC leaves as it is, but this does not follow from `Unicode.Valid()`, because `\d` admits non-ASCII decimal digits.
