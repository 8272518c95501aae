/**
 The seven regular expressions of validation.py:29-35, each as a predicate
 with the meaning `re.match` gives it: anchored at the start, `{lo,hi}`
 repetition with backtracking, and Python's `$`, which also matches just
 before a final newline.
 */
module Patterns {
  import opened Chars
  import opened Text

  /** Python's `$` (no MULTILINE): position `n` is the end of `s`, or sits just before a final newline. */
  predicate EndsAt(s: string, n: int) {
    n == |s| || (0 <= n && n + 1 == |s| && s[n] == '\n')
  }

  /** Every character of `s` is in the class `cls`. */
  predicate AllIn(s: string, cls: char -> bool) {
    forall k :: 0 <= k < |s| ==> cls(s[k])
  }

  /** Some character of `s` is in the class `cls`. */
  predicate Contains(s: string, cls: char -> bool) {
    exists k :: 0 <= k < |s| && cls(s[k])
  }

  /** `^[cls]{lo,hi}$`: some run of `lo` to `hi` class characters reaches the `$` position. */
  predicate RunToEnd(s: string, cls: char -> bool, lo: nat, hi: nat) {
    exists n :: lo <= n <= hi && n <= |s| && AllIn(s[..n], cls) && EndsAt(s, n)
  }

  /** `^[cls]{lo,hi}` with no `$`: some run of `lo` to `hi` class characters starts the string. */
  predicate RunPrefix(s: string, cls: char -> bool, lo: nat, hi: nat) {
    exists n :: lo <= n <= hi && n <= |s| && AllIn(s[..n], cls)
  }

  /**
   What `^[cls]{lo,hi}$` accepts: the whole string is such a run, or such a run
   followed by one newline.
   */
  lemma RunToEndIff(s: string, cls: char -> bool, lo: nat, hi: nat)
    ensures RunToEnd(s, cls, lo, hi) <==>
              || (lo <= |s| <= hi && AllIn(s, cls))
              || (lo < |s| <= hi + 1 && s[|s| - 1] == '\n' && AllIn(s[..|s| - 1], cls))
  {
    if lo <= |s| <= hi && AllIn(s, cls) {
      assert s[..|s|] == s;
      assert EndsAt(s, |s|);
    }
    if lo < |s| <= hi + 1 && s[|s| - 1] == '\n' && AllIn(s[..|s| - 1], cls) {
      assert EndsAt(s, |s| - 1);
    }
    if RunToEnd(s, cls, lo, hi) {
      var n :| lo <= n <= hi && n <= |s| && AllIn(s[..n], cls) && EndsAt(s, n);
      if n == |s| {
        assert s[..n] == s;
      }
    }
  }

  /** On a string with no trailing whitespace, `^[cls]{lo,hi}$` is a plain length-and-class check. */
  lemma RunToEndTrimmed(s: string, cls: char -> bool, lo: nat, hi: nat)
    requires Trimmed(s)
    ensures RunToEnd(s, cls, lo, hi) <==> lo <= |s| <= hi && AllIn(s, cls)
  {
    RunToEndIff(s, cls, lo, hi);
    assert |s| > 0 ==> IsSpace(s[|s| - 1]) || s[|s| - 1] != '\n';
  }

  /** What an unanchored `^[cls]{lo,hi}` accepts: the first `lo` characters are in the class. */
  lemma RunPrefixIff(s: string, cls: char -> bool, lo: nat, hi: nat)
    requires lo <= hi
    ensures RunPrefix(s, cls, lo, hi) <==> lo <= |s| && AllIn(s[..lo], cls)
  {
    if RunPrefix(s, cls, lo, hi) {
      var n :| lo <= n <= hi && n <= |s| && AllIn(s[..n], cls);
      assert s[..lo] == s[..n][..lo];
    }
  }

  /** `0[1-9]|1[0-2]`: a two-digit month from 01 to 12. */
  predicate MonthDigits(a: char, b: char) {
    (a == '0' && '1' <= b <= '9') || (a == '1' && '0' <= b <= '2')
  }

  /** EXP_RE, `^(0[1-9]|1[0-2])\/[0-9]{2}$`. */
  predicate ExpPattern(s: string) {
    && |s| >= 5
    && MonthDigits(s[0], s[1])
    && s[2] == '/'
    && IsAsciiDigit(s[3]) && IsAsciiDigit(s[4])
    && EndsAt(s, 5)
  }

  /**
   One way of reading `s` against EMAIL_BASIC_RE: `s[..at]` is the local part,
   `s[at+1..dot]` the domain, `s[dot+1..end]` the top-level domain, and `end` the `$`.
   */
  predicate EmailSplit(s: string, at: int, dot: int, end: int) {
    && 1 <= at && at + 2 <= dot && dot + 3 <= end <= |s|
    && AllIn(s[..at], IsEmailLocalChar)
    && s[at] == '@'
    && AllIn(s[at + 1..dot], IsEmailDomainChar)
    && s[dot] == '.'
    && AllIn(s[dot + 1..end], IsAsciiLetter)
    && EndsAt(s, end)
  }

  /** EMAIL_BASIC_RE, `^[a-zA-Z0-9._%+-]+@[a-zA-Z0-9.-]+\.[a-zA-Z]{2,}$`. */
  predicate EmailPattern(s: string) {
    exists at, dot, end :: 0 <= at < dot < end <= |s| && EmailSplit(s, at, dot, end)
  }

  /**
   On a string with no trailing whitespace, EMAIL_BASIC_RE means: exactly one `@`,
   not first, and the string ends in a dot followed by at least two ASCII letters.
   */
  lemma EmailPatternShape(s: string)
    requires Trimmed(s) && EmailPattern(s)
    ensures multiset(s)['@'] == 1 && s[0] != '@'
    ensures |s| >= 6 && IsAsciiLetter(s[|s| - 1]) && IsAsciiLetter(s[|s| - 2])
    ensures '.' in s[..|s| - 2]
  {
    var at, dot, end :| 0 <= at < dot < end <= |s| && EmailSplit(s, at, dot, end);
    assert end == |s| by {
      assert |s| > 0 ==> IsSpace(s[|s| - 1]) || s[|s| - 1] != '\n';
    }
    NoAt(s[..at], IsEmailLocalChar);
    forall k | at + 1 <= k < |s|
      ensures IsEmailDomainChar(s[k])
    {
      if k < dot {
        assert s[at + 1..dot][k - at - 1] == s[k];
      } else if k > dot {
        assert s[dot + 1..end][k - dot - 1] == s[k];
      }
    }
    NoAt(s[at + 1..], IsEmailDomainChar);
    assert s == s[..at] + [s[at]] + s[at + 1..];
    assert s[..at][0] == s[0];
    assert s[dot + 1..end][|s| - dot - 2] == s[|s| - 1];
    assert s[dot + 1..end][|s| - dot - 3] == s[|s| - 2];
    assert s[..|s| - 2][dot] == '.';
  }

  /** A run of a class that excludes `@` holds no `@`. */
  lemma NoAt(t: string, cls: char -> bool)
    requires AllIn(t, cls) && !cls('@')
    ensures multiset(t)['@'] == 0
  {
    assert forall k :: 0 <= k < |t| ==> t[k] != '@';
    assert '@' !in t;
  }

  /** `(?=.*[cls])`: some class character occurs before the first newline. */
  predicate LookaheadFinds(s: string, cls: char -> bool) {
    exists k :: 0 <= k < |s| && cls(s[k]) && '\n' !in s[..k]
  }

  /** `[.A-Za-z\d!@#$%^&*()\-_=\+\[\]{}<>?]` as a class value. */
  function PasswordClass(u: Unicode): char -> bool {
    c => IsPasswordChar(u, c)
  }

  /** PASSWORD_RE: four lookaheads, then 8 to 64 allowed characters up to `$`. */
  predicate PasswordPattern(u: Unicode, s: string) {
    && LookaheadFinds(s, IsAsciiUpper)
    && LookaheadFinds(s, IsAsciiLower)
    && LookaheadFinds(s, u.isDecimal)
    && LookaheadFinds(s, IsPasswordSymbol)
    && RunToEnd(s, PasswordClass(u), 8, 64)
  }

  /** With no newline in `s`, a lookahead `(?=.*[cls])` just asks whether `s` contains a class character. */
  lemma LookaheadNoNewline(s: string, cls: char -> bool)
    requires '\n' !in s
    ensures LookaheadFinds(s, cls) <==> Contains(s, cls)
  {
    if Contains(s, cls) {
      var k :| 0 <= k < |s| && cls(s[k]);
      assert '\n' !in s[..k];
    }
  }
}
