/**
 The string operations validation.py and app.py apply before matching:
 `strip()`, `re.sub(r"\s+", " ", s)`, `replace(c, "")` and `lower()`.
 */
module Text {
  import opened Chars

  /** No whitespace at either end. */
  predicate Trimmed(s: string) {
    s == [] || (!IsSpace(s[0]) && !IsSpace(s[|s| - 1]))
  }

  /**
   Every whitespace character is a plain space, and no whitespace character
   follows another (`SingleSpacedMeaning` states it with quantifiers).
   */
  predicate SingleSpaced(s: string) {
    || |s| == 0
    || (&& (IsSpace(s[0]) ==> s[0] == ' ' && (|s| == 1 || !IsSpace(s[1])))
        && SingleSpaced(s[1..]))
  }

  /** `SingleSpaced`, position by position. */
  lemma {:induction false} SingleSpacedMeaning(s: string)
    ensures SingleSpaced(s) <==>
              && (forall k :: 0 <= k < |s| && IsSpace(s[k]) ==> s[k] == ' ')
              && (forall i, j :: 0 <= i < |s| && 0 <= j < |s| && j == i + 1 ==> !(IsSpace(s[i]) && IsSpace(s[j])))
    decreases |s|
  {
    if |s| > 0 {
      SingleSpacedMeaning(s[1..]);
      var t := s[1..];
      assert forall k :: 1 <= k < |s| ==> s[k] == t[k - 1];
    }
  }

  /** The first index at or after `i` that does not hold whitespace, or `|s|`. */
  function SkipSpace(s: string, i: nat): (j: nat)
    requires i <= |s|
    ensures i <= j <= |s|
    ensures forall k :: i <= k < j ==> IsSpace(s[k])
    ensures j == |s| || !IsSpace(s[j])
    decreases |s| - i
  {
    if i < |s| && IsSpace(s[i]) then SkipSpace(s, i + 1) else i
  }

  /** The index just past the last character before `j` (and not before `lo`) that is not whitespace, or `lo`. */
  function SkipSpaceBack(s: string, lo: nat, j: nat): (i: nat)
    requires lo <= j <= |s|
    ensures lo <= i <= j
    ensures forall k :: i <= k < j ==> IsSpace(s[k])
    ensures i == lo || !IsSpace(s[i - 1])
    decreases j
  {
    if j > lo && IsSpace(s[j - 1]) then SkipSpaceBack(s, lo, j - 1) else j
  }

  /** Python's `lstrip()`: what is left after the leading whitespace run. */
  function TrimLeft(s: string): (r: string)
    ensures r == s[SkipSpace(s, 0)..]
    ensures |s| > 0 && IsSpace(s[0]) ==> |r| < |s|
    ensures r == [] || !IsSpace(r[0])
  {
    s[SkipSpace(s, 0)..]
  }

  /** Every character of `s` is whitespace. */
  predicate AllSpace(s: string) {
    forall k :: 0 <= k < |s| ==> IsSpace(s[k])
  }

  /** `r` is the slice of `s` at offset `i`, and everything outside that slice is whitespace. */
  predicate StripsTo(s: string, i: int, r: string) {
    && 0 <= i <= |s| - |r|
    && r == s[i..i + |r|]
    && AllSpace(s[..i])
    && AllSpace(s[i + |r|..])
  }

  /**
   Python's `strip()`: the slice of `s` that remains once the whitespace runs at
   both ends are removed; everything removed is whitespace.
   */
  function Strip(s: string): (r: string)
    ensures Trimmed(r)
    ensures exists i :: StripsTo(s, i, r)
  {
    var i := SkipSpace(s, 0);
    var j := SkipSpaceBack(s, i, |s|);
    assert StripsTo(s, i, s[i..j]);
    s[i..j]
  }

  /** `strip()` removes whitespace only. */
  lemma StripKeepsContent(s: string)
    ensures NonSpace(Strip(s)) == NonSpace(s)
  {
    var r := Strip(s);
    var i :| StripsTo(s, i, r);
    NonSpaceOfSlice(s, i, i + |r|);
  }

  /** A string with no whitespace at either end is its own `strip()`. */
  lemma StripTrimmed(s: string)
    requires Trimmed(s)
    ensures Strip(s) == s
  {
    var r := Strip(s);
    var i :| StripsTo(s, i, r);
    assert i == 0;
    assert i + |r| == |s|;
  }

  /** One whitespace character after a string with no whitespace at its ends is all `strip()` removes. */
  lemma StripPlusSpace(s: string, c: char)
    requires Trimmed(s) && IsSpace(c)
    ensures Strip(s + [c]) == s
  {
    var t := s + [c];
    var r := Strip(t);
    var i :| StripsTo(t, i, r);
    if |s| > 0 {
      assert !IsSpace(t[0]) && !IsSpace(t[|s| - 1]);
      assert i == 0;
      assert |r| >= |s|;
    }
    assert |r| == |s|;
  }

  /** `strip()` is idempotent. */
  lemma StripIdempotent(s: string)
    ensures Strip(Strip(s)) == Strip(s)
  {
    StripTrimmed(Strip(s));
  }

  /**
   `re.sub(r"\s+", " ", s)`: every maximal whitespace run becomes one plain
   space. `CollapseAllSpace` and `CollapseAppend` state this run by run;
   `CollapseIsSingleSpaced` states the shape of the result.
   */
  function CollapseSpaces(s: string): (r: string)
    ensures |r| <= |s|
    ensures |s| > 0 ==> |r| > 0 && (IsSpace(r[0]) <==> IsSpace(s[0]))
    decreases |s|
  {
    if |s| == 0 then ""
    else if IsSpace(s[0]) then " " + CollapseSpaces(TrimLeft(s))
    else [s[0]] + CollapseSpaces(s[1..])
  }

  /** After the substitution every whitespace character is a plain space and none follows another. */
  lemma {:induction false} CollapseIsSingleSpaced(s: string)
    ensures SingleSpaced(CollapseSpaces(s))
    decreases |s|
  {
    if |s| > 0 {
      if IsSpace(s[0]) {
        CollapseIsSingleSpaced(TrimLeft(s));
        ConsSingleSpaced(' ', CollapseSpaces(TrimLeft(s)));
      } else {
        CollapseIsSingleSpaced(s[1..]);
        ConsSingleSpaced(s[0], CollapseSpaces(s[1..]));
      }
    }
  }

  /** `SkipSpace` is pinned down by its contract: the first index at or after `i` that does not hold whitespace. */
  lemma SkipSpaceAt(s: string, i: nat, j: nat)
    requires i <= j <= |s|
    requires forall k :: i <= k < j ==> IsSpace(s[k])
    requires j == |s| || !IsSpace(s[j])
    ensures SkipSpace(s, i) == j
  {
  }

  /** The substitution leaves whitespace at the end of the string exactly where the input had it. */
  lemma {:induction false} CollapseKeepsEnds(s: string)
    requires s != []
    ensures var r := CollapseSpaces(s); r != [] && (IsSpace(r[|r| - 1]) <==> IsSpace(s[|s| - 1]))
    decreases |s|
  {
    var last := s[|s| - 1];
    if IsSpace(s[0]) {
      var t := TrimLeft(s);
      var rest := CollapseSpaces(t);
      assert CollapseSpaces(s) == " " + rest;
      if t == [] {
        assert SkipSpace(s, 0) == |s|;
        assert IsSpace(last);
      } else {
        CollapseKeepsEnds(t);
        assert t[|t| - 1] == last;
      }
    } else if |s| > 1 {
      var t := s[1..];
      assert CollapseSpaces(s) == [s[0]] + CollapseSpaces(t);
      CollapseKeepsEnds(t);
      assert t[|t| - 1] == last;
    }
  }

  /** A nonempty whitespace run becomes exactly one plain space. */
  lemma CollapseAllSpace(w: string)
    requires AllSpace(w) && w != []
    ensures CollapseSpaces(w) == " "
  {
    SkipSpaceAt(w, 0, |w|);
    assert TrimLeft(w) == [];
  }

  /**
   The substitution works run by run: cutting a string where no whitespace run
   is split, the two halves collapse independently.
   */
  lemma {:induction false} CollapseAppend(a: string, b: string)
    requires a == [] || b == [] || !IsSpace(a[|a| - 1]) || !IsSpace(b[0])
    ensures CollapseSpaces(a + b) == CollapseSpaces(a) + CollapseSpaces(b)
    decreases |a|
  {
    if a == [] {
      assert a + b == b;
    } else if !IsSpace(a[0]) {
      var rest := a[1..];
      assert rest == [] || rest[|rest| - 1] == a[|a| - 1];
      CollapseAppend(rest, b);
      CollapseAppendKeep(a, b);
    } else if SkipSpace(a, 0) == |a| {
      CollapseAppendRun(a, b);
    } else {
      TrimLeftAppend(a, b);
      CollapseAppend(TrimLeft(a), b);
      CollapseAppendSkip(a, b);
    }
  }

  /** `CollapseAppend` past a first character that is not whitespace. */
  lemma CollapseAppendKeep(a: string, b: string)
    requires a != [] && !IsSpace(a[0])
    requires CollapseSpaces(a[1..] + b) == CollapseSpaces(a[1..]) + CollapseSpaces(b)
    ensures CollapseSpaces(a + b) == CollapseSpaces(a) + CollapseSpaces(b)
  {
    var c, x := a[0], a[1..];
    var ab := a + b;
    var xb := x + b;
    assert ab[0] == c && ab[1..] == xb;
    var cx, cb := CollapseSpaces(x), CollapseSpaces(b);
    assert CollapseSpaces(ab) == [c] + CollapseSpaces(xb);
    assert CollapseSpaces(a) == [c] + cx;
    AppendAssoc([c], cx, cb);
  }

  /** `CollapseAppend` when `a` is one whitespace run and `b` does not start with whitespace. */
  lemma CollapseAppendRun(a: string, b: string)
    requires a != [] && SkipSpace(a, 0) == |a|
    requires b == [] || !IsSpace(b[0])
    ensures CollapseSpaces(a + b) == CollapseSpaces(a) + CollapseSpaces(b)
  {
    assert (a + b)[0] == a[0];
    TrimLeftAllSpace(a, b);
  }

  /** `CollapseAppend` past a leading whitespace run that ends inside `a`. */
  lemma CollapseAppendSkip(a: string, b: string)
    requires a != [] && IsSpace(a[0]) && SkipSpace(a, 0) < |a|
    requires CollapseSpaces(TrimLeft(a) + b) == CollapseSpaces(TrimLeft(a)) + CollapseSpaces(b)
    ensures CollapseSpaces(a + b) == CollapseSpaces(a) + CollapseSpaces(b)
  {
    assert (a + b)[0] == a[0];
    TrimLeftAppend(a, b);
    AppendAssoc(" ", CollapseSpaces(TrimLeft(a)), CollapseSpaces(b));
  }

  lemma AppendAssoc(x: string, y: string, z: string)
    ensures x + (y + z) == (x + y) + z
  {
  }

  /** Leading whitespace that ends inside `a` is all `lstrip()` removes from `a + b`. */
  lemma TrimLeftAppend(a: string, b: string)
    requires SkipSpace(a, 0) < |a|
    ensures TrimLeft(a + b) == TrimLeft(a) + b
    ensures TrimLeft(a) != [] && TrimLeft(a)[|TrimLeft(a)| - 1] == a[|a| - 1]
  {
    var i := SkipSpace(a, 0);
    SkipSpaceAt(a + b, 0, i);
    assert (a + b)[i..] == a[i..] + b;
  }

  /** When `a` is all whitespace and `b` does not start with any, `lstrip()` of `a + b` is `b`. */
  lemma TrimLeftAllSpace(a: string, b: string)
    requires SkipSpace(a, 0) == |a|
    requires b == [] || !IsSpace(b[0])
    ensures TrimLeft(a + b) == b
    ensures TrimLeft(a) == []
  {
    SkipSpaceAt(a + b, 0, |a|);
    assert (a + b)[|a|..] == b;
  }

  /** Collapsing whitespace runs keeps every non-whitespace character, in order. */
  lemma {:induction false} CollapseKeepsContent(s: string)
    ensures NonSpace(CollapseSpaces(s)) == NonSpace(s)
    decreases |s|
  {
    if |s| > 0 {
      if IsSpace(s[0]) {
        var rest := CollapseSpaces(TrimLeft(s));
        CollapseKeepsContent(TrimLeft(s));
        NonSpaceTrimLeft(s);
        NonSpaceCons(' ', rest);
      } else {
        var rest := CollapseSpaces(s[1..]);
        CollapseKeepsContent(s[1..]);
        NonSpaceCons(s[0], rest);
        NonSpaceCons(s[0], s[1..]);
        assert s == [s[0]] + s[1..];
      }
    }
  }

  lemma ConsSingleSpaced(c: char, t: string)
    requires SingleSpaced(t)
    requires IsSpace(c) ==> c == ' ' && (t == [] || !IsSpace(t[0]))
    ensures SingleSpaced([c] + t)
  {
    assert ([c] + t)[1..] == t;
  }

  lemma NonSpaceCons(c: char, t: string)
    ensures NonSpace([c] + t) == if IsSpace(c) then NonSpace(t) else [c] + NonSpace(t)
  {
    assert ([c] + t)[1..] == t;
  }

  /** The non-whitespace characters of `s`, in order. */
  function NonSpace(s: string): string {
    if |s| == 0 then ""
    else if IsSpace(s[0]) then NonSpace(s[1..])
    else [s[0]] + NonSpace(s[1..])
  }

  lemma NonSpaceTrimLeft(s: string)
    ensures NonSpace(TrimLeft(s)) == NonSpace(s)
  {
    NonSpaceDropPrefix(s, SkipSpace(s, 0));
  }

  /** A single-spaced string is left unchanged by collapsing whitespace runs. */
  lemma {:induction false} CollapseSingleSpaced(s: string)
    requires SingleSpaced(s)
    ensures CollapseSpaces(s) == s
    decreases |s|
  {
    if |s| > 0 {
      CollapseSingleSpaced(s[1..]);
      if IsSpace(s[0]) {
        assert TrimLeft(s[1..]) == s[1..];
      }
      assert s == [s[0]] + s[1..];
    }
  }

  /** Every suffix of a single-spaced string is single-spaced. */
  lemma {:induction false} SuffixSingleSpaced(s: string, i: int)
    requires SingleSpaced(s) && 0 <= i <= |s|
    ensures SingleSpaced(s[i..])
    decreases i
  {
    if i > 0 {
      SuffixSingleSpaced(s[1..], i - 1);
      assert s[1..][i - 1..] == s[i..];
    }
  }

  /** Every prefix of a single-spaced string is single-spaced. */
  lemma {:induction false} PrefixSingleSpaced(s: string, j: int)
    requires SingleSpaced(s) && 0 <= j <= |s|
    ensures SingleSpaced(s[..j])
    decreases j
  {
    if j > 0 {
      PrefixSingleSpaced(s[1..], j - 1);
      assert s[..j][1..] == s[1..][..j - 1];
    }
  }

  /** Any slice of a single-spaced string is single-spaced. */
  lemma SliceSingleSpaced(s: string, i: int, j: int)
    requires SingleSpaced(s)
    requires 0 <= i <= j <= |s|
    ensures SingleSpaced(s[i..j])
  {
    SuffixSingleSpaced(s, i);
    PrefixSingleSpaced(s[i..], j - i);
    assert s[i..][..j - i] == s[i..j];
  }

  /** `Strip(CollapseSpaces(s))`: the "collapse, then strip" step of validation.py:134 and :146. */
  function Squash(s: string): (r: string)
    ensures Trimmed(r) && SingleSpaced(r)
  {
    CollapseIsSingleSpaced(s);
    StripSingleSpaced(CollapseSpaces(s));
    Strip(CollapseSpaces(s))
  }

  /** Stripping a single-spaced string leaves it single-spaced. */
  lemma StripSingleSpaced(s: string)
    requires SingleSpaced(s)
    ensures SingleSpaced(Strip(s))
  {
    var r := Strip(s);
    var i :| StripsTo(s, i, r);
    SliceSingleSpaced(s, i, i + |r|);
  }

  /** Collapsing, then stripping, removes whitespace only. */
  lemma SquashKeepsContent(s: string)
    ensures NonSpace(Squash(s)) == NonSpace(s)
  {
    CollapseKeepsContent(s);
    StripKeepsContent(CollapseSpaces(s));
  }

  /** Cutting whitespace off both ends keeps every non-whitespace character. */
  lemma NonSpaceOfSlice(s: string, i: int, j: int)
    requires 0 <= i <= j <= |s|
    requires AllSpace(s[..i]) && AllSpace(s[j..])
    ensures NonSpace(s[i..j]) == NonSpace(s)
  {
    var t := s[i..];
    assert t[j - i..] == s[j..];
    assert t[..j - i] == s[i..j];
    NonSpaceDropSuffix(t, j - i);
    NonSpaceDropPrefix(s, i);
  }

  lemma NonSpaceDropPrefix(s: string, i: int)
    requires 0 <= i <= |s| && AllSpace(s[..i])
    ensures NonSpace(s[i..]) == NonSpace(s)
  {
    var head, tail := s[..i], s[i..];
    assert s == head + tail;
    AllSpaceNonSpace(head);
    NonSpaceAppend(head, tail);
    assert NonSpace(head) + NonSpace(tail) == NonSpace(tail);
  }

  lemma NonSpaceDropSuffix(s: string, j: int)
    requires 0 <= j <= |s| && AllSpace(s[j..])
    ensures NonSpace(s[..j]) == NonSpace(s)
  {
    AllSpaceNonSpace(s[j..]);
    NonSpaceAppend(s[..j], s[j..]);
    assert s == s[..j] + s[j..];
  }

  lemma {:induction false} AllSpaceNonSpace(s: string)
    requires AllSpace(s)
    ensures NonSpace(s) == ""
    decreases |s|
  {
    if |s| > 0 {
      assert AllSpace(s[1..]);
      AllSpaceNonSpace(s[1..]);
    }
  }

  lemma {:induction false} NonSpaceAppend(a: string, b: string)
    ensures NonSpace(a + b) == NonSpace(a) + NonSpace(b)
    decreases |a|
  {
    if |a| > 0 {
      assert (a + b)[1..] == a[1..] + b;
      NonSpaceAppend(a[1..], b);
    } else {
      assert a + b == b;
    }
  }

  /** A trimmed, single-spaced string is a fixed point of `Squash`. */
  lemma SquashFixed(s: string)
    requires Trimmed(s) && SingleSpaced(s)
    ensures Squash(s) == s
  {
    CollapseSingleSpaced(s);
    StripTrimmed(s);
  }

  /** Python's `s.replace(c, "")` for a one-character `c`: every occurrence of `c` is deleted. */
  function Without(s: string, c: char): (r: string)
    ensures forall x :: x in r <==> x in s && x != c
    ensures |r| <= |s|
  {
    if |s| == 0 then ""
    else if s[0] == c then Without(s[1..], c)
    else [s[0]] + Without(s[1..], c)
  }

  /** Deleting a character keeps every other character, each as often as before. */
  lemma {:induction false} WithoutCount(s: string, c: char)
    ensures multiset(Without(s, c)) == multiset(s)[c := 0]
    decreases |s|
  {
    if |s| > 0 {
      WithoutCount(s[1..], c);
      assert s == [s[0]] + s[1..];
    }
  }

  /** Deleting a character that does not occur changes nothing. */
  lemma {:induction false} WithoutAbsent(s: string, c: char)
    requires c !in s
    ensures Without(s, c) == s
    decreases |s|
  {
    if |s| > 0 {
      WithoutAbsent(s[1..], c);
      assert s == [s[0]] + s[1..];
    }
  }

  /** Deleting a character distributes over concatenation. */
  lemma {:induction false} WithoutAppend(a: string, b: string, c: char)
    ensures Without(a + b, c) == Without(a, c) + Without(b, c)
    decreases |a|
  {
    if |a| == 0 {
      assert a + b == b;
    } else {
      assert (a + b)[0] == a[0] && (a + b)[1..] == a[1..] + b;
      WithoutAppend(a[1..], b, c);
    }
  }

  /** Lowering ASCII letters never creates or removes whitespace at the ends. */
  lemma LowerTrimmed(s: string)
    requires Trimmed(s)
    ensures Trimmed(Lower(s))
  {
  }

  /** A string without ASCII capitals is its own lowering. */
  lemma LowerFixed(s: string)
    requires forall k :: 0 <= k < |s| ==> !IsAsciiUpper(s[k])
    ensures Lower(s) == s
  {
  }

  /** Python's `str.lower()`, restricted to ASCII case mapping: each capital becomes its small letter. */
  function Lower(s: string): (r: string)
    ensures |r| == |s|
    ensures forall k :: 0 <= k < |r| ==> !IsAsciiUpper(r[k])
    ensures forall k :: 0 <= k < |s| && !IsAsciiUpper(s[k]) ==> r[k] == s[k]
    ensures forall k :: 0 <= k < |s| && IsAsciiUpper(s[k]) ==> r[k] as int == s[k] as int + ('a' as int - 'A' as int)
  {
    seq(|s|, k requires 0 <= k < |s| => LowerChar(s[k]))
  }
}
