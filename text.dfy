/**
 * Character classes and the string helpers the matcher, the rule editor and the
 * local store rely on: lower-casing, the `[^\w\s]` deletion of the matcher,
 * Python's `str.strip()`, the `in` substring test and `str.isdigit()`.
 *
 * Python's Unicode tables are not modelled: a word character (`\w`) is an ASCII
 * letter or digit, `_`, or a CJK unified ideograph; whitespace (`\s`, `isspace`)
 * is CPython's complete list of whitespace code points; `lower()` folds ASCII.
 */
module Text {

  predicate IsAsciiUpper(c: char) { 'A' <= c <= 'Z' }

  predicate IsAsciiLetter(c: char) { 'a' <= c <= 'z' || 'A' <= c <= 'Z' }

  predicate IsDigit(c: char) { '0' <= c <= '9' }

  predicate IsCjk(c: char) { '\U{3400}' <= c <= '\U{4DBF}' || '\U{4E00}' <= c <= '\U{9FFF}' }

  /** `\w`, restricted as described above. */
  predicate IsWordChar(c: char) { IsAsciiLetter(c) || IsDigit(c) || c == '_' || IsCjk(c) }

  /** `\s` and `str.isspace()`: the code points CPython classifies as whitespace. */
  predicate IsSpace(c: char) {
    || '\t' <= c <= '\r'
    || '\U{1C}' <= c <= ' '
    || c == '\U{85}' || c == '\U{A0}' || c == '\U{1680}'
    || '\U{2000}' <= c <= '\U{200A}'
    || c == '\U{2028}' || c == '\U{2029}' || c == '\U{202F}' || c == '\U{205F}' || c == '\U{3000}'
  }

  function LowerChar(c: char): (r: char)
    ensures !IsAsciiUpper(r)
    ensures IsAsciiUpper(c) ==> r as int == c as int + 32
    ensures !IsAsciiUpper(c) ==> r == c
  {
    if IsAsciiUpper(c) then (c as int + 32) as char else c
  }

  /** `str.lower()`. */
  function Lower(s: string): (r: string)
    ensures |r| == |s|
    ensures forall i :: 0 <= i < |s| ==> r[i] == LowerChar(s[i])
  {
    seq(|s|, i requires 0 <= i < |s| => LowerChar(s[i]))
  }

  /** `re.sub(r'[^\w\s]', '', s)`: every character that is neither a word
      character nor whitespace is deleted, not replaced. */
  function DropSymbols(s: string): string
  {
    if s == [] then []
    else (if IsWordChar(s[0]) || IsSpace(s[0]) then [s[0]] else []) + DropSymbols(s[1..])
  }

  /** The shape of every normalized text: lower-case word characters and whitespace only. */
  predicate IsNormalized(s: string) {
    forall i :: 0 <= i < |s| ==> !IsAsciiUpper(s[i]) && (IsWordChar(s[i]) || IsSpace(s[i]))
  }

  /** AffixMatcher.normalize_text: lower-case, then delete punctuation. */
  function Normalize(s: string): (r: string)
    ensures IsNormalized(r)
    ensures |r| <= |s|
  {
    DropSymbolsKeepsShape(Lower(s));
    DropSymbols(Lower(s))
  }

  lemma {:induction false} DropSymbolsKeepsShape(s: string)
    requires forall i :: 0 <= i < |s| ==> !IsAsciiUpper(s[i])
    ensures IsNormalized(DropSymbols(s)) && |DropSymbols(s)| <= |s|
  {
    if s != [] {
      DropSymbolsKeepsShape(s[1..]);
    }
  }

  lemma {:induction false} DropSymbolsConcat(a: string, b: string)
    ensures DropSymbols(a + b) == DropSymbols(a) + DropSymbols(b)
  {
    if a == [] {
      assert a + b == b;
    } else {
      var head := if IsWordChar(a[0]) || IsSpace(a[0]) then [a[0]] else [];
      assert (a + b)[0] == a[0];
      assert (a + b)[1..] == a[1..] + b;
      DropSymbolsConcat(a[1..], b);
      calc {
        DropSymbols(a + b);
        head + DropSymbols(a[1..] + b);
        head + (DropSymbols(a[1..]) + DropSymbols(b));
        (head + DropSymbols(a[1..])) + DropSymbols(b);
      }
    }
  }

  lemma {:induction false} NormalizedIsFixed(s: string)
    requires IsNormalized(s)
    ensures DropSymbols(Lower(s)) == s
  {
    if s != [] {
      NormalizedIsFixed(s[1..]);
      assert Lower(s) == [s[0]] + Lower(s[1..]);
      assert [s[0]] + s[1..] == s;
    }
  }

  /** Normalization is idempotent. */
  lemma NormalizeIdempotent(s: string)
    ensures Normalize(Normalize(s)) == Normalize(s)
  {
    NormalizedIsFixed(Normalize(s));
  }

  /** Normalization distributes over concatenation, because it works character by character. */
  lemma NormalizeConcat(a: string, b: string)
    ensures Normalize(a + b) == Normalize(a) + Normalize(b)
  {
    assert Lower(a + b) == Lower(a) + Lower(b);
    DropSymbolsConcat(Lower(a), Lower(b));
  }

  /** Normalization deletes a symbol instead of turning it into a space: `"a,b"` becomes `"ab"`. */
  lemma NormalizeDeletesSymbols()
    ensures Normalize("A,b") == "ab"
  {
    assert Lower("A,b") == "a,b";
    assert DropSymbols("a,b") == "a" + DropSymbols(",b");
    assert DropSymbols(",b") == DropSymbols("b");
  }

  /** Python's `needle in haystack` on strings. */
  predicate Contains(haystack: string, needle: string)
    decreases |haystack|
  {
    needle <= haystack || (haystack != [] && Contains(haystack[1..], needle))
  }

  /** The position-based meaning of substring containment. */
  ghost predicate OccursAt(haystack: string, needle: string, i: int) {
    0 <= i && i + |needle| <= |haystack| && haystack[i..i + |needle|] == needle
  }

  lemma {:induction false} ContainsIffOccurs(haystack: string, needle: string)
    ensures Contains(haystack, needle) <==> exists i :: OccursAt(haystack, needle, i)
    decreases |haystack|
  {
    if needle <= haystack {
      assert OccursAt(haystack, needle, 0);
    } else if haystack == [] {
      assert |needle| > 0;
    } else {
      ContainsIffOccurs(haystack[1..], needle);
      if exists i :: OccursAt(haystack[1..], needle, i) {
        var i :| OccursAt(haystack[1..], needle, i);
        assert haystack[i + 1..i + 1 + |needle|] == haystack[1..][i..i + |needle|];
        assert OccursAt(haystack, needle, i + 1);
      }
      if exists i :: OccursAt(haystack, needle, i) {
        var i :| OccursAt(haystack, needle, i);
        if i != 0 {
          assert haystack[1..][i - 1..i - 1 + |needle|] == haystack[i..i + |needle|];
          assert OccursAt(haystack[1..], needle, i - 1);
        }
      }
    }
  }

  /** The empty string occurs in every string. */
  lemma EmptyIsContained(haystack: string)
    ensures Contains(haystack, "")
  {
  }

  /** A witness position is enough to establish containment. */
  lemma ContainsAt(haystack: string, needle: string, i: nat)
    requires i + |needle| <= |haystack| && haystack[i..i + |needle|] == needle
    ensures Contains(haystack, needle)
  {
    ContainsIffOccurs(haystack, needle);
    assert OccursAt(haystack, needle, i);
  }

  /** `str.strip()` with no argument: leading and trailing whitespace removed. */
  function Strip(s: string): (r: string)
    ensures |r| <= |s|
  {
    StripRight(StripLeft(s))
  }

  /** Drops the leading whitespace. */
  function StripLeft(s: string): (r: string)
    ensures |r| <= |s|
  {
    if s != [] && IsSpace(s[0]) then StripLeft(s[1..]) else s
  }

  /** Drops the trailing whitespace. */
  function StripRight(s: string): (r: string)
    ensures |r| <= |s|
  {
    if s != [] && IsSpace(s[|s| - 1]) then StripRight(s[..|s| - 1]) else s
  }

  lemma {:induction false} StripLeftIsSuffix(s: string)
    ensures var r := StripLeft(s);
      && r == s[|s| - |r|..]
      && (forall k :: 0 <= k < |s| - |r| ==> IsSpace(s[k]))
      && (r != [] ==> !IsSpace(r[0]))
  {
    if s != [] && IsSpace(s[0]) {
      StripLeftIsSuffix(s[1..]);
      var r := StripLeft(s[1..]);
      assert s[1..][|s| - 1 - |r|..] == s[|s| - |r|..];
    }
  }

  lemma {:induction false} StripRightIsPrefix(s: string)
    ensures var r := StripRight(s);
      && r == s[..|r|]
      && (forall k :: |r| <= k < |s| ==> IsSpace(s[k]))
      && (r != [] ==> !IsSpace(r[|r| - 1]))
  {
    if s != [] && IsSpace(s[|s| - 1]) {
      StripRightIsPrefix(s[..|s| - 1]);
      var r := StripRight(s[..|s| - 1]);
      assert s[..|s| - 1][..|r|] == s[..|r|];
    }
  }

  /**
   * `str.strip()` keeps the slice `s[i..i + |r|]` for some `i`: everything before
   * and after it is whitespace, and the kept part neither starts nor ends with it.
   */
  lemma StripIsTrim(s: string) returns (i: nat)
    ensures var r := Strip(s);
      && i + |r| <= |s| && r == s[i..i + |r|]
      && (forall k :: 0 <= k < i ==> IsSpace(s[k]))
      && (forall k :: i + |r| <= k < |s| ==> IsSpace(s[k]))
      && (r != [] ==> !IsSpace(r[0]) && !IsSpace(r[|r| - 1]))
  {
    var left := StripLeft(s);
    StripLeftIsSuffix(s);
    StripRightIsPrefix(left);
    i := |s| - |left|;
    var r := StripRight(left);
    assert r == s[i..i + |r|] by {
      assert left[..|r|] == s[i..][..|r|];
    }
    forall k | i + |r| <= k < |s|
      ensures IsSpace(s[k])
    {
      assert s[k] == left[k - i];
    }
  }

  /** Text made of whitespace only strips to the empty string. */
  lemma StripBlank(s: string)
    requires forall k :: 0 <= k < |s| ==> IsSpace(s[k])
    ensures Strip(s) == []
  {
    var i := StripIsTrim(s);
  }

  /** Text with no whitespace at either end is left as it is. */
  lemma StripTrimmed(s: string)
    requires s != [] ==> !IsSpace(s[0]) && !IsSpace(s[|s| - 1])
    ensures Strip(s) == s
  {
    var i := StripIsTrim(s);
  }

  /** `str.isdigit()` over ASCII digits: non-empty and digits only. */
  predicate IsDigits(s: string) {
    s != [] && forall i :: 0 <= i < |s| ==> IsDigit(s[i])
  }

  /** The value of a decimal digit string, as Python's `int()` reads it. */
  function DigitsValue(s: string): nat
    requires forall i :: 0 <= i < |s| ==> IsDigit(s[i])
  {
    if s == [] then 0
    else
      var last := s[|s| - 1];
      assert IsDigit(last);
      DigitsValue(s[..|s| - 1]) * 10 + (last as int - '0' as int)
  }
}
