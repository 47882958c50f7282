/**
 * The fallback `SimpleDB.get` applies to a stored value that is not JSON:
 * text written by `str()` of a tuple of integers, such as "(100, 200)", is
 * read back as that tuple. The pieces are Python's `str.split(',')`, `int()`
 * of a stripped part, and the text `str()` gives a tuple of integers.
 */
module LegacyTuple {
  import opened Wrappers
  import opened Text

  // ---------------------------------------------------------------------------
  // Splitting on one separator character
  // ---------------------------------------------------------------------------

  /** `s.split(sep)`: the pieces between separators; one empty piece for the empty string. */
  function Split(s: string, sep: char): (parts: seq<string>)
    ensures |parts| >= 1
  {
    if s == [] then [[]]
    else
      var rest := Split(s[1..], sep);
      if s[0] == sep then [[]] + rest else [[s[0]] + rest[0]] + rest[1..]
  }

  /** `sep.join(parts)`. */
  function Join(parts: seq<string>, sep: char): string
    requires |parts| >= 1
  {
    if |parts| == 1 then parts[0] else parts[0] + [sep] + Join(parts[1..], sep)
  }

  /** No piece of a split holds the separator. */
  lemma {:induction false} SplitPartsFree(s: string, sep: char)
    ensures forall i :: 0 <= i < |Split(s, sep)| ==> sep !in Split(s, sep)[i]
  {
    if s != [] {
      SplitPartsFree(s[1..], sep);
    }
  }

  /** Joining the pieces of a split gives the text back. */
  lemma {:induction false} JoinSplit(s: string, sep: char)
    ensures Join(Split(s, sep), sep) == s
  {
    if s != [] {
      JoinSplit(s[1..], sep);
      var rest := Split(s[1..], sep);
      if s[0] == sep {
        assert ([[]] + rest)[1..] == rest;
      } else {
        var parts := [[s[0]] + rest[0]] + rest[1..];
        if |rest| > 1 {
          assert parts[1..] == rest[1..];
          assert s == [s[0]] + (rest[0] + [sep] + Join(rest[1..], sep));
        }
      }
    }
  }

  /** Splitting text that starts with a separator-free `a` glues `a` onto the first piece. */
  lemma {:induction false} SplitAfter(a: string, t: string, sep: char)
    requires sep !in a
    ensures Split(a + t, sep) == [a + Split(t, sep)[0]] + Split(t, sep)[1..]
  {
    if a != [] {
      assert (a + t)[0] == a[0] && (a + t)[1..] == a[1..] + t;
      SplitAfter(a[1..], t, sep);
      assert [a[0]] + (a[1..] + Split(t, sep)[0]) == a + Split(t, sep)[0];
    } else {
      var parts := Split(t, sep);
      assert a + t == t && a + parts[0] == parts[0];
      assert [parts[0]] + parts[1..] == parts;
    }
  }

  /** Splitting the join of separator-free pieces gives the pieces back. */
  lemma {:induction false} SplitJoin(parts: seq<string>, sep: char)
    requires |parts| >= 1
    requires forall i :: 0 <= i < |parts| ==> sep !in parts[i]
    ensures Split(Join(parts, sep), sep) == parts
  {
    if |parts| == 1 {
      SplitAfter(parts[0], [], sep);
      assert parts[0] + [] == parts[0];
    } else {
      var tail := Join(parts[1..], sep);
      SplitJoin(parts[1..], sep);
      assert parts[0] + [sep] + tail == parts[0] + ([sep] + tail);
      SplitAfter(parts[0], [sep] + tail, sep);
      assert ([sep] + tail)[1..] == tail;
      assert parts[0] + [] == parts[0];
    }
  }

  // ---------------------------------------------------------------------------
  // Integers
  // ---------------------------------------------------------------------------

  /** `int(p)` of a stripped part: an optional sign and decimal digits; None where `int()` raises. */
  function ParseInt(p: string): Option<int> {
    if p != [] && (p[0] == '-' || p[0] == '+') then
      if IsDigits(p[1..]) then
        var n: int := DigitsValue(p[1..]);
        Some(if p[0] == '-' then -n else n)
      else None
    else if IsDigits(p) then Some(DigitsValue(p))
    else None
  }

  function DigitChar(d: nat): (c: char)
    requires d < 10
    ensures IsDigit(c) && c as int - '0' as int == d
  {
    ('0' as int + d) as char
  }

  /** The decimal digits of `n`, without leading zeros. */
  function ShowNat(n: nat): (s: string)
    ensures s != [] && forall k :: 0 <= k < |s| ==> IsDigit(s[k])
  {
    if n < 10 then [DigitChar(n)] else ShowNat(n / 10) + [DigitChar(n % 10)]
  }

  /** `repr()` of an integer. */
  function ShowInt(i: int): (s: string)
    ensures s != [] && IsDigit(s[|s| - 1]) && (IsDigit(s[0]) || s[0] == '-')
    ensures forall k :: 0 <= k < |s| ==> IsDigit(s[k]) || s[k] == '-'
  {
    if i < 0 then "-" + ShowNat(-i) else ShowNat(i)
  }

  /** Reading back the digits of `n` gives `n`. */
  lemma {:induction false} ShowNatValue(n: nat)
    ensures IsDigits(ShowNat(n)) && DigitsValue(ShowNat(n)) == n
  {
    if n >= 10 {
      ShowNatValue(n / 10);
      var s := ShowNat(n);
      assert s[..|s| - 1] == ShowNat(n / 10);
    }
  }

  /** `int(repr(i)) == i`. */
  lemma ParseShowInt(i: int)
    ensures ParseInt(ShowInt(i)) == Some(i)
  {
    if i < 0 {
      ParseNegative(-i);
    } else {
      ShowNatValue(i);
      assert IsDigit(ShowNat(i)[0]);
    }
  }

  lemma ParseNegative(n: nat)
    requires n > 0
    ensures ParseInt("-" + ShowNat(n)) == Some(-(n as int))
  {
    ShowNatValue(n);
    var p := "-" + ShowNat(n);
    assert p[0] == '-' && p[1..] == ShowNat(n);
  }

  // ---------------------------------------------------------------------------
  // The fallback parse
  // ---------------------------------------------------------------------------

  /** `tuple(int(p.strip()) for p in parts if p.strip())`; None where some `int()` raises. */
  function ParseParts(parts: seq<string>): Option<seq<int>> {
    if parts == [] then Some([])
    else
      var p := Strip(parts[0]);
      if p == [] then ParseParts(parts[1..])
      else match ParseInt(p)
        case None => None
        case Some(n) => Prefixed([n], ParseParts(parts[1..]))
  }

  /**
   * The tuple `get` reads from text that starts with "(" and ends with ")", or
   * None where the text has another shape or a part is not an integer.
   */
  function ParseTuple(text: string): (r: Option<seq<int>>)
    ensures r.Some? <==>
      text != [] && text[0] == '(' && text[|text| - 1] == ')' && IntParts(Split(text[1..|text| - 1], ','))
    ensures r.Some? ==> |r.value| <= |Split(text[1..|text| - 1], ',')|
  {
    if text != [] && text[0] == '(' && text[|text| - 1] == ')' then
      var parts := Split(text[1..|text| - 1], ',');
      ParsePartsMeaning(parts);
      ParseParts(parts)
    else None
  }

  /** Every non-blank part, stripped, is an integer. */
  predicate IntParts(parts: seq<string>) {
    forall i :: 0 <= i < |parts| && Strip(parts[i]) != [] ==> ParseInt(Strip(parts[i])).Some?
  }

  /** The parse succeeds exactly when every non-blank part is an integer, and gives one item per such part. */
  lemma {:induction false} ParsePartsMeaning(parts: seq<string>)
    ensures ParseParts(parts).Some? <==> IntParts(parts)
    ensures ParseParts(parts).Some? ==> |ParseParts(parts).value| <= |parts|
  {
    if parts != [] {
      ParsePartsMeaning(parts[1..]);
      assert forall i :: 1 <= i < |parts| ==> parts[i] == parts[1..][i - 1];
    }
  }

  lemma NoCommaInShowInt(i: int)
    ensures ',' !in ShowInt(i) && ',' !in " " + ShowInt(i)
  {
  }

  /** The pieces of the text `str()` gives a tuple: "", "x," or "x0, x1, ..." split on commas. */
  function Items(xs: seq<int>): (parts: seq<string>)
    ensures |parts| >= 1
  {
    if xs == [] then [""]
    else if |xs| == 1 then [ShowInt(xs[0]), ""]
    else [ShowInt(xs[0])] + Spaced(xs[1..])
  }

  /** " x1", " x2", ...: the later pieces of a tuple of two or more. */
  function Spaced(xs: seq<int>): (parts: seq<string>)
    ensures |parts| == |xs|
  {
    if xs == [] then [] else [" " + ShowInt(xs[0])] + Spaced(xs[1..])
  }

  /** `str(xs)` for a tuple of integers: "()", "(5,)", "(100, 200)". */
  function TupleText(xs: seq<int>): string {
    "(" + Join(Items(xs), ',') + ")"
  }

  lemma StripShowInt(i: int)
    ensures Strip(ShowInt(i)) == ShowInt(i) && Strip(" " + ShowInt(i)) == ShowInt(i)
  {
    StripTrimmed(ShowInt(i));
    var s := " " + ShowInt(i);
    assert s[1..] == ShowInt(i);
  }

  lemma {:induction false} ParseSpaced(xs: seq<int>)
    ensures ParseParts(Spaced(xs)) == Some(xs)
  {
    if xs != [] {
      ParseSpaced(xs[1..]);
      StripShowInt(xs[0]);
      ParseShowInt(xs[0]);
      assert Spaced(xs)[1..] == Spaced(xs[1..]);
      assert [xs[0]] + xs[1..] == xs;
    }
  }

  lemma {:induction false} SpacedCommaFree(xs: seq<int>)
    ensures forall i :: 0 <= i < |Spaced(xs)| ==> ',' !in Spaced(xs)[i]
  {
    if xs != [] {
      SpacedCommaFree(xs[1..]);
      NoCommaInShowInt(xs[0]);
      assert forall i :: 1 <= i < |Spaced(xs)| ==> Spaced(xs)[i] == Spaced(xs[1..])[i - 1];
    }
  }

  lemma ItemsCommaFree(xs: seq<int>)
    ensures forall i :: 0 <= i < |Items(xs)| ==> ',' !in Items(xs)[i]
  {
    if xs != [] {
      NoCommaInShowInt(xs[0]);
      if |xs| > 1 {
        SpacedCommaFree(xs[1..]);
        assert forall i :: 1 <= i < |Items(xs)| ==> Items(xs)[i] == Spaced(xs[1..])[i - 1];
      }
    }
  }

  lemma ParseSingle(x: int)
    ensures ParseParts([ShowInt(x), ""]) == Some([x])
  {
    StripTrimmed("");
    StripShowInt(x);
    ParseShowInt(x);
    var parts := [ShowInt(x), ""];
    assert parts[1..] == [""] && parts[1..][1..] == [];
    assert ParseParts(parts[1..]) == Some([]);
    assert parts[0] == ShowInt(x) && Strip(parts[0]) != [];
    assert [x] + [] == [x];
  }

  /** The pieces of `str(xs)` parse back to `xs`. */
  lemma ParseItems(xs: seq<int>)
    ensures ParseParts(Items(xs)) == Some(xs)
  {
    StripTrimmed("");
    if |xs| == 1 {
      ParseSingle(xs[0]);
      assert [xs[0]] == xs;
    } else if |xs| > 1 {
      StripShowInt(xs[0]);
      ParseShowInt(xs[0]);
      ParseSpaced(xs[1..]);
      assert Items(xs)[1..] == Spaced(xs[1..]);
      assert [xs[0]] + xs[1..] == xs;
    } else {
      assert Items(xs)[1..] == [];
    }
  }

  /** Text that `str()` wrote for a tuple of integers is read back as that tuple. */
  lemma ParseTupleText(xs: seq<int>)
    ensures ParseTuple(TupleText(xs)) == Some(xs)
  {
    var text := TupleText(xs);
    assert text[0] == '(' && text[|text| - 1] == ')';
    assert text[1..|text| - 1] == Join(Items(xs), ',');
    ItemsCommaFree(xs);
    SplitJoin(Items(xs), ',');
    ParseItems(xs);
  }
}
