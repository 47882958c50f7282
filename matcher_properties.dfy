/**
 * What AffixMatcher.check promises, proved about the model in matcher.dfy:
 * the meaning of each rule shape, the meaning of an expression, operator
 * precedence, and failing closed on malformed expressions.
 */
module MatcherProperties {
  import opened Wrappers
  import opened Text
  import opened Matcher

  // ---------------------------------------------------------------------------
  // Plain keywords, lists and dicts

  /** A string without `&&`, `||` or a pair of parentheses matches exactly when its
      normalized form occurs in the normalized screen text. */
  lemma KeywordIsContainment(screenText: string, s: string)
    requires !IsExpressionMode(s)
    ensures Check(screenText, Str(s)) <==> exists i :: OccursAt(Normalize(screenText), Normalize(s), i)
  {
    ContainsIffOccurs(Normalize(screenText), Normalize(s));
  }

  /** A keyword that normalizes to nothing (only punctuation, say) matches every text. */
  lemma EmptyKeywordAlwaysMatches(screenText: string, s: string)
    requires !IsExpressionMode(s) && Normalize(s) == []
    ensures Check(screenText, Str(s))
  {
    EmptyIsContained(Normalize(screenText));
  }

  lemma {:induction false} AllHoldIsForall(screenText: string, cs: seq<Condition>)
    ensures AllHold(screenText, cs) <==> forall i :: 0 <= i < |cs| ==> Check(screenText, cs[i])
  {
    if cs != [] {
      AllHoldIsForall(screenText, cs[1..]);
      assert forall i :: 1 <= i < |cs| ==> cs[i] == cs[1..][i - 1];
    }
  }

  lemma {:induction false} AnyHoldsIsExists(screenText: string, cs: seq<Condition>)
    ensures AnyHolds(screenText, cs) <==> exists i :: 0 <= i < |cs| && Check(screenText, cs[i])
  {
    if cs != [] {
      AnyHoldsIsExists(screenText, cs[1..]);
      assert forall i :: 1 <= i < |cs| ==> cs[i] == cs[1..][i - 1];
    }
  }

  /** A list rule is the conjunction of its elements; the empty list always matches. */
  lemma ListIsConjunction(screenText: string, cs: seq<Condition>)
    ensures Check(screenText, List(cs)) <==> forall i :: 0 <= i < |cs| ==> Check(screenText, cs[i])
  {
    AllHoldIsForall(screenText, cs);
  }

  /** A dict rule fails when it has `OR` and no element matches, or `AND` and some element
      fails; otherwise (in particular with neither key) it matches. */
  lemma DictIsOrThenAnd(screenText: string, orKey: DictEntry, andKey: DictEntry, otherKeys: nat)
    ensures Check(screenText, Dict(orKey, andKey, otherKeys)) <==>
      && (orKey.Entries? ==> exists i :: 0 <= i < |orKey.items| && Check(screenText, orKey.items[i]))
      && (andKey.Entries? ==> forall i :: 0 <= i < |andKey.items| ==> Check(screenText, andKey.items[i]))
  {
    if orKey.Entries? {
      AnyHoldsIsExists(screenText, orKey.items);
    }
    if andKey.Entries? {
      AllHoldIsForall(screenText, andKey.items);
    }
  }

  // ---------------------------------------------------------------------------
  // Expressions: every name is bound, so evaluation means presence

  lemma {:induction false} TokenNamesAreKeywords(s: string)
    requires Tokenize(s).Some?
    ensures NameSet(Tokenize(s).value) <= AtomRuns(s) - Reserved
    decreases |s|
  {
    if s == [] {
    } else if IsBlank(s[0]) {
      TokenNamesAreKeywords(s[1..]);
    } else if s[0] == '(' || s[0] == ')' {
      TokenNamesAreKeywords(s[1..]);
      var ts := Tokenize(s[1..]).value;
      var t := if s[0] == '(' then LParen else RParen;
      assert Tokenize(s).value == [t] + ts;
      assert NameSet([t] + ts) == NameSet(ts);
    } else {
      var n := RunLength(s);
      var t := WordToken(s[..n]).value;
      TokenNamesAreKeywords(s[n..]);
      var ts := Tokenize(s[n..]).value;
      assert Tokenize(s).value == [t] + ts;
      assert NameSet([t] + ts) <= NameSet(ts) + (if t.Name? then {t.id} else {});
    }
  }

  lemma {:induction false} EvalIsDenote(e: Expr, context: map<string, bool>, raw: string)
    requires VarsOf(e) <= context.Keys
    requires forall w :: w in context ==> context[w] == Present(raw, w)
    ensures Eval(e, context) == Some(Denote(e, raw))
  {
    match e
    case Var(w) =>
    case Const(_) =>
    case Not(x) => EvalIsDenote(x, context, raw);
    case And(l, r) => EvalIsDenote(l, context, raw); EvalIsDenote(r, context, raw);
    case Or(l, r) => EvalIsDenote(l, context, raw); EvalIsDenote(r, context, raw);
  }

  /** What a parse function promises: it consumed at least one token, and the expression and the
      tokens left over hold only names it was given. */
  ghost predicate Consumed(ts: seq<Token>, r: Option<Parsed>) {
    r.Some? ==>
      && |r.value.rest| < |ts|
      && NameSet(r.value.rest) <= NameSet(ts)
      && VarsOf(r.value.expr) <= NameSet(ts)
  }

  /** What an `(op operand)*` loop promises: the expression holds only `left` and names it was given. */
  ghost predicate Extended(left: Expr, ts: seq<Token>, r: Option<Parsed>) {
    r.Some? ==>
      && |r.value.rest| <= |ts|
      && NameSet(r.value.rest) <= NameSet(ts)
      && VarsOf(r.value.expr) <= VarsOf(left) + NameSet(ts)
  }

  /** One round of an `(op operand)*` loop keeps `Extended`. */
  lemma ExtendedStep(left: Expr, combined: Expr, ts: seq<Token>, p: Parsed, r: Option<Parsed>)
    requires ts != [] && VarsOf(combined) == VarsOf(left) + VarsOf(p.expr)
    requires Consumed(ts[1..], Some(p))
    requires Extended(combined, p.rest, r)
    ensures Extended(left, ts, r)
  {
    assert NameSet(ts[1..]) <= NameSet(ts);
  }

  lemma {:induction false} OrReadsNames(ts: seq<Token>)
    ensures Consumed(ts, ParseOr(ts))
    decreases |ts|, 2
  {
    AndReadsNames(ts);
    match ParseAnd(ts)
    case None =>
    case Some(p) =>
      OrTailReadsNames(p.expr, p.rest);
  }

  lemma {:induction false} OrTailReadsNames(left: Expr, ts: seq<Token>)
    ensures Extended(left, ts, ParseOrTail(left, ts))
    decreases |ts|, 0
  {
    if ts != [] && ts[0] == OrOp {
      AndReadsNames(ts[1..]);
      match ParseAnd(ts[1..])
      case None =>
      case Some(p) =>
        OrTailReadsNames(Or(left, p.expr), p.rest);
        ExtendedStep(left, Or(left, p.expr), ts, p, ParseOrTail(Or(left, p.expr), p.rest));
    }
  }

  lemma {:induction false} AndReadsNames(ts: seq<Token>)
    ensures Consumed(ts, ParseAnd(ts))
    decreases |ts|, 1
  {
    NotReadsNames(ts);
    match ParseNot(ts)
    case None =>
    case Some(p) =>
      AndTailReadsNames(p.expr, p.rest);
  }

  lemma {:induction false} AndTailReadsNames(left: Expr, ts: seq<Token>)
    ensures Extended(left, ts, ParseAndTail(left, ts))
    decreases |ts|, 0
  {
    if ts != [] && ts[0] == AndOp {
      NotReadsNames(ts[1..]);
      match ParseNot(ts[1..])
      case None =>
      case Some(p) =>
        AndTailReadsNames(And(left, p.expr), p.rest);
        ExtendedStep(left, And(left, p.expr), ts, p, ParseAndTail(And(left, p.expr), p.rest));
    }
  }

  lemma {:induction false} NotReadsNames(ts: seq<Token>)
    ensures Consumed(ts, ParseNot(ts))
    decreases |ts|, 0
  {
    if ts != [] {
      match ts[0]
      case NotOp =>
        NotReadsNames(ts[1..]);
        assert NameSet(ts[1..]) <= NameSet(ts);
      case LParen =>
        OrReadsNames(ts[1..]);
        assert NameSet(ts[1..]) <= NameSet(ts);
        var r := ParseOr(ts[1..]);
        if r.Some? && r.value.rest != [] {
          assert NameSet(r.value.rest[1..]) <= NameSet(r.value.rest);
        }
      case Name(w) =>
        assert NameSet(ts[1..]) <= NameSet(ts);
      case Literal(_) =>
        assert NameSet(ts[1..]) <= NameSet(ts);
      case _ =>
    }
  }

  /** A parsed expression mentions only names that occur among its tokens. */
  lemma ParsedNamesAreRead(ts: seq<Token>)
    requires ParseTokens(ts).Some?
    ensures VarsOf(ParseTokens(ts).value) <= NameSet(ts)
  {
    OrReadsNames(ts);
  }

  /** An expression that parses means its formula with every name read as "the normalized
      name occurs in the normalized text"; one that does not parse is false. */
  lemma ExpressionMeaning(raw: string, expression: string)
    ensures var parsed := ParseExpression(ToPythonSyntax(expression));
      CheckExpression(raw, expression) == (parsed.Some? && Denote(parsed.value, raw))
  {
    var pythonExpr := ToPythonSyntax(expression);
    var parsed := ParseExpression(pythonExpr);
    if parsed.Some? {
      TokenNamesAreKeywords(pythonExpr);
      ParsedNamesAreRead(Tokenize(pythonExpr).value);
      EvalIsDenote(parsed.value, Context(raw, pythonExpr), raw);
    }
  }

  // ---------------------------------------------------------------------------
  // Rewriting `&&` / `||`

  /** A string that does not hold the first character of the pattern is left alone. */
  lemma {:induction false} ReplaceMisses(x: string, pattern: string, replacement: string)
    requires pattern != [] && pattern[0] !in x
    ensures ReplaceAll(x, pattern, replacement) == x
    decreases |x|
  {
    if |x| >= |pattern| {
      assert x[0] in x;
      assert x[..|pattern|][0] == x[0];
      assert x[1..] == x[..] [1..];
      assert forall ch :: ch in x[1..] ==> ch in x;
      ReplaceMisses(x[1..], pattern, replacement);
      assert [x[0]] + x[1..] == x;
    }
  }

  lemma ReplaceHit(y: string, pattern: string, replacement: string)
    requires pattern != []
    ensures ReplaceAll(pattern + y, pattern, replacement) == replacement + ReplaceAll(y, pattern, replacement)
  {
    assert (pattern + y)[..|pattern|] == pattern;
    assert (pattern + y)[|pattern|..] == y;
  }

  /** With a two-character pattern, the rewrite of a concatenation is the concatenation of
      the rewrites, provided the left part does not end with the pattern's first character. */
  lemma {:induction false} ReplaceAppend(x: string, y: string, pattern: string, replacement: string)
    requires |pattern| == 2
    requires x == [] || x[|x| - 1] != pattern[0]
    ensures ReplaceAll(x + y, pattern, replacement)
         == ReplaceAll(x, pattern, replacement) + ReplaceAll(y, pattern, replacement)
    decreases |x|
  {
    if x == [] {
      assert x + y == y;
    } else if |x| == 1 {
      ReplaceLast(x, y, pattern, replacement);
    } else {
      var m, out := ReplaceHead(x, y, pattern, replacement);
      ReplaceAppend(x[m..], y, pattern, replacement);
      StringAssoc(out, ReplaceAll(x[m..], pattern, replacement), ReplaceAll(y, pattern, replacement));
    }
  }

  lemma StringAssoc(a: string, b: string, c: string)
    ensures (a + b) + c == a + (b + c)
  {
  }

  /** `ReplaceAppend` when `x` is one character that cannot start the pattern. */
  lemma ReplaceLast(x: string, y: string, pattern: string, replacement: string)
    requires |pattern| == 2 && |x| == 1 && x[0] != pattern[0]
    ensures ReplaceAll(x + y, pattern, replacement)
         == ReplaceAll(x, pattern, replacement) + ReplaceAll(y, pattern, replacement)
  {
    var s := x + y;
    if |s| < 2 {
      assert s == x;
      assert y == [];
    } else {
      assert s[..2][0] == x[0];
      assert s[1..] == y;
      assert [s[0]] == x;
    }
  }

  /** The first step of the rewrite of `x`, which is also the first step of the rewrite of `x + y`. */
  lemma ReplaceHead(x: string, y: string, pattern: string, replacement: string) returns (m: nat, out: string)
    requires |pattern| == 2 && |x| >= 2
    ensures 0 < m <= |x|
    ensures x[m..] == [] || x[m..][|x[m..]| - 1] == x[|x| - 1]
    ensures ReplaceAll(x, pattern, replacement) == out + ReplaceAll(x[m..], pattern, replacement)
    ensures ReplaceAll(x + y, pattern, replacement) == out + ReplaceAll(x[m..] + y, pattern, replacement)
  {
    SplitAt(x, y, 2);
    SplitAt(x, y, 1);
    var s := x + y;
    assert s[..2] == x[..2];
    if x[..2] == pattern {
      m, out := 2, replacement;
    } else {
      m, out := 1, [x[0]];
      assert s[0] == x[0];
    }
  }

  /** A character outside both the pattern and the replacement survives the rewrite. */
  lemma {:induction false} ReplaceKeeps(s: string, pattern: string, replacement: string, i: nat)
    requires pattern != [] && i < |s|
    requires s[i] !in pattern && s[i] !in replacement
    ensures s[i] in ReplaceAll(s, pattern, replacement)
    decreases |s|
  {
    if |s| < |pattern| {
    } else if s[..|pattern|] == pattern {
      if i >= |pattern| {
        ReplaceKeeps(s[|pattern|..], pattern, replacement, i - |pattern|);
      }
    } else if i > 0 {
      ReplaceKeeps(s[1..], pattern, replacement, i - 1);
    }
  }

  // ---------------------------------------------------------------------------
  // Tokenizing

  lemma {:induction false} RunLengthOfWord(w: string, rest: string)
    requires forall i :: 0 <= i < |w| ==> IsAtomChar(w[i])
    requires rest == [] || !IsAtomChar(rest[0])
    ensures RunLength(w + rest) == |w|
  {
    if w != [] {
      assert (w + rest)[0] == w[0];
      assert (w + rest)[1..] == w[1..] + rest;
      RunLengthOfWord(w[1..], rest);
    }
  }

  /** The keyword that starts `x` is also the keyword that starts `x + y`, when no keyword spans the joint. */
  lemma WordAtJoint(x: string, y: string)
    requires x != [] && IsAtomChar(x[0])
    requires y == [] || !IsAtomChar(x[|x| - 1]) || !IsAtomChar(y[0])
    ensures var n := RunLength(x);
      RunLength(x + y) == n && (x + y)[..n] == x[..n] && (x + y)[n..] == x[n..] + y
  {
    var n := RunLength(x);
    if n < |x| {
      SplitAt(x, y, n);
      RunLengthOfWord(x[..n], x[n..] + y);
    } else {
      assert IsAtomChar(x[|x| - 1]);
      SplitAt(x, y, n);
      RunLengthOfWord(x, y);
    }
  }

  lemma SplitAt(x: string, y: string, n: nat)
    requires n <= |x|
    ensures x[..n] + (x[n..] + y) == x + y
    ensures (x + y)[..n] == x[..n] && (x + y)[n..] == x[n..] + y
    ensures n == |x| ==> x[..n] == x && x[n..] + y == y
  {
  }

  /** Tokenizing a concatenation tokenizes the parts, provided no keyword spans the joint. */
  lemma {:induction false} TokenizeAppend(x: string, y: string, xs: seq<Token>, ys: seq<Token>)
    requires Tokenize(x) == Some(xs) && Tokenize(y) == Some(ys)
    requires x == [] || y == [] || !IsAtomChar(x[|x| - 1]) || !IsAtomChar(y[0])
    ensures Tokenize(x + y) == Some(xs + ys)
    decreases |x|
  {
    if x == [] {
      EmptyHead(x, y, xs, ys);
    } else {
      var m, k := Head(x, y, xs);
      TokenizeAppend(x[m..], y, xs[k..], ys);
      var tail := xs[k..] + ys;
      assert Tokenize(x[m..] + y) == Some(tail);
      assert Tokenize(x + y) == Some(xs[..k] + tail);
      assert xs[..k] + xs[k..] == xs;
      TokensAssoc(xs[..k], xs[k..], ys);
    }
  }

  function PrependAll(ts: seq<Token>, r: Option<seq<Token>>): Option<seq<Token>> {
    match r
    case None => None
    case Some(rest) => Some(ts + rest)
  }

  lemma TokensAssoc(a: seq<Token>, b: seq<Token>, c: seq<Token>)
    ensures (a + b) + c == a + (b + c)
  {
  }

  lemma EmptyHead(x: string, y: string, xs: seq<Token>, ys: seq<Token>)
    requires x == [] && Tokenize(x) == Some(xs) && Tokenize(y) == Some(ys)
    ensures Tokenize(x + y) == Some(xs + ys)
  {
    assert x + y == y;
    assert xs + ys == ys;
  }

  /** The first token of `x`, and what is left of `x` and of its tokens after it. */
  lemma Head(x: string, y: string, xs: seq<Token>) returns (m: nat, k: nat)
    requires x != [] && Tokenize(x) == Some(xs)
    requires y == [] || !IsAtomChar(x[|x| - 1]) || !IsAtomChar(y[0])
    ensures 0 < m <= |x| && k <= |xs| && Tokenize(x[m..]) == Some(xs[k..])
    ensures x[m..] == [] || x[m..][|x[m..]| - 1] == x[|x| - 1]
    ensures Tokenize(x + y) == PrependAll(xs[..k], Tokenize(x[m..] + y))
  {
    if IsBlank(x[0]) {
      m, k := 1, 0;
      BlankHead(x, y, xs);
    } else if x[0] == '(' || x[0] == ')' {
      m, k := 1, 1;
      ParenHead(x, y, xs);
    } else {
      m, k := RunLength(x), 1;
      WordHead(x, y, xs);
    }
  }

  lemma BlankHead(x: string, y: string, xs: seq<Token>)
    requires x != [] && IsBlank(x[0]) && Tokenize(x) == Some(xs)
    ensures Tokenize(x[1..]) == Some(xs)
    ensures Tokenize(x + y) == PrependAll(xs[..0], Tokenize(x[1..] + y))
  {
    assert (x + y)[0] == x[0];
    assert (x + y)[1..] == x[1..] + y;
    assert xs[..0] == [];
    match Tokenize(x[1..] + y)
    case None =>
    case Some(rest) => assert [] + rest == rest;
  }

  lemma ParenHead(x: string, y: string, xs: seq<Token>)
    requires x != [] && (x[0] == '(' || x[0] == ')') && Tokenize(x) == Some(xs)
    ensures |xs| >= 1 && Tokenize(x[1..]) == Some(xs[1..])
    ensures Tokenize(x + y) == PrependAll(xs[..1], Tokenize(x[1..] + y))
  {
    assert (x + y)[0] == x[0];
    assert (x + y)[1..] == x[1..] + y;
    assert xs == [xs[0]] + xs[1..];
    assert xs[..1] == [xs[0]];
  }

  lemma WordHead(x: string, y: string, xs: seq<Token>)
    requires x != [] && !IsBlank(x[0]) && x[0] != '(' && x[0] != ')' && Tokenize(x) == Some(xs)
    requires y == [] || !IsAtomChar(x[|x| - 1]) || !IsAtomChar(y[0])
    ensures 0 < RunLength(x) && |xs| >= 1 && Tokenize(x[RunLength(x)..]) == Some(xs[1..])
    ensures Tokenize(x + y) == PrependAll(xs[..1], Tokenize(x[RunLength(x)..] + y))
  {
    var m := RunLength(x);
    WordAtJoint(x, y);
    assert (x + y)[0] == x[0];
    var t := WordToken(x[..m]).value;
    assert xs == [t] + xs[1..];
    assert xs[..1] == [t];
  }

  lemma TokenizeWord(w: string, rest: string, t: Token)
    requires w != [] && forall i :: 0 <= i < |w| ==> IsAtomChar(w[i])
    requires rest == [] || !IsAtomChar(rest[0])
    requires WordToken(w) == Some(t)
    ensures Tokenize(w + rest) == Prepend(t, Tokenize(rest))
  {
    RunLengthOfWord(w, rest);
    assert (w + rest)[0] == w[0];
    assert (w + rest)[..|w|] == w;
    assert (w + rest)[|w|..] == rest;
  }

  lemma TokenizeBlank(rest: string)
    ensures Tokenize(" " + rest) == Tokenize(rest)
  {
    assert (" " + rest)[1..] == rest;
  }

  lemma TokenizeOpen(rest: string)
    ensures Tokenize("(" + rest) == Prepend(LParen, Tokenize(rest))
  {
    assert ("(" + rest)[1..] == rest;
  }

  lemma TokenizeClose(rest: string)
    ensures Tokenize(")" + rest) == Prepend(RParen, Tokenize(rest))
  {
    assert (")" + rest)[1..] == rest;
  }

  /** A plain name on its own is one `Name` token. */
  lemma TokenizeName(w: string)
    requires IsPlainName(w)
    ensures Tokenize(w) == Some([Name(w)])
  {
    TokenizeWord(w, [], Name(w));
    assert w + [] == w;
    assert [Name(w)] + [] == [Name(w)];
  }

  /** A character that no token can hold makes the whole expression a syntax error. */
  lemma {:induction false} TokenizeRejects(s: string, i: nat)
    requires i < |s|
    requires !IsAtomChar(s[i]) && !IsBlank(s[i]) && s[i] != '(' && s[i] != ')'
    ensures Tokenize(s) == None
    decreases |s|
  {
    if IsBlank(s[0]) || s[0] == '(' || s[0] == ')' {
      TokenizeRejects(s[1..], i - 1);
    } else if IsAtomChar(s[0]) {
      var n := RunLength(s);
      if WordToken(s[..n]).Some? {
        TokenizeRejects(s[n..], i - n);
      }
    }
  }

  /** In expression mode, a character outside keywords, blanks, parentheses, `&` and `|`
      (for instance the `!` of `!A`) makes the rule fail closed. */
  lemma ForeignCharFailsClosed(raw: string, expression: string, i: nat)
    requires i < |expression|
    requires var c := expression[i];
      !IsAtomChar(c) && !IsBlank(c) && c != '(' && c != ')' && c != '&' && c != '|'
    ensures !CheckExpression(raw, expression)
  {
    var c := expression[i];
    var once := ReplaceAll(expression, "&&", " and ");
    ReplaceKeeps(expression, "&&", " and ", i);
    var j :| 0 <= j < |once| && once[j] == c;
    var twice := ToPythonSyntax(expression);
    ReplaceKeeps(once, "||", " or ", j);
    var k :| 0 <= k < |twice| && twice[k] == c;
    TokenizeRejects(twice, k);
  }

  /** `!A && B` is not a match, whatever the text says. */
  lemma BangFailsClosed(screenText: string, a: string, b: string)
    ensures !Check(screenText, Str("!" + a + " && " + b))
  {
    var s := "!" + a + " && " + b;
    assert s[|a| + 2..|a| + 4] == "&&";
    ContainsAt(s, "&&", |a| + 2);
    ForeignCharFailsClosed(Normalize(screenText), s, 0);
  }

  // ---------------------------------------------------------------------------
  // Parsing: precedence and malformed token sequences

  /** `a and b or c` groups as `(a and b) or c`. */
  lemma AndBindsTighterThanOr(a: string, b: string, c: string)
    ensures ParseTokens([Name(a), AndOp, Name(b), OrOp, Name(c)]) == Some(Or(And(Var(a), Var(b)), Var(c)))
  {
    var ts := [Name(a), AndOp, Name(b), OrOp, Name(c)];
    var t1 := [AndOp, Name(b), OrOp, Name(c)];
    var t2 := [Name(b), OrOp, Name(c)];
    var t3 := [OrOp, Name(c)];
    var t4 := [Name(c)];
    var t5: seq<Token> := [];
    assert ts[1..] == t1 && t1[1..] == t2 && t2[1..] == t3 && t3[1..] == t4 && t4[1..] == t5;
    var ab := And(Var(a), Var(b));
    assert ParseNot(ts) == Some(Parsed(Var(a), t1));
    assert ParseNot(t2) == Some(Parsed(Var(b), t3));
    assert ParseAndTail(ab, t3) == Some(Parsed(ab, t3));
    assert ParseAndTail(Var(a), t1) == Some(Parsed(ab, t3));
    assert ParseAnd(ts) == Some(Parsed(ab, t3));
    assert ParseNot(t4) == Some(Parsed(Var(c), t5));
    assert ParseAndTail(Var(c), t5) == Some(Parsed(Var(c), t5));
    assert ParseAnd(t4) == Some(Parsed(Var(c), t5));
    assert ParseOrTail(Or(ab, Var(c)), t5) == Some(Parsed(Or(ab, Var(c)), t5));
    assert ParseOrTail(ab, t3) == Some(Parsed(Or(ab, Var(c)), t5));
    assert ParseOr(ts) == Some(Parsed(Or(ab, Var(c)), t5));
  }

  /** `a or b and c` groups as `a or (b and c)`. */
  lemma OrBindsLooserThanAnd(a: string, b: string, c: string)
    ensures ParseTokens([Name(a), OrOp, Name(b), AndOp, Name(c)]) == Some(Or(Var(a), And(Var(b), Var(c))))
  {
    var ts := [Name(a), OrOp, Name(b), AndOp, Name(c)];
    var t1 := [OrOp, Name(b), AndOp, Name(c)];
    var t2 := [Name(b), AndOp, Name(c)];
    var t3 := [AndOp, Name(c)];
    var t4 := [Name(c)];
    var t5: seq<Token> := [];
    assert ts[1..] == t1 && t1[1..] == t2 && t2[1..] == t3 && t3[1..] == t4 && t4[1..] == t5;
    var bc := And(Var(b), Var(c));
    assert ParseNot(ts) == Some(Parsed(Var(a), t1));
    assert ParseAndTail(Var(a), t1) == Some(Parsed(Var(a), t1));
    assert ParseAnd(ts) == Some(Parsed(Var(a), t1));
    assert ParseNot(t2) == Some(Parsed(Var(b), t3));
    assert ParseNot(t4) == Some(Parsed(Var(c), t5));
    assert ParseAndTail(bc, t5) == Some(Parsed(bc, t5));
    assert ParseAndTail(Var(b), t3) == Some(Parsed(bc, t5));
    assert ParseAnd(t2) == Some(Parsed(bc, t5));
    assert ParseOrTail(Or(Var(a), bc), t5) == Some(Parsed(Or(Var(a), bc), t5));
    assert ParseOrTail(Var(a), t1) == Some(Parsed(Or(Var(a), bc), t5));
    assert ParseOr(ts) == Some(Parsed(Or(Var(a), bc), t5));
  }

  /** `not a and b` groups as `(not a) and b`. */
  lemma NotBindsTighterThanAnd(a: string, b: string)
    ensures ParseTokens([NotOp, Name(a), AndOp, Name(b)]) == Some(And(Not(Var(a)), Var(b)))
  {
    var ts := [NotOp, Name(a), AndOp, Name(b)];
    var t1 := [Name(a), AndOp, Name(b)];
    var t2 := [AndOp, Name(b)];
    var t3 := [Name(b)];
    var t4: seq<Token> := [];
    assert ts[1..] == t1 && t1[1..] == t2 && t2[1..] == t3 && t3[1..] == t4;
    var e := And(Not(Var(a)), Var(b));
    assert ParseNot(t1) == Some(Parsed(Var(a), t2));
    assert ParseNot(ts) == Some(Parsed(Not(Var(a)), t2));
    assert ParseNot(t3) == Some(Parsed(Var(b), t4));
    assert ParseAndTail(e, t4) == Some(Parsed(e, t4));
    assert ParseAndTail(Not(Var(a)), t2) == Some(Parsed(e, t4));
    assert ParseAnd(ts) == Some(Parsed(e, t4));
    assert ParseOrTail(e, t4) == Some(Parsed(e, t4));
    assert ParseOr(ts) == Some(Parsed(e, t4));
  }

  /** An opening parenthesis that is never closed is a syntax error. */
  lemma UnclosedParenthesis(a: string, b: string)
    ensures ParseTokens([LParen, Name(a), AndOp, Name(b)]) == None
  {
    var ts := [LParen, Name(a), AndOp, Name(b)];
    var t1 := [Name(a), AndOp, Name(b)];
    var t2 := [AndOp, Name(b)];
    var t3 := [Name(b)];
    var t4: seq<Token> := [];
    assert ts[1..] == t1 && t1[1..] == t2 && t2[1..] == t3 && t3[1..] == t4;
    var e := And(Var(a), Var(b));
    assert ParseNot(t1) == Some(Parsed(Var(a), t2));
    assert ParseNot(t3) == Some(Parsed(Var(b), t4));
    assert ParseAndTail(e, t4) == Some(Parsed(e, t4));
    assert ParseAndTail(Var(a), t2) == Some(Parsed(e, t4));
    assert ParseAnd(t1) == Some(Parsed(e, t4));
    assert ParseOrTail(e, t4) == Some(Parsed(e, t4));
    assert ParseOr(t1) == Some(Parsed(e, t4));
    assert ParseNot(ts) == None;
    assert ParseAnd(ts) == None;
  }

  /** Two names side by side are a syntax error. */
  lemma JuxtaposedNames(a: string, b: string)
    ensures ParseTokens([Name(a), Name(b)]) == None
  {
    var ts := [Name(a), Name(b)];
    var t1 := [Name(b)];
    assert ts[1..] == t1;
    assert ParseNot(ts) == Some(Parsed(Var(a), t1));
    assert ParseAndTail(Var(a), t1) == Some(Parsed(Var(a), t1));
    assert ParseAnd(ts) == Some(Parsed(Var(a), t1));
    assert ParseOrTail(Var(a), t1) == Some(Parsed(Var(a), t1));
    assert ParseOr(ts) == Some(Parsed(Var(a), t1));
  }

  // ---------------------------------------------------------------------------
  // The worked example of the source's docstring: `A && (B || C)`

  lemma PlainNameChars(w: string)
    requires IsPlainName(w)
    ensures '&' !in w && '|' !in w
    ensures IsAtomChar(w[0]) && IsAtomChar(w[|w| - 1])
  {
  }

  lemma RewriteAmpersands()
    ensures ReplaceAll(" && (", "&&", " and ") == "  and  ("
    ensures ReplaceAll(" || ", "&&", " and ") == " || "
    ensures ReplaceAll(")", "&&", " and ") == ")"
  {
    assert " && (" == " " + ("&&" + " (");
    ReplaceMisses(" ", "&&", " and ");
    ReplaceMisses(" (", "&&", " and ");
    ReplaceHit(" (", "&&", " and ");
    ReplaceAppend(" ", "&&" + " (", "&&", " and ");
    assert " " + (" and " + " (") == "  and  (";
    ReplaceMisses(" || ", "&&", " and ");
    ReplaceMisses(")", "&&", " and ");
  }

  lemma RewriteBars()
    ensures ReplaceAll("  and  (", "||", " or ") == "  and  ("
    ensures ReplaceAll(" || ", "||", " or ") == "  or  "
    ensures ReplaceAll(")", "||", " or ") == ")"
  {
    ReplaceMisses("  and  (", "||", " or ");
    RewriteBar();
    ReplaceMisses(")", "||", " or ");
  }

  lemma RewriteBar()
    ensures ReplaceAll(" || ", "||", " or ") == "  or  "
  {
    assert " || " == " " + ("||" + " ");
    ReplaceMisses(" ", "||", " or ");
    ReplaceHit(" ", "||", " or ");
    ReplaceAppend(" ", "||" + " ", "||", " or ");
    assert " " + (" or " + " ") == "  or  ";
  }

  /** The rewrite turns `A && (B || C)` into `A  and  (B  or  C)`. */
  lemma RewriteAndOfOr(a: string, b: string, c: string)
    requires IsPlainName(a) && IsPlainName(b) && IsPlainName(c)
    ensures ToPythonSyntax(a + " && (" + b + " || " + c + ")") == a + "  and  (" + b + "  or  " + c + ")"
  {
    PlainNameChars(a); PlainNameChars(b); PlainNameChars(c);
    RewriteAmpersands();
    RewriteBars();
    ReplaceMisses(a, "&&", " and "); ReplaceMisses(b, "&&", " and "); ReplaceMisses(c, "&&", " and ");
    ReplaceMisses(a, "||", " or "); ReplaceMisses(b, "||", " or "); ReplaceMisses(c, "||", " or ");
    var x1 := a + " && (";
    var x2 := x1 + b;
    var x3 := x2 + " || ";
    var x4 := x3 + c;
    ReplaceAppend(a, " && (", "&&", " and ");
    ReplaceAppend(x1, b, "&&", " and ");
    ReplaceAppend(x2, " || ", "&&", " and ");
    ReplaceAppend(x3, c, "&&", " and ");
    ReplaceAppend(x4, ")", "&&", " and ");
    var y1 := a + "  and  (";
    var y2 := y1 + b;
    var y3 := y2 + " || ";
    var y4 := y3 + c;
    ReplaceAppend(a, "  and  (", "||", " or ");
    ReplaceAppend(y1, b, "||", " or ");
    ReplaceAppend(y2, " || ", "||", " or ");
    ReplaceAppend(y3, c, "||", " or ");
    ReplaceAppend(y4, ")", "||", " or ");
  }

  /** The pieces of the rewritten `A && (B || C)` between its keywords. */
  const AndOpen: string := "  and  ("
  const OrSpaced: string := "  or  "
  const Close: string := ")"

  lemma TokenizeParens()
    ensures Tokenize("(") == Some([LParen])
    ensures Tokenize(")") == Some([RParen])
  {
    var empty: string := [];
    assert "(" + empty == "(" && ")" + empty == ")";
    assert [LParen] + [] == [LParen] && [RParen] + [] == [RParen];
    TokenizeOpen(empty);
    TokenizeClose(empty);
  }

  lemma TokenizeBlanksOpen()
    ensures Tokenize("  (") == Some([LParen])
  {
    TokenizeParens();
    TokenizeBlank("(");
    assert " " + "(" == " (";
    TokenizeBlank(" (");
    assert " " + " (" == "  (";
  }

  const AndWord: string := "and  ("

  lemma TokenizeAndWord()
    ensures Tokenize(AndWord) == Some([AndOp] + [LParen])
  {
    TokenizeBlanksOpen();
    TokenizeWord("and", "  (", AndOp);
    assert "and" + "  (" == "and  (";
  }

  lemma TwoTokens(t0: Token, t1: Token)
    ensures [t0] + [t1] == [t0, t1]
  {
  }

  lemma TokenizeAndBlanks()
    ensures Tokenize(AndOpen) == Some([AndOp, LParen])
  {
    TokenizeAndWord();
    TokenizeTwoBlanks(AndWord);
    AndOpenSplit();
    TwoTokens(AndOp, LParen);
  }

  lemma AndOpenSplit()
    ensures "  " + AndWord == AndOpen
  {
  }

  lemma TokenizeTwoBlanks(rest: string)
    ensures Tokenize("  " + rest) == Tokenize(rest)
  {
    TokenizeBlank(rest);
    TokenizeBlank(" " + rest);
    assert " " + (" " + rest) == "  " + rest;
  }

  lemma TokenizeOrBlanks()
    ensures Tokenize(OrSpaced) == Some([OrOp])
  {
    TokenizeOrWord();
    TokenizeTwoBlanks(OrWord);
    OrSpacedSplit();
  }

  const OrWord: string := "or  "

  lemma TokenizeOrWord()
    ensures Tokenize(OrWord) == Some([OrOp])
  {
    var empty: string := [];
    TokenizeTwoBlanks(empty);
    assert "  " + empty == "  ";
    TokenizeWord("or", "  ", OrOp);
    assert "or" + "  " == OrWord;
    assert [OrOp] + [] == [OrOp];
  }

  lemma OrSpacedSplit()
    ensures "  " + OrWord == OrSpaced
  {
  }

  lemma TokenizeAndOfOr1(a: string)
    requires Tokenize(a) == Some([Name(a)])
    ensures Tokenize(a + AndOpen) == Some([Name(a)] + [AndOp, LParen])
  {
    TokenizeAndBlanks();
    TokenizeAppend(a, AndOpen, [Name(a)], [AndOp, LParen]);
  }

  lemma TokenizeAndOfOr2(a: string, b: string)
    requires Tokenize(a) == Some([Name(a)]) && Tokenize(b) == Some([Name(b)])
    ensures Tokenize(a + AndOpen + b) == Some([Name(a)] + [AndOp, LParen] + [Name(b)])
  {
    var x := a + AndOpen;
    TokenizeAndOfOr1(a);
    assert x[|x| - 1] == '(';
    TokenizeAppend(x, b, [Name(a)] + [AndOp, LParen], [Name(b)]);
  }

  lemma TokenizeAndOfOr3(a: string, b: string)
    requires Tokenize(a) == Some([Name(a)]) && Tokenize(b) == Some([Name(b)])
    ensures Tokenize(a + AndOpen + b + OrSpaced) == Some([Name(a)] + [AndOp, LParen] + [Name(b)] + [OrOp])
  {
    var x := a + AndOpen + b;
    TokenizeAndOfOr2(a, b);
    TokenizeOrBlanks();
    TokenizeAppend(x, OrSpaced, [Name(a)] + [AndOp, LParen] + [Name(b)], [OrOp]);
  }

  lemma TokenizeAndOfOr4(a: string, b: string, c: string)
    requires Tokenize(a) == Some([Name(a)]) && Tokenize(b) == Some([Name(b)])
    requires Tokenize(c) == Some([Name(c)])
    ensures Tokenize(a + AndOpen + b + OrSpaced + c)
         == Some([Name(a)] + [AndOp, LParen] + [Name(b)] + [OrOp] + [Name(c)])
  {
    var x := a + AndOpen + b + OrSpaced;
    TokenizeAndOfOr3(a, b);
    assert x[|x| - 1] == ' ';
    TokenizeAppend(x, c, [Name(a)] + [AndOp, LParen] + [Name(b)] + [OrOp], [Name(c)]);
  }

  lemma AndOfOrTokens(a: string, b: string, c: string)
    ensures [Name(a)] + [AndOp, LParen] + [Name(b)] + [OrOp] + [Name(c)] + [RParen]
         == [Name(a), AndOp, LParen, Name(b), OrOp, Name(c), RParen]
  {
  }

  /** `A  and  (B  or  C)` reads as the seven tokens `A and ( B or C )`, here written piece by piece. */
  lemma TokenizeAndOfOr(a: string, b: string, c: string)
    requires Tokenize(a) == Some([Name(a)]) && Tokenize(b) == Some([Name(b)])
    requires Tokenize(c) == Some([Name(c)])
    ensures Tokenize(a + AndOpen + b + OrSpaced + c + Close)
         == Some([Name(a)] + [AndOp, LParen] + [Name(b)] + [OrOp] + [Name(c)] + [RParen])
  {
    var x := a + AndOpen + b + OrSpaced + c;
    TokenizeAndOfOr4(a, b, c);
    TokenizeCloseConst();
    TokenizeAppend(x, Close, [Name(a)] + [AndOp, LParen] + [Name(b)] + [OrOp] + [Name(c)], [RParen]);
  }

  lemma TokenizeCloseConst()
    ensures Tokenize(Close) == Some([RParen])
  {
    TokenizeParens();
  }

  /** `b or c )` parses as `b or c`, leaving the closing parenthesis. */
  lemma ParseInnerOr(b: string, c: string)
    ensures ParseOr([Name(b), OrOp, Name(c), RParen]) == Some(Parsed(Or(Var(b), Var(c)), [RParen]))
  {
    var t3 := [Name(b), OrOp, Name(c), RParen];
    var t4 := [OrOp, Name(c), RParen];
    var t5 := [Name(c), RParen];
    var t6 := [RParen];
    assert t3[1..] == t4 && t4[1..] == t5 && t5[1..] == t6;
    var bc := Or(Var(b), Var(c));
    assert ParseNot(t3) == Some(Parsed(Var(b), t4));
    assert ParseAndTail(Var(b), t4) == Some(Parsed(Var(b), t4));
    assert ParseAnd(t3) == Some(Parsed(Var(b), t4));
    assert ParseNot(t5) == Some(Parsed(Var(c), t6));
    assert ParseAndTail(Var(c), t6) == Some(Parsed(Var(c), t6));
    assert ParseAnd(t5) == Some(Parsed(Var(c), t6));
    assert ParseOrTail(bc, t6) == Some(Parsed(bc, t6));
    assert ParseOrTail(Var(b), t4) == Some(Parsed(bc, t6));
  }

  lemma ParseAndOfOr(a: string, b: string, c: string)
    ensures ParseTokens([Name(a), AndOp, LParen, Name(b), OrOp, Name(c), RParen])
         == Some(And(Var(a), Or(Var(b), Var(c))))
  {
    var ts := [Name(a), AndOp, LParen, Name(b), OrOp, Name(c), RParen];
    var t1 := [AndOp, LParen, Name(b), OrOp, Name(c), RParen];
    var t2 := [LParen, Name(b), OrOp, Name(c), RParen];
    var t3 := [Name(b), OrOp, Name(c), RParen];
    var t7: seq<Token> := [];
    assert ts[1..] == t1 && t1[1..] == t2 && t2[1..] == t3 && [RParen][1..] == t7;
    var bc := Or(Var(b), Var(c));
    var e := And(Var(a), bc);
    ParseInnerOr(b, c);
    assert ParseNot(t2) == Some(Parsed(bc, t7));
    assert ParseNot(ts) == Some(Parsed(Var(a), t1));
    assert ParseAndTail(e, t7) == Some(Parsed(e, t7));
    assert ParseAndTail(Var(a), t1) == Some(Parsed(e, t7));
    assert ParseAnd(ts) == Some(Parsed(e, t7));
    assert ParseOrTail(e, t7) == Some(Parsed(e, t7));
    assert ParseOr(ts) == Some(Parsed(e, t7));
  }

  /** The expression `A && (B || C)` parses as `A and (B or C)`. */
  lemma ParseExpressionAndOfOr(a: string, b: string, c: string)
    requires IsPlainName(a) && IsPlainName(b) && IsPlainName(c)
    ensures ParseExpression(ToPythonSyntax(a + " && (" + b + " || " + c + ")"))
         == Some(And(Var(a), Or(Var(b), Var(c))))
  {
    RewriteAndOfOr(a, b, c);
    assert a + "  and  (" + b + "  or  " + c + ")" == a + AndOpen + b + OrSpaced + c + Close;
    TokenizeName(a);
    TokenizeName(b);
    TokenizeName(c);
    TokenizeAndOfOr(a, b, c);
    AndOfOrTokens(a, b, c);
    ParseAndOfOr(a, b, c);
  }

  lemma AndOfOrIsExpression(a: string, b: string, c: string)
    ensures IsExpressionMode(a + " && (" + b + " || " + c + ")")
  {
    var s := a + " && (" + b + " || " + c + ")";
    assert s[|a| + 1..|a| + 3] == "&&";
    ContainsAt(s, "&&", |a| + 1);
  }

  lemma CheckExpressionAndOfOr(raw: string, a: string, b: string, c: string)
    requires IsPlainName(a) && IsPlainName(b) && IsPlainName(c)
    ensures CheckExpression(raw, a + " && (" + b + " || " + c + ")")
         == (Present(raw, a) && (Present(raw, b) || Present(raw, c)))
  {
    ParseExpressionAndOfOr(a, b, c);
    ExpressionMeaning(raw, a + " && (" + b + " || " + c + ")");
    DenoteAndOfOr(raw, a, b, c);
  }

  lemma DenoteAndOfOr(raw: string, a: string, b: string, c: string)
    ensures Denote(And(Var(a), Or(Var(b), Var(c))), raw)
         == (Present(raw, a) && (Present(raw, b) || Present(raw, c)))
  {
    assert Denote(Or(Var(b), Var(c)), raw) == (Present(raw, b) || Present(raw, c));
  }

  /** `check(text, "A && (B || C)")` is present(A) and (present(B) or present(C)). */
  lemma AndOfOrMeaning(screenText: string, a: string, b: string, c: string)
    requires IsPlainName(a) && IsPlainName(b) && IsPlainName(c)
    ensures var raw := Normalize(screenText);
      Check(screenText, Str(a + " && (" + b + " || " + c + ")"))
      == (Present(raw, a) && (Present(raw, b) || Present(raw, c)))
  {
    AndOfOrIsExpression(a, b, c);
    CheckExpressionAndOfOr(Normalize(screenText), a, b, c);
  }
}
