/**
 * AffixMatcher: decides whether the OCR text of one capture satisfies a rule.
 *
 * A rule is a plain keyword (exact containment after normalization), a boolean
 * expression over keywords, a list (all must hold) or a dict with optional `OR`
 * and `AND` lists. The source evaluates expressions with Python's `eval`; here
 * they are tokenized the way `eval` reads them and parsed by a recursive-descent
 * parser over `or` / `and` / `not` / parentheses / names / constants, and every
 * syntax error gives `false`, as the source's `except` branch does.
 */
module Matcher {
  import opened Wrappers
  import opened Text

  /** The shapes a rule value can take in the source (`str`, `list`, `dict`, `None`, anything else). */
  datatype Condition =
    | Str(text: string)
    | List(items: seq<Condition>)
      /** A dict: what it holds under `OR` and under `AND`, and how many other keys it has. */
    | Dict(orKey: DictEntry, andKey: DictEntry, otherKeys: nat)
    | Null
      /** A number or a bool: never a match; `truthy` is its Python truth value. */
    | Scalar(truthy: bool)

  /** One of the keys `OR` / `AND` of a dict rule: missing, or present with a list of rules. */
  datatype DictEntry = Absent | Entries(items: seq<Condition>)

  /** Python truthiness of a rule value (`not self.conditions` in the setup wizard). */
  predicate IsTruthy(c: Condition) {
    match c
    case Str(s) => s != []
    case List(items) => items != []
    case Dict(o, a, n) => o.Entries? || a.Entries? || n > 0
    case Null => false
    case Scalar(t) => t
  }

  /** A string rule is read as an expression when it holds `&&`, `||`, or both parentheses. */
  predicate IsExpressionMode(s: string) {
    Contains(s, "&&") || Contains(s, "||") || ('(' in s && ')' in s)
  }

  /** `AffixMatcher.check`. */
  function Check(screenText: string, c: Condition): (r: bool)
    decreases c
    ensures c.Null? || c.Scalar? ==> !r
    ensures c.Dict? && c.orKey.Absent? && c.andKey.Absent? ==> r
  {
    var raw := Normalize(screenText);
    match c
    case Str(s) =>
      if IsExpressionMode(s) then CheckExpression(raw, s)
      else Contains(raw, Normalize(s))
    case List(items) => AllHold(screenText, items)
    case Dict(orKey, andKey, _) =>
      && (match orKey case Absent => true case Entries(os) => AnyHolds(screenText, os))
      && (match andKey case Absent => true case Entries(xs) => AllHold(screenText, xs))
    case Null => false
    case Scalar(_) => false
  }

  /** Python's `all(self.check(screen_text, c) for c in cs)`, short-circuiting from the left. */
  function AllHold(screenText: string, cs: seq<Condition>): bool
    decreases cs
  {
    if cs == [] then true else Check(screenText, cs[0]) && AllHold(screenText, cs[1..])
  }

  /** Python's `any(self.check(screen_text, c) for c in cs)`. */
  function AnyHolds(screenText: string, cs: seq<Condition>): bool
    decreases cs
  {
    if cs == [] then false else Check(screenText, cs[0]) || AnyHolds(screenText, cs[1..])
  }

  /** Whether the normalized form of `word` occurs in the normalized screen text. */
  predicate Present(raw: string, word: string) {
    Contains(raw, Normalize(word))
  }

  // ---------------------------------------------------------------------------
  // Expression mode

  /** The characters of the keyword pattern `[一-龥a-zA-Z0-9]`. */
  predicate IsAtomChar(c: char) {
    IsAsciiLetter(c) || IsDigit(c) || '\U{4E00}' <= c <= '\U{9FA5}'
  }

  /** The whitespace `eval` skips between tokens of a one-line expression. */
  predicate IsBlank(c: char) {
    c == ' ' || c == '\t' || c == '\U{0C}'
  }

  /** Python's `str.replace(pattern, replacement)`: left to right, non-overlapping. */
  function ReplaceAll(s: string, pattern: string, replacement: string): (r: string)
    requires pattern != []
    ensures (forall i :: 0 <= i < |s| ==> s[i] != pattern[0]) ==> r == s
    decreases |s|
  {
    if |s| < |pattern| then s
    else if s[..|pattern|] == pattern then replacement + ReplaceAll(s[|pattern|..], pattern, replacement)
    else [s[0]] + ReplaceAll(s[1..], pattern, replacement)
  }

  /**
   * `expression.replace('&&', ' and ').replace('||', ' or ')`; a rule with no
   * `&` and no `|` is handed to the evaluator as written.
   */
  function ToPythonSyntax(expression: string): (r: string)
    ensures (forall i :: 0 <= i < |expression| ==> expression[i] != '&' && expression[i] != '|') ==> r == expression
  {
    ReplaceAll(ReplaceAll(expression, "&&", " and "), "||", " or ")
  }

  /** The length of the run of keyword characters that starts `s`. */
  function RunLength(s: string): (n: nat)
    ensures n <= |s|
    ensures forall i :: 0 <= i < n ==> IsAtomChar(s[i])
    ensures n < |s| ==> !IsAtomChar(s[n])
  {
    if s != [] && IsAtomChar(s[0]) then 1 + RunLength(s[1..]) else 0
  }

  /** `set(re.findall(r'[一-龥a-zA-Z0-9]+', s))`: every maximal run of keyword characters. */
  function AtomRuns(s: string): (runs: set<string>)
    ensures (forall i :: 0 <= i < |s| ==> !IsAtomChar(s[i])) ==> runs == {}
    decreases |s|
  {
    if s == [] then {}
    else if IsAtomChar(s[0]) then
      var n := RunLength(s);
      {s[..n]} + AtomRuns(s[n..])
    else AtomRuns(s[1..])
  }

  /** Every extracted keyword is a non-empty run of keyword characters. */
  lemma {:induction false} AtomRunsAreWords(s: string)
    ensures forall w :: w in AtomRuns(s) ==> w != [] && forall i :: 0 <= i < |w| ==> IsAtomChar(w[i])
    decreases |s|
  {
    if s != [] {
      if IsAtomChar(s[0]) {
        AtomRunsAreWords(s[RunLength(s)..]);
      } else {
        AtomRunsAreWords(s[1..]);
      }
    }
  }

  /** The words the source refuses to bind as keywords. */
  const Reserved: set<string> := {"and", "or", "not", "True", "False"}

  /** Python's keywords: `eval` never reads one of them as a name. */
  const PythonKeywords: set<string> := {
    "False", "None", "True", "and", "as", "assert", "async", "await", "break",
    "class", "continue", "def", "del", "elif", "else", "except", "finally", "for",
    "from", "global", "if", "import", "in", "is", "lambda", "nonlocal", "not", "or",
    "pass", "raise", "return", "try", "while", "with", "yield"}

  /** The tokens of the expression grammar; `Literal` carries the truth value of a constant. */
  datatype Token = LParen | RParen | AndOp | OrOp | NotOp | Literal(truthy: bool) | Name(id: string)

  predicate AllZeros(w: string) {
    forall i :: 0 <= i < |w| ==> w[i] == '0'
  }

  /** How `eval` reads one maximal run of keyword characters; `None` is a syntax error. */
  function WordToken(w: string): (t: Option<Token>)
    requires w != []
    ensures t.Some? && t.value.Name? ==> t.value.id == w && w !in Reserved
  {
    if w == "and" then Some(AndOp)
    else if w == "or" then Some(OrOp)
    else if w == "not" then Some(NotOp)
    else if w == "True" then Some(Literal(true))
    else if w == "False" || w == "None" then Some(Literal(false))
    else if w in PythonKeywords then None
    else if IsDigit(w[0]) then
      // a decimal literal: "0", "00" are zero, "007" and "3abc" are syntax errors
      if !IsDigits(w) then None
      else if AllZeros(w) then Some(Literal(false))
      else if w[0] == '0' then None
      else Some(Literal(true))
    else Some(Name(w))
  }

  /** A keyword that `eval` reads as a plain name. */
  predicate IsPlainName(w: string) {
    w != [] && (forall i :: 0 <= i < |w| ==> IsAtomChar(w[i])) && WordToken(w) == Some(Name(w))
  }

  function Prepend(t: Token, rest: Option<seq<Token>>): Option<seq<Token>> {
    match rest
    case None => None
    case Some(ts) => Some([t] + ts)
  }

  /** The token sequence `eval` reads from the rewritten expression; `None` is a syntax error. */
  function Tokenize(s: string): Option<seq<Token>>
    decreases |s|
  {
    if s == [] then Some([])
    else if IsBlank(s[0]) then Tokenize(s[1..])
    else if s[0] == '(' then Prepend(LParen, Tokenize(s[1..]))
    else if s[0] == ')' then Prepend(RParen, Tokenize(s[1..]))
    else if IsAtomChar(s[0]) then
      var n := RunLength(s);
      match WordToken(s[..n])
      case None => None
      case Some(t) => Prepend(t, Tokenize(s[n..]))
    else None
  }

  /** The parsed form of an expression. */
  datatype Expr =
    | Var(name: string)
    | Const(value: bool)
    | Not(operand: Expr)
    | And(left: Expr, right: Expr)
    | Or(left: Expr, right: Expr)

  datatype Parsed = Parsed(expr: Expr, rest: seq<Token>)

  function VarsOf(e: Expr): set<string> {
    match e
    case Var(w) => {w}
    case Const(_) => {}
    case Not(x) => VarsOf(x)
    case And(l, r) => VarsOf(l) + VarsOf(r)
    case Or(l, r) => VarsOf(l) + VarsOf(r)
  }

  /** The names among the tokens. */
  function NameSet(ts: seq<Token>): set<string> {
    if ts == [] then {}
    else (if ts[0].Name? then {ts[0].id} else {}) + NameSet(ts[1..])
  }

  /** `or_test := and_test ('or' and_test)*` */
  function ParseOr(ts: seq<Token>): (r: Option<Parsed>)
    decreases |ts|, 2
    ensures r.Some? ==> |r.value.rest| < |ts|
  {
    match ParseAnd(ts)
    case None => None
    case Some(p) => ParseOrTail(p.expr, p.rest)
  }

  function ParseOrTail(left: Expr, ts: seq<Token>): (r: Option<Parsed>)
    decreases |ts|, 0
    ensures r.Some? ==> |r.value.rest| <= |ts|
  {
    if ts != [] && ts[0] == OrOp then
      match ParseAnd(ts[1..])
      case None => None
      case Some(p) => ParseOrTail(Or(left, p.expr), p.rest)
    else Some(Parsed(left, ts))
  }

  /** `and_test := not_test ('and' not_test)*` */
  function ParseAnd(ts: seq<Token>): (r: Option<Parsed>)
    decreases |ts|, 1
    ensures r.Some? ==> |r.value.rest| < |ts|
  {
    match ParseNot(ts)
    case None => None
    case Some(p) => ParseAndTail(p.expr, p.rest)
  }

  function ParseAndTail(left: Expr, ts: seq<Token>): (r: Option<Parsed>)
    decreases |ts|, 0
    ensures r.Some? ==> |r.value.rest| <= |ts|
  {
    if ts != [] && ts[0] == AndOp then
      match ParseNot(ts[1..])
      case None => None
      case Some(p) => ParseAndTail(And(left, p.expr), p.rest)
    else Some(Parsed(left, ts))
  }

  /** `not_test := 'not' not_test | '(' or_test ')' | name | constant` */
  function ParseNot(ts: seq<Token>): (r: Option<Parsed>)
    decreases |ts|, 0
    ensures r.Some? ==> |r.value.rest| < |ts|
  {
    if ts == [] then None
    else match ts[0]
      case NotOp =>
        (match ParseNot(ts[1..])
         case None => None
         case Some(p) => Some(Parsed(Not(p.expr), p.rest)))
      case LParen =>
        (match ParseOr(ts[1..])
         case None => None
         case Some(p) =>
           if p.rest != [] && p.rest[0] == RParen then Some(Parsed(p.expr, p.rest[1..])) else None)
      case Name(w) => Some(Parsed(Var(w), ts[1..]))
      case Literal(b) => Some(Parsed(Const(b), ts[1..]))
      case _ => None
  }

  /** A whole token sequence as one expression; trailing tokens are a syntax error. */
  function ParseTokens(ts: seq<Token>): Option<Expr> {
    match ParseOr(ts)
    case None => None
    case Some(p) => if p.rest == [] then Some(p.expr) else None
  }

  function ParseExpression(pythonExpr: string): Option<Expr> {
    match Tokenize(pythonExpr)
    case None => None
    case Some(ts) => ParseTokens(ts)
  }

  /** Evaluation with short-circuiting `and` / `or`; `None` is a NameError. */
  function Eval(e: Expr, context: map<string, bool>): Option<bool> {
    match e
    case Var(w) => if w in context then Some(context[w]) else None
    case Const(b) => Some(b)
    case Not(x) =>
      (match Eval(x, context)
       case None => None
       case Some(b) => Some(!b))
    case And(l, r) =>
      (match Eval(l, context)
       case None => None
       case Some(b) => if b then Eval(r, context) else Some(false))
    case Or(l, r) =>
      (match Eval(l, context)
       case None => None
       case Some(b) => if b then Some(true) else Eval(r, context))
  }

  /** The meaning of an expression: every name stands for its presence in the text. */
  function Denote(e: Expr, raw: string): bool {
    match e
    case Var(w) => Present(raw, w)
    case Const(b) => b
    case Not(x) => !Denote(x, raw)
    case And(l, r) => Denote(l, raw) && Denote(r, raw)
    case Or(l, r) => Denote(l, raw) || Denote(r, raw)
  }

  /** The source's `context`: each extracted keyword bound to the presence of its normalized form. */
  function Context(raw: string, pythonExpr: string): map<string, bool> {
    map w | w in AtomRuns(pythonExpr) - Reserved :: Present(raw, w)
  }

  /** `AffixMatcher._check_expression`, failing closed on every error. */
  function CheckExpression(raw: string, expression: string): (r: bool)
    ensures ParseExpression(ToPythonSyntax(expression)).None? ==> !r
  {
    var pythonExpr := ToPythonSyntax(expression);
    var context := Context(raw, pythonExpr);
    match ParseExpression(pythonExpr)
    case None => false
    case Some(e) => Eval(e, context).GetOr(false)
  }
}
