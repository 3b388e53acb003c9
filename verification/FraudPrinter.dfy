/** Printing a rule, and reading the print back. */
module FraudPrinter {
  import opened Wrappers
  import opened Digits
  import opened LetterCase
  import opened FraudTokens
  import opened FraudNumbers
  import opened FraudGrammar
  import opened FraudParser

  function ValueText(v: Value): string {
    match v
    case NumberValue(d) => NumberText(d)
    case StringValue(s) => "'" + s + "'"
    case BoolValue(b) => if b then "true" else "false"
  }

  function ToText(e: Expr): string {
    match e
    case Comparison(variable, operator, value) => variable + " " + operator + " " + ValueText(value)
    case AndExpr(l, r) => "(" + ToText(l) + " AND " + ToText(r) + ")"
    case OrExpr(l, r) => "(" + ToText(l) + " OR " + ToText(r) + ")"
    case NotExpr(inner) => "NOT " + ToText(inner)
  }

  // ---------- Trees the parser can build ----------

  predicate ValueOk(v: Value) {
    match v
    case NumberValue(d) => Normal(d)
    case StringValue(s) => forall i :: 0 <= i < |s| ==> NotQuote(s[i])
    case BoolValue(_) => true
  }

  predicate Buildable(e: Expr) {
    match e
    case Comparison(variable, operator, value) =>
      IsIdentifier(variable) && !IsReserved(variable) && operator in OPERATORS && ValueOk(value)
    case AndExpr(l, r) => Buildable(l) && Buildable(r)
    case OrExpr(l, r) => Buildable(l) && Buildable(r)
    case NotExpr(inner) => Buildable(inner)
  }

  /** A literal that is printed without an exponent. */
  predicate PlainValue(v: Value) {
    v.NumberValue? ==> Plain(v.number)
  }

  predicate AllPlain(e: Expr) {
    match e
    case Comparison(_, _, value) => PlainValue(value)
    case AndExpr(l, r) => AllPlain(l) && AllPlain(r)
    case OrExpr(l, r) => AllPlain(l) && AllPlain(r)
    case NotExpr(inner) => AllPlain(inner)
  }

  predicate AllWellspelt(ts: seq<Token>) {
    forall t :: t in ts ==> Wellspelt(t)
  }

  lemma {:induction false} OrBuildable(d: OrD)
    requires OrOk(d) && AllWellspelt(OrYield(d))
    ensures Buildable(OrTree(d))
    decreases d, 3
  {
    match d
    case OneAnd(a) => AndBuildable(a);
    case OrMore(front, tok, last) =>
      assert AllWellspelt(OrYield(front)) && AllWellspelt(AndYield(last));
      OrBuildable(front);
      AndBuildable(last);
  }

  lemma {:induction false} AndBuildable(d: AndD)
    requires AndOk(d) && AllWellspelt(AndYield(d))
    ensures Buildable(AndTree(d))
    decreases d, 2
  {
    match d
    case OneNot(n) => NotBuildable(n);
    case AndMore(front, tok, last) =>
      assert AllWellspelt(AndYield(front)) && AllWellspelt(NotYield(last));
      AndBuildable(front);
      NotBuildable(last);
  }

  lemma {:induction false} NotBuildable(d: NotD)
    requires NotOk(d) && AllWellspelt(NotYield(d))
    ensures Buildable(NotTree(d))
    decreases d, 1
  {
    match d
    case Negation(_, inner) =>
      assert AllWellspelt(NotYield(inner));
      NotBuildable(inner);
    case Primary(Parens(_, inside, _)) =>
      assert NotYield(d) == [d.p.open] + (OrYield(inside) + [d.p.close]);
      assert forall t :: t in OrYield(inside) ==> t in NotYield(d);
      OrBuildable(inside);
    case Primary(Compare(ident, op, value)) =>
      assert NotYield(d) == [ident, op, value];
      assert Wellspelt(ident) && Wellspelt(op) && Wellspelt(value);
  }

  /** Whatever a rule parses to is buildable. */
  lemma ParsedIsBuildable(source: string)
    requires ParseRule(source).Success?
    ensures Buildable(ParseRule(source).value)
  {
    LexIsWellspelt(source);
    var ts := Lex(source).value;
    var d := ParseOr(ts).value.d;
    assert OrYield(d) + [] == OrYield(d);
    OrBuildable(d);
  }

  // ---------- The tokens of a print ----------

  function ValueToken(v: Value): Token {
    match v
    case NumberValue(d) => Token(NUMBER, PlainText(d))
    case StringValue(s) => Token(STRING, s)
    case BoolValue(b) => Token(BOOL, if b then "true" else "false")
  }

  const OPEN := Token(LPAREN, "(")
  const CLOSE := Token(RPAREN, ")")

  /** The derivation a print without exponents spells out. */
  function Derivation(e: Expr): (d: NotD)
    ensures NotOk(d)
  {
    match e
    case Comparison(variable, operator, value) =>
      Primary(Compare(Token(IDENT, variable), Token(OP, operator), ValueToken(value)))
    case AndExpr(l, r) =>
      Single(Derivation(l));
      assert OrOk(OneAnd(AndMore(OneNot(Derivation(l)), Token(AND, "AND"), Derivation(r)))) by {
        assert AndOk(AndMore(OneNot(Derivation(l)), Token(AND, "AND"), Derivation(r)));
      }
      Primary(Parens(OPEN, OneAnd(AndMore(OneNot(Derivation(l)), Token(AND, "AND"), Derivation(r))), CLOSE))
    case OrExpr(l, r) =>
      Single(Derivation(l));
      Single(Derivation(r));
      assert OrOk(OrMore(OneAnd(OneNot(Derivation(l))), Token(OR, "OR"), OneNot(Derivation(r))));
      Primary(Parens(OPEN, OrMore(OneAnd(OneNot(Derivation(l))), Token(OR, "OR"), OneNot(Derivation(r))), CLOSE))
    case NotExpr(inner) => Negation(Token(NOT, "NOT"), Derivation(inner))
  }

  lemma {:induction false} DerivationStandsFor(e: Expr)
    requires Buildable(e)
    ensures NotTree(Derivation(e)) == e
  {
    match e
    case Comparison(_, _, value) =>
      if value.NumberValue? { NumberRoundTrip(value.number); }
    case AndExpr(l, r) =>
      DerivationStandsFor(l);
      DerivationStandsFor(r);
      var pair := AndMore(OneNot(Derivation(l)), Token(AND, "AND"), Derivation(r));
      assert AndTree(OneNot(Derivation(l))) == l && AndTree(pair) == e && OrTree(OneAnd(pair)) == e;
    case OrExpr(l, r) =>
      DerivationStandsFor(l);
      DerivationStandsFor(r);
      var pair := OrMore(OneAnd(OneNot(Derivation(l))), Token(OR, "OR"), OneNot(Derivation(r)));
      assert AndTree(OneNot(Derivation(r))) == r && OrTree(OneAnd(OneNot(Derivation(l)))) == l;
      assert OrTree(pair) == e;
    case NotExpr(inner) => DerivationStandsFor(inner);
  }

  function Tokens(e: Expr): seq<Token> {
    match e
    case Comparison(variable, operator, value) => [Token(IDENT, variable), Token(OP, operator), ValueToken(value)]
    case AndExpr(l, r) => [OPEN] + (Tokens(l) + ([Token(AND, "AND")] + (Tokens(r) + [CLOSE])))
    case OrExpr(l, r) => [OPEN] + (Tokens(l) + ([Token(OR, "OR")] + (Tokens(r) + [CLOSE])))
    case NotExpr(inner) => [Token(NOT, "NOT")] + Tokens(inner)
  }

  lemma {:induction false} DerivationYields(e: Expr)
    ensures NotYield(Derivation(e)) == Tokens(e)
  {
    match e
    case Comparison(_, _, _) =>
    case AndExpr(l, r) =>
      DerivationYields(l);
      DerivationYields(r);
      var pair := AndMore(OneNot(Derivation(l)), Token(AND, "AND"), Derivation(r));
      assert AndYield(OneNot(Derivation(l))) == Tokens(l);
      assert OrYield(OneAnd(pair)) == AndYield(pair) == Tokens(l) + ([Token(AND, "AND")] + Tokens(r));
    case OrExpr(l, r) =>
      DerivationYields(l);
      DerivationYields(r);
      var pair := OrMore(OneAnd(OneNot(Derivation(l))), Token(OR, "OR"), OneNot(Derivation(r)));
      assert AndYield(OneNot(Derivation(r))) == Tokens(r) && OrYield(OneAnd(OneNot(Derivation(l)))) == Tokens(l);
      assert OrYield(pair) == Tokens(l) + ([Token(OR, "OR")] + Tokens(r));
    case NotExpr(inner) => DerivationYields(inner);
  }

  // ---------- Lexing piece by piece ----------

  function Prepend(ts: seq<Token>, r: Result<seq<Token>, SyntaxError>): Result<seq<Token>, SyntaxError> {
    if r.Failure? then r else Success(ts + r.value)
  }

  lemma PrependTwice(ts: seq<Token>, us: seq<Token>, r: Result<seq<Token>, SyntaxError>)
    ensures Prepend(ts, Prepend(us, r)) == Prepend(ts + us, r)
  {
    if r.Success? { assert ts + (us + r.value) == (ts + us) + r.value; }
  }

  /** What may follow an identifier or a keyword in a print. */
  predicate Bounded(rest: string) {
    rest == "" || rest[0] == ' ' || rest[0] == ')'
  }

  lemma SpanStops(p: char -> bool, s: string, n: nat)
    requires n <= |s| && (forall i :: 0 <= i < n ==> p(s[i])) && (n < |s| ==> !p(s[n]))
    ensures Span(p, s) == n
  {}

  lemma LexSpace(s: string)
    ensures Lex(" " + s) == Lex(s)
  {
    assert (" " + s)[1..] == s;
    assert Span(IsSpace, " " + s) == 1 + Span(IsSpace, s);
    assert SkipSpace(" " + s) == SkipSpace(s);
  }

  lemma LexLexeme(x: string, rest: string)
    requires x != "" && !IsSpace(x[0]) && LexemeLength(x + rest) == |x|
    ensures Lex(x + rest) == Prepend([Classify(x)], Lex(rest))
  {}

  lemma LexParen(x: string, rest: string)
    requires x == "(" || x == ")"
    ensures Lex(x + rest) == Prepend([if x == "(" then OPEN else CLOSE], Lex(rest))
  {
    hide Lex, Prepend, Span, Lower;
    LexLexeme(x, rest);
  }

  lemma LexWord(x: string, rest: string)
    requires IsIdentifier(x) && Bounded(rest)
    ensures Lex(x + rest) == Prepend([Classify(x)], Lex(rest))
  {
    hide Lex, Classify, Prepend;
    assert (x + rest)[1..] == x[1..] + rest;
    assert forall i :: 0 <= i < |x| - 1 ==> (x[1..] + rest)[i] == x[i + 1];
    assert |x| - 1 < |x[1..] + rest| ==> (x[1..] + rest)[|x| - 1] == rest[0];
    SpanStops(IsWord, x[1..] + rest, |x| - 1);
    assert (x + rest)[0] == x[0];
    NoOperatorHere(x + rest);
    LexLexeme(x, rest);
  }

  lemma NoOperatorHere(s: string)
    requires s != "" && (IsLetter(s[0]) || IsDigit(s[0]) || s[0] == '-' || s[0] == '\'')
    ensures |s| >= 2 ==> s[..2] !in [">=", "<=", "==", "!="]
    ensures s[0] !in ['>', '<', '(', ')']
  {}

  lemma WordIsIdent(x: string)
    requires IsIdentifier(x) && !IsReserved(x)
    ensures Classify(x) == Token(IDENT, x)
  {}

  /** A word whose lower-case form is a keyword or a truth value. */
  lemma ReservedWord(x: string, low: string)
    requires IsIdentifier(x) && |x| == |low| && forall i :: 0 <= i < |x| ==> LowerChar(x[i]) == low[i]
    requires low == "and" || low == "or" || low == "not" || low == "true" || low == "false"
    ensures Classify(x) ==
      Token(if low == "and" then AND else if low == "or" then OR else if low == "not" then NOT else BOOL,
            if low == "true" || low == "false" then low else x)
  {
    hide Lower;
    assert Lower(x) == low;
    assert x !in OPERATORS by {
      assert x[0] != '>' && x[0] != '<' && x[0] != '=' && x[0] != '!';
    }
  }

  lemma KeywordTokens()
    ensures IsIdentifier("AND") && Classify("AND") == Token(AND, "AND")
    ensures IsIdentifier("OR") && Classify("OR") == Token(OR, "OR")
    ensures IsIdentifier("NOT") && Classify("NOT") == Token(NOT, "NOT")
    ensures IsIdentifier("true") && Classify("true") == Token(BOOL, "true")
    ensures IsIdentifier("false") && Classify("false") == Token(BOOL, "false")
  {
    hide Classify, Lower;
    ReservedWord("AND", "and");
    ReservedWord("OR", "or");
    ReservedWord("NOT", "not");
    ReservedWord("true", "true");
    ReservedWord("false", "false");
  }

  lemma LexOperator(x: string, rest: string)
    requires x in OPERATORS
    ensures Lex(x + (" " + rest)) == Prepend([Token(OP, x)], Lex(rest))
  {
    var s := x + (" " + rest);
    assert s[0] == x[0];
    if |x| == 2 {
      assert s[..2] == x;
    } else {
      assert s[..2] == [x[0], ' '];
      assert s[..2][1] == ' ';
    }
    LexLexeme(x, " " + rest);
    LexSpace(rest);
  }

  lemma LexString(x: string, rest: string)
    requires forall i :: 0 <= i < |x| ==> NotQuote(x[i])
    ensures Lex(("'" + x + "'") + rest) == Prepend([Token(STRING, x)], Lex(rest))
  {
    var quoted := "'" + x + "'";
    var s := quoted + rest;
    NoOperatorHere(s);
    assert s[1..] == x + ("'" + rest);
    assert s[1..][|x|] == '\'';
    SpanStops(NotQuote, s[1..], |x|);
    LexLexeme(quoted, rest);
    assert quoted[1..|quoted| - 1] == x;
    assert quoted !in OPERATORS by { assert quoted[0] == '\''; }
  }

  lemma PlainTextShape(d: Decimal)
    ensures var text, digits := PlainText(d), PaddedDigits(d);
      var sign := if d.mantissa < 0 then 1 else 0;
      var whole := sign + |digits| - d.scale;
      && |text| == sign + |digits| + (if d.scale == 0 then 0 else 1)
      && (sign == 1 ==> text[0] == '-')
      && (forall i :: sign <= i < whole ==> IsDigit(text[i]))
      && (d.scale > 0 ==> text[whole] == '.' && forall i :: whole < i < |text| ==> IsDigit(text[i]))
  {
    var digits := PaddedDigits(d);
    var body := UnsignedText(digits, d.scale);
    assert forall i :: 0 <= i < |digits| - d.scale ==> body[i] == digits[i];
    if d.scale > 0 {
      assert forall i :: |digits| - d.scale < i < |body| ==> body[i] == digits[i - 1];
    }
  }

  /** What ends a number. */
  predicate Ends(rest: string) {
    rest == "" || (!IsDigit(rest[0]) && rest[0] != '.')
  }

  lemma NumberLengthOf(d: Decimal, rest: string)
    requires Ends(rest)
    ensures NumberLength(PlainText(d) + rest) == |PlainText(d)|
  {
    PlainTextShape(d);
    hide PaddedDigits, PlainText, Span, DigitsToNat, NatToDigits, IsWord, IsLetter;
    var text, digits := PlainText(d), PaddedDigits(d);
    var s := text + rest;
    var sign := if d.mantissa < 0 then 1 else 0;
    var whole := sign + |digits| - d.scale;
    assert s[0] == text[0];
    assert (s[0] == '-') == (sign == 1);
    var tail := s[sign..];
    forall i | 0 <= i < whole - sign ensures IsDigit(tail[i]) { assert tail[i] == text[i + sign]; }
    if whole < |s| {
      assert tail[whole - sign] == s[whole];
      assert !IsDigit(s[whole]);
    }
    SpanStops(IsDigit, tail, whole - sign);
    if d.scale > 0 {
      var fraction := s[whole + 1..];
      var n := |text| - whole - 1;
      assert forall i :: 0 <= i < n ==> fraction[i] == text[whole + 1 + i];
      assert n < |fraction| ==> fraction[n] == rest[0];
      SpanStops(IsDigit, fraction, n);
    }
  }

  lemma NumberStart(d: Decimal)
    ensures var text := PlainText(d);
      text != "" && (IsDigit(text[0]) || (text[0] == '-' && |text| >= 2 && IsDigit(text[1])))
  {}

  lemma NumberToken(text: string)
    requires text != "" && (IsDigit(text[0]) || (text[0] == '-' && |text| >= 2 && IsDigit(text[1])))
    ensures Classify(text) == Token(NUMBER, text)
  {}

  lemma LexNumber(d: Decimal, rest: string)
    requires Ends(rest)
    ensures Lex(PlainText(d) + rest) == Prepend([Token(NUMBER, PlainText(d))], Lex(rest))
  {
    NumberStart(d);
    NumberLengthOf(d, rest);
    hide PaddedDigits, PlainText, Ends, NumberLength, Classify, Lex;
    var text := PlainText(d);
    assert (text + rest)[0] == text[0];
    NoOperatorHere(text + rest);
    LexLexeme(text, rest);
    NumberToken(text);
  }

  lemma LexValue(v: Value, rest: string)
    requires ValueOk(v) && PlainValue(v) && Bounded(rest)
    ensures Lex(ValueText(v) + rest) == Prepend([ValueToken(v)], Lex(rest))
  {
    assert Ends(rest);
    hide Lex, PlainText, Bounded, Ends, Plain;
    match v
    case NumberValue(d) => LexNumber(d, rest);
    case StringValue(s) => LexString(s, rest);
    case BoolValue(b) =>
      KeywordTokens();
      LexWord(if b then "true" else "false", rest);
  }

  lemma LexKeyword(x: string, k: Kind, rest: string)
    requires (x == "AND" && k == AND) || (x == "OR" && k == OR) || (x == "NOT" && k == NOT)
    ensures Lex(x + (" " + rest)) == Prepend([Token(k, x)], Lex(rest))
  {
    hide Lex;
    KeywordTokens();
    LexWord(x, " " + rest);
    LexSpace(rest);
  }

  /** Variable and operator of a comparison, whatever stands behind. */
  lemma LexHead(x: string, op: string, behind: string)
    requires IsIdentifier(x) && !IsReserved(x) && op in OPERATORS
    ensures Lex(x + (" " + (op + (" " + behind)))) == Prepend([Token(IDENT, x), Token(OP, op)], Lex(behind))
  {
    hide Lex, IsIdentifier, IsReserved, Bounded;
    SpaceIsBounded(op + (" " + behind));
    LexWord(x, " " + (op + (" " + behind)));
    WordIsIdent(x);
    LexSpace(op + (" " + behind));
    LexOperator(op, behind);
    PrependTwice([Token(IDENT, x)], [Token(OP, op)], Lex(behind));
    assert [Token(IDENT, x)] + [Token(OP, op)] == [Token(IDENT, x), Token(OP, op)];
  }

  lemma ComparisonText(e: Expr, rest: string)
    requires e.Comparison?
    ensures ToText(e) + rest == e.variable + (" " + (e.operator + (" " + (ValueText(e.value) + rest))))
  {}

  lemma LexComparison(e: Expr, rest: string)
    requires e.Comparison? && Buildable(e) && AllPlain(e) && Bounded(rest)
    ensures Lex(ToText(e) + rest) == Prepend(Tokens(e), Lex(rest))
  {
    hide Lex, IsIdentifier, IsReserved, ValueText, ValueToken, Bounded, ValueOk, PlainValue;
    ComparisonText(e, rest);
    LexHead(e.variable, e.operator, ValueText(e.value) + rest);
    LexValue(e.value, rest);
    var head := [Token(IDENT, e.variable), Token(OP, e.operator)];
    PrependTwice(head, [ValueToken(e.value)], Lex(rest));
    assert head + [ValueToken(e.value)] == Tokens(e);
  }

  lemma SpaceIsBounded(s: string)
    ensures Bounded(" " + s) && Bounded(")" + s)
  {}

  /** The print of a pair, lexed from the back to the front. */
  lemma LexPair(l: string, ls: seq<Token>, word: string, k: Kind, r: string, rs: seq<Token>, rest: string)
    requires (word == "AND" && k == AND) || (word == "OR" && k == OR)
    requires forall after :: Bounded(after) ==> Lex(l + after) == Prepend(ls, Lex(after))
    requires forall after :: Bounded(after) ==> Lex(r + after) == Prepend(rs, Lex(after))
    ensures Lex("(" + l + " " + word + " " + r + ")" + rest)
            == Prepend([OPEN] + (ls + ([Token(k, word)] + (rs + [CLOSE]))), Lex(rest))
  {
    hide Lex, Bounded;
    var s1 := ")" + rest;
    var s2 := word + (" " + (r + s1));
    var s3 := " " + s2;
    SpaceIsBounded(rest);
    SpaceIsBounded(s2);
    assert "(" + l + " " + word + " " + r + ")" + rest == "(" + (l + s3);
    LexParen(")", rest);
    PrependTwice(rs, [CLOSE], Lex(rest));
    LexKeyword(word, k, r + s1);
    PrependTwice([Token(k, word)], rs + [CLOSE], Lex(rest));
    LexSpace(s2);
    PrependTwice(ls, [Token(k, word)] + (rs + [CLOSE]), Lex(rest));
    LexParen("(", l + s3);
    PrependTwice([OPEN], ls + ([Token(k, word)] + (rs + [CLOSE])), Lex(rest));
  }

  lemma PairText(l: string, word: string, r: string, rest: string)
    requires word == "AND" || word == "OR"
    ensures "(" + l + (if word == "AND" then " AND " else " OR ") + r + ")" + rest
            == "(" + l + " " + word + " " + r + ")" + rest
  {}

  /** Tokenizing a print without exponents gives the tokens it spells out. */
  lemma {:induction false} LexPrint(e: Expr)
    requires Buildable(e) && AllPlain(e)
    ensures forall rest :: Bounded(rest) ==> Lex(ToText(e) + rest) == Prepend(Tokens(e), Lex(rest))
  {
    hide Lex, Bounded, Prepend;
    match e
    case Comparison(_, _, _) =>
      forall rest | Bounded(rest) ensures Lex(ToText(e) + rest) == Prepend(Tokens(e), Lex(rest)) {
        LexComparison(e, rest);
      }
    case AndExpr(l, r) =>
      LexPrint(l);
      LexPrint(r);
      forall rest | Bounded(rest) ensures Lex(ToText(e) + rest) == Prepend(Tokens(e), Lex(rest)) {
        LexPair(ToText(l), Tokens(l), "AND", AND, ToText(r), Tokens(r), rest);
        PairText(ToText(l), "AND", ToText(r), rest);
      }
    case OrExpr(l, r) =>
      LexPrint(l);
      LexPrint(r);
      forall rest | Bounded(rest) ensures Lex(ToText(e) + rest) == Prepend(Tokens(e), Lex(rest)) {
        LexPair(ToText(l), Tokens(l), "OR", OR, ToText(r), Tokens(r), rest);
        PairText(ToText(l), "OR", ToText(r), rest);
      }
    case NotExpr(inner) =>
      LexPrint(inner);
      forall rest | Bounded(rest) ensures Lex(ToText(e) + rest) == Prepend(Tokens(e), Lex(rest)) {
        LexNegation(inner, rest);
      }
  }

  lemma LexNegation(inner: Expr, rest: string)
    requires Lex(ToText(inner) + rest) == Prepend(Tokens(inner), Lex(rest))
    ensures Lex(ToText(NotExpr(inner)) + rest) == Prepend(Tokens(NotExpr(inner)), Lex(rest))
  {
    hide Lex, Prepend;
    LexKeyword("NOT", NOT, ToText(inner) + rest);
    assert ToText(NotExpr(inner)) + rest == "NOT" + (" " + (ToText(inner) + rest));
    PrependTwice([Token(NOT, "NOT")], Tokens(inner), Lex(rest));
  }

  /** Printing and reading back: a tree the parser can build survives, character by character, if none
      of its literals is printed with an exponent. */
  lemma PlainPrintReadsBack(e: Expr)
    requires Buildable(e) && AllPlain(e)
    ensures ParseRule(ToText(e)) == Success(e)
  {
    assert ToText(e) + "" == ToText(e);
    LexPrint(e);
    assert Bounded("");
    assert Lex("") == Success([]) && Tokens(e) + [] == Tokens(e);
    TokensParse(e);
  }

  lemma TokensParse(e: Expr)
    requires Buildable(e)
    ensures ParseTokens(Tokens(e)) == Success(e)
  {
    DerivationYields(e);
    DerivationStandsFor(e);
    Single(Derivation(e));
    DerivationParses(OneAnd(OneNot(Derivation(e))));
  }
}
