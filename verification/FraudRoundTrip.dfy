/** Exactly which rules survive being printed and read back. */
module FraudRoundTrip {
  import opened Wrappers
  import opened Digits
  import opened LetterCase
  import opened FraudTokens
  import opened FraudNumbers
  import opened FraudGrammar
  import opened FraudParser
  import opened FraudPrinter

  // ---------- No derivation has a number before an identifier ----------

  predicate ClashFree(ts: seq<Token>) {
    forall i :: 0 <= i < |ts| - 1 ==> !(ts[i].kind == NUMBER && ts[i + 1].kind == IDENT)
  }

  lemma Joined(ts: seq<Token>, tok: Token, us: seq<Token>)
    requires ClashFree(ts) && ClashFree(us) && tok.kind != NUMBER && tok.kind != IDENT
    ensures ClashFree(ts + [tok] + us)
  {
    var all := ts + [tok] + us;
    forall i | 0 <= i < |all| - 1 ensures !(all[i].kind == NUMBER && all[i + 1].kind == IDENT) {
      if i > |ts| { assert all[i] == us[i - |ts| - 1] && all[i + 1] == us[i - |ts|]; }
    }
  }

  lemma {:induction false} OrIsClashFree(d: OrD)
    requires OrOk(d)
    ensures ClashFree(OrYield(d))
    decreases d, 3
  {
    match d
    case OneAnd(a) => AndIsClashFree(a);
    case OrMore(front, tok, last) =>
      OrIsClashFree(front);
      AndIsClashFree(last);
      Joined(OrYield(front), tok, AndYield(last));
  }

  lemma {:induction false} AndIsClashFree(d: AndD)
    requires AndOk(d)
    ensures ClashFree(AndYield(d))
    decreases d, 2
  {
    match d
    case OneNot(n) => NotIsClashFree(n);
    case AndMore(front, tok, last) =>
      AndIsClashFree(front);
      NotIsClashFree(last);
      Joined(AndYield(front), tok, NotYield(last));
  }

  lemma {:induction false} NotIsClashFree(d: NotD)
    requires NotOk(d)
    ensures ClashFree(NotYield(d))
    decreases d, 1
  {
    match d
    case Negation(tok, inner) =>
      NotIsClashFree(inner);
      Joined([], tok, NotYield(inner));
      assert [] + [tok] + NotYield(inner) == NotYield(d);
    case Primary(Parens(open, inside, close)) =>
      OrIsClashFree(inside);
      Joined([], open, OrYield(inside));
      Joined([open] + OrYield(inside), close, []);
      assert [] + [open] + OrYield(inside) == [open] + OrYield(inside);
      assert [open] + OrYield(inside) + [close] + [] == NotYield(d);
    case Primary(Compare(ident, op, value)) =>
      assert NotYield(d) == [ident, op, value];
  }

  /** A text that does not tokenize, or whose tokens no derivation can have. */
  predicate Broken(r: Result<seq<Token>, SyntaxError>) {
    r.Success? ==> !ClashFree(r.value)
  }

  lemma BrokenDoesNotParse(source: string)
    requires Broken(Lex(source))
    ensures ParseRule(source) == Failure(RuleSyntaxError)
  {
    if ParseRule(source).Success? {
      var ts, e := Lex(source).value, ParseRule(source).value;
      ParserDecidesTheGrammar(ts, e);
      var d :| Derives(d, ts) && OrTree(d) == e;
      OrIsClashFree(d);
    } else {
      assert ParseRule(source).error.RuleSyntaxError?;
    }
  }

  lemma PrependKeepsBroken(ts: seq<Token>, r: Result<seq<Token>, SyntaxError>)
    requires Broken(r)
    ensures Broken(Prepend(ts, r))
  {
    if r.Success? {
      var i :| 0 <= i < |r.value| - 1 && r.value[i].kind == NUMBER && r.value[i + 1].kind == IDENT;
      var all := ts + r.value;
      assert all[|ts| + i] == r.value[i] && all[|ts| + i + 1] == r.value[i + 1];
    }
  }

  // ---------- Exponents break a print ----------

  /** A number shown with an exponent reads as a number and an identifier. */
  lemma ExponentBreaks(d: Decimal, rest: string)
    requires !Plain(d)
    ensures Broken(Lex(NumberText(d) + rest))
  {
    hide Lex, NumberText, PlainText, Plain, Leading, PointAt, NatToDigits, Broken, Prepend;
    var behind := ExponentText(d, rest);
    LexNumber(Leading(d), "e" + behind);
    LexE(behind);
    NumberThenNameBreaks(PlainText(Leading(d)), Lex(behind));
  }

  lemma ExponentText(d: Decimal, rest: string) returns (behind: string)
    requires !Plain(d)
    ensures NumberText(d) + rest == PlainText(Leading(d)) + ("e" + behind)
    ensures behind != "" && (behind[0] == '-' || behind[0] == '+')
  {
    hide PlainText, Leading, NatToDigits, Plain;
    var power := PointAt(d) - 1;
    behind := (if power < 0 then "-" else "+") + NatToDigits(Abs(power)) + rest;
    assert NumberText(d) + rest == PlainText(Leading(d)) + ("e" + behind);
  }

  lemma NumberThenNameBreaks(number: string, r: Result<seq<Token>, SyntaxError>)
    ensures Broken(Prepend([Token(NUMBER, number)], Prepend([Token(IDENT, "e")], r)))
  {
    if r.Success? {
      var all := [Token(NUMBER, number)] + ([Token(IDENT, "e")] + r.value);
      assert all[0].kind == NUMBER && all[0 + 1].kind == IDENT;
    }
  }

  /** A sign ends the identifier that the letter of an exponent has become. */
  lemma LexE(behind: string)
    requires behind != "" && (behind[0] == '-' || behind[0] == '+')
    ensures Lex("e" + behind) == Prepend([Token(IDENT, "e")], Lex(behind))
  {
    var s := "e" + behind;
    assert s[1..] == behind && s[0] == 'e';
    SpanStops(IsWord, behind, 0);
    NoOperatorHere(s);
    LexLexeme("e", behind);
    SingleLetter();
  }

  lemma SingleLetter()
    ensures Classify("e") == Token(IDENT, "e")
  {
    assert |Lower("e")| == 1;
    WordIsIdent("e");
  }

  /** One literal in the range of exponents breaks the whole print. */
  lemma {:induction false} PrintBreaks(e: Expr)
    requires Buildable(e) && !AllPlain(e)
    ensures forall rest :: Bounded(rest) ==> Broken(Lex(ToText(e) + rest))
  {
    hide Lex, Bounded, Broken, Plain, NumberText, ToText;
    match e
    case Comparison(_, _, _) =>
      forall rest | Bounded(rest) ensures Broken(Lex(ToText(e) + rest)) {
        ComparisonBreaks(e, rest);
      }
    case AndExpr(l, r) =>
      if AllPlain(l) { PrintBreaks(r); } else { PrintBreaks(l); }
      forall rest | Bounded(rest) ensures Broken(Lex(ToText(e) + rest)) {
        BehindIsBounded("AND", r, rest);
        PairBreaks(e, l, "AND", AND, r, rest);
      }
    case OrExpr(l, r) =>
      if AllPlain(l) { PrintBreaks(r); } else { PrintBreaks(l); }
      forall rest | Bounded(rest) ensures Broken(Lex(ToText(e) + rest)) {
        BehindIsBounded("OR", r, rest);
        PairBreaks(e, l, "OR", OR, r, rest);
      }
    case NotExpr(inner) =>
      PrintBreaks(inner);
      forall rest | Bounded(rest) ensures Broken(Lex(ToText(e) + rest)) {
        NotBreaks(inner, rest);
      }
  }

  lemma ComparisonBreaks(e: Expr, rest: string)
    requires e.Comparison? && Buildable(e) && !AllPlain(e) && Bounded(rest)
    ensures Broken(Lex(ToText(e) + rest))
  {
    hide Lex, Bounded, Broken, Plain, NumberText, ToText;
    ComparisonText(e, rest);
    LexHead(e.variable, e.operator, ValueText(e.value) + rest);
    ExponentBreaks(e.value.number, rest);
    PrependKeepsBroken([Token(IDENT, e.variable), Token(OP, e.operator)], Lex(ValueText(e.value) + rest));
  }

  lemma NotBreaks(inner: Expr, rest: string)
    requires Broken(Lex(ToText(inner) + rest))
    ensures Broken(Lex(ToText(NotExpr(inner)) + rest))
  {
    hide Lex, Broken;
    assert ToText(NotExpr(inner)) + rest == "NOT" + (" " + (ToText(inner) + rest));
    LexKeyword("NOT", NOT, ToText(inner) + rest);
    PrependKeepsBroken([Token(NOT, "NOT")], Lex(ToText(inner) + rest));
  }

  lemma Nested(l: string, word: string, r: string, rest: string)
    ensures "(" + l + " " + word + " " + r + ")" + rest
            == "(" + (l + (" " + (word + (" " + (r + (")" + rest))))))
  {
    var s1 := ")" + rest;
    var s2 := word + (" " + (r + s1));
    assert "(" + l + " " + word + " " + r + ")" + rest == "(" + (l + (" " + s2));
  }

  lemma PairSpelled(e: Expr, l: Expr, word: string, r: Expr, rest: string)
    requires (e == AndExpr(l, r) && word == "AND") || (e == OrExpr(l, r) && word == "OR")
    ensures ToText(e) + rest == "(" + (ToText(l) + (" " + (word + (" " + (ToText(r) + (")" + rest))))))
  {
    var lt, rt := ToText(l), ToText(r);
    assert ToText(e) == "(" + lt + (if word == "AND" then " AND " else " OR ") + rt + ")";
    hide ToText;
    PairText(lt, word, rt, rest);
    Nested(lt, word, rt, rest);
  }

  lemma LeftBreaks(l: string, behind: string)
    requires Broken(Lex(l + behind))
    ensures Broken(Lex("(" + (l + behind)))
  {
    hide Lex, Broken;
    LexParen("(", l + behind);
    PrependKeepsBroken([OPEN], Lex(l + behind));
  }

  lemma RightBreaks(l: string, ls: seq<Token>, word: string, k: Kind, behind: string)
    requires (word == "AND" && k == AND) || (word == "OR" && k == OR)
    requires forall after :: Bounded(after) ==> Lex(l + after) == Prepend(ls, Lex(after))
    requires Broken(Lex(behind))
    ensures Broken(Lex("(" + (l + (" " + (word + (" " + behind))))))
  {
    hide Lex, Bounded, Broken;
    var s2 := word + (" " + behind);
    LexKeyword(word, k, behind);
    PrependKeepsBroken([Token(k, word)], Lex(behind));
    LexSpace(s2);
    SpaceIsBounded(s2);
    PrependKeepsBroken(ls, Lex(s2));
    LeftBreaks(l, " " + s2);
  }

  /** What stands behind the left part of a pair. */
  function Behind(word: string, r: Expr, rest: string): string {
    " " + (word + (" " + (ToText(r) + (")" + rest))))
  }

  /** A broken part breaks a pair. */
  lemma PairBreaks(e: Expr, l: Expr, word: string, k: Kind, r: Expr, rest: string)
    requires (e == AndExpr(l, r) && word == "AND" && k == AND) || (e == OrExpr(l, r) && word == "OR" && k == OR)
    requires Buildable(l)
    requires AllPlain(l) ==> Broken(Lex(ToText(r) + (")" + rest)))
    requires !AllPlain(l) ==> Broken(Lex(ToText(l) + Behind(word, r, rest)))
    ensures Broken(Lex(ToText(e) + rest))
  {
    PairSpelled(e, l, word, r, rest);
    hide Lex, Bounded, Broken, ToText, Buildable, AllPlain, Tokens;
    if AllPlain(l) {
      LexPrint(l);
      RightBreaks(ToText(l), Tokens(l), word, k, ToText(r) + (")" + rest));
    } else {
      LeftBreaks(ToText(l), Behind(word, r, rest));
    }
  }

  lemma BehindIsBounded(word: string, r: Expr, rest: string)
    ensures Bounded(Behind(word, r, rest)) && Bounded(")" + rest)
  {}

  // ---------- The round trip ----------

  /** A tree the parser can build reads back from its print if and only if none of its literals is in
      the range of exponents; otherwise its print is not a rule at all. */
  lemma PrintParseRoundTrip(e: Expr)
    requires Buildable(e)
    ensures ParseRule(ToText(e)) == if AllPlain(e) then Success(e) else Failure(RuleSyntaxError)
  {
    if AllPlain(e) {
      PlainPrintReadsBack(e);
    } else {
      PrintBreaks(e);
      assert ToText(e) + "" == ToText(e) && Bounded("");
      BrokenDoesNotParse(ToText(e));
    }
  }

  /** Printing tells trees apart: no other tree prints like one without exponents. */
  lemma PrintIsFaithful(e: Expr, e': Expr)
    requires Buildable(e) && Buildable(e') && AllPlain(e) && ToText(e) == ToText(e')
    ensures e == e'
  {
    PrintParseRoundTrip(e);
    PrintParseRoundTrip(e');
  }

  /** The parser builds such trees: any decimal can be written out in a rule, and if it lies in the
      range of exponents the rule parses but its print does not. */
  lemma ExponentsAreLost(x: string, op: string, d: Decimal)
    requires IsIdentifier(x) && !IsReserved(x) && op in OPERATORS && Normal(d)
    ensures var e := Comparison(x, op, NumberValue(d));
      && ParseRule(x + (" " + (op + (" " + PlainText(d))))) == Success(e)
      && (!Plain(d) ==> ParseRule(ToText(e)).Failure?)
  {
    var e := Comparison(x, op, NumberValue(d));
    assert Buildable(e);
    LexHead(x, op, PlainText(d));
    LexNumber(d, "");
    assert PlainText(d) + "" == PlainText(d) && Lex("") == Success([]);
    assert [Token(IDENT, x), Token(OP, op)] + ([Token(NUMBER, PlainText(d))] + []) == Tokens(e);
    hide Lex, PlainText, NumberText, ToText;
    TokensParse(e);
    PrintParseRoundTrip(e);
  }

  /** For one: a ten-millionth is read, and shown as 1e-7, which is not read. */
  lemma TenMillionthIsLost()
    ensures var d := Decimal(1, 7);
      && !Plain(d) && PlainText(d) == "0.0000001" && NumberText(d) == "1e-7"
      && ParseRule("amount" + (" " + (">" + (" " + PlainText(d))))) == Success(Comparison("amount", ">", NumberValue(d)))
      && ParseRule(ToText(Comparison("amount", ">", NumberValue(d)))).Failure?
  {
    TenMillionthTexts();
    AmountIsAName();
    hide *;
    ExponentsAreLost("amount", ">", Decimal(1, 7));
  }

  lemma TenMillionthTexts()
    ensures var d := Decimal(1, 7); Normal(d) && !Plain(d) && PlainText(d) == "0.0000001" && NumberText(d) == "1e-7"
  {
    var d := Decimal(1, 7);
    assert NatToDigits(1) == "1" && NatToDigits(7) == "7";
    assert Zeros(7) == "0000000";
    assert PaddedDigits(d) == "00000001";
    assert WithoutZeros(1) == 1 && Leading(d) == Decimal(1, 0) && PlainText(Decimal(1, 0)) == "1";
  }

  lemma AmountIsAName()
    ensures IsIdentifier("amount") && !IsReserved("amount") && ">" in OPERATORS
  {
    assert Lower("amount")[0] == 'a' && Lower("amount")[1] == 'm';
    assert |Lower("amount")| == 6;
  }
}
