/** The recursive-descent parser, and why it decides exactly the written grammar. */
module FraudParser {
  import opened Wrappers
  import opened FraudTokens
  import opened FraudGrammar

  /** A derivation of a front part of some tokens, and the tokens behind it. */
  datatype Parsed<D> = Parsed(d: D, rest: seq<Token>)

  type Outcome<D> = Result<Parsed<D>, SyntaxError>

  predicate StartsWith(ts: seq<Token>, k: Kind) {
    ts != [] && ts[0].kind == k
  }

  // ---------- The parser as functions; their contracts say that it is sound ----------

  function ParseOr(ts: seq<Token>): (r: Outcome<OrD>)
    ensures r.Success? ==> OrOk(r.value.d) && ts == OrYield(r.value.d) + r.value.rest
    decreases |ts|, 4
  {
    var first :- ParseAnd(ts);
    OrLoop(OneAnd(first.d), first.rest)
  }

  function OrLoop(d: OrD, ts: seq<Token>): (r: Outcome<OrD>)
    requires OrOk(d)
    ensures r.Success? ==> OrOk(r.value.d) && OrYield(d) + ts == OrYield(r.value.d) + r.value.rest
    decreases |ts|, 3
  {
    if !StartsWith(ts, OR) then Success(Parsed(d, ts))
    else
      var next :- ParseAnd(ts[1..]);
      assert OrYield(d) + ts == OrYield(OrMore(d, ts[0], next.d)) + next.rest;
      OrLoop(OrMore(d, ts[0], next.d), next.rest)
  }

  function ParseAnd(ts: seq<Token>): (r: Outcome<AndD>)
    ensures r.Success? ==> AndOk(r.value.d) && ts == AndYield(r.value.d) + r.value.rest
    decreases |ts|, 2
  {
    var first :- ParseNot(ts);
    AndLoop(OneNot(first.d), first.rest)
  }

  function AndLoop(d: AndD, ts: seq<Token>): (r: Outcome<AndD>)
    requires AndOk(d)
    ensures r.Success? ==> AndOk(r.value.d) && AndYield(d) + ts == AndYield(r.value.d) + r.value.rest
    decreases |ts|, 1
  {
    if !StartsWith(ts, AND) then Success(Parsed(d, ts))
    else
      var next :- ParseNot(ts[1..]);
      assert AndYield(d) + ts == AndYield(AndMore(d, ts[0], next.d)) + next.rest;
      AndLoop(AndMore(d, ts[0], next.d), next.rest)
  }

  function ParseNot(ts: seq<Token>): (r: Outcome<NotD>)
    ensures r.Success? ==> NotOk(r.value.d) && ts == NotYield(r.value.d) + r.value.rest
    decreases |ts|, 1
  {
    if StartsWith(ts, NOT) then
      var inner :- ParseNot(ts[1..]);
      Success(Parsed(Negation(ts[0], inner.d), inner.rest))
    else
      var p :- ParsePrimary(ts);
      Success(Parsed(Primary(p.d), p.rest))
  }

  function ParsePrimary(ts: seq<Token>): (r: Outcome<PrimaryD>)
    ensures r.Success? ==> PrimaryOk(r.value.d) && ts == PrimaryYield(r.value.d) + r.value.rest
    decreases |ts|, 0
  {
    if StartsWith(ts, LPAREN) then
      var inside :- ParseOr(ts[1..]);
      if !StartsWith(inside.rest, RPAREN) then Failure(RuleSyntaxError)
      else
        assert ts == PrimaryYield(Parens(ts[0], inside.d, inside.rest[0])) + inside.rest[1..];
        Success(Parsed(Parens(ts[0], inside.d, inside.rest[0]), inside.rest[1..]))
    else if !StartsWith(ts, IDENT) || !StartsWith(ts[1..], OP) || |ts| < 3 || !IsValue(ts[2].kind)
    then Failure(RuleSyntaxError)
    else Success(Parsed(Compare(ts[0], ts[1], ts[2]), ts[3..]))
  }

  // ---------- Completeness ----------

  lemma {:induction false} PrimaryComplete(d: PrimaryD, rest: seq<Token>)
    requires PrimaryOk(d)
    ensures ParsePrimary(PrimaryYield(d) + rest) == Success(Parsed(d, rest))
    decreases d, 0
  {
    var ts := PrimaryYield(d) + rest;
    match d
    case Compare(ident, op, value) => assert ts[3..] == rest;
    case Parens(open, inside, close) =>
      assert ts[1..] == OrYield(inside) + ([close] + rest);
      OrComplete(inside, [close] + rest);
      assert ([close] + rest)[1..] == rest;
  }

  lemma {:induction false} NotComplete(d: NotD, rest: seq<Token>)
    requires NotOk(d)
    ensures ParseNot(NotYield(d) + rest) == Success(Parsed(d, rest))
    decreases d, 1
  {
    match d
    case Negation(tok, inner) =>
      assert (NotYield(d) + rest)[1..] == NotYield(inner) + rest;
      NotComplete(inner, rest);
    case Primary(p) => PrimaryComplete(p, rest);
  }

  lemma {:induction false} AndComplete(d: AndD, rest: seq<Token>)
    requires AndOk(d)
    ensures ParseAnd(AndYield(d) + rest) == AndLoop(d, rest)
    decreases d, 2
  {
    match d
    case OneNot(n) => NotComplete(n, rest);
    case AndMore(front, tok, last) =>
      var tail := [tok] + NotYield(last) + rest;
      assert AndYield(d) + rest == AndYield(front) + tail;
      AndComplete(front, tail);
      assert tail[1..] == NotYield(last) + rest;
      NotComplete(last, rest);
  }

  lemma {:induction false} OrComplete'(d: OrD, rest: seq<Token>)
    requires OrOk(d) && !StartsWith(rest, AND)
    ensures ParseOr(OrYield(d) + rest) == OrLoop(d, rest)
    decreases d, 3
  {
    match d
    case OneAnd(a) => AndComplete(a, rest);
    case OrMore(front, tok, last) =>
      var tail := [tok] + AndYield(last) + rest;
      assert OrYield(d) + rest == OrYield(front) + tail;
      OrComplete'(front, tail);
      assert tail[1..] == AndYield(last) + rest;
      AndComplete(last, rest);
  }

  /** Whatever derives is parsed, and to the very derivation it came from. */
  lemma {:induction false} OrComplete(d: OrD, rest: seq<Token>)
    requires OrOk(d) && !StartsWith(rest, AND) && !StartsWith(rest, OR)
    ensures ParseOr(OrYield(d) + rest) == Success(Parsed(d, rest))
    decreases d, 4
  {
    OrComplete'(d, rest);
  }

  // ---------- Whole rules ----------

  ghost predicate Derives(d: OrD, ts: seq<Token>) {
    OrOk(d) && OrYield(d) == ts
  }

  /** A rule: an expression and nothing behind it. */
  function ParseTokens(ts: seq<Token>): Result<Expr, SyntaxError> {
    if ts == [] then Failure(RuleSyntaxError)
    else
      var whole :- ParseOr(ts);
      if whole.rest != [] then Failure(RuleSyntaxError) else Success(OrTree(whole.d))
  }

  function ParseRule(source: string): Result<Expr, SyntaxError> {
    var ts :- Lex(source);
    ParseTokens(ts)
  }

  /** Sound and complete: a token list is accepted, with a tree, exactly when some derivation derives
      the list and stands for the tree. */
  lemma ParserDecidesTheGrammar(ts: seq<Token>, e: Expr)
    ensures ParseTokens(ts) == Success(e) <==> exists d :: Derives(d, ts) && OrTree(d) == e
  {
    if ParseTokens(ts) == Success(e) {
      var d := ParseOr(ts).value.d;
      assert OrYield(d) + [] == OrYield(d);
      assert Derives(d, ts) && OrTree(d) == e;
    }
    if d :| Derives(d, ts) && OrTree(d) == e {
      OrComplete(d, []);
      assert OrYield(d) + [] == ts;
    }
  }

  /** The grammar is unambiguous: no token list has two derivations. */
  lemma Unambiguous(d: OrD, d': OrD, ts: seq<Token>)
    requires Derives(d, ts) && Derives(d', ts)
    ensures d == d'
  {
    OrComplete(d, []);
    OrComplete(d', []);
    assert OrYield(d) + [] == ts == OrYield(d') + [];
  }

  lemma Single(n: NotD)
    requires NotOk(n)
    ensures AndOk(OneNot(n)) && AndYield(OneNot(n)) == NotYield(n) && AndTree(OneNot(n)) == NotTree(n)
    ensures OrOk(OneAnd(OneNot(n))) && OrYield(OneAnd(OneNot(n))) == NotYield(n) && OrTree(OneAnd(OneNot(n))) == NotTree(n)
  {}

  lemma AndPair(a: NotD, and: Token, b: NotD) returns (d: AndD)
    requires NotOk(a) && NotOk(b) && and.kind == AND
    ensures AndOk(d) && AndYield(d) == NotYield(a) + ([and] + NotYield(b)) && AndTree(d) == AndExpr(NotTree(a), NotTree(b))
    ensures OrOk(OneAnd(d)) && OrYield(OneAnd(d)) == AndYield(d) && OrTree(OneAnd(d)) == AndTree(d)
  {
    Single(a);
    d := AndMore(OneNot(a), and, b);
  }

  lemma OrPair(a: NotD, or: Token, b: NotD) returns (d: OrD)
    requires NotOk(a) && NotOk(b) && or.kind == OR
    ensures OrOk(d) && OrYield(d) == NotYield(a) + ([or] + NotYield(b)) && OrTree(d) == OrExpr(NotTree(a), NotTree(b))
  {
    Single(a);
    Single(b);
    d := OrMore(OneAnd(OneNot(a)), or, OneNot(b));
  }

  /** AND binds tighter than OR, on either side of it. */
  lemma AndBindsTighter(a: NotD, b: NotD, c: NotD, or: Token, and: Token)
    requires NotOk(a) && NotOk(b) && NotOk(c) && or.kind == OR && and.kind == AND
    ensures ParseTokens(NotYield(a) + [or] + NotYield(b) + [and] + NotYield(c))
            == Success(OrExpr(NotTree(a), AndExpr(NotTree(b), NotTree(c))))
    ensures ParseTokens(NotYield(a) + [and] + NotYield(b) + [or] + NotYield(c))
            == Success(OrExpr(AndExpr(NotTree(a), NotTree(b)), NotTree(c)))
  {
    hide ParseTokens, NotYield, NotTree, NotOk;
    Single(a);
    var right := AndPair(b, and, c);
    DerivationParses(OrMore(OneAnd(OneNot(a)), or, right));
    assert OrYield(OrMore(OneAnd(OneNot(a)), or, right)) == NotYield(a) + [or] + NotYield(b) + [and] + NotYield(c);
    Single(c);
    var left := AndPair(a, and, b);
    DerivationParses(OrMore(OneAnd(left), or, OneNot(c)));
    assert OrYield(OrMore(OneAnd(left), or, OneNot(c))) == NotYield(a) + [and] + NotYield(b) + [or] + NotYield(c);
  }

  /** Equal operators group to the left. */
  lemma GroupsToTheLeft(a: NotD, b: NotD, c: NotD, or1: Token, or2: Token, and1: Token, and2: Token)
    requires NotOk(a) && NotOk(b) && NotOk(c)
    requires or1.kind == or2.kind == OR && and1.kind == and2.kind == AND
    ensures ParseTokens(NotYield(a) + [or1] + NotYield(b) + [or2] + NotYield(c))
            == Success(OrExpr(OrExpr(NotTree(a), NotTree(b)), NotTree(c)))
    ensures ParseTokens(NotYield(a) + [and1] + NotYield(b) + [and2] + NotYield(c))
            == Success(AndExpr(AndExpr(NotTree(a), NotTree(b)), NotTree(c)))
  {
    hide ParseTokens, NotYield, NotTree, NotOk;
    Single(c);
    var ors := OrPair(a, or1, b);
    DerivationParses(OrMore(ors, or2, OneNot(c)));
    assert OrYield(OrMore(ors, or2, OneNot(c))) == NotYield(a) + [or1] + NotYield(b) + [or2] + NotYield(c);
    var ands := AndPair(a, and1, b);
    var d := AndMore(ands, and2, c);
    assert AndYield(d) == NotYield(a) + [and1] + NotYield(b) + [and2] + NotYield(c) && AndOk(d);
    DerivationParses(OneAnd(d));
    assert OrYield(OneAnd(d)) == AndYield(d) && OrTree(OneAnd(d)) == AndTree(d);
  }

  lemma DerivationParses(d: OrD)
    requires OrOk(d)
    ensures ParseTokens(OrYield(d)) == Success(OrTree(d))
  {
    assert Derives(d, OrYield(d));
    ParserDecidesTheGrammar(OrYield(d), OrTree(d));
  }

  // ---------- The parser object ----------

  class FraudRuleParser {
    var tokens: seq<Token>
    var position: nat

    constructor ()
      ensures tokens == [] && position == 0
    {
      tokens, position := [], 0;
    }

    /** The tokens not yet consumed. */
    function Ahead(): seq<Token>
      reads this
    {
      if position <= |tokens| then tokens[position..] else []
    }

    method Parse(source: string) returns (r: Result<Expr, SyntaxError>)
      modifies this
      ensures r == ParseRule(source)
    {
      tokens :- Tokenize(source);
      position := 0;
      assert tokens[0..] == tokens;
      if |tokens| == 0 { return Failure(RuleSyntaxError); }
      assert ParseOr(tokens).Failure? ==> ParseOr(tokens).error.RuleSyntaxError?;
      var expression :- ParseOrExpr();
      if position < |tokens| { return Failure(RuleSyntaxError); }
      return Success(expression);
    }

    method ParseOrExpr() returns (r: Result<Expr, SyntaxError>)
      requires position <= |tokens|
      modifies `position
      ensures var spec := ParseOr(old(Ahead()));
        && (spec.Failure? ==> r == Failure(RuleSyntaxError))
        && (spec.Success? ==> r == Success(OrTree(spec.value.d)) && position <= |tokens| && Ahead() == spec.value.rest)
      decreases |tokens| - position, 3
    {
      hide ParseAnd, AndTree, AndOk, AndYield, OrYield;
      var left :- ParseAndExpr();
      ghost var d := OneAnd(ParseAnd(old(Ahead())).value.d);
      while position < |tokens| && tokens[position].kind == OR
        invariant position <= |tokens| && |Ahead()| < |old(Ahead())|
        invariant OrOk(d) && left == OrTree(d)
        invariant ParseOr(old(Ahead())) == OrLoop(d, Ahead())
        decreases |tokens| - position
      {
        ghost var before := Ahead();
        position := position + 1;
        assert Ahead() == before[1..];
        ghost var next := ParseAnd(Ahead());
        var right :- ParseAndExpr();
        left := OrExpr(left, right);
        d := OrMore(d, before[0], next.value.d);
      }
      return Success(left);
    }

    method ParseAndExpr() returns (r: Result<Expr, SyntaxError>)
      requires position <= |tokens|
      modifies `position
      ensures var spec := ParseAnd(old(Ahead()));
        && (spec.Failure? ==> r == Failure(RuleSyntaxError))
        && (spec.Success? ==> r == Success(AndTree(spec.value.d)) && position <= |tokens| && Ahead() == spec.value.rest)
      decreases |tokens| - position, 2
    {
      hide ParseNot, NotTree, NotOk, NotYield, AndYield;
      var left :- ParseNotExpr();
      ghost var d := OneNot(ParseNot(old(Ahead())).value.d);
      while position < |tokens| && tokens[position].kind == AND
        invariant position <= |tokens| && |Ahead()| < |old(Ahead())|
        invariant AndOk(d) && left == AndTree(d)
        invariant ParseAnd(old(Ahead())) == AndLoop(d, Ahead())
        decreases |tokens| - position
      {
        ghost var before := Ahead();
        position := position + 1;
        assert Ahead() == before[1..];
        ghost var next := ParseNot(Ahead());
        var right :- ParseNotExpr();
        left := AndExpr(left, right);
        d := AndMore(d, before[0], next.value.d);
      }
      return Success(left);
    }

    method ParseNotExpr() returns (r: Result<Expr, SyntaxError>)
      requires position <= |tokens|
      modifies `position
      ensures var spec := ParseNot(old(Ahead()));
        && (spec.Failure? ==> r == Failure(RuleSyntaxError))
        && (spec.Success? ==> r == Success(NotTree(spec.value.d)) && position <= |tokens| && Ahead() == spec.value.rest)
      decreases |tokens| - position, 1
    {
      if position < |tokens| && tokens[position].kind == NOT {
        position := position + 1;
        assert Ahead() == old(Ahead())[1..];
        var inner :- ParseNotExpr();
        return Success(NotExpr(inner));
      }
      r := ParsePrimaryExpr();
    }

    method ParsePrimaryExpr() returns (r: Result<Expr, SyntaxError>)
      requires position <= |tokens|
      modifies `position
      ensures var spec := ParsePrimary(old(Ahead()));
        && (spec.Failure? ==> r == Failure(RuleSyntaxError))
        && (spec.Success? ==> r == Success(PrimaryTree(spec.value.d)) && position <= |tokens| && Ahead() == spec.value.rest)
      decreases |tokens| - position, 0
    {
      if position < |tokens| && tokens[position].kind == LPAREN {
        position := position + 1;
        assert Ahead() == old(Ahead())[1..];
        var inner :- ParseOrExpr();
        var _ :- Expect(RPAREN);
        return Success(inner);
      }
      var variable :- Expect(IDENT);
      var operator :- Expect(OP);
      var value := Advance();
      match value
      case None => return Failure(RuleSyntaxError);
      case Some(token) =>
        if !IsValue(token.kind) { return Failure(RuleSyntaxError); }
        return Success(Comparison(variable.text, operator.text, ValueOf(token)));
    }

    /** Takes the next token, or runs off the end. */
    method Advance() returns (t: Option<Token>)
      requires position <= |tokens|
      modifies `position
      ensures position == old(position) + 1
      ensures t == if old(Ahead()) == [] then None else Some(old(Ahead())[0])
      ensures old(Ahead()) != [] ==> position <= |tokens| && Ahead() == old(Ahead())[1..]
    {
      t := if position < |tokens| then Some(tokens[position]) else None;
      position := position + 1;
    }

    method Expect(kind: Kind) returns (r: Result<Token, SyntaxError>)
      requires position <= |tokens|
      modifies `position
      ensures !StartsWith(old(Ahead()), kind) ==> r == Failure(RuleSyntaxError)
      ensures StartsWith(old(Ahead()), kind) ==>
        r == Success(old(Ahead())[0]) && position <= |tokens| && Ahead() == old(Ahead())[1..]
    {
      var token := Advance();
      match token
      case None => return Failure(RuleSyntaxError);
      case Some(t) => return if t.kind == kind then Success(t) else Failure(RuleSyntaxError);
    }
  }
}
