/** The grammar of the fraud rule language, written down as derivations:

      expression := orExpr                       orExpr  := andExpr ( OR andExpr )*
      andExpr    := notExpr ( AND notExpr )*     notExpr := NOT notExpr | primary
      primary    := ( expression ) | IDENTIFIER OPERATOR value

    An iteration X ( T X )* is kept as the list of its items, the last one outermost. */
module FraudGrammar {
  import opened FraudTokens
  import opened FraudNumbers

  datatype Value = NumberValue(number: Decimal) | StringValue(text: string) | BoolValue(b: bool)

  /** The tree of expression objects a rule becomes. */
  datatype Expr =
    | Comparison(variable: string, operator: string, value: Value)
    | AndExpr(left: Expr, right: Expr)
    | OrExpr(left: Expr, right: Expr)
    | NotExpr(inner: Expr)

  // ---------- Derivations ----------

  datatype OrD = OneAnd(a: AndD) | OrMore(front: OrD, tok: Token, last: AndD)
  datatype AndD = OneNot(n: NotD) | AndMore(front: AndD, tok: Token, last: NotD)
  datatype NotD = Negation(tok: Token, inner: NotD) | Primary(p: PrimaryD)
  datatype PrimaryD = Parens(open: Token, inside: OrD, close: Token) | Compare(ident: Token, op: Token, value: Token)

  predicate IsValue(k: Kind) {
    k == NUMBER || k == STRING || k == BOOL
  }

  /** A derivation follows the rules: every terminal is of the kind its rule names. */
  predicate OrOk(d: OrD) {
    match d
    case OneAnd(a) => AndOk(a)
    case OrMore(front, tok, last) => OrOk(front) && tok.kind == OR && AndOk(last)
  }

  predicate AndOk(d: AndD) {
    match d
    case OneNot(n) => NotOk(n)
    case AndMore(front, tok, last) => AndOk(front) && tok.kind == AND && NotOk(last)
  }

  predicate NotOk(d: NotD) {
    match d
    case Negation(tok, inner) => tok.kind == NOT && NotOk(inner)
    case Primary(p) => PrimaryOk(p)
  }

  predicate PrimaryOk(d: PrimaryD) {
    match d
    case Parens(open, inside, close) => open.kind == LPAREN && OrOk(inside) && close.kind == RPAREN
    case Compare(ident, op, value) => ident.kind == IDENT && op.kind == OP && IsValue(value.kind)
  }

  /** The tokens a derivation derives. */
  function OrYield(d: OrD): (ts: seq<Token>)
    ensures |ts| > 0
  {
    match d
    case OneAnd(a) => AndYield(a)
    case OrMore(front, tok, last) => OrYield(front) + ([tok] + AndYield(last))
  }

  function AndYield(d: AndD): (ts: seq<Token>)
    ensures |ts| > 0
  {
    match d
    case OneNot(n) => NotYield(n)
    case AndMore(front, tok, last) => AndYield(front) + ([tok] + NotYield(last))
  }

  function NotYield(d: NotD): (ts: seq<Token>)
    ensures |ts| > 0
  {
    match d
    case Negation(tok, inner) => [tok] + NotYield(inner)
    case Primary(p) => PrimaryYield(p)
  }

  function PrimaryYield(d: PrimaryD): (ts: seq<Token>)
    ensures |ts| > 0
  {
    match d
    case Parens(open, inside, close) => [open] + (OrYield(inside) + [close])
    case Compare(ident, op, value) => [ident, op, value]
  }

  /** The tree a derivation stands for: left-associative, with parentheses dropped. */
  function OrTree(d: OrD): Expr {
    match d
    case OneAnd(a) => AndTree(a)
    case OrMore(front, _, last) => OrExpr(OrTree(front), AndTree(last))
  }

  function AndTree(d: AndD): Expr {
    match d
    case OneNot(n) => NotTree(n)
    case AndMore(front, _, last) => AndExpr(AndTree(front), NotTree(last))
  }

  function NotTree(d: NotD): Expr {
    match d
    case Negation(_, inner) => NotExpr(NotTree(inner))
    case Primary(p) => PrimaryTree(p)
  }

  function PrimaryTree(d: PrimaryD): Expr {
    match d
    case Parens(_, inside, _) => OrTree(inside)
    case Compare(ident, op, value) => Comparison(ident.text, op.text, ValueOf(value))
  }

  function ValueOf(t: Token): Value {
    match t.kind
    case NUMBER => NumberValue(NumberOf(t.text))
    case STRING => StringValue(t.text)
    case _ => BoolValue(t.text == "true")
  }
}
