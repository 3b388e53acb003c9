/** What a rule says about a transaction. */
module FraudInterpreter {
  import opened Wrappers
  import opened Digits
  import opened FraudNumbers
  import opened FraudValues
  import opened FraudGrammar
  import opened FraudParser
  import opened FraudPrinter
  import opened FraudRoundTrip

  /** The data of a transaction: a plain object's own properties. */
  type Context = map<string, Value>

  /** What every plain object inherits: names that are always there although they are no data. */
  const INHERITED := ["constructor", "hasOwnProperty", "isPrototypeOf", "propertyIsEnumerable", "toLocaleString",
                      "toString", "valueOf", "__defineGetter__", "__defineSetter__", "__lookupGetter__",
                      "__lookupSetter__", "__proto__"]

  /** An inherited value is a function or an object: it equals no literal and is not a number. */
  datatype Actual = Known(value: Value) | Inherited | Unknown

  function Lookup(c: Context, x: string): Actual {
    if x in c then Known(c[x]) else if x in INHERITED then Inherited else Unknown
  }

  /** Strict equality: a value equals only values of its own type, and numbers by their size. */
  predicate Same(a: Value, b: Value) {
    if a.NumberValue? && b.NumberValue? then !Less(a.number, b.number) && !Less(b.number, a.number) else a == b
  }

  /** Conversion to a number; None is not-a-number. How texts convert is a parameter. */
  function ToNumber(v: Value, ofText: string -> Option<Decimal>): Option<Decimal> {
    match v
    case NumberValue(d) => Some(d)
    case BoolValue(b) => Some(Decimal(if b then 1 else 0, 0))
    case StringValue(s) => ofText(s)
  }

  /** An order holds only between numbers. */
  predicate Ordered(operator: string, a: Option<Decimal>, b: Option<Decimal>) {
    a.Some? && b.Some? &&
    if operator == ">" then Less(b.value, a.value)
    else if operator == ">=" then !Less(a.value, b.value)
    else if operator == "<" then Less(a.value, b.value)
    else operator == "<=" && !Less(b.value, a.value)
  }

  predicate Interpret(e: Expr, c: Context, ofText: string -> Option<Decimal>) {
    match e
    case Comparison(x, operator, v) =>
      (match Lookup(c, x)
       case Unknown => false
       case Inherited => operator == "!="
       case Known(actual) =>
         if operator == "==" then Same(actual, v)
         else if operator == "!=" then !Same(actual, v)
         else Ordered(operator, ToNumber(actual, ofText), ToNumber(v, ofText)))
    case AndExpr(l, r) => Interpret(l, c, ofText) && Interpret(r, c, ofText)
    case OrExpr(l, r) => Interpret(l, c, ofText) || Interpret(r, c, ofText)
    case NotExpr(inner) => !Interpret(inner, c, ofText)
  }

  // ---------- What a comparison means ----------

  /** What a value counts as in an order: a number as itself, a truth value as 1 or 0, and a text as
      whatever texts convert to. */
  predicate CountsAs(v: Value, ofText: string -> Option<Decimal>, size: real) {
    match v
    case NumberValue(d) => size == RealValue(d)
    case BoolValue(b) => size == if b then 1.0 else 0.0
    case StringValue(s) => ofText(s).Some? && size == RealValue(ofText(s).value)
  }

  /** The four orders are those of the real numbers. */
  lemma OrdersCompareSizes(x: string, v: Value, c: Context, ofText: string -> Option<Decimal>, l: real, r: real)
    requires x in c && CountsAs(c[x], ofText, l) && CountsAs(v, ofText, r)
    ensures Interpret(Comparison(x, ">", v), c, ofText) <==> l > r
    ensures Interpret(Comparison(x, ">=", v), c, ofText) <==> l >= r
    ensures Interpret(Comparison(x, "<", v), c, ofText) <==> l < r
    ensures Interpret(Comparison(x, "<=", v), c, ofText) <==> l <= r
  {
    var a, b := ToNumber(c[x], ofText).value, ToNumber(v, ofText).value;
    assert l == RealValue(a) && r == RealValue(b);
    LessIsBySize(a, b);
    LessIsBySize(b, a);
    hide Less, RealValue;
  }

  /** Known data equals a literal when both are numbers of one size, or one text, or one truth value;
      and != is the opposite of ==. */
  lemma EqualityComparesValues(x: string, v: Value, c: Context, ofText: string -> Option<Decimal>)
    requires x in c
    ensures Interpret(Comparison(x, "==", v), c, ofText) <==>
      || (c[x].NumberValue? && v.NumberValue? && RealValue(c[x].number) == RealValue(v.number))
      || (c[x].StringValue? && v.StringValue? && c[x].text == v.text)
      || (c[x].BoolValue? && v.BoolValue? && c[x].b == v.b)
    ensures Interpret(Comparison(x, "!=", v), c, ofText) <==> !Interpret(Comparison(x, "==", v), c, ofText)
  {
    if c[x].NumberValue? && v.NumberValue? {
      LessIsBySize(c[x].number, v.number);
      LessIsBySize(v.number, c[x].number);
    }
    hide Less, RealValue;
  }

  /** A text that is no number stands in no order. */
  lemma NoNumberNoOrder(x: string, operator: string, v: Value, c: Context, ofText: string -> Option<Decimal>)
    requires x in c && operator in [">", ">=", "<", "<="]
    requires (c[x].StringValue? && ofText(c[x].text).None?) || (v.StringValue? && ofText(v.text).None?)
    ensures !Interpret(Comparison(x, operator, v), c, ofText)
  {}

  /** A rule at work: it triggers above five million, and at five million it does not. */
  lemma LargeAmountTriggers(c: Context, ofText: string -> Option<Decimal>)
    requires "amount" in c && c["amount"] in [NumberValue(Decimal(7_000_000, 0)), NumberValue(Decimal(5_000_000, 0))]
    ensures ParseRule("amount" + (" " + (">" + (" " + "5000000")))).Success?
    ensures Interpret(ParseRule("amount" + (" " + (">" + (" " + "5000000")))).value, c, ofText)
            <==> c["amount"] == NumberValue(Decimal(7_000_000, 0))
  {
    LargeAmountParses();
    hide ParseRule, RealValue, Interpret;
    var d := Decimal(5_000_000, 0);
    var size := RealValue(c["amount"].number);
    WholeSize(5_000_000);
    WholeSize(7_000_000);
    OrdersCompareSizes("amount", NumberValue(d), c, ofText, size, RealValue(d));
  }

  lemma LargeAmountParses()
    ensures ParseRule("amount" + (" " + (">" + (" " + "5000000"))))
            == Success(Comparison("amount", ">", NumberValue(Decimal(5_000_000, 0))))
  {
    AmountIsAName();
    FiveMillionText();
    hide *;
    NumberIsNormal(Decimal(5_000_000, 0));
    ExponentsAreLost("amount", ">", Decimal(5_000_000, 0));
  }

  lemma NumberIsNormal(d: Decimal)
    requires d.scale == 0
    ensures Normal(d)
  {}

  lemma FiveMillionText()
    ensures PlainText(Decimal(5_000_000, 0)) == "5000000"
  {
    assert NatToDigits(5) == "5";
    assert NatToDigits(50) == "50";
    assert NatToDigits(500) == "500";
    assert NatToDigits(5_000) == "5000";
    assert NatToDigits(50_000) == "50000";
    assert NatToDigits(500_000) == "500000";
    assert NatToDigits(5_000_000) == "5000000";
  }

  /** The print of a rule can be read back exactly when it shows no exponent, and then it means what
      the rule means, in every context. */
  lemma PrintKeepsMeaning(source: string, c: Context, ofText: string -> Option<Decimal>)
    requires ParseRule(source).Success?
    ensures ParseRule(ToText(ParseRule(source).value)).Success? <==> AllPlain(ParseRule(source).value)
    ensures AllPlain(ParseRule(source).value) ==>
      (Interpret(ParseRule(ToText(ParseRule(source).value)).value, c, ofText)
       <==> Interpret(ParseRule(source).value, c, ofText))
  {
    hide ParseRule, ToText;
    ParsedIsBuildable(source);
    PrintParseRoundTrip(ParseRule(source).value);
  }

  // ---------- Unknown data ----------

  predicate Mentions(e: Expr, x: string) {
    match e
    case Comparison(variable, _, _) => variable == x
    case AndExpr(l, r) => Mentions(l, x) || Mentions(r, x)
    case OrExpr(l, r) => Mentions(l, x) || Mentions(r, x)
    case NotExpr(inner) => Mentions(inner, x)
  }

  /** The rule with every comparison taken for false, except that an inherited name differs from
      everything. */
  predicate Skeleton(e: Expr) {
    match e
    case Comparison(x, operator, _) => x in INHERITED && operator == "!="
    case AndExpr(l, r) => Skeleton(l) && Skeleton(r)
    case OrExpr(l, r) => Skeleton(l) || Skeleton(r)
    case NotExpr(inner) => !Skeleton(inner)
  }

  /** Some comparison says that an inherited name differs from a literal. */
  predicate DistinguishesInherited(e: Expr) {
    match e
    case Comparison(x, operator, _) => x in INHERITED && operator == "!="
    case AndExpr(l, r) => DistinguishesInherited(l) || DistinguishesInherited(r)
    case OrExpr(l, r) => DistinguishesInherited(l) || DistinguishesInherited(r)
    case NotExpr(inner) => DistinguishesInherited(inner)
  }

  predicate NotFree(e: Expr) {
    match e
    case Comparison(_, _, _) => true
    case AndExpr(l, r) => NotFree(l) && NotFree(r)
    case OrExpr(l, r) => NotFree(l) && NotFree(r)
    case NotExpr(_) => false
  }

  /** A rule none of whose variables is known triggers exactly when its skeleton does; without NOT
      and without an inherited name under != it never does. */
  lemma {:induction false} UnknownDataTriggers(e: Expr, c: Context, ofText: string -> Option<Decimal>)
    requires forall x :: Mentions(e, x) ==> x !in c
    ensures Interpret(e, c, ofText) <==> Skeleton(e)
    ensures NotFree(e) && !DistinguishesInherited(e) ==> !Interpret(e, c, ofText)
  {
    match e
    case Comparison(x, _, _) => assert Mentions(e, x);
    case AndExpr(l, r) =>
      assert forall x :: Mentions(l, x) || Mentions(r, x) ==> Mentions(e, x);
      UnknownDataTriggers(l, c, ofText);
      UnknownDataTriggers(r, c, ofText);
    case OrExpr(l, r) =>
      assert forall x :: Mentions(l, x) || Mentions(r, x) ==> Mentions(e, x);
      UnknownDataTriggers(l, c, ofText);
      UnknownDataTriggers(r, c, ofText);
    case NotExpr(inner) =>
      assert forall x :: Mentions(inner, x) ==> Mentions(e, x);
      UnknownDataTriggers(inner, c, ofText);
  }

  /** With NOT, unknown data can trigger a rule: this one does with no data at all. */
  lemma UnknownDataCanTrigger(ofText: string -> Option<Decimal>)
    ensures Interpret(NotExpr(Comparison("amount", ">", NumberValue(Decimal(0, 0)))), map[], ofText)
  {}

  /** Without NOT, an inherited name can: no data at all, and still this rule triggers. */
  lemma InheritedNameTriggers(ofText: string -> Option<Decimal>)
    ensures var e := Comparison("constructor", "!=", StringValue("x"));
      NotFree(e) && Interpret(e, map[], ofText)
  {
    assert INHERITED[0] == "constructor";
  }

  /** NOT x > v says the same as x <= v exactly when x is known and both sides are numbers. */
  lemma NotGreaterIsLessOrEqual(x: string, v: Value, c: Context, ofText: string -> Option<Decimal>)
    ensures (Interpret(NotExpr(Comparison(x, ">", v)), c, ofText) <==> Interpret(Comparison(x, "<=", v), c, ofText))
            <==> (x in c && ToNumber(c[x], ofText).Some? && ToNumber(v, ofText).Some?)
  {}
}
