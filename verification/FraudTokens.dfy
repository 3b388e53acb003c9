/** The tokenizer of the fraud rule language. */
module FraudTokens {
  import opened Wrappers
  import opened Digits
  import opened LetterCase

  datatype Kind = IDENT | NUMBER | STRING | BOOL | OP | AND | OR | NOT | LPAREN | RPAREN

  datatype Token = Token(kind: Kind, text: string)

  datatype SyntaxError = RuleSyntaxError

  // ---------- Characters ----------

  /** The characters that \s matches. */
  predicate IsSpace(c: char) {
    || '\U{0009}' <= c <= '\U{000D}' || c == ' ' || c == '\U{00A0}' || c == '\U{1680}'
    || '\U{2000}' <= c <= '\U{200A}' || c == '\U{2028}' || c == '\U{2029}' || c == '\U{202F}'
    || c == '\U{205F}' || c == '\U{3000}' || c == '\U{FEFF}'
  }

  predicate IsLetter(c: char) { 'A' <= c <= 'Z' || 'a' <= c <= 'z' || c == '_' }

  predicate IsWord(c: char) { IsLetter(c) || IsDigit(c) }

  predicate NotQuote(c: char) { c != '\'' }

  /** How many characters at the front of a text satisfy p. */
  function Span(p: char -> bool, s: string): (n: nat)
    ensures n <= |s| && (forall i :: 0 <= i < n ==> p(s[i])) && (n < |s| ==> !p(s[n]))
  {
    if s != "" && p(s[0]) then 1 + Span(p, s[1..]) else 0
  }

  // ---------- Lexemes ----------

  const OPERATORS := [">=", "<=", "==", "!=", ">", "<"]

  /** The length of a number at the front: sign, digits, and a fraction only if digits follow the point. */
  function NumberLength(s: string): (n: nat)
    ensures n <= |s|
  {
    var sign := if s != "" && s[0] == '-' then 1 else 0;
    var digits := Span(IsDigit, s[sign..]);
    var whole := sign + digits;
    if digits == 0 then 0
    else if whole < |s| && s[whole] == '.' && Span(IsDigit, s[whole + 1..]) > 0
    then whole + 1 + Span(IsDigit, s[whole + 1..])
    else whole
  }

  /** The length of the lexeme at the front of a text that does not start with a space; 0 if none. */
  function LexemeLength(s: string): (n: nat)
    ensures n <= |s|
  {
    if s == "" then 0
    else if |s| >= 2 && s[..2] in [">=", "<=", "==", "!="] then 2
    else if s[0] in ['>', '<', '(', ')'] then 1
    else if s[0] == '\'' then
      var n := Span(NotQuote, s[1..]);
      if n == |s[1..]| then 0 else n + 2
    else if IsLetter(s[0]) then 1 + Span(IsWord, s[1..])
    else NumberLength(s)
  }

  function Keyword(text: string): Option<Kind> {
    var t := Lower(text);
    if t == "and" then Some(AND) else if t == "or" then Some(OR) else if t == "not" then Some(NOT) else None
  }

  function Classify(text: string): Token
    requires text != ""
  {
    if text == "(" then Token(LPAREN, text)
    else if text == ")" then Token(RPAREN, text)
    else if text in OPERATORS then Token(OP, text)
    else if text[0] == '\'' then Token(STRING, if |text| >= 2 then text[1..|text| - 1] else "")
    else if IsDigit(text[0]) || (text[0] == '-' && |text| >= 2 && IsDigit(text[1])) then Token(NUMBER, text)
    else if Keyword(text).Some? then Token(Keyword(text).value, text)
    else if Lower(text) == "true" || Lower(text) == "false" then Token(BOOL, Lower(text))
    else Token(IDENT, text)
  }

  function SkipSpace(s: string): (t: string)
    ensures |t| <= |s| && (t != "" ==> !IsSpace(t[0]))
  {
    s[Span(IsSpace, s)..]
  }

  /** The tokens of a text. */
  function Lex(s: string): Result<seq<Token>, SyntaxError>
    decreases |s|
  {
    var t := SkipSpace(s);
    if t == "" then Success([])
    else
      var n := LexemeLength(t);
      if n == 0 then Failure(RuleSyntaxError)
      else
        var rest :- Lex(t[n..]);
        Success([Classify(t[..n])] + rest)
  }

  /** Reads the source from left to right, one lexeme after another. */
  method Tokenize(source: string) returns (r: Result<seq<Token>, SyntaxError>)
    ensures r == Lex(source)
  {
    hide Classify, LexemeLength, Span;
    var tokens: seq<Token> := [];
    var index := 0;
    assert source[0..] == source && (Lex(source).Success? ==> [] + Lex(source).value == Lex(source).value);
    while index < |source|
      invariant 0 <= index <= |source|
      invariant Lex(source) ==
        if Lex(source[index..]).Failure? then Lex(source[index..]) else Success(tokens + Lex(source[index..]).value)
    {
      var rest := SkipSpace(source[index..]);
      if rest == "" { break; }
      var n := LexemeLength(rest);
      if n == 0 { return Failure(RuleSyntaxError); }
      ghost var following := Lex(rest[n..]);
      assert following.Success? ==>
        tokens + ([Classify(rest[..n])] + following.value) == (tokens + [Classify(rest[..n])]) + following.value;
      index := |source| - |rest| + n;
      assert source[index..] == rest[n..];
      tokens := tokens + [Classify(rest[..n])];
    }
    assert Lex(source[index..]) == Success([]) && tokens + [] == tokens;
    return Success(tokens);
  }

  // ---------- What the tokenizer accepts ----------

  predicate IsIdentifier(s: string) {
    s != "" && IsLetter(s[0]) && forall i :: 0 <= i < |s| ==> IsWord(s[i])
  }

  predicate IsReserved(s: string) {
    Lower(s) in {"and", "or", "not", "true", "false"}
  }

  /** Sign, at least one digit, and possibly a point with at least one digit behind it. */
  predicate IsNumber(s: string) {
    exists sign, whole :: 0 <= sign <= 1 && sign < whole <= |s| && IsNumberAt(s, sign, whole)
  }

  predicate IsNumberAt(s: string, sign: nat, whole: nat)
    requires sign <= whole <= |s| && sign <= 1
  {
    && (sign == 1 ==> s[0] == '-')
    && (forall i :: sign <= i < whole ==> IsDigit(s[i]))
    && (whole < |s| ==> s[whole] == '.' && whole + 1 < |s| && forall i :: whole < i < |s| ==> IsDigit(s[i]))
  }

  /** The text of a token is what its kind promises. */
  predicate Wellspelt(t: Token) {
    match t.kind
    case IDENT => IsIdentifier(t.text) && !IsReserved(t.text)
    case NUMBER => IsNumber(t.text)
    case STRING => forall i :: 0 <= i < |t.text| ==> NotQuote(t.text[i])
    case BOOL => t.text == "true" || t.text == "false"
    case OP => t.text in OPERATORS
    case LPAREN => t.text == "("
    case RPAREN => t.text == ")"
    case AND => Lower(t.text) == "and"
    case OR => Lower(t.text) == "or"
    case NOT => Lower(t.text) == "not"
  }

  lemma LexemeIsWellspelt(s: string)
    requires s != "" && LexemeLength(s) > 0
    ensures Wellspelt(Classify(s[..LexemeLength(s)]))
  {
    var n := LexemeLength(s);
    var text := s[..n];
    if |s| >= 2 && s[..2] in [">=", "<=", "==", "!="] {
      assert text == s[..2];
    } else if s[0] in ['>', '<', '(', ')'] {
      assert text == [s[0]];
    } else if s[0] == '\'' {
      assert forall i :: 1 <= i < n - 1 ==> s[i] == s[1..][i - 1];
      QuotedIsWellspelt(text);
    } else if IsLetter(s[0]) {
      assert forall i :: 1 <= i < n ==> s[i] == s[1..][i - 1];
      WordIsWellspelt(text);
    } else {
      NumberIsWellspelt(s);
    }
  }

  lemma QuotedIsWellspelt(text: string)
    requires |text| >= 2 && text[0] == '\'' && forall i :: 1 <= i < |text| - 1 ==> NotQuote(text[i])
    ensures Wellspelt(Classify(text))
  {
    hide IsNumber, Lower, Keyword;
    var inner := text[1..|text| - 1];
    assert Classify(text) == Token(STRING, inner);
    assert forall i :: 0 <= i < |inner| ==> inner[i] == text[i + 1];
  }

  lemma WordIsWellspelt(text: string)
    requires text != "" && IsLetter(text[0]) && forall i :: 1 <= i < |text| ==> IsWord(text[i])
    ensures Wellspelt(Classify(text))
  {
    hide IsNumber;
    assert IsIdentifier(text);
  }

  lemma NumberIsWellspelt(s: string)
    requires NumberLength(s) > 0
    ensures IsNumber(s[..NumberLength(s)])
    ensures IsDigit(s[0]) || (s[0] == '-' && NumberLength(s) >= 2 && IsDigit(s[1]))
  {
    var n := NumberLength(s);
    var sign := if s != "" && s[0] == '-' then 1 else 0;
    var whole := sign + Span(IsDigit, s[sign..]);
    assert forall i :: sign <= i < whole ==> s[i] == s[sign..][i - sign];
    assert forall i :: whole < i < n ==> s[i] == s[whole + 1..][i - whole - 1];
    assert IsNumberAt(s[..n], sign, whole);
    assert s[sign] == s[sign..][0];
  }

  /** Every token the tokenizer produces is spelt as its kind promises. */
  lemma {:induction false} LexIsWellspelt(s: string)
    requires Lex(s).Success?
    ensures forall t :: t in Lex(s).value ==> Wellspelt(t)
    decreases |s|
  {
    var t := SkipSpace(s);
    if t != "" {
      LexemeIsWellspelt(t);
      LexIsWellspelt(t[LexemeLength(t)..]);
    }
  }

  // ---------- Which lexemes ----------

  predicate IsQuoted(s: string) {
    && |s| >= 2 && s[0] == '\'' && s[|s| - 1] == '\''
    && forall i :: 1 <= i < |s| - 1 ==> s[i] != '\''
  }

  /** An operator, a parenthesis, a quoted text, a number or a word. */
  predicate IsLexeme(s: string) {
    s in {">=", "<=", "==", "!=", ">", "<", "(", ")"} || IsQuoted(s) || IsNumber(s) || IsIdentifier(s)
  }

  /** The tokenizer takes the longest lexeme at the front of a text, if there is one at all. */
  lemma LexemeIsTheLongest(s: string)
    ensures LexemeLength(s) > 0 ==> IsLexeme(s[..LexemeLength(s)])
    ensures forall m :: LexemeLength(s) < m <= |s| ==> !IsLexeme(s[..m])
  {
    if s == "" {
    } else if IsLetter(s[0]) {
      WordIsLongest(s);
    } else if IsDigit(s[0]) || s[0] == '-' {
      NumberIsLongest(s);
    } else if s[0] == '\'' {
      QuotedIsLongest(s);
    } else {
      SymbolIsLongest(s);
    }
  }

  lemma WordIsLongest(s: string)
    requires s != "" && IsLetter(s[0])
    ensures LexemeLength(s) > 0 && IsLexeme(s[..LexemeLength(s)])
    ensures forall m :: LexemeLength(s) < m <= |s| ==> !IsLexeme(s[..m])
  {
    var n := LexemeLength(s);
    assert forall i :: 1 <= i < n ==> s[i] == s[1..][i - 1];
    assert IsIdentifier(s[..n]);
    forall m | n < m <= |s| ensures !IsLexeme(s[..m]) {
      assert s[n] == s[1..][n - 1] && !IsWord(s[n]);
      assert s[..m][n] == s[n] && s[..m][0] == s[0];
    }
  }

  lemma NumberIsLongest(s: string)
    requires s != "" && (IsDigit(s[0]) || s[0] == '-')
    ensures LexemeLength(s) > 0 ==> IsLexeme(s[..LexemeLength(s)])
    ensures forall m :: LexemeLength(s) < m <= |s| ==> !IsLexeme(s[..m])
  {
    assert LexemeLength(s) == NumberLength(s);
    if NumberLength(s) > 0 { NumberIsWellspelt(s); }
    forall m | NumberLength(s) < m <= |s| ensures !IsLexeme(s[..m]) {
      assert s[..m][0] == s[0];
      if IsNumber(s[..m]) {
        var sign, whole :| 0 <= sign <= 1 && sign < whole <= m && IsNumberAt(s[..m], sign, whole);
        NumberReachesThere(s, m, sign, whole);
      }
    }
  }

  lemma NumberReachesThere(s: string, m: nat, sign: nat, whole: nat)
    requires m <= |s| && sign <= 1 && sign < whole <= m && IsNumberAt(s[..m], sign, whole)
    ensures NumberLength(s) >= m
  {
    assert forall i :: 0 <= i < m ==> s[..m][i] == s[i];
    assert sign == if s[0] == '-' then 1 else 0;
    SpanReaches(s[sign..], whole - sign);
    if whole < m {
      assert s[whole] == '.';
      assert Span(IsDigit, s[sign..]) == whole - sign;
      SpanReaches(s[whole + 1..], m - whole - 1);
    }
  }

  lemma SpanReaches(s: string, n: nat)
    requires n <= |s| && forall i :: 0 <= i < n ==> IsDigit(s[i])
    ensures Span(IsDigit, s) >= n
  {}

  lemma QuotedIsLongest(s: string)
    requires s != "" && s[0] == '\''
    ensures LexemeLength(s) > 0 ==> IsLexeme(s[..LexemeLength(s)])
    ensures forall m :: LexemeLength(s) < m <= |s| ==> !IsLexeme(s[..m])
  {
    var k := Span(NotQuote, s[1..]);
    assert forall i :: 1 <= i < |s| ==> s[i] == s[1..][i - 1];
    if k < |s[1..]| { assert IsQuoted(s[..k + 2]); }
    forall m | LexemeLength(s) < m <= |s| ensures !IsLexeme(s[..m]) {
      assert forall i :: 0 <= i < m ==> s[..m][i] == s[i];
      if m > 1 { assert k < |s[1..]| ==> s[..m][k + 1] == '\''; }
    }
  }

  lemma SymbolIsLongest(s: string)
    requires s != "" && !IsLetter(s[0]) && !IsDigit(s[0]) && s[0] != '-' && s[0] != '\''
    ensures LexemeLength(s) > 0 ==> IsLexeme(s[..LexemeLength(s)])
    ensures forall m :: LexemeLength(s) < m <= |s| ==> !IsLexeme(s[..m])
  {
    assert NumberLength(s) == 0;
    assert s[..1] == [s[0]];
    forall m | LexemeLength(s) < m <= |s| ensures !IsLexeme(s[..m]) {
      assert s[..m][0] == s[0];
      if m == 2 { assert s[..m] == s[..2]; }
    }
  }

  /** One lexeme and the white space before it. */
  datatype Piece = Piece(space: string, lexeme: string)

  function Joined(ps: seq<Piece>): string {
    if ps == [] then "" else ps[0].space + (ps[0].lexeme + Joined(ps[1..]))
  }

  predicate Blank(s: string) {
    forall i :: 0 <= i < |s| ==> IsSpace(s[i])
  }

  /** How a token is written: texts in quotes, truth values in any letter case, the rest as they are. */
  predicate WrittenAs(t: Token, lexeme: string) {
    match t.kind
    case STRING => lexeme == "'" + t.text + "'"
    case BOOL => Lower(lexeme) == t.text
    case _ => lexeme == t.text
  }

  /** Each piece is the longest lexeme where it stands, whatever follows the last of them. */
  ghost predicate LongestPieces(ps: seq<Piece>, rest: string) {
    ps != [] ==>
      && Blank(ps[0].space) && IsLexeme(ps[0].lexeme) && LongestPieces(ps[1..], rest)
      && var following := Joined(ps[1..]) + rest;
         forall m :: 0 < m <= |following| ==> !IsLexeme(ps[0].lexeme + following[..m])
  }

  /** The tokenizer reads a text to the end: white space apart, it is the longest lexemes one after
      another, each of them one token. It gives up exactly where no lexeme starts. */
  lemma {:induction false} LexReadsTheText(s: string) returns (ps: seq<Piece>, space: string, rest: string)
    ensures s == Joined(ps) + (space + rest) && Blank(space) && LongestPieces(ps, space + rest)
    ensures rest != "" ==> rest[0] !in " \t\n\r"
    ensures Lex(s).Success? <==> rest == ""
    ensures Lex(s).Success? ==> |ps| == |Lex(s).value| && forall i :: 0 <= i < |ps| ==> WrittenAs(Lex(s).value[i], ps[i].lexeme)
    ensures Lex(s).Failure? ==> forall m :: 0 < m <= |rest| ==> !IsLexeme(rest[..m])
    decreases |s|
  {
    LexStep(s);
    hide *;
    var t := SkipSpace(s);
    space := SpaceBefore(s);
    ps, rest := [], t;
    LexemeIsTheLongest(t);
    NoPieces(space + rest);
    var n := LexemeLength(t);
    if n > 0 {
      var following, gap;
      following, gap, rest := LexReadsTheText(t[n..]);
      LexemeIsWritten(t[..n]);
      OneMorePiece(space, t, n, following, gap + rest);
      ps := [Piece(space, t[..n])] + following;
      assert space + t == s;
      space := gap;
    }
  }

  lemma LexStep(s: string)
    ensures var t := SkipSpace(s);
      var n := LexemeLength(t);
      && (t == "" ==> Lex(s) == Success([]))
      && (t != "" && n == 0 ==> Lex(s).Failure?)
      && (n > 0 ==> Lex(s).Success? == Lex(t[n..]).Success?)
      && (n > 0 && Lex(s).Success? ==> Lex(s).value == [Classify(t[..n])] + Lex(t[n..]).value)
  {
    hide Classify, LexemeLength, Span;
  }

  lemma NoPieces(rest: string)
    ensures Joined([]) == "" && LongestPieces([], rest)
  {}

  lemma SpaceBefore(s: string) returns (space: string)
    ensures s == space + SkipSpace(s) && Blank(space)
    ensures SkipSpace(s) != "" ==> SkipSpace(s)[0] !in " \t\n\r"
  {
    space := s[..|s| - |SkipSpace(s)|];
  }

  lemma OneMorePiece(space: string, t: string, n: nat, following: seq<Piece>, rest: string)
    requires 0 < n <= |t| && t[n..] == Joined(following) + rest && LongestPieces(following, rest)
    requires Blank(space) && IsLexeme(t[..n]) && forall m :: n < m <= |t| ==> !IsLexeme(t[..m])
    ensures var ps := [Piece(space, t[..n])] + following;
      space + t == Joined(ps) + rest && LongestPieces(ps, rest)
  {
    hide Blank, IsLexeme;
    var ps := [Piece(space, t[..n])] + following;
    assert ps[1..] == following && t == t[..n] + t[n..];
    forall m | 0 < m <= |t[n..]| ensures !IsLexeme(t[..n] + t[n..][..m]) {
      assert t[..n] + t[n..][..m] == t[..n + m];
    }
  }

  lemma LexemeIsWritten(text: string)
    requires IsLexeme(text)
    ensures text != "" && WrittenAs(Classify(text), text)
  {
    if text[0] == '\'' {
      assert IsQuoted(text);
      assert text == "'" + text[1..|text| - 1] + "'";
      hide Lower, Keyword, IsLetter, IsDigit, IsWord;
    }
  }
}
