/** Which texts are tokens. */
module ExpressionTokens {
  import opened Options
  import opened Text
  import opened Expressions
  import opened ExpressionLexer

  const OPERATORS: set<string> := {
    "===", "!==", "&&", "||", "==", "!=", ">=", "<=", "+", "-", "*", "/", "%", ">", "<", "!"}

  /** The longest operator that the text starts with is read, if there is one, whatever follows. */
  lemma LongestOperatorIsRead(s: string, n: nat)
    requires 0 < n <= |s| && s[..n] in OPERATORS
    requires forall k :: n < k <= |s| ==> s[..k] !in OPERATORS
    ensures NextLexeme(s) == Some((Lexeme(Operator, s[..n]), n))
  {
    if |s| >= 2 { assert s[..2] == [s[0], s[1]]; }
    if |s| >= 3 { assert s[..3] == [s[0], s[1], s[2]]; }
    assert s[..1] == [s[0]];
    assert n <= 3;
  }

  /** And nothing else is an operator. */
  lemma OnlyOperatorsAreRead(s: string)
    requires NextLexeme(s).Some? && NextLexeme(s).value.0.kind == Operator
    ensures NextLexeme(s).value.0.text in OPERATORS
  {
    if |s| >= 2 { assert s[..2] == [s[0], s[1]]; }
    if |s| >= 3 { assert s[..3] == [s[0], s[1], s[2]]; }
    assert s[..1] == [s[0]];
  }

  // ----- names and numbers -----

  predicate AllDigits(s: string) {
    forall k :: 0 <= k < |s| ==> '0' <= s[k] <= '9'
  }

  /** A letter, $ or _, and then any number of these and of digits. */
  predicate IsName(s: string) {
    && s != "" && !('0' <= s[0] <= '9')
    && forall k :: 0 <= k < |s| ==>
      s[k] == '$' || s[k] == '_' || 'A' <= s[k] <= 'Z' || 'a' <= s[k] <= 'z' || '0' <= s[k] <= '9'
  }

  predicate IsExponent(s: string) {
    && |s| >= 2 && (s[0] == 'e' || s[0] == 'E')
    && (AllDigits(s[1..]) || (|s| >= 3 && (s[1] == '+' || s[1] == '-') && AllDigits(s[2..])))
  }

  /** Digits, perhaps a point and more digits, perhaps an exponent. */
  ghost predicate IsNumberCut(s: string, i: nat, j: nat) {
    && 0 < i <= j <= |s| && AllDigits(s[..i])
    && (i == j || (s[i] == '.' && AllDigits(s[i + 1..j])))
    && (j == |s| || IsExponent(s[j..]))
  }

  ghost predicate IsNumber(s: string) {
    exists i, j :: IsNumberCut(s, i, j)
  }

  /** The run ends at the first character that is not a digit. */
  lemma {:induction false} DigitRunEnds(s: string, n: nat)
    requires n <= |s| && AllDigits(s[..n]) && (n == |s| || !('0' <= s[n] <= '9'))
    ensures DigitRun(s) == n
    decreases n
  {
    if n == 0 {
    } else {
      assert s[0] == s[..n][0];
      assert s[1..][..n - 1] == s[..n][1..];
      DigitRunEnds(s[1..], n - 1);
    }
  }

  lemma {:induction false} DigitRunIsDigits(s: string)
    ensures AllDigits(s[..DigitRun(s)]) && (DigitRun(s) == |s| || !('0' <= s[DigitRun(s)] <= '9'))
    decreases |s|
  {
    if s == [] {
    } else {
      if IsDigit(s[0]) {
        DigitRunIsDigits(s[1..]);
        assert s[..DigitRun(s)] == [s[0]] + s[1..][..DigitRun(s[1..])];
      }
    }
  }

  lemma {:induction false} NameRunIsWhole(s: string)
    ensures IdentifierRun(s) == |s| <==> forall k :: 0 <= k < |s| ==> ContinuesIdentifier(s[k])
    decreases |s|
  {
    if s == [] {
    } else {
      NameRunIsWhole(s[1..]);
      assert forall k :: 0 < k < |s| ==> s[k] == s[1..][k - 1];
      assert forall k :: 0 <= k < |s| - 1 ==> s[1..][k] == s[k + 1];
    }
  }

  lemma ExponentIsRead(s: string)
    requires IsExponent(s)
    ensures ExponentLength(s) == |s|
  {
    var sign := if s[1] == '+' || s[1] == '-' then 1 else 0;
    assert AllDigits(s[1 + sign..]) by {
      if AllDigits(s[1..]) { assert s[1..][0] == s[1]; }
    }
    assert s[1 + sign..][..|s| - 1 - sign] == s[1 + sign..];
    DigitRunEnds(s[1 + sign..], |s| - 1 - sign);
  }

  lemma ReadExponentIsOne(s: string)
    requires ExponentLength(s) > 0
    ensures IsExponent(s[..ExponentLength(s)])
  {
    var sign := if |s| >= 2 && (s[1] == '+' || s[1] == '-') then 1 else 0;
    var text, digits := s[..ExponentLength(s)], DigitRun(s[1 + sign..]);
    DigitRunIsDigits(s[1 + sign..]);
    assert text[1 + sign..] == s[1 + sign..][..digits];
  }

  /** A number literal is read to its end. */
  lemma NumberIsRead(s: string, i: nat, j: nat)
    requires IsNumberCut(s, i, j)
    ensures NumberLength(s) == |s|
  {
    DigitRunEnds(s, i);
    FractionIsRead(s, i, j);
    if j < |s| { ExponentIsRead(s[j..]); }
  }

  lemma FractionIsRead(s: string, i: nat, j: nat)
    requires IsNumberCut(s, i, j)
    ensures FractionLength(s[i..]) == j - i
  {
    if i < j {
      var t := s[i..][1..];
      assert t == s[i + 1..] && t[..j - i - 1] == s[i + 1..j];
      assert j < |s| ==> t[j - i - 1] == s[j];
      DigitRunEnds(t, j - i - 1);
    } else {
      assert i < |s| ==> s[i..][0] == s[i] && s[i] != '.';
    }
  }

  lemma ReadNumberIsOne(s: string)
    requires NumberLength(s) > 0
    ensures IsNumber(s[..NumberLength(s)])
  {
    var i := DigitRun(s);
    var j := i + FractionLength(s[i..]);
    DigitRunIsDigits(s);
    ReadFractionIsOne(s[i..]);
    if ExponentLength(s[j..]) > 0 { ReadExponentIsOne(s[j..]); }
    PartsMakeANumber(s, i, j, NumberLength(s));
  }

  lemma PartsMakeANumber(s: string, i: nat, j: nat, n: nat)
    requires 0 < i <= j <= n <= |s| && AllDigits(s[..i])
    requires i < j ==> s[i..][0] == '.' && AllDigits(s[i..][1..j - i])
    requires j < n ==> IsExponent(s[j..][..n - j])
    ensures IsNumber(s[..n])
  {
    var text := s[..n];
    assert text[..i] == s[..i];
    if i < j { SameSlice(s, i, j, n); }
    assert text[j..] == s[j..][..n - j];
    assert IsNumberCut(text, i, j);
  }

  lemma SameSlice(s: string, i: nat, j: nat, n: nat)
    requires i < j <= n <= |s|
    ensures s[..n][i] == s[i..][0] && s[..n][i + 1..j] == s[i..][1..j - i]
  {
    assert s[..n][i + 1..j] == s[i + 1..j];
  }

  lemma ReadFractionIsOne(s: string)
    ensures FractionLength(s) > 0 ==> s[0] == '.' && AllDigits(s[1..FractionLength(s)])
  {
    if s != "" {
      DigitRunIsDigits(s[1..]);
      assert s[1..1 + DigitRun(s[1..])] == s[1..][..DigitRun(s[1..])];
    }
  }

  // ----- the language of tokens -----

  /** The tokens that can be written, kind by kind; a text in quotes may have any characters. */
  ghost predicate IsToken(t: Lexeme) {
    match t.kind
    case Operator => t.text in OPERATORS
    case Punctuation => t.text in {"(", ")", ".", "[", "]"}
    case Identifier => IsName(t.text)
    case Number => IsNumber(t.text)
    case String => true
    case Eof => false
  }

  /** The lexer's own tokens are these. */
  lemma WellSpelledAreTheTokens(t: Lexeme)
    ensures WellSpelled(t) <==> IsToken(t)
  {
    var s := t.text;
    match t.kind
    case Operator => OperatorTexts(s);
    case Identifier => NameTexts(s);
    case Number =>
      assert s[..|s|] == s;
      if NumberLength(s) == |s| > 0 { ReadNumberIsOne(s); }
      if i, j :| IsNumberCut(s, i, j) { NumberIsRead(s, i, j); }
    case Punctuation => PunctuationTexts(s);
    case _ =>
  }

  lemma OperatorTexts(s: string)
    ensures s != "" && OperatorLength(s) == |s| <==> s in OPERATORS
  {
    if |s| == 1 { assert s == [s[0]]; }
    if |s| == 2 { assert s == [s[0], s[1]]; }
    if |s| == 3 { assert s == [s[0], s[1], s[2]]; }
  }

  lemma PunctuationTexts(s: string)
    ensures |s| == 1 && IsPunctuation(s[0]) <==> s in {"(", ")", ".", "[", "]"}
  {
    if |s| == 1 { assert s == [s[0]]; }
  }

  lemma NameTexts(s: string)
    ensures s != "" && StartsIdentifier(s[0]) && IdentifierRun(s) == |s| <==> IsName(s)
  {
    NameRunIsWhole(s);
  }

  /** Up to 512 tokens of the language, a space after each, are read as these tokens. */
  lemma EveryTokenIsRead(tokens: seq<Lexeme>)
    requires |tokens| <= 512 && forall t :: t in tokens ==> IsToken(t)
    ensures Tokens(Render(tokens)) == Some(tokens + [Lexeme(Eof, "")])
  {
    forall t | t in tokens ensures WellSpelled(t) { WellSpelledAreTheTokens(t); }
    RenderLexRoundTrip(tokens);
  }

  lemma {:induction false} NameRunIsAName(s: string)
    requires s != "" && StartsIdentifier(s[0])
    ensures IsName(s[..IdentifierRun(s)])
    decreases |s|
  {
    var name, rest := s[..IdentifierRun(s)], s[1..];
    assert name == [s[0]] + rest[..IdentifierRun(rest)];
    RunContinues(rest);
  }

  lemma {:induction false} RunContinues(s: string)
    ensures forall k :: 0 <= k < IdentifierRun(s) ==> ContinuesIdentifier(s[k])
    decreases |s|
  {
    if s == [] || !ContinuesIdentifier(s[0]) {
    } else {
      RunContinues(s[1..]);
      forall k | 0 < k < IdentifierRun(s) ensures ContinuesIdentifier(s[k]) {
        assert s[k] == s[1..][k - 1];
      }
    }
  }

  lemma ReadTokenIsOne(s: string)
    requires NextLexeme(s).Some?
    ensures IsToken(NextLexeme(s).value.0)
  {
    match NextLexeme(s).value.0.kind
    case Operator => OnlyOperatorsAreRead(s);
    case Punctuation => PunctuationTexts(s[..1]);
    case Number => ReadNumberIsOne(s);
    case Identifier => NameRunIsAName(s);
    case _ =>
  }

  ghost predicate ReadsTokens(next: Recogniser) {
    forall s :: next(s).Some? ==> IsToken(next(s).value.0)
  }

  lemma {:induction false} LexReadsTokens(next: Recogniser, s: string)
    requires ReadsTokens(next) && Lex(next, s).Some?
    ensures forall t :: t in Lex(next, s).value ==> t == Lexeme(Eof, "") || IsToken(t)
    decreases |s|
  {
    if s == [] {
    } else if IsSpace(s[0]) {
      LexReadsTokens(next, s[1..]);
    } else {
      LexReadsTokens(next, s[next(s).value.1..]);
    }
  }

  /** Only tokens of the language are read from a text, and at most 512 of them. */
  lemma OnlyTokensAreRead(text: string)
    requires Tokens(text).Some?
    ensures forall t :: t in Tokens(text).value ==> t == Lexeme(Eof, "") || IsToken(t)
    ensures |Tokens(text).value| <= 513
  {
    forall s | NextLexeme(s).Some? ensures IsToken(NextLexeme(s).value.0) { ReadTokenIsOne(s); }
    LexReadsTokens(NextLexeme, text);
  }

  /** A text longer than 1000 characters has no value, whatever it says. */
  lemma LongTextsAreRefused(host: Host, context: Context, text: string)
    requires |text| > 1000
    ensures Meaning(host, context, text) == None
  {
  }

  // ----- texts in quotes, and blanks -----

  lemma {:induction false} BodyIsRead(value: string, quote: char, rest: string)
    requires quote !in value && '\\' !in value && quote != '\\'
    ensures StringBody(value + ([quote] + rest), quote) == Some((value, |value| + 1))
    ensures StringBody(value, quote) == None
    decreases |value|
  {
    var s := value + ([quote] + rest);
    if value == "" {
      assert s == [quote] + rest;
    } else {
      assert s[1..] == value[1..] + ([quote] + rest) && s[0] == value[0] && value[0] in value;
      assert forall c :: c in value[1..] ==> c in value;
      BodyIsRead(value[1..], quote, rest);
      assert value == [value[0]] + value[1..];
    }
  }

  lemma QuoteStartsAText(s: string)
    requires s != "" && (s[0] == '"' || s[0] == '\'')
    ensures NextLexeme(s) == match StringBody(s[1..], s[0])
      case None => None
      case Some((value, n)) => Some((Lexeme(String, value), n + 1))
  {
  }

  /** Either kind of quotes holds a text up to the next one of that kind, and has to be closed. */
  lemma QuotedTextIsRead(quote: char, value: string, rest: string)
    requires (quote == '"' || quote == '\'') && quote !in value && '\\' !in value
    ensures NextLexeme([quote] + (value + ([quote] + rest))) == Some((Lexeme(String, value), |value| + 2))
    ensures NextLexeme([quote] + value) == None
  {
    BodyIsRead(value, quote, rest);
    var s, open := [quote] + (value + ([quote] + rest)), [quote] + value;
    assert s[1..] == value + ([quote] + rest) && open[1..] == value;
    QuoteStartsAText(s);
    QuoteStartsAText(open);
  }

  /** The escapes are those of line feed, carriage return, tab, backslash and the two quotes. */
  lemma SixEscapes(c: char)
    ensures NextLexeme(['"', '\\', c, '"']) ==
      if c == 'n' then Some((Lexeme(String, "\n"), 4))
      else if c == 'r' then Some((Lexeme(String, "\r"), 4))
      else if c == 't' then Some((Lexeme(String, "\t"), 4))
      else if c == '\\' || c == '"' || c == '\'' then Some((Lexeme(String, [c]), 4))
      else None
  {
    var s, body := ['"', '\\', c, '"'], ['\\', c, '"'];
    QuoteStartsAText(s);
    assert s[1..] == body && body[2..] == ['"'] && ['"'][1..] == "";
    assert StringBody(['"'], '"') == Some(("", 1));
    assert StringBody(body, '"') == if Unescaped(c).None? then None else Some(([Unescaped(c).value] + "", 3));
    assert Unescaped(c).Some? ==> [Unescaped(c).value] + "" == [Unescaped(c).value];
  }

  /** The blanks of JavaScript, which separate tokens. */
  const BLANKS: set<char> := {
    '\t', '\n', '\U{0B}', '\U{0C}', '\r', ' ', '\U{A0}', '\U{1680}',
    '\U{2000}', '\U{2001}', '\U{2002}', '\U{2003}', '\U{2004}', '\U{2005}', '\U{2006}', '\U{2007}', '\U{2008}',
    '\U{2009}', '\U{200A}', '\U{2028}', '\U{2029}', '\U{202F}', '\U{205F}', '\U{3000}', '\U{FEFF}'}

  lemma BlanksAreSkipped(c: char)
    ensures Tokens([c]) == Some([Lexeme(Eof, "")]) <==> c in BLANKS
  {
    assert IsSpace(c) <==> c in BLANKS;
    OneCharacter(NextLexeme, c);
  }

  lemma OneCharacter(next: Recogniser, c: char)
    ensures Lex(next, [c]) == Some([Lexeme(Eof, "")]) <==> IsSpace(c)
  {
    assert [c][1..] == "";
    if !IsSpace(c) && Lex(next, [c]).Some? { LexIsNotEmpty(next, [c][next([c]).value.1..]); }
  }
}
