/** From the text of an expression to tokens, and the evaluation of a text. */
module ExpressionLexer {
  import opened Options
  import opened Text
  import opened Expressions
  import ExpressionParser

  const MAX_EXPRESSION_LENGTH: nat := 1000
  const MAX_TOKENS: nat := 512

  predicate IsDigit(c: char) {
    '0' <= c <= '9'
  }

  predicate StartsIdentifier(c: char) {
    c == '$' || c == '_' || 'A' <= c <= 'Z' || 'a' <= c <= 'z'
  }

  predicate ContinuesIdentifier(c: char) {
    StartsIdentifier(c) || IsDigit(c)
  }

  predicate IsQuote(c: char) {
    c == '"' || c == '\''
  }

  predicate IsSingleOperator(c: char) {
    c == '+' || c == '-' || c == '*' || c == '/' || c == '%' || c == '>' || c == '<' || c == '!'
  }

  predicate IsPunctuation(c: char) {
    c == '(' || c == ')' || c == '.' || c == '[' || c == ']'
  }

  /** The length of the operator that s starts with, longest first; 0 when there is none. */
  function OperatorLength(s: string): (n: nat)
    ensures n <= |s|
  {
    if |s| >= 3 && (s[0] == '=' || s[0] == '!') && s[1] == '=' && s[2] == '=' then 3
    else if |s| >= 2 && s[0] == '&' && s[1] == '&' then 2
    else if |s| >= 2 && s[0] == '|' && s[1] == '|' then 2
    else if |s| >= 2 && (s[0] == '=' || s[0] == '!' || s[0] == '>' || s[0] == '<') && s[1] == '=' then 2
    else if |s| >= 1 && IsSingleOperator(s[0]) then 1
    else 0
  }

  function DigitRun(s: string): (n: nat)
    ensures n <= |s|
  {
    if s == [] || !IsDigit(s[0]) then 0 else 1 + DigitRun(s[1..])
  }

  /** An exponent needs at least one digit; otherwise its letter is not part of the number. */
  function ExponentLength(s: string): (n: nat)
    ensures n <= |s|
  {
    if s == [] || (s[0] != 'e' && s[0] != 'E') then 0
    else
      var sign := if |s| >= 2 && (s[1] == '+' || s[1] == '-') then 1 else 0;
      var digits := DigitRun(s[1 + sign..]);
      if digits == 0 then 0 else 1 + sign + digits
  }

  function FractionLength(s: string): (n: nat)
    ensures n <= |s|
  {
    if s == [] || s[0] != '.' then 0 else 1 + DigitRun(s[1..])
  }

  /** The number literal that s starts with. A leading dot never gets here: it is punctuation. */
  function NumberLength(s: string): (n: nat)
    ensures n <= |s|
  {
    var whole := DigitRun(s);
    if whole == 0 then 0
    else
      var fraction := FractionLength(s[whole..]);
      whole + fraction + ExponentLength(s[whole + fraction..])
  }

  function IdentifierRun(s: string): (n: nat)
    ensures n <= |s|
  {
    if s == [] || !ContinuesIdentifier(s[0]) then 0 else 1 + IdentifierRun(s[1..])
  }

  function Unescaped(c: char): Option<char> {
    if c == 'n' then Some('\n')
    else if c == 'r' then Some('\r')
    else if c == 't' then Some('\t')
    else if c == '\\' || c == '"' || c == '\'' then Some(c)
    else None
  }

  /** The value of a string body up to its closing quote, and how much text that takes, the quote included. */
  function StringBody(s: string, quote: char): (r: Option<(string, nat)>)
    ensures r.Some? ==> 0 < r.value.1 <= |s|
  {
    if s == [] then None
    else if s[0] == quote then Some(("", 1))
    else if s[0] == '\\' then
      if |s| < 2 || Unescaped(s[1]).None? then None
      else
        match StringBody(s[2..], quote)
        case None => None
        case Some((rest, n)) => Some(([Unescaped(s[1]).value] + rest, n + 2))
    else
      match StringBody(s[1..], quote)
      case None => None
      case Some((rest, n)) => Some(([s[0]] + rest, n + 1))
  }

  /** The lexeme at the start of s, which is not a space, and its length in the text. */
  function NextLexeme(s: string): (r: Option<(Lexeme, nat)>)
    ensures r.Some? ==> 0 < r.value.1 <= |s| && r.value.0.kind != Eof
  {
    if s == [] then None
    else if OperatorLength(s) > 0 then Some((Lexeme(Operator, s[..OperatorLength(s)]), OperatorLength(s)))
    else if IsPunctuation(s[0]) then Some((Lexeme(Punctuation, s[..1]), 1))
    else if IsQuote(s[0]) then
      match StringBody(s[1..], s[0])
      case None => None
      case Some((value, n)) => Some((Lexeme(String, value), n + 1))
    else if NumberLength(s) > 0 then Some((Lexeme(Number, s[..NumberLength(s)]), NumberLength(s)))
    else if StartsIdentifier(s[0]) then Some((Lexeme(Identifier, s[..IdentifierRun(s)]), IdentifierRun(s)))
    else None
  }

  /** A recogniser of the next lexeme. */
  type Recogniser = string -> Option<(Lexeme, nat)>

  /** All tokens of s, eof included, by repeated recognition. */
  ghost function Lex(next: Recogniser, s: string): (r: Option<seq<Lexeme>>)
    decreases |s|
  {
    if s == [] then Some([Lexeme(Eof, "")])
    else if IsSpace(s[0]) then Lex(next, s[1..])
    else
      var found := next(s);
      if found.None? || found.value.1 == 0 || found.value.1 > |s| then None
      else Prepend(found.value.0, Lex(next, s[found.value.1..]))
  }

  ghost function Prepend(t: Lexeme, rest: Option<seq<Lexeme>>): (r: Option<seq<Lexeme>>) {
    match rest case None => None case Some(ts) => Some([t] + ts)
  }

  lemma NothingBefore(body: Option<(string, nat)>)
    ensures body == match body
      case None => None
      case Some((rest, n)) => Some(("" + rest, n))
  {
    if body.Some? { assert "" + body.value.0 == body.value.0; }
  }

  method ScanString(text: string, start: nat) returns (r: Option<(string, nat)>)
    requires start < |text|
    ensures r == match StringBody(text[start + 1..], text[start])
      case None => None
      case Some((value, n)) => Some((value, start + 1 + n))
  {
    var quote := text[start];
    var index := start + 1;
    var value := "";
    NothingBefore(StringBody(text[start + 1..], quote));
    while index < |text|
      invariant start < index <= |text|
      invariant StringBody(text[start + 1..], quote) ==
        match StringBody(text[index..], quote)
        case None => None
        case Some((rest, n)) => Some((value + rest, index - start - 1 + n))
      decreases |text| - index
    {
      var current := text[index];
      assert text[index..][0] == current;
      assert text[index..][1..] == text[index + 1..];
      if current == quote {
        assert value + "" == value;
        return Some((value, index + 1));
      }
      if current == '\\' {
        if index + 1 == |text| { return None; }
        assert text[index..][2..] == text[index + 2..];
        var escaped := Unescaped(text[index + 1]);
        if escaped.None? { return None; }
        AppendBefore(value, escaped.value, text[index + 2..], quote);
        value := value + [escaped.value];
        index := index + 2;
      } else {
        AppendBefore(value, current, text[index + 1..], quote);
        value := value + [current];
        index := index + 1;
      }
    }
    r := None;
  }

  lemma AppendBefore(value: string, c: char, rest: string, quote: char)
    ensures StringBody(rest, quote).Some? ==>
      value + ([c] + StringBody(rest, quote).value.0) == value + [c] + StringBody(rest, quote).value.0
  {
  }

  /** The tokens of a text; None is a thrown error. */
  ghost function Tokens(text: string): Option<seq<Lexeme>> {
    Limited(Lex(NextLexeme, text))
  }

  /** The limit does not count eof. */
  ghost function Limited(tokens: Option<seq<Lexeme>>): Option<seq<Lexeme>> {
    if tokens.Some? && |tokens.value| - 1 <= MAX_TOKENS then tokens else None
  }

  /** Fails on an unknown token, an unterminated string, a bad escape or too many tokens. */
  method Tokenize(text: string) returns (r: Option<seq<Lexeme>>)
    ensures r == Tokens(text)
  {
    r := LexLoop(text, NextLexeme);
  }

  /** next recognises what NextLexeme does. */
  ghost predicate IsTheLexer(next: Recogniser) {
    forall s {:trigger NextLexeme(s)} :: next(s) == NextLexeme(s)
  }

  method LexLoop(text: string, ghost next: Recogniser) returns (r: Option<seq<Lexeme>>)
    requires IsTheLexer(next)
    ensures r == Limited(Lex(next, text))
  {
    var tokens: seq<Lexeme> := [];
    var index := 0;
    ghost var whole := StartLexing(next, text);
    while index < |text|
      invariant LexedSoFar(next, text, index, tokens, whole)
    {
      var more;
      more, index, tokens := LexOne(text, index, tokens, next, whole);
      if !more { return None; }
    }
    r := Some(tokens + [Lexeme(Eof, "")]);
  }

  /** Steps over a space or takes one token; there is no more when the text or its length is at fault. */
  method LexOne(text: string, index: nat, tokens: seq<Lexeme>, ghost next: Recogniser,
      ghost whole: Option<seq<Lexeme>>)
    returns (more: bool, index': nat, tokens': seq<Lexeme>)
    requires IsTheLexer(next) && index < |text| && LexedSoFar(next, text, index, tokens, whole)
    ensures more ==> LexedSoFar(next, text, index', tokens', whole) && index < index'
    ensures !more ==> Limited(whole).None?
  {
    if IsSpace(text[index]) {
      return true, index + 1, tokens;
    }
    var found := ScanLexeme(text, index, next);
    if found.None? {
      return false, index, tokens;
    }
    var (lexeme, n) := found.value;
    TakeLexeme(next, text, index, lexeme, n, tokens, whole);
    index', tokens' := index + n, tokens + [lexeme];
    more := |tokens'| <= MAX_TOKENS;
  }

  /** The tokens so far, and what is left of the text, make up the whole result. */
  ghost predicate LexedSoFar(next: Recogniser, text: string, index: nat,
      tokens: seq<Lexeme>, whole: Option<seq<Lexeme>>)
  {
    index <= |text| && |tokens| <= MAX_TOKENS && whole == Continue(tokens, Lex(next, text[index..]))
  }

  lemma StartLexing(next: Recogniser, text: string) returns (whole: Option<seq<Lexeme>>)
    ensures whole == Lex(next, text) && LexedSoFar(next, text, 0, [], whole)
  {
    whole := Lex(next, text);
    ContinueFromStart(whole);
    assert text[0..] == text;
  }

  lemma TakeLexeme(next: Recogniser, text: string, index: nat, lexeme: Lexeme, n: nat,
      tokens: seq<Lexeme>, whole: Option<seq<Lexeme>>)
    requires LexedSoFar(next, text, index, tokens, whole) && index < |text| && !IsSpace(text[index])
    requires n > 0 && index + n <= |text| && next(text[index..]) == Some((lexeme, n))
    ensures |tokens| < MAX_TOKENS ==> LexedSoFar(next, text, index + n, tokens + [lexeme], whole)
    ensures |tokens| == MAX_TOKENS ==> Limited(whole).None?
  {
    var from, rest := text[index..], text[index + n..];
    assert from[n..] == rest;
    ContinueFurther(tokens, lexeme, Lex(next, rest));
    LexIsNotEmpty(next, rest);
  }

  lemma {:induction false} LexIsNotEmpty(next: Recogniser, s: string)
    ensures Lex(next, s).Some? ==> |Lex(next, s).value| > 0
    decreases |s|
  {
    if s != [] && IsSpace(s[0]) { LexIsNotEmpty(next, s[1..]); }
  }

  ghost function Continue(tokens: seq<Lexeme>, rest: Option<seq<Lexeme>>): Option<seq<Lexeme>> {
    match rest case None => None case Some(ts) => Some(tokens + ts)
  }

  lemma ContinueFromStart(whole: Option<seq<Lexeme>>)
    ensures Continue([], whole) == whole
  {
    if whole.Some? { assert [] + whole.value == whole.value; }
  }

  lemma ContinueFurther(tokens: seq<Lexeme>, t: Lexeme, rest: Option<seq<Lexeme>>)
    ensures Continue(tokens + [t], rest) == Continue(tokens, Prepend(t, rest))
  {
    if rest.Some? { assert tokens + [t] + rest.value == tokens + ([t] + rest.value); }
  }

  method ScanLexeme(text: string, index: nat, ghost next: Recogniser) returns (r: Option<(Lexeme, nat)>)
    requires index < |text| && IsTheLexer(next)
    ensures r == next(text[index..])
    ensures r.Some? ==> 0 < r.value.1 <= |text| - index
  {
    var s := text[index..];
    if OperatorLength(s) == 0 && !IsPunctuation(s[0]) && IsQuote(s[0]) {
      assert s[1..] == text[index + 1..];
      var scanned := ScanString(text, index);
      assert NextLexeme(s).None? <==> scanned.None?;
      if scanned.None? { return None; }
      r := Some((Lexeme(String, scanned.value.0), scanned.value.1 - index));
    } else {
      r := NextLexeme(s);
    }
  }

  // ----- the tokens rebuild the text -----

  /** raw is a way to write the lexeme. */
  ghost predicate Writes(raw: string, lexeme: Lexeme) {
    if lexeme.kind == String then
      |raw| >= 2 && IsQuote(raw[0]) && StringBody(raw[1..], raw[0]) == Some((lexeme.text, |raw| - 1))
    else raw == lexeme.text
  }

  predicate AllBlank(text: string) {
    forall c :: c in text ==> IsSpace(c)
  }

  /** A stretch of the text: some blanks, then a written token. */
  datatype Piece = Piece(blank: string, raw: string)

  ghost function Flatten(pieces: seq<Piece>): string {
    if pieces == [] then "" else pieces[0].blank + pieces[0].raw + Flatten(pieces[1..])
  }

  /** The pieces hold the tokens in order; eof comes after the last blanks. */
  ghost predicate Hold(pieces: seq<Piece>, last: string, tokens: seq<Lexeme>)
    decreases |pieces|
  {
    if pieces == [] then AllBlank(last) && tokens == [Lexeme(Eof, "")]
    else
      && tokens != [] && AllBlank(pieces[0].blank) && Writes(pieces[0].raw, tokens[0])
      && Hold(pieces[1..], last, tokens[1..])
  }

  lemma {:induction false} StringBodyIsLocal(s: string, quote: char)
    requires StringBody(s, quote).Some?
    ensures StringBody(s[..StringBody(s, quote).value.1], quote) == StringBody(s, quote)
    decreases |s|
  {
    var n := StringBody(s, quote).value.1;
    if s[0] == quote {
    } else if s[0] == '\\' {
      StringBodyIsLocal(s[2..], quote);
      assert s[..n][2..] == s[2..][..n - 2];
    } else {
      StringBodyIsLocal(s[1..], quote);
      assert s[..n][1..] == s[1..][..n - 1];
    }
  }

  /** The text a recogniser consumes is a way to write the lexeme. */
  ghost predicate Faithful(next: Recogniser) {
    forall s :: next(s).Some? && next(s).value.1 <= |s| ==> Writes(s[..next(s).value.1], next(s).value.0)
  }

  lemma NextLexemeIsFaithful()
    ensures Faithful(NextLexeme)
  {
    forall s | NextLexeme(s).Some? ensures Writes(s[..NextLexeme(s).value.1], NextLexeme(s).value.0) {
      var n := NextLexeme(s).value.1;
      if NextLexeme(s).value.0.kind == String {
        StringBodyIsLocal(s[1..], s[0]);
        assert s[..n][1..] == s[1..][..n - 1];
      }
    }
  }

  lemma HoldStep(pieces: seq<Piece>, last: string, raw: string, lexeme: Lexeme, rest: Option<seq<Lexeme>>)
    requires rest.Some? && Hold(pieces, last, rest.value) && Writes(raw, lexeme)
    ensures Hold([Piece("", raw)] + pieces, last, Prepend(lexeme, rest).value)
    ensures Flatten([Piece("", raw)] + pieces) == raw + Flatten(pieces)
  {
    var longer, tokens := [Piece("", raw)] + pieces, Prepend(lexeme, rest).value;
    assert longer[1..] == pieces && tokens[1..] == rest.value;
    assert "" + raw == raw;
  }

  lemma HoldSpace(pieces: seq<Piece>, last: string, c: char, tokens: seq<Lexeme>)
    returns (pieces': seq<Piece>, last': string)
    requires Hold(pieces, last, tokens) && IsSpace(c)
    ensures Hold(pieces', last', tokens)
    ensures Flatten(pieces') + last' == [c] + (Flatten(pieces) + last)
  {
    if pieces == [] {
      pieces', last' := [], [c] + last;
      assert Flatten(pieces) + last == last && Flatten(pieces') + last' == last';
    } else {
      var first := Piece([c] + pieces[0].blank, pieces[0].raw);
      pieces', last' := [first] + pieces[1..], last;
      assert pieces'[1..] == pieces[1..];
      assert Flatten(pieces') == [c] + Flatten(pieces);
    }
  }

  /** A successful lexing loses nothing: blanks and written tokens, in order, rebuild the text. */
  lemma {:induction false} LexRebuilds(next: Recogniser, s: string) returns (pieces: seq<Piece>, last: string)
    requires Faithful(next) && Lex(next, s).Some?
    ensures s == Flatten(pieces) + last && Hold(pieces, last, Lex(next, s).value)
    decreases |s|
  {
    if s == [] {
      pieces, last := [], "";
    } else if IsSpace(s[0]) {
      pieces, last := LexRebuilds(next, s[1..]);
      pieces, last := HoldSpace(pieces, last, s[0], Lex(next, s[1..]).value);
      assert s == [s[0]] + s[1..];
    } else {
      var (lexeme, n) := next(s).value;
      pieces, last := LexRebuilds(next, s[n..]);
      pieces := PrependPiece(next, s, lexeme, n, pieces, last);
    }
  }

  lemma PrependPiece(next: Recogniser, s: string, lexeme: Lexeme, n: nat, pieces: seq<Piece>, last: string)
    returns (longer: seq<Piece>)
    requires Faithful(next) && s != [] && !IsSpace(s[0]) && 0 < n <= |s| && next(s) == Some((lexeme, n))
    requires Lex(next, s).Some? && s[n..] == Flatten(pieces) + last && Hold(pieces, last, Lex(next, s[n..]).value)
    ensures s == Flatten(longer) + last && Hold(longer, last, Lex(next, s).value)
  {
    HoldStep(pieces, last, s[..n], lexeme, Lex(next, s[n..]));
    longer := [Piece("", s[..n])] + pieces;
    Regroup(s, s[..n], Flatten(pieces), last, n);
  }

  lemma Regroup(s: string, raw: string, middle: string, last: string, n: nat)
    requires n <= |s| && raw == s[..n] && s[n..] == middle + last
    ensures s == raw + middle + last
  {
    assert s == s[..n] + s[n..];
  }

  lemma TokensRebuildTheText(text: string) returns (pieces: seq<Piece>, last: string)
    requires Tokens(text).Some?
    ensures text == Flatten(pieces) + last && Hold(pieces, last, Tokens(text).value)
    ensures |pieces| <= 512
  {
    NextLexemeIsFaithful();
    pieces, last := LexRebuilds(NextLexeme, text);
    HoldCounts(pieces, last, Tokens(text).value);
  }

  lemma {:induction false} HoldCounts(pieces: seq<Piece>, last: string, tokens: seq<Lexeme>)
    requires Hold(pieces, last, tokens)
    ensures |tokens| == |pieces| + 1
    decreases |pieces|
  {
    if pieces == [] {
    } else {
      HoldCounts(pieces[1..], last, tokens[1..]);
    }
  }

  // ----- printing a token list and lexing it again -----

  function EscapeChar(c: char): string {
    if c == '\n' then "\\n"
    else if c == '\r' then "\\r"
    else if c == '\t' then "\\t"
    else if c == '\\' || c == '"' || c == '\'' then ['\\', c]
    else [c]
  }

  function Escape(value: string): string {
    if value == "" then "" else EscapeChar(value[0]) + Escape(value[1..])
  }

  function Spell(lexeme: Lexeme): string {
    if lexeme.kind == String then "\"" + Escape(lexeme.text) + "\"" else lexeme.text
  }

  /** The tokens with a space after each. */
  function Render(lexemes: seq<Lexeme>): string {
    if lexemes == [] then "" else Spell(lexemes[0]) + (" " + Render(lexemes[1..]))
  }

  /** A lexeme as the lexer makes them. */
  predicate WellSpelled(lexeme: Lexeme) {
    var s := lexeme.text;
    match lexeme.kind
    case Operator => s != "" && OperatorLength(s) == |s|
    case Punctuation => |s| == 1 && IsPunctuation(s[0])
    case Number => s != "" && NumberLength(s) == |s|
    case Identifier => s != "" && StartsIdentifier(s[0]) && IdentifierRun(s) == |s|
    case String => true
    case Eof => false
  }

  lemma {:induction false} DigitRunStops(s: string, rest: string)
    requires rest == [] || !IsDigit(rest[0])
    ensures DigitRun(s + rest) == DigitRun(s)
    decreases |s|
  {
    if s == [] {
      assert s + rest == rest;
    } else {
      assert (s + rest)[1..] == s[1..] + rest;
      if IsDigit(s[0]) { DigitRunStops(s[1..], rest); }
    }
  }

  lemma {:induction false} IdentifierRunStops(s: string, rest: string)
    requires rest == [] || !ContinuesIdentifier(rest[0])
    ensures IdentifierRun(s + rest) == IdentifierRun(s)
    decreases |s|
  {
    if s == [] {
      assert s + rest == rest;
    } else {
      assert (s + rest)[1..] == s[1..] + rest;
      if ContinuesIdentifier(s[0]) { IdentifierRunStops(s[1..], rest); }
    }
  }

  lemma ExponentStops(s: string, rest: string)
    requires rest != [] && rest[0] == ' '
    ensures ExponentLength(s + rest) == ExponentLength(s)
  {
    var t := s + rest;
    if s != [] && (s[0] == 'e' || s[0] == 'E') {
      var sign := if |s| >= 2 && (s[1] == '+' || s[1] == '-') then 1 else 0;
      assert t[0] == s[0] && t[1..][0] == (if |s| >= 2 then s[1] else ' ');
      assert t[1 + sign..] == s[1 + sign..] + rest;
      DigitRunStops(s[1 + sign..], rest);
    }
  }

  lemma FractionStops(s: string, rest: string)
    requires rest != [] && rest[0] == ' '
    ensures FractionLength(s + rest) == FractionLength(s)
  {
    if s != [] && s[0] == '.' {
      assert (s + rest)[1..] == s[1..] + rest;
      DigitRunStops(s[1..], rest);
    }
  }

  lemma NumberStops(s: string, rest: string)
    requires rest != [] && rest[0] == ' '
    ensures NumberLength(s + rest) == NumberLength(s)
  {
    var whole := DigitRun(s);
    DigitRunStops(s, rest);
    if whole > 0 {
      assert (s + rest)[whole..] == s[whole..] + rest;
      FractionStops(s[whole..], rest);
      var n := whole + FractionLength(s[whole..]);
      assert (s + rest)[n..] == s[n..] + rest;
      ExponentStops(s[n..], rest);
    }
  }

  lemma EscapedCharReadsBack(c: char, more: string, value: string, n: nat)
    requires StringBody(more, '"') == Some((value, n))
    ensures StringBody(EscapeChar(c) + more, '"') == Some(([c] + value, |EscapeChar(c)| + n))
  {
    var s := EscapeChar(c) + more;
    assert s[|EscapeChar(c)|..] == more;
  }

  lemma {:induction false} EscapeReadsBack(value: string, rest: string)
    ensures StringBody(Escape(value) + (['"'] + rest), '"') == Some((value, |Escape(value)| + 1))
    decreases |value|
  {
    var closing := ['"'] + rest;
    if value == "" {
      assert Escape(value) + closing == closing;
    } else {
      EscapeReadsBack(value[1..], rest);
      EscapedCharReadsBack(value[0], Escape(value[1..]) + closing, value[1..], |Escape(value[1..])| + 1);
      assert Escape(value) + closing == EscapeChar(value[0]) + (Escape(value[1..]) + closing);
      assert value == [value[0]] + value[1..];
    }
  }

  lemma StringSpellingReadsBack(lexeme: Lexeme, rest: string)
    requires lexeme.kind == String
    ensures NextLexeme(Spell(lexeme) + rest) == Some((lexeme, |Spell(lexeme)|))
  {
    EscapeReadsBack(lexeme.text, rest);
    SpellingIsQuoted(lexeme, rest);
    QuoteStartsAString(Spell(lexeme) + rest);
  }

  lemma SpellingIsQuoted(lexeme: Lexeme, rest: string)
    requires lexeme.kind == String
    ensures var s := Spell(lexeme) + rest; s != "" && s[0] == '"' && s[1..] == Escape(lexeme.text) + (['"'] + rest)
  {
  }

  lemma QuoteStartsAString(s: string)
    requires s != "" && s[0] == '"' && StringBody(s[1..], '"').Some?
    ensures var (value, n) := StringBody(s[1..], '"').value; NextLexeme(s) == Some((Lexeme(String, value), n + 1))
  {
  }

  lemma LetterStartsAnIdentifier(s: string)
    requires s != "" && StartsIdentifier(s[0])
    ensures NextLexeme(s) == Some((Lexeme(Identifier, s[..IdentifierRun(s)]), IdentifierRun(s))) && !IsSpace(s[0])
  {
    assert DigitRun(s) == 0;
  }

  lemma NumberReadsBack(s: string, rest: string)
    requires s != "" && NumberLength(s) == |s| && rest != [] && rest[0] == ' '
    ensures NextLexeme(s + rest) == Some((Lexeme(Number, s), |s|)) && !IsSpace(s[0])
  {
    NumberStops(s, rest);
    FirstOfNumber(s);
    assert (s + rest)[0] == s[0] && (s + rest)[..|s|] == s;
  }

  lemma IdentifierReadsBack(s: string, rest: string)
    requires s != "" && StartsIdentifier(s[0]) && IdentifierRun(s) == |s| && rest != [] && rest[0] == ' '
    ensures NextLexeme(s + rest) == Some((Lexeme(Identifier, s), |s|)) && !IsSpace(s[0])
  {
    IdentifierRunStops(s, rest);
    assert (s + rest)[0] == s[0] && (s + rest)[..|s|] == s;
    LetterStartsAnIdentifier(s + rest);
  }

  lemma SpellingReadsBack(lexeme: Lexeme, rest: string)
    requires WellSpelled(lexeme) && rest != [] && rest[0] == ' '
    ensures Spell(lexeme) != ""
    ensures NextLexeme(Spell(lexeme) + rest) == Some((lexeme, |Spell(lexeme)|))
    ensures !IsSpace(Spell(lexeme)[0])
  {
    match lexeme.kind
    case String => StringSpellingReadsBack(lexeme, rest);
    case Operator =>
    case Number => NumberReadsBack(lexeme.text, rest);
    case Identifier => IdentifierReadsBack(lexeme.text, rest);
    case Punctuation => assert (lexeme.text + rest)[..1] == lexeme.text;
  }

  lemma FirstOfNumber(s: string)
    requires s != "" && NumberLength(s) == |s|
    ensures IsDigit(s[0])
  {
  }

  /** The recogniser reads a spelled lexeme back when a space follows it. */
  ghost predicate ReadsBack(next: Recogniser, lexeme: Lexeme, spelled: string) {
    && spelled != "" && !IsSpace(spelled[0])
    && forall more: string {:trigger next(spelled + (" " + more))} ::
      next(spelled + (" " + more)) == Some((lexeme, |spelled|))
  }

  lemma NextLexemeReadsBack(lexeme: Lexeme)
    requires WellSpelled(lexeme)
    ensures ReadsBack(NextLexeme, lexeme, Spell(lexeme))
  {
    SpellingReadsBack(lexeme, " ");
    forall more: string ensures NextLexeme(Spell(lexeme) + (" " + more)) == Some((lexeme, |Spell(lexeme)|)) {
      SpellingReadsBack(lexeme, " " + more);
    }
  }

  lemma {:induction false} RenderedLexes(next: Recogniser, lexemes: seq<Lexeme>)
    requires forall l :: l in lexemes ==> ReadsBack(next, l, Spell(l))
    ensures Lex(next, Render(lexemes)) == Some(lexemes + [Lexeme(Eof, "")])
    decreases |lexemes|
  {
    if lexemes == [] {
      assert lexemes + [Lexeme(Eof, "")] == [Lexeme(Eof, "")];
    } else {
      var first, rest := lexemes[0], lexemes[1..];
      RenderedLexes(next, rest);
      assert lexemes + [Lexeme(Eof, "")] == [first] + (rest + [Lexeme(Eof, "")]);
    }
  }

  /** Lexing the printed form of a token list gives the list back. */
  lemma RenderLexRoundTrip(lexemes: seq<Lexeme>)
    requires |lexemes| <= 512 && forall l :: l in lexemes ==> WellSpelled(l)
    ensures Tokens(Render(lexemes)) == Some(lexemes + [Lexeme(Eof, "")])
  {
    forall l | l in lexemes ensures ReadsBack(NextLexeme, l, Spell(l)) {
      NextLexemeReadsBack(l);
    }
    RenderedLexes(NextLexeme, lexemes);
  }

  // ----- evaluating a text -----

  /** The value of an expression text: the value of its abstract syntax, within the limits. */
  ghost function Meaning(host: Host, context: Context, text: string): Option<Value> {
    if AllBlank(text) || |text| > MAX_EXPRESSION_LENGTH then None
    else
      match Tokens(text)
      case None => None
      case Some(tokens) =>
        TokensEndInEof(text);
        match Parse(tokens)
        case None => None
        case Some(e) => Eval(host, context, e)
  }

  ghost predicate NeverEof(next: Recogniser) {
    forall s :: next(s).Some? ==> next(s).value.0.kind != Eof
  }

  lemma {:induction false} LexEndsInEof(next: Recogniser, s: string)
    requires NeverEof(next) && Lex(next, s).Some?
    ensures Terminated(Lex(next, s).value)
    decreases |s|
  {
    if s == [] {
    } else {
      if IsSpace(s[0]) {
        LexEndsInEof(next, s[1..]);
      } else {
        var (lexeme, n) := next(s).value;
        LexEndsInEof(next, s[n..]);
      }
    }
  }

  lemma TokensEndInEof(text: string)
    requires Tokens(text).Some?
    ensures Terminated(Tokens(text).value)
  {
    LexEndsInEof(NextLexeme, text);
  }

  method Evaluate(host: Host, context: Context, text: string) returns (r: Option<Value>)
    ensures r == Meaning(host, context, text)
  {
    if AllBlank(text) || |text| > MAX_EXPRESSION_LENGTH { return None; }
    var tokens := Tokenize(text);
    if tokens.None? { return None; }
    TokensEndInEof(text);
    var parser := new ExpressionParser.SafeExpressionParser(tokens.value, context, host);
    r := parser.Parse();
  }

  /** A text written from tokens means what the tokens parse to. */
  lemma RenderedTextMeans(host: Host, context: Context, lexemes: seq<Lexeme>, e: Expr)
    requires lexemes != [] && forall l :: l in lexemes ==> WellSpelled(l)
    requires |lexemes| <= MAX_TOKENS && |Render(lexemes)| <= MAX_EXPRESSION_LENGTH
    requires Terminated(lexemes + [Lexeme(Eof, "")]) && Parse(lexemes + [Lexeme(Eof, "")]) == Some(e)
    ensures Meaning(host, context, Render(lexemes)) == Eval(host, context, e)
  {
    RenderLexRoundTrip(lexemes);
    RenderIsNotBlank(lexemes);
  }

  /** Printing any expression fully parenthesised, within the limits, and evaluating the text gives its meaning. */
  lemma PrintedTextMeansTheExpression(host: Host, context: Context, e: Expr)
    requires Grammatical(e) && Nesting(e) <= 32
    requires forall l :: l in Print(e) ==> WellSpelled(l)
    requires |Print(e)| <= 512 && |Render(Print(e))| <= 1000
    ensures Meaning(host, context, Render(Print(e))) == Eval(host, context, e)
  {
    PrintParseRoundTrip(e);
    RenderedTextMeans(host, context, Print(e), e);
  }

  lemma RenderIsNotBlank(lexemes: seq<Lexeme>)
    requires lexemes != [] && WellSpelled(lexemes[0])
    ensures !AllBlank(Render(lexemes))
  {
    var rest := " " + Render(lexemes[1..]);
    SpellingReadsBack(lexemes[0], rest);
    assert Render(lexemes) == Spell(lexemes[0]) + rest;
    assert Render(lexemes)[0] == Spell(lexemes[0])[0];
    assert Render(lexemes)[0] in Render(lexemes);
  }
}
