/** Precedence and associativity: an expression printed with only the parentheses it needs is parsed back. */
module ExpressionPrecedence {
  import opened Options
  import opened Expressions
  import opened ExpressionLexer

  const OPENING: Lexeme := Lexeme(Punctuation, "(")

  const CLOSING: Lexeme := Lexeme(Punctuation, ")")

  /** The level at which e can stand without parentheses; primaries are above the unary operators. */
  function Precedence(e: Expr): nat {
    match e
    case Unary(_, _) => LEVELS
    case Binary(op, _, _) => LevelOf(op)
    case _ => LEVELS + 1
  }

  /** e without parentheses around it. A left operand may share the level of its operator, a right one may not. */
  function Bare(e: Expr): seq<Lexeme>
    decreases e, 0
  {
    match e
    case Unary(op, operand) => [Lexeme(Operator, op)] + Show(operand, LEVELS)
    case Binary(op, left, right) =>
      Show(left, LevelOf(op)) + ([Lexeme(Operator, op)] + Show(right, LevelOf(op) + 1))
    case _ => Print(e)
  }

  /** e where an expression of this level is expected. */
  function Show(e: Expr, level: nat): seq<Lexeme>
    decreases e, 1
  {
    if Precedence(e) >= level then Bare(e) else [OPENING] + (Bare(e) + [CLOSING])
  }

  function BareDepth(e: Expr): nat
    decreases e, 0
  {
    match e
    case Unary(_, operand) => ShownDepth(operand, LEVELS)
    case Binary(op, left, right) =>
      var l, r := ShownDepth(left, LevelOf(op)), ShownDepth(right, LevelOf(op) + 1);
      if l > r then l else r
    case _ => 1
  }

  /** How deep the parentheses of the printed form nest, counted as the parser does. */
  function ShownDepth(e: Expr, level: nat): nat
    decreases e, 1
  {
    if Precedence(e) >= level then BareDepth(e) else 1 + BareDepth(e)
  }

  /** The tokens from i up to j are e, and what follows is left to the operators of this level. */
  ghost predicate Reads(ts: seq<Lexeme>, level: nat, i: nat, depth: nat, e: Expr, j: nat)
    requires Terminated(ts) && i < |ts| && j < |ts| && level <= LEVELS
  {
    if level == LEVELS then ParseUnary(ts, i, depth) == Some((e, j))
    else ParseLevel(ts, level, i, depth) == ParseRest(ts, level, e, j, depth)
  }

  /** The token continues neither a path nor an operator of a higher level. */
  ghost predicate Stops(t: Lexeme, level: nat) {
    EndsPath(t) && (t.kind == Operator ==> LevelOf(t.text) <= level || LevelOf(t.text) == LEVELS)
  }

  lemma RestEnds(ts: seq<Lexeme>, level: nat, i: nat, depth: nat, e: Expr, j: nat)
    requires Terminated(ts) && i < |ts| && j < |ts| && 0 < level <= LEVELS && Stops(ts[j], level - 1)
    requires Reads(ts, level, i, depth, e, j)
    ensures ParseLevel(ts, level, i, depth) == Some((e, j))
  {
  }

  /** What is read at a level is also read one level further out. */
  lemma OneLevelOut(ts: seq<Lexeme>, level: nat, i: nat, depth: nat, e: Expr, j: nat)
    requires Terminated(ts) && i < |ts| && j < |ts| && level < LEVELS && Stops(ts[j], level)
    requires Reads(ts, level + 1, i, depth, e, j)
    ensures Reads(ts, level, i, depth, e, j)
  {
    RestEnds(ts, level + 1, i, depth, e, j);
  }

  lemma BinaryStep(ts: seq<Lexeme>, level: nat, i: nat, m: nat, j: nat, depth: nat, op: string, left: Expr, right: Expr)
    requires Terminated(ts) && i < |ts| && m + 1 < |ts| && j < |ts| && LevelOf(op) == level < LEVELS
    requires ts[m] == Lexeme(Operator, op) && Stops(ts[j], level)
    requires Reads(ts, level, i, depth, left, m) && Reads(ts, level + 1, m + 1, depth, right, j)
    ensures Reads(ts, level, i, depth, Binary(op, left, right), j)
  {
    RestEnds(ts, level + 1, m + 1, depth, right, j);
  }

  lemma ParenthesesStep(ts: seq<Lexeme>, i: nat, close: nat, depth: nat, e: Expr)
    requires Terminated(ts) && i + 1 < |ts| && close + 1 < |ts| && depth + 1 <= MAX_DEPTH
    requires ts[i] == OPENING && ts[close] == CLOSING && Reads(ts, 0, i + 1, depth + 1, e, close)
    ensures Reads(ts, LEVELS, i, depth, e, close + 1)
  {
    assert ParseLevel(ts, 0, i + 1, depth + 1) == Some((e, close));
  }

  /** Where the operator and the right operand of a printed binary expression stand. */
  lemma BinaryLayout(ts: seq<Lexeme>, i: nat, j: nat, e: Expr) returns (m: nat)
    requires e.Binary? && j == i + |Bare(e)| <= |ts| && StandsAt(ts, i, Bare(e))
    ensures i <= m && m == i + |Show(e.left, LevelOf(e.op))| && m < j && ts[m] == Lexeme(Operator, e.op)
    ensures j == m + 1 + |Show(e.right, LevelOf(e.op) + 1)|
    ensures StandsAt(ts, i, Show(e.left, LevelOf(e.op))) && StandsAt(ts, m + 1, Show(e.right, LevelOf(e.op) + 1))
  {
    var left, right := Show(e.left, LevelOf(e.op)), Show(e.right, LevelOf(e.op) + 1);
    var operator := Lexeme(Operator, e.op);
    m := i + |left|;
    StandsApart(ts, i, left, [operator] + right);
    StandsApart(ts, m, [operator], right);
  }

  lemma ParenthesesLayout(ts: seq<Lexeme>, i: nat, body: seq<Lexeme>, close: nat)
    requires StandsAt(ts, i, [OPENING] + (body + [CLOSING])) && close == i + 1 + |body|
    ensures close < |ts| && ts[i] == OPENING && ts[close] == CLOSING && StandsAt(ts, i + 1, body)
  {
    StandsApart(ts, i, [OPENING], body + [CLOSING]);
    StandsApart(ts, i + 1, body, [CLOSING]);
  }

  lemma ShowNotEmpty(e: Expr, level: nat)
    ensures Show(e, level) != []
  {
    if e.Binary? { assert |Bare(e)| >= 1; }
  }

  /** A minimally printed expression is read at the level it was printed for. */
  lemma {:induction false} ShownReads(ts: seq<Lexeme>, e: Expr, level: nat, i: nat, j: nat, depth: nat)
    requires Terminated(ts) && Grammatical(e) && level <= LEVELS && depth + ShownDepth(e, level) <= MAX_DEPTH
    requires i < j && j == i + |Show(e, level)| < |ts| && StandsAt(ts, i, Show(e, level)) && Stops(ts[j], level)
    ensures Reads(ts, level, i, depth, e, j)
    decreases e, if level > Precedence(e) then 1 else 0, LEVELS - level, 1
  {
    if Precedence(e) == level {
      if e.Binary? { BinaryReads(ts, e, level, i, j, depth); } else { UnaryReads(ts, e, i, j, depth); }
    } else if level < LEVELS {
      ShownReads(ts, e, level + 1, i, j, depth);
      OneLevelOut(ts, level, i, depth, e, j);
    } else if e.Binary? {
      ParenthesesLayout(ts, i, Bare(e), j - 1);
      ShowNotEmpty(e, 0);
      ShownReads(ts, e, 0, i + 1, j - 1, depth + 1);
      ParenthesesStep(ts, i, j - 1, depth, e);
    } else {
      PrintedParses(ts, e, i, j, depth);
    }
  }

  lemma {:induction false} BinaryReads(ts: seq<Lexeme>, e: Expr, level: nat, i: nat, j: nat, depth: nat)
    requires Terminated(ts) && Grammatical(e) && e.Binary? && level == LevelOf(e.op) < LEVELS
    requires depth + BareDepth(e) <= MAX_DEPTH
    requires j == i + |Bare(e)| < |ts| && StandsAt(ts, i, Bare(e)) && Stops(ts[j], level)
    ensures Reads(ts, level, i, depth, e, j)
    decreases e, 0, 0, 0
  {
    var m := BinaryLayout(ts, i, j, e);
    ShowNotEmpty(e.left, level);
    ShowNotEmpty(e.right, level + 1);
    ShownReads(ts, e.left, level, i, m, depth);
    ShownReads(ts, e.right, level + 1, m + 1, j, depth);
    BinaryStep(ts, level, i, m, j, depth, e.op, e.left, e.right);
  }

  lemma {:induction false} UnaryReads(ts: seq<Lexeme>, e: Expr, i: nat, j: nat, depth: nat)
    requires Terminated(ts) && Grammatical(e) && e.Unary? && depth + BareDepth(e) <= MAX_DEPTH
    requires j == i + |Bare(e)| < |ts| && StandsAt(ts, i, Bare(e)) && Stops(ts[j], LEVELS)
    ensures Reads(ts, LEVELS, i, depth, e, j)
    decreases e, 0, 0, 0
  {
    StandsApart(ts, i, [Lexeme(Operator, e.op)], Show(e.operand, LEVELS));
    ShowNotEmpty(e.operand, LEVELS);
    ShownReads(ts, e.operand, LEVELS, i + 1, j, depth);
  }

  lemma {:induction false} ShownHasNoEof(e: Expr, level: nat)
    ensures forall t :: t in Show(e, level) ==> t.kind != Eof
    decreases e, 1
  {
    BareHasNoEof(e);
  }

  lemma {:induction false} BareHasNoEof(e: Expr)
    ensures forall t :: t in Bare(e) ==> t.kind != Eof
    decreases e, 0
  {
    match e
    case Unary(_, operand) => ShownHasNoEof(operand, LEVELS);
    case Binary(op, left, right) =>
      ShownHasNoEof(left, LevelOf(op));
      ShownHasNoEof(right, LevelOf(op) + 1);
    case _ => PrintHasNoEof(e);
  }

  /** The parentheses that precedence and left associativity make unnecessary can be left out. */
  lemma MinimalPrintParseRoundTrip(e: Expr)
    requires Grammatical(e) && ShownDepth(e, 0) <= 32
    ensures Terminated(Show(e, 0) + [Lexeme(Eof, "")])
    ensures Parse(Show(e, 0) + [Lexeme(Eof, "")]) == Some(e)
  {
    var ts := Show(e, 0) + [Lexeme(Eof, "")];
    ShownHasNoEof(e, 0);
    ShowNotEmpty(e, 0);
    ShownReads(ts, e, 0, 0, |Show(e, 0)|, 0);
  }

  /** The text with only the parentheses it needs has the meaning of the expression. */
  lemma MinimalTextMeansTheExpression(host: Host, context: Context, e: Expr)
    requires Grammatical(e) && ShownDepth(e, 0) <= 32
    requires forall l :: l in Show(e, 0) ==> WellSpelled(l)
    requires |Show(e, 0)| <= 512 && |Render(Show(e, 0))| <= 1000
    ensures Meaning(host, context, Render(Show(e, 0))) == Eval(host, context, e)
  {
    MinimalPrintParseRoundTrip(e);
    ShowNotEmpty(e, 0);
    RenderedTextMeans(host, context, Show(e, 0), e);
  }
}
