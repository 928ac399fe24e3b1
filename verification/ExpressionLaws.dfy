/** The language as its documentation would put it: rows of operators, what each of them yields, and which tokens and
    names there are. */
module ExpressionLaws {
  import opened Options
  import opened Expressions
  import opened ExpressionLexer
  import opened ExpressionPrecedence

  // ----- precedence -----

  /** The binary operators, a row for each level, the weakest first. */
  const ROWS: seq<set<string>> := [
    {"||"},
    {"&&"},
    {"==", "!=", "===", "!=="},
    {">", ">=", "<", "<="},
    {"+", "-"},
    {"*", "/", "%"}]

  lemma RowIsLevel(op: string)
    ensures forall k :: 0 <= k < 6 ==> (op in ROWS[k] <==> LevelOf(op) == k)
    ensures LevelOf(op) <= LEVELS == 6
  {
  }

  /** Wherever these tokens stand, before anything that does not continue a path, they are read as e. */
  ghost predicate IsOperand(x: seq<Lexeme>, e: Expr) {
    && x != [] && (forall t :: t in x ==> t.kind != Eof)
    && forall ts, i: nat {:trigger ParseUnary(ts, i, 0), StandsAt(ts, i, x)} ::
      Terminated(ts) && StandsAt(ts, i, x) && i + |x| < |ts| && EndsPath(ts[i + |x|]) ==>
        ParseUnary(ts, i, 0) == Some((e, i + |x|))
  }

  /** A literal, a path, and any expression in parentheses. */
  lemma PrintedIsOperand(e: Expr)
    requires Grammatical(e) && Nesting(e) <= 32
    ensures IsOperand(Print(e), e)
  {
    PrintHasNoEof(e);
    forall ts, i: nat | Terminated(ts) && StandsAt(ts, i, Print(e)) && i + |Print(e)| < |ts| &&
        EndsPath(ts[i + |Print(e)|])
      ensures ParseUnary(ts, i, 0) == Some((e, i + |Print(e)|))
    {
      PrintedParses(ts, e, i, i + |Print(e)|, 0);
    }
  }

  ghost predicate OperandAt(ts: seq<Lexeme>, i: nat, x: seq<Lexeme>, e: Expr, j: nat) {
    IsOperand(x, e) && StandsAt(ts, i, x) && j == i + |x| < |ts|
  }

  lemma {:induction false} OperandReads(ts: seq<Lexeme>, x: seq<Lexeme>, e: Expr, level: nat, i: nat, j: nat)
    requires Terminated(ts) && level <= LEVELS && OperandAt(ts, i, x, e, j) && Stops(ts[j], level)
    ensures Reads(ts, level, i, 0, e, j)
    decreases LEVELS - level
  {
    if level == LEVELS {
      assert ParseUnary(ts, i, 0) == Some((e, j));
    } else {
      OperandReads(ts, x, e, level + 1, i, j);
      OneLevelOut(ts, level, i, 0, e, j);
    }
  }

  lemma {:induction false} LevelsOut(ts: seq<Lexeme>, e: Expr, from: nat, level: nat, i: nat, j: nat)
    requires Terminated(ts) && i < |ts| && j < |ts| && level <= from <= LEVELS && Stops(ts[j], level)
    requires Reads(ts, from, i, 0, e, j)
    ensures Reads(ts, level, i, 0, e, j)
    decreases from - level
  {
    if from == level {
    } else {
      OneLevelOut(ts, from - 1, i, 0, e, j);
      LevelsOut(ts, e, from - 1, level, i, j);
    }
  }

  ghost predicate OperatorAt(ts: seq<Lexeme>, m: nat, op: string, level: nat) {
    m < |ts| && ts[m] == Lexeme(Operator, op) && LevelOf(op) == level < LEVELS
  }

  /** An operator with its operands is read at its own level and at all weaker ones. */
  lemma BinaryReadsOut(ts: seq<Lexeme>, i: nat, m: nat, j: nat, op: string, left: Expr, right: Expr, level: nat,
      out: nat)
    requires Terminated(ts) && OperatorAt(ts, m, op, level) && j < |ts| && out <= level && Stops(ts[j], out)
    requires i < |ts| && Reads(ts, level, i, 0, left, m) && m + 1 < |ts| && Reads(ts, level + 1, m + 1, 0, right, j)
    ensures Reads(ts, out, i, 0, Binary(op, left, right), j)
  {
    BinaryStep(ts, level, i, m, j, 0, op, left, right);
    LevelsOut(ts, Binary(op, left, right), level, out, i, j);
  }

  /** An operator between what is read up to it and what is read from it to the end. */
  lemma OperatorReads(ts: seq<Lexeme>, m: nat, op: string, left: Expr, right: Expr, level: nat)
    requires Terminated(ts) && OperatorAt(ts, m, op, level) && m + 1 < |ts|
    requires Reads(ts, level, 0, 0, left, m) && Reads(ts, level + 1, m + 1, 0, right, |ts| - 1)
    ensures Parse(ts) == Some(Binary(op, left, right))
  {
    BinaryReadsOut(ts, 0, m, |ts| - 1, op, left, right, level, 0);
  }

  const END: Lexeme := Lexeme(Eof, "")

  function Op(op: string): Lexeme {
    Lexeme(Operator, op)
  }

  lemma ThreeStand(x: seq<Lexeme>, p: string, y: seq<Lexeme>, q: string, z: seq<Lexeme>) returns (ts: seq<Lexeme>)
    requires forall t :: t in x || t in y || t in z ==> t.kind != Eof
    ensures ts == x + [Op(p)] + y + [Op(q)] + z + [END] && Terminated(ts) && |ts| == |x| + |y| + |z| + 3
    ensures ts[|x|] == Op(p) && ts[|x| + 1 + |y|] == Op(q)
    ensures StandsAt(ts, 0, x) && StandsAt(ts, |x| + 1, y) && StandsAt(ts, |x| + |y| + 2, z)
  {
    ts := x + [Op(p)] + y + [Op(q)] + z + [END];
  }

  /** Of two operators next to each other the one in the stronger row takes the operand between them, and in one row
      the left one does. */
  lemma StrongerRowBindsFirst(i: nat, p: string, j: nat, q: string, x: seq<Lexeme>, y: seq<Lexeme>, z: seq<Lexeme>,
      a: Expr, b: Expr, c: Expr)
    requires i < 6 && p in ROWS[i] && j < 6 && q in ROWS[j]
    requires IsOperand(x, a) && IsOperand(y, b) && IsOperand(z, c)
    ensures var ts := x + [Op(p)] + y + [Op(q)] + z + [END];
      Terminated(ts) &&
      Parse(ts) == Some(if i < j then Binary(p, a, Binary(q, b, c)) else Binary(q, Binary(p, a, b), c))
  {
    RowIsLevel(p);
    RowIsLevel(q);
    var ts := ThreeStand(x, p, y, q, z);
    var m, n := |x|, |x| + 1 + |y|;
    if i < j {
      OperandReads(ts, x, a, i, 0, m);
      PairReads(ts, m + 1, n, |ts| - 1, q, y, z, b, c, j, i + 1);
      OperatorReads(ts, m, p, a, Binary(q, b, c), i);
    } else {
      PairReads(ts, 0, m, n, p, x, y, a, b, i, j);
      OperandReads(ts, z, c, j + 1, n + 1, |ts| - 1);
      OperatorReads(ts, n, q, Binary(p, a, b), c, j);
    }
  }

  /** Two operands with their operator, up to a token that stops them. */
  lemma PairReads(ts: seq<Lexeme>, i: nat, m: nat, j: nat, op: string, x: seq<Lexeme>, y: seq<Lexeme>, left: Expr,
      right: Expr, level: nat, out: nat)
    requires Terminated(ts) && OperatorAt(ts, m, op, level) && out <= level
    requires OperandAt(ts, i, x, left, m) && OperandAt(ts, m + 1, y, right, j) && Stops(ts[j], out)
    ensures Reads(ts, out, i, 0, Binary(op, left, right), j)
  {
    OperandReads(ts, x, left, level, i, m);
    OperandReads(ts, y, right, level + 1, m + 1, j);
    BinaryReadsOut(ts, i, m, j, op, left, right, level, out);
  }

  /** No other text is a binary operator. */
  lemma OnlyTheRowsAreOperators(op: string, x: seq<Lexeme>, y: seq<Lexeme>, a: Expr, b: Expr)
    requires IsOperand(x, a) && IsOperand(y, b)
    ensures var ts := x + [Op(op)] + y + [END];
      Terminated(ts) && Parse(ts) == if exists row :: row in ROWS && op in row then Some(Binary(op, a, b)) else None
  {
    var ts := x + [Op(op)] + y + [END];
    var m, level := |x|, LevelOf(op);
    RowIsLevel(op);
    if level < LEVELS {
      assert op in ROWS[level];
      PairReads(ts, 0, m, |ts| - 1, op, x, y, a, b, level, 0);
    } else {
      OperandReads(ts, x, a, 0, 0, m);
    }
  }

  // ----- prefix operators -----

  lemma {:induction false} NothingAtAnyLevel(ts: seq<Lexeme>, level: nat, i: nat, depth: nat)
    requires Terminated(ts) && i < |ts| && level <= LEVELS && ParseUnary(ts, i, depth) == None
    ensures ParseLevel(ts, level, i, depth) == None
    decreases LEVELS - level
  {
    if level == LEVELS {
    } else {
      NothingAtAnyLevel(ts, level + 1, i, depth);
    }
  }

  /** The prefix operators are !, - and +, and they bind before any binary operator. */
  lemma PrefixBindsFirst(u: string, p: string, x: seq<Lexeme>, y: seq<Lexeme>, a: Expr, b: Expr)
    requires IsOperand(x, a) && IsOperand(y, b) && exists row :: row in ROWS && p in row
    ensures var ts := [Op(u)] + x + [Op(p)] + y + [END];
      Terminated(ts) &&
      Parse(ts) == if u == "!" || u == "-" || u == "+" then Some(Binary(p, Unary(u, a), b)) else None
  {
    RowIsLevel(p);
    var ts := ThreeStand([], u, x, p, y);
    assert [] + [Op(u)] == [Op(u)];
    var m, level := 1 + |x|, LevelOf(p);
    if u in UNARY_OPERATORS {
      OperandReads(ts, x, a, LEVELS, 1, m);
      LevelsOut(ts, Unary(u, a), LEVELS, level, 0, m);
      OperandReads(ts, y, b, level + 1, m + 1, |ts| - 1);
      OperatorReads(ts, m, p, Unary(u, a), b, level);
    } else {
      NothingAtAnyLevel(ts, 0, 0, 0);
    }
  }

  // ----- names -----

  /** The keywords, and the names under which an expression reaches its context. */
  lemma OnlyTheseNames(name: string)
    ensures Terminated([Lexeme(Identifier, name), END])
    ensures Parse([Lexeme(Identifier, name), END]) ==
      if name in {"true", "false", "null"} then Some(Keyword(name))
      else if name in {"$input", "$workflow", "$nodes", "$item", "$index"} then Some(Path(name, []))
      else None
  {
    var ts := [Lexeme(Identifier, name), END];
    if ParseUnary(ts, 0, 0).None? {
      NothingAtAnyLevel(ts, 0, 0, 0);
    } else {
      Descend(ts, 0, 0, 0, ParseUnary(ts, 0, 0).value.0, 1);
    }
  }

  // ----- depth -----

  /** What fails at a level fails at all weaker ones. */
  lemma {:induction false} NothingFurtherOut(ts: seq<Lexeme>, from: nat, level: nat, i: nat, depth: nat)
    requires Terminated(ts) && i < |ts| && level <= from <= LEVELS && ParseLevel(ts, from, i, depth) == None
    ensures ParseLevel(ts, level, i, depth) == None
    decreases from - level
  {
    if from == level {
    } else {
      NothingFurtherOut(ts, from - 1, level, i, depth);
    }
  }

  /** An expression that is nested too deeply for the depth that it starts at is refused. */
  lemma {:induction false} TooDeep(ts: seq<Lexeme>, e: Expr, i: nat, j: nat, depth: nat)
    requires Terminated(ts) && Grammatical(e) && depth + Nesting(e) > MAX_DEPTH
    requires j == i + |Print(e)| < |ts| && StandsAt(ts, i, Print(e))
    ensures ParseUnary(ts, i, depth) == None
    decreases e, 1
  {
    if depth + 1 > MAX_DEPTH {
      NoDepthLeft(ts, e, i, depth);
    } else if e.Unary? {
      var close := UnaryStands(ts, e.op, e.operand, i);
      TooDeep(ts, e.operand, i + 2, close, depth + 1);
      UnaryIsMissing(ts, i, depth);
    } else {
      BinaryIsTooDeep(ts, e, i, j, depth);
    }
  }

  lemma NoDepthLeft(ts: seq<Lexeme>, e: Expr, i: nat, depth: nat)
    requires Terminated(ts) && depth + 1 > MAX_DEPTH && i < |ts| && StandsAt(ts, i, Print(e))
    ensures ParseUnary(ts, i, depth) == None
  {
    PrintStartsPlainly(e);
    assert ts[i] == Print(e)[0];
  }

  lemma {:induction false} BinaryIsTooDeep(ts: seq<Lexeme>, e: Expr, i: nat, j: nat, depth: nat)
    requires Terminated(ts) && Grammatical(e) && e.Binary? && depth + Nesting(e) > MAX_DEPTH >= depth + 1
    requires j == i + |Print(e)| < |ts| && StandsAt(ts, i, Print(e))
    ensures ParseUnary(ts, i, depth) == None
    decreases e, 0, 1
  {
    var m := BinaryStands(ts, e, i, j);
    LeftOrRightIsTooDeep(ts, e, i + 1, m, j - 1, depth + 1);
    ParenthesisIsEmpty(ts, i, depth);
  }

  lemma {:induction false} LeftOrRightIsTooDeep(ts: seq<Lexeme>, e: Expr, i: nat, m: nat, j: nat, depth: nat)
    requires Terminated(ts) && e.Binary? && Grammatical(e) && depth - 1 + Nesting(e) > MAX_DEPTH >= depth > 0
    requires m == i + |Print(e.left)| && j == m + 1 + |Print(e.right)| < |ts| && ts[m] == Lexeme(Operator, e.op)
    requires StandsAt(ts, i, Print(e.left)) && StandsAt(ts, m + 1, Print(e.right))
    ensures ParseLevel(ts, 0, i, depth) == None
    decreases e, 0, 0
  {
    if depth + Nesting(e.left) > MAX_DEPTH {
      TooDeep(ts, e.left, i, m, depth);
      NothingAtAnyLevel(ts, 0, i, depth);
    } else {
      TooDeep(ts, e.right, m + 1, j, depth);
      PrintedParses(ts, e.left, i, m, depth);
      RightIsMissing(ts, e, i, m, depth);
    }
  }

  lemma UnaryIsMissing(ts: seq<Lexeme>, i: nat, depth: nat)
    requires Terminated(ts) && i + 2 < |ts| && ts[i] == OPENING && IsUnaryOperator(ts[i + 1])
    requires ParseUnary(ts, i + 2, depth + 1) == None
    ensures ParseUnary(ts, i, depth) == None
  {
    NothingAtAnyLevel(ts, 0, i + 1, depth + 1);
  }

  lemma ParenthesisIsEmpty(ts: seq<Lexeme>, i: nat, depth: nat)
    requires Terminated(ts) && i + 1 < |ts| && ts[i] == OPENING && ParseLevel(ts, 0, i + 1, depth + 1) == None
    ensures ParseUnary(ts, i, depth) == None
  {
  }

  lemma PrintStartsPlainly(e: Expr)
    ensures Print(e)[0].kind != Operator
  {
  }

  lemma RightIsMissing(ts: seq<Lexeme>, e: Expr, i: nat, m: nat, depth: nat)
    requires Terminated(ts) && e.Binary? && LevelOf(e.op) < LEVELS && i < m && m + 1 < |ts|
    requires ts[m] == Lexeme(Operator, e.op) && UnaryBetween(ts, i, depth, e.left, m)
    requires ParseUnary(ts, m + 1, depth) == None
    ensures ParseLevel(ts, 0, i, depth) == None
  {
    var level := LevelOf(e.op);
    Descend(ts, level + 1, i, depth, e.left, m);
    NothingAtAnyLevel(ts, level + 1, m + 1, depth);
    NothingFurtherOut(ts, level, 0, i, depth);
  }

  /** Exactly 32 levels of nesting are read. */
  lemma ThirtyTwoLevels(e: Expr)
    requires Grammatical(e)
    ensures Terminated(Print(e) + [END])
    ensures Parse(Print(e) + [END]) == if Nesting(e) <= 32 then Some(e) else None
  {
    if Nesting(e) <= 32 {
      PrintParseRoundTrip(e);
    } else {
      var ts := Print(e) + [END];
      PrintHasNoEof(e);
      TooDeep(ts, e, 0, |Print(e)|, 0);
      NothingAtAnyLevel(ts, 0, 0, 0);
    }
  }
}
