/** The expression language of workflow nodes: abstract syntax, values, and what an expression means. */
module Expressions {
  import opened Options

  datatype Kind = Number | String | Identifier | Operator | Punctuation | Eof

  /** A token without its position, which only error messages use. */
  datatype Lexeme = Lexeme(kind: Kind, text: string)

  datatype Accessor = Dot(name: string) | Bracket(key: string, isNumber: bool)

  datatype Expr =
    | NumberLiteral(lexeme: string)
    | StringLiteral(text: string)
    | Keyword(word: string)
    | Path(root: string, accessors: seq<Accessor>)
    | Unary(op: string, operand: Expr)
    | Binary(op: string, left: Expr, right: Expr)

  /** JavaScript values. Two objects are the same when their references are. Numbers are real, not IEEE doubles. */
  datatype Value =
    | Undefined
    | Null
    | Bool(b: bool)
    | Num(r: real)
    | Str(s: string)
    | Obj(ref: int, fields: map<string, Value>)

  /** What the language leaves to JavaScript: number literals, String(v), relational comparison of operands that
      are not both numbers, and the own properties of a boxed string. */
  datatype Host = Host(
    number: string -> real, show: Value -> string, compare: (string, Value, Value) -> bool,
    stringProperty: (string, string) -> Option<Value>)

  type Context = map<string, Value>

  const MAX_DEPTH: nat := 32

  const KEYWORDS: set<string> := {"true", "false", "null"}

  const ROOTS: set<string> := {"$input", "$workflow", "$nodes", "$item", "$index"}

  /** The table of forbidden names is an object literal, so it also answers for the names it inherits. */
  const FORBIDDEN_PROPERTIES: set<string> := {
    "__proto__", "prototype", "constructor",
    "hasOwnProperty", "isPrototypeOf", "propertyIsEnumerable", "toLocaleString", "toString", "valueOf",
    "__defineGetter__", "__defineSetter__", "__lookupGetter__", "__lookupSetter__"}

  const UNARY_OPERATORS: set<string> := {"!", "-", "+"}

  const LEVELS: nat := 6

  /** The precedence level of a binary operator, weakest first; LEVELS for anything else. */
  function LevelOf(op: string): nat {
    if op == "||" then 0
    else if op == "&&" then 1
    else if op == "==" || op == "!=" || op == "===" || op == "!==" then 2
    else if op == ">" || op == ">=" || op == "<" || op == "<=" then 3
    else if op == "+" || op == "-" then 4
    else if op == "*" || op == "/" || op == "%" then 5
    else LEVELS
  }

  // ----- meaning; None is a thrown error -----

  predicate Truthy(v: Value) {
    match v
    case Undefined => false
    case Null => false
    case Bool(b) => b
    case Num(r) => r != 0.0
    case Str(s) => s != ""
    case Obj(_, _) => true
  }

  predicate StrictlyEqual(a: Value, b: Value) {
    if a.Obj? && b.Obj? then a.ref == b.ref else a == b
  }

  function Truncate(x: real): int {
    if x >= 0.0 then x.Floor else -((-x).Floor)
  }

  /** JavaScript's remainder takes the sign of the dividend. */
  function Remainder(a: real, b: real): real
    requires b != 0.0
  {
    a - b * Truncate(a / b) as real
  }

  function Quotient(a: real, b: real): real
    requires b != 0.0
  {
    a / b
  }

  function Product(a: real, b: real): real {
    a * b
  }

  function Arithmetic(op: string, a: real, b: real): Option<Value> {
    match op
    case "+" => Some(Num(a + b))
    case "-" => Some(Num(a - b))
    case "*" => Some(Num(Product(a, b)))
    case "/" => if b == 0.0 then None else Some(Num(Quotient(a, b)))
    case "%" => if b == 0.0 then None else Some(Num(Remainder(a, b)))
    case _ => None
  }

  function Relation(host: Host, op: string, a: Value, b: Value): bool {
    if a.Num? && b.Num? then
      match op
      case ">" => a.r > b.r
      case ">=" => a.r >= b.r
      case "<" => a.r < b.r
      case _ => a.r <= b.r
    else host.compare(op, a, b)
  }

  function Apply(host: Host, op: string, a: Value, b: Value): Option<Value> {
    if op == "||" then Some(Bool(Truthy(a) || Truthy(b)))
    else if op == "&&" then Some(Bool(Truthy(a) && Truthy(b)))
    else if op == "==" || op == "===" then Some(Bool(StrictlyEqual(a, b)))
    else if op == "!=" || op == "!==" then Some(Bool(!StrictlyEqual(a, b)))
    else if LevelOf(op) == 3 then Some(Bool(Relation(host, op, a, b)))
    else if op == "+" && (a.Str? || b.Str?) then Some(Str(host.show(a) + host.show(b)))
    else if a.Num? && b.Num? then Arithmetic(op, a.r, b.r)
    else None
  }

  function ApplyUnary(op: string, a: Value): Option<Value> {
    if op == "!" then Some(Bool(!Truthy(a)))
    else if !a.Num? then None
    else if op == "-" then Some(Num(-a.r))
    else Some(a)
  }

  function KeywordValue(word: string): Value {
    if word == "true" then Bool(true) else if word == "false" then Bool(false) else Null
  }

  function PropertyName(a: Accessor): string {
    if a.Dot? then a.name else a.key
  }

  function ReadProperty(host: Host, v: Value, property: string): Option<Value> {
    if property in FORBIDDEN_PROPERTIES then None
    else match v
      case Obj(_, fields) => Some(if property in fields then fields[property] else Undefined)
      case Str(s) => Some(match host.stringProperty(s, property) case Some(p) => p case None => Undefined)
      case _ => Some(Undefined)
  }

  function ReadPath(host: Host, context: Context, root: string, accessors: seq<Accessor>): Option<Value> {
    if accessors == [] then Some(if root in context then context[root] else Undefined)
    else
      match ReadPath(host, context, root, accessors[..|accessors| - 1])
      case None => None
      case Some(v) => ReadProperty(host, v, PropertyName(accessors[|accessors| - 1]))
  }

  /** Both operands of every operator are evaluated, also those of && and ||. */
  function Eval(host: Host, context: Context, e: Expr): Option<Value> {
    match e
    case NumberLiteral(lexeme) => Some(Num(host.number(lexeme)))
    case StringLiteral(text) => Some(Str(text))
    case Keyword(word) => Some(KeywordValue(word))
    case Path(root, accessors) => ReadPath(host, context, root, accessors)
    case Unary(op, operand) =>
      (match Eval(host, context, operand)
       case None => None
       case Some(v) => ApplyUnary(op, v))
    case Binary(op, left, right) =>
      (match (Eval(host, context, left), Eval(host, context, right))
       case (Some(a), Some(b)) => Apply(host, op, a, b)
       case _ => None)
  }

  // ----- grammar -----

  /** A token list ends in its only eof. */
  ghost predicate Terminated(ts: seq<Lexeme>) {
    |ts| > 0 && forall i :: 0 <= i < |ts| ==> (ts[i].kind == Eof <==> i == |ts| - 1)
  }

  predicate Is(t: Lexeme, kind: Kind, text: string) {
    t.kind == kind && t.text == text
  }

  predicate IsBinaryOperator(t: Lexeme, level: nat) {
    t.kind == Operator && LevelOf(t.text) == level
  }

  predicate IsUnaryOperator(t: Lexeme) {
    t.kind == Operator && t.text in UNARY_OPERATORS
  }

  /** Left-associative binary operators of a level; level 6 are the unary operators. */
  ghost function ParseLevel(ts: seq<Lexeme>, level: nat, i: nat, depth: nat): (r: Option<(Expr, nat)>)
    requires Terminated(ts) && i < |ts| && level <= LEVELS
    ensures r.Some? ==> i < r.value.1 < |ts|
    decreases |ts| - i, LEVELS + 2 - level
  {
    if level == LEVELS then ParseUnary(ts, i, depth)
    else
      match ParseLevel(ts, level + 1, i, depth)
      case None => None
      case Some((left, j)) => ParseRest(ts, level, left, j, depth)
  }

  ghost function ParseRest(ts: seq<Lexeme>, level: nat, left: Expr, i: nat, depth: nat): (r: Option<(Expr, nat)>)
    requires Terminated(ts) && i < |ts| && level < LEVELS
    ensures r.Some? ==> i <= r.value.1 < |ts|
    decreases |ts| - i, LEVELS + 2 - level
  {
    if !IsBinaryOperator(ts[i], level) then Some((left, i))
    else
      match ParseLevel(ts, level + 1, i + 1, depth)
      case None => None
      case Some((right, j)) => ParseRest(ts, level, Binary(ts[i].text, left, right), j, depth)
  }

  ghost function ParseUnary(ts: seq<Lexeme>, i: nat, depth: nat): (r: Option<(Expr, nat)>)
    requires Terminated(ts) && i < |ts|
    ensures r.Some? ==> i < r.value.1 < |ts|
    decreases |ts| - i, 1
  {
    if !IsUnaryOperator(ts[i]) then ParsePrimary(ts, i, depth)
    else
      match ParseUnary(ts, i + 1, depth)
      case None => None
      case Some((operand, j)) => Some((Unary(ts[i].text, operand), j))
  }

  ghost function ParsePrimary(ts: seq<Lexeme>, i: nat, depth: nat): (r: Option<(Expr, nat)>)
    requires Terminated(ts) && i < |ts|
    ensures r.Some? ==> i < r.value.1 < |ts|
    decreases |ts| - i, 0
  {
    if depth + 1 > MAX_DEPTH then None
    else if ts[i].kind == Number then Some((NumberLiteral(ts[i].text), i + 1))
    else if ts[i].kind == String then Some((StringLiteral(ts[i].text), i + 1))
    else if ts[i].kind == Identifier then
      if ts[i].text in KEYWORDS then Some((Keyword(ts[i].text), i + 1))
      else if ts[i].text !in ROOTS then None
      else ParseAccessors(ts, ts[i].text, [], i + 1)
    else if Is(ts[i], Punctuation, "(") then
      match ParseLevel(ts, 0, i + 1, depth + 1)
      case None => None
      case Some((e, j)) => if Is(ts[j], Punctuation, ")") then Some((e, j + 1)) else None
    else None
  }

  ghost function ParseAccessors(ts: seq<Lexeme>, root: string, accessors: seq<Accessor>, i: nat)
    : (r: Option<(Expr, nat)>)
    requires Terminated(ts) && i < |ts|
    ensures r.Some? ==> i <= r.value.1 < |ts|
    decreases |ts| - i
  {
    if Is(ts[i], Punctuation, ".") then
      if ts[i + 1].kind != Identifier then None
      else ParseAccessors(ts, root, accessors + [Dot(ts[i + 1].text)], i + 2)
    else if Is(ts[i], Punctuation, "[") then
      if ts[i + 1].kind != String && ts[i + 1].kind != Number then None
      else if !Is(ts[i + 2], Punctuation, "]") then None
      else ParseAccessors(ts, root, accessors + [Bracket(ts[i + 1].text, ts[i + 1].kind == Number)], i + 3)
    else if Is(ts[i], Punctuation, "(") then None
    else Some((Path(root, accessors), i))
  }

  /** The abstract syntax of a whole token list. */
  ghost function Parse(ts: seq<Lexeme>): Option<Expr>
    requires Terminated(ts)
  {
    match ParseLevel(ts, 0, 0, 0)
    case None => None
    case Some((e, j)) => if ts[j].kind == Eof then Some(e) else None
  }

  // ----- printing -----

  function PrintAccessor(a: Accessor): (ts: seq<Lexeme>)
    ensures |ts| > 0
  {
    match a
    case Dot(name) => [Lexeme(Punctuation, "."), Lexeme(Identifier, name)]
    case Bracket(key, isNumber) =>
      [Lexeme(Punctuation, "["), Lexeme(if isNumber then Number else String, key), Lexeme(Punctuation, "]")]
  }

  function PrintAccessors(accessors: seq<Accessor>): seq<Lexeme> {
    if accessors == [] then [] else PrintAccessor(accessors[0]) + PrintAccessors(accessors[1..])
  }

  /** Fully parenthesised. */
  function Print(e: Expr): (ts: seq<Lexeme>)
    ensures |ts| > 0
  {
    match e
    case NumberLiteral(lexeme) => [Lexeme(Number, lexeme)]
    case StringLiteral(text) => [Lexeme(String, text)]
    case Keyword(word) => [Lexeme(Identifier, word)]
    case Path(root, accessors) => [Lexeme(Identifier, root)] + PrintAccessors(accessors)
    case Unary(op, operand) =>
      [Lexeme(Punctuation, "("), Lexeme(Operator, op)] + Print(operand) + [Lexeme(Punctuation, ")")]
    case Binary(op, left, right) =>
      [Lexeme(Punctuation, "(")] + Print(left) + [Lexeme(Operator, op)] + Print(right) + [Lexeme(Punctuation, ")")]
  }

  function Nesting(e: Expr): nat {
    match e
    case Unary(_, operand) => 1 + Nesting(operand)
    case Binary(_, left, right) => 1 + if Nesting(left) > Nesting(right) then Nesting(left) else Nesting(right)
    case _ => 1
  }

  /** Expressions that the grammar can produce. */
  predicate Grammatical(e: Expr) {
    match e
    case Keyword(word) => word in KEYWORDS
    case Path(root, _) => root in ROOTS
    case Unary(op, operand) => op in UNARY_OPERATORS && Grammatical(operand)
    case Binary(op, left, right) =>
      LevelOf(op) < LEVELS && Grammatical(left) && Grammatical(right)
    case _ => true
  }

  /** No continuation of a path. */
  predicate EndsPath(t: Lexeme) {
    t.kind != Punctuation || (t.text != "." && t.text != "[" && t.text != "(")
  }

  /** The printed form stands at position i of the list. */
  ghost predicate StandsAt(ts: seq<Lexeme>, i: nat, printed: seq<Lexeme>) {
    i + |printed| <= |ts| && forall k :: i <= k < i + |printed| ==> ts[k] == printed[k - i]
  }

  lemma StandsApart(ts: seq<Lexeme>, i: nat, a: seq<Lexeme>, b: seq<Lexeme>)
    requires StandsAt(ts, i, a + b)
    ensures StandsAt(ts, i, a) && StandsAt(ts, i + |a|, b)
  {
    forall k | i <= k < i + |a| ensures ts[k] == a[k - i] {
      assert ts[k] == (a + b)[k - i];
    }
    forall k | i + |a| <= k < i + |a| + |b| ensures ts[k] == b[k - (i + |a|)] {
      assert ts[k] == (a + b)[k - i];
    }
  }

  lemma AccessorParses(ts: seq<Lexeme>, root: string, done: seq<Accessor>, a: Accessor, i: nat, k: nat)
    requires Terminated(ts) && k == i + |PrintAccessor(a)| < |ts| && StandsAt(ts, i, PrintAccessor(a))
    ensures ParseAccessors(ts, root, done, i) == ParseAccessors(ts, root, done + [a], k)
  {
  }

  lemma {:induction false} AccessorsParse(ts: seq<Lexeme>, root: string, done: seq<Accessor>, left: seq<Accessor>,
      i: nat, j: nat)
    requires Terminated(ts) && j == i + |PrintAccessors(left)| < |ts|
    requires StandsAt(ts, i, PrintAccessors(left)) && EndsPath(ts[j])
    ensures ParseAccessors(ts, root, done, i) == Some((Path(root, done + left), j))
    decreases |left|
  {
    if left == [] {
      assert done + left == done;
    } else {
      var first, rest := left[0], left[1..];
      var k := i + |PrintAccessor(first)|;
      StandsApart(ts, i, PrintAccessor(first), PrintAccessors(rest));
      AccessorParses(ts, root, done, first, i, k);
      AccessorsParse(ts, root, done + [first], rest, k, j);
      assert done + [first] + rest == done + left;
    }
  }

  /** A unary expression followed by a token that continues no level from `level` on is an expression of that level. */
  lemma {:induction false} Descend(ts: seq<Lexeme>, level: nat, i: nat, depth: nat, e: Expr, j: nat)
    requires Terminated(ts) && i < j < |ts| && level <= LEVELS
    requires ParseUnary(ts, i, depth) == Some((e, j))
    requires forall k :: level <= k < LEVELS ==> !IsBinaryOperator(ts[j], k)
    ensures ParseLevel(ts, level, i, depth) == Some((e, j))
    decreases LEVELS - level
  {
    if level == LEVELS {
    } else {
      Descend(ts, level + 1, i, depth, e, j);
    }
  }

  lemma {:induction false} Climb(ts: seq<Lexeme>, level: nat, i: nat, depth: nat, e: Expr, j: nat)
    requires Terminated(ts) && i < j < |ts| && level <= LEVELS
    requires ParseLevel(ts, level, i, depth) == Some((e, j))
    requires ts[j].kind != Operator
    ensures ParseLevel(ts, 0, i, depth) == Some((e, j))
    decreases level
  {
    if level == 0 {
    } else {
      Climb(ts, level - 1, i, depth, e, j);
    }
  }

  /** The tokens from i up to j are the unary expression e. */
  ghost predicate UnaryBetween(ts: seq<Lexeme>, i: nat, depth: nat, e: Expr, j: nat)
    requires Terminated(ts) && i < |ts|
  {
    ParseUnary(ts, i, depth) == Some((e, j))
  }

  lemma UnaryInParentheses(ts: seq<Lexeme>, e: Expr, i: nat, close: nat, j: nat, depth: nat)
    requires Terminated(ts) && i + 2 < close < j < |ts| + 1 && j == close + 1 && depth + 1 <= MAX_DEPTH
    requires e.Unary? && e.op in UNARY_OPERATORS
    requires ts[i] == Lexeme(Punctuation, "(") && ts[i + 1] == Lexeme(Operator, e.op)
    requires ts[close] == Lexeme(Punctuation, ")")
    requires UnaryBetween(ts, i + 2, depth + 1, e.operand, close)
    ensures UnaryBetween(ts, i, depth, e, j)
  {
    assert e == Unary(e.op, e.operand);
    Descend(ts, 0, i + 1, depth + 1, e, close);
  }

  lemma BinaryInParentheses(ts: seq<Lexeme>, e: Expr, i: nat, m: nat, close: nat, j: nat, depth: nat)
    requires Terminated(ts) && i + 1 < m && m + 1 < close < |ts| && j == close + 1 && depth + 1 <= MAX_DEPTH
    requires e.Binary? && LevelOf(e.op) < LEVELS
    requires ts[i] == Lexeme(Punctuation, "(") && ts[m] == Lexeme(Operator, e.op)
    requires ts[close] == Lexeme(Punctuation, ")")
    requires UnaryBetween(ts, i + 1, depth + 1, e.left, m)
    requires UnaryBetween(ts, m + 1, depth + 1, e.right, close)
    ensures UnaryBetween(ts, i, depth, e, j)
  {
    var level := LevelOf(e.op);
    Descend(ts, level + 1, i + 1, depth + 1, e.left, m);
    Descend(ts, level + 1, m + 1, depth + 1, e.right, close);
    assert e == Binary(e.op, e.left, e.right);
    assert ParseRest(ts, level, e, close, depth + 1) == Some((e, close));
    Climb(ts, level, i + 1, depth + 1, e, close);
  }

  /** A printed expression is parsed back, whatever follows it that does not continue a path. */
  lemma {:induction false} PrintedParses(ts: seq<Lexeme>, e: Expr, i: nat, j: nat, depth: nat)
    requires Terminated(ts) && Grammatical(e) && depth + Nesting(e) <= MAX_DEPTH
    requires j == i + |Print(e)| < |ts| && StandsAt(ts, i, Print(e))
    requires EndsPath(ts[j])
    ensures UnaryBetween(ts, i, depth, e, j)
    decreases e, 3
  {
    if e.Path? {
      PathParses(ts, e, i, j, depth);
    } else if e.Unary? {
      UnaryParses(ts, e, i, j, depth);
    } else if e.Binary? {
      BinaryParses(ts, e, i, j, depth);
    }
  }

  lemma PathParses(ts: seq<Lexeme>, e: Expr, i: nat, j: nat, depth: nat)
    requires Terminated(ts) && Grammatical(e) && e.Path? && depth + Nesting(e) <= MAX_DEPTH
    requires j == i + |Print(e)| < |ts| && StandsAt(ts, i, Print(e))
    requires EndsPath(ts[j])
    ensures UnaryBetween(ts, i, depth, e, j)
  {
    StandsApart(ts, i, [Lexeme(Identifier, e.root)], PrintAccessors(e.accessors));
    assert ts[i] == Lexeme(Identifier, e.root);
    AccessorsParse(ts, e.root, [], e.accessors, i + 1, j);
    assert [] + e.accessors == e.accessors;
  }

  lemma {:induction false} UnaryParses(ts: seq<Lexeme>, e: Expr, i: nat, j: nat, depth: nat)
    requires Terminated(ts) && Grammatical(e) && e.Unary? && depth + Nesting(e) <= MAX_DEPTH
    requires j == i + |Print(e)| && StandsAt(ts, i, Print(e))
    ensures UnaryBetween(ts, i, depth, e, j)
    decreases e, 2
  {
    var close := UnaryStands(ts, e.op, e.operand, i);
    PrintedParses(ts, e.operand, i + 2, close, depth + 1);
    UnaryInParentheses(ts, e, i, close, j, depth);
  }

  lemma {:induction false} BinaryParses(ts: seq<Lexeme>, e: Expr, i: nat, j: nat, depth: nat)
    requires Terminated(ts) && Grammatical(e) && e.Binary? && depth + Nesting(e) <= MAX_DEPTH
    requires j == i + |Print(e)| && StandsAt(ts, i, Print(e))
    ensures UnaryBetween(ts, i, depth, e, j)
    decreases e, 2
  {
    BinaryParts(e, depth);
    var m := BinaryStands(ts, e, i, j);
    OperandsParse(ts, e, i + 1, m, j - 1, depth + 1);
    BinaryInParentheses(ts, e, i, m, j - 1, j, depth);
  }

  lemma BinaryParts(e: Expr, depth: nat)
    requires Grammatical(e) && e.Binary? && depth + Nesting(e) <= MAX_DEPTH
    ensures LevelOf(e.op) < LEVELS && Grammatical(e.left) && Grammatical(e.right) && depth + 1 <= MAX_DEPTH
    ensures depth + 1 + Nesting(e.left) <= MAX_DEPTH && depth + 1 + Nesting(e.right) <= MAX_DEPTH
  {
  }

  lemma {:induction false} OperandsParse(ts: seq<Lexeme>, e: Expr, i: nat, m: nat, j: nat, depth: nat)
    requires Terminated(ts) && e.Binary? && Grammatical(e.left) && Grammatical(e.right)
    requires depth + Nesting(e.left) <= MAX_DEPTH && depth + Nesting(e.right) <= MAX_DEPTH
    requires m == i + |Print(e.left)| && j == m + 1 + |Print(e.right)| < |ts|
    requires StandsAt(ts, i, Print(e.left)) && EndsPath(ts[m])
    requires StandsAt(ts, m + 1, Print(e.right)) && EndsPath(ts[j])
    ensures UnaryBetween(ts, i, depth, e.left, m) && UnaryBetween(ts, m + 1, depth, e.right, j)
    decreases e, 1
  {
    PrintedParses(ts, e.left, i, m, depth);
    PrintedParses(ts, e.right, m + 1, j, depth);
  }

  lemma UnaryStands(ts: seq<Lexeme>, op: string, operand: Expr, i: nat) returns (j: nat)
    requires StandsAt(ts, i, Print(Unary(op, operand)))
    ensures j == i + 2 + |Print(operand)| && j + 1 == i + |Print(Unary(op, operand))| && j < |ts|
    ensures ts[i] == Lexeme(Punctuation, "(") && ts[i + 1] == Lexeme(Operator, op)
    ensures StandsAt(ts, i + 2, Print(operand)) && ts[j] == Lexeme(Punctuation, ")")
  {
    var opening, closing := [Lexeme(Punctuation, "("), Lexeme(Operator, op)], [Lexeme(Punctuation, ")")];
    StandsApart(ts, i, opening + Print(operand), closing);
    StandsApart(ts, i, opening, Print(operand));
    j := i + 2 + |Print(operand)|;
  }

  lemma BinaryStands(ts: seq<Lexeme>, e: Expr, i: nat, j: nat) returns (m: nat)
    requires e.Binary? && j == i + |Print(e)| && StandsAt(ts, i, Print(e))
    ensures m == i + 1 + |Print(e.left)| && m + 1 + |Print(e.right)| == j - 1 < |ts|
    ensures ts[i] == Lexeme(Punctuation, "(") && ts[m] == Lexeme(Operator, e.op)
    ensures ts[j - 1] == Lexeme(Punctuation, ")")
    ensures StandsAt(ts, i + 1, Print(e.left)) && StandsAt(ts, m + 1, Print(e.right))
  {
    var opening, middle := Lexeme(Punctuation, "("), Lexeme(Operator, e.op);
    m := i + 1 + |Print(e.left)|;
    assert |[opening] + Print(e.left) + [middle]| == m + 1 - i;
    StandsWrapped(ts, i, opening, Print(e.left), middle);
  }

  lemma StandsWrapped(ts: seq<Lexeme>, i: nat, first: Lexeme, body: seq<Lexeme>, last: Lexeme)
    requires StandsAt(ts, i, [first] + body + [last])
    ensures StandsAt(ts, i + 1, body) && i + 1 + |body| < |ts|
    ensures ts[i] == first && ts[i + 1 + |body|] == last
  {
  }

  /** Printing any expression fully parenthesised, within the depth limit, and parsing it gives it back. */
  lemma PrintParseRoundTrip(e: Expr)
    requires Grammatical(e) && Nesting(e) <= 32
    ensures Terminated(Print(e) + [Lexeme(Eof, "")])
    ensures Parse(Print(e) + [Lexeme(Eof, "")]) == Some(e)
  {
    var ts := Print(e) + [Lexeme(Eof, "")];
    PrintHasNoEof(e);
    PrintedParses(ts, e, 0, |Print(e)|, 0);
    Descend(ts, 0, 0, 0, e, |Print(e)|);
  }

  lemma {:induction false} PrintHasNoEof(e: Expr)
    ensures forall t :: t in Print(e) ==> t.kind != Eof
  {
    match e
    case Path(_, accessors) => AccessorsHaveNoEof(accessors);
    case Unary(_, operand) => PrintHasNoEof(operand);
    case Binary(_, left, right) => PrintHasNoEof(left); PrintHasNoEof(right);
    case _ =>
  }

  lemma {:induction false} AccessorsHaveNoEof(accessors: seq<Accessor>)
    ensures forall t :: t in PrintAccessors(accessors) ==> t.kind != Eof
    decreases |accessors|
  {
    if accessors == [] {
    } else {
      AccessorsHaveNoEof(accessors[1..]);
    }
  }
}
