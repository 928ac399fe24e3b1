/** The one-pass evaluator: it computes values while it reads tokens and never builds a tree. */
module ExpressionParser {
  import opened Options
  import opened Expressions

  /** The parse fails, or what was parsed has no value. */
  ghost predicate Fails(host: Host, context: Context, parsed: Option<(Expr, nat)>) {
    parsed.Some? ==> Eval(host, context, parsed.value.0).None?
  }

  lemma {:induction false} RestFails(host: Host, context: Context, ts: seq<Lexeme>, level: nat, left: Expr, i: nat,
      depth: nat)
    requires Terminated(ts) && i < |ts| && level < LEVELS
    requires Eval(host, context, left).None?
    ensures Fails(host, context, ParseRest(ts, level, left, i, depth))
    decreases |ts| - i
  {
    if IsBinaryOperator(ts[i], level) {
      var next := ParseLevel(ts, level + 1, i + 1, depth);
      if next.Some? {
        RestFails(host, context, ts, level, Binary(ts[i].text, left, next.value.0), next.value.1, depth);
      }
    }
  }

  /** A level whose first operand fails, fails. */
  lemma FirstFails(host: Host, context: Context, ts: seq<Lexeme>, level: nat, i: nat, depth: nat)
    requires Terminated(ts) && i < |ts| && level < LEVELS
    requires Fails(host, context, ParseLevel(ts, level + 1, i, depth))
    ensures Fails(host, context, ParseLevel(ts, level, i, depth))
  {
    var first := ParseLevel(ts, level + 1, i, depth);
    if first.Some? { RestFails(host, context, ts, level, first.value.0, first.value.1, depth); }
  }

  /** A right operand that fails makes the whole level fail, however the rest of the level would parse. */
  lemma RightFails(host: Host, context: Context, ts: seq<Lexeme>, level: nat, left: Expr, i: nat, depth: nat)
    requires Terminated(ts) && i < |ts| && level < LEVELS && IsBinaryOperator(ts[i], level)
    requires Fails(host, context, ParseLevel(ts, level + 1, i + 1, depth))
    ensures Fails(host, context, ParseRest(ts, level, left, i, depth))
  {
    var next := ParseLevel(ts, level + 1, i + 1, depth);
    if next.Some? {
      RestFails(host, context, ts, level, Binary(ts[i].text, left, next.value.0), next.value.1, depth);
    }
  }

  /** So does an operator that rejects its operands. */
  lemma ApplicationFails(host: Host, context: Context, ts: seq<Lexeme>, level: nat, left: Expr, i: nat, depth: nat)
    requires Terminated(ts) && i < |ts| && level < LEVELS && IsBinaryOperator(ts[i], level)
    requires ParseLevel(ts, level + 1, i + 1, depth).Some?
    requires Eval(host, context, Binary(ts[i].text, left, ParseLevel(ts, level + 1, i + 1, depth).value.0)).None?
    ensures Fails(host, context, ParseRest(ts, level, left, i, depth))
  {
    var next := ParseLevel(ts, level + 1, i + 1, depth);
    RestFails(host, context, ts, level, Binary(ts[i].text, left, next.value.0), next.value.1, depth);
  }

  class SafeExpressionParser {
    const tokens: seq<Lexeme>
    const context: Context
    const host: Host
    var index: nat
    var depth: nat

    ghost predicate Valid()
      reads this
    {
      Terminated(tokens) && index < |tokens|
    }

    /** The method's answer is the meaning of what the grammar finds at this place, and it stopped where that ends. */
    ghost predicate Agrees(r: Option<Value>, parsed: Option<(Expr, nat)>)
      reads this
    {
      match r
      case None => Fails(host, context, parsed)
      case Some(v) => parsed.Some? && Eval(host, context, parsed.value.0) == Some(v) && index == parsed.value.1
    }

    /** What a level has read so far is worth `value`, and the rest of the level continues from here. */
    ghost predicate Midway(level: nat, start: nat, left: Expr, value: Value)
      requires Valid() && start < index && level < LEVELS
      reads this
    {
      && Eval(host, context, left) == Some(value)
      && ParseLevel(tokens, level, start, depth) == ParseRest(tokens, level, left, index, depth)
    }

    constructor (tokens: seq<Lexeme>, context: Context, host: Host)
      requires Terminated(tokens)
      ensures Valid() && index == 0 && depth == 0
      ensures this.tokens == tokens && this.context == context && this.host == host
    {
      this.tokens, this.context, this.host := tokens, context, host;
      index, depth := 0, 0;
    }

    /** The value of a whole token list is the value of its abstract syntax; either has none when the other has none. */
    method Parse() returns (r: Option<Value>)
      requires Valid() && index == 0 && depth == 0
      modifies this
      ensures r == match Expressions.Parse(tokens) case None => None case Some(e) => Eval(host, context, e)
    {
      r := ParseOr();
      if r.Some? && tokens[index].kind != Eof { r := None; }
    }

    method ParseOr() returns (r: Option<Value>)
      requires Valid()
      modifies this
      ensures Valid() && depth == old(depth) && index >= old(index)
      ensures Agrees(r, ParseLevel(tokens, 0, old(index), old(depth)))
      decreases |tokens| - index, 9
    {
      ghost var start := index;
      r := ParseAnd();
      if r.None? {
        FirstFails(host, context, tokens, 0, start, depth);
        return;
      }
      var value := r.value;
      ghost var left := ParseLevel(tokens, 1, start, depth).value.0;
      while IsBinaryOperator(tokens[index], 0)
        invariant Valid() && depth == old(depth) && index > start
        invariant Midway(0, start, left, value)
        decreases |tokens| - index
      {
        ghost var at := index;
        var op := tokens[index].text;
        index := index + 1;
        var right := ParseAnd();
        if right.None? {
          RightFails(host, context, tokens, 0, left, at, depth);
          return None;
        }
        ghost var operand := ParseLevel(tokens, 1, at + 1, depth).value.0;
        value := Bool(Truthy(value) || Truthy(right.value));
        left := Binary(op, left, operand);
      }
      r := Some(value);
    }

    method ParseAnd() returns (r: Option<Value>)
      requires Valid()
      modifies this
      ensures Valid() && depth == old(depth) && index >= old(index)
      ensures Agrees(r, ParseLevel(tokens, 1, old(index), old(depth)))
      decreases |tokens| - index, 8
    {
      ghost var start := index;
      r := ParseEquality();
      if r.None? {
        FirstFails(host, context, tokens, 1, start, depth);
        return;
      }
      var value := r.value;
      ghost var left := ParseLevel(tokens, 2, start, depth).value.0;
      while IsBinaryOperator(tokens[index], 1)
        invariant Valid() && depth == old(depth) && index > start
        invariant Midway(1, start, left, value)
        decreases |tokens| - index
      {
        ghost var at := index;
        var op := tokens[index].text;
        index := index + 1;
        var right := ParseEquality();
        if right.None? {
          RightFails(host, context, tokens, 1, left, at, depth);
          return None;
        }
        ghost var operand := ParseLevel(tokens, 2, at + 1, depth).value.0;
        value := Bool(Truthy(value) && Truthy(right.value));
        left := Binary(op, left, operand);
      }
      r := Some(value);
    }

    method ParseEquality() returns (r: Option<Value>)
      requires Valid()
      modifies this
      ensures Valid() && depth == old(depth) && index >= old(index)
      ensures Agrees(r, ParseLevel(tokens, 2, old(index), old(depth)))
      decreases |tokens| - index, 7
    {
      ghost var start := index;
      r := ParseComparison();
      if r.None? {
        FirstFails(host, context, tokens, 2, start, depth);
        return;
      }
      var value := r.value;
      ghost var left := ParseLevel(tokens, 3, start, depth).value.0;
      while IsBinaryOperator(tokens[index], 2)
        invariant Valid() && depth == old(depth) && index > start
        invariant Midway(2, start, left, value)
        decreases |tokens| - index
      {
        ghost var at := index;
        var op := tokens[index].text;
        index := index + 1;
        var right := ParseComparison();
        if right.None? {
          RightFails(host, context, tokens, 2, left, at, depth);
          return None;
        }
        ghost var operand := ParseLevel(tokens, 3, at + 1, depth).value.0;
        value := Equate(op, value, right.value);
        left := Binary(op, left, operand);
      }
      r := Some(value);
    }

    method ParseComparison() returns (r: Option<Value>)
      requires Valid()
      modifies this
      ensures Valid() && depth == old(depth) && index >= old(index)
      ensures Agrees(r, ParseLevel(tokens, 3, old(index), old(depth)))
      decreases |tokens| - index, 6
    {
      ghost var start := index;
      r := ParseAdditive();
      if r.None? {
        FirstFails(host, context, tokens, 3, start, depth);
        return;
      }
      var value := r.value;
      ghost var left := ParseLevel(tokens, 4, start, depth).value.0;
      while IsBinaryOperator(tokens[index], 3)
        invariant Valid() && depth == old(depth) && index > start
        invariant Midway(3, start, left, value)
        decreases |tokens| - index
      {
        ghost var at := index;
        var op := tokens[index].text;
        index := index + 1;
        var right := ParseAdditive();
        if right.None? {
          RightFails(host, context, tokens, 3, left, at, depth);
          return None;
        }
        ghost var operand := ParseLevel(tokens, 4, at + 1, depth).value.0;
        value := Bool(Relation(host, op, value, right.value));
        left := Binary(op, left, operand);
      }
      r := Some(value);
    }

    method ParseAdditive() returns (r: Option<Value>)
      requires Valid()
      modifies this
      ensures Valid() && depth == old(depth) && index >= old(index)
      ensures Agrees(r, ParseLevel(tokens, 4, old(index), old(depth)))
      decreases |tokens| - index, 5
    {
      ghost var start := index;
      r := ParseMultiplicative();
      if r.None? {
        FirstFails(host, context, tokens, 4, start, depth);
        return;
      }
      var value := r.value;
      ghost var left := ParseLevel(tokens, 5, start, depth).value.0;
      while IsBinaryOperator(tokens[index], 4)
        invariant Valid() && depth == old(depth) && index > start
        invariant Midway(4, start, left, value)
        decreases |tokens| - index
      {
        ghost var at := index;
        var op := tokens[index].text;
        index := index + 1;
        var right := ParseMultiplicative();
        if right.None? {
          RightFails(host, context, tokens, 4, left, at, depth);
          return None;
        }
        ghost var operand := ParseLevel(tokens, 5, at + 1, depth).value.0;
        var applied := AddOrSubtract(op, value, right.value);
        if applied.None? {
          ApplicationFails(host, context, tokens, 4, left, at, depth);
          return None;
        }
        value := applied.value;
        left := Binary(op, left, operand);
      }
      r := Some(value);
    }

    method ParseMultiplicative() returns (r: Option<Value>)
      requires Valid()
      modifies this
      ensures Valid() && depth == old(depth) && index >= old(index)
      ensures Agrees(r, ParseLevel(tokens, 5, old(index), old(depth)))
      decreases |tokens| - index, 4
    {
      ghost var start := index;
      r := ParseUnary();
      if r.None? {
        FirstFails(host, context, tokens, 5, start, depth);
        return;
      }
      var value := r.value;
      ghost var left := ParseLevel(tokens, 6, start, depth).value.0;
      while IsBinaryOperator(tokens[index], 5)
        invariant Valid() && depth == old(depth) && index > start
        invariant Midway(5, start, left, value)
        decreases |tokens| - index
      {
        ghost var at := index;
        var op := tokens[index].text;
        index := index + 1;
        var right := ParseUnary();
        if right.None? {
          RightFails(host, context, tokens, 5, left, at, depth);
          return None;
        }
        ghost var operand := ParseLevel(tokens, 6, at + 1, depth).value.0;
        var applied := MultiplyOrDivide(op, value, right.value);
        if applied.None? {
          ApplicationFails(host, context, tokens, 5, left, at, depth);
          return None;
        }
        value := applied.value;
        left := Binary(op, left, operand);
      }
      r := Some(value);
    }

    method Equate(op: string, left: Value, right: Value) returns (v: Value)
      requires LevelOf(op) == 2
      ensures Apply(host, op, left, right) == Some(v)
    {
      if op == "==" || op == "===" {
        v := Bool(StrictlyEqual(left, right));
      } else {
        v := Bool(!StrictlyEqual(left, right));
      }
    }

    method AddOrSubtract(op: string, left: Value, right: Value) returns (r: Option<Value>)
      requires LevelOf(op) == 4
      ensures r == Apply(host, op, left, right)
    {
      if op == "+" && (left.Str? || right.Str?) {
        r := Some(Str(host.show(left) + host.show(right)));
      } else if !left.Num? || !right.Num? {
        r := None;
      } else if op == "+" {
        r := Some(Num(left.r + right.r));
      } else {
        r := Some(Num(left.r - right.r));
      }
    }

    method MultiplyOrDivide(op: string, left: Value, right: Value) returns (r: Option<Value>)
      requires LevelOf(op) == 5
      ensures r == Apply(host, op, left, right)
    {
      if !left.Num? || !right.Num? {
        r := None;
      } else if (op == "/" || op == "%") && right.r == 0.0 {
        r := None;
      } else if op == "*" {
        r := Some(Num(Product(left.r, right.r)));
      } else if op == "/" {
        r := Some(Num(Quotient(left.r, right.r)));
      } else {
        r := Some(Num(Remainder(left.r, right.r)));
      }
    }

    method ParseUnary() returns (r: Option<Value>)
      requires Valid()
      modifies this
      ensures Valid() && depth == old(depth) && index >= old(index)
      ensures Agrees(r, ParseLevel(tokens, LEVELS, old(index), old(depth)))
      decreases |tokens| - index, 2
    {
      if tokens[index].kind == Operator && tokens[index].text in UNARY_OPERATORS {
        var op := tokens[index].text;
        index := index + 1;
        var operand := ParseUnary();
        if operand.None? { return None; }
        if op == "!" {
          r := Some(Bool(!Truthy(operand.value)));
        } else if !operand.value.Num? {
          r := None;
        } else if op == "-" {
          r := Some(Num(-operand.value.r));
        } else {
          r := operand;
        }
      } else {
        r := ParsePrimary();
      }
    }

    method ParsePrimary() returns (r: Option<Value>)
      requires Valid()
      modifies this
      ensures Valid() && depth == old(depth) && index >= old(index)
      ensures Agrees(r, Expressions.ParsePrimary(tokens, old(index), old(depth)))
      decreases |tokens| - index, 1
    {
      depth := depth + 1;
      if depth > MAX_DEPTH {
        depth := depth - 1;
        return None;
      }
      var token := tokens[index];
      if token.kind == Number {
        index := index + 1;
        r := Some(Num(host.number(token.text)));
      } else if token.kind == String {
        index := index + 1;
        r := Some(Str(token.text));
      } else if token.kind == Identifier {
        index := index + 1;
        if token.text in KEYWORDS {
          r := Some(KeywordValue(token.text));
        } else if token.text in ROOTS {
          r := ParseAccessors(token.text);
        } else {
          r := None;
        }
      } else if Is(token, Punctuation, "(") {
        index := index + 1;
        r := ParseOr();
        if r.Some? {
          if Is(tokens[index], Punctuation, ")") {
            index := index + 1;
          } else {
            r := None;
          }
        }
      } else {
        r := None;
      }
      depth := depth - 1;
    }

    /** Reads `.name` and `[literal]` after a context variable, looking each property up as it goes. */
    method ParseAccessors(root: string) returns (r: Option<Value>)
      requires Valid()
      modifies this`index
      ensures Valid() && index >= old(index)
      ensures Agrees(r, Expressions.ParseAccessors(tokens, root, [], old(index)))
      decreases |tokens| - index, 0
    {
      ghost var start := index;
      ghost var accessors: seq<Accessor> := [];
      var value := if root in context then context[root] else Undefined;
      while true
        invariant Valid() && index >= start
        invariant ReadPath(host, context, root, accessors) == Some(value)
        invariant Expressions.ParseAccessors(tokens, root, [], start)
          == Expressions.ParseAccessors(tokens, root, accessors, index)
        decreases |tokens| - index
      {
        var outcome, accessor := NextAccessor(root, accessors);
        if outcome == NoMore { return Some(value); }
        if outcome == Malformed { return None; }
        var read := ReadProperty(host, value, PropertyName(accessor));
        accessors := accessors + [accessor];
        if read.None? {
          PathFails(host, context, tokens, root, accessors, index);
          return None;
        }
        value := read.value;
      }
    }

    method NextAccessor(ghost root: string, ghost accessors: seq<Accessor>)
      returns (outcome: AccessorOutcome, accessor: Accessor)
      requires Valid()
      modifies this`index
      ensures Valid()
      ensures index >= old(index) && (outcome == Found ==> index > old(index))
      ensures outcome == NoMore ==> index == old(index)
      ensures Expressions.ParseAccessors(tokens, root, accessors, old(index)) ==
        match outcome
        case Malformed => None
        case NoMore => Some((Path(root, accessors), index))
        case Found => Expressions.ParseAccessors(tokens, root, accessors + [accessor], index)
    {
      accessor := Dot("");
      if Is(tokens[index], Punctuation, ".") {
        index := index + 1;
        if tokens[index].kind != Identifier { return Malformed, accessor; }
        accessor := Dot(tokens[index].text);
        index := index + 1;
        outcome := Found;
      } else if Is(tokens[index], Punctuation, "[") {
        index := index + 1;
        if tokens[index].kind != String && tokens[index].kind != Number { return Malformed, accessor; }
        accessor := Bracket(tokens[index].text, tokens[index].kind == Number);
        index := index + 1;
        if !Is(tokens[index], Punctuation, "]") { return Malformed, accessor; }
        index := index + 1;
        outcome := Found;
      } else if Is(tokens[index], Punctuation, "(") {
        outcome := Malformed;
      } else {
        outcome := NoMore;
      }
    }
  }

  datatype AccessorOutcome = Found | NoMore | Malformed

  lemma {:induction false} PathFails(host: Host, context: Context, ts: seq<Lexeme>, root: string,
      accessors: seq<Accessor>, i: nat)
    requires Terminated(ts) && i < |ts|
    requires ReadPath(host, context, root, accessors).None?
    ensures Fails(host, context, Expressions.ParseAccessors(ts, root, accessors, i))
    decreases |ts| - i
  {
    if Is(ts[i], Punctuation, ".") {
      if ts[i + 1].kind == Identifier {
        PathFails(host, context, ts, root, accessors + [Dot(ts[i + 1].text)], i + 2);
      }
    } else if Is(ts[i], Punctuation, "[") {
      if (ts[i + 1].kind == String || ts[i + 1].kind == Number) && Is(ts[i + 2], Punctuation, "]") {
        var a := Bracket(ts[i + 1].text, ts[i + 1].kind == Number);
        PathFails(host, context, ts, root, accessors + [a], i + 3);
      }
    }
  }
}
