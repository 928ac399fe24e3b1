/** What the operators, the prefix operators and the property accesses of the language yield, as laws. */
module ExpressionValues {
  import opened Options
  import opened Expressions
  import opened ExpressionLaws

  /** Every other value counts as true. */
  const FALSY: set<Value> := {Undefined, Null, Bool(false), Num(0.0), Str("")}

  function Of(host: Host, context: Context, op: string, a: Expr, b: Expr): Option<Value> {
    Eval(host, context, Binary(op, a, b))
  }

  /** || and && yield booleans, negation turns them into each other, and both operands have to have a value. */
  lemma Connectives(host: Host, context: Context, a: Expr, b: Expr, x: Value, y: Value)
    requires Eval(host, context, a) == Some(x) && Eval(host, context, b) == Some(y)
    ensures Of(host, context, "||", a, b) == Some(Bool(x !in FALSY || y !in FALSY))
    ensures Of(host, context, "&&", a, b) == Some(Bool(x !in FALSY && y !in FALSY))
    ensures Eval(host, context, Unary("!", a)) == Some(Bool(x in FALSY))
  {
  }

  lemma BothOperandsAreEvaluated(host: Host, context: Context, op: string, a: Expr, b: Expr)
    ensures Of(host, context, op, a, b).Some? ==> Eval(host, context, a).Some? && Eval(host, context, b).Some?
    ensures Eval(host, context, a) == None ==> Eval(host, context, Unary(op, a)) == None
  {
  }

  /** In a || b && c the conjunction comes first. */
  lemma OrOfAnd(host: Host, context: Context, a: Expr, b: Expr, c: Expr, x: Value, y: Value, z: Value)
    requires Grammatical(a) && Grammatical(b) && Grammatical(c)
    requires Nesting(a) <= 32 && Nesting(b) <= 32 && Nesting(c) <= 32
    requires Eval(host, context, a) == Some(x)
    requires Eval(host, context, b) == Some(y) && Eval(host, context, c) == Some(z)
    ensures var ts := Print(a) + [Op("||")] + Print(b) + [Op("&&")] + Print(c) + [END];
      Terminated(ts) && Parse(ts).Some? &&
      Eval(host, context, Parse(ts).value) == Some(Bool(x !in FALSY || (y !in FALSY && z !in FALSY)))
  {
    PrintedIsOperand(a);
    PrintedIsOperand(b);
    PrintedIsOperand(c);
    StrongerRowBindsFirst(0, "||", 1, "&&", Print(a), Print(b), Print(c), a, b, c);
    Connectives(host, context, b, c, y, z);
    Connectives(host, context, a, Binary("&&", b, c), x, Bool(y !in FALSY && z !in FALSY));
  }

  /** Two values are the same when they are of one kind with the same content, objects when they are one object; == is
      no laxer than ===. */
  lemma Equality(host: Host, context: Context, a: Expr, b: Expr, x: Value, y: Value)
    requires Eval(host, context, a) == Some(x) && Eval(host, context, b) == Some(y)
    ensures var same := if x.Obj? && y.Obj? then x.ref == y.ref else x == y;
      && Of(host, context, "===", a, b) == Of(host, context, "==", a, b) == Some(Bool(same))
      && Of(host, context, "!==", a, b) == Of(host, context, "!=", a, b) == Some(Bool(!same))
  {
  }

  /** Numbers are compared as such, anything else as JavaScript does. */
  lemma Comparisons(host: Host, context: Context, a: Expr, b: Expr, x: Value, y: Value)
    requires Eval(host, context, a) == Some(x) && Eval(host, context, b) == Some(y)
    ensures x.Num? && y.Num? ==>
      && Of(host, context, "<", a, b) == Of(host, context, ">", b, a) == Some(Bool(x.r < y.r))
      && Of(host, context, "<=", a, b) == Of(host, context, ">=", b, a) == Some(Bool(x.r < y.r || x.r == y.r))
    ensures !x.Num? || !y.Num? ==>
      forall op :: op in {">", ">=", "<", "<="} ==> Of(host, context, op, a, b) == Some(Bool(host.compare(op, x, y)))
  {
  }

  /** Subtraction undoes addition, and division multiplication. */
  lemma NumbersAddAndDivide(host: Host, context: Context, a: Expr, b: Expr, x: real, y: real)
    returns (difference: real, quotient: real)
    requires Eval(host, context, a) == Some(Num(x)) && Eval(host, context, b) == Some(Num(y))
    ensures Of(host, context, "+", a, b) == Some(Num(x + y)) && Of(host, context, "*", a, b) == Some(Num(x * y))
    ensures Of(host, context, "-", a, b) == Some(Num(difference)) && difference + y == x
    ensures y != 0.0 ==> Of(host, context, "/", a, b) == Some(Num(quotient)) && quotient * y == x
    ensures y == 0.0 ==> Of(host, context, "/", a, b) == None
  {
    difference := x - y;
    quotient := if y != 0.0 then Quotient(x, y) else 0.0;
  }

  /** The remainder is what an integral multiple of the divisor leaves, smaller than the divisor and of the sign of the
      dividend. */
  lemma RemainderIsWhatIsLeft(host: Host, context: Context, a: Expr, b: Expr, x: real, y: real)
    returns (k: int, m: real)
    requires Eval(host, context, a) == Some(Num(x)) && Eval(host, context, b) == Some(Num(y))
    ensures y == 0.0 ==> Of(host, context, "%", a, b) == None
    ensures y != 0.0 ==>
      && Of(host, context, "%", a, b) == Some(Num(m)) && x == y * k as real + m
      && (if y > 0.0 then -y < m < y else y < m < -y)
      && (m == 0.0 || (m > 0.0 <==> x > 0.0))
  {
    k, m := 0, 0.0;
    if y != 0.0 {
      m := Remainder(x, y);
      k := RemainderDivides(x, y, m);
    }
  }

  lemma RemainderDivides(x: real, y: real, m: real) returns (k: int)
    requires y != 0.0 && m == Remainder(x, y)
    ensures x == y * k as real + m
    ensures if y > 0.0 then -y < m < y else y < m < -y
    ensures m == 0.0 || (m > 0.0 <==> x > 0.0)
  {
    k := Truncate(x / y);
    RemainderIsSmall(x, y, k, m);
  }

  lemma RemainderIsSmall(x: real, y: real, k: int, m: real)
    requires y != 0.0 && k == Truncate(x / y) && m == x - y * k as real
    ensures if y > 0.0 then -y < m < y else y < m < -y
    ensures m == 0.0 || (m > 0.0 <==> x > 0.0)
  {
    var q := x / y;
    var f := q - k as real;
    assert q * y == x;
    if q >= 0.0 {
      assert 0.0 <= f < 1.0;
    } else {
      assert -1.0 < f <= 0.0;
    }
    var product := f * y;
    ProductOfADifference(q, k as real, y);
    assert m == product;
    ScaledFraction(f, y, product);
    SignOfAProduct(q, y, x);
    SignOfAProduct(f, y, product);
  }

  lemma ProductOfADifference(q: real, k: real, y: real)
    ensures (q - k) * y == q * y - y * k
  {
  }

  lemma SignOfAProduct(q: real, y: real, product: real)
    requires y != 0.0 && product == q * y
    ensures product > 0.0 <==> (q > 0.0 && y > 0.0) || (q < 0.0 && y < 0.0)
    ensures product == 0.0 <==> q == 0.0
  {
  }

  lemma ScaledFraction(f: real, y: real, product: real)
    requires -1.0 < f < 1.0 && y != 0.0 && product == f * y
    ensures if y > 0.0 then -y < product < y else y < product < -y
  {
    if y > 0.0 {
      assert (1.0 - f) * y > 0.0 && (1.0 + f) * y > 0.0;
    } else {
      assert (1.0 - f) * y < 0.0 && (1.0 + f) * y < 0.0;
    }
  }

  /** A text on either side makes + a concatenation. Otherwise arithmetic is for numbers only. */
  lemma OnlyNumbersCompute(host: Host, context: Context, op: string, a: Expr, b: Expr, x: Value, y: Value)
    requires Eval(host, context, a) == Some(x) && Eval(host, context, b) == Some(y) && !(x.Num? && y.Num?)
    requires op in {"+", "-", "*", "/", "%"}
    ensures Of(host, context, op, a, b) ==
      if op == "+" && (x.Str? || y.Str?) then Some(Str(host.show(x) + host.show(y))) else None
  {
  }

  lemma Signs(host: Host, context: Context, a: Expr, x: Value) returns (negated: real)
    requires Eval(host, context, a) == Some(x)
    ensures Eval(host, context, Unary("+", a)) == if x.Num? then Some(x) else None
    ensures if x.Num? then Eval(host, context, Unary("-", a)) == Some(Num(negated)) && negated + x.r == 0.0
      else Eval(host, context, Unary("-", a)) == None
  {
    negated := if x.Num? then -x.r else 0.0;
  }

  // ----- names and properties -----

  lemma Keywords(host: Host, context: Context)
    ensures Eval(host, context, Keyword("true")) == Some(Bool(true))
    ensures Eval(host, context, Keyword("false")) == Some(Bool(false))
    ensures Eval(host, context, Keyword("null")) == Some(Null)
  {
  }

  /** An access reads an own field of an object, dot or bracket, and never a forbidden name, own field or not. What
      has no such property yields undefined. */
  lemma Accesses(host: Host, context: Context, root: string, accessors: seq<Accessor>, a: Accessor)
    ensures var property := match a case Dot(name) => name case Bracket(key, _) => key;
      var forbidden := property in {
        "__proto__", "prototype", "constructor", "hasOwnProperty", "isPrototypeOf", "propertyIsEnumerable",
        "toLocaleString", "toString", "valueOf", "__defineGetter__", "__defineSetter__", "__lookupGetter__",
        "__lookupSetter__"};
      Eval(host, context, Path(root, accessors + [a])) ==
        match Eval(host, context, Path(root, accessors))
        case None => None
        case Some(v) =>
          if forbidden then None
          else if v.Obj? && property in v.fields then Some(v.fields[property])
          else if v.Str? && host.stringProperty(v.s, property).Some? then host.stringProperty(v.s, property)
          else Some(Undefined)
  {
    assert (accessors + [a])[..|accessors|] == accessors;
  }

  /** The path without accesses is what the context has under the name. */
  lemma Roots(host: Host, context: Context, root: string)
    ensures Eval(host, context, Path(root, [])) == Some(if root in context then context[root] else Undefined)
  {
  }
}
