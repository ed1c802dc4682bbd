/**
 The tree evaluator, and what it promises: operator laws, rewrites that keep an
 expression's meaning, and what an expression's value depends on.
 */
module Evaluation {
  import opened Symbols
  import opened Parsing
  import opened Values

  /**
   What the evaluator takes from Python: str(v) of a value that is no string, and
   re.match(pattern, text) (None where the pattern does not compile).
   */
  datatype Host = Host(repr: Value -> string, matches: (string, string) -> Option<bool>)

  type Object = map<string, Value>

  function StrOf(h: Host, v: Value): string {
    if v.StrValue? then v.s else h.repr(v)
  }

  function Pow10(n: nat): nat
    ensures Pow10(n) > 0
  {
    if n == 0 then 1 else 10 * Pow10(n - 1)
  }

  function LitValue(l: Lit): Value {
    match l
    case StrLit(text) => StrValue(text)
    case IntLit(n) => IntValue(n)
    case DecLit(m, scale) => FloatValue(m as real / Pow10(scale) as real)
  }

  /** obj.get(property) */
  function Property(obj: Object, property: string): Value {
    if property in obj then obj[property] else NoneValue
  }

  /** obj.get('tags', {}) */
  function Tags(obj: Object): Value {
    if "tags" in obj then obj["tags"] else DictValue(map[])
  }

  /** A boolean, or the error raised instead. */
  function Bool(r: Option<bool>): Result<Value> {
    match r
    case Some(b) => Ok(BoolValue(b))
    case None => Err
  }

  function AsSome(r: Result<Value>): Result<Option<Value>> {
    match r
    case Ok(v) => Ok(Some(v))
    case Err => Err
  }

  // ---------- The evaluator ----------

  function Evaluate(h: Host, obj: Object, e: Expr): Result<Value>
    decreases e
  {
    match e
    case Literal(l) => Ok(LitValue(l))
    case ListLiteral(vs) =>
      var items :- EvaluateAll(h, obj, vs);
      Ok(ListValue(items))
    case PropertyAccess(_, p) => Ok(Property(obj, p))
    case FunctionCall(name, args) =>
      if !IsFunction(name) || |args| != 1 then Err
      else
        var v :- Evaluate(h, obj, args[0]);
        Apply(h, obj, name, v)
    case UnaryOp(op, x) =>
      if !op.NOT? then Err
      else
        var v :- Evaluate(h, obj, x);
        Ok(BoolValue(!Truthy(v)))
    case BinaryOp(op, l, r) =>
      var a :- Evaluate(h, obj, l);
      if op.AND? then if Truthy(a) then Evaluate(h, obj, r) else Ok(a)
      else if op.OR? then if Truthy(a) then Ok(a) else Evaluate(h, obj, r)
      else
        var b :- Evaluate(h, obj, r);
        Operate(h, op, a, b)
    case CaseExpression(subject, whens, otherwise) =>
      var v :- match subject case None => Ok(None) case Some(s) => AsSome(Evaluate(h, obj, s));
      var taken :- EvaluateWhens(h, obj, v, whens);
      if taken.Some? then Ok(taken.value)
      else if otherwise.Some? then Evaluate(h, obj, otherwise.value)
      else Ok(NoneValue)
  }

  function EvaluateAll(h: Host, obj: Object, vs: seq<Expr>): Result<seq<Value>>
    decreases vs
  {
    if vs == [] then Ok([])
    else
      var v :- Evaluate(h, obj, vs[0]);
      var rest :- EvaluateAll(h, obj, vs[1..]);
      Ok([v] + rest)
  }

  /** Whether a WHEN clause is taken: its condition equals the subject, or is true if there is none. */
  function Taken(h: Host, obj: Object, subject: Option<Value>, w: When): Result<bool>
    decreases w
  {
    var c :- Evaluate(h, obj, w.condition);
    Ok(match subject case Some(v) => Equal(v, c) case None => Truthy(c))
  }

  function ResultOf(h: Host, obj: Object, w: When): Result<Value>
    decreases w
  {
    Evaluate(h, obj, w.result)
  }

  /** The result of the first clause taken, if any is. */
  function EvaluateWhens(h: Host, obj: Object, subject: Option<Value>, whens: seq<When>): Result<Option<Value>>
    decreases whens
  {
    if whens == [] then Ok(None)
    else
      var taken :- Taken(h, obj, subject, whens[0]);
      if taken then AsSome(ResultOf(h, obj, whens[0]))
      else EvaluateWhens(h, obj, subject, whens[1..])
  }

  function Apply(h: Host, obj: Object, name: TokenType, v: Value): Result<Value>
    requires IsFunction(name)
  {
    match name
    case HAS_TAG => Bool(Member(v, Tags(obj)))
    case TAG =>
      if !Tags(obj).DictValue? || v.ListValue? || v.DictValue? then Err
      else Ok(if v.StrValue? then Property(Tags(obj).fields, v.s) else NoneValue)
    case LENGTH =>
      if !Truthy(v) then Ok(IntValue(0))
      else (match Length(v) case Some(n) => Ok(IntValue(n)) case None => Err)
    case UPPER => Ok(StrValue(if Truthy(v) then Upper(StrOf(h, v)) else ""))
    case LOWER => Ok(StrValue(if Truthy(v) then Lower(StrOf(h, v)) else ""))
  }

  predicate Holds(op: TokenType, o: Ordering) {
    match op
    case GT => o.Greater?
    case LT => o.Less?
    case GTE => !o.Less?
    case _ => !o.Greater?
  }

  /** An ordering operator: False against None, an error where Python cannot order the operands. */
  function Compared(op: TokenType, a: Value, b: Value): Result<Value> {
    if a.NoneValue? || b.NoneValue? then Ok(BoolValue(false))
    else match Order(a, b) case Some(o) => Ok(BoolValue(Holds(op, o))) case None => Err
  }

  function Operate(h: Host, op: TokenType, a: Value, b: Value): Result<Value> {
    match op
    case EQ => Ok(BoolValue(Equal(a, b)))
    case NEQ => Ok(BoolValue(!Equal(a, b)))
    case GT => Compared(op, a, b)
    case LT => Compared(op, a, b)
    case GTE => Compared(op, a, b)
    case LTE => Compared(op, a, b)
    case MATCHES =>
      if a.NoneValue? then Ok(BoolValue(false)) else Bool(h.matches(StrOf(h, b), StrOf(h, a)))
    case IN => if b.ListValue? then Bool(Member(a, b)) else Err
    case CONTAINS =>
      if a.NoneValue? then Ok(BoolValue(false))
      else if a.ListValue? || a.DictValue? then Bool(Member(b, a))
      else Ok(BoolValue(Substring(StrOf(h, b), StrOf(h, a))))
    case _ => Err
  }

  /** What a rule asks of a value: whether it is true, or that it could not be computed. */
  function Truth(h: Host, obj: Object, e: Expr): Result<bool> {
    match Evaluate(h, obj, e)
    case Ok(v) => Ok(Truthy(v))
    case Err => Err
  }
}
