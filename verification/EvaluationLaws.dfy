/**
 Laws of the evaluator: what its operators mean to one another, rewrites that
 keep truth and errors, and what an expression's value depends on.
 */
module EvaluationLaws {
  import opened Symbols
  import opened Parsing
  import opened Values
  import opened Evaluation

  // ---------- Operators ----------

  lemma {:induction false} ComparedConverse(a: Value, b: Value)
    ensures Compared(GT, a, b) == Compared(LT, b, a) && Compared(GTE, a, b) == Compared(LTE, b, a)
  {
    OrderTrichotomy(a, b);
  }

  /** A strict operator: both operands are evaluated, then combined. */
  function Strict(h: Host, op: TokenType, a: Result<Value>, b: Result<Value>): Result<Value> {
    if a.Ok? && b.Ok? then Operate(h, op, a.value, b.value) else Err
  }

  lemma {:induction false} StrictConverse(h: Host, a: Result<Value>, b: Result<Value>)
    ensures Strict(h, GT, a, b) == Strict(h, LT, b, a) && Strict(h, GTE, a, b) == Strict(h, LTE, b, a)
  {
    if a.Ok? && b.Ok? { ComparedConverse(a.value, b.value); }
  }

  lemma {:induction false} BinaryIsStrict(h: Host, obj: Object, op: TokenType, l: Expr, r: Expr)
    requires !op.AND? && !op.OR?
    ensures Evaluate(h, obj, BinaryOp(op, l, r)) == Strict(h, op, Evaluate(h, obj, l), Evaluate(h, obj, r))
  {
  }

  /** Swapping the operands of an ordering turns it round, for every pair of expressions, errors included. */
  lemma {:induction false} OrderingsConverse(h: Host, obj: Object, l: Expr, r: Expr)
    ensures Evaluate(h, obj, BinaryOp(GT, l, r)) == Evaluate(h, obj, BinaryOp(LT, r, l))
    ensures Evaluate(h, obj, BinaryOp(GTE, l, r)) == Evaluate(h, obj, BinaryOp(LTE, r, l))
  {
    BinaryIsStrict(h, obj, GT, l, r);
    BinaryIsStrict(h, obj, LT, r, l);
    BinaryIsStrict(h, obj, GTE, l, r);
    BinaryIsStrict(h, obj, LTE, r, l);
    StrictConverse(h, Evaluate(h, obj, l), Evaluate(h, obj, r));
  }

  /** Of two values that are ordered, exactly one of <, = and > holds, and >= is > or =. */
  lemma {:induction false} OrderingsTrichotomy(a: Value, b: Value)
    requires Order(a, b).Some?
    ensures var less, same, more := Compared(LT, a, b), Equal(a, b), Compared(GT, a, b);
            && less.Ok? && more.Ok?
            && (less == Ok(BoolValue(true)) <==> !same && more == Ok(BoolValue(false)))
            && (same <==> less == more == Ok(BoolValue(false)))
            && (Compared(GTE, a, b) == Ok(BoolValue(true)) <==> same || more == Ok(BoolValue(true)))
  {
    OrderTrichotomy(a, b);
  }

  /** Equality is an equivalence: equal values may be exchanged, on either side. */
  lemma {:induction false} EqualityExchanges(a: Value, b: Value, c: Value)
    requires Equal(a, b)
    ensures Equal(a, c) == Equal(b, c) == Equal(c, a)
  {
    EqualSymmetric(a, b);
    if Equal(a, c) { EqualTransitive(b, a, c); EqualSymmetric(a, c); }
    if Equal(b, c) { EqualTransitive(a, b, c); }
    if Equal(c, a) { EqualSymmetric(c, a); }
  }

  function Opposite(r: Result<bool>): Result<bool> {
    match r case Ok(b) => Ok(!b) case Err => Err
  }

  lemma {:induction false} NotTruth(h: Host, obj: Object, x: Expr)
    ensures Truth(h, obj, UnaryOp(NOT, x)) == Opposite(Truth(h, obj, x))
  {
  }

  lemma {:induction false} AndTruth(h: Host, obj: Object, l: Expr, r: Expr)
    ensures Truth(h, obj, BinaryOp(AND, l, r)) ==
            if Truth(h, obj, l) == Ok(true) then Truth(h, obj, r) else Truth(h, obj, l)
  {
  }

  lemma {:induction false} OrTruth(h: Host, obj: Object, l: Expr, r: Expr)
    ensures Truth(h, obj, BinaryOp(OR, l, r)) ==
            if Truth(h, obj, l) == Ok(false) then Truth(h, obj, r) else Truth(h, obj, l)
  {
  }

  /**
   NOT l < r means l >= r exactly when it is not the case that both operands have
   values and one of them is None: against None, < and >= are both false.
   */
  lemma {:induction false} NotLessIsAtLeast(h: Host, obj: Object, l: Expr, r: Expr)
    ensures var (a, b) := (Evaluate(h, obj, l), Evaluate(h, obj, r));
            Truth(h, obj, UnaryOp(NOT, BinaryOp(LT, l, r))) == Truth(h, obj, BinaryOp(GTE, l, r)) <==>
            !(a.Ok? && b.Ok? && (a.value.NoneValue? || b.value.NoneValue?))
  {
    NotTruth(h, obj, BinaryOp(LT, l, r));
    BinaryIsStrict(h, obj, LT, l, r);
    BinaryIsStrict(h, obj, GTE, l, r);
    StrictNotLess(h, Evaluate(h, obj, l), Evaluate(h, obj, r));
  }

  function TruthOf(r: Result<Value>): Result<bool> {
    match r case Ok(v) => Ok(Truthy(v)) case Err => Err
  }

  lemma {:induction false} StrictNotLess(h: Host, a: Result<Value>, b: Result<Value>)
    ensures Opposite(TruthOf(Strict(h, LT, a, b))) == TruthOf(Strict(h, GTE, a, b)) <==>
            !(a.Ok? && b.Ok? && (a.value.NoneValue? || b.value.NoneValue?))
  {
    if a.Ok? && b.Ok? { ComparedNotLess(a.value, b.value); }
  }

  lemma {:induction false} ComparedNotLess(a: Value, b: Value)
    ensures Opposite(TruthOf(Compared(LT, a, b))) == TruthOf(Compared(GTE, a, b)) <==>
            !(a.NoneValue? || b.NoneValue?)
  {
  }

  // ---------- Negation normal form ----------

  /** e with its negations pushed down to where AND, OR, =, != and NOT end, for use where only truth matters. */
  function Positive(e: Expr): Expr {
    match e
    case UnaryOp(NOT, x) => Negative(x)
    case BinaryOp(op, l, r) => if op.AND? || op.OR? then BinaryOp(op, Positive(l), Positive(r)) else e
    case _ => e
  }

  /** The same for NOT e. */
  function Negative(e: Expr): Expr {
    match e
    case UnaryOp(NOT, x) => Positive(x)
    case BinaryOp(op, l, r) =>
      if op.AND? then BinaryOp(OR, Negative(l), Negative(r))
      else if op.OR? then BinaryOp(AND, Negative(l), Negative(r))
      else if op.EQ? then BinaryOp(NEQ, l, r)
      else if op.NEQ? then BinaryOp(EQ, l, r)
      else UnaryOp(NOT, e)
    case _ => UnaryOp(NOT, e)
  }

  /** NOT stands only before something it cannot be pushed into. */
  predicate IsNormal(e: Expr) {
    match e
    case UnaryOp(NOT, x) => !(x.UnaryOp? && x.op.NOT?)
      && !(x.BinaryOp? && (x.op.AND? || x.op.OR? || x.op.EQ? || x.op.NEQ?))
    case BinaryOp(op, l, r) => op.AND? || op.OR? ==> IsNormal(l) && IsNormal(r)
    case _ => true
  }

  lemma {:induction false} EqualTruth(h: Host, obj: Object, l: Expr, r: Expr)
    ensures Truth(h, obj, BinaryOp(NEQ, l, r)) == Opposite(Truth(h, obj, BinaryOp(EQ, l, r)))
  {
    BinaryIsStrict(h, obj, EQ, l, r);
    BinaryIsStrict(h, obj, NEQ, l, r);
  }

  /** Normal form keeps truth, and keeps errors, although AND and OR give back operands and stop early. */
  lemma {:induction false} NormalFormKeepsTruth(h: Host, obj: Object, e: Expr)
    ensures Truth(h, obj, Positive(e)) == Truth(h, obj, e)
    ensures Truth(h, obj, Negative(e)) == Opposite(Truth(h, obj, e))
  {
    NotTruth(h, obj, e);
    match e
    case UnaryOp(NOT, x) =>
      NormalFormKeepsTruth(h, obj, x);
      NotTruth(h, obj, x);
    case BinaryOp(op, l, r) =>
      if op.AND? || op.OR? {
        NormalFormKeepsTruth(h, obj, l);
        NormalFormKeepsTruth(h, obj, r);
        AndTruth(h, obj, l, r);
        OrTruth(h, obj, l, r);
        NormalFormCombines(h, obj, op, l, r);
      } else {
        EqualTruth(h, obj, l, r);
      }
    case _ =>
  }

  lemma {:induction false} NormalFormCombines(h: Host, obj: Object, op: TokenType, l: Expr, r: Expr)
    requires op.AND? || op.OR?
    ensures var (p, q) := (Truth(h, obj, Positive(l)), Truth(h, obj, Positive(r)));
            Truth(h, obj, BinaryOp(op, Positive(l), Positive(r))) == if p == Ok(op.AND?) then q else p
    ensures var (p, q) := (Truth(h, obj, Negative(l)), Truth(h, obj, Negative(r)));
            Truth(h, obj, BinaryOp(if op.AND? then OR else AND, Negative(l), Negative(r))) ==
              if p == Ok(op.OR?) then q else p
  {
    if op.AND? {
      AndTruth(h, obj, Positive(l), Positive(r));
      OrTruth(h, obj, Negative(l), Negative(r));
    } else {
      OrTruth(h, obj, Positive(l), Positive(r));
      AndTruth(h, obj, Negative(l), Negative(r));
    }
  }

  lemma {:induction false} NormalFormIsNormal(e: Expr)
    ensures IsNormal(Positive(e)) && IsNormal(Negative(e))
  {
    match e
    case UnaryOp(NOT, x) => NormalFormIsNormal(x);
    case BinaryOp(op, l, r) =>
      NormalFormIsNormal(l);
      NormalFormIsNormal(r);
    case _ =>
  }

  /** Normal expressions are left as they are. */
  lemma {:induction false} NormalFormStays(e: Expr)
    requires IsNormal(e)
    ensures Positive(e) == e
  {
    match e
    case BinaryOp(op, l, r) =>
      if op.AND? || op.OR? {
        NormalFormStays(l);
        NormalFormStays(r);
      }
    case _ =>
  }

  // ---------- CASE with a subject ----------

  function Compare(s: Expr, w: When): When {
    When(BinaryOp(EQ, s, w.condition), w.result)
  }

  function CompareAll(s: Expr, ws: seq<When>): seq<When> {
    if ws == [] then [] else [Compare(s, ws[0])] + CompareAll(s, ws[1..])
  }

  lemma {:induction false} ComparedWhens(h: Host, obj: Object, s: Expr, ws: seq<When>)
    requires Evaluate(h, obj, s).Ok?
    ensures EvaluateWhens(h, obj, None, CompareAll(s, ws)) == EvaluateWhens(h, obj, Some(Evaluate(h, obj, s).value), ws)
  {
    if ws != [] {
      ComparedWhens(h, obj, s, ws[1..]);
      BinaryIsStrict(h, obj, EQ, s, ws[0].condition);
      var cs := CompareAll(s, ws);
      assert cs[0] == Compare(s, ws[0]) && cs[1..] == CompareAll(s, ws[1..]);
    }
  }

  /** What a CASE gives once it is known which clause is taken. */
  function CaseOutcome(h: Host, obj: Object, taken: Result<Option<Value>>, otherwise: Option<Expr>): Result<Value> {
    var t :- taken;
    if t.Some? then Ok(t.value) else if otherwise.Some? then Evaluate(h, obj, otherwise.value) else Ok(NoneValue)
  }

  lemma {:induction false} CaseWithSubject(h: Host, obj: Object, s: Expr, ws: seq<When>, otherwise: Option<Expr>)
    ensures Evaluate(h, obj, CaseExpression(Some(s), ws, otherwise)) ==
            match Evaluate(h, obj, s)
            case Err => Err
            case Ok(v) => CaseOutcome(h, obj, EvaluateWhens(h, obj, Some(v), ws), otherwise)
  {
  }

  lemma {:induction false} CaseWithoutSubject(h: Host, obj: Object, ws: seq<When>, otherwise: Option<Expr>)
    ensures Evaluate(h, obj, CaseExpression(None, ws, otherwise)) ==
            CaseOutcome(h, obj, EvaluateWhens(h, obj, None, ws), otherwise)
  {
  }

  lemma {:induction false} ComparedFails(h: Host, obj: Object, s: Expr, ws: seq<When>)
    requires Evaluate(h, obj, s).Err? && ws != []
    ensures EvaluateWhens(h, obj, None, CompareAll(s, ws)).Err?
  {
    BinaryIsStrict(h, obj, EQ, s, ws[0].condition);
    assert CompareAll(s, ws)[0] == Compare(s, ws[0]);
  }

  /**
   CASE s WHEN c THEN r ... is CASE WHEN s = c THEN r ..., value and error alike, whenever
   there is a WHEN or s evaluates; otherwise exactly if ELSE fails too, as only the first form evaluates s.
   */
  lemma {:induction false} CaseSubjectDesugars(h: Host, obj: Object, s: Expr, ws: seq<When>, otherwise: Option<Expr>)
    ensures ws != [] || Evaluate(h, obj, s).Ok? ==>
              Evaluate(h, obj, CaseExpression(Some(s), ws, otherwise)) ==
              Evaluate(h, obj, CaseExpression(None, CompareAll(s, ws), otherwise))
    ensures ws == [] && Evaluate(h, obj, s).Err? ==>
              (Evaluate(h, obj, CaseExpression(Some(s), ws, otherwise)) ==
               Evaluate(h, obj, CaseExpression(None, CompareAll(s, ws), otherwise))
               <==> otherwise.Some? && Evaluate(h, obj, otherwise.value).Err?)
  {
    CaseWithSubject(h, obj, s, ws, otherwise);
    CaseWithoutSubject(h, obj, CompareAll(s, ws), otherwise);
    if Evaluate(h, obj, s).Ok? {
      ComparedWhens(h, obj, s, ws);
    } else if ws != [] {
      ComparedFails(h, obj, s, ws);
    }
  }

  // ---------- IN ----------

  /** x = a1 OR ... OR x = an, nested to the left as the parser nests it, after an expression known to be false. */
  function AnyEqual(left: Expr, x: Expr, elements: seq<Expr>): Expr
    decreases |elements|
  {
    if elements == [] then left else AnyEqual(BinaryOp(OR, left, BinaryOp(EQ, x, elements[0])), x, elements[1..])
  }

  lemma {:induction false} EvaluateAllCons(h: Host, obj: Object, es: seq<Expr>)
    requires es != []
    ensures var (head, tail) := (Evaluate(h, obj, es[0]), EvaluateAll(h, obj, es[1..]));
            EvaluateAll(h, obj, es) == if head.Ok? && tail.Ok? then Ok([head.value] + tail.value) else Err
  {
  }

  lemma {:induction false} ExistsCons(v: Value, head: Value, tail: seq<Value>)
    ensures (exists i :: 0 <= i < |[head] + tail| && Equal(v, ([head] + tail)[i]))
            <==> Equal(v, head) || exists i :: 0 <= i < |tail| && Equal(v, tail[i])
  {
    var vs := [head] + tail;
    assert vs[0] == head && forall i :: 0 <= i < |tail| ==> tail[i] == vs[i + 1];
    assert forall i :: 0 < i < |vs| ==> vs[i] == tail[i - 1];
  }

  ghost predicate Among(v: Value, vs: seq<Value>) {
    exists i :: 0 <= i < |vs| && Equal(v, vs[i])
  }

  lemma {:induction false} AnyEqualTruth(h: Host, obj: Object, left: Expr, x: Expr, elements: seq<Expr>)
    requires Evaluate(h, obj, x).Ok? && EvaluateAll(h, obj, elements).Ok? && Truth(h, obj, left).Ok?
    ensures var (v, vs) := (Evaluate(h, obj, x).value, EvaluateAll(h, obj, elements).value);
            Truth(h, obj, AnyEqual(left, x, elements)) == Ok(Truth(h, obj, left).value || Among(v, vs))
    decreases |elements|
  {
    if elements != [] {
      var first := BinaryOp(EQ, x, elements[0]);
      EvaluateAllCons(h, obj, elements);
      BinaryIsStrict(h, obj, EQ, x, elements[0]);
      OrTruth(h, obj, left, first);
      AnyEqualTruth(h, obj, BinaryOp(OR, left, first), x, elements[1..]);
      ExistsCons(Evaluate(h, obj, x).value, Evaluate(h, obj, elements[0]).value,
        EvaluateAll(h, obj, elements[1..]).value);
    }
  }

  /** x in [a1, ..., an] has a value exactly when x and every element have. */
  lemma {:induction false} InTruth(h: Host, obj: Object, x: Expr, elements: seq<Expr>)
    ensures var (v, vs) := (Evaluate(h, obj, x), EvaluateAll(h, obj, elements));
            Truth(h, obj, BinaryOp(IN, x, ListLiteral(elements))) ==
            if v.Ok? && vs.Ok? then Ok(Among(v.value, vs.value)) else Err
  {
    BinaryIsStrict(h, obj, IN, x, ListLiteral(elements));
  }

  /**
   x IN [a1, ..., an] is x = a1 OR ... OR x = an for lists of any length n > 0: the same truth
   whenever IN has a value, and IN fails whenever the chain does.
   */
  lemma {:induction false} InDesugars(h: Host, obj: Object, x: Expr, elements: seq<Expr>)
    requires elements != []
    ensures var chain := AnyEqual(BinaryOp(EQ, x, elements[0]), x, elements[1..]);
            var membership := BinaryOp(IN, x, ListLiteral(elements));
            && (Truth(h, obj, membership).Ok? ==> Truth(h, obj, chain) == Truth(h, obj, membership))
            && (Truth(h, obj, chain).Err? ==> Truth(h, obj, membership).Err?)
  {
    InTruth(h, obj, x, elements);
    if Evaluate(h, obj, x).Ok? && EvaluateAll(h, obj, elements).Ok? {
      EvaluateAllCons(h, obj, elements);
      BinaryIsStrict(h, obj, EQ, x, elements[0]);
      AnyEqualTruth(h, obj, BinaryOp(EQ, x, elements[0]), x, elements[1..]);
      ExistsCons(Evaluate(h, obj, x).value, Evaluate(h, obj, elements[0]).value,
        EvaluateAll(h, obj, elements[1..]).value);
    }
  }

  // ---------- What a value depends on ----------

  /** The properties an expression reads. */
  function Mentions(e: Expr): set<string>
    decreases e
  {
    match e
    case Literal(_) => {}
    case ListLiteral(vs) => MentionsAll(vs)
    case PropertyAccess(_, p) => {p}
    case FunctionCall(name, args) => MentionsAll(args) + if name.HAS_TAG? || name.TAG? then {"tags"} else {}
    case UnaryOp(_, x) => Mentions(x)
    case BinaryOp(_, l, r) => Mentions(l) + Mentions(r)
    case CaseExpression(subject, whens, otherwise) =>
      (match subject case None => {} case Some(s) => Mentions(s)) + MentionsWhens(whens)
      + (match otherwise case None => {} case Some(o) => Mentions(o))
  }

  function MentionsAll(vs: seq<Expr>): set<string>
    decreases vs
  {
    if vs == [] then {} else Mentions(vs[0]) + MentionsAll(vs[1..])
  }

  function MentionsWhen(w: When): set<string>
    decreases w
  {
    Mentions(w.condition) + Mentions(w.result)
  }

  function MentionsWhens(ws: seq<When>): set<string>
    decreases ws
  {
    if ws == [] then {} else MentionsWhen(ws[0]) + MentionsWhens(ws[1..])
  }

  /** e with every object variable renamed. */
  function Rename(e: Expr, name: string): Expr
    decreases e
  {
    match e
    case Literal(_) => e
    case ListLiteral(vs) => ListLiteral(RenameAll(vs, name))
    case PropertyAccess(_, p) => PropertyAccess(name, p)
    case FunctionCall(f, args) => FunctionCall(f, RenameAll(args, name))
    case UnaryOp(op, x) => UnaryOp(op, Rename(x, name))
    case BinaryOp(op, l, r) => BinaryOp(op, Rename(l, name), Rename(r, name))
    case CaseExpression(subject, whens, otherwise) =>
      CaseExpression(match subject case None => None case Some(s) => Some(Rename(s, name)),
                     RenameWhens(whens, name),
                     match otherwise case None => None case Some(o) => Some(Rename(o, name)))
  }

  function RenameAll(vs: seq<Expr>, name: string): (r: seq<Expr>)
    ensures |r| == |vs|
    decreases vs
  {
    if vs == [] then [] else [Rename(vs[0], name)] + RenameAll(vs[1..], name)
  }

  function RenameWhen(w: When, name: string): When
    decreases w
  {
    When(Rename(w.condition, name), Rename(w.result, name))
  }

  function RenameWhens(ws: seq<When>, name: string): seq<When>
    decreases ws
  {
    if ws == [] then [] else [RenameWhen(ws[0], name)] + RenameWhens(ws[1..], name)
  }

  ghost predicate Agree(a: Object, b: Object, properties: set<string>) {
    forall p :: p in properties ==> (p in a <==> p in b) && (p in a ==> a[p] == b[p])
  }

  /**
   The value or error of an expression depends only on the properties it mentions
   (and on tags, if it calls HAS_TAG or TAG), not on the name of its object variable.
   */
  lemma {:induction false} EvaluationFrame(h: Host, a: Object, b: Object, e: Expr, name: string)
    requires Agree(a, b, Mentions(e))
    ensures Evaluate(h, a, e) == Evaluate(h, b, Rename(e, name))
    decreases e, 1
  {
    match e
    case Literal(_) =>
    case ListLiteral(vs) => FrameAll(h, a, b, vs, name);
    case PropertyAccess(_, p) => assert p in Mentions(e);
    case FunctionCall(f, args) =>
      if |args| == 1 {
        assert MentionsAll(args) == Mentions(args[0]);
        EvaluationFrame(h, a, b, args[0], name);
        assert f.HAS_TAG? || f.TAG? ==> "tags" in Mentions(e);
      }
    case UnaryOp(_, x) => EvaluationFrame(h, a, b, x, name);
    case BinaryOp(_, l, r) =>
      EvaluationFrame(h, a, b, l, name);
      EvaluationFrame(h, a, b, r, name);
    case CaseExpression(_, _, _) => FrameCase(h, a, b, e, name);
  }

  lemma {:induction false} FrameCase(h: Host, a: Object, b: Object, e: Expr, name: string)
    requires e.CaseExpression? && Agree(a, b, Mentions(e))
    ensures Evaluate(h, a, e) == Evaluate(h, b, Rename(e, name))
    decreases e, 0
  {
    if e.subject.Some? { EvaluationFrame(h, a, b, e.subject.value, name); }
    if e.otherwise.Some? { EvaluationFrame(h, a, b, e.otherwise.value, name); }
    FrameWhens(h, a, b, None, e.whens, name);
    if e.subject.Some? && Evaluate(h, a, e.subject.value).Ok? {
      FrameWhens(h, a, b, Some(Evaluate(h, a, e.subject.value).value), e.whens, name);
    }
  }

  lemma {:induction false} FrameAll(h: Host, a: Object, b: Object, vs: seq<Expr>, name: string)
    requires Agree(a, b, MentionsAll(vs))
    ensures EvaluateAll(h, a, vs) == EvaluateAll(h, b, RenameAll(vs, name))
    decreases vs
  {
    if vs != [] {
      EvaluationFrame(h, a, b, vs[0], name);
      FrameAll(h, a, b, vs[1..], name);
    }
  }

  lemma {:induction false} FrameWhen(h: Host, a: Object, b: Object, subject: Option<Value>, w: When, name: string)
    requires Agree(a, b, MentionsWhen(w))
    ensures Taken(h, a, subject, w) == Taken(h, b, subject, RenameWhen(w, name))
    ensures ResultOf(h, a, w) == ResultOf(h, b, RenameWhen(w, name))
    decreases w
  {
    EvaluationFrame(h, a, b, w.condition, name);
    EvaluationFrame(h, a, b, w.result, name);
  }

  lemma {:induction false} FrameWhens(
    h: Host, a: Object, b: Object, subject: Option<Value>, ws: seq<When>, name: string)
    requires Agree(a, b, MentionsWhens(ws))
    ensures EvaluateWhens(h, a, subject, ws) == EvaluateWhens(h, b, subject, RenameWhens(ws, name))
    decreases ws
  {
    if ws != [] {
      FrameWhen(h, a, b, subject, ws[0], name);
      FrameWhens(h, a, b, subject, ws[1..], name);
    }
  }
}
