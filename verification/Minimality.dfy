/**
 The printed form of an expression is the shortest there is: no derivation tree
 of the same meaning yields fewer symbols.

 The size of a tree is the length of its yield. A tree may spend symbols on
 parentheses and trailing commas that mean nothing; the printed tree spends
 them only where the level of an operand demands it, so that replacing every
 part of a tree by its printed form never makes it longer.
 */
module Minimality {
  import opened Symbols
  import opened Parsing
  import opened Grammar
  import opened Printing

  function SizeOr(t: OrTree): nat { |YieldOr(t, [])| }
  function SizeAnd(t: AndTree): nat { |YieldAnd(t, [])| }
  function SizeNot(t: NotTree): nat { |YieldNot(t, [])| }
  function SizeComparison(t: ComparisonTree): nat { |YieldComparison(t, [])| }
  function SizePrimary(t: PrimaryTree): nat { |YieldPrimary(t, [])| }
  function SizeItems(ts: seq<PrimaryTree>, trailing: bool): nat { |YieldItems(ts, trailing, [])| }
  function SizeArgs(ts: seq<OrTree>, trailing: bool): nat { |YieldArgs(ts, trailing, [])| }
  function SizeWhen(t: WhenTree): nat { |YieldWhen(t, [])| }
  function SizeWhens(ts: seq<WhenTree>): nat { |YieldWhens(ts, [])| }

  // ---------- Sizes add up ----------

  lemma {:induction false} OrAdds(t: OrTree, rest: seq<Sym>)
    ensures |YieldOr(t, rest)| == SizeOr(t) + |rest|
  {
    OrAppend(t, [], rest);
    assert [] + rest == rest;
  }

  lemma {:induction false} AndAdds(t: AndTree, rest: seq<Sym>)
    ensures |YieldAnd(t, rest)| == SizeAnd(t) + |rest|
  {
    AndAppend(t, [], rest);
    assert [] + rest == rest;
  }

  lemma {:induction false} PrimaryAdds(t: PrimaryTree, rest: seq<Sym>)
    ensures |YieldPrimary(t, rest)| == SizePrimary(t) + |rest|
  {
    PrimaryAppend(t, [], rest);
    assert [] + rest == rest;
  }

  lemma {:induction false} ItemsAdd(ts: seq<PrimaryTree>, trailing: bool)
    requires ts != []
    ensures SizeItems(ts, trailing) ==
            SizePrimary(ts[0]) + 1 + if |ts| == 1 && !trailing then 0 else SizeItems(ts[1..], trailing)
  {
    PrimaryAdds(ts[0], [Fixed(RBRACKET)] + []);
    PrimaryAdds(ts[0], [Fixed(COMMA)] + YieldItems(ts[1..], trailing, []));
  }

  lemma {:induction false} ArgsAdd(ts: seq<OrTree>, trailing: bool)
    requires ts != []
    ensures SizeArgs(ts, trailing) ==
            SizeOr(ts[0]) + 1 + if |ts| == 1 && !trailing then 0 else SizeArgs(ts[1..], trailing)
  {
    OrAdds(ts[0], [Fixed(RPAREN)] + []);
    OrAdds(ts[0], [Fixed(COMMA)] + YieldArgs(ts[1..], trailing, []));
  }

  lemma {:induction false} WhenAdds(t: WhenTree)
    ensures SizeWhen(t) == SizeOr(t.condition) + 1 + SizeOr(t.result)
  {
    OrAdds(t.condition, [Fixed(THEN)] + YieldOr(t.result, []));
  }

  lemma {:induction false} WhensAdd(ts: seq<WhenTree>)
    requires ts != []
    ensures SizeWhens(ts) == 1 + SizeWhen(ts[0]) + SizeWhens(ts[1..])
  {
    var rest := YieldWhens(ts[1..], []);
    WhenAppend(ts[0], [], rest);
    assert [] + rest == rest;
  }

  lemma {:induction false} ParensAdd(e: OrTree)
    ensures SizePrimary(Parens(e)) == SizeOr(e) + 2
  {
    OrAdds(e, [Fixed(RPAREN)] + []);
  }

  lemma {:induction false} OrsAdd(l: OrTree, r: AndTree)
    ensures SizeOr(Ors(l, r)) == SizeOr(l) + 1 + SizeAnd(r)
  {
    OrAdds(l, [Fixed(OR)] + YieldAnd(r, []));
  }

  lemma {:induction false} AndsAdd(l: AndTree, r: NotTree)
    ensures SizeAnd(Ands(l, r)) == SizeAnd(l) + 1 + SizeNot(r)
  {
    AndAdds(l, [Fixed(AND)] + YieldNot(r, []));
  }

  lemma {:induction false} CompareAdds(l: PrimaryTree, op: TokenType, r: PrimaryTree)
    ensures SizeComparison(Compare(l, op, r)) == SizePrimary(l) + 1 + SizePrimary(r)
  {
    PrimaryAdds(l, [Fixed(op)] + YieldPrimary(r, []));
  }

  function SizeOption(t: Option<OrTree>): nat { if t.None? then 0 else 1 + SizeOr(t.value) }
  function SizeSubject(t: Option<PrimaryTree>): nat { if t.None? then 0 else SizePrimary(t.value) }

  lemma {:induction false} CaseAdds(subject: Option<PrimaryTree>, whens: seq<WhenTree>, otherwise: Option<OrTree>)
    ensures SizePrimary(Case(subject, whens, otherwise)) ==
            2 + SizeSubject(subject) + SizeWhens(whens) + SizeOption(otherwise)
  {
    var end := [Fixed(END)] + [];
    var e := YieldElse(otherwise, end);
    if otherwise.Some? { OrAdds(otherwise.value, end); }
    WhensAppend(whens, [], e);
    assert [] + e == e;
    if subject.Some? { PrimaryAdds(subject.value, YieldWhens(whens, e)); }
  }

  // ---------- The printed tree is the smallest ----------

  /** Each level costs no more than the one below it, and parentheses cost two. */
  lemma {:induction false} LevelsCost(e: Expr)
    ensures SizeOr(AsOr(e)) <= SizeAnd(AsAnd(e)) <= SizeNot(AsNot(e))
    ensures SizeNot(AsNot(e)) <= SizeComparison(AsComparison(e)) <= SizePrimary(AsPrimary(e))
    ensures SizePrimary(AsPrimary(e)) <= SizeOr(AsOr(e)) + 2
  {
    ParensAdd(AsOr(e));
    assert Level(e) >= 1 ==> AsPrimary(e) == Parens(AsOr(e));
    assert Level(e) != 1 ==> AsComparison(e) == OnePrimary(AsPrimary(e));
    assert Level(e) != 2 ==> AsNot(e) == Bare(AsComparison(e));
    assert Level(e) != 3 ==> AsAnd(e) == OneNot(AsNot(e));
    assert Level(e) != 4 ==> AsOr(e) == OneAnd(AsAnd(e));
  }

  lemma {:induction false} OrSmallest(t: OrTree)
    requires WfOr(t)
    ensures SizeOr(AsOr(OrExpr(t))) <= SizeOr(t)
    decreases t
  {
    match t
    case OneAnd(a) =>
      AndSmallest(a);
      LevelsCost(AndExpr(a));
    case Ors(l, r) =>
      OrSmallest(l);
      AndSmallest(r);
      OrsAdd(l, r);
      OrsAdd(AsOr(OrExpr(l)), AsAnd(AndExpr(r)));
  }

  lemma {:induction false} AndSmallest(t: AndTree)
    requires WfAnd(t)
    ensures SizeAnd(AsAnd(AndExpr(t))) <= SizeAnd(t)
    decreases t
  {
    match t
    case OneNot(n) =>
      NotSmallest(n);
      LevelsCost(NotExpr(n));
    case Ands(l, r) =>
      AndSmallest(l);
      NotSmallest(r);
      AndsAdd(l, r);
      AndsAdd(AsAnd(AndExpr(l)), AsNot(NotExpr(r)));
  }

  lemma {:induction false} NotSmallest(t: NotTree)
    requires WfNot(t)
    ensures SizeNot(AsNot(NotExpr(t))) <= SizeNot(t)
    decreases t
  {
    ComparisonSmallest(t.c);
    LevelsCost(ComparisonExpr(t.c));
  }

  lemma {:induction false} ComparisonSmallest(t: ComparisonTree)
    requires WfComparison(t)
    ensures SizeComparison(AsComparison(ComparisonExpr(t))) <= SizeComparison(t)
    decreases t
  {
    match t
    case OnePrimary(p) =>
      PrimarySmallest(p);
      LevelsCost(PrimaryExpr(p));
    case Compare(l, op, r) =>
      PrimarySmallest(l);
      PrimarySmallest(r);
      CompareAdds(l, op, r);
      CompareAdds(AsPrimary(PrimaryExpr(l)), op, AsPrimary(PrimaryExpr(r)));
  }

  lemma {:induction false} PrimarySmallest(t: PrimaryTree)
    requires WfPrimary(t)
    ensures SizePrimary(AsPrimary(PrimaryExpr(t))) <= SizePrimary(t)
    decreases t
  {
    match t
    case Leaf(_) =>
    case Property(_, _) =>
    case Parens(e) =>
      OrSmallest(e);
      ParensAdd(e);
      LevelsCost(OrExpr(e));
    case List(items, trailing) => ItemsSmallest(items, trailing);
    case Call(_, args, trailing) => ArgsSmallest(args, trailing);
    case Case(subject, whens, otherwise) =>
      WhensSmallest(whens);
      if subject.Some? { PrimarySmallest(subject.value); }
      if otherwise.Some? { OrSmallest(otherwise.value); }
      CaseAdds(subject, whens, otherwise);
      var s := match subject case None => None case Some(p) => Some(AsPrimary(PrimaryExpr(p)));
      var o := match otherwise case None => None case Some(x) => Some(AsOr(OrExpr(x)));
      CaseAdds(s, AsWhens(WhenExprs(whens)), o);
  }

  lemma {:induction false} ItemsSmallest(ts: seq<PrimaryTree>, trailing: bool)
    requires forall i :: 0 <= i < |ts| ==> WfPrimary(ts[i])
    ensures SizeItems(AsItems(ItemExprs(ts)), false) <= SizeItems(ts, trailing)
    ensures |ts| == |AsItems(ItemExprs(ts))|
    decreases ts
  {
    if ts != [] {
      ItemsAdd(ts, trailing);
      ItemsAdd(AsItems(ItemExprs(ts)), false);
      PrimarySmallest(ts[0]);
      ItemsSmallest(ts[1..], trailing);
    }
  }

  lemma {:induction false} ArgsSmallest(ts: seq<OrTree>, trailing: bool)
    requires forall i :: 0 <= i < |ts| ==> WfOr(ts[i])
    ensures SizeArgs(AsArgs(ArgExprs(ts)), false) <= SizeArgs(ts, trailing)
    ensures |ts| == |AsArgs(ArgExprs(ts))|
    decreases ts
  {
    if ts != [] {
      ArgsAdd(ts, trailing);
      ArgsAdd(AsArgs(ArgExprs(ts)), false);
      OrSmallest(ts[0]);
      ArgsSmallest(ts[1..], trailing);
    }
  }

  lemma {:induction false} WhenSmallest(t: WhenTree)
    requires WfOr(t.condition) && WfOr(t.result)
    ensures SizeWhen(AsWhen(WhenExpr(t))) <= SizeWhen(t)
    decreases t
  {
    OrSmallest(t.condition);
    OrSmallest(t.result);
    WhenAdds(t);
    WhenAdds(AsWhen(WhenExpr(t)));
  }

  lemma {:induction false} WhensSmallest(ts: seq<WhenTree>)
    requires forall i :: 0 <= i < |ts| ==> WfOr(ts[i].condition) && WfOr(ts[i].result)
    ensures SizeWhens(AsWhens(WhenExprs(ts))) <= SizeWhens(ts)
    decreases ts
  {
    if ts != [] {
      WhensAdd(ts);
      WhensAdd(AsWhens(WhenExprs(ts)));
      WhenSmallest(ts[0]);
      WhensSmallest(ts[1..]);
    }
  }

  /** Whatever symbols the parser reads as an expression, its printed form is no longer. */
  lemma {:induction false} PrintedIsShortest(s: seq<Sym>)
    requires ParseOr(s).Done?
    ensures var p := ParseOr(s); |YieldOr(AsOr(p.value), p.rest)| <= |s|
  {
    var t := OrSound(s);
    OrSmallest(t);
    OrAdds(t, ParseOr(s).rest);
    OrAdds(AsOr(OrExpr(t)), ParseOr(s).rest);
  }
}
