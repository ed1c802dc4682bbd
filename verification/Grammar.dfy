/**
 The grammar of expressions, stated by derivation trees: one datatype per
 precedence level, each tree with the symbols it yields and the expression it
 means. The parser is sound and complete for it, and it is unambiguous.
 */
module Grammar {
  import opened Symbols
  import opened Parsing

  // ---------- Derivation trees ----------

  /** or-expression: and-expressions joined by OR, to the left. */
  datatype OrTree = OneAnd(a: AndTree) | Ors(left: OrTree, right: AndTree)
  datatype AndTree = OneNot(n: NotTree) | Ands(left: AndTree, right: NotTree)
  /** NOT applies to one comparison only. */
  datatype NotTree = Bare(c: ComparisonTree) | Not(c: ComparisonTree)
  /** Comparisons do not chain. */
  datatype ComparisonTree = OnePrimary(p: PrimaryTree) | Compare(left: PrimaryTree, op: TokenType, right: PrimaryTree)
  datatype PrimaryTree =
    | Leaf(sym: Sym)
    | Property(obj: string, property: string)
    | Parens(e: OrTree)
    | List(items: seq<PrimaryTree>, trailing: bool)
    | Call(name: TokenType, args: seq<OrTree>, trailing: bool)
    | Case(subject: Option<PrimaryTree>, whens: seq<WhenTree>, otherwise: Option<OrTree>)
  datatype WhenTree = WhenThen(condition: OrTree, result: OrTree)

  predicate IsLeaf(sym: Sym) {
    sym.Str? || sym.Whole? || sym.Decimal? || sym.Ident?
  }

  // ---------- Well-formed trees ----------

  predicate WfOr(t: OrTree) {
    match t
    case OneAnd(a) => WfAnd(a)
    case Ors(l, r) => WfOr(l) && WfAnd(r)
  }

  predicate WfAnd(t: AndTree) {
    match t
    case OneNot(n) => WfNot(n)
    case Ands(l, r) => WfAnd(l) && WfNot(r)
  }

  predicate WfNot(t: NotTree) {
    WfComparison(t.c)
  }

  predicate WfComparison(t: ComparisonTree) {
    match t
    case OnePrimary(p) => WfPrimary(p)
    case Compare(l, op, r) => WfPrimary(l) && IsComparison(op) && WfPrimary(r)
  }

  predicate WfPrimary(t: PrimaryTree) {
    match t
    case Leaf(sym) => IsLeaf(sym)
    case Property(_, _) => true
    case Parens(e) => WfOr(e)
    case List(items, trailing) => forall i :: 0 <= i < |items| ==> WfPrimary(items[i])
    case Call(name, args, trailing) =>
      IsFunction(name) && forall i :: 0 <= i < |args| ==> WfOr(args[i])
    case Case(subject, whens, otherwise) =>
      && (match subject case None => whens != [] case Some(s) => WfPrimary(s))
      && (forall i :: 0 <= i < |whens| ==> WfOr(whens[i].condition) && WfOr(whens[i].result))
      && (otherwise.Some? ==> WfOr(otherwise.value))
  }

  // ---------- What a tree yields: its symbols, then rest ----------

  function YieldOr(t: OrTree, rest: seq<Sym>): seq<Sym> {
    match t
    case OneAnd(a) => YieldAnd(a, rest)
    case Ors(l, r) => YieldOr(l, [Fixed(OR)] + YieldAnd(r, rest))
  }

  function YieldAnd(t: AndTree, rest: seq<Sym>): seq<Sym> {
    match t
    case OneNot(n) => YieldNot(n, rest)
    case Ands(l, r) => YieldAnd(l, [Fixed(AND)] + YieldNot(r, rest))
  }

  function YieldNot(t: NotTree, rest: seq<Sym>): seq<Sym> {
    match t
    case Bare(c) => YieldComparison(c, rest)
    case Not(c) => [Fixed(NOT)] + YieldComparison(c, rest)
  }

  function YieldComparison(t: ComparisonTree, rest: seq<Sym>): seq<Sym> {
    match t
    case OnePrimary(p) => YieldPrimary(p, rest)
    case Compare(l, op, r) => YieldPrimary(l, [Fixed(op)] + YieldPrimary(r, rest))
  }

  function YieldPrimary(t: PrimaryTree, rest: seq<Sym>): seq<Sym> {
    match t
    case Leaf(sym) => [sym] + rest
    case Property(o, p) => [Ident(o)] + ([Fixed(DOT)] + ([Ident(p)] + rest))
    case Parens(e) => [Fixed(LPAREN)] + YieldOr(e, [Fixed(RPAREN)] + rest)
    case List(items, trailing) => [Fixed(LBRACKET)] + YieldItems(items, trailing, rest)
    case Call(name, args, trailing) => [Fixed(name)] + ([Fixed(LPAREN)] + YieldArgs(args, trailing, rest))
    case Case(subject, whens, otherwise) =>
      var branches := YieldWhens(whens, YieldElse(otherwise, [Fixed(END)] + rest));
      [Fixed(CASE)] + match subject case None => branches case Some(p) => YieldPrimary(p, branches)
  }

  function YieldElse(otherwise: Option<OrTree>, rest: seq<Sym>): seq<Sym> {
    match otherwise
    case None => rest
    case Some(e) => [Fixed(ELSE)] + YieldOr(e, rest)
  }

  /** Elements, perhaps with a comma after the last, and the closing bracket. */
  function YieldItems(items: seq<PrimaryTree>, trailing: bool, rest: seq<Sym>): seq<Sym> {
    if items == [] then [Fixed(RBRACKET)] + rest
    else if |items| == 1 && !trailing then YieldPrimary(items[0], [Fixed(RBRACKET)] + rest)
    else YieldPrimary(items[0], [Fixed(COMMA)] + YieldItems(items[1..], trailing, rest))
  }

  function YieldArgs(args: seq<OrTree>, trailing: bool, rest: seq<Sym>): seq<Sym> {
    if args == [] then [Fixed(RPAREN)] + rest
    else if |args| == 1 && !trailing then YieldOr(args[0], [Fixed(RPAREN)] + rest)
    else YieldOr(args[0], [Fixed(COMMA)] + YieldArgs(args[1..], trailing, rest))
  }

  function YieldWhens(whens: seq<WhenTree>, rest: seq<Sym>): seq<Sym> {
    if whens == [] then rest
    else [Fixed(WHEN)] + YieldWhen(whens[0], YieldWhens(whens[1..], rest))
  }

  function YieldWhen(w: WhenTree, rest: seq<Sym>): seq<Sym> {
    YieldOr(w.condition, [Fixed(THEN)] + YieldOr(w.result, rest))
  }

  // ---------- What a tree means ----------

  function OrExpr(t: OrTree): Expr {
    match t
    case OneAnd(a) => AndExpr(a)
    case Ors(l, r) => BinaryOp(OR, OrExpr(l), AndExpr(r))
  }

  function AndExpr(t: AndTree): Expr {
    match t
    case OneNot(n) => NotExpr(n)
    case Ands(l, r) => BinaryOp(AND, AndExpr(l), NotExpr(r))
  }

  function NotExpr(t: NotTree): Expr {
    match t
    case Bare(c) => ComparisonExpr(c)
    case Not(c) => UnaryOp(NOT, ComparisonExpr(c))
  }

  function ComparisonExpr(t: ComparisonTree): Expr {
    match t
    case OnePrimary(p) => PrimaryExpr(p)
    case Compare(l, op, r) => BinaryOp(op, PrimaryExpr(l), PrimaryExpr(r))
  }

  function LeafValue(sym: Sym): Lit {
    match sym
    case Str(text) => StrLit(text)
    case Ident(name) => StrLit(name)
    case Whole(n) => IntLit(n)
    case Decimal(m, scale) => DecLit(m, scale)
    case _ => StrLit("")
  }

  function PrimaryExpr(t: PrimaryTree): Expr {
    match t
    case Leaf(sym) => Literal(LeafValue(sym))
    case Property(o, p) => PropertyAccess(o, p)
    case Parens(e) => OrExpr(e)
    case List(items, _) => ListLiteral(ItemExprs(items))
    case Call(name, args, _) => FunctionCall(name, ArgExprs(args))
    case Case(subject, whens, otherwise) =>
      CaseExpression(SubjectExpr(subject), WhenExprs(whens),
        match otherwise case None => None case Some(e) => Some(OrExpr(e)))
  }

  function SubjectExpr(subject: Option<PrimaryTree>): Option<Expr> {
    match subject
    case None => None
    case Some(p) => Some(PrimaryExpr(p))
  }

  function ItemExprs(items: seq<PrimaryTree>): seq<Expr> {
    if items == [] then [] else [PrimaryExpr(items[0])] + ItemExprs(items[1..])
  }

  function ArgExprs(args: seq<OrTree>): seq<Expr> {
    if args == [] then [] else [OrExpr(args[0])] + ArgExprs(args[1..])
  }

  function WhenExprs(whens: seq<WhenTree>): seq<When> {
    if whens == [] then [] else [WhenExpr(whens[0])] + WhenExprs(whens[1..])
  }

  function WhenExpr(w: WhenTree): When {
    When(OrExpr(w.condition), OrExpr(w.result))
  }

  /** What stands after the first ASSERT of a symbol list. */
  function AfterAssert(s: seq<Sym>): seq<Sym> {
    if s == [] then [] else if s[0] == Fixed(ASSERT) then s[1..] else AfterAssert(s[1..])
  }

  // ---------- Soundness, and that expressions hold no ASSERT ----------

  lemma {:induction false} Uncons(s: seq<Sym>)
    ensures s != [] ==> s == [s[0]] + s[1..]
  {
  }

  lemma {:induction false} PrimarySound(s: seq<Sym>) returns (t: PrimaryTree)
    requires ParsePrimary(s).Done?
    ensures WfPrimary(t) && YieldPrimary(t, ParsePrimary(s).rest) == s && PrimaryExpr(t) == ParsePrimary(s).value
    ensures AfterAssert(ParsePrimary(s).rest) == AfterAssert(s)
    decreases |s|, 0
  {
    Uncons(s);
    match Head(s)
    case Fixed(k) =>
      if k.LBRACKET? {
        var items, trailing := ItemsSound(s[1..]);
        t := List(items, trailing);
      } else if k.LPAREN? {
        var e := OrSound(s[1..]);
        Uncons(ParseOr(s[1..]).rest);
        t := Parens(e);
      } else if k.CASE? {
        if At(s[1..], WHEN) {
          t := BranchesSound(None, s[1..]);
        } else {
          var subject := PrimarySound(s[1..]);
          t := BranchesSound(Some(subject), ParsePrimary(s[1..]).rest);
        }
      } else {
        Uncons(s[1..]);
        var args, trailing := ArgsSound(s[1..][1..]);
        t := Call(k, args, trailing);
      }
    case Ident(name) =>
      if At(s[1..], DOT) {
        Uncons(s[1..]);
        Uncons(s[2..]);
        assert s[1..][1..] == s[2..] && s[2..][1..] == s[3..];
        assert AfterAssert(s[1..]) == AfterAssert(s[2..]);
        t := Property(name, s[2].name);
      } else {
        t := Leaf(s[0]);
      }
    case _ => t := Leaf(Head(s));
  }

  lemma {:induction false} BranchesSound(subject: Option<PrimaryTree>, s: seq<Sym>) returns (t: PrimaryTree)
    requires match subject case None => At(s, WHEN) case Some(p) => WfPrimary(p)
    requires ParseBranches(SubjectExpr(subject), s).Done?
    ensures var p := ParseBranches(SubjectExpr(subject), s);
            && WfPrimary(t) && PrimaryExpr(t) == p.value
            && YieldPrimary(t, p.rest) ==
              [Fixed(CASE)] + match subject case None => s case Some(u) => YieldPrimary(u, s)
    ensures AfterAssert(ParseBranches(SubjectExpr(subject), s).rest) == AfterAssert(s)
    decreases |s|, 1
  {
    var whens := WhensSound(s);
    var rest := ParseWhens(s).rest;
    Uncons(rest);
    if At(rest, ELSE) {
      var e := OrSound(rest[1..]);
      Uncons(ParseOr(rest[1..]).rest);
      t := Case(subject, whens, Some(e));
    } else {
      t := Case(subject, whens, None);
    }
  }

  lemma {:induction false} WhensSound(s: seq<Sym>) returns (t: seq<WhenTree>)
    requires ParseWhens(s).Done?
    ensures forall i :: 0 <= i < |t| ==> WfOr(t[i].condition) && WfOr(t[i].result)
    ensures At(s, WHEN) ==> t != []
    ensures YieldWhens(t, ParseWhens(s).rest) == s && WhenExprs(t) == ParseWhens(s).value
    ensures AfterAssert(ParseWhens(s).rest) == AfterAssert(s)
    decreases |s|, 0
  {
    if !At(s, WHEN) {
      t := [];
    } else {
      Uncons(s);
      var c := OrSound(s[1..]);
      var rest := ParseOr(s[1..]).rest;
      Uncons(rest);
      var v := OrSound(rest[1..]);
      var ws := WhensSound(ParseOr(rest[1..]).rest);
      t := [WhenThen(c, v)] + ws;
      assert t[1..] == ws;
    }
  }

  lemma {:induction false} ItemsSound(s: seq<Sym>) returns (t: seq<PrimaryTree>, trailing: bool)
    requires ParseItems(s).Done?
    ensures (t == [] ==> trailing) && forall i :: 0 <= i < |t| ==> WfPrimary(t[i])
    ensures YieldItems(t, trailing, ParseItems(s).rest) == s && ItemExprs(t) == ParseItems(s).value
    ensures AfterAssert(ParseItems(s).rest) == AfterAssert(s)
    decreases |s|, 1
  {
    if At(s, RBRACKET) {
      Uncons(s);
      t, trailing := [], true;
    } else {
      var v := PrimarySound(s);
      var rest := ParsePrimary(s).rest;
      Uncons(rest);
      if At(rest, COMMA) {
        var vs;
        vs, trailing := ItemsSound(rest[1..]);
        t := [v] + vs;
        assert t[1..] == vs;
      } else {
        t, trailing := [v], false;
      }
    }
  }

  lemma {:induction false} ArgsSound(s: seq<Sym>) returns (t: seq<OrTree>, trailing: bool)
    requires ParseArgs(s).Done?
    ensures (t == [] ==> trailing) && forall i :: 0 <= i < |t| ==> WfOr(t[i])
    ensures YieldArgs(t, trailing, ParseArgs(s).rest) == s && ArgExprs(t) == ParseArgs(s).value
    ensures AfterAssert(ParseArgs(s).rest) == AfterAssert(s)
    decreases |s|, 6
  {
    if At(s, RPAREN) {
      Uncons(s);
      t, trailing := [], true;
    } else {
      var v := OrSound(s);
      var rest := ParseOr(s).rest;
      Uncons(rest);
      if At(rest, COMMA) {
        var vs;
        vs, trailing := ArgsSound(rest[1..]);
        t := [v] + vs;
        assert t[1..] == vs;
      } else {
        t, trailing := [v], false;
      }
    }
  }

  lemma {:induction false} ComparisonSound(s: seq<Sym>) returns (t: ComparisonTree)
    requires ParseComparison(s).Done?
    ensures WfComparison(t) && YieldComparison(t, ParseComparison(s).rest) == s
    ensures ComparisonExpr(t) == ParseComparison(s).value
    ensures AfterAssert(ParseComparison(s).rest) == AfterAssert(s)
    decreases |s|, 2
  {
    var left := PrimarySound(s);
    var rest := ParsePrimary(s).rest;
    Uncons(rest);
    if Head(rest).Fixed? && IsComparison(rest[0].typ) {
      var right := PrimarySound(rest[1..]);
      t := Compare(left, rest[0].typ, right);
    } else {
      t := OnePrimary(left);
    }
  }

  lemma {:induction false} NotSound(s: seq<Sym>) returns (t: NotTree)
    requires ParseNot(s).Done?
    ensures WfNot(t) && YieldNot(t, ParseNot(s).rest) == s && NotExpr(t) == ParseNot(s).value
    ensures AfterAssert(ParseNot(s).rest) == AfterAssert(s)
    decreases |s|, 3
  {
    if At(s, NOT) {
      Uncons(s);
      var c := ComparisonSound(s[1..]);
      t := Not(c);
    } else {
      var c := ComparisonSound(s);
      t := Bare(c);
    }
  }

  lemma {:induction false} AndSound(s: seq<Sym>) returns (t: AndTree)
    requires ParseAnd(s).Done?
    ensures WfAnd(t) && YieldAnd(t, ParseAnd(s).rest) == s && AndExpr(t) == ParseAnd(s).value
    ensures AfterAssert(ParseAnd(s).rest) == AfterAssert(s)
    decreases |s|, 4
  {
    var n := NotSound(s);
    t := AndRestSound(OneNot(n), ParseNot(s).rest);
  }

  lemma {:induction false} AndRestSound(left: AndTree, s: seq<Sym>) returns (t: AndTree)
    requires WfAnd(left) && ParseAndRest(AndExpr(left), s).Done?
    ensures var p := ParseAndRest(AndExpr(left), s);
            WfAnd(t) && YieldAnd(t, p.rest) == YieldAnd(left, s) && AndExpr(t) == p.value
    ensures AfterAssert(ParseAndRest(AndExpr(left), s).rest) == AfterAssert(s)
    decreases |s|, 0
  {
    if At(s, AND) {
      Uncons(s);
      var right := NotSound(s[1..]);
      t := AndRestSound(Ands(left, right), ParseNot(s[1..]).rest);
    } else {
      t := left;
    }
  }

  /** What the parser returns is the meaning of a derivation tree of exactly the symbols it consumed. */
  lemma {:induction false} OrSound(s: seq<Sym>) returns (t: OrTree)
    requires ParseOr(s).Done?
    ensures WfOr(t) && YieldOr(t, ParseOr(s).rest) == s && OrExpr(t) == ParseOr(s).value
    ensures AfterAssert(ParseOr(s).rest) == AfterAssert(s)
    decreases |s|, 5
  {
    var a := AndSound(s);
    t := OrRestSound(OneAnd(a), ParseAnd(s).rest);
  }

  lemma {:induction false} OrRestSound(left: OrTree, s: seq<Sym>) returns (t: OrTree)
    requires WfOr(left) && ParseOrRest(OrExpr(left), s).Done?
    ensures var p := ParseOrRest(OrExpr(left), s);
            WfOr(t) && YieldOr(t, p.rest) == YieldOr(left, s) && OrExpr(t) == p.value
    ensures AfterAssert(ParseOrRest(OrExpr(left), s).rest) == AfterAssert(s)
    decreases |s|, 0
  {
    if At(s, OR) {
      Uncons(s);
      var right := AndSound(s[1..]);
      t := OrRestSound(Ors(left, right), ParseAnd(s[1..]).rest);
    } else {
      t := left;
    }
  }

  // ---------- Completeness ----------

  /** The symbols that would carry a primary, a comparison, an and- or an or-expression further. */
  predicate ContinuesPrimary(s: seq<Sym>) { At(s, DOT) }
  predicate ContinuesComparison(s: seq<Sym>) {
    ContinuesPrimary(s) || (s != [] && s[0].Fixed? && IsComparison(s[0].typ))
  }
  predicate ContinuesAnd(s: seq<Sym>) { ContinuesComparison(s) || At(s, AND) }
  predicate ContinuesOr(s: seq<Sym>) { ContinuesAnd(s) || At(s, OR) }

  lemma {:induction false} LeafComplete(sym: Sym, rest: seq<Sym>)
    requires IsLeaf(sym) && !ContinuesPrimary(rest)
    ensures ParsePrimary([sym] + rest) == Done(Literal(LeafValue(sym)), rest)
  {
    assert ([sym] + rest)[1..] == rest;
  }

  lemma {:induction false} PropertyComplete(o: string, p: string, rest: seq<Sym>)
    ensures ParsePrimary(YieldPrimary(Property(o, p), rest)) == Done(PropertyAccess(o, p), rest)
  {
    var s := YieldPrimary(Property(o, p), rest);
    assert s[1..] == [Fixed(DOT)] + ([Ident(p)] + rest);
    assert s[2..] == [Ident(p)] + rest;
    assert s[3..] == rest;
  }

  /** A bracket, call or CASE: its first symbol decides how the rest is read. */
  lemma {:induction false} BracketComplete(t: TokenType, s: seq<Sym>)
    ensures t.LBRACKET? ==> ParsePrimary([Fixed(t)] + s) == AsList(ParseItems(s))
    ensures t.CASE? ==> ParsePrimary([Fixed(t)] + s) == ParseCase(s)
    ensures IsFunction(t) ==> ParsePrimary([Fixed(t)] + s) == ParseCall(t, s)
    ensures t.LPAREN? && ParseOr(s).Done? && At(ParseOr(s).rest, RPAREN) ==>
              ParsePrimary([Fixed(t)] + s) == Done(ParseOr(s).value, ParseOr(s).rest[1..])
  {
    assert ([Fixed(t)] + s)[1..] == s;
  }

  lemma {:induction false} PrimaryComplete(t: PrimaryTree, rest: seq<Sym>)
    requires WfPrimary(t) && !ContinuesPrimary(rest)
    ensures ParsePrimary(YieldPrimary(t, rest)) == Done(PrimaryExpr(t), rest)
    ensures var s := YieldPrimary(t, rest); !At(s, RBRACKET) && !At(s, WHEN) && !At(s, RPAREN) && !At(s, NOT)
    decreases t, 1
  {
    match t
    case Leaf(sym) =>
      LeafComplete(sym, rest);
    case Property(o, p) =>
      PropertyComplete(o, p, rest);
    case Parens(e) =>
      var close := [Fixed(RPAREN)] + rest;
      OrComplete(e, close);
      BracketComplete(LPAREN, YieldOr(e, close));
    case List(items, trailing) =>
      ItemsComplete(items, trailing, rest);
      BracketComplete(LBRACKET, YieldItems(items, trailing, rest));
    case Call(name, args, trailing) =>
      ArgsComplete(args, trailing, rest);
      var inside := YieldArgs(args, trailing, rest);
      BracketComplete(name, [Fixed(LPAREN)] + inside);
      assert ([Fixed(LPAREN)] + inside)[1..] == inside;
    case Case(subject, whens, otherwise) =>
      var branches := YieldWhens(whens, YieldElse(otherwise, [Fixed(END)] + rest));
      BranchesComplete(subject, whens, otherwise, rest);
      match subject {
        case None =>
          BracketComplete(CASE, branches);
        case Some(p) =>
          PrimaryComplete(p, branches);
          BracketComplete(CASE, YieldPrimary(p, branches));
      }
  }

  lemma {:induction false} ItemStep(s: seq<Sym>, v: Expr, more: seq<Sym>, vs: seq<Expr>, rest: seq<Sym>)
    requires !At(s, RBRACKET) && ParsePrimary(s) == Done(v, [Fixed(COMMA)] + more) && ParseItems(more) == Done(vs, rest)
    ensures ParseItems(s) == Done([v] + vs, rest)
  {
    assert ([Fixed(COMMA)] + more)[1..] == more;
  }

  lemma {:induction false} LastItem(s: seq<Sym>, v: Expr, rest: seq<Sym>)
    requires !At(s, RBRACKET) && ParsePrimary(s) == Done(v, [Fixed(RBRACKET)] + rest)
    ensures ParseItems(s) == Done([v], rest)
  {
    assert ([Fixed(RBRACKET)] + rest)[1..] == rest;
  }

  lemma {:induction false} ItemsComplete(items: seq<PrimaryTree>, trailing: bool, rest: seq<Sym>)
    requires forall i :: 0 <= i < |items| ==> WfPrimary(items[i])
    ensures ParseItems(YieldItems(items, trailing, rest)) == Done(ItemExprs(items), rest)
    decreases items, 0
  {
    var s := YieldItems(items, trailing, rest);
    if items == [] {
      assert s[1..] == rest;
    } else if |items| == 1 && !trailing {
      PrimaryComplete(items[0], [Fixed(RBRACKET)] + rest);
      LastItem(s, PrimaryExpr(items[0]), rest);
      assert ItemExprs(items) == [PrimaryExpr(items[0])];
    } else {
      var more := YieldItems(items[1..], trailing, rest);
      PrimaryComplete(items[0], [Fixed(COMMA)] + more);
      ItemsComplete(items[1..], trailing, rest);
      ItemStep(s, PrimaryExpr(items[0]), more, ItemExprs(items[1..]), rest);
    }
  }

  lemma {:induction false} ArgStep(s: seq<Sym>, v: Expr, more: seq<Sym>, vs: seq<Expr>, rest: seq<Sym>)
    requires !At(s, RPAREN) && ParseOr(s) == Done(v, [Fixed(COMMA)] + more) && ParseArgs(more) == Done(vs, rest)
    ensures ParseArgs(s) == Done([v] + vs, rest)
  {
    assert ([Fixed(COMMA)] + more)[1..] == more;
  }

  lemma {:induction false} LastArg(s: seq<Sym>, v: Expr, rest: seq<Sym>)
    requires !At(s, RPAREN) && ParseOr(s) == Done(v, [Fixed(RPAREN)] + rest)
    ensures ParseArgs(s) == Done([v], rest)
  {
    assert ([Fixed(RPAREN)] + rest)[1..] == rest;
  }

  lemma {:induction false} ArgsComplete(args: seq<OrTree>, trailing: bool, rest: seq<Sym>)
    requires forall i :: 0 <= i < |args| ==> WfOr(args[i])
    ensures ParseArgs(YieldArgs(args, trailing, rest)) == Done(ArgExprs(args), rest)
    decreases args, 0
  {
    var s := YieldArgs(args, trailing, rest);
    if args == [] {
      assert s[1..] == rest;
    } else if |args| == 1 && !trailing {
      OrComplete(args[0], [Fixed(RPAREN)] + rest);
      LastArg(s, OrExpr(args[0]), rest);
      assert ArgExprs(args) == [OrExpr(args[0])];
    } else {
      var more := YieldArgs(args[1..], trailing, rest);
      OrComplete(args[0], [Fixed(COMMA)] + more);
      ArgsComplete(args[1..], trailing, rest);
      ArgStep(s, OrExpr(args[0]), more, ArgExprs(args[1..]), rest);
    }
  }

  lemma {:induction false} WhenComplete(w: WhenTree, rest: seq<Sym>)
    requires WfOr(w.condition) && WfOr(w.result) && !ContinuesOr(rest)
    ensures var s := YieldWhen(w, rest);
            && ParseOr(s).Done? && ParseOr(s).value == OrExpr(w.condition) && At(ParseOr(s).rest, THEN)
            && ParseOr(ParseOr(s).rest[1..]) == Done(OrExpr(w.result), rest)
    decreases w, 0
  {
    var mid := [Fixed(THEN)] + YieldOr(w.result, rest);
    OrComplete(w.condition, mid);
    OrComplete(w.result, rest);
    assert mid[1..] == YieldOr(w.result, rest);
  }

  lemma {:induction false} WhensComplete(whens: seq<WhenTree>, rest: seq<Sym>)
    requires forall i :: 0 <= i < |whens| ==> WfOr(whens[i].condition) && WfOr(whens[i].result)
    requires !ContinuesOr(rest) && !At(rest, WHEN)
    ensures ParseWhens(YieldWhens(whens, rest)) == Done(WhenExprs(whens), rest)
    decreases whens, 0
  {
    if whens != [] {
      var more := YieldWhens(whens[1..], rest);
      WhensComplete(whens[1..], rest);
      WhenComplete(whens[0], more);
    }
  }

  lemma {:induction false} BranchesComplete(
    subject: Option<PrimaryTree>, whens: seq<WhenTree>, otherwise: Option<OrTree>,
                                            rest: seq<Sym>)
    requires WfPrimary(Case(subject, whens, otherwise))
    ensures ParseBranches(SubjectExpr(subject), YieldWhens(whens, YieldElse(otherwise, [Fixed(END)] + rest)))
         == Done(PrimaryExpr(Case(subject, whens, otherwise)), rest)
    decreases Case(subject, whens, otherwise), 0
  {
    var tail := YieldElse(otherwise, [Fixed(END)] + rest);
    WhensComplete(whens, tail);
    match otherwise
    case None =>
    case Some(e) =>
      OrComplete(e, [Fixed(END)] + rest);
      assert tail[1..] == YieldOr(e, [Fixed(END)] + rest);
  }

  lemma {:induction false} ComparisonComplete(t: ComparisonTree, rest: seq<Sym>)
    requires WfComparison(t) && !ContinuesComparison(rest)
    ensures ParseComparison(YieldComparison(t, rest)) == Done(ComparisonExpr(t), rest)
    ensures !At(YieldComparison(t, rest), RPAREN) && !At(YieldComparison(t, rest), NOT)
    decreases t, 1
  {
    match t
    case OnePrimary(p) => PrimaryComplete(p, rest);
    case Compare(l, op, r) =>
      var more := [Fixed(op)] + YieldPrimary(r, rest);
      PrimaryComplete(l, more);
      PrimaryComplete(r, rest);
      assert more[1..] == YieldPrimary(r, rest);
  }

  lemma {:induction false} NotComplete(t: NotTree, rest: seq<Sym>)
    requires WfNot(t) && !ContinuesComparison(rest)
    ensures ParseNot(YieldNot(t, rest)) == Done(NotExpr(t), rest) && !At(YieldNot(t, rest), RPAREN)
    decreases t, 2
  {
    ComparisonComplete(t.c, rest);
  }

  /** Parsing an and-tree's symbols reaches the state in which its expression is the left operand. */
  lemma {:induction false} AndReached(t: AndTree, rest: seq<Sym>)
    requires WfAnd(t) && !ContinuesComparison(rest)
    ensures ParseAnd(YieldAnd(t, rest)) == ParseAndRest(AndExpr(t), rest) && !At(YieldAnd(t, rest), RPAREN)
    decreases t, 3
  {
    match t
    case OneNot(n) => NotComplete(n, rest);
    case Ands(l, r) =>
      var more := [Fixed(AND)] + YieldNot(r, rest);
      AndReached(l, more);
      NotComplete(r, rest);
      assert more[1..] == YieldNot(r, rest);
  }

  lemma {:induction false} OrReached(t: OrTree, rest: seq<Sym>)
    requires WfOr(t) && !ContinuesAnd(rest)
    ensures ParseOr(YieldOr(t, rest)) == ParseOrRest(OrExpr(t), rest) && !At(YieldOr(t, rest), RPAREN)
    decreases t, 4
  {
    match t
    case OneAnd(a) => AndReached(a, rest);
    case Ors(l, r) =>
      var more := [Fixed(OR)] + YieldAnd(r, rest);
      OrReached(l, more);
      AndReached(r, rest);
      assert more[1..] == YieldAnd(r, rest);
  }

  /** The parser finds every derivation tree that what follows does not continue. */
  lemma {:induction false} OrComplete(t: OrTree, rest: seq<Sym>)
    requires WfOr(t) && !ContinuesOr(rest)
    ensures ParseOr(YieldOr(t, rest)) == Done(OrExpr(t), rest) && !At(YieldOr(t, rest), RPAREN)
    decreases t, 5
  {
    OrReached(t, rest);
  }

  // ---------- Yields and what follows them ----------

  lemma {:induction false} Regroup(x: Sym, a: seq<Sym>, b: seq<Sym>)
    ensures [x] + a + b == [x] + (a + b)
  {
  }

  /** A tree's symbols do not depend on what follows: they come before it. */
  lemma {:induction false} OrAppend(t: OrTree, a: seq<Sym>, b: seq<Sym>)
    ensures YieldOr(t, a) + b == YieldOr(t, a + b)
    decreases t
  {
    match t
    case OneAnd(n) => AndAppend(n, a, b);
    case Ors(l, r) =>
      OrAppend(l, [Fixed(OR)] + YieldAnd(r, a), b);
      Regroup(Fixed(OR), YieldAnd(r, a), b);
      AndAppend(r, a, b);
  }

  lemma {:induction false} AndAppend(t: AndTree, a: seq<Sym>, b: seq<Sym>)
    ensures YieldAnd(t, a) + b == YieldAnd(t, a + b)
    decreases t
  {
    match t
    case OneNot(n) => NotAppend(n, a, b);
    case Ands(l, r) =>
      AndAppend(l, [Fixed(AND)] + YieldNot(r, a), b);
      Regroup(Fixed(AND), YieldNot(r, a), b);
      NotAppend(r, a, b);
  }

  lemma {:induction false} NotAppend(t: NotTree, a: seq<Sym>, b: seq<Sym>)
    ensures YieldNot(t, a) + b == YieldNot(t, a + b)
    decreases t
  {
    ComparisonAppend(t.c, a, b);
    Regroup(Fixed(NOT), YieldComparison(t.c, a), b);
  }

  lemma {:induction false} ComparisonAppend(t: ComparisonTree, a: seq<Sym>, b: seq<Sym>)
    ensures YieldComparison(t, a) + b == YieldComparison(t, a + b)
    decreases t
  {
    match t
    case OnePrimary(p) => PrimaryAppend(p, a, b);
    case Compare(l, op, r) =>
      PrimaryAppend(l, [Fixed(op)] + YieldPrimary(r, a), b);
      Regroup(Fixed(op), YieldPrimary(r, a), b);
      PrimaryAppend(r, a, b);
  }

  lemma {:induction false} PrimaryAppend(t: PrimaryTree, a: seq<Sym>, b: seq<Sym>)
    ensures YieldPrimary(t, a) + b == YieldPrimary(t, a + b)
    decreases t
  {
    match t
    case Leaf(sym) => Regroup(sym, a, b);
    case Property(o, p) =>
      Regroup(Ident(p), a, b);
      Regroup(Fixed(DOT), [Ident(p)] + a, b);
      Regroup(Ident(o), [Fixed(DOT)] + ([Ident(p)] + a), b);
    case Parens(e) =>
      Regroup(Fixed(RPAREN), a, b);
      OrAppend(e, [Fixed(RPAREN)] + a, b);
      Regroup(Fixed(LPAREN), YieldOr(e, [Fixed(RPAREN)] + a), b);
    case List(items, trailing) =>
      ItemsAppend(items, trailing, a, b);
      Regroup(Fixed(LBRACKET), YieldItems(items, trailing, a), b);
    case Call(name, args, trailing) =>
      ArgsAppend(args, trailing, a, b);
      var inside := YieldArgs(args, trailing, a);
      Regroup(Fixed(LPAREN), inside, b);
      Regroup(Fixed(name), [Fixed(LPAREN)] + inside, b);
    case Case(subject, whens, otherwise) =>
      Regroup(Fixed(END), a, b);
      ElseAppend(otherwise, [Fixed(END)] + a, b);
      var tail := YieldElse(otherwise, [Fixed(END)] + a);
      WhensAppend(whens, tail, b);
      var branches := YieldWhens(whens, tail);
      match subject {
        case None =>
          Regroup(Fixed(CASE), branches, b);
        case Some(p) =>
          PrimaryAppend(p, branches, b);
          Regroup(Fixed(CASE), YieldPrimary(p, branches), b);
      }
  }

  lemma {:induction false} ElseAppend(t: Option<OrTree>, a: seq<Sym>, b: seq<Sym>)
    ensures YieldElse(t, a) + b == YieldElse(t, a + b)
    decreases t
  {
    if t.Some? {
      OrAppend(t.value, a, b);
      Regroup(Fixed(ELSE), YieldOr(t.value, a), b);
    }
  }

  lemma {:induction false} ItemsAppend(ts: seq<PrimaryTree>, trailing: bool, a: seq<Sym>, b: seq<Sym>)
    ensures YieldItems(ts, trailing, a) + b == YieldItems(ts, trailing, a + b)
    decreases ts
  {
    Regroup(Fixed(RBRACKET), a, b);
    if ts != [] && (|ts| > 1 || trailing) {
      ItemsAppend(ts[1..], trailing, a, b);
      var more := YieldItems(ts[1..], trailing, a);
      Regroup(Fixed(COMMA), more, b);
      PrimaryAppend(ts[0], [Fixed(COMMA)] + more, b);
    } else if ts != [] {
      PrimaryAppend(ts[0], [Fixed(RBRACKET)] + a, b);
    }
  }

  lemma {:induction false} ArgsAppend(ts: seq<OrTree>, trailing: bool, a: seq<Sym>, b: seq<Sym>)
    ensures YieldArgs(ts, trailing, a) + b == YieldArgs(ts, trailing, a + b)
    decreases ts
  {
    Regroup(Fixed(RPAREN), a, b);
    if ts != [] && (|ts| > 1 || trailing) {
      ArgsAppend(ts[1..], trailing, a, b);
      var more := YieldArgs(ts[1..], trailing, a);
      Regroup(Fixed(COMMA), more, b);
      OrAppend(ts[0], [Fixed(COMMA)] + more, b);
    } else if ts != [] {
      OrAppend(ts[0], [Fixed(RPAREN)] + a, b);
    }
  }

  lemma {:induction false} WhenAppend(t: WhenTree, a: seq<Sym>, b: seq<Sym>)
    ensures YieldWhen(t, a) + b == YieldWhen(t, a + b)
    decreases t
  {
    OrAppend(t.result, a, b);
    Regroup(Fixed(THEN), YieldOr(t.result, a), b);
    OrAppend(t.condition, [Fixed(THEN)] + YieldOr(t.result, a), b);
  }

  lemma {:induction false} WhensAppend(ts: seq<WhenTree>, a: seq<Sym>, b: seq<Sym>)
    ensures YieldWhens(ts, a) + b == YieldWhens(ts, a + b)
    decreases ts
  {
    if ts != [] {
      WhensAppend(ts[1..], a, b);
      WhenAppend(ts[0], YieldWhens(ts[1..], a), b);
      Regroup(Fixed(WHEN), YieldWhen(ts[0], YieldWhens(ts[1..], a)), b);
    }
  }

  // ---------- Theorems ----------

  lemma {:induction false} EndedYield(t: OrTree, s: seq<Sym>)
    requires YieldOr(t, []) == s
    ensures YieldOr(t, [Eof]) == s + [Eof]
  {
    OrAppend(t, [], [Eof]);
    assert [] + [Eof] == [Eof];
  }

  lemma {:induction false} SameInit<T>(a: seq<T>, b: seq<T>, last: T)
    requires a + [last] == b + [last]
    ensures a == b
  {
    assert a == (a + [last])[..|a|] && b == (b + [last])[..|b|];
  }

  /** A symbol list is an expression to the parser exactly when the grammar derives it, and with the same meaning. */
  lemma {:induction false} ParserDecidesGrammar(s: seq<Sym>, e: Expr)
    ensures ParseOr(s + [Eof]) == Done(e, [Eof]) <==> exists t :: WfOr(t) && YieldOr(t, []) == s && OrExpr(t) == e
  {
    if ParseOr(s + [Eof]) == Done(e, [Eof]) {
      var t := OrSound(s + [Eof]);
      EndedYield(t, YieldOr(t, []));
      SameInit(YieldOr(t, []), s, Eof);
    }
    if t :| WfOr(t) && YieldOr(t, []) == s && OrExpr(t) == e {
      EndedYield(t, s);
      OrComplete(t, [Eof]);
    }
  }

  /** What the parser reads is the yield of one tree, followed by what it leaves. */
  lemma {:induction false} ConsumedExactly(s: seq<Sym>)
    requires ParseOr(s).Done?
    ensures exists t :: WfOr(t) && OrExpr(t) == ParseOr(s).value && s == YieldOr(t, []) + ParseOr(s).rest
  {
    var t := OrSound(s);
    OrAppend(t, [], ParseOr(s).rest);
    assert [] + ParseOr(s).rest == ParseOr(s).rest;
  }

  /** The grammar is unambiguous: trees with the same symbols mean the same expression. */
  lemma {:induction false} GrammarUnambiguous(t: OrTree, u: OrTree)
    requires WfOr(t) && WfOr(u) && YieldOr(t, []) == YieldOr(u, [])
    ensures OrExpr(t) == OrExpr(u)
  {
    OrComplete(t, []);
    OrComplete(u, []);
  }
}
