/**
 Writing symbols as text: every symbol has a spelling, so every printed
 expression has a text; and whatever the parser accepts can be written again.

 A symbol is writable when some text lexes to it. The lexer produces only such
 symbols, the parser builds only expressions whose symbols are among those it
 was given, and their spellings, a space after each, lex back to them.
 */
module Rendering {
  import opened Symbols
  import opened Lexing
  import opened Lexemes
  import opened Parsing
  import opened Grammar
  import opened Printing

  // ---------- Spelling one symbol ----------

  /** A symbol that can stand in a text. */
  predicate Writable(sym: Sym) {
    match sym
    case Ident(name) => IsName(name)
    case Eof => false
    case _ => true
  }

  function Escaped(c: char): string {
    if c == '\n' then "\\n" else if c == '\t' then "\\t" else if c == '\\' || c == '\'' then ['\\', c] else [c]
  }

  function Escape(s: string): string {
    if s == [] then [] else Escaped(s[0]) + Escape(s[1..])
  }

  function Digit(d: nat): (c: char)
    requires d < 10
    ensures IsDigit(c) && DigitValue(c) == d
  {
    ('0' as int + d) as char
  }

  /** n in decimal, with at least width digits. */
  function Digits(n: nat, width: nat): (s: string)
    ensures |s| >= width && AllDigits(s) && NumberValue(s) == n && (width > 0 ==> s != [])
    decreases n, width
  {
    if n == 0 && width == 0 then []
    else
      var init := Digits(n / 10, if width > 0 then width - 1 else 0);
      var s := init + [Digit(n % 10)];
      assert s[..|s| - 1] == init;
      s
  }

  /** Digits with a point before the last of them. */
  function Pointed(ds: string, places: nat): string
    requires |ds| >= places
  {
    ds[..|ds| - places] + "." + ds[|ds| - places..]
  }

  function Spell(sym: Sym): string {
    match sym
    case Fixed(t) => Spelling(t)
    case Ident(name) => name
    case Str(v) => "'" + Escape(v) + "'"
    case Whole(n) => Digits(n, 1)
    case Decimal(m, scale) => Pointed(Digits(m, scale + 1), scale)
    case Eof => ""
  }

  lemma {:induction false} EscapedDecodes(c: char, rest: string)
    requires Unescape(rest, '\'').Some?
    ensures Unescape(Escaped(c) + rest, '\'') == Some([c] + Unescape(rest, '\'').value)
  {
    var s := Escaped(c) + rest;
    if |Escaped(c)| == 2 {
      assert s[0] == '\\' && s[1] == Escaped(c)[1] && s[2..] == rest;
    } else {
      assert s[0] == c && s[1..] == rest;
    }
  }

  lemma {:induction false} EscapeUnescapes(s: string)
    ensures Unescape(Escape(s), '\'') == Some(s)
  {
    if s != [] {
      EscapeUnescapes(s[1..]);
      EscapedDecodes(s[0], Escape(s[1..]));
      assert [s[0]] + s[1..] == s;
    }
  }

  lemma {:induction false} KeywordSpelled(t: TokenType)
    requires IsKeyword(t)
    ensures Spells(Spelling(t), Fixed(t))
  {
    UpperSpelling(t);
  }

  lemma {:induction false} UpperSpelling(t: TokenType)
    requires IsKeyword(t)
    ensures Upper(Spelling(t)) == Spelling(t)
  {
    SpellingChars(t);
    var w := Spelling(t);
    assert forall i :: 0 <= i < |w| ==> UpperChar(w[i]) == w[i];
  }

  lemma {:induction false} StringSpells(v: string)
    ensures Spells(Spell(Str(v)), Str(v))
  {
    EscapeUnescapes(v);
    var l := "'" + Escape(v) + "'";
    assert l[1..|l| - 1] == Escape(v);
  }

  lemma {:induction false} DotInside(l: string, w: string, f: string)
    requires l == w + "." + f && w != [] && AllDigits(w) && AllDigits(f)
    ensures Spells(l, Decimal(NumberValue(w + f), |f|))
  {
    CutAtDot(l, w, f);
  }

  lemma {:induction false} CutAtDot(l: string, w: string, f: string)
    requires l == w + "." + f
    ensures |l| - 1 - |f| == |w| && l[..|w|] == w && l[|w|] == '.' && l[|w| + 1..] == f
  {
  }

  lemma {:induction false} DigitsCut(ds: string, scale: nat)
    requires |ds| > scale && AllDigits(ds)
    ensures Spells(Pointed(ds, scale), Decimal(NumberValue(ds), scale))
  {
    var k := |ds| - scale;
    DotInside(ds[..k] + "." + ds[k..], ds[..k], ds[k..]);
    assert ds[..k] + ds[k..] == ds;
  }

  lemma {:induction false} DecimalSpells(m: nat, scale: nat)
    ensures Spells(Spell(Decimal(m, scale)), Decimal(m, scale))
  {
    DigitsCut(Digits(m, scale + 1), scale);
  }

  lemma {:induction false} SpellSpells(sym: Sym)
    requires Writable(sym)
    ensures Spells(Spell(sym), sym)
  {
    match sym
    case Fixed(t) => if IsKeyword(t) { UpperSpelling(t); }
    case Str(v) => StringSpells(v);
    case Decimal(m, scale) => DecimalSpells(m, scale);
    case _ =>
  }

  // ---------- Texts ----------

  ghost predicate AllWritable(s: seq<Sym>) {
    forall sym :: sym in s ==> Writable(sym)
  }

  /** The text of a symbol list: the spellings, a space after each. */
  function Text(s: seq<Sym>): string {
    if s == [] then [] else Spell(s[0]) + (" " + Text(s[1..]))
  }

  lemma {:induction false} SpelledLexed(l: string, sym: Sym, rest: string)
    requires Spells(l, sym) && Lex(rest).Ok?
    ensures Lex(l + (" " + rest)) == Ok([sym] + Lex(rest).value)
  {
    SpaceLexed(" ", rest);
    LexLexeme(l, sym, " " + rest);
  }

  lemma {:induction false} SpaceLexed(space: string, rest: string)
    requires space == " "
    ensures Lex(space + rest) == Lex(rest)
  {
    assert Trivia(space) by { assert Trivia(space[1..]); }
    TriviaSkipped(space, rest);
  }

  lemma {:induction false} HeadBack(s: seq<Sym>)
    requires s != []
    ensures [s[0]] + (s[1..] + [Eof]) == s + [Eof]
  {
  }

  lemma {:induction false} TextLexed(s: seq<Sym>)
    requires AllWritable(s)
    ensures Lex(Text(s)) == Ok(s + [Eof])
  {
    if s != [] {
      TextLexed(s[1..]);
      SpellSpells(s[0]);
      SpelledLexed(Spell(s[0]), s[0], Text(s[1..]));
      HeadBack(s);
    }
  }

  lemma {:induction false} LastLexed(l: string, sym: Sym)
    requires Spells(l, sym)
    ensures Lex(l) == Ok([sym] + [Eof])
  {
    var rest := l[|l|..];
    EndLexed(rest);
    LexLexeme(l, sym, rest);
    assert l + rest == l;
  }

  lemma {:induction false} ScannedWritable(s: string)
    requires Scan(s).Ok?
    ensures AllWritable(Syms(Scan(s).value))
  {
    if s != [] {
      var n := Next(s).len;
      ScannedWritable(s[n..]);
      SymsCons(Next(s), Scan(s[n..]).value);
      if Next(s).Lexeme? { LexemeSound(s); }
    }
  }

  /** Every symbol of a text but the last is writable. */
  lemma {:induction false} LexedWritable(text: string)
    requires Lex(text).Ok?
    ensures var s := Lex(text).value; s != [] && s[|s| - 1] == Eof && AllWritable(s[..|s| - 1])
  {
    ScannedWritable(text);
    var s := Lex(text).value;
    assert s[..|s| - 1] == Syms(Scan(text).value);
  }

  // ---------- What the parser reads can be written ----------

  /** All but EOF are writable; EOF may follow. */
  ghost predicate Named(s: seq<Sym>) {
    forall sym :: sym in s ==> sym == Eof || Writable(sym)
  }

  lemma {:induction false} NamedTail(x: Sym, s: seq<Sym>)
    ensures Named([x] + s) ==> Named(s) && (x == Eof || Writable(x))
  {
    forall sym | sym in s ensures sym in [x] + s {
    }
    assert ([x] + s)[0] == x;
  }

  lemma {:induction false} OrNamed(t: OrTree, rest: seq<Sym>)
    requires WfOr(t) && Named(YieldOr(t, rest))
    ensures WfExpr(OrExpr(t)) && Named(rest)
    decreases t
  {
    match t
    case OneAnd(a) => AndNamed(a, rest);
    case Ors(l, r) =>
      OrNamed(l, [Fixed(OR)] + YieldAnd(r, rest));
      NamedTail(Fixed(OR), YieldAnd(r, rest));
      AndNamed(r, rest);
  }

  lemma {:induction false} AndNamed(t: AndTree, rest: seq<Sym>)
    requires WfAnd(t) && Named(YieldAnd(t, rest))
    ensures WfExpr(AndExpr(t)) && Named(rest)
    decreases t
  {
    match t
    case OneNot(n) => NotNamed(n, rest);
    case Ands(l, r) =>
      AndNamed(l, [Fixed(AND)] + YieldNot(r, rest));
      NamedTail(Fixed(AND), YieldNot(r, rest));
      NotNamed(r, rest);
  }

  lemma {:induction false} NotNamed(t: NotTree, rest: seq<Sym>)
    requires WfNot(t) && Named(YieldNot(t, rest))
    ensures WfExpr(NotExpr(t)) && Named(rest)
    decreases t
  {
    NamedTail(Fixed(NOT), YieldComparison(t.c, rest));
    ComparisonNamed(t.c, rest);
  }

  lemma {:induction false} ComparisonNamed(t: ComparisonTree, rest: seq<Sym>)
    requires WfComparison(t) && Named(YieldComparison(t, rest))
    ensures WfExpr(ComparisonExpr(t)) && Named(rest)
    decreases t
  {
    match t
    case OnePrimary(p) => PrimaryNamed(p, rest);
    case Compare(l, op, r) =>
      PrimaryNamed(l, [Fixed(op)] + YieldPrimary(r, rest));
      NamedTail(Fixed(op), YieldPrimary(r, rest));
      PrimaryNamed(r, rest);
  }

  lemma {:induction false} PrimaryNamed(t: PrimaryTree, rest: seq<Sym>)
    requires WfPrimary(t) && Named(YieldPrimary(t, rest))
    ensures WfExpr(PrimaryExpr(t)) && Named(rest)
    decreases t
  {
    match t
    case Leaf(sym) => NamedTail(sym, rest);
    case Property(o, p) =>
      var last := [Ident(p)] + rest;
      NamedTail(Ident(o), [Fixed(DOT)] + last);
      NamedTail(Fixed(DOT), last);
      NamedTail(Ident(p), rest);
    case Parens(e) =>
      NamedTail(Fixed(LPAREN), YieldOr(e, [Fixed(RPAREN)] + rest));
      OrNamed(e, [Fixed(RPAREN)] + rest);
      NamedTail(Fixed(RPAREN), rest);
    case List(items, trailing) =>
      NamedTail(Fixed(LBRACKET), YieldItems(items, trailing, rest));
      ItemsNamed(items, trailing, rest);
    case Call(name, args, trailing) =>
      var inside := YieldArgs(args, trailing, rest);
      NamedTail(Fixed(name), [Fixed(LPAREN)] + inside);
      NamedTail(Fixed(LPAREN), inside);
      ArgsNamed(args, trailing, rest);
    case Case(subject, whens, otherwise) =>
      var end := [Fixed(END)] + rest;
      var branches := YieldWhens(whens, YieldElse(otherwise, end));
      match subject {
        case None =>
          NamedTail(Fixed(CASE), branches);
        case Some(p) =>
          NamedTail(Fixed(CASE), YieldPrimary(p, branches));
          PrimaryNamed(p, branches);
      }
      WhensNamed(whens, YieldElse(otherwise, end));
      if otherwise.Some? {
        NamedTail(Fixed(ELSE), YieldOr(otherwise.value, end));
        OrNamed(otherwise.value, end);
      }
      NamedTail(Fixed(END), rest);
  }

  lemma {:induction false} ItemsNamed(ts: seq<PrimaryTree>, trailing: bool, rest: seq<Sym>)
    requires (forall i :: 0 <= i < |ts| ==> WfPrimary(ts[i])) && Named(YieldItems(ts, trailing, rest))
    ensures (forall i :: 0 <= i < |ItemExprs(ts)| ==> WfExpr(ItemExprs(ts)[i])) && Named(rest)
    decreases ts
  {
    if ts == [] || (|ts| == 1 && !trailing) {
      if ts != [] { PrimaryNamed(ts[0], [Fixed(RBRACKET)] + rest); }
      NamedTail(Fixed(RBRACKET), rest);
    } else {
      var more := YieldItems(ts[1..], trailing, rest);
      PrimaryNamed(ts[0], [Fixed(COMMA)] + more);
      NamedTail(Fixed(COMMA), more);
      ItemsNamed(ts[1..], trailing, rest);
    }
  }

  lemma {:induction false} ArgsNamed(ts: seq<OrTree>, trailing: bool, rest: seq<Sym>)
    requires (forall i :: 0 <= i < |ts| ==> WfOr(ts[i])) && Named(YieldArgs(ts, trailing, rest))
    ensures (forall i :: 0 <= i < |ArgExprs(ts)| ==> WfExpr(ArgExprs(ts)[i])) && Named(rest)
    decreases ts
  {
    if ts == [] || (|ts| == 1 && !trailing) {
      if ts != [] { OrNamed(ts[0], [Fixed(RPAREN)] + rest); }
      NamedTail(Fixed(RPAREN), rest);
    } else {
      var more := YieldArgs(ts[1..], trailing, rest);
      OrNamed(ts[0], [Fixed(COMMA)] + more);
      NamedTail(Fixed(COMMA), more);
      ArgsNamed(ts[1..], trailing, rest);
    }
  }

  lemma {:induction false} WhenNamed(t: WhenTree, rest: seq<Sym>)
    requires WfOr(t.condition) && WfOr(t.result) && Named(YieldWhen(t, rest))
    ensures WfExpr(WhenExpr(t).condition) && WfExpr(WhenExpr(t).result) && Named(rest)
    decreases t
  {
    var more := YieldOr(t.result, rest);
    OrNamed(t.condition, [Fixed(THEN)] + more);
    NamedTail(Fixed(THEN), more);
    OrNamed(t.result, rest);
  }

  lemma {:induction false} WhensNamed(ts: seq<WhenTree>, rest: seq<Sym>)
    requires (forall i :: 0 <= i < |ts| ==> WfOr(ts[i].condition) && WfOr(ts[i].result)) && Named(YieldWhens(ts, rest))
    ensures var ws := WhenExprs(ts);
            && |ws| == |ts| && (forall i :: 0 <= i < |ws| ==> WfExpr(ws[i].condition) && WfExpr(ws[i].result))
              && Named(rest)
    decreases ts
  {
    if ts != [] {
      var more := YieldWhens(ts[1..], rest);
      NamedTail(Fixed(WHEN), YieldWhen(ts[0], more));
      WhenNamed(ts[0], more);
      WhensNamed(ts[1..], rest);
    }
  }

  /** An expression read from lexed symbols can be written, and so can what is left. */
  lemma {:induction false} ParsedWritable(s: seq<Sym>)
    requires Named(s) && ParseOr(s).Done?
    ensures WfExpr(ParseOr(s).value) && Named(ParseOr(s).rest)
  {
    var t := OrSound(s);
    OrNamed(t, ParseOr(s).rest);
  }

  // ---------- What is printed can be written ----------

  lemma {:induction false} WritableCons(x: Sym, s: seq<Sym>)
    requires Writable(x) && AllWritable(s)
    ensures AllWritable([x] + s)
  {
  }

  lemma {:induction false} OrWritable(e: Expr, rest: seq<Sym>)
    requires WfExpr(e) && AllWritable(rest)
    ensures AllWritable(YieldOr(AsOr(e), rest))
    decreases e, Descent(e, 4)
  {
    match e
    case BinaryOp(OR, l, r) =>
      AndWritable(r, rest);
      WritableCons(Fixed(OR), YieldAnd(AsAnd(r), rest));
      OrWritable(l, [Fixed(OR)] + YieldAnd(AsAnd(r), rest));
    case _ => AndWritable(e, rest);
  }

  lemma {:induction false} AndWritable(e: Expr, rest: seq<Sym>)
    requires WfExpr(e) && AllWritable(rest)
    ensures AllWritable(YieldAnd(AsAnd(e), rest))
    decreases e, Descent(e, 3)
  {
    match e
    case BinaryOp(AND, l, r) =>
      NotWritable(r, rest);
      WritableCons(Fixed(AND), YieldNot(AsNot(r), rest));
      AndWritable(l, [Fixed(AND)] + YieldNot(AsNot(r), rest));
    case _ => NotWritable(e, rest);
  }

  lemma {:induction false} NotWritable(e: Expr, rest: seq<Sym>)
    requires WfExpr(e) && AllWritable(rest)
    ensures AllWritable(YieldNot(AsNot(e), rest))
    decreases e, Descent(e, 2)
  {
    match e
    case UnaryOp(_, x) =>
      ComparisonWritable(x, rest);
      WritableCons(Fixed(NOT), YieldComparison(AsComparison(x), rest));
    case _ => ComparisonWritable(e, rest);
  }

  lemma {:induction false} ComparisonWritable(e: Expr, rest: seq<Sym>)
    requires WfExpr(e) && AllWritable(rest)
    ensures AllWritable(YieldComparison(AsComparison(e), rest))
    decreases e, Descent(e, 1)
  {
    if e.BinaryOp? && Level(e) == 1 {
      PrimaryWritable(e.right, rest);
      WritableCons(Fixed(e.op), YieldPrimary(AsPrimary(e.right), rest));
      PrimaryWritable(e.left, [Fixed(e.op)] + YieldPrimary(AsPrimary(e.right), rest));
    } else {
      PrimaryWritable(e, rest);
    }
  }

  lemma {:induction false} PrimaryWritable(e: Expr, rest: seq<Sym>)
    requires WfExpr(e) && AllWritable(rest)
    ensures AllWritable(YieldPrimary(AsPrimary(e), rest))
    decreases e, Descent(e, 0)
  {
    match e
    case Literal(_) =>
    case PropertyAccess(_, _) =>
    case ListLiteral(vs) => ItemsWritable(vs, rest);
    case FunctionCall(_, args) => ArgsWritable(args, rest);
    case CaseExpression(subject, whens, otherwise) =>
      var tail := [Fixed(END)] + rest;
      WritableCons(Fixed(END), rest);
      if otherwise.Some? {
        OrWritable(otherwise.value, tail);
        WritableCons(Fixed(ELSE), YieldOr(AsOr(otherwise.value), tail));
        tail := [Fixed(ELSE)] + YieldOr(AsOr(otherwise.value), tail);
      }
      WhensWritable(whens, tail);
      if subject.Some? { PrimaryWritable(subject.value, YieldWhens(AsWhens(whens), tail)); }
    case _ =>
      WritableCons(Fixed(RPAREN), rest);
      OrWritable(e, [Fixed(RPAREN)] + rest);
      WritableCons(Fixed(LPAREN), YieldOr(AsOr(e), [Fixed(RPAREN)] + rest));
  }

  lemma {:induction false} ItemsWritable(vs: seq<Expr>, rest: seq<Sym>)
    requires (forall i :: 0 <= i < |vs| ==> WfExpr(vs[i])) && AllWritable(rest)
    ensures AllWritable(YieldItems(AsItems(vs), false, rest))
    decreases vs
  {
    WritableCons(Fixed(RBRACKET), rest);
    if |vs| == 1 {
      PrimaryWritable(vs[0], [Fixed(RBRACKET)] + rest);
    } else if vs != [] {
      var more := YieldItems(AsItems(vs[1..]), false, rest);
      ItemsWritable(vs[1..], rest);
      WritableCons(Fixed(COMMA), more);
      PrimaryWritable(vs[0], [Fixed(COMMA)] + more);
      assert AsItems(vs)[1..] == AsItems(vs[1..]) && AsItems(vs[1..]) != [];
    }
  }

  lemma {:induction false} ArgsWritable(vs: seq<Expr>, rest: seq<Sym>)
    requires (forall i :: 0 <= i < |vs| ==> WfExpr(vs[i])) && AllWritable(rest)
    ensures AllWritable(YieldArgs(AsArgs(vs), false, rest))
    decreases vs
  {
    WritableCons(Fixed(RPAREN), rest);
    if |vs| == 1 {
      OrWritable(vs[0], [Fixed(RPAREN)] + rest);
    } else if vs != [] {
      var more := YieldArgs(AsArgs(vs[1..]), false, rest);
      ArgsWritable(vs[1..], rest);
      WritableCons(Fixed(COMMA), more);
      OrWritable(vs[0], [Fixed(COMMA)] + more);
      assert AsArgs(vs)[1..] == AsArgs(vs[1..]) && AsArgs(vs[1..]) != [];
    }
  }

  lemma {:induction false} WhenWritable(w: When, rest: seq<Sym>)
    requires WfExpr(w.condition) && WfExpr(w.result) && AllWritable(rest)
    ensures AllWritable(YieldWhen(AsWhen(w), rest))
    decreases w
  {
    OrWritable(w.result, rest);
    WritableCons(Fixed(THEN), YieldOr(AsOr(w.result), rest));
    OrWritable(w.condition, [Fixed(THEN)] + YieldOr(AsOr(w.result), rest));
  }

  lemma {:induction false} WhensWritable(ws: seq<When>, rest: seq<Sym>)
    requires (forall i :: 0 <= i < |ws| ==> WfExpr(ws[i].condition) && WfExpr(ws[i].result)) && AllWritable(rest)
    ensures AllWritable(YieldWhens(AsWhens(ws), rest))
    decreases ws
  {
    if ws != [] {
      var more := YieldWhens(AsWhens(ws[1..]), rest);
      WhensWritable(ws[1..], rest);
      WhenWritable(ws[0], more);
      WritableCons(Fixed(WHEN), YieldWhen(AsWhen(ws[0]), more));
      assert AsWhens(ws)[1..] == AsWhens(ws[1..]);
    }
  }
}
