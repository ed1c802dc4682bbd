/**
 Rules as they are written, from the characters to the verdict: what single characters
 and escapes stand for, how NOT, AND and OR group, and what a rule that compares a
 property with a number says of an object.
 */
module RuleTexts {
  import opened Symbols
  import opened Lexing
  import opened Lexemes
  import opened Parsing
  import opened Grammar
  import opened Printing
  import opened Rendering
  import opened Values
  import opened Evaluation
  import opened OperatorMeaning
  import opened TextSplit
  import opened Rules
  import opened RuleGrammar
  import opened RuleLaws
  import opened RulePaths
  import opened Entities

  // ---------- Characters ----------

  lemma {:induction false} SpelledAlone(c: char, sym: Sym)
    requires Spells([c], sym)
    ensures Lex([c]) == Ok([sym, Eof])
  {
    LastLexed([c], sym);
    assert [sym] + [Eof] == [sym, Eof];
  }

  lemma {:induction false} NothingAlone(c: char)
    requires IsBlank(c) || c == '#'
    ensures Lex([c]) == Ok([Eof])
  {
    if c == '#' {
      EndLexed([c]);
    } else {
      LexSkip([c]);
      EndLexed([c][1..]);
    }
  }

  lemma {:induction false} BadAlone(c: char)
    requires Next([c]).Bad?
    ensures Lex([c]) == Err
  {
  }

  lemma {:induction false} LetterIsName(c: char)
    requires IsWordStart(c)
    ensures IsName([c])
  {
    var k := KeywordOf(Upper([c]));
    if k.Some? { SpellingShape(k.value); }
  }

  lemma {:induction false} DigitAlone(c: char)
    requires '0' <= c <= '9'
    ensures Lex([c]) == Ok([Whole(c as int - '0' as int), Eof])
  {
    assert [c][..0] == [];
    SpelledAlone(c, Whole(c as int - '0' as int));
  }

  /**
   The text of one character: a digit is its number and a letter its name, the operators and brackets are
   their tokens, blanks and comments are nothing, and everything else is an error, a lone quote included.
   */
  lemma {:induction false} OneCharacter(c: char)
    ensures Lex([c]) ==
            if c == ' ' || c == '\t' || c == '\r' || c == '\n' || c == '#' then Ok([Eof])
            else if '0' <= c <= '9' then Ok([Whole(c as int - '0' as int), Eof])
            else if 'a' <= c <= 'z' || 'A' <= c <= 'Z' || c == '_' then Ok([Ident([c]), Eof])
            else if c == '=' then Ok([Fixed(EQ), Eof])
            else if c == '<' then Ok([Fixed(LT), Eof])
            else if c == '>' then Ok([Fixed(GT), Eof])
            else if c == '(' then Ok([Fixed(LPAREN), Eof])
            else if c == ')' then Ok([Fixed(RPAREN), Eof])
            else if c == '[' then Ok([Fixed(LBRACKET), Eof])
            else if c == ']' then Ok([Fixed(RBRACKET), Eof])
            else if c == ',' then Ok([Fixed(COMMA), Eof])
            else if c == ':' then Ok([Fixed(COLON), Eof])
            else if c == '.' then Ok([Fixed(DOT), Eof])
            else Err
  {
    if IsBlank(c) || c == '#' {
      NothingAlone(c);
    } else if IsDigit(c) {
      DigitAlone(c);
    } else if IsWordStart(c) {
      LetterIsName(c);
      SpelledAlone(c, Ident([c]));
    } else if Next([c]).Bad? {
      BadAlone(c);
    } else {
      LexemeSound([c]);
      assert [c][..1] == [c];
      SpelledAlone(c, Next([c]).sym);
    }
  }

  /** The operators of two characters are not read as two. */
  lemma {:induction false} TwoCharacters(c: char)
    requires c == '!' || c == '<' || c == '>'
    ensures Lex([c, '=']) == Ok([Fixed(if c == '!' then NEQ else if c == '<' then LTE else GTE), Eof])
  {
    var t := if c == '!' then NEQ else if c == '<' then LTE else GTE;
    LastLexed([c, '='], Fixed(t));
    assert [Fixed(t)] + [Eof] == [Fixed(t), Eof];
  }

  /**
   A backslash and a character in a string: n is a newline and t a tab, and every other character is
   itself, both quotes and the backslash among them.
   */
  lemma {:induction false} Escapes(quote: char, c: char)
    requires quote == '"' || quote == '\''
    ensures var v := if c == 'n' then '\n' else if c == 't' then '\t' else c;
            Lex([quote, '\\', c, quote]) == Ok([Str([v]), Eof])
  {
    var l, v := [quote, '\\', c, quote], if c == 'n' then '\n' else if c == 't' then '\t' else c;
    var body := l[1..3];
    assert body == ['\\', c] && body[2..] == [];
    assert Unescape(body, quote) == Some([v]) by { assert [v] + [] == [v]; }
    LastLexed(l, Str([v]));
    assert [Str([v])] + [Eof] == [Str([v]), Eof];
  }

  // ---------- Grouping ----------

  function Word(w: string): NotTree {
    Bare(OnePrimary(Leaf(Ident(w))))
  }

  function NegatedWord(w: string): NotTree {
    Not(OnePrimary(Leaf(Ident(w))))
  }

  lemma {:induction false} WordYield(w: string, rest: seq<Sym>)
    ensures YieldNot(Word(w), rest) == [Ident(w)] + rest
    ensures YieldNot(NegatedWord(w), rest) == [Fixed(NOT)] + ([Ident(w)] + rest)
    ensures NotExpr(Word(w)) == Literal(StrLit(w)) && NotExpr(NegatedWord(w)) == UnaryOp(NOT, Literal(StrLit(w)))
    ensures WfNot(Word(w)) && WfNot(NegatedWord(w))
  {
    var primary := Leaf(Ident(w));
    var comparison := OnePrimary(primary);
    assert YieldPrimary(primary, rest) == [Ident(w)] + rest && YieldComparison(comparison, rest) == [Ident(w)] + rest;
    assert PrimaryExpr(primary) == Literal(StrLit(w)) && ComparisonExpr(comparison) == Literal(StrLit(w));
    assert WfPrimary(primary) && WfComparison(comparison);
  }

  /** NOT binds more tightly than AND, and AND than OR. */
  lemma {:induction false} Grouping(text: string, x: string, y: string, z: string)
    requires IsName(x) && IsName(y) && IsName(z)
    requires text == "NOT" + (" " + (x + (" " + ("AND" + (" " + (y + (" " + ("OR" + (" " + z)))))))))
    ensures Lex(text).Ok?
    ensures var (a, b, c) := (Literal(StrLit(x)), Literal(StrLit(y)), Literal(StrLit(z)));
            ParseOr(Lex(text).value) == Done(BinaryOp(OR, BinaryOp(AND, UnaryOp(NOT, a), b), c), [Eof])
  {
    GroupingTextIs(x, y, z);
    GroupingLexed(x, y, z);
    var conjunction := Ands(OneNot(NegatedWord(x)), Word(y));
    GroupingYield(x, y, [Fixed(OR)] + ([Ident(z)] + [Eof]));
    var last := OneNot(Word(z));
    WordYield(z, [Eof]);
    assert YieldAnd(last, [Eof]) == [Ident(z)] + [Eof] && WfAnd(last) && AndExpr(last) == Literal(StrLit(z));
    GroupingRead(conjunction, last);
  }

  lemma {:induction false} GroupingRead(first: AndTree, last: AndTree)
    requires WfAnd(first) && WfAnd(last)
    ensures ParseOr(YieldAnd(first, [Fixed(OR)] + YieldAnd(last, [Eof]))) ==
            Done(BinaryOp(OR, AndExpr(first), AndExpr(last)), [Eof])
  {
    var one := OneAnd(first);
    assert OrExpr(one) == AndExpr(first) && WfOr(one);
    assert YieldOr(one, [Fixed(OR)] + YieldAnd(last, [Eof])) == YieldAnd(first, [Fixed(OR)] + YieldAnd(last, [Eof]));
    OrComplete(Ors(one, last), [Eof]);
  }

  lemma {:induction false} GroupingYield(x: string, y: string, rest: seq<Sym>)
    ensures var t := Ands(OneNot(NegatedWord(x)), Word(y));
            && WfAnd(t) && AndExpr(t) == BinaryOp(AND, UnaryOp(NOT, Literal(StrLit(x))), Literal(StrLit(y)))
            && YieldAnd(t, rest) == [Fixed(NOT)] + ([Ident(x)] + ([Fixed(AND)] + ([Ident(y)] + rest)))
  {
    var one := OneNot(NegatedWord(x));
    WordYield(x, [Fixed(AND)] + ([Ident(y)] + rest));
    WordYield(y, rest);
    assert WfAnd(one) && AndExpr(one) == NotExpr(NegatedWord(x));
    assert YieldAnd(one, [Fixed(AND)] + ([Ident(y)] + rest)) ==
      YieldNot(NegatedWord(x), [Fixed(AND)] + ([Ident(y)] + rest));
  }

  lemma {:induction false} WordLexed(l: string, sym: Sym, rest: string, syms: seq<Sym>)
    requires Spells(l, sym) && Lex(rest) == Ok(syms)
    ensures Lex(l + (" " + rest)) == Ok([sym] + syms)
  {
    SpelledLexed(l, sym, rest);
  }

  lemma {:induction false} JoinedLexed(t: TokenType, x: string, l: string, rest: string, syms: seq<Sym>)
    requires IsKeyword(t) && IsName(x) && l == Spelling(t) && Lex(rest) == Ok(syms)
    ensures Lex(x + (" " + (l + (" " + rest)))) == Ok([Ident(x)] + ([Fixed(t)] + syms))
  {
    KeywordSpelled(t);
    WordLexed(l, Fixed(t), rest, syms);
    WordLexed(x, Ident(x), l + (" " + rest), [Fixed(t)] + syms);
  }

  function GroupingText(x: string, y: string, z: string): string {
    Spelling(NOT) + (" " + (x + (" " + (Spelling(AND) + (" " + (y + (" " + (Spelling(OR) + (" " + z)))))))))
  }

  lemma {:induction false} GroupingTextIs(x: string, y: string, z: string)
    ensures GroupingText(x, y, z) ==
            "NOT" + (" " + (x + (" " + ("AND" + (" " + (y + (" " + ("OR" + (" " + z)))))))))
  {
  }

  lemma {:induction false} GroupingLexed(x: string, y: string, z: string)
    requires IsName(x) && IsName(y) && IsName(z)
    ensures Lex(GroupingText(x, y, z)) ==
            Ok([Fixed(NOT)] + ([Ident(x)] + ([Fixed(AND)] + ([Ident(y)] + ([Fixed(OR)] + ([Ident(z)] + [Eof]))))))
  {
    LastLexed(z, Ident(z));
    JoinedLexed(OR, y, Spelling(OR), z, [Ident(z)] + [Eof]);
    var disjunction := y + (" " + (Spelling(OR) + (" " + z)));
    JoinedLexed(AND, x, Spelling(AND), disjunction, [Ident(y)] + ([Fixed(OR)] + ([Ident(z)] + [Eof])));
    var conjunction := x + (" " + (Spelling(AND) + (" " + disjunction)));
    KeywordSpelled(NOT);
    WordLexed(Spelling(NOT), Fixed(NOT), conjunction,
      [Ident(x)] + ([Fixed(AND)] + ([Ident(y)] + ([Fixed(OR)] + ([Ident(z)] + [Eof])))));
  }

  // ---------- A rule that compares ----------

  /** The signs of the comparisons, and what they ask of two reals. */
  datatype Sign = Above | Below | AtLeast | AtMost | EqualTo | UnequalTo {
    function Text(): string {
      match this case Above => ">" case Below => "<" case AtLeast => ">=" case AtMost => "<=" case EqualTo => "="
        case UnequalTo => "!="
    }

    predicate Asks(x: real, y: real) {
      match this case Above => x > y case Below => x < y case AtLeast => x >= y case AtMost => x <= y
        case EqualTo => x == y case UnequalTo => x != y
    }

    function Op(): TokenType {
      match this case Above => GT case Below => LT case AtLeast => GTE case AtMost => LTE case EqualTo => EQ
        case UnequalTo => NEQ
    }
  }

  lemma {:induction false} SignSpelled(sign: Sign)
    ensures Spells(sign.Text(), Fixed(sign.Op())) && IsComparison(sign.Op())
  {
  }

  lemma {:induction false} NumberLexed(l: string, op: TokenType, digits: string, n: nat)
    requires Spells(l, Fixed(op)) && digits == Digits(n, 1)
    ensures Lex(l + (" " + digits)) == Ok([Fixed(op)] + ([Whole(n)] + [Eof]))
  {
    SpellSpells(Whole(n));
    LastLexed(digits, Whole(n));
    SpelledLexed(l, Fixed(op), digits);
  }

  /** A sign that nothing can go on with. */
  predicate Closed(t: TokenType) {
    !IsKeyword(t) && !t.GT? && !t.LT?
  }

  lemma {:induction false} SignStarts(t: TokenType)
    requires Closed(t)
    ensures Spelling(t) != "" && !IsWordChar(Spelling(t)[0])
  {
  }

  lemma {:induction false} SignThen(t: TokenType, rest: string, syms: seq<Sym>)
    requires Closed(t) && Lex(rest) == Ok(syms)
    ensures Lex(Spelling(t) + rest) == Ok([Fixed(t)] + syms)
  {
    LexLexeme(Spelling(t), Fixed(t), rest);
  }

  lemma {:induction false} NameThen(x: string, t: TokenType, rest: string, syms: seq<Sym>)
    requires IsName(x) && Closed(t) && Lex(rest) == Ok(syms)
    ensures Lex(x + (Spelling(t) + rest)) == Ok([Ident(x)] + ([Fixed(t)] + syms))
  {
    SignThen(t, rest, syms);
    SignStarts(t);
    LexLexeme(x, Ident(x), Spelling(t) + rest);
  }

  lemma {:induction false} WordThen(f: TokenType, t: TokenType, rest: string, syms: seq<Sym>)
    requires IsKeyword(f) && Closed(t) && Lex(rest) == Ok(syms)
    ensures Lex(Spelling(f) + (Spelling(t) + rest)) == Ok([Fixed(f)] + ([Fixed(t)] + syms))
  {
    SignThen(t, rest, syms);
    SignStarts(t);
    KeywordSpelled(f);
    LexLexeme(Spelling(f), Fixed(f), Spelling(t) + rest);
  }

  lemma {:induction false} PropertyLexed(obj: string, p: string, rest: string)
    requires IsName(obj) && IsName(p) && Lex(rest).Ok?
    ensures Lex(obj + (Spelling(DOT) + (p + (" " + rest)))) ==
            Ok([Ident(obj)] + ([Fixed(DOT)] + ([Ident(p)] + Lex(rest).value)))
  {
    SpelledLexed(p, Ident(p), rest);
    NameThen(obj, DOT, p + (" " + rest), [Ident(p)] + Lex(rest).value);
  }

  lemma {:induction false} ComparisonRead(obj: string, p: string, op: TokenType, n: nat)
    requires IsComparison(op)
    ensures ParseOr([Ident(obj)] + ([Fixed(DOT)] + ([Ident(p)] + ([Fixed(op)] + ([Whole(n)] + [Eof]))))) ==
            Done(BinaryOp(op, PropertyAccess(obj, p), Literal(IntLit(n))), [Eof])
  {
    var property, number := Property(obj, p), Leaf(Whole(n));
    var comparison := Compare(property, op, number);
    assert WfPrimary(property) && WfPrimary(number) && WfComparison(comparison);
    assert YieldPrimary(number, [Eof]) == [Whole(n)] + [Eof];
    var t := OneAnd(OneNot(Bare(comparison)));
    ComparisonMeans(comparison, [Eof]);
    OrComplete(t, [Eof]);
  }

  lemma {:induction false} ComparisonMeans(c: ComparisonTree, rest: seq<Sym>)
    requires WfComparison(c)
    ensures var t := OneAnd(OneNot(Bare(c)));
            WfOr(t) && OrExpr(t) == ComparisonExpr(c) && YieldOr(t, rest) == YieldComparison(c, rest)
  {
    var bare := Bare(c);
    assert WfNot(bare) && NotExpr(bare) == ComparisonExpr(c) && YieldNot(bare, rest) == YieldComparison(c, rest);
    var one := OneNot(bare);
    assert WfAnd(one) && AndExpr(one) == NotExpr(bare) && YieldAnd(one, rest) == YieldNot(bare, rest);
  }

  lemma {:induction false} ObjIsName(w: string)
    requires w == "obj"
    ensures IsName(w)
  {
    var k := KeywordOf(Upper(w));
    assert Upper(w)[0] == 'O' && Upper(w)[2] == 'J';
    if k.Some? { SpellingShape(k.value); }
  }

  lemma {:induction false} AssertCut(text: string, part: string)
    requires text == "ASSERT" + part
    ensures AssertPart(text) == Some(Strip(part))
  {
    assert "ASSERT" <= text && text[6..] == part;
  }

  lemma {:induction false} RuleReads(text: string, part: string, e: Expr)
    requires text == Spelling(ASSERT) + (" " + part) && Lex(part).Ok? && ParseOr(Lex(part).value) == Done(e, [Eof])
    ensures AssertedExpr(text) == Ok(e)
  {
    SpaceLexed(" ", part);
    AssertCut(text, " " + part);
    StripKeepsSymbols(" " + part);
  }

  function Comparing(p: string, sign: Sign, n: nat): Expr {
    BinaryOp(sign.Op(), PropertyAccess("obj", p), Literal(IntLit(n)))
  }

  /** What the rule asks of an object. */
  predicate Related(obj: Object, p: string, sign: Sign, n: nat) {
    if p in obj && Numeric(obj[p]) then sign.Asks(Reals(obj[p]).r, n as real) else sign.UnequalTo?
  }

  /**
   ASSERT obj.p > 10 and its like pass exactly the objects whose p is a number so related to it, and
   ASSERT obj.p != 10 also those whose p is no number, or missing.
   */
  lemma {:induction false} ComparingRule(
    h: Host, obj: Object, text: string, p: string, sign: Sign, digits: string, n: nat)
    requires IsName(p) && digits == Digits(n, 1)
    requires text == "ASSERT" + (" " + ("obj" + ("." + (p + (" " + (sign.Text() + (" " + digits)))))))
    ensures EvaluateRule(h, text, obj) <==> Related(obj, p, sign, n)
  {
    ComparingTextIs(text, p, sign.Text() + (" " + digits));
    ComparingRuleRead(text, p, sign, digits, n);
    ComparisonDecides(h, obj, p, sign, n);
    VerdictOf(h, obj, text, Comparing(p, sign, n));
  }

  lemma {:induction false} ComparisonDecides(h: Host, obj: Object, p: string, sign: Sign, n: nat)
    ensures var e := Evaluate(h, obj, Comparing(p, sign, n));
            if Related(obj, p, sign, n) then e == Ok(BoolValue(true)) else e == Ok(BoolValue(false)) || e == Err
  {
    var property, number := PropertyAccess("obj", p), Literal(IntLit(n));
    LeavesMean(h, obj, n, "", "obj", p);
    var v := if p in obj then obj[p] else NoneValue;
    if Numeric(v) {
      NumbersCompared(h, obj, property, number, v, IntValue(n));
    } else {
      EqualityMeaning(h, obj, property, number, v, IntValue(n));
      OrderingsMeaning(h, obj, property, number, v, IntValue(n));
    }
  }

  lemma {:induction false} VerdictOf(h: Host, obj: Object, text: string, e: Expr)
    requires AssertedExpr(text) == Ok(e)
    ensures Evaluate(h, obj, e) == Ok(BoolValue(true)) ==> EvaluateRule(h, text, obj)
    ensures Evaluate(h, obj, e) == Ok(BoolValue(false)) || Evaluate(h, obj, e) == Err ==> !EvaluateRule(h, text, obj)
  {
  }

  lemma {:induction false} ComparingTextIs(text: string, p: string, tail: string)
    requires text == "ASSERT" + (" " + ("obj" + ("." + (p + (" " + tail)))))
    ensures text == Spelling(ASSERT) + (" " + ("obj" + (Spelling(DOT) + (p + (" " + tail)))))
  {
  }

  lemma {:induction false} ComparingRuleRead(text: string, p: string, sign: Sign, digits: string, n: nat)
    requires IsName(p) && digits == Digits(n, 1)
    requires text == Spelling(ASSERT) + (" " + ("obj" + (Spelling(DOT) + (p + (" " + (sign.Text() + (" " + digits)))))))
    ensures AssertedExpr(text) == Ok(Comparing(p, sign, n))
  {
    var comparing := sign.Text() + (" " + digits);
    SignSpelled(sign);
    NumberLexed(sign.Text(), sign.Op(), digits, n);
    ObjIsName("obj");
    PropertyLexed("obj", p, comparing);
    ComparisonRead("obj", p, sign.Op(), n);
    RuleReads(text, "obj" + (Spelling(DOT) + (p + (" " + comparing))), Comparing(p, sign, n));
  }

  // ---------- A rule that asks for a tag ----------

  /** ASSERT HAS_TAG('k') passes exactly the objects among whose tags k is: as a key, an element, or a part. */
  lemma {:induction false} TagRule(h: Host, obj: Object, text: string, k: string)
    requires '\'' !in k && '\\' !in k
    requires text == "ASSERT" + (" " + ("HAS_TAG" + ("(" + (("'" + k + "'") + ")"))))
    ensures EvaluateRule(h, text, obj) <==>
            "tags" in obj
            && match obj["tags"]
               case DictValue(fields) => k in fields
               case ListValue(items) => OperatorMeaning.Among(StrValue(k), items)
               case StrValue(t) => Inside(k, t)
               case _ => false
  {
    var e := FunctionCall(HAS_TAG, [Literal(StrLit(k))]);
    var literal := "'" + k + "'";
    MessageSpelled(literal, k);
    TagTextIs(literal);
    TagRuleRead(k, literal);
    LeavesMean(h, obj, 0, k, "", "");
    HasTagMeaning(h, obj, Literal(StrLit(k)), StrValue(k));
    ContainedKey(k, if "tags" in obj then obj["tags"] else DictValue(map[]));
    VerdictOf(h, obj, text, e);
  }

  lemma {:induction false} ContainedKey(k: string, tags: Value)
    ensures var r := Contained(StrValue(k), tags);
            match tags
            case DictValue(fields) => r == Ok(BoolValue(k in fields))
            case ListValue(items) => r == Ok(BoolValue(OperatorMeaning.Among(StrValue(k), items)))
            case StrValue(t) => r == Ok(BoolValue(Inside(k, t)))
            case _ => r == Err
  {
    if tags.DictValue? && k in tags.fields { assert StrValue(k) == StrValue(k); }
  }

  lemma {:induction false} CallLexed(f: TokenType, argument: string, k: string)
    requires IsKeyword(f) && Spells(argument, Str(k))
    ensures Lex(Spelling(f) + (Spelling(LPAREN) + (argument + Spelling(RPAREN)))) ==
            Ok([Fixed(f)] + ([Fixed(LPAREN)] + ([Str(k)] + ([Fixed(RPAREN)] + [Eof]))))
  {
    LastLexed(Spelling(RPAREN), Fixed(RPAREN));
    LexLexeme(argument, Str(k), Spelling(RPAREN));
    WordThen(f, LPAREN, argument + Spelling(RPAREN), [Str(k)] + ([Fixed(RPAREN)] + [Eof]));
  }

  lemma {:induction false} CallRead(f: TokenType, k: string)
    requires IsFunction(f)
    ensures ParseOr([Fixed(f)] + ([Fixed(LPAREN)] + ([Str(k)] + ([Fixed(RPAREN)] + [Eof])))) ==
            Done(FunctionCall(f, [Literal(StrLit(k))]), [Eof])
  {
    var argument := LeafTree(Str(k));
    LeafTreeMeans(Str(k), [Fixed(RPAREN)] + [Eof]);
    var args := [argument];
    assert ArgExprs(args[1..]) == [] && ArgExprs(args) == [Literal(StrLit(k))];
    var call := Grammar.Call(f, args, false);
    assert WfPrimary(call) && PrimaryExpr(call) == FunctionCall(f, [Literal(StrLit(k))]);
    assert YieldArgs(args, false, [Eof]) == YieldOr(argument, [Fixed(RPAREN)] + [Eof]);
    var comparison := OnePrimary(call);
    assert WfComparison(comparison) && ComparisonExpr(comparison) == PrimaryExpr(call);
    assert YieldComparison(comparison, [Eof]) == YieldPrimary(call, [Eof]);
    ComparisonMeans(comparison, [Eof]);
    OrComplete(OneAnd(OneNot(Bare(comparison))), [Eof]);
  }

  function TagText(literal: string): string {
    Spelling(ASSERT) + (" " + (Spelling(HAS_TAG) + (Spelling(LPAREN) + (literal + Spelling(RPAREN)))))
  }

  lemma {:induction false} TagTextIs(literal: string)
    ensures TagText(literal) == "ASSERT" + (" " + ("HAS_TAG" + ("(" + (literal + ")"))))
  {
  }

  lemma {:induction false} TagRuleRead(k: string, literal: string)
    requires Spells(literal, Str(k))
    ensures AssertedExpr(TagText(literal)) == Ok(FunctionCall(HAS_TAG, [Literal(StrLit(k))]))
  {
    var part := Spelling(HAS_TAG) + (Spelling(LPAREN) + (literal + Spelling(RPAREN)));
    CallLexed(HAS_TAG, literal, k);
    CallRead(HAS_TAG, k);
    RuleReads(TagText(literal), part, FunctionCall(HAS_TAG, [Literal(StrLit(k))]));
  }

  // ---------- A rule for one type ----------

  /** MATCH (x:Table) asks each loader that has tables for them, and no other loader for anything. */
  lemma {:induction false} TypedRule(h: Host, l: Loader, text: string, x: string, t: string, y: string)
    requires IsName(x) && IsName(t) && IsName(y) && Lower(t) != "object"
    requires text == "MATCH" + (" " + ("(" + (x + (":" + (t + (")" + (" " + ("ASSERT" + (" " + y)))))))))
    ensures ParseRule(text) == Ok(Rule(Conditions(Some(t), None, Some(Literal(StrLit(y)))), [], []))
    ensures Iterated(h, [l], FilterOf(ParseRule(text).value.conditions), None) ==
            if Lower(t) in l.supported then l.load([Lower(t)]) else []
  {
    TypedTextIs(x, t, y);
    TypedRuleLexed(x, t, y);
    TypedRuleRead(x, t, y);
    OneTypeAsked(h, l, t);
    assert FilterOf(Conditions(Some(t), None, Some(Literal(StrLit(y))))) ==
      FilterOf(Conditions(Some(t), None, None));
  }

  lemma {:induction false} TypedRuleRead(x: string, t: string, y: string)
    ensures ParseRuleSyms([Fixed(MATCH)] + ([Fixed(LPAREN)] + ([Ident(x)] + ([Fixed(COLON)] + ([Ident(t)]
                          + ([Fixed(RPAREN)] + ([Fixed(ASSERT)] + ([Ident(y)] + [Eof])))))))) ==
            Done(Rule(Conditions(Some(t), None, Some(Literal(StrLit(y)))), [], []), [Eof])
  {
    LeafTreeMeans(Ident(y), [Eof]);
    var c := ConditionTree(Some(Subject(x, t)), None, Some(LeafTree(Ident(y))));
    var rule := RuleTree(c, None, None);
    assert YieldClause(ASSERT, c.assert_, [Eof]) == [Fixed(ASSERT)] + ([Ident(y)] + [Eof]);
    RuleGrammar.RuleComplete(rule, [Eof]);
  }

  function TypedText(x: string, t: string, y: string): string {
    Spelling(MATCH) + (" " + (Spelling(LPAREN) + (x + (Spelling(COLON) + (t + (Spelling(RPAREN) + (" " +
      (Spelling(ASSERT) + (" " + y)))))))))
  }

  lemma {:induction false} TypedTextIs(x: string, t: string, y: string)
    ensures TypedText(x, t, y) ==
            "MATCH" + (" " + ("(" + (x + (":" + (t + (")" + (" " + ("ASSERT" + (" " + y)))))))))
  {
  }

  lemma {:induction false} TypedRuleLexed(x: string, t: string, y: string)
    requires IsName(x) && IsName(t) && IsName(y)
    ensures Lex(TypedText(x, t, y)) ==
            Ok([Fixed(MATCH)] + ([Fixed(LPAREN)] + ([Ident(x)] + ([Fixed(COLON)] + ([Ident(t)]
              + ([Fixed(RPAREN)] + ([Fixed(ASSERT)] + ([Ident(y)] + [Eof]))))))))
  {
    var clause := Spelling(ASSERT) + (" " + y);
    KeywordSpelled(ASSERT);
    LastLexed(y, Ident(y));
    WordLexed(Spelling(ASSERT), Fixed(ASSERT), y, [Ident(y)] + [Eof]);
    var subject := Spelling(LPAREN) + (x + (Spelling(COLON) + (t + (Spelling(RPAREN) + (" " + clause)))));
    SubjectLexed(x, t, clause, [Fixed(ASSERT)] + ([Ident(y)] + [Eof]));
    KeywordSpelled(MATCH);
    SpelledLexed(Spelling(MATCH), Fixed(MATCH), subject);
  }

  lemma {:induction false} SubjectLexed(x: string, t: string, rest: string, syms: seq<Sym>)
    requires IsName(x) && IsName(t) && Lex(rest) == Ok(syms)
    ensures Lex(Spelling(LPAREN) + (x + (Spelling(COLON) + (t + (Spelling(RPAREN) + (" " + rest)))))) ==
            Ok([Fixed(LPAREN)] + ([Ident(x)] + ([Fixed(COLON)] + ([Ident(t)] + ([Fixed(RPAREN)] + syms)))))
  {
    SpaceLexed(" ", rest);
    NameThen(t, RPAREN, " " + rest, syms);
    NameThen(x, COLON, t + (Spelling(RPAREN) + (" " + rest)), [Ident(t)] + ([Fixed(RPAREN)] + syms));
    SignThen(LPAREN, x + (Spelling(COLON) + (t + (Spelling(RPAREN) + (" " + rest)))),
      [Ident(x)] + ([Fixed(COLON)] + ([Ident(t)] + ([Fixed(RPAREN)] + syms))));
  }
}
