/**
 Whole rules: MATCH, WHERE, ASSERT, ON_PASS and ON_FAIL clauses, the actions in
 them, and the two ways a rule is used: parsed into its parts, or evaluated on
 an object straight from its text.
 */
module Rules {
  import opened Symbols
  import opened Lexing
  import opened Parsing
  import opened Values
  import opened Evaluation
  import opened TextSplit

  datatype ActionDef =
    | PassDef
    | FailDef(message: Option<string>)
    | AssignTagDef(key: string, value: string)
    | RemoveTagDef(key: string)
    | NotifyDef(recipients: string)

  /** What a rule is about and what it asks. */
  datatype Conditions = Conditions(matchType: Option<string>, whereClause: Option<Expr>, assertClause: Option<Expr>)

  datatype Rule = Rule(conditions: Conditions, onPass: seq<ActionDef>, onFail: seq<ActionDef>)

  // ---------- The clauses' functions ----------

  predicate AtAction(s: seq<Sym>) {
    s != [] && s[0].Fixed? && IsAction(s[0].typ)
  }

  function ParseAction(s: seq<Sym>): (r: Parsed<ActionDef>)
    requires AtAction(s)
    ensures r.Done? ==> |r.rest| < |s|
  {
    var t, rest := s[0].typ, s[1..];
    if t.PASS? then Done(PassDef, rest)
    else if t.FAIL? then
      if Head(rest).Str? then Done(FailDef(Some(rest[0].text)), rest[1..]) else Done(FailDef(None), rest)
    else if t.ASSIGN_TAG? then ParseAssignTag(rest)
    else if t.REMOVE_TAG? then
      if Head(rest).Ident? then Done(RemoveTagDef(rest[0].name), rest[1..]) else Fail
    else if Head(rest).Str? then Done(NotifyDef(rest[0].text), rest[1..])
    else Fail
  }

  function ParseAssignTag(s: seq<Sym>): (r: Parsed<ActionDef>)
    ensures r.Done? ==> |r.rest| < |s|
  {
    if Head(s).Ident? && At(s[1..], COLON) && Head(s[2..]).Str?
    then Done(AssignTagDef(s[0].name, s[2].text), s[3..])
    else Fail
  }

  function ParseActions(s: seq<Sym>): (r: Parsed<seq<ActionDef>>)
    ensures r.Done? ==> |r.rest| <= |s|
    decreases |s|
  {
    if !AtAction(s) then Done([], s)
    else
      match ParseAction(s)
      case Fail => Fail
      case Done(a, rest) =>
        match ParseActions(rest)
        case Fail => Fail
        case Done(more, rest') => Done([a] + more, rest')
  }

  function ParseMatch(s: seq<Sym>): Parsed<Option<string>> {
    if !At(s, MATCH) then Done(None, s)
    else if At(s[1..], LPAREN) && Head(s[2..]).Ident? && At(s[3..], COLON) && Head(s[4..]).Ident? && At(s[5..], RPAREN)
    then Done(Some(s[4].name), s[6..])
    else Fail
  }

  function ParseClause(t: TokenType, s: seq<Sym>): Parsed<Option<Expr>> {
    if !At(s, t) then Done(None, s)
    else match ParseOr(s[1..]) case Done(e, rest) => Done(Some(e), rest) case Fail => Fail
  }

  function ParseActionClause(t: TokenType, s: seq<Sym>): Parsed<seq<ActionDef>> {
    if !At(s, t) then Done([], s) else ParseActions(s[1..])
  }

  function ParseConditionSyms(s: seq<Sym>): Parsed<Conditions> {
    match ParseMatch(s)
    case Fail => Fail
    case Done(m, s1) =>
      match ParseClause(WHERE, s1)
      case Fail => Fail
      case Done(w, s2) =>
        match ParseClause(ASSERT, s2)
        case Fail => Fail
        case Done(a, s3) => Done(Conditions(m, w, a), s3)
  }

  /** The clauses, each optional, in this order; what follows them is left unread. */
  function ParseRuleSyms(s: seq<Sym>): Parsed<Rule> {
    match ParseConditionSyms(s)
    case Fail => Fail
    case Done(c, s1) =>
      match ParseActionClause(ON_PASS, s1)
      case Fail => Fail
      case Done(p, s2) =>
        match ParseActionClause(ON_FAIL, s2)
        case Fail => Fail
        case Done(f, s3) => Done(Rule(c, p, f), s3)
  }

  /** parse_rule */
  function ParseRule(text: string): Result<Rule> {
    match Lex(text)
    case Err => Err
    case Ok(s) => match ParseRuleSyms(s) case Done(r, _) => Ok(r) case Fail => Err
  }

  /** The expression evaluate_rule_on_object reads from a rule's text. */
  function AssertedExpr(text: string): Result<Expr> {
    match AssertPart(text)
    case None => Err
    case Some(part) =>
      match Lex(part)
      case Err => Err
      case Ok(s) => match ParseOr(s) case Done(e, _) => Ok(e) case Fail => Err
  }

  /** evaluate_rule_on_object: whether the rule passes; every error is a failure. */
  function EvaluateRule(h: Host, text: string, obj: Object): bool {
    match AssertedExpr(text)
    case Ok(e) => Truth(h, obj, e) == Ok(true)
    case Err => false
  }

  // ---------- The methods ----------

  method LexAndOpen(text: string) returns (r: Result<Parser>)
    ensures match Lex(text)
            case Err => r.Err?
            case Ok(s) => r.Ok? && fresh(r.value) && r.value.Valid() && r.value.Rest() == s
  {
    var lexer := new Lexer(text);
    var tokens := lexer.Tokenize();
    TokensAreSymbols(text);
    if tokens.Err? {
      return Err;
    }
    var last := |tokens.value| - 1;
    assert SymbolsOf(tokens.value)[last] == Eof;
    var parser := new Parser(tokens.value);
    return Ok(parser);
  }

  method ParseActionList(parser: Parser) returns (r: Result<seq<ActionDef>>)
    requires parser.Valid()
    modifies parser
    ensures parser.Valid() && Agrees(r, parser.Rest(), ParseActions(old(parser.Rest())))
  {
    ghost var whole := parser.Rest();
    var actions: seq<ActionDef> := [];
    ItemsAfterNone([], ParseActions(whole));
    while parser.Current().Fixed? && IsAction(parser.Current().typ)
      invariant parser.Valid()
      invariant ParseActions(whole) == ItemsAfter(actions, ParseActions(parser.Rest()))
      decreases |parser.Rest()|
    {
      var action := ParseOneAction(parser);
      if action.Err? {
        return Err;
      }
      ItemsAfterTwice(actions, [action.value], ParseActions(parser.Rest()));
      actions := actions + [action.value];
    }
    assert actions + [] == actions;
    return Ok(actions);
  }

  method ParseOneAction(parser: Parser) returns (r: Result<ActionDef>)
    requires parser.Valid() && AtAction(parser.Rest())
    modifies parser
    ensures parser.Valid() && Agrees(r, parser.Rest(), ParseAction(old(parser.Rest())))
  {
    var action := parser.Advance();
    if action.typ.PASS? {
      return Ok(PassDef);
    } else if action.typ.FAIL? {
      if !parser.Current().Str? {
        return Ok(FailDef(None));
      }
      var message := parser.ExpectString();
      return Ok(FailDef(Some(message.value)));
    } else if action.typ.ASSIGN_TAG? {
      r := ParseTagAssignment(parser);
    } else if action.typ.REMOVE_TAG? {
      var key := parser.ExpectName();
      return if key.Ok? then Ok(RemoveTagDef(key.value)) else Err;
    } else {
      var recipients := parser.ExpectString();
      return if recipients.Ok? then Ok(NotifyDef(recipients.value)) else Err;
    }
  }

  method ParseTagAssignment(parser: Parser) returns (r: Result<ActionDef>)
    requires parser.Valid()
    modifies parser
    ensures parser.Valid() && Agrees(r, parser.Rest(), ParseAssignTag(old(parser.Rest())))
  {
    ghost var s := parser.Rest();
    var key := parser.ExpectName();
    if key.Err? {
      return Err;
    }
    var colon := parser.Expect(COLON);
    if colon.Err? {
      return Err;
    }
    assert parser.Rest() == s[2..];
    var value := parser.ExpectString();
    return if value.Ok? then Ok(AssignTagDef(key.value, value.value)) else Err;
  }

  method ParseMatchClause(parser: Parser) returns (r: Result<Option<string>>)
    requires parser.Valid()
    modifies parser
    ensures parser.Valid() && Agrees(r, parser.Rest(), ParseMatch(old(parser.Rest())))
  {
    ghost var s := parser.Rest();
    if !parser.Is(MATCH) {
      return Ok(None);
    }
    var _ := parser.Advance();
    var open := parser.Expect(LPAREN);
    if open.Err? {
      return Err;
    }
    assert parser.Rest() == s[2..];
    var entity := parser.ExpectName();
    if entity.Err? {
      return Err;
    }
    assert parser.Rest() == s[3..];
    var colon := parser.Expect(COLON);
    if colon.Err? {
      return Err;
    }
    assert parser.Rest() == s[4..];
    var matchType := parser.ExpectName();
    if matchType.Err? {
      return Err;
    }
    assert parser.Rest() == s[5..];
    var close := parser.Expect(RPAREN);
    return if close.Ok? then Ok(Some(matchType.value)) else Err;
  }

  method ParseExpressionClause(t: TokenType, parser: Parser) returns (r: Result<Option<Expr>>)
    requires parser.Valid()
    modifies parser
    ensures parser.Valid() && Agrees(r, parser.Rest(), ParseClause(t, old(parser.Rest())))
  {
    if !parser.Is(t) {
      return Ok(None);
    }
    var _ := parser.Advance();
    var e := parser.ParseOrExpression();
    return if e.Ok? then Ok(Some(e.value)) else Err;
  }

  method ParseActionsClause(t: TokenType, parser: Parser) returns (r: Result<seq<ActionDef>>)
    requires parser.Valid()
    modifies parser
    ensures parser.Valid() && Agrees(r, parser.Rest(), ParseActionClause(t, old(parser.Rest())))
  {
    if !parser.Is(t) {
      return Ok([]);
    }
    var _ := parser.Advance();
    r := ParseActionList(parser);
  }

  /** The clauses before the actions: match type, WHERE and ASSERT. */
  method ParseConditions(parser: Parser) returns (r: Result<Conditions>)
    requires parser.Valid()
    modifies parser
    ensures parser.Valid() && Agrees(r, parser.Rest(), ParseConditionSyms(old(parser.Rest())))
  {
    var matchType := ParseMatchClause(parser);
    if matchType.Err? {
      return Err;
    }
    var whereClause := ParseExpressionClause(WHERE, parser);
    if whereClause.Err? {
      return Err;
    }
    var assertClause := ParseExpressionClause(ASSERT, parser);
    return if assertClause.Ok? then Ok(Conditions(matchType.value, whereClause.value, assertClause.value)) else Err;
  }

  method ParseClauses(parser: Parser) returns (r: Result<Rule>)
    requires parser.Valid()
    modifies parser
    ensures parser.Valid() && Agrees(r, parser.Rest(), ParseRuleSyms(old(parser.Rest())))
  {
    var conditions := ParseConditions(parser);
    if conditions.Err? {
      return Err;
    }
    var onPass := ParseActionsClause(ON_PASS, parser);
    if onPass.Err? {
      return Err;
    }
    var onFail := ParseActionsClause(ON_FAIL, parser);
    return if onFail.Ok? then Ok(Rule(conditions.value, onPass.value, onFail.value)) else Err;
  }

  /** parse_rule: fills in the clauses in order, as `ParseRule` says. */
  method ParseRuleText(text: string) returns (r: Result<Rule>)
    ensures r == ParseRule(text)
  {
    var parser := LexAndOpen(text);
    if parser.Err? {
      return Err;
    }
    r := ParseClauses(parser.value);
  }

  /** evaluate_rule_on_object, without its message. */
  method EvaluateRuleOnObject(h: Host, text: string, obj: Object) returns (passed: bool)
    ensures passed == EvaluateRule(h, text, obj)
  {
    var part := AssertPart(text);
    if part.None? {
      return false;
    }
    var parser := LexAndOpen(part.value);
    if parser.Err? {
      return false;
    }
    var ast := parser.value.ParseOrExpression();
    if ast.Err? {
      return false;
    }
    var value := Evaluate(h, obj, ast.value);
    return value.Ok? && Truthy(value.value);
  }
}
