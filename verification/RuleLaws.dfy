/**
 What holds of whole rules: every rule can be written down and is read back from
 any layout of its symbols; what is read is such a rule; and of a rule's action
 clauses, wherever they stand in its text, the ones that are kept.
 */
module RuleLaws {
  import opened Symbols
  import opened Lexing
  import opened Lexemes
  import opened Parsing
  import opened Grammar
  import opened Printing
  import opened Rendering
  import opened Values
  import opened Evaluation
  import opened TextSplit
  import opened Rules
  import opened RuleGrammar

  // ---------- Rules that can be written ----------

  predicate WfAction(a: ActionDef) {
    match a
    case AssignTagDef(key, _) => IsName(key)
    case RemoveTagDef(key) => IsName(key)
    case _ => true
  }

  predicate WfRule(r: Rule) {
    && (r.conditions.matchType.Some? ==> IsName(r.conditions.matchType.value))
    && (r.conditions.whereClause.Some? ==> WfExpr(r.conditions.whereClause.value))
    && (r.conditions.assertClause.Some? ==> WfExpr(r.conditions.assertClause.value))
    && (forall a :: a in r.onPass + r.onFail ==> WfAction(a))
  }

  // ---------- Printing ----------

  function AsClause(clause: Option<Expr>): Option<OrTree> {
    match clause case None => None case Some(e) => Some(AsOr(e))
  }

  /** MATCH (name:type); the entity's name is of no consequence. */
  function AsSubject(matchType: Option<string>, name: string): Option<Subject> {
    match matchType case None => None case Some(typ) => Some(Subject(name, typ))
  }

  function AsActions(actions: seq<ActionDef>): Option<seq<ActionDef>> {
    if actions == [] then None else Some(actions)
  }

  /** The printed form of a rule, which has no clause without actions. */
  function AsRule(r: Rule, name: string): RuleTree {
    var c := r.conditions;
    RuleTree(ConditionTree(AsSubject(c.matchType, name), AsClause(c.whereClause), AsClause(c.assertClause)),
             AsActions(r.onPass), AsActions(r.onFail))
  }

  lemma {:induction false} AsClauseMeans(clause: Option<Expr>)
    requires clause.Some? ==> WfExpr(clause.value)
    ensures ClauseExpr(AsClause(clause)) == clause && (AsClause(clause).Some? ==> WfOr(AsClause(clause).value))
  {
    if clause.Some? { AsOrMeans(clause.value); }
  }

  lemma {:induction false} AsRuleMeans(r: Rule, name: string)
    requires WfRule(r)
    ensures WfConditions(AsRule(r, name).conditions) && RuleOf(AsRule(r, name)) == r
  {
    AsClauseMeans(r.conditions.whereClause);
    AsClauseMeans(r.conditions.assertClause);
  }

  /**
   The full round trip: however a rule's symbols are spelled and laid out, with blanks and comments
   before, between and after them or with nothing where they may touch, parse_rule gives back the rule.
   */
  lemma {:induction false} RuleRoundTrip(
    r: Rule, name: string, text: string, lead: string, lexemes: seq<string>, gaps: seq<string>, end: string)
    requires WfRule(r) && LaidOut(text, YieldRule(AsRule(r, name), []), lead, lexemes, gaps, end)
    ensures ParseRule(text) == Ok(r)
  {
    LaidOutLexed(text, YieldRule(AsRule(r, name), []), lead, lexemes, gaps, end);
    AsRuleMeans(r, name);
    DerivedIsRead(AsRule(r, name), YieldRule(AsRule(r, name), []), r);
  }

  lemma {:induction false} ActionsWritable(actions: seq<ActionDef>, rest: seq<Sym>)
    requires (forall a :: a in actions ==> WfAction(a)) && AllWritable(rest)
    ensures AllWritable(YieldActions(actions, rest))
  {
    if actions != [] {
      ActionsWritable(actions[1..], rest);
      assert WfAction(actions[0]);
    }
  }

  lemma {:induction false} ClauseWritable(t: TokenType, clause: Option<Expr>, rest: seq<Sym>)
    requires (clause.Some? ==> WfExpr(clause.value)) && AllWritable(rest)
    ensures AllWritable(YieldClause(t, AsClause(clause), rest))
  {
    if clause.Some? {
      OrWritable(clause.value, rest);
      WritableCons(Fixed(t), YieldOr(AsOr(clause.value), rest));
    }
  }

  lemma {:induction false} ActionClauseWritable(t: TokenType, actions: seq<ActionDef>, rest: seq<Sym>)
    requires (forall a :: a in actions ==> WfAction(a)) && AllWritable(rest)
    ensures AllWritable(YieldActionClause(t, AsActions(actions), rest))
  {
    if actions != [] {
      ActionsWritable(actions, rest);
      WritableCons(Fixed(t), YieldActions(actions, rest));
    }
  }

  lemma {:induction false} RuleWritable(r: Rule, name: string)
    requires WfRule(r) && IsName(name)
    ensures AllWritable(YieldRule(AsRule(r, name), []))
  {
    var c := r.conditions;
    var failing := YieldActionClause(ON_FAIL, AsActions(r.onFail), []);
    var actions := YieldActionClause(ON_PASS, AsActions(r.onPass), failing);
    ActionClauseWritable(ON_FAIL, r.onFail, []);
    ActionClauseWritable(ON_PASS, r.onPass, failing);
    ClauseWritable(ASSERT, c.assertClause, actions);
    ClauseWritable(WHERE, c.whereClause, YieldClause(ASSERT, AsClause(c.assertClause), actions));
  }

  /** The canonical text of a rule. */
  function RuleText(r: Rule, name: string): string {
    Text(YieldRule(AsRule(r, name), []))
  }

  /** Every rule has a text, and its canonical text is read back. */
  lemma {:induction false} RuleTextRoundTrip(r: Rule, name: string)
    requires WfRule(r) && IsName(name)
    ensures ParseRule(RuleText(r, name)) == Ok(r)
  {
    RuleWritable(r, name);
    TextLexed(YieldRule(AsRule(r, name), []));
    AsRuleMeans(r, name);
    DerivedIsRead(AsRule(r, name), YieldRule(AsRule(r, name), []), r);
  }

  // ---------- What is read can be written ----------

  lemma {:induction false} NamedDrop(s: seq<Sym>, k: nat)
    requires Named(s) && k <= |s|
    ensures Named(s[k..])
  {
  }

  lemma {:induction false} ParsedActionWf(s: seq<Sym>)
    requires Named(s) && AtAction(s) && ParseAction(s).Done?
    ensures WfAction(ParseAction(s).value) && Named(ParseAction(s).rest)
  {
    var rest := ParseAction(s).rest;
    assert rest == s[|s| - |rest|..];
    NamedDrop(s, |s| - |rest|);
    if |s| > 1 {
      assert s[1] in s && s[1..][0] == s[1];
    }
  }

  lemma {:induction false} ParsedActionsWf(s: seq<Sym>)
    requires Named(s) && ParseActions(s).Done?
    ensures (forall a :: a in ParseActions(s).value ==> WfAction(a)) && Named(ParseActions(s).rest)
    decreases |s|
  {
    if AtAction(s) {
      ParsedActionWf(s);
      ParsedActionsWf(ParseAction(s).rest);
    }
  }

  lemma {:induction false} ParsedClauseWf(t: TokenType, s: seq<Sym>)
    requires Named(s) && ParseClause(t, s).Done?
    ensures var p := ParseClause(t, s); (p.value.Some? ==> WfExpr(p.value.value)) && Named(p.rest)
  {
    if At(s, t) {
      NamedDrop(s, 1);
      ParsedWritable(s[1..]);
    }
  }

  lemma {:induction false} ParsedMatchWf(s: seq<Sym>)
    requires Named(s) && ParseMatch(s).Done?
    ensures var p := ParseMatch(s); (p.value.Some? ==> IsName(p.value.value)) && Named(p.rest)
  {
    if At(s, MATCH) {
      assert s[4] in s;
      NamedDrop(s, 6);
    }
  }

  lemma {:induction false} ParsedActionClauseWf(t: TokenType, s: seq<Sym>)
    requires Named(s) && ParseActionClause(t, s).Done?
    ensures var p := ParseActionClause(t, s); (forall a :: a in p.value ==> WfAction(a)) && Named(p.rest)
  {
    if At(s, t) {
      NamedDrop(s, 1);
      ParsedActionsWf(s[1..]);
    }
  }

  /** Whatever parse_rule accepts is a rule that can be written. */
  lemma {:induction false} ParsedRuleWf(text: string)
    requires ParseRule(text).Ok?
    ensures WfRule(ParseRule(text).value)
  {
    LexedWritable(text);
    var s := Lex(text).value;
    assert s == s[..|s| - 1] + [Eof];
    var s1 := ParseMatch(s).rest;
    ParsedMatchWf(s);
    ParsedClauseWf(WHERE, s1);
    var s2 := ParseClause(WHERE, s1).rest;
    ParsedClauseWf(ASSERT, s2);
    var s3 := ParseClause(ASSERT, s2).rest;
    ParsedActionClauseWf(ON_PASS, s3);
    ParsedActionClauseWf(ON_FAIL, ParseActionClause(ON_PASS, s3).rest);
  }

  /** Any accepted rule text can be replaced by the canonical text of what it says. */
  lemma {:induction false} ParsePrintParse(text: string, name: string)
    requires ParseRule(text).Ok? && IsName(name)
    ensures ParseRule(RuleText(ParseRule(text).value, name)) == ParseRule(text)
  {
    ParsedRuleWf(text);
    RuleTextRoundTrip(ParseRule(text).value, name);
  }

  // ---------- What is left unread ----------

  /** A text of conditions and any action clauses: parse_rule accepts it, and keeps the actions of the clauses kept. */
  lemma {:induction false} ClausesKeptInText(
    c: ConditionTree, cs: seq<ActionClause>, text: string, lead: string, lexemes: seq<string>, gaps: seq<string>,
      end: string)
    requires WfConditions(c) && LaidOut(text, YieldConditions(c, YieldActionClauses(cs, [])), lead, lexemes, gaps, end)
    ensures ParseRule(text) == Ok(Rule(ConditionsOf(c), PassActions(cs), FailActions(cs)))
  {
    LaidOutLexed(text, YieldConditions(c, YieldActionClauses(cs, [])), lead, lexemes, gaps, end);
    EndedClauses(c, cs);
    ClausesKept(c, cs);
  }

  lemma {:induction false} ClausesAppend(cs: seq<ActionClause>, x: seq<Sym>, y: seq<Sym>)
    ensures YieldActionClauses(cs, x) + y == YieldActionClauses(cs, x + y)
  {
    if cs != [] {
      var t := if cs[0].failing then ON_FAIL else ON_PASS;
      ClausesAppend(cs[1..], x, y);
      ActionClauseAppend(t, Some(cs[0].actions), YieldActionClauses(cs[1..], x), y);
    }
  }

  lemma {:induction false} EndedClauses(c: ConditionTree, cs: seq<ActionClause>)
    ensures YieldConditions(c, YieldActionClauses(cs, [])) + [Eof] == YieldConditions(c, YieldActionClauses(cs, [Eof]))
  {
    ConditionsAppend(c, YieldActionClauses(cs, []), [Eof]);
    ClausesAppend(cs, [], [Eof]);
    assert [] + [Eof] == [Eof];
  }

  function LeafTree(sym: Sym): OrTree {
    OneAnd(OneNot(Bare(OnePrimary(Leaf(sym)))))
  }

  lemma {:induction false} LeafTreeMeans(sym: Sym, rest: seq<Sym>)
    requires IsLeaf(sym)
    ensures WfOr(LeafTree(sym)) && OrExpr(LeafTree(sym)) == Literal(LeafValue(sym))
    ensures YieldOr(LeafTree(sym), rest) == [sym] + rest
  {
    var primary := Leaf(sym);
    var comparison := OnePrimary(primary);
    var bare := Bare(comparison);
    assert WfPrimary(primary) && WfComparison(comparison) && WfNot(bare) && WfAnd(OneNot(bare));
    assert PrimaryExpr(primary) == Literal(LeafValue(sym)) && ComparisonExpr(comparison) == PrimaryExpr(primary);
    assert NotExpr(bare) == ComparisonExpr(comparison) && AndExpr(OneNot(bare)) == NotExpr(bare);
    assert YieldPrimary(primary, rest) == [sym] + rest && YieldComparison(comparison, rest) == [sym] + rest;
    assert YieldNot(bare, rest) == [sym] + rest && YieldAnd(OneNot(bare), rest) == [sym] + rest;
  }

  /** An ASSERT clause of one literal, and any action clauses. */
  lemma {:induction false} LeafRuleRead(text: string, sym: Sym, cs: seq<ActionClause>)
    requires IsLeaf(sym) && Lex(text) == Ok([Fixed(ASSERT)] + ([sym] + YieldActionClauses(cs, [Eof])))
    ensures ParseRule(text) ==
            Ok(Rule(Conditions(None, None, Some(Literal(LeafValue(sym)))), PassActions(cs), FailActions(cs)))
  {
    LeafTreeMeans(sym, YieldActionClauses(cs, [Eof]));
    ClausesKept(ConditionTree(None, None, Some(LeafTree(sym))), cs);
  }

  lemma {:induction false} OneAction(a: ActionDef, rest: seq<Sym>)
    ensures YieldActions([a], rest) == YieldAction(a, rest)
  {
    assert [a][1..] == [] && YieldActions([a][1..], rest) == rest;
  }

  /** Two action clauses, of a FAIL and a PASS. */
  function FailThenPass(failing: bool): seq<ActionClause> {
    [ActionClause(true, [FailDef(None)]), ActionClause(failing, [PassDef])]
  }

  lemma {:induction false} FailThenPassYield(failing: bool, rest: seq<Sym>)
    ensures YieldActionClauses(FailThenPass(failing), rest) ==
            [Fixed(ON_FAIL)] + ([Fixed(FAIL)]
              + ([Fixed(if failing then ON_FAIL else ON_PASS)] + ([Fixed(PASS)] + rest)))
  {
    var cs := FailThenPass(failing);
    assert cs[1..] == [cs[1]] && [cs[1]][1..] == [];
    OneAction(PassDef, rest);
    OneAction(FailDef(None), YieldActionClauses(cs[1..], rest));
    assert YieldActionClauses([cs[1]][1..], rest) == rest;
  }

  function FourWords(t: TokenType, u: TokenType, v: TokenType, w: TokenType): string {
    Spelling(t) + (" " + (Spelling(u) + (" " + (Spelling(v) + (" " + Spelling(w))))))
  }

  lemma {:induction false} FourWordsLexed(t: TokenType, u: TokenType, v: TokenType, w: TokenType)
    requires IsKeyword(t) && IsKeyword(u) && IsKeyword(v) && IsKeyword(w)
    ensures Lex(FourWords(t, u, v, w)) == Ok([Fixed(t)] + ([Fixed(u)] + ([Fixed(v)] + ([Fixed(w)] + [Eof]))))
  {
    KeywordSpelled(w);
    LastLexed(Spelling(w), Fixed(w));
    KeywordLexed(v, Spelling(w), [Fixed(w)] + [Eof]);
    KeywordLexed(u, Spelling(v) + (" " + Spelling(w)), [Fixed(v)] + ([Fixed(w)] + [Eof]));
    var rest := Spelling(u) + (" " + (Spelling(v) + (" " + Spelling(w))));
    KeywordLexed(t, rest, [Fixed(u)] + ([Fixed(v)] + ([Fixed(w)] + [Eof])));
  }

  lemma {:induction false} KeywordLexed(t: TokenType, rest: string, syms: seq<Sym>)
    requires IsKeyword(t) && Lex(rest) == Ok(syms)
    ensures Lex(Spelling(t) + (" " + rest)) == Ok([Fixed(t)] + syms)
  {
    KeywordSpelled(t);
    SpelledLexed(Spelling(t), Fixed(t), rest);
  }

  lemma {:induction false} FailThenPassRead(text: string, x: string, actions: string, failing: bool)
    requires IsName(x) && text == "ASSERT" + (" " + (x + (" " + actions)))
    requires actions == FourWords(ON_FAIL, FAIL, if failing then ON_FAIL else ON_PASS, PASS)
    ensures ParseRule(text) == Ok(Rule(Conditions(None, None, Some(Literal(StrLit(x)))), [], [FailDef(None)]))
  {
    var cs := FailThenPass(failing);
    FourWordsLexed(ON_FAIL, FAIL, if failing then ON_FAIL else ON_PASS, PASS);
    FailThenPassYield(failing, [Eof]);
    SpelledLexed(x, Ident(x), actions);
    KeywordLexed(ASSERT, x + (" " + actions), [Ident(x)] + YieldActionClauses(cs, [Eof]));
    LeafRuleRead(text, Ident(x), cs);
  }

  /** ON_PASS after ON_FAIL, an order the documentation shows: its actions are lost. */
  lemma {:induction false} OnPassAfterOnFailIsLost(text: string)
    requires text == "ASSERT x ON_FAIL FAIL ON_PASS PASS"
    ensures ParseRule(text) == Ok(Rule(Conditions(None, None, Some(Literal(StrLit("x")))), [], [FailDef(None)]))
  {
    var x, actions := OnPassTextParts(text);
    XIsName(x);
    FailThenPassRead(text, x, actions, false);
  }

  /** A second ON_FAIL, as in most of the documentation's examples: its actions are lost too. */
  lemma {:induction false} SecondOnFailIsLost(text: string)
    requires text == "ASSERT x ON_FAIL FAIL ON_FAIL PASS"
    ensures ParseRule(text) == Ok(Rule(Conditions(None, None, Some(Literal(StrLit("x")))), [], [FailDef(None)]))
  {
    var x, actions := OnFailTextParts(text);
    XIsName(x);
    FailThenPassRead(text, x, actions, true);
  }

  lemma {:induction false} OnPassTextParts(text: string) returns (x: string, actions: string)
    requires text == "ASSERT x ON_FAIL FAIL ON_PASS PASS"
    ensures x == "x" && text == "ASSERT" + (" " + (x + (" " + actions)))
    ensures actions == FourWords(ON_FAIL, FAIL, ON_PASS, PASS)
  {
    x, actions := "x", FourWords(ON_FAIL, FAIL, ON_PASS, PASS);
    OnPassText(actions);
    AssertText(text, x, actions);
  }

  lemma {:induction false} OnPassText(actions: string)
    requires actions == FourWords(ON_FAIL, FAIL, ON_PASS, PASS)
    ensures actions == "ON_FAIL FAIL ON_PASS PASS"
  {
    var third := "ON_PASS" + (" " + "PASS");
    assert third == "ON_PASS PASS";
    var second := "FAIL" + (" " + third);
    assert second == "FAIL ON_PASS PASS";
    assert actions == "ON_FAIL" + (" " + second);
  }

  lemma {:induction false} OnFailTextParts(text: string) returns (x: string, actions: string)
    requires text == "ASSERT x ON_FAIL FAIL ON_FAIL PASS"
    ensures x == "x" && text == "ASSERT" + (" " + (x + (" " + actions)))
    ensures actions == FourWords(ON_FAIL, FAIL, ON_FAIL, PASS)
  {
    x, actions := "x", FourWords(ON_FAIL, FAIL, ON_FAIL, PASS);
    OnFailText(actions);
    AssertText(text, x, actions);
  }

  lemma {:induction false} OnFailText(actions: string)
    requires actions == FourWords(ON_FAIL, FAIL, ON_FAIL, PASS)
    ensures actions == "ON_FAIL FAIL ON_FAIL PASS"
  {
    var third := "ON_FAIL" + (" " + "PASS");
    assert third == "ON_FAIL PASS";
    var second := "FAIL" + (" " + third);
    assert second == "FAIL ON_FAIL PASS";
    assert actions == "ON_FAIL" + (" " + second);
  }

  lemma {:induction false} AssertText(text: string, x: string, actions: string)
    requires text == "ASSERT x " + actions && x == "x"
    ensures text == "ASSERT" + (" " + (x + (" " + actions)))
  {
  }

  lemma {:induction false} XIsName(x: string)
    requires x == "x"
    ensures IsName(x)
  {
    assert Upper(x) == "X";
    var k := KeywordOf("X");
    if k.Some? { SpellingShape(k.value); }
  }
}
