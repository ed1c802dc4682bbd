/**
 The grammar of whole rules, by derivation trees: the parser of rules finds a tree
 of exactly the symbols it consumes, and finds every tree. What it leaves unread of
 a list of action clauses follows from that.
 */
module RuleGrammar {
  import opened Symbols
  import opened Parsing
  import opened Grammar
  import opened Rules

  /** MATCH (name:typ) */
  datatype Subject = Subject(name: string, typ: string)

  datatype ConditionTree = ConditionTree(subject: Option<Subject>, where_: Option<OrTree>, assert_: Option<OrTree>)

  /** A clause that is there may still have no actions. */
  datatype RuleTree =
    RuleTree(conditions: ConditionTree, onPass: Option<seq<ActionDef>>, onFail: Option<seq<ActionDef>>)

  ghost predicate WfConditions(c: ConditionTree) {
    (c.where_.Some? ==> WfOr(c.where_.value)) && (c.assert_.Some? ==> WfOr(c.assert_.value))
  }

  // ---------- Yields: the symbols of a part, then rest ----------

  function YieldAction(a: ActionDef, rest: seq<Sym>): seq<Sym> {
    match a
    case PassDef => [Fixed(PASS)] + rest
    case FailDef(None) => [Fixed(FAIL)] + rest
    case FailDef(Some(m)) => [Fixed(FAIL)] + ([Str(m)] + rest)
    case AssignTagDef(k, v) => [Fixed(ASSIGN_TAG)] + ([Ident(k)] + ([Fixed(COLON)] + ([Str(v)] + rest)))
    case RemoveTagDef(k) => [Fixed(REMOVE_TAG)] + ([Ident(k)] + rest)
    case NotifyDef(to) => [Fixed(NOTIFY)] + ([Str(to)] + rest)
  }

  function YieldActions(actions: seq<ActionDef>, rest: seq<Sym>): seq<Sym> {
    if actions == [] then rest else YieldAction(actions[0], YieldActions(actions[1..], rest))
  }

  function YieldActionClause(t: TokenType, actions: Option<seq<ActionDef>>, rest: seq<Sym>): seq<Sym> {
    match actions case None => rest case Some(list) => [Fixed(t)] + YieldActions(list, rest)
  }

  function YieldClause(t: TokenType, clause: Option<OrTree>, rest: seq<Sym>): seq<Sym> {
    match clause case None => rest case Some(e) => [Fixed(t)] + YieldOr(e, rest)
  }

  function YieldSubject(subject: Option<Subject>, rest: seq<Sym>): seq<Sym> {
    match subject
    case None => rest
    case Some(s) =>
      [Fixed(MATCH)] + ([Fixed(LPAREN)]
        + ([Ident(s.name)] + ([Fixed(COLON)] + ([Ident(s.typ)] + ([Fixed(RPAREN)] + rest)))))
  }

  function YieldConditions(c: ConditionTree, rest: seq<Sym>): seq<Sym> {
    YieldSubject(c.subject, YieldClause(WHERE, c.where_, YieldClause(ASSERT, c.assert_, rest)))
  }

  function YieldRule(t: RuleTree, rest: seq<Sym>): seq<Sym> {
    YieldConditions(t.conditions, YieldActionClause(ON_PASS, t.onPass, YieldActionClause(ON_FAIL, t.onFail, rest)))
  }

  // ---------- Meanings ----------

  function ClauseExpr(clause: Option<OrTree>): Option<Expr> {
    match clause case None => None case Some(t) => Some(OrExpr(t))
  }

  function TypeOf(subject: Option<Subject>): Option<string> {
    match subject case None => None case Some(s) => Some(s.typ)
  }

  function ListOf(actions: Option<seq<ActionDef>>): seq<ActionDef> {
    match actions case None => [] case Some(list) => list
  }

  function ConditionsOf(c: ConditionTree): Conditions {
    Conditions(TypeOf(c.subject), ClauseExpr(c.where_), ClauseExpr(c.assert_))
  }

  function RuleOf(t: RuleTree): Rule {
    Rule(ConditionsOf(t.conditions), ListOf(t.onPass), ListOf(t.onFail))
  }

  // ---------- Every tree is found ----------

  /** What may follow an action list or an expression without being taken for part of it. */
  predicate Inert(s: seq<Sym>) {
    !ContinuesOr(s) && !AtAction(s) && !Head(s).Str?
  }

  /** The place of the clause a symbol list starts with; 5 if it starts with none. */
  function Place(s: seq<Sym>): nat {
    if At(s, MATCH) then 0 else if At(s, WHERE) then 1 else if At(s, ASSERT) then 2
    else if At(s, ON_PASS) then 3 else if At(s, ON_FAIL) then 4 else 5
  }

  /** The place of the first clause that may still follow a tree. */
  function Reached(t: RuleTree): nat {
    if t.onFail.Some? then 5 else if t.onPass.Some? then 4 else if t.conditions.assert_.Some? then 3
    else if t.conditions.where_.Some? then 2 else if t.conditions.subject.Some? then 1 else 0
  }

  lemma {:induction false} ActionComplete(a: ActionDef, rest: seq<Sym>)
    requires !Head(rest).Str?
    ensures AtAction(YieldAction(a, rest)) && ParseAction(YieldAction(a, rest)) == Done(a, rest)
  {
    var s := YieldAction(a, rest);
    match a
    case AssignTagDef(k, v) =>
      assert s[1..] == [Ident(k)] + ([Fixed(COLON)] + ([Str(v)] + rest));
      assert s[1..][1..] == [Fixed(COLON)] + ([Str(v)] + rest);
      assert s[1..][2..] == [Str(v)] + rest;
      assert s[1..][3..] == rest;
    case FailDef(Some(m)) =>
      assert s[1..] == [Str(m)] + rest;
      assert s[1..][1..] == rest;
    case RemoveTagDef(k) =>
      assert s[1..] == [Ident(k)] + rest;
      assert s[1..][1..] == rest;
    case NotifyDef(to) =>
      assert s[1..] == [Str(to)] + rest;
      assert s[1..][1..] == rest;
    case _ =>
      assert s[1..] == rest;
  }

  lemma {:induction false} ActionsComplete(actions: seq<ActionDef>, rest: seq<Sym>)
    requires Inert(rest)
    ensures ParseActions(YieldActions(actions, rest)) == Done(actions, rest)
    ensures !Head(YieldActions(actions, rest)).Str?
  {
    if actions != [] {
      ActionsComplete(actions[1..], rest);
      ActionComplete(actions[0], YieldActions(actions[1..], rest));
      assert actions == [actions[0]] + actions[1..];
    }
  }

  lemma {:induction false} ActionClauseComplete(t: TokenType, actions: Option<seq<ActionDef>>, rest: seq<Sym>)
    requires Inert(rest) && (t.ON_PASS? || t.ON_FAIL?) && (actions.None? ==> !At(rest, t))
    ensures ParseActionClause(t, YieldActionClause(t, actions, rest)) == Done(ListOf(actions), rest)
    ensures Inert(YieldActionClause(t, actions, rest))
  {
    if actions.Some? {
      ActionsComplete(actions.value, rest);
      assert YieldActionClause(t, actions, rest)[1..] == YieldActions(actions.value, rest);
    }
  }

  lemma {:induction false} ClauseComplete(t: TokenType, clause: Option<OrTree>, rest: seq<Sym>)
    requires (clause.Some? ==> WfOr(clause.value)) && (t.WHERE? || t.ASSERT?)
    requires !ContinuesOr(rest) && (clause.None? ==> !At(rest, t))
    ensures ParseClause(t, YieldClause(t, clause, rest)) == Done(ClauseExpr(clause), rest)
    ensures !ContinuesOr(YieldClause(t, clause, rest))
  {
    if clause.Some? {
      OrComplete(clause.value, rest);
      assert YieldClause(t, clause, rest)[1..] == YieldOr(clause.value, rest);
    }
  }

  lemma {:induction false} SubjectComplete(subject: Option<Subject>, rest: seq<Sym>)
    requires subject.None? ==> !At(rest, MATCH)
    ensures ParseMatch(YieldSubject(subject, rest)) == Done(TypeOf(subject), rest)
  {
    match subject
    case None =>
    case Some(o) =>
      var s := YieldSubject(subject, rest);
      var inside := [Ident(o.name)] + ([Fixed(COLON)] + ([Ident(o.typ)] + ([Fixed(RPAREN)] + rest)));
      assert s[1..] == [Fixed(LPAREN)] + inside;
      assert s[2..] == inside;
      assert s[3..] == [Fixed(COLON)] + ([Ident(o.typ)] + ([Fixed(RPAREN)] + rest));
      assert s[4..] == [Ident(o.typ)] + ([Fixed(RPAREN)] + rest);
      assert s[5..] == [Fixed(RPAREN)] + rest;
      assert s[6..] == rest;
  }

  lemma {:induction false} ConditionsComplete(c: ConditionTree, rest: seq<Sym>)
    requires WfConditions(c) && !ContinuesOr(rest)
    requires c.assert_.None? ==> !At(rest, ASSERT)
    requires c.assert_.None? && c.where_.None? ==> !At(rest, WHERE)
    requires c.assert_.None? && c.where_.None? && c.subject.None? ==> !At(rest, MATCH)
    ensures ParseConditionSyms(YieldConditions(c, rest)) == Done(ConditionsOf(c), rest)
  {
    var asserted := YieldClause(ASSERT, c.assert_, rest);
    ClauseComplete(ASSERT, c.assert_, rest);
    ClauseComplete(WHERE, c.where_, asserted);
    SubjectComplete(c.subject, YieldClause(WHERE, c.where_, asserted));
  }

  /** A rule's symbols are read as the rule, up to what follows, if no further clause can begin there. */
  lemma {:induction false} RuleComplete(t: RuleTree, rest: seq<Sym>)
    requires WfConditions(t.conditions) && Inert(rest) && (Place(rest) == 5 || Place(rest) < Reached(t))
    ensures ParseRuleSyms(YieldRule(t, rest)) == Done(RuleOf(t), rest)
  {
    var failing := YieldActionClause(ON_FAIL, t.onFail, rest);
    var actions := YieldActionClause(ON_PASS, t.onPass, failing);
    ActionClauseComplete(ON_FAIL, t.onFail, rest);
    ActionClauseComplete(ON_PASS, t.onPass, failing);
    ConditionsComplete(t.conditions, actions);
  }

  // ---------- What is read has a tree ----------

  lemma {:induction false} ActionSound(s: seq<Sym>)
    requires AtAction(s) && ParseAction(s).Done?
    ensures YieldAction(ParseAction(s).value, ParseAction(s).rest) == s
  {
    Uncons(s);
    Uncons(s[1..]);
    if |s| > 2 { assert s[1..][1..] == s[2..]; }
    if |s| > 4 { assert s == [s[0]] + ([s[1]] + ([s[2]] + ([s[3]] + s[4..]))); }
    if |s| == 4 { assert s == [s[0]] + ([s[1]] + ([s[2]] + ([s[3]] + []))); }
  }

  lemma {:induction false} ActionsSound(s: seq<Sym>)
    requires ParseActions(s).Done?
    ensures YieldActions(ParseActions(s).value, ParseActions(s).rest) == s
    decreases |s|
  {
    if AtAction(s) {
      ActionSound(s);
      ActionsSound(ParseAction(s).rest);
      var more := ParseActions(ParseAction(s).rest).value;
      assert ([ParseAction(s).value] + more)[1..] == more;
    }
  }

  lemma {:induction false} ActionClauseSound(t: TokenType, s: seq<Sym>) returns (actions: Option<seq<ActionDef>>)
    requires ParseActionClause(t, s).Done?
    ensures ListOf(actions) == ParseActionClause(t, s).value
    ensures YieldActionClause(t, actions, ParseActionClause(t, s).rest) == s
  {
    if At(s, t) {
      ActionsSound(s[1..]);
      actions := Some(ParseActions(s[1..]).value);
      Uncons(s);
    } else {
      actions := None;
    }
  }

  lemma {:induction false} ClauseSound(t: TokenType, s: seq<Sym>) returns (clause: Option<OrTree>)
    requires ParseClause(t, s).Done?
    ensures (clause.Some? ==> WfOr(clause.value)) && ClauseExpr(clause) == ParseClause(t, s).value
    ensures YieldClause(t, clause, ParseClause(t, s).rest) == s
  {
    if At(s, t) {
      var e := OrSound(s[1..]);
      clause := Some(e);
      Uncons(s);
    } else {
      clause := None;
    }
  }

  lemma {:induction false} SubjectSound(s: seq<Sym>) returns (subject: Option<Subject>)
    requires ParseMatch(s).Done?
    ensures TypeOf(subject) == ParseMatch(s).value && YieldSubject(subject, ParseMatch(s).rest) == s
  {
    if At(s, MATCH) {
      subject := Some(Subject(s[2].name, s[4].name));
      SixthPart(s);
    } else {
      subject := None;
    }
  }

  lemma {:induction false} SixthPart(s: seq<Sym>)
    requires |s| >= 6
    ensures s == [s[0]] + ([s[1]] + ([s[2]] + ([s[3]] + ([s[4]] + ([s[5]] + s[6..])))))
  {
  }

  /** Whatever is read as a rule is the yield of a tree that means it, followed by what is left. */
  lemma {:induction false} RuleSound(s: seq<Sym>) returns (t: RuleTree)
    requires ParseRuleSyms(s).Done?
    ensures WfConditions(t.conditions) && RuleOf(t) == ParseRuleSyms(s).value
    ensures YieldRule(t, ParseRuleSyms(s).rest) == s
  {
    var subject := SubjectSound(s);
    var s1 := ParseMatch(s).rest;
    var where_ := ClauseSound(WHERE, s1);
    var s2 := ParseClause(WHERE, s1).rest;
    var assert_ := ClauseSound(ASSERT, s2);
    var s3 := ParseClause(ASSERT, s2).rest;
    var onPass := ActionClauseSound(ON_PASS, s3);
    var onFail := ActionClauseSound(ON_FAIL, ParseActionClause(ON_PASS, s3).rest);
    t := RuleTree(ConditionTree(subject, where_, assert_), onPass, onFail);
  }

  // ---------- Yields and what follows them ----------

  lemma {:induction false} ActionAppend(a: ActionDef, x: seq<Sym>, y: seq<Sym>)
    ensures YieldAction(a, x) + y == YieldAction(a, x + y)
  {
  }

  lemma {:induction false} ActionsAppend(actions: seq<ActionDef>, x: seq<Sym>, y: seq<Sym>)
    ensures YieldActions(actions, x) + y == YieldActions(actions, x + y)
  {
    if actions != [] {
      ActionsAppend(actions[1..], x, y);
      ActionAppend(actions[0], YieldActions(actions[1..], x), y);
    }
  }

  lemma {:induction false} ActionClauseAppend(t: TokenType, actions: Option<seq<ActionDef>>, x: seq<Sym>, y: seq<Sym>)
    ensures YieldActionClause(t, actions, x) + y == YieldActionClause(t, actions, x + y)
  {
    if actions.Some? {
      ActionsAppend(actions.value, x, y);
      Regroup(Fixed(t), YieldActions(actions.value, x), y);
    }
  }

  lemma {:induction false} ClauseAppend(t: TokenType, clause: Option<OrTree>, x: seq<Sym>, y: seq<Sym>)
    ensures YieldClause(t, clause, x) + y == YieldClause(t, clause, x + y)
  {
    if clause.Some? {
      OrAppend(clause.value, x, y);
      Regroup(Fixed(t), YieldOr(clause.value, x), y);
    }
  }

  lemma {:induction false} SubjectAppend(subject: Option<Subject>, x: seq<Sym>, y: seq<Sym>)
    ensures YieldSubject(subject, x) + y == YieldSubject(subject, x + y)
  {
  }

  lemma {:induction false} ConditionsAppend(c: ConditionTree, x: seq<Sym>, y: seq<Sym>)
    ensures YieldConditions(c, x) + y == YieldConditions(c, x + y)
  {
    var asserted := YieldClause(ASSERT, c.assert_, x);
    ClauseAppend(ASSERT, c.assert_, x, y);
    ClauseAppend(WHERE, c.where_, asserted, y);
    SubjectAppend(c.subject, YieldClause(WHERE, c.where_, asserted), y);
  }

  lemma {:induction false} RuleAppend(t: RuleTree, x: seq<Sym>, y: seq<Sym>)
    ensures YieldRule(t, x) + y == YieldRule(t, x + y)
  {
    var failing := YieldActionClause(ON_FAIL, t.onFail, x);
    ActionClauseAppend(ON_FAIL, t.onFail, x, y);
    ActionClauseAppend(ON_PASS, t.onPass, failing, y);
    ConditionsAppend(t.conditions, YieldActionClause(ON_PASS, t.onPass, failing), y);
  }

  lemma {:induction false} EndedRule(t: RuleTree, s: seq<Sym>)
    requires YieldRule(t, []) == s
    ensures YieldRule(t, [Eof]) == s + [Eof]
  {
    RuleAppend(t, [], [Eof]);
    assert [] + [Eof] == [Eof];
  }

  ghost predicate Derives(t: RuleTree, s: seq<Sym>, r: Rule) {
    WfConditions(t.conditions) && YieldRule(t, []) == s && RuleOf(t) == r
  }

  lemma {:induction false} ReadIsDerived(s: seq<Sym>, r: Rule) returns (t: RuleTree)
    requires ParseRuleSyms(s + [Eof]) == Done(r, [Eof])
    ensures Derives(t, s, r)
  {
    t := RuleSound(s + [Eof]);
    EndedRule(t, YieldRule(t, []));
    SameInit(YieldRule(t, []), s, Eof);
  }

  lemma {:induction false} DerivedIsRead(t: RuleTree, s: seq<Sym>, r: Rule)
    requires Derives(t, s, r)
    ensures ParseRuleSyms(s + [Eof]) == Done(r, [Eof])
  {
    EndedRule(t, s);
    RuleComplete(t, [Eof]);
  }

  /** The parser of rules reads a symbol list to its end as a rule if and only if the grammar derives it so. */
  lemma {:induction false} RuleParserDecidesGrammar(s: seq<Sym>, r: Rule)
    ensures ParseRuleSyms(s + [Eof]) == Done(r, [Eof]) <==> exists t :: Derives(t, s, r)
  {
    if ParseRuleSyms(s + [Eof]) == Done(r, [Eof]) {
      var t := ReadIsDerived(s, r);
    }
    if t :| Derives(t, s, r) {
      DerivedIsRead(t, s, r);
    }
  }

  // ---------- Lists of action clauses ----------

  /** An ON_PASS or ON_FAIL clause. */
  datatype ActionClause = ActionClause(failing: bool, actions: seq<ActionDef>)

  function YieldActionClauses(cs: seq<ActionClause>, rest: seq<Sym>): seq<Sym> {
    if cs == [] then rest
    else
      var t := if cs[0].failing then ON_FAIL else ON_PASS;
      YieldActionClause(t, Some(cs[0].actions), YieldActionClauses(cs[1..], rest))
  }

  /** How many of the clauses are read: one, or an ON_PASS and the ON_FAIL after it. */
  function Kept(cs: seq<ActionClause>): (n: nat)
    ensures n <= |cs|
  {
    if cs == [] then 0 else if !cs[0].failing && |cs| > 1 && cs[1].failing then 2 else 1
  }

  predicate AllKept(cs: seq<ActionClause>) {
    |cs| <= 1 || (|cs| == 2 && !cs[0].failing && cs[1].failing)
  }

  function PassActions(cs: seq<ActionClause>): seq<ActionDef> {
    if cs == [] || cs[0].failing then [] else cs[0].actions
  }

  function FailActions(cs: seq<ActionClause>): seq<ActionDef> {
    if cs == [] then []
    else if cs[0].failing then cs[0].actions
    else if |cs| > 1 && cs[1].failing then cs[1].actions
    else []
  }

  function TreeOf(c: ConditionTree, cs: seq<ActionClause>): RuleTree {
    var passes := cs != [] && !cs[0].failing;
    var fails := cs != [] && (cs[0].failing || (|cs| > 1 && cs[1].failing));
    RuleTree(c, if passes then Some(PassActions(cs)) else None, if fails then Some(FailActions(cs)) else None)
  }

  lemma {:induction false} KeptYield(c: ConditionTree, cs: seq<ActionClause>, rest: seq<Sym>)
    ensures YieldConditions(c, YieldActionClauses(cs, rest)) ==
            YieldRule(TreeOf(c, cs), YieldActionClauses(cs[Kept(cs)..], rest))
  {
    if Kept(cs) == 2 { assert cs[1..][1..] == cs[2..]; }
  }

  lemma {:induction false} KeptStops(c: ConditionTree, cs: seq<ActionClause>)
    ensures var left := YieldActionClauses(cs[Kept(cs)..], [Eof]);
            Inert(left) && (Place(left) == 5 || Place(left) < Reached(TreeOf(c, cs)))
  {
  }

  /**
   After any conditions and any list of action clauses parse_rule succeeds, with the actions of the first
   clause, or of an ON_PASS and the ON_FAIL after it. The others are left unread: all are read exactly
   when there is none, one, or an ON_PASS followed by an ON_FAIL.
   */
  lemma {:induction false} ClausesKept(c: ConditionTree, cs: seq<ActionClause>)
    requires WfConditions(c)
    ensures ParseRuleSyms(YieldConditions(c, YieldActionClauses(cs, [Eof]))) ==
            Done(Rule(ConditionsOf(c), PassActions(cs), FailActions(cs)), YieldActionClauses(cs[Kept(cs)..], [Eof]))
    ensures YieldActionClauses(cs[Kept(cs)..], [Eof]) == [Eof] <==> AllKept(cs)
  {
    KeptYield(c, cs, [Eof]);
    KeptStops(c, cs);
    RuleComplete(TreeOf(c, cs), YieldActionClauses(cs[Kept(cs)..], [Eof]));
  }
}
