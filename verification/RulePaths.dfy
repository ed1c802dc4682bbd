/**
 The two ways of evaluating a rule: parsing it and evaluating its ASSERT clause, and
 cutting its text at the first ASSERT and evaluating what follows. Where that is the
 clause's own ASSERT they agree; elsewhere they may differ either way.
 */
module RulePaths {
  import opened Symbols
  import opened Lexing
  import opened Lexemes
  import opened Parsing
  import opened Grammar
  import opened Printing
  import opened Rendering
  import opened Values
  import opened Evaluation
  import opened TextSplit
  import opened Rules
  import opened RuleGrammar
  import opened RuleLaws

  // ---------- Where they agree ----------

  lemma {:induction false} ConditionsHoldAssert(s: seq<Sym>)
    requires ParseConditionSyms(s).Done? && ParseConditionSyms(s).value.assertClause.Some?
    ensures ParseOr(AfterAssert(s)).Done?
            && ParseOr(AfterAssert(s)).value == ParseConditionSyms(s).value.assertClause.value
  {
    var s1 := ParseMatch(s).rest;
    if At(s, MATCH) {
      assert s[1..][1..] == s[2..] && s[2..][1..] == s[3..] && s[3..][1..] == s[4..] && s[4..][1..] == s[5..]
        && s[5..][1..] == s[6..];
      assert AfterAssert(s) == AfterAssert(s[1..]) == AfterAssert(s[2..]) == AfterAssert(s[3..]);
      assert AfterAssert(s[3..]) == AfterAssert(s[4..]) == AfterAssert(s[5..]) == AfterAssert(s[6..]);
    }
    assert AfterAssert(s) == AfterAssert(s1);
    var s2 := ParseClause(WHERE, s1).rest;
    if At(s1, WHERE) {
      var t := OrSound(s1[1..]);
    }
    assert AfterAssert(s1) == AfterAssert(s2);
  }

  lemma {:induction false} ClauseHasAssert(s: string)
    requires Lex(s).Ok? && AfterAssert(Lex(s).value) != []
    ensures AssertOffset(s).Some?
    decreases |s|
  {
    if s != [] && !(Next(s).Lexeme? && Next(s).sym == Fixed(ASSERT)) {
      AfterPiece(s);
      LexStep(s);
      ClauseHasAssert(s[Next(s).len..]);
    }
  }

  /** The parsed clause decides as the text does. */
  ghost predicate Agree(h: Host, text: string, obj: Object, clause: Expr) {
    EvaluateRule(h, text, obj) <==> Truth(h, obj, clause) == Ok(true)
  }

  /**
   parse_rule and evaluate_rule_on_object agree: if the first ASSERT in a rule's text is its first ASSERT
   symbol, the rule passes on an object exactly when its parsed ASSERT clause is true there, without error.
   */
  lemma {:induction false} EvaluationPathsAgree(h: Host, text: string, obj: Object)
    requires ParseRule(text).Ok? && ParseRule(text).value.conditions.assertClause.Some?
    requires FirstIndex("ASSERT", text) == AssertOffset(text)
    ensures Agree(h, text, obj, ParseRule(text).value.conditions.assertClause.value)
  {
    AssertIsThere(text);
    var i := AssertOffset(text).value;
    SymbolsAfterAssert(text);
    StripKeepsSymbols(text[i + 6..]);
    ConditionsHoldAssert(Lex(text).value);
  }

  lemma {:induction false} AssertIsThere(text: string)
    requires ParseRule(text).Ok? && ParseRule(text).value.conditions.assertClause.Some?
    ensures AssertOffset(text).Some?
  {
    ConditionsHoldAssert(Lex(text).value);
    ClauseHasAssert(text);
  }

  /**
   The three cases of a rule with an ASSERT clause. Where no ASSERT stands in the text, because the keyword
   is not in upper case, the rule fails on every object, so that the two ways agree everywhere exactly when
   the clause is never true. Where the first ASSERT in the text is the keyword, they agree. Elsewhere the
   rule is decided by what is read after that other ASSERT, whatever the clause says.
   */
  lemma {:induction false} EvaluationPathsCompared(text: string, clause: Expr)
    requires ParseRule(text).Ok? && ParseRule(text).value.conditions.assertClause == Some(clause)
    ensures AssertOffset(text).Some?
    ensures FirstIndex("ASSERT", text).None? ==> forall h, obj :: !EvaluateRule(h, text, obj)
    ensures FirstIndex("ASSERT", text).None? ==>
              ((forall h, obj :: Agree(h, text, obj, clause)) <==> forall h, obj :: Truth(h, obj, clause) != Ok(true))
    ensures FirstIndex("ASSERT", text) == AssertOffset(text) ==> forall h, obj :: Agree(h, text, obj, clause)
    ensures FirstIndex("ASSERT", text).Some? && FirstIndex("ASSERT", text) != AssertOffset(text) ==>
              ((forall h, obj :: Agree(h, text, obj, clause)) <==> SameTruth(AssertedExpr(text), clause))
  {
    AssertIsThere(text);
    forall h, obj ensures FirstIndex("ASSERT", text) == AssertOffset(text) ==> Agree(h, text, obj, clause) {
      if FirstIndex("ASSERT", text) == AssertOffset(text) { EvaluationPathsAgree(h, text, obj); }
    }
    OtherAssertDecides(text, clause);
  }

  /** Two expressions, of which one may be missing, are true on the same objects. */
  ghost predicate SameTruth(read: Result<Expr>, clause: Expr) {
    forall h, obj :: (read.Ok? && Truth(h, obj, read.value) == Ok(true)) <==> Truth(h, obj, clause) == Ok(true)
  }

  lemma {:induction false} OtherAssertDecides(text: string, clause: Expr)
    ensures (forall h, obj :: Agree(h, text, obj, clause)) <==> SameTruth(AssertedExpr(text), clause)
  {
    if forall h, obj :: Agree(h, text, obj, clause) {
      forall h, obj
        ensures (AssertedExpr(text).Ok? && Truth(h, obj, AssertedExpr(text).value) == Ok(true))
                <==> Truth(h, obj, clause) == Ok(true)
      {
        assert Agree(h, text, obj, clause);
      }
    }
  }

  // ---------- Witnesses ----------

  lemma {:induction false} FirstLater(needle: string, head: string, hay: string)
    requires needle != [] && needle[0] !in head && needle <= hay
    ensures FirstIndex(needle, head + hay) == Some(|head|)
  {
    if head == [] {
      assert head + hay == hay;
    } else {
      assert (head + hay)[1..] == head[1..] + hay;
      FirstLater(needle, head[1..], hay);
    }
  }

  /** Nothing in head can be the second character of needle, nor its last character the first. */
  lemma {:induction false} FirstAfter(needle: string, head: string, hay: string)
    requires |needle| > 1 && needle[1] !in head && needle <= hay
    requires head != [] ==> head[|head| - 1] != needle[0]
    ensures FirstIndex(needle, head + hay) == Some(|head|)
  {
    if head == [] {
      assert head + hay == hay;
    } else {
      var s := head + hay;
      assert s[0] == head[0] && (|head| > 1 ==> s[1] == head[1] && head[1] in head);
      assert s[1..] == head[1..] + hay;
      FirstAfter(needle, head[1..], hay);
    }
  }

  lemma {:induction false} NotFirst(needle: string, hay: string)
    requires needle != [] && needle[0] !in hay
    ensures FirstIndex(needle, hay) == None
  {
  }

  /** A clause that is true everywhere, in lower case: the rule fails. */
  lemma {:induction false} LowerCaseFails(h: Host, obj: Object, text: string)
    requires text == "assert 1"
    ensures ParseRule(text) == Ok(Rule(Conditions(None, None, Some(Literal(IntLit(1)))), [], []))
    ensures Truth(h, obj, Literal(IntLit(1))) == Ok(true) && !EvaluateRule(h, text, obj)
  {
    OneLexed("1");
    LowerCaseLexed(text, "1");
    LeafRuleRead(text, Whole(1), []);
    LowerCaseUnread(h, obj, text);
  }

  lemma {:induction false} LowerCaseUnread(h: Host, obj: Object, text: string)
    requires 'A' !in text
    ensures !EvaluateRule(h, text, obj)
  {
    NotFirst("ASSERT", text);
  }

  lemma {:induction false} OneLexed(one: string)
    requires one == "1"
    ensures Lex(one) == Ok([Whole(1)] + [Eof])
  {
    DigitSpelled(one, 1);
    LastLexed(one, Whole(1));
  }

  lemma {:induction false} DigitSpelled(l: string, n: nat)
    requires |l| == 1 && IsDigit(l[0]) && DigitValue(l[0]) == n
    ensures Spells(l, Whole(n))
  {
    assert NumberValue(l[..0]) == 0;
  }

  lemma {:induction false} LowerCaseLexed(text: string, rest: string)
    requires text == "assert " + rest && Lex(rest).Ok?
    ensures Lex(text) == Ok([Fixed(ASSERT)] + Lex(rest).value)
  {
    assert Upper("assert") == "ASSERT";
    SpelledLexed("assert", Fixed(ASSERT), rest);
    assert text == "assert" + (" " + rest);
  }

  /**
   A clause that is false everywhere, in lower case, and a message that holds the word in upper case: the
   rule passes, because the text is cut inside the message.
   */
  lemma {:induction false} LowerCasePasses(h: Host, obj: Object, text: string)
    requires text == "assert 0 ON_FAIL FAIL ' ASSERT 1 # '"
    ensures ParseRule(text).Ok? && ParseRule(text).value.conditions.assertClause == Some(Literal(IntLit(0)))
    ensures Truth(h, obj, Literal(IntLit(0))) == Ok(false) && EvaluateRule(h, text, obj)
  {
    var zero, message, part := "0", " ASSERT 1 # ", " 1 # '";
    var literal := "'" + message + "'";
    var failing := "ON_FAIL" + (" " + ("FAIL" + (" " + literal)));
    MessageTexts(text, zero, failing, literal, part);
    DigitSpelled(zero, 0);
    MessageLexed(literal, message);
    MessageRead(text, zero, failing, message);
    MessagePasses(h, obj, text, part);
  }

  lemma {:induction false} MessageTexts(text: string, zero: string, failing: string, literal: string, part: string)
    requires text == "assert 0 ON_FAIL FAIL ' ASSERT 1 # '" && zero == "0" && part == " 1 # '"
    requires literal == "'" + " ASSERT 1 # " + "'" && failing == "ON_FAIL" + (" " + ("FAIL" + (" " + literal)))
    ensures text == "assert " + (zero + (" " + failing)) && text == "assert 0 ON_FAIL FAIL ' ASSERT" + part
  {
    assert failing == "ON_FAIL FAIL ' ASSERT 1 # '";
  }

  lemma {:induction false} MessagePasses(h: Host, obj: Object, text: string, part: string)
    requires text == "assert 0 ON_FAIL FAIL ' ASSERT" + part && part == " 1 # '"
    ensures EvaluateRule(h, text, obj)
  {
    MessageCut(text, part);
    OneRead(part, " ", "1", "# '");
    OnePasses(h, obj, text, part);
  }

  lemma {:induction false} OnePasses(h: Host, obj: Object, text: string, part: string)
    requires AssertPart(text) == Some(Strip(part)) && Lex(part) == Ok([Whole(1)] + [Eof])
    ensures EvaluateRule(h, text, obj)
  {
    StripKeepsSymbols(part);
    LeafTreeMeans(Whole(1), [Eof]);
    OrComplete(LeafTree(Whole(1)), [Eof]);
  }

  function MessageClause(message: string): seq<ActionClause> {
    [ActionClause(true, [FailDef(Some(message))])]
  }

  lemma {:induction false} MessageRead(text: string, zero: string, failing: string, message: string)
    requires Spells(zero, Whole(0)) && text == "assert " + (zero + (" " + failing))
    requires Lex(failing) == Ok([Fixed(ON_FAIL)] + ([Fixed(FAIL)] + ([Str(message)] + [Eof])))
    ensures ParseRule(text).Ok? && ParseRule(text).value.conditions.assertClause == Some(Literal(IntLit(0)))
  {
    SpelledLexed(zero, Whole(0), failing);
    LowerCaseLexed(text, zero + (" " + failing));
    MessageYield(message, [Eof]);
    LeafRuleRead(text, Whole(0), MessageClause(message));
  }

  lemma {:induction false} MessageYield(message: string, rest: seq<Sym>)
    ensures YieldActionClauses(MessageClause(message), rest) ==
            [Fixed(ON_FAIL)] + ([Fixed(FAIL)] + ([Str(message)] + rest))
  {
    var cs := MessageClause(message);
    OneAction(FailDef(Some(message)), rest);
    assert cs[1..] == [] && YieldActionClauses(cs[1..], rest) == rest;
  }

  lemma {:induction false} MessageLexed(literal: string, message: string)
    requires literal == "'" + message + "'" && '\'' !in message && '\\' !in message
    ensures Lex("ON_FAIL" + (" " + ("FAIL" + (" " + literal)))) ==
            Ok([Fixed(ON_FAIL)] + ([Fixed(FAIL)] + ([Str(message)] + [Eof])))
  {
    MessageSpelled(literal, message);
    KeywordSpelled(ON_FAIL);
    KeywordSpelled(FAIL);
    LastLexed(literal, Str(message));
    SpelledLexed("FAIL", Fixed(FAIL), literal);
    SpelledLexed("ON_FAIL", Fixed(ON_FAIL), "FAIL" + (" " + literal));
  }

  /** A text without quotes or backslashes is spelled by itself. */
  lemma {:induction false} PlainUnescapes(s: string, quote: char)
    requires quote !in s && '\\' !in s
    ensures Unescape(s, quote) == Some(s)
  {
    if s != [] {
      PlainUnescapes(s[1..], quote);
      assert s == [s[0]] + s[1..];
    }
  }

  lemma {:induction false} MessageSpelled(l: string, message: string)
    requires l == "'" + message + "'" && '\'' !in message && '\\' !in message
    ensures Spells(l, Str(message))
  {
    assert l[1..|l| - 1] == message;
    PlainUnescapes(message, '\'');
  }

  lemma {:induction false} MessageCut(text: string, part: string)
    requires text == "assert 0 ON_FAIL FAIL ' ASSERT" + part
    ensures AssertPart(text) == Some(Strip(part))
  {
    var head := "assert 0 ON_FAIL FAIL ' ";
    assert text == head + ("ASSERT" + part);
    FirstAfter("ASSERT", head, "ASSERT" + part);
    assert text[|head| + 6..] == part;
  }

  /** What follows the cut is the number one, then a comment. */
  lemma {:induction false} OneRead(part: string, space: string, one: string, comment: string)
    requires part == space + (one + (space + comment)) && space == " " && one == "1" && comment == "# '"
    ensures Lex(part) == Ok([Whole(1)] + [Eof])
  {
    EndLexed(comment);
    SpaceLexed(space, comment);
    assert NumberValue(one) == 1;
    LexLexeme(one, Whole(1), space + comment);
    SpaceLexed(space, one + (space + comment));
  }

  lemma {:induction false} WhereWordLexed(word: string, tail: string, s: seq<Sym>)
    requires IsName(word) && Stops(Ident(word), tail) && Lex(tail) == Ok(s)
    ensures Lex(word + tail) == Ok([Ident(word)] + s)
    ensures Lex("WHERE " + (word + tail)) == Ok([Fixed(WHERE)] + ([Ident(word)] + s))
  {
    LexLexeme(word, Ident(word), tail);
    KeywordSpelled(WHERE);
    SpelledLexed(Spelling(WHERE), Fixed(WHERE), word + tail);
    WhereText(word + tail);
  }

  lemma {:induction false} WhereText(rest: string)
    ensures "WHERE " + rest == Spelling(WHERE) + (" " + rest)
  {
    assert "WHERE " == "WHERE" + " ";
  }

  lemma {:induction false} ReadWord(w: string, rest: seq<Sym>)
    requires !ContinuesOr(rest)
    ensures ParseOr([Ident(w)] + rest) == Done(Literal(StrLit(w)), rest)
  {
    var s := [Ident(w)] + rest;
    LeafComplete(Ident(w), rest);
    assert ParseComparison(s) == Done(Literal(StrLit(w)), rest);
    assert ParseNot(s) == ParseComparison(s);
    assert ParseAnd(s) == Done(Literal(StrLit(w)), rest);
  }

  lemma {:induction false} ReadTwoClauses(s: seq<Sym>, t: seq<Sym>)
    requires ParseOr(s).Done? && ParseOr(s).rest == [Fixed(ASSERT)] + t && ParseOr(t).Done? && ParseOr(t).rest == [Eof]
    ensures ParseRuleSyms([Fixed(WHERE)] + s)
         == Done(Rule(Conditions(None, Some(ParseOr(s).value), Some(ParseOr(t).value)), [], []), [Eof])
  {
    assert ([Fixed(WHERE)] + s)[1..] == s && ([Fixed(ASSERT)] + t)[1..] == t;
  }

  lemma {:induction false} WordAfterAssert(text: string, part: string, w: string, rest: seq<Sym>)
    requires AssertPart(text) == Some(Strip(part)) && Lex(part) == Ok([Ident(w)] + rest) && !ContinuesOr(rest)
    ensures AssertedExpr(text) == Ok(Literal(StrLit(w)))
  {
    StripKeepsSymbols(part);
    ReadWord(w, rest);
  }

  lemma {:induction false} CutInsideWord(text: string, part: string)
    requires text == "WHERE " + ("ASSERT" + part)
    ensures AssertPart(text) == Some(Strip(part))
  {
    FirstLater("ASSERT", "WHERE ", "ASSERT" + part);
    assert text[12..] == part;
  }

  lemma {:induction false} WordPasses(h: Host, obj: Object, text: string, w: string)
    requires AssertedExpr(text) == Ok(Literal(StrLit(w))) && w != []
    ensures EvaluateRule(h, text, obj)
  {
  }

  lemma {:induction false} EarlierWordParsed(text: string, word: string, tail: string, clause: seq<Sym>, e: Expr)
    requires text == "WHERE " + (word + tail) && IsName(word) && Stops(Ident(word), tail)
             && Lex(tail) == Ok([Fixed(ASSERT)] + clause)
    requires ParseOr(clause) == Done(e, [Eof])
    ensures ParseRule(text).Ok? && ParseRule(text).value.conditions.assertClause == Some(e)
  {
    var rest := [Fixed(ASSERT)] + clause;
    WhereWordLexed(word, tail, rest);
    ReadWord(word, rest);
    ReadTwoClauses([Ident(word)] + rest, clause);
  }

  lemma {:induction false} CutWordPasses(
    h: Host, obj: Object, text: string, word: string, suffix: string, tail: string, rest: seq<Sym>)
    requires text == "WHERE " + (word + tail) && word == "ASSERT" + suffix
    requires IsName(suffix) && Stops(Ident(suffix), tail) && Lex(tail) == Ok(rest) && !ContinuesOr(rest)
    ensures EvaluateRule(h, text, obj)
  {
    RegroupText(word, suffix, tail);
    WhereWordLexed(suffix, tail, rest);
    CutInsideWord(text, suffix + tail);
    WordAfterAssert(text, suffix + tail, suffix, rest);
    WordPasses(h, obj, text, suffix);
  }

  /**
   ASSERT inside an earlier word splits the text there: for every name that goes on after ASSERT, as in
   ASSERTED, followed by the text of any ASSERT clause that is false, the rule passes.
   */
  lemma {:induction false} EarlierAssertPasses(
    h: Host, obj: Object, text: string, word: string, suffix: string, tail: string, clause: seq<Sym>, e: Expr)
    requires text == "WHERE " + (word + tail) && word == "ASSERT" + suffix && IsName(word) && IsName(suffix)
    requires Stops(Ident(word), tail) && Lex(tail) == Ok([Fixed(ASSERT)] + clause)
    requires ParseOr(clause) == Done(e, [Eof]) && Truth(h, obj, e) == Ok(false)
    ensures ParseRule(text).Ok? && ParseRule(text).value.conditions.assertClause == Some(e)
    ensures EvaluateRule(h, text, obj)
  {
    EarlierWordParsed(text, word, tail, clause, e);
    CutWordPasses(h, obj, text, word, suffix, tail, [Fixed(ASSERT)] + clause);
  }

  lemma {:induction false} RegroupText(word: string, suffix: string, tail: string)
    requires word == "ASSERT" + suffix
    ensures word + tail == "ASSERT" + (suffix + tail)
  {
  }

  /** Every expression has such a text. */
  lemma {:induction false} AssertTailLexed(e: Expr, tail: string)
    requires WfExpr(e) && tail == " " + Text([Fixed(ASSERT)] + YieldOr(AsOr(e), []))
    ensures forall word :: Stops(Ident(word), tail)
    ensures Lex(tail) == Ok([Fixed(ASSERT)] + YieldOr(AsOr(e), [Eof]))
    ensures ParseOr(YieldOr(AsOr(e), [Eof])) == Done(e, [Eof])
  {
    var s := YieldOr(AsOr(e), []);
    OrWritable(e, []);
    WritableCons(Fixed(ASSERT), s);
    TextLexed([Fixed(ASSERT)] + s);
    SpaceLexed(" ", Text([Fixed(ASSERT)] + s));
    OrAppend(AsOr(e), [], [Eof]);
    assert [] + [Eof] == [Eof];
    Regroup(Fixed(ASSERT), s, [Eof]);
    PrintParse(e, [Eof]);
  }

  /** Such names exist. */
  lemma {:induction false} AssertedIsName(suffix: string)
    requires suffix == "ED"
    ensures IsName(suffix) && IsName("ASSERT" + suffix)
  {
    var w := "ASSERT" + suffix;
    assert Upper(w) == w && Upper(suffix) == suffix;
    var k, m := KeywordOf(w), KeywordOf(suffix);
    if k.Some? { SpellingShape(k.value); }
    if m.Some? { SpellingShape(m.value); }
  }
}
