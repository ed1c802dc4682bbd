# Verification of Ontos' rule language, caches, gates and migrations

A Dafny model of the parts of Ontos whose behaviour is decided by an algorithm rather than by a
service it calls, with machine-checked proofs of what they promise. `dafny verify dfyconfig.toml`
checks everything.

## What is modelled

**The compliance language** (`src/backend/src/common/compliance_dsl.py`).
`Symbols` holds the tokens and the character classes. `Lexing` is the lexer, a class with a position, a
line and a column; `Lexemes` says which texts spell which token, where two may touch, and that the lexer
reads exactly the texts laid out so. `Parsing` is the recursive-descent parser, a class over a token list; each `parse_*` method is
proved against a function on the tokens left. `Grammar` states the grammar by derivation trees and
proves the parser sound, complete and unambiguous for it; `Printing`, `Minimality` and `Rendering` print
expressions and rules with as few parentheses as possible and as text. `Values` and `Evaluation` are the
values and the evaluator; `OperatorMeaning` says what each operator and function means in arithmetic, text
and membership, and `EvaluationLaws` proves rewrites that keep meaning and what an evaluation
depends on. `Rules` is `parse_rule`, `parse_actions` and `evaluate_rule_on_object`. `RuleGrammar` is the
grammar of whole rules, which `parse_rule` is proved sound and complete for; `RuleLaws` proves the round trip
of rules through text, `TextSplit` and `RulePaths` compare the two ways of evaluating a rule, and `RuleTexts`
follows some rules from their characters to the verdict.
`Entities` is the iteration over filtered entities, `Actions` the action registry and executor, and
`PolicyRun` the run of a policy that puts the three together.

**Version families** (`version_visibility.py`). `VersionVisibility` is the visibility filter and the
dictionary loop that keeps one row per family, with its algebra. `VersionFamilies` says without the loop
which rows are shown, and `VersionStatuses` says it in the words of the statuses.

**Migrations.** `AlembicHeads` is the gate on migration histories, `FamilyBackfill` the recursive query
that finds version families, `TripleDedup` the repair of the unique constraint on triples, and
`DomainBackfill` the move to several domains per entity and back. Tables are objects whose statements
change their rows; constraints are flags that can only be set when the rows allow it.

**Caches** (`workspace_client.py`). `ResultCache` is the client that answers from a dictionary for a
minute and falls back to older answers, `ClientCache` the cache of clients per credentials. Both are
proved against step functions, and the laws are about every run of events.

Where the source changes variables step by step, the model does too: classes for the lexer, the parser,
the registries, the caches and the tables, and loops with invariants for the rest. Their contracts tie
the new state to a specification function, and the lemmas are about those functions. Every lemma switches
automatic induction off, so that each proof is the one written down.

## What was found

The code is modelled as it is; where that differs from what is said about it, a lemma gives the case and
the exact condition.

- `src/docs/compliance-dsl-reference.md` shows rules with several ON_FAIL clauses, and with ON_PASS after
  ON_FAIL. `parse_rule` accepts any list of action clauses, but reads only the first, or an ON_PASS and the
  ON_FAIL after it; the others are silently dropped. All are read exactly when there is none, one, or an ON_PASS
  followed by an ON_FAIL (`ClausesKept`; `OnPassAfterOnFailIsLost` and `SecondOnFailIsLost` are texts).
- Keywords are read in any case, but `evaluate_rule_on_object` looks for the upper-case word in the text. For a
  rule with an ASSERT clause there are three cases (`EvaluationPathsCompared`). If ASSERT stands nowhere in the
  text, the rule fails on every object, so that it agrees with its clause exactly when the clause is never true
  (`LowerCaseFails`). If the first ASSERT in the text is the keyword, the two agree. If it is another one, inside
  a name or a message, the rule is decided by the expression read after it: it can pass where the clause is
  false, whether the keyword is in upper case (`EarlierAssertPasses`) or in lower case (`LowerCasePasses`). In
  this case they agree exactly when that expression and the clause are true on the same objects. That is a
  question about two arbitrary expressions, regular expressions included, and no condition on the text alone
  answers it.
- The reference says that Object matches all types and lists `review` among them; `MATCH (x:Object)` asks for
  ten types, and reviews are asked for only by their own name (`ReviewsByNameOnly`). A rule without MATCH checks
  nothing, and its run succeeds with a score of 0 (`NoMatchNoFindings`).
- `NOT a < b` and `a >= b` differ exactly when both have values and one is None (`NotLessIsAtLeast`).
- A negative limit yields one entity (`LimitKept`).
- A policy's run passes no tag or notification manager to its actions, so that only PASS succeeds
  (`RunsOnlyPass`). A run over no entities scores 0. The score is rounded to hundredths: it is 100 although
  something failed whenever that is fewer than one entity in 20000, and 0 although something passed likewise
  (`FullMarks`, `NearlyFullMarks`).
- Rows with neither a family nor an id are commented as families of their own; they all share one
  (`KeylessKept`, `KeylessHidden`).
- The gate's second check is described as descent from the tip of the base. It asks for parents in the
  base: a pull request behind the tip passes, and merging it makes a second head (`StalePasses`,
  `MergeKeepsOneHead`).
- A version whose chain of parents is broken or cyclic is a family of its own, so that it is separated
  from its parent and children (`ChildSharesFamily`, `UnrootedMeaning`).
- Deduplication does not look at `object_is_uri`: where a URI and a literal are spelled alike, one of the
  two statements is deleted (`StatementsSurvive`).
- Had two domains one name, the domain migration would fail for products that use it
  (`UpgradeSucceeds`); names are unique in the schema.
- Using the mock client does not renew its entry, so that a user without a token is given a new one after ten
  minutes, whatever its use (`SameClientAgain`).
- The cache key of a list of tables joins two names; two catalogs share keys exactly when one name with
  its separator begins the other (`TableKeysApart`).

## Model

| member | source | states |
|---|---|---|
| Lexing.Lexer.Advance | src/backend/src/common/compliance_dsl.py:131-142 | Moves one character and keeps line and column those of the new position. |
| Lexing.Lexer.ReadString | src/backend/src/common/compliance_dsl.py:149-176 | Reads a string body with its escapes, or fails on an unterminated one, at the right position. |
| Lexing.Lexer.ReadNumber | src/backend/src/common/compliance_dsl.py:178-191 | Reads an integer or a decimal with at most one dot, its value and its extent. |
| Lexing.Lexer.Tokenize | src/backend/src/common/compliance_dsl.py:201-289 | Ends on every text with the text's tokens in place, EOF last, or an error. |
| Lexing.TokensAreSymbols | src/backend/src/common/compliance_dsl.py:201-289 | Lines and columns aside, the tokens are the symbols of the text. |
| Lexemes.LexemeSound | src/backend/src/common/compliance_dsl.py:149-199 | The characters a token was read from are a spelling of that token. |
| Lexemes.LexemeExact | src/backend/src/common/compliance_dsl.py:149-284 | A spelling of a token is read as that token, to its end, if and only if what follows does not go on with it: no word character after a word, no digit or dot after an integer, no digit after a decimal, no `=` after `<` or `>`. |
| Lexemes.LaidOutLexed | src/backend/src/common/compliance_dsl.py:201-289 | Any spellings of a symbol list, with any blanks and comments before, between and after them, or nothing where they may touch, lex to that list. |
| Lexemes.LexerDecidesLayout | src/backend/src/common/compliance_dsl.py:201-289 | A text lexes to a symbol list if and only if it is laid out as that list. |
| Lexemes.LexerAccountsForText | src/backend/src/common/compliance_dsl.py:203-289 | The tokens' lexemes and the blanks and comments skipped cut the text up without gap or overlap, and the tokens are those lexemes in place. |
| Lexemes.PlaceMeaning | src/backend/src/common/compliance_dsl.py:117-142 | A line is one more than the newlines before it; a column is the distance from the last newline. |
| Lexemes.TokensIncrease | src/backend/src/common/compliance_dsl.py:211-288 | Token positions strictly increase, EOF included. |
| RuleTexts.OneCharacter | src/backend/src/common/compliance_dsl.py:203-284 | What a text of one character lexes to, for every character. |
| RuleTexts.TwoCharacters | src/backend/src/common/compliance_dsl.py:248-262 | `!=`, `<=` and `>=` are one token. |
| RuleTexts.Escapes | src/backend/src/common/compliance_dsl.py:159-172 | A backslash before n is a newline, before t a tab, and before anything else, quotes and backslash included, that character. |
| Parsing.Parser.Advance | src/backend/src/common/compliance_dsl.py:366-371 | Consumes a token, but never moves past EOF. |
| Parsing.Parser.ParsePrimaryExpression | src/backend/src/common/compliance_dsl.py:380-427 | Ends, and reads what the primary function of the tokens left reads, or fails. |
| Parsing.Parser.ParseList | src/backend/src/common/compliance_dsl.py:429-442 | The list loop, with an optional trailing comma, against its function. |
| Parsing.Parser.ParseFunctionCall | src/backend/src/common/compliance_dsl.py:444-458 | The argument loop against its function. |
| Parsing.Parser.ParseCaseExpression | src/backend/src/common/compliance_dsl.py:460-485 | CASE with optional subject, WHEN clauses and ELSE against its function. |
| Parsing.Parser.ParseComparisonExpression | src/backend/src/common/compliance_dsl.py:487-502 | At most one comparison operator. |
| Parsing.Parser.ParseAndExpression | src/backend/src/common/compliance_dsl.py:511-520 | The AND loop, nesting to the left. |
| Parsing.Parser.ParseOrExpression | src/backend/src/common/compliance_dsl.py:522-535 | The OR loop, nesting to the left; the parser ends on every token list and stays before its end. |
| Grammar.OrSound | src/backend/src/common/compliance_dsl.py:380-535 | Whatever is parsed has a derivation tree that yields exactly the tokens consumed. |
| Grammar.OrComplete | src/backend/src/common/compliance_dsl.py:380-535 | Whatever the grammar derives is parsed, whatever follows that does not continue it. |
| Grammar.ParserDecidesGrammar | src/backend/src/common/compliance_dsl.py:380-535 | A token list parses to an expression if and only if the grammar derives it with that meaning. |
| Grammar.ConsumedExactly | src/backend/src/common/compliance_dsl.py:522-535 | The tokens read are the yield of one tree, followed by those left. |
| Grammar.GrammarUnambiguous | src/backend/src/common/compliance_dsl.py:380-535 | Two trees of the same tokens mean the same expression. |
| RuleTexts.Grouping | src/backend/src/common/compliance_dsl.py:504-535 | The text `NOT x AND y OR z` is read as ((NOT x) AND y) OR z. |
| Printing.PrintParse | src/backend/src/common/compliance_dsl.py:292-344 | An expression's printed symbols parse to it. |
| Minimality.PrintedIsShortest | src/backend/src/common/compliance_dsl.py:398-403 | No symbols that parse to an expression are fewer than its printed ones: no parenthesis too many. |
| Rendering.SpellSpells | src/backend/src/common/compliance_dsl.py:149-199 | Every symbol has a spelling, with strings escaped and decimals written out. |
| Rendering.TextLexed | src/backend/src/common/compliance_dsl.py:201-289 | The text of a symbol list lexes to it. |
| Rendering.LexedWritable | src/backend/src/common/compliance_dsl.py:201-289 | Every symbol the lexer produces can be written. |
| Values.EqualTransitive | src/backend/src/common/compliance_dsl.py:628-631 | Equality of values is transitive across booleans, numbers and containers. |
| Values.OrderTrichotomy | src/backend/src/common/compliance_dsl.py:632-639 | Ordering a pair of values is ordering the swapped pair the other way round, and equal means neither less nor greater. |
| OperatorMeaning.EqualityMeaning | src/backend/src/common/compliance_dsl.py:628-631 | = of two values is whether they are the same once every number in them, at any depth, is read as a real; != is its opposite. |
| OperatorMeaning.OrderingsMeaning | src/backend/src/common/compliance_dsl.py:632-639 | For any two values the four orderings are all false if one is None, all errors if they cannot be compared, and otherwise what numbers, the first differing character and the first unequal element say. |
| OperatorMeaning.NumbersCompared | src/backend/src/common/compliance_dsl.py:628-639 | Operands that are numbers, booleans among them, are compared in arithmetic, by all six operators. |
| OperatorMeaning.ConnectivesMeaning | src/backend/src/common/compliance_dsl.py:608-622 | NOT, and what AND and OR give back, for the seven values that count as false and for all others. |
| OperatorMeaning.OperandsFail | src/backend/src/common/compliance_dsl.py:608-626 | An operator fails with its left operand, and unless it is AND or OR with its right one. |
| OperatorMeaning.CaseMeaning | src/backend/src/common/compliance_dsl.py:661-679 | The first clause that fails or is taken decides a CASE; without one ELSE does, or it is None. |
| OperatorMeaning.InMeaning | src/backend/src/common/compliance_dsl.py:647-650 | IN is membership in a list by equality, and an error on anything else. |
| OperatorMeaning.ContainsMeaning | src/backend/src/common/compliance_dsl.py:652-657 | CONTAINS is an element of a list, a key of a dictionary, or a part of the text; None contains nothing. |
| OperatorMeaning.MatchesMeaning | src/backend/src/common/compliance_dsl.py:641-645 | MATCHES gives the pattern from the right and the text from the left to the regular expressions. |
| OperatorMeaning.CallsFail | src/backend/src/common/compliance_dsl.py:572-606 | A function fails unless it has one argument, and that has a value. |
| OperatorMeaning.HasTagMeaning | src/backend/src/common/compliance_dsl.py:574-579 | HAS_TAG is membership in the tags, whatever they are; an object without tags has none. |
| OperatorMeaning.TagMeaning | src/backend/src/common/compliance_dsl.py:581-586 | TAG gives the value of a tag, None without it, and fails where tags is no dictionary. |
| OperatorMeaning.TagsFound | src/backend/src/common/compliance_dsl.py:574-586 | A tag that TAG gives a value is one that HAS_TAG finds. |
| OperatorMeaning.LengthMeaning | src/backend/src/common/compliance_dsl.py:588-592 | LENGTH counts characters, elements or keys, is 0 on false values, and fails on other numbers. |
| OperatorMeaning.CasesMeaning | src/backend/src/common/compliance_dsl.py:594-604 | UPPER and LOWER replace each letter by the one at its place in the other alphabet and nothing else; false values have the empty text. |
| OperatorMeaning.CasesUndone | src/backend/src/common/compliance_dsl.py:594-604 | UPPER(LOWER(x)) is UPPER(x), and the other way round, for every expression. |
| OperatorMeaning.DecimalsMean | src/backend/src/common/compliance_dsl.py:178-191 | A decimal literal is its digits divided by ten once for every digit after the point. |
| EvaluationLaws.OrderingsConverse | src/backend/src/common/compliance_dsl.py:632-639 | `l > r` is `r < l` and `l >= r` is `r <= l`, values and errors alike. |
| EvaluationLaws.EqualityExchanges | src/backend/src/common/compliance_dsl.py:628-631 | Equal values may be exchanged in a comparison. |
| EvaluationLaws.NotLessIsAtLeast | src/backend/src/common/compliance_dsl.py:608-639 | NOT l < r is l >= r exactly unless both have values and one is None. |
| EvaluationLaws.NormalFormKeepsTruth | src/backend/src/common/compliance_dsl.py:608-622 | Pushing NOT through AND and OR and dropping double NOT keeps truth and errors on every object. |
| EvaluationLaws.NormalFormIsNormal | src/backend/src/common/compliance_dsl.py:608-622 | The result has no NOT above AND, OR or NOT. |
| EvaluationLaws.NormalFormStays | src/backend/src/common/compliance_dsl.py:608-622 | An expression in normal form is left as it is. |
| EvaluationLaws.CaseSubjectDesugars | src/backend/src/common/compliance_dsl.py:661-679 | CASE with a subject is CASE without one on comparisons, for any number of clauses; without clauses exactly unless the subject fails and ELSE does not. |
| EvaluationLaws.AnyEqualTruth | src/backend/src/common/compliance_dsl.py:619-629 | A chain of equalities joined by OR is true when one of the elements equals. |
| EvaluationLaws.InTruth | src/backend/src/common/compliance_dsl.py:647-650 | IN on a list literal is membership, and fails exactly when an operand does. |
| EvaluationLaws.InDesugars | src/backend/src/common/compliance_dsl.py:616-650 | x IN [a1..an] is the chain of equalities, for lists of any length, whenever IN has a value. |
| EvaluationLaws.EvaluationFrame | src/backend/src/common/compliance_dsl.py:547-679 | A value or error depends only on the properties mentioned and, with HAS_TAG or TAG, on tags; not on the object variable's name. |
| TextSplit.SymbolsAfterAssert | src/backend/src/common/compliance_dsl.py:705-713 | The symbols after the first ASSERT token are those of the text after it. |
| TextSplit.StripKeepsSymbols | src/backend/src/common/compliance_dsl.py:705-709 | Stripping a text that lexes leaves its symbols. |
| Rules.ParseActionList | src/backend/src/common/compliance_dsl.py:791-827 | The action loop against its function. |
| Rules.ParseRuleText | src/backend/src/common/compliance_dsl.py:732-788 | parse_rule against its function, errors included. |
| Rules.EvaluateRuleOnObject | src/backend/src/common/compliance_dsl.py:682-729 | evaluate_rule_on_object: the text after the first ASSERT, lexed, parsed and evaluated; every error is a failure. |
| RuleTexts.ComparingRule | src/backend/src/common/compliance_dsl.py:682-729 | From the text to the verdict: `ASSERT obj.p > 10`, with any property, number and sign, passes exactly the objects whose property is a number so related to it. |
| RuleTexts.TagRule | src/backend/src/common/compliance_dsl.py:574-579 | `ASSERT HAS_TAG('k')` passes exactly the objects that have the tag. |
| RuleGrammar.RuleComplete | src/backend/src/common/compliance_dsl.py:755-785 | Every derivation of a rule is found, whatever follows that begins no further clause. |
| RuleGrammar.RuleSound | src/backend/src/common/compliance_dsl.py:755-785 | Whatever is read as a rule has a derivation that yields exactly the symbols consumed. |
| RuleGrammar.RuleParserDecidesGrammar | src/backend/src/common/compliance_dsl.py:755-827 | A symbol list is read to its end as a rule if and only if the grammar derives it with that meaning. |
| RuleGrammar.ClausesKept | src/backend/src/common/compliance_dsl.py:775-785 | After any conditions, of any list of ON_PASS and ON_FAIL clauses the first is read, or an ON_PASS and the ON_FAIL after it; all are read exactly when there is none, one, or these two. |
| RuleLaws.RuleRoundTrip | src/backend/src/common/compliance_dsl.py:732-827 | Every well-formed rule, however spelled and laid out, tokens that touch included, is read back by parse_rule. |
| RuleLaws.RuleTextRoundTrip | src/backend/src/common/compliance_dsl.py:732-827 | Every well-formed rule has a text, and parse_rule reads the rule from it. |
| RuleLaws.ParsedRuleWf | src/backend/src/common/compliance_dsl.py:732-788 | parse_rule accepts only well-formed rules. |
| RuleLaws.ParsePrintParse | src/backend/src/common/compliance_dsl.py:732-788 | The canonical text of an accepted rule is accepted as the same rule. |
| RuleLaws.ClausesKeptInText | src/backend/src/common/compliance_dsl.py:775-785 | In every text of conditions and action clauses, parse_rule keeps the actions of the clauses kept and no others. |
| RuleLaws.OnPassAfterOnFailIsLost | src/backend/src/common/compliance_dsl.py:775-785 | A text whose ON_PASS actions are lost. |
| RuleLaws.SecondOnFailIsLost | src/backend/src/common/compliance_dsl.py:780-785 | A text whose second ON_FAIL actions are lost. |
| RulePaths.EvaluationPathsAgree | src/backend/src/common/compliance_dsl.py:700-785 | Where the first textual ASSERT is the keyword, evaluating a rule from its text passes exactly when its parsed ASSERT clause is true without error. |
| RulePaths.EvaluationPathsCompared | src/backend/src/common/compliance_dsl.py:700-785 | For every rule with an ASSERT clause: without an upper-case ASSERT it fails on every object, and agrees with its clause exactly if that is never true; with the keyword first they agree; otherwise exactly if what is read after the other ASSERT is true on the same objects. |
| RulePaths.LowerCaseFails | src/backend/src/common/compliance_dsl.py:702-705 | A lower-case assert of a true clause fails. |
| RulePaths.LowerCasePasses | src/backend/src/common/compliance_dsl.py:702-725 | A lower-case assert of a false clause passes, where a message holds the word. |
| RulePaths.EarlierAssertPasses | src/backend/src/common/compliance_dsl.py:705-713 | A name that begins with ASSERT before the clause makes a false rule pass. |
| RulePaths.AssertTailLexed | src/backend/src/common/compliance_dsl.py:705-713 | Every expression can stand as the clause in that case. |
| Entities.ParseEntityFilter | src/backend/src/common/compliance_entities.py:396-435 | The filter of a rule's text, an error exactly where parse_rule fails; what it asks for is stated next. |
| Entities.TypesAsked | src/backend/src/common/compliance_entities.py:413-422 | A type is asked for if it is the match type in lower case, or one of ten if that is object. |
| Entities.MatchCaseIgnored | src/backend/src/common/compliance_entities.py:418-422 | The match type's case makes no difference. |
| Entities.ReviewsByNameOnly | src/backend/src/common/compliance_entities.py:418-422 | Reviews are asked for by name, never by Object. |
| Entities.NothingWithoutMatch | src/backend/src/common/compliance_entities.py:347-351 | A rule without MATCH iterates over nothing. |
| Entities.Iterate | src/backend/src/common/compliance_entities.py:343-369 | Yields exactly the first limit of the loaders' entities the WHERE clause is true of, in loader order. |
| Entities.IterationMeaning | src/backend/src/common/compliance_entities.py:343-369 | What is yielded, and nothing else: each loader is asked for exactly the types both asked for and supported, in their order, or not at all; their entities together, filtered by the WHERE clause, are cut off at the limit, which 0 and None are not. |
| Entities.OneTypeAsked | src/backend/src/common/compliance_entities.py:347-354 | A rule for one type asks a loader for that type in lower case, if it has it, and for nothing else. |
| Entities.ObjectAsked | src/backend/src/common/compliance_entities.py:418-422 | A rule for Object asks a loader that has them all for the ten types. |
| RuleTexts.TypedRule | src/backend/src/common/compliance_entities.py:396-435 | The text `MATCH (x:Table) ASSERT y` asks the loaders that have tables for them, and no others. |
| Entities.LimitsNest | src/backend/src/common/compliance_entities.py:368-369 | A larger limit only adds to the end, and a limit is reached when it can be. |
| Entities.LimitKept | src/backend/src/common/compliance_entities.py:365-369 | A limit is kept to exactly when it is positive or nothing qualifies. |
| Entities.ConjunctionFiltersTwice | src/backend/src/common/compliance_entities.py:356-363 | Filtering by a AND b is filtering by a, then by b, errors included. |
| Entities.DisjunctionDropsLeftErrors | src/backend/src/common/compliance_entities.py:356-363 | Filtering by a OR b keeps what a keeps, and what b keeps unless a fails there. |
| Entities.NegationSplits | src/backend/src/common/compliance_entities.py:356-363 | A clause, its negation and its errors share the entities out. |
| Actions.ActionRegistry.CreateAction | src/backend/src/common/compliance_actions.py:238-259 | Builds an action exactly when the type is known and the parameters fit its class. |
| Actions.BuiltExactly | src/backend/src/common/compliance_actions.py:238-259 | An action is built exactly if its type is registered and its parameters are those its class takes, and then with these parameters. |
| Actions.Context.Execute | src/backend/src/common/compliance_actions.py:81-213 | What each action does to the managers, with a manager missing, or raising and leaving what it likes. |
| Actions.ExecuteActions | src/backend/src/common/compliance_actions.py:272-312 | One result per definition, in order; what cannot be built or raises fails and does not stop the others. |
| Actions.ResultsReported | src/backend/src/common/compliance_actions.py:286-312 | A definition that cannot be built or raises has a failure under its type as its result, or under UNKNOWN; a custom action has the result it reports. |
| Actions.ParsedActionsConstructible | src/backend/src/common/compliance_actions.py:219-259 | Every action parse_actions can return is built by the registry, as long as its five types are there. |
| Actions.ExecutionFolds | src/backend/src/common/compliance_actions.py:286-312 | Executing parsed actions gives results of the same types in the same order, leaves as tags the left fold of the assigns and removes that succeeded, and has notified the recipients of the notifications that succeeded, if a manager that raises has changed nothing. |
| Actions.NothingRefused | src/backend/src/common/compliance_actions.py:107-213 | With managers that refuse nothing every action but FAIL succeeds. |
| Actions.LastWriterWins | src/backend/src/common/compliance_actions.py:107-174 | A tag ends as the last successful action on it made it, and untouched without one. |
| Actions.WithoutManagers | src/backend/src/common/compliance_actions.py:114-189 | Without managers nothing is called and only PASS succeeds. |
| Actions.BrokenDefinitionsAreSkipped | src/backend/src/common/compliance_actions.py:288-310 | Definitions that cannot be built change nothing for the managers. |
| PolicyRun.RunPolicyInline | src/backend/src/controller/compliance_manager.py:486-591 | The run of a rule over the loaders' entities against its specification; a rule that cannot be parsed is a failed run. |
| PolicyRun.RunCoversEntities | src/backend/src/controller/compliance_manager.py:516-568 | One finding for each entity iterated over; the successes are as many as the findings that pass, and the failures the others. |
| PolicyRun.RunAgreesWithText | src/backend/src/controller/compliance_manager.py:521-530 | A finding passes exactly when evaluate_rule_on_object passes on the entity, where the two ways agree. |
| PolicyRun.FullMarks | src/backend/src/controller/compliance_manager.py:569-571 | The rounded score is a percentage; it is 100 if fewer than one entity in 20000 fails and below if more do, 0 if fewer than one in 20000 passes and above if more do, and one of two neighbours at exactly one. |
| PolicyRun.ScoreMeaning | src/backend/src/controller/compliance_manager.py:569-571 | The score is within half a hundredth of the percentage of the entities that passed. |
| PolicyRun.NearlyFullMarks | src/backend/src/controller/compliance_manager.py:569-571 | With 29999 passes and one failure the score is 100, and the other way round 0. |
| PolicyRun.NoMatchNoFindings | src/backend/src/controller/compliance_manager.py:516-571 | The run of a rule without MATCH succeeds with no findings and a score of 0. |
| PolicyRun.UnparsedFails | src/backend/src/controller/compliance_manager.py:486-591 | A run fails exactly when the rule cannot be parsed, and then has no findings. |
| PolicyRun.RunsOnlyPass | src/backend/src/controller/compliance_manager.py:519-544 | Of every finding of a run: it passes if there is no ASSERT clause or it is true, and then has the results of the ON_PASS actions, otherwise of the ON_FAIL actions, one each in order and of its type; without managers only PASS succeeds. |
| VersionVisibility.RankMeaning | src/backend/src/common/version_visibility.py:64-87 | Newer wins among equal statuses; a draft beats the active version exactly for callers with a stake. |
| VersionVisibility.DropInvisible | src/backend/src/common/version_visibility.py:109-125 | The first pass keeps the visible rows in order. |
| VersionVisibility.CollapseByFamily | src/backend/src/common/version_visibility.py:90-140 | The two passes over an insertion-ordered dictionary against their specification. |
| VersionVisibility.CollapseHomomorphism | src/backend/src/common/version_visibility.py:109-140 | Collapsing in parts and again is collapsing at once: rows, order and ties. |
| VersionVisibility.CollapseIdempotent | src/backend/src/common/version_visibility.py:109-140 | A collapsed list collapses to itself. |
| VersionFamilies.CollapseSpecification | src/backend/src/common/version_visibility.py:90-140 | The result is the one list that shows, for each family with a visible row, its best and earliest row, in the order of the families' first visible rows. |
| VersionFamilies.FamilyCounts | src/backend/src/common/version_visibility.py:143-155 | How many rows each family has, and no entry for rows of no family. |
| VersionFamilies.CollapsedOnce | src/backend/src/common/version_visibility.py:128-155 | Each family counted among the visible rows is shown exactly once, and no other. |
| VersionFamilies.CountsAddUp | src/backend/src/common/version_visibility.py:143-155 | The counts beside the rows shown add up to the visible rows that have a family. |
| VersionFamilies.WiderShowsMore | src/backend/src/common/version_visibility.py:111-125 | More elevated families, or admin, lose no family and no version. |
| VersionFamilies.KeylessKept | src/backend/src/common/version_visibility.py:111-140 | Rows of no family are all kept exactly when there is at most one. |
| VersionFamilies.KeylessHidden | src/backend/src/common/version_visibility.py:113-139 | Two such rows: one hides the other. |
| VersionStatuses.StatusReads | src/backend/src/common/version_visibility.py:51-52 | A status is a word exactly if it is that word in any case with blanks around it. |
| VersionStatuses.SurvivorsMeaning | src/backend/src/common/version_visibility.py:109-125 | The first pass keeps, in order, exactly the rows of no family and those the caller sees: all for an admin, otherwise none that are retired, and of a family that is not elevated only active and deprecated ones. |
| VersionStatuses.Representative | src/backend/src/common/version_visibility.py:33-140 | A row is shown for its family exactly if no other the caller sees is preferred: by its status in the order of the caller, unknown ones last, then by being newer, then by coming first. |
| VersionStatuses.FamilyShown | src/backend/src/common/version_visibility.py:109-140 | A family is shown exactly if the caller sees one of its rows. |
| AlembicHeads.CollectFaults | scripts/check-alembic-heads.py:183-197 | The reasons a new revision does not descend from the base, in order. |
| AlembicHeads.CheckHeads | scripts/check-alembic-heads.py:131-214 | The two checks in order, and what each of them reports. |
| AlembicHeads.PassedMeans | scripts/check-alembic-heads.py:137-197 | With new files the gate passes exactly when there is at most one head, a new revision, and each of them attached. |
| AlembicHeads.VerdictMeaning | scripts/check-alembic-heads.py:137-214 | Which verdict is given when: many heads before everything else, and nothing more to check without new files. |
| AlembicHeads.FaultsMeaning | scripts/check-alembic-heads.py:183-197 | The faults are the new revisions without parents over a base that is not empty, and the parents that are neither in the base nor new. |
| AlembicHeads.GateDecidesDescent | scripts/check-alembic-heads.py:5-12 | On an acyclic history over a parent-closed base, it passes exactly when a new revision descends from every other and every way from a new revision to the roots is known and enters the base. |
| AlembicHeads.MergeKeepsOneHead | scripts/check-alembic-heads.py:8-10 | After the merge of a request that passed there is one head exactly when the request contains the base's tip. |
| AlembicHeads.StalePasses | scripts/check-alembic-heads.py:193-197 | A request behind the tip that passes and leaves two heads. |
| FamilyBackfill.RecursiveRoots | src/backend/alembic/versions/j1_add_version_family_id.py:58-66 | The recursive query stops on every table, and finds each version once, with the root its chain ends at, or not at all. |
| FamilyBackfill.Table.Backfill | src/backend/alembic/versions/j1_add_version_family_id.py:57-73 | The UPDATE fills exactly the empty families and its subquery never yields two rows. |
| FamilyBackfill.Upgrade | src/backend/alembic/versions/j1_add_version_family_id.py:34-99 | Both tables are filled and NOT NULL can be set. |
| FamilyBackfill.EndsSoon | src/backend/alembic/versions/j1_add_version_family_id.py:58-66 | A chain that ends does so within as many steps as there are rows. |
| FamilyBackfill.FamilyIsRoot | src/backend/alembic/versions/j1_add_version_family_id.py:57-85 | On the rows themselves: a family that is set stays, an empty one becomes the id of the root the parents lead up to, or the row's own id if they lead to none. |
| FamilyBackfill.FamilyMeaning | src/backend/alembic/versions/j1_add_version_family_id.py:16-19 | Two versions share a family exactly when they are the same or their chains end and meet. |
| FamilyBackfill.ChildSharesFamily | src/backend/alembic/versions/j1_add_version_family_id.py:53-73 | A version and its parent share a family exactly when the chain reaches a root. |
| FamilyBackfill.UnrootedMeaning | src/backend/alembic/versions/j1_add_version_family_id.py:53-56 | A version is left as its own family exactly when its chain leaves the table or loops. |
| FamilyBackfill.RerunChangesNothing | src/backend/alembic/versions/j1_add_version_family_id.py:67-99 | No family is left empty, and a second run changes nothing. |
| FamilyBackfill.FamiliesRecovered | src/backend/alembic/versions/j1_add_version_family_id.py:102-114 | Dropping the column gives back the table as it was before, and a new run gives every version the family it had. |
| FamilyBackfill.FilledInStages | src/backend/alembic/versions/j1_add_version_family_id.py:67-73 | A run that finds part of the work done ends where a full run ends. |
| TripleDedup.RowNumbers | src/backend/alembic/versions/z8_fix_rdf_triple_nulls.py:63-69 | Numbers the rows of each key from one on in order of creation, ties in some order. |
| TripleDedup.Table.Deduplicate | src/backend/alembic/versions/z8_fix_rdf_triple_nulls.py:58-73 | Keeps exactly the rows numbered one. |
| TripleDedup.Table.Upgrade | src/backend/alembic/versions/z8_fix_rdf_triple_nulls.py:28-91 | The steps in order; NOT NULL and the unique constraint can always be set at the end. |
| TripleDedup.Table.Downgrade | src/backend/alembic/versions/z8_fix_rdf_triple_nulls.py:94-120 | Empty strings become NULL again and the constraint can be set. |
| TripleDedup.UpgradeSpecification | src/backend/alembic/versions/z8_fix_rdf_triple_nulls.py:50-91 | However ties are broken: no key twice, exactly the coalesced keys there were, each on an unchanged row of minimal creation time. |
| TripleDedup.ColumnsSpecification | src/backend/alembic/versions/z8_fix_rdf_triple_nulls.py:50-91 | Column by column: no two rows agree on all six columns afterwards, each is an earliest of those that agreed with it before, and every row before agrees with one after. |
| TripleDedup.DifferencesKept | src/backend/alembic/versions/z8_fix_rdf_triple_nulls.py:61-73 | Two rows that differ in any one of the six columns are both still represented, by different rows. |
| TripleDedup.ConstraintMeaning | src/backend/alembic/versions/z8_fix_rdf_triple_nulls.py:85-91 | The constraint forbids two rows that agree on all six columns without a NULL, and no others. |
| TripleDedup.UpgradeAgain | src/backend/alembic/versions/z8_fix_rdf_triple_nulls.py:50-73 | A second upgrade changes nothing. |
| TripleDedup.DowngradeUndone | src/backend/alembic/versions/z8_fix_rdf_triple_nulls.py:94-120 | Downgrading a migrated table and upgrading again restores it. |
| TripleDedup.UpgradeUndone | src/backend/alembic/versions/z8_fix_rdf_triple_nulls.py:94-120 | The downgrade restores the original exactly when it held no empty strings and no key twice. |
| TripleDedup.StatementsSurvive | src/backend/alembic/versions/z8_fix_rdf_triple_nulls.py:61-73 | Every statement survives exactly when no key names both a URI and a literal. |
| TripleDedup.InsertionMeaning | src/backend/src/repositories/rdf_triples_repository.py:62-81 | A triple is inserted unless a row agrees with it on all six columns and none of them is NULL. |
| TripleDedup.ReloadAddsNothing | src/backend/src/repositories/rdf_triples_repository.py:62-81 | Inserting the same triples again adds nothing. |
| TripleDedup.NullsReinserted | src/backend/alembic/versions/z8_fix_rdf_triple_nulls.py:7-11 | Without coercion a triple goes in a second time exactly when a column is NULL. |
| DomainBackfill.Database.SelectFrom | src/backend/alembic/versions/l1_add_entity_domain_associations.py:88-127 | The rows one INSERT selects, by id or by name. |
| DomainBackfill.Database.Upgrade | src/backend/alembic/versions/l1_add_entity_domain_associations.py:52-152 | The five inserts in order, then the columns dropped; on a violated index nothing changes. |
| DomainBackfill.Database.Downgrade | src/backend/alembic/versions/l1_add_entity_domain_associations.py:155-200 | Every entity with a primary association gets its domain; the associations go. |
| DomainBackfill.UpgradeSucceeds | src/backend/alembic/versions/l1_add_entity_domain_associations.py:73-127 | From an empty table it succeeds exactly when no product's value is the name of two domains and the id of none. |
| DomainBackfill.UniqueNamesSuffice | src/backend/alembic/versions/l1_add_entity_domain_associations.py:116-127 | Unique domain names are enough for it to succeed. |
| DomainBackfill.MigratedLinks | src/backend/alembic/versions/l1_add_entity_domain_associations.py:88-127 | The associations are exactly those of the values that resolve, with at most one primary per entity. |
| DomainBackfill.RoundTrip | src/backend/alembic/versions/l1_add_entity_domain_associations.py:88-196 | Up and down gives each entity the id its value resolves to, and none to the others. |
| DomainBackfill.RestoredValue | src/backend/alembic/versions/l1_add_entity_domain_associations.py:88-196 | On the domains themselves: an id comes back, a product's value that is no id becomes the id of the domain of that name, and everything else is empty. |
| DomainBackfill.ValueKept | src/backend/alembic/versions/l1_add_entity_domain_associations.py:104-196 | The value itself comes back exactly when it was empty or an id. |
| DomainBackfill.SecondariesIgnored | src/backend/alembic/versions/l1_add_entity_domain_associations.py:168-196 | Associations that are not primary make no difference to the downgrade. |
| DomainBackfill.UpgradeAgain | src/backend/alembic/versions/l1_add_entity_domain_associations.py:88-196 | Down and up again makes the same associations. |
| ResultCache.CachingClient.ClearCache | src/backend/src/common/workspace_client.py:64-73 | Clears one key, or everything for an empty one; the two maps keep the same keys. |
| ResultCache.CachingClient.CacheResult | src/backend/src/common/workspace_client.py:100-136 | The answer and the new dictionary for every outcome of the fetch, which is made exactly when there is no fresh entry. |
| ResultCache.CachingClient.CreateCatalog | src/backend/src/common/workspace_client.py:185-190 | A successful creation clears the list of catalogs, a failed one does not. |
| ResultCache.CachingClient.ListTables | src/backend/src/common/workspace_client.py:224-229 | The same for the tables of a schema, under a key of both names. |
| ResultCache.StoredWasFetched | src/backend/src/common/workspace_client.py:100-136 | In every run an entry is the most recent successful fetch of its key, not cleared since. |
| ResultCache.KeysMeaning | src/backend/src/common/workspace_client.py:64-136 | A key is kept exactly when it was fetched with success and not cleared since. |
| ResultCache.AnswersAgree | src/backend/src/common/workspace_client.py:100-136 | In every run an answer is one the workspace gave, less than a minute ago if it can answer now; there is none exactly when it cannot and nothing is kept. |
| ResultCache.SteadyWorld | src/backend/src/common/workspace_client.py:100-136 | Where the workspace does not change, answers are the workspace's own, or missing only when it fails. |
| ResultCache.CreateForcesFetch | src/backend/src/common/workspace_client.py:185-190 | After a successful creation the next list is fetched, whatever else is asked in between. |
| ResultCache.FetchServesAMinute | src/backend/src/common/workspace_client.py:100-136 | What is fetched for a key that was not kept is the answer for sixty seconds whatever the workspace says, and after that for as long as it fails. |
| ResultCache.KeysApart | src/backend/src/common/workspace_client.py:173-229 | Two catalogs have two keys, so have two schemas of a catalog, and different questions never share one. |
| ResultCache.TableKeysApart | src/backend/src/common/workspace_client.py:224-229 | Two catalogs never share a key exactly when neither name with its separator begins the other. |
| ClientCache.Cache.CleanUp | src/backend/src/common/workspace_client.py:27-44 | At most every five minutes, exactly the entries idle for more than ten are dropped. |
| ClientCache.Cache.GetWorkspaceClient | src/backend/src/common/workspace_client.py:287-405 | Reuse, build or failure for the mock, a token, a profile or no credentials, and the cache after it. |
| ClientCache.Cache.GetOboWorkspaceClient | src/backend/src/common/workspace_client.py:417-517 | The same for a user's token, under the user's name or the token's hash, falling back to the service's client. |
| ClientCache.KeyInitial | src/backend/src/common/workspace_client.py:302-467 | Keys of different kinds of credentials are never the same. |
| ClientCache.AnswersBelong | src/backend/src/common/workspace_client.py:322-517 | After every run a client handed out carries the requester's kind of credentials, and a token of the requester's hash. |
| ClientCache.ReusedClientsAreRecent | src/backend/src/common/workspace_client.py:27-44 | With a clock that does not go back, a client reused was last used less than fifteen minutes ago. |
| ClientCache.CleanupMeaning | src/backend/src/common/workspace_client.py:27-44 | Within 300 seconds of the last cleanup nothing is dropped; then exactly what was idle for more than 600. |
| ClientCache.UserKeysApart | src/backend/src/common/workspace_client.py:458-467 | Requests with tokens share a key only for the same user, by email or else by name, or for unnamed users with tokens of one hash. |
| ClientCache.NewClients | src/backend/src/common/workspace_client.py:252-517 | With an empty cache a client is made of exactly the requester's credentials, and only if the calls that verify it succeed. |
| ClientCache.SameClientAgain | src/backend/src/common/workspace_client.py:322-489 | The same request within ten minutes gets the same client and none is built, except that use does not renew the mock client. |

## Left out

- Characters beyond ASCII: letters, digits, blanks and case are ASCII's; the source asks Python's Unicode tables.
- Regular expressions and `str()` of a value that is no string: arbitrary functions (`Evaluation.Host`).
- Floating point: a decimal literal is its digits and a float value an exact real, so that rounding, infinities and NaN do not occur.
- Python's limits: an expression nested beyond the recursion limit, and an integer literal with more digits than `int()` takes, raise in the source and are reported as errors; the results about every expression and every rule are of those within the limits.
- Values other than None, booleans, numbers, strings, lists and dictionaries with string keys: dates and other objects of entities.
- The texts of errors, results, logs and notifications.
- Object identity: rows and entities are values; a row handed out is not shared with a table.
- Entities.Iterate: is a sequence rather than a generator, and its loaders are arbitrary functions of the types requested that do not raise.
- PolicyRun.RunPolicyInline: identifiers, times and the change log of a run, and what an entity is called in its results; of two hundredths equally near, either may be the rounded score, and the percentage before rounding is exact.
- AlembicHeads.CheckHeads: alembic's loading of revision files, its branch labels and `depends_on`, and git's listing of files are inputs.
- FamilyBackfill.Table.Backfill: adding the column and its indexes; a missing column is one of empty families.
- TripleDedup.Table.Upgrade: statement timeouts and server defaults.
- DomainBackfill.Database.Upgrade: association ids, times and authors, indexes other than the two that can be violated, and runs on a database where the table or the columns are already half migrated.
- ResultCache.CachingClient.CacheResult: one call at a time; the clusters, connections and schemas lists go through the same method under other keys.
- ClientCache.Cache.GetWorkspaceClient: building and verifying a client is an arbitrary answer of the host; timeouts and environment variables are not modelled.
- The Unity Catalog and application loaders, the database, the HTTP layer and the Databricks SDK: services and plumbing.
- SQL and SPARQL validation, search, settings, connectors and the frontend: no further property of this kind.
