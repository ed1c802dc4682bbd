/**
 A policy's run: the rule is parsed, its entities are iterated over, its ASSERT
 clause decides each of them, and the actions of the outcome are executed.
 */
module PolicyRun {
  import opened Symbols
  import opened Lexing
  import opened Parsing
  import opened Values
  import opened Evaluation
  import opened OperatorMeaning
  import opened TextSplit
  import opened Rules
  import opened RulePaths
  import opened Entities
  import Actions

  /** What is stored for an entity. */
  datatype Finding = Finding(obj: Object, passed: bool, actions: seq<Actions.ActionResult>)

  /** A run that has ended, in success unless its rule could not be parsed. */
  datatype Report = Report(succeeded: bool, findings: seq<Finding>, success: nat, failure: nat, score: real)

  /** Rounding to two decimals: a nearest hundredth, whichever of two that are equally near. */
  type Rounding = real -> real

  ghost predicate Rounds(round: Rounding) {
    forall x :: NearestHundredth(x, round(x))
  }

  predicate NearestHundredth(x: real, r: real) {
    (100.0 * r).Floor as real == 100.0 * r && x - 0.005 <= r <= x + 0.005
  }

  /** Without an ASSERT clause everything passes; an error is a failure. */
  predicate Passes(h: Host, rule: Rule, obj: Object) {
    rule.conditions.assertClause.None? || Truth(h, obj, rule.conditions.assertClause.value) == Ok(true)
  }

  function ActionsFor(rule: Rule, passed: bool): seq<ActionDef> {
    if passed then rule.onPass else rule.onFail
  }

  /** The context of a run has no managers. */
  function FindingOf(h: Host, classes: Actions.Classes, rule: Rule, obj: Object): Finding {
    var passed := Passes(h, rule, obj);
    var trace := Actions.RanAll(classes, Actions.Managers(None, None), EntityOf(obj),
      Actions.AsDefinitions(ActionsFor(rule, passed)));
    Finding(obj, passed, trace.results)
  }

  /** The entity as the managers would be told of it. */
  function EntityOf(obj: Object): Actions.Entity {
    Actions.Entity(if "type" in obj && obj["type"].StrValue? then obj["type"].s else "object",
                   if "id" in obj && obj["id"].StrValue? then obj["id"].s else "unknown")
  }

  function Checks(h: Host, classes: Actions.Classes, rule: Rule): Object -> Finding {
    obj => FindingOf(h, classes, rule, obj)
  }

  function Mapped<S, T>(f: S -> T, xs: seq<S>): (ys: seq<T>)
    ensures |ys| == |xs| && forall i :: 0 <= i < |xs| ==> ys[i] == f(xs[i])
  {
    seq(|xs|, i requires 0 <= i < |xs| => f(xs[i]))
  }

  lemma {:induction false} MappedSnoc<S, T>(f: S -> T, xs: seq<S>, i: nat)
    requires i < |xs|
    ensures Mapped(f, xs[..i + 1]) == Mapped(f, xs[..i]) + [f(xs[i])]
  {
  }

  function Findings(h: Host, classes: Actions.Classes, rule: Rule, objs: seq<Object>): seq<Finding> {
    Mapped(Checks(h, classes, rule), objs)
  }

  function Count(fs: seq<Finding>, passed: bool): nat {
    if fs == [] then 0 else Count(fs[..|fs| - 1], passed) + (if fs[|fs| - 1].passed == passed then 1 else 0)
  }

  lemma {:induction false} CountSnoc(fs: seq<Finding>, f: Finding)
    ensures forall passed :: Count(fs + [f], passed) == Count(fs, passed) + (if f.passed == passed then 1 else 0)
  {
    assert (fs + [f])[..|fs|] == fs;
  }

  /** The percentage of entities that passed; of no entities, none. */
  function Percentage(success: nat, failure: nat): real {
    var total := if success + failure < 1 then 1 else success + failure;
    100.0 * (success as real / total as real)
  }

  function ReportOf(round: Rounding, fs: seq<Finding>): Report {
    Report(true, fs, Count(fs, true), Count(fs, false), round(Percentage(Count(fs, true), Count(fs, false))))
  }

  /** What a run of a rule's text reports; a rule that cannot be parsed is a failed run. */
  function Reported(
    h: Host, round: Rounding, classes: Actions.Classes, text: string, loaders: seq<Loader>, limit: Option<int>): Report
  {
    match ParseRule(text)
    case Err => Report(false, [], 0, 0, 0.0)
    case Ok(rule) =>
      ReportOf(round, Findings(h, classes, rule, Iterated(h, loaders, FilterOf(rule.conditions), limit)))
  }

  /** The part of run_policy_inline for one entity. */
  method CheckEntity(h: Host, registry: Actions.ActionRegistry, rule: Rule, obj: Object) returns (f: Finding)
    ensures f == Checks(h, registry.actions, rule)(obj)
  {
    var ok := true;
    if rule.conditions.assertClause.Some? {
      var value := Evaluate(h, obj, rule.conditions.assertClause.value);
      ok := value.Ok? && Truthy(value.value);
    }
    var actions := if ok then rule.onPass else rule.onFail;
    var results: seq<Actions.ActionResult> := [];
    if actions != [] {
      var context := new Actions.Context(EntityOf(obj), null, null);
      results := Actions.ExecuteActions(registry, Actions.AsDefinitions(actions), context);
    }
    f := Finding(obj, ok, results);
  }

  /** Checks the entities one after the other and counts. */
  method CheckEntities(h: Host, registry: Actions.ActionRegistry, rule: Rule, objs: seq<Object>)
    returns (findings: seq<Finding>, success: nat, failure: nat)
    ensures findings == Findings(h, registry.actions, rule, objs)
    ensures success == Count(findings, true) && failure == Count(findings, false)
  {
    success, failure, findings := 0, 0, [];
    ghost var check := Checks(h, registry.actions, rule);
    for i := 0 to |objs|
      invariant findings == Mapped(check, objs[..i])
      invariant success == Count(findings, true) && failure == Count(findings, false)
    {
      var finding := CheckEntity(h, registry, rule, objs[i]);
      CountSnoc(findings, finding);
      MappedSnoc(check, objs, i);
      findings := findings + [finding];
      if finding.passed {
        success := success + 1;
      } else {
        failure := failure + 1;
      }
    }
    assert objs[..|objs|] == objs;
  }

  method RunPolicyInline(
    h: Host, round: Rounding, registry: Actions.ActionRegistry, text: string, loaders: seq<Loader>, limit: Option<int>)
    returns (r: Report)
    ensures r == Reported(h, round, registry.actions, text, loaders, limit)
  {
    var rule := ParseRuleText(text);
    if rule.Err? {
      return Report(false, [], 0, 0, 0.0);
    }
    var filter := ParseEntityFilter(text);
    var objs := Iterate(h, loaders, filter.value, limit);
    var findings, success, failure := CheckEntities(h, registry, rule.value, objs);
    return Report(true, findings, success, failure, round(Percentage(success, failure)));
  }

  // ---------- What a report says ----------

  lemma {:induction false} EveryFindingCounts(fs: seq<Finding>)
    ensures Count(fs, true) + Count(fs, false) == |fs|
    ensures Count(fs, false) == 0 <==> forall f :: f in fs ==> f.passed
  {
    if fs != [] {
      var init, last := fs[..|fs| - 1], fs[|fs| - 1];
      EveryFindingCounts(init);
      assert fs == init + [last];
      assert last in fs;
    }
  }

  /** Which of the findings are passes. */
  function Passing(fs: seq<Finding>): set<nat> {
    set i: nat | i < |fs| && fs[i].passed
  }

  lemma {:induction false} CountMeaning(fs: seq<Finding>)
    ensures Count(fs, true) == |Passing(fs)|
  {
    if fs == [] {
      assert Passing(fs) == {};
    } else {
      var last := |fs| - 1;
      CountMeaning(fs[..last]);
      assert Passing(fs) == Passing(fs[..last]) + if fs[last].passed then {last} else {};
    }
  }

  /** The hundredths near the ends of the scale. */
  lemma {:induction false} HundredthsNearEnds(x: real, r: real)
    requires NearestHundredth(x, r) && 0.0 <= x <= 100.0
    ensures 0.0 <= r <= 100.0
    ensures x > 99.995 ==> r == 100.0
    ensures x < 99.995 ==> r < 100.0
    ensures x == 99.995 ==> r == 99.99 || r == 100.0
    ensures x < 0.005 ==> r == 0.0
    ensures x > 0.005 ==> r > 0.0
    ensures x == 0.005 ==> r == 0.0 || r == 0.01
  {
    var k := (100.0 * r).Floor;
    assert 100.0 * x - 0.5 <= k as real <= 100.0 * x + 0.5;
  }

  lemma {:induction false} Share(part: nat, total: nat)
    requires 0 < total && part <= total
    ensures var x := 100.0 * (part as real / total as real);
            && 0.0 <= x <= 100.0
            && (20000 * part < total <==> x < 0.005) && (20000 * part > total <==> x > 0.005)
  {
    Quotient(part as real, total as real, 0.0);
    Quotient(part as real, total as real, 1.0);
    Quotient(part as real, total as real, 0.00005);
  }

  lemma {:induction false} Quotient(p: real, t: real, c: real)
    requires t > 0.0
    ensures (p / t < c <==> p < c * t) && (p / t > c <==> p > c * t)
  {
    var q := p / t;
    assert q * t == p;
    Scaled(q, c, t);
    Scaled(c, q, t);
  }

  lemma {:induction false} Scaled(a: real, b: real, t: real)
    requires t > 0.0
    ensures a < b <==> a * t < b * t
  {
    assert (b - a) * t == b * t - a * t;
  }

  lemma {:induction false} OtherShare(success: nat, failure: nat)
    requires success + failure > 0
    ensures var t := (success + failure) as real;
            100.0 * (success as real / t) == 100.0 - 100.0 * (failure as real / t)
  {
    var t := (success + failure) as real;
    var a, b := success as real / t, failure as real / t;
    assert a * t == success as real && b * t == failure as real;
    assert (a + b) * t == a * t + b * t;
    assert success as real + failure as real == t;
    Scaled(a + b, 1.0, t);
    Scaled(1.0, a + b, t);
  }

  /**
   The score is a percentage. It is 100 if fewer than one entity in 20000 fails, and below it if more do;
   and 0 if fewer than one in 20000 passes, and above it if more do. At exactly one in 20000 it is one of
   the two hundredths next to each other there.
   */
  lemma {:induction false} FullMarks(round: Rounding, fs: seq<Finding>)
    requires Rounds(round)
    ensures var r := ReportOf(round, fs);
            && 0.0 <= r.score <= 100.0
            && (fs == [] ==> r.score == 0.0)
            && (20000 * r.failure < |fs| ==> r.score == 100.0)
            && (20000 * r.failure > |fs| ==> r.score < 100.0)
            && (20000 * r.failure == |fs| > 0 ==> r.score == 99.99 || r.score == 100.0)
            && (20000 * r.success < |fs| ==> r.score == 0.0)
            && (20000 * r.success > |fs| ==> r.score > 0.0)
            && (20000 * r.success == |fs| > 0 ==> r.score == 0.0 || r.score == 0.01)
  {
    EveryFindingCounts(fs);
    var success, failure := Count(fs, true), Count(fs, false);
    var x := Percentage(success, failure);
    assert NearestHundredth(x, round(x));
    if fs != [] {
      Share(success, |fs|);
      Share(failure, |fs|);
      OtherShare(success, failure);
    }
    HundredthsNearEnds(x, round(x));
  }

  /** The score is the share of the entities that passed, out of a hundred, to within half a hundredth. */
  lemma {:induction false} ScoreMeaning(round: Rounding, fs: seq<Finding>)
    requires Rounds(round) && fs != []
    ensures var score := ReportOf(round, fs).score;
            score - 0.005 <= 100.0 * (|Passing(fs)| as real / |fs| as real) <= score + 0.005
  {
    EveryFindingCounts(fs);
    CountMeaning(fs);
    var x := Percentage(Count(fs, true), Count(fs, false));
    assert NearestHundredth(x, round(x));
  }

  /** A rule that cannot be parsed is a failed run without findings. */
  lemma {:induction false} UnparsedFails(
    h: Host, round: Rounding, classes: Actions.Classes, text: string, loaders: seq<Loader>, limit: Option<int>)
    ensures Reported(h, round, classes, text, loaders, limit).succeeded <==> ParseRule(text).Ok?
    ensures ParseRule(text).Err? ==>
              Reported(h, round, classes, text, loaders, limit) == Report(false, [], 0, 0, 0.0)
  {
  }

  /** One failure among 30000 entities still scores 100, and one pass among them 0. */
  lemma {:induction false} NearlyFullMarks(round: Rounding)
    requires Rounds(round)
    ensures round(Percentage(29999, 1)) == 100.0 && round(Percentage(1, 29999)) == 0.0
  {
    var most, least := Percentage(29999, 1), Percentage(1, 29999);
    assert NearestHundredth(most, round(most)) && NearestHundredth(least, round(least));
    HundredthsNearEnds(most, round(most));
    HundredthsNearEnds(least, round(least));
  }

  lemma {:induction false} FindingPassed(h: Host, classes: Actions.Classes, rule: Rule, objs: seq<Object>, i: nat)
    requires i < |objs|
    ensures var f := Findings(h, classes, rule, objs)[i]; f.obj == objs[i] && (f.passed <==> Passes(h, rule, objs[i]))
  {
    assert Findings(h, classes, rule, objs)[i] == Checks(h, classes, rule)(objs[i]);
  }

  /**
   A run agrees with checking each entity straight from the rule's text, provided the first ASSERT in the
   text is its ASSERT clause; and it stores one finding for each entity iterated over, in that order.
   */
  lemma {:induction false} RunAgreesWithText(
    h: Host, round: Rounding, classes: Actions.Classes, text: string, loaders: seq<Loader>, limit: Option<int>, i: nat)
    requires ParseRule(text).Ok? && ParseRule(text).value.conditions.assertClause.Some?
    requires FirstIndex("ASSERT", text) == AssertOffset(text)
    requires i < |Reported(h, round, classes, text, loaders, limit).findings|
    ensures var f := Reported(h, round, classes, text, loaders, limit).findings[i];
            f.passed <==> EvaluateRule(h, text, f.obj)
  {
    var rule := ParseRule(text).value;
    var objs := Iterated(h, loaders, FilterOf(rule.conditions), limit);
    FindingPassed(h, classes, rule, objs, i);
    EvaluationPathsAgree(h, text, objs[i]);
  }

  /** The stored findings are about exactly the entities iterated over, and their counts add up. */
  lemma {:induction false} RunCoversEntities(
    h: Host, round: Rounding, classes: Actions.Classes, text: string, loaders: seq<Loader>, limit: Option<int>)
    requires ParseRule(text).Ok?
    ensures var rule, r := ParseRule(text).value, Reported(h, round, classes, text, loaders, limit);
            var objs := Iterated(h, loaders, FilterOf(rule.conditions), limit);
            && r.succeeded && r.success + r.failure == |objs| == |r.findings|
            && r.success == |Passing(r.findings)|
            && forall i :: 0 <= i < |objs| ==>
                 r.findings[i].obj == objs[i] && (r.findings[i].passed <==> Passes(h, rule, objs[i]))
  {
    var rule := ParseRule(text).value;
    var objs := Iterated(h, loaders, FilterOf(rule.conditions), limit);
    EveryFindingCounts(Findings(h, classes, rule, objs));
    CountMeaning(Findings(h, classes, rule, objs));
    forall i | 0 <= i < |objs|
      ensures var f := Findings(h, classes, rule, objs)[i]; f.obj == objs[i] && (f.passed <==> Passes(h, rule, objs[i]))
    {
      FindingPassed(h, classes, rule, objs, i);
    }
  }

  /** A rule without a MATCH clause checks nothing: its run succeeds, with no findings and a score of 0. */
  lemma {:induction false} NoMatchNoFindings(
    h: Host, round: Rounding, classes: Actions.Classes, text: string, loaders: seq<Loader>, limit: Option<int>)
    requires Rounds(round) && ParseRule(text).Ok? && ParseRule(text).value.conditions.matchType.None?
    ensures Reported(h, round, classes, text, loaders, limit) == Report(true, [], 0, 0, 0.0)
  {
    NothingWithoutMatch(h, loaders, ParseRule(text).value.conditions, limit);
    FullMarks(round, []);
  }

  /** The clause can be evaluated and is none of the false values; a rule without one asks nothing. */
  predicate Complies(h: Host, rule: Rule, obj: Object) {
    match rule.conditions.assertClause
    case None => true
    case Some(clause) => Evaluate(h, obj, clause).Ok? && !Falsy(Evaluate(h, obj, clause).value)
  }

  lemma {:induction false} CompliesIsPasses(h: Host, rule: Rule, obj: Object)
    ensures Passes(h, rule, obj) <==> Complies(h, rule, obj)
  {
    if rule.conditions.assertClause.Some? && Evaluate(h, obj, rule.conditions.assertClause.value).Ok? {
      TruthyMeaning(Evaluate(h, obj, rule.conditions.assertClause.value).value);
    }
  }

  /** One result per action, in order and of its type; only PASS succeeds. */
  ghost predicate RanWithoutManagers(ds: seq<ActionDef>, results: seq<Actions.ActionResult>) {
    && |results| == |ds|
    && forall j :: 0 <= j < |ds| ==>
         results[j].actionType == Some(Actions.Keyword(ds[j])) && (results[j].success <==> ds[j].PassDef?)
  }

  lemma {:induction false} ActionsRun(h: Host, classes: Actions.Classes, rule: Rule, obj: Object)
    requires Actions.Standard(classes)
    ensures var f := Checks(h, classes, rule)(obj);
            && f.obj == obj && (f.passed <==> Complies(h, rule, obj))
            && RanWithoutManagers(if Complies(h, rule, obj) then rule.onPass else rule.onFail, f.actions)
  {
    CompliesIsPasses(h, rule, obj);
    var ds := ActionsFor(rule, Passes(h, rule, obj));
    Actions.WithoutManagers(classes, EntityOf(obj), ds);
    Actions.ExecutionFolds(classes, Actions.Managers(None, None), EntityOf(obj), ds);
  }

  /**
   What a run stores for an entity: it passes if the rule has no ASSERT clause or the clause is true of it,
   and then the ON_PASS actions are run, otherwise the ON_FAIL actions. A run has no managers, so that no
   tag is assigned or removed and no notification sent: only PASS succeeds.
   */
  lemma {:induction false} RunsOnlyPass(
    h: Host, round: Rounding, classes: Actions.Classes, text: string, loaders: seq<Loader>, limit: Option<int>, i: nat)
    requires Actions.Standard(classes) && ParseRule(text).Ok?
    requires i < |Reported(h, round, classes, text, loaders, limit).findings|
    ensures var (rule, f) := (ParseRule(text).value, Reported(h, round, classes, text, loaders, limit).findings[i]);
            if Complies(h, rule, f.obj) then f.passed && RanWithoutManagers(rule.onPass, f.actions)
            else !f.passed && RanWithoutManagers(rule.onFail, f.actions)
  {
    var rule := ParseRule(text).value;
    var objs := Iterated(h, loaders, FilterOf(rule.conditions), limit);
    assert Findings(h, classes, rule, objs)[i] == Checks(h, classes, rule)(objs[i]);
    ActionsRun(h, classes, rule, objs[i]);
  }
}
