/**
 Choosing the entities a rule applies to: the types its MATCH clause asks for, the
 loaders that have them, its WHERE clause, and the limit.
 */
module Entities {
  import opened Symbols
  import opened Selections
  import opened Parsing
  import opened Values
  import opened Evaluation
  import opened OperatorMeaning
  import opened Rules

  datatype EntityFilter = EntityFilter(types: seq<string>, whereClause: Option<Expr>)

  /** A loader: the types it has, and the entities it yields for the types requested. */
  datatype Loader = Loader(supported: set<string>, load: seq<string> -> seq<Object>)

  // ---------- The filter of a rule ----------

  /** What the generic type Object stands for; reviews are not among them. */
  const ObjectTypes: seq<string> :=
    ["catalog", "schema", "table", "view", "function", "volume", "data_product", "data_contract", "domain",
      "glossary_term"]

  function TypesOf(matchType: Option<string>): seq<string> {
    if matchType.None? || matchType.value == "" then []
    else if Lower(matchType.value) == "object" then ObjectTypes
    else [Lower(matchType.value)]
  }

  function FilterOf(c: Conditions): EntityFilter {
    EntityFilter(TypesOf(c.matchType), c.whereClause)
  }

  method ParseEntityFilter(text: string) returns (r: Result<EntityFilter>)
    ensures r == match ParseRule(text) case Ok(rule) => Ok(FilterOf(rule.conditions)) case Err => Err
  {
    var parsed :- ParseRuleText(text);
    var entityTypes: seq<string> := [];
    var matchType := parsed.conditions.matchType;
    if matchType.Some? && matchType.value != "" {
      if Lower(matchType.value) == "object" {
        entityTypes := ObjectTypes;
      } else {
        entityTypes := [Lower(matchType.value)];
      }
    }
    return Ok(EntityFilter(entityTypes, parsed.conditions.whereClause));
  }

  /** A type is asked for if it is the match type, in any case, or one of the ten types that Object stands for. */
  lemma {:induction false} TypesAsked(matchType: Option<string>, t: string)
    ensures t in TypesOf(matchType) <==>
            && matchType.Some? && matchType.value != ""
            && (if Lower(matchType.value) == "object" then t in ObjectTypes else t == Lower(matchType.value))
    ensures |ObjectTypes| == 10 && "review" !in ObjectTypes && "object" !in ObjectTypes
  {
  }

  lemma {:induction false} MatchCaseIgnored(a: string, b: string)
    requires Lower(a) == Lower(b)
    ensures TypesOf(Some(a)) == TypesOf(Some(b))
  {
  }

  /** Reviews are asked for by name only: Object, said to match all types, does not ask for them. */
  lemma {:induction false} ReviewsByNameOnly(matchType: Option<string>)
    ensures "review" in TypesOf(matchType) <==> matchType.Some? && Lower(matchType.value) == "review"
  {
    TypesAsked(matchType, "review");
  }

  // ---------- What is iterated over ----------

  function Requested(types: seq<string>, supported: set<string>): seq<string> {
    if types == [] then []
    else (if types[0] in supported then [types[0]] else []) + Requested(types[1..], supported)
  }

  /** The entities of one loader; it is not asked when it has none of the types. */
  function Loaded(types: seq<string>, l: Loader): seq<Object> {
    if Requested(types, l.supported) == [] then [] else l.load(Requested(types, l.supported))
  }

  function AllLoaded(types: seq<string>, loaders: seq<Loader>): seq<Object> {
    if loaders == [] then [] else Loaded(types, loaders[0]) + AllLoaded(types, loaders[1..])
  }

  /** An entity is kept when there is no WHERE clause or it is true of it; one it cannot be evaluated on is dropped. */
  predicate Keep(h: Host, where_: Option<Expr>, obj: Object) {
    where_.None? || Truth(h, obj, where_.value) == Ok(true)
  }

  function Keeps(h: Host, where_: Option<Expr>): Object -> bool {
    obj => Keep(h, where_, obj)
  }

  function Kept(h: Host, where_: Option<Expr>, objs: seq<Object>): seq<Object> {
    Filtered(Keeps(h, where_), objs)
  }

  /**
   The limit takes effect after an entity has been yielded: none or zero is no limit, and a negative one
   lets one through.
   */
  function Limited<T>(objs: seq<T>, limit: Option<int>): seq<T> {
    if limit.None? || limit.value == 0 then objs
    else
      var n := if limit.value < 1 then 1 else limit.value;
      if |objs| <= n then objs else objs[..n]
  }

  predicate Reached(count: nat, limit: Option<int>) {
    limit.Some? && limit.value != 0 && count >= limit.value
  }

  function Iterated(h: Host, loaders: seq<Loader>, f: EntityFilter, limit: Option<int>): seq<Object> {
    Limited(Kept(h, f.whereClause, AllLoaded(f.types, loaders)), limit)
  }

  lemma {:induction false} RequestedConcat(a: seq<string>, b: seq<string>, supported: set<string>)
    ensures Requested(a + b, supported) == Requested(a, supported) + Requested(b, supported)
  {
    if a == [] {
      assert a + b == b;
    } else {
      assert (a + b)[1..] == a[1..] + b;
      RequestedConcat(a[1..], b, supported);
      Associates(if a[0] in supported then [a[0]] else [], Requested(a[1..], supported), Requested(b, supported));
    }
  }

  lemma {:induction false} LoadedConcat(types: seq<string>, a: seq<Loader>, b: seq<Loader>)
    ensures AllLoaded(types, a + b) == AllLoaded(types, a) + AllLoaded(types, b)
  {
    if a == [] {
      assert a + b == b;
    } else {
      assert (a + b)[1..] == a[1..] + b;
      LoadedConcat(types, a[1..], b);
      Associates(Loaded(types, a[0]), AllLoaded(types, a[1..]), AllLoaded(types, b));
    }
  }

  lemma {:induction false} NothingAsked(types: seq<string>, loaders: seq<Loader>)
    requires types == []
    ensures AllLoaded(types, loaders) == []
  {
    if loaders != [] { NothingAsked(types, loaders[1..]); }
  }

  /** A rule without a MATCH clause iterates over nothing. */
  lemma {:induction false} NothingWithoutMatch(h: Host, loaders: seq<Loader>, c: Conditions, limit: Option<int>)
    requires c.matchType.None?
    ensures Iterated(h, loaders, FilterOf(c), limit) == []
  {
    NothingAsked(TypesOf(c.matchType), loaders);
  }

  /** What has been yielded so far, as long as the limit is not reached. */
  ghost predicate Yielding<T>(keep: T -> bool, seen: seq<T>, yielded: seq<T>, limit: Option<int>) {
    yielded == Filtered(keep, seen) && (yielded != [] ==> !Reached(|yielded|, limit))
  }

  lemma {:induction false} YieldsAll<T>(keep: T -> bool, seen: seq<T>, yielded: seq<T>, limit: Option<int>)
    requires Yielding(keep, seen, yielded, limit)
    ensures yielded == Limited(Filtered(keep, seen), limit)
  {
  }

  lemma {:induction false} YieldsEnough<T>(
    keep: T -> bool, seen: seq<T>, later: seq<T>, yielded: seq<T>, obj: T, limit: Option<int>)
    requires Yielding(keep, seen, yielded, limit) && keep(obj) && Reached(|yielded| + 1, limit)
    ensures yielded + [obj] == Limited(Filtered(keep, seen + [obj] + later), limit)
  {
    FilteredConcat(keep, seen, [obj]);
    FilteredConcat(keep, seen + [obj], later);
    FilteredOne(keep, obj);
    var all := Filtered(keep, seen + [obj] + later);
    assert all[..|yielded| + 1] == yielded + [obj];
    if |all| == |yielded| + 1 { assert all == yielded + [obj]; }
  }

  lemma {:induction false} LoadedSnoc(types: seq<string>, loaders: seq<Loader>, i: nat)
    requires i < |loaders|
    ensures AllLoaded(types, loaders[..i + 1]) == AllLoaded(types, loaders[..i]) + Loaded(types, loaders[i])
  {
    assert loaders[..i + 1] == loaders[..i] + [loaders[i]];
    LoadedConcat(types, loaders[..i], [loaders[i]]);
    assert [loaders[i]][1..] == [];
  }

  lemma {:induction false} SplitLoaded(types: seq<string>, loaders: seq<Loader>, i: nat)
    requires i < |loaders|
    ensures AllLoaded(types, loaders) ==
            AllLoaded(types, loaders[..i]) + Loaded(types, loaders[i]) + AllLoaded(types, loaders[i + 1..])
  {
    assert loaders == loaders[..i + 1] + loaders[i + 1..];
    LoadedConcat(types, loaders[..i + 1], loaders[i + 1..]);
    LoadedSnoc(types, loaders, i);
  }

  lemma {:induction false} CutAt<T>(a: seq<T>, b: seq<T>, j: nat, c: seq<T>)
    requires j < |b|
    ensures a + b + c == a + b[..j] + [b[j]] + (b[j + 1..] + c)
  {
  }

  /** The WHERE clause on one entity. */
  method Qualifies(h: Host, f: EntityFilter, obj: Object) returns (kept: bool)
    ensures kept == Keep(h, f.whereClause, obj)
  {
    if f.whereClause.Some? {
      var value := Evaluate(h, obj, f.whereClause.value);
      if value.Err? {
        return false;
      }
      if !Truthy(value.value) {
        return false;
      }
    }
    return true;
  }

  /** One loader's entities: yields those kept, and stops at the limit. */
  method IterateLoader(
    h: Host, f: EntityFilter, objs: seq<Object>, ghost keep: Object -> bool, ghost before: seq<Object>,
                       yielded: seq<Object>, limit: Option<int>)
    returns (all: seq<Object>, done: bool, ghost stop: nat)
    requires forall obj :: keep(obj) == Keep(h, f.whereClause, obj)
    requires Yielding(keep, before, yielded, limit)
    ensures !done ==> Yielding(keep, before + objs, all, limit)
    ensures done ==> StopsAt(keep, before, objs, stop, all, limit)
  {
    all := yielded;
    assert before + objs[..0] == before;
    for j := 0 to |objs|
      invariant Yielding(keep, before + objs[..j], all, limit)
    {
      ghost var seen := before + objs[..j];
      assert before + objs[..j + 1] == seen + [objs[j]];
      FilteredConcat(keep, seen, [objs[j]]);
      FilteredOne(keep, objs[j]);
      var kept := Qualifies(h, f, objs[j]);
      assert kept == keep(objs[j]);
      if !kept {
        continue;
      }
      all := all + [objs[j]];
      if limit.Some? && limit.value != 0 && |all| >= limit.value {
        assert all[..|all| - 1] == Filtered(keep, seen);
        return all, true, j;
      }
    }
    assert objs[..|objs|] == objs;
    done, stop := false, 0;
  }

  /** The limit is reached by the j-th of these entities. */
  ghost predicate StopsAt<T>(keep: T -> bool, before: seq<T>, objs: seq<T>, j: int, all: seq<T>, limit: Option<int>) {
    && 0 <= j < |objs| && all != [] && all[|all| - 1] == objs[j]
    && Yielding(keep, before + objs[..j], all[..|all| - 1], limit)
    && keep(objs[j]) && Reached(|all|, limit)
  }

  /** Once the limit is reached, nothing that comes later matters. */
  lemma {:induction false} StoppedEarly<T>(
    keep: T -> bool, before: seq<T>, objs: seq<T>, j: nat, later: seq<T>, yielded: seq<T>, limit: Option<int>)
    requires StopsAt(keep, before, objs, j, yielded, limit)
    ensures yielded == Limited(Filtered(keep, before + objs + later), limit)
  {
    CutAt(before, objs, j, later);
    YieldsEnough(keep, before + objs[..j], objs[j + 1..] + later, yielded[..|yielded| - 1], objs[j], limit);
  }

  /** iterate: exactly the first limit entities, in loader order, of those the WHERE clause is true of. */
  method Iterate(h: Host, loaders: seq<Loader>, f: EntityFilter, limit: Option<int>) returns (yielded: seq<Object>)
    ensures yielded == Iterated(h, loaders, f, limit)
  {
    ghost var keep := Keeps(h, f.whereClause);
    yielded := [];
    for i := 0 to |loaders|
      invariant Yielding(keep, AllLoaded(f.types, loaders[..i]), yielded, limit)
    {
      LoadedSnoc(f.types, loaders, i);
      var requested := Requested(f.types, loaders[i].supported);
      if requested == [] {
        assert AllLoaded(f.types, loaders[..i]) + [] == AllLoaded(f.types, loaders[..i]);
        continue;
      }
      var objs := loaders[i].load(requested);
      var done;
      ghost var stop;
      yielded, done, stop := IterateLoader(h, f, objs, keep, AllLoaded(f.types, loaders[..i]), yielded, limit);
      if done {
        SplitLoaded(f.types, loaders, i);
        StoppedEarly(keep, AllLoaded(f.types, loaders[..i]), objs, stop, AllLoaded(f.types, loaders[i + 1..]),
          yielded, limit);
        return;
      }
    }
    assert loaders[..|loaders|] == loaders;
    YieldsAll(keep, AllLoaded(f.types, loaders), yielded, limit);
  }

  // ---------- What iteration yields, without the loops ----------

  /** A loader that has none of the types gives nothing; any other is asked for those it has, in their order. */
  ghost predicate Contributes(l: Loader, types: seq<string>, objs: seq<Object>) {
    if forall t :: t in types ==> t !in l.supported then objs == []
    else exists asked :: Selects(types, (t: string) => t in l.supported, asked) && objs == l.load(asked)
  }

  function Concatenated<T>(parts: seq<seq<T>>): seq<T> {
    if parts == [] then [] else parts[0] + Concatenated(parts[1..])
  }

  /** The WHERE clause can be evaluated and is none of the false values. */
  predicate Satisfies(h: Host, where_: Option<Expr>, obj: Object) {
    where_.None? || (Evaluate(h, obj, where_.value).Ok? && !Falsy(Evaluate(h, obj, where_.value).value))
  }

  /** None and 0 are no limit; any other lets that many through, or one if it is negative. */
  ghost predicate CutOff<T>(all: seq<T>, limit: Option<int>, some: seq<T>) {
    some <= all && |some| == if limit.None? || limit.value == 0 then |all| else Least(|all|, Greatest(limit.value, 1))
  }

  function Least(a: int, b: int): int { if a <= b then a else b }
  function Greatest(a: int, b: int): int { if a <= b then b else a }

  function Satisfying(h: Host, where_: Option<Expr>): Object -> bool {
    obj => Satisfies(h, where_, obj)
  }

  ghost predicate YieldedFrom(
    h: Host, loaders: seq<Loader>, f: EntityFilter, limit: Option<int>, yielded: seq<Object>,
    parts: seq<seq<Object>>, kept: seq<Object>) {
    && |parts| == |loaders| && (forall i :: 0 <= i < |loaders| ==> Contributes(loaders[i], f.types, parts[i]))
    && Selects(Concatenated(parts), Satisfying(h, f.whereClause), kept)
    && CutOff(kept, limit, yielded)
  }

  lemma {:induction false} RequestedIsFiltered(types: seq<string>, supported: set<string>)
    ensures Requested(types, supported) == Filtered((t: string) => t in supported, types)
  {
    if types != [] { RequestedIsFiltered(types[1..], supported); }
  }

  lemma {:induction false} NothingRequested(types: seq<string>, supported: set<string>)
    ensures Requested(types, supported) == [] <==> forall t :: t in types ==> t !in supported
  {
    if types != [] {
      NothingRequested(types[1..], supported);
      assert types == [types[0]] + types[1..];
      assert types[0] in types;
    }
  }

  lemma {:induction false} LoadedMeaning(types: seq<string>, l: Loader, objs: seq<Object>)
    ensures Contributes(l, types, objs) <==> objs == Loaded(types, l)
  {
    NothingRequested(types, l.supported);
    RequestedIsFiltered(types, l.supported);
    var has := (t: string) => t in l.supported;
    forall asked ensures Selects(types, has, asked) <==> asked == Requested(types, l.supported) {
      FilteredIsSelection(types, has, asked);
    }
  }

  lemma {:induction false} AllLoadedMeaning(types: seq<string>, loaders: seq<Loader>, parts: seq<seq<Object>>)
    requires |parts| == |loaders| && forall i :: 0 <= i < |loaders| ==> parts[i] == Loaded(types, loaders[i])
    ensures Concatenated(parts) == AllLoaded(types, loaders)
  {
    if loaders != [] { AllLoadedMeaning(types, loaders[1..], parts[1..]); }
  }

  lemma {:induction false} KeptMeaning(h: Host, where_: Option<Expr>, objs: seq<Object>, kept: seq<Object>)
    ensures Selects(objs, Satisfying(h, where_), kept) <==> kept == Kept(h, where_, objs)
  {
    var satisfies := Satisfying(h, where_);
    FilteredIsSelection(objs, satisfies, kept);
    forall obj ensures Keeps(h, where_)(obj) == satisfies(obj) { SatisfiesIsKeep(h, where_, obj); }
    FilteredSame(Keeps(h, where_), satisfies, objs);
  }

  lemma {:induction false} SatisfiesIsKeep(h: Host, where_: Option<Expr>, obj: Object)
    ensures Keep(h, where_, obj) <==> Satisfies(h, where_, obj)
  {
    if where_.Some? && Evaluate(h, obj, where_.value).Ok? {
      TruthyMeaning(Evaluate(h, obj, where_.value).value);
    }
  }

  lemma {:induction false} CutOffMeaning<T>(all: seq<T>, limit: Option<int>, some: seq<T>)
    ensures CutOff(all, limit, some) <==> some == Limited(all, limit)
  {
  }

  /**
   What iterate yields and nothing else: every loader is asked for exactly the types that are both asked for
   and supported, or not at all; what they give is put together in their order, filtered, and cut off.
   */
  lemma {:induction false} IterationMeaning(
    h: Host, loaders: seq<Loader>, f: EntityFilter, limit: Option<int>, yielded: seq<Object>)
    ensures yielded == Iterated(h, loaders, f, limit) <==>
            exists parts, kept :: YieldedFrom(h, loaders, f, limit, yielded, parts, kept)
  {
    var parts := seq(|loaders|, i requires 0 <= i < |loaders| => Loaded(f.types, loaders[i]));
    forall i, objs | 0 <= i < |loaders| ensures Contributes(loaders[i], f.types, objs) <==> objs == parts[i] {
      LoadedMeaning(f.types, loaders[i], objs);
    }
    AllLoadedMeaning(f.types, loaders, parts);
    var all := AllLoaded(f.types, loaders);
    forall kept ensures Selects(all, Satisfying(h, f.whereClause), kept) <==>
                        kept == Kept(h, f.whereClause, all) {
      KeptMeaning(h, f.whereClause, all, kept);
    }
    CutOffMeaning(Kept(h, f.whereClause, all), limit, yielded);
    if yielded == Iterated(h, loaders, f, limit) {
      assert YieldedFrom(h, loaders, f, limit, yielded, parts, Kept(h, f.whereClause, all));
    }
    if parts', kept :| YieldedFrom(h, loaders, f, limit, yielded, parts', kept) {
      assert parts' == parts;
    }
  }

  /** A rule for one type asks each loader that has it for that type, in lower case, and no other loader. */
  lemma {:induction false} OneTypeAsked(h: Host, l: Loader, matchType: string)
    requires matchType != "" && Lower(matchType) != "object"
    ensures Iterated(h, [l], FilterOf(Conditions(Some(matchType), None, None)), None) ==
            if Lower(matchType) in l.supported then l.load([Lower(matchType)]) else []
  {
    var t := Lower(matchType);
    OneLoader(h, l, [t]);
    OneRequested(t, l.supported);
  }

  /** A rule for Object asks a loader that has all types for ten of them. */
  lemma {:induction false} ObjectAsked(h: Host, l: Loader, matchType: string)
    requires Lower(matchType) == "object"
    requires {"catalog", "schema", "table", "view", "function", "volume", "data_product", "data_contract", "domain",
              "glossary_term"} <= l.supported
    ensures Iterated(h, [l], FilterOf(Conditions(Some(matchType), None, None)), None) ==
            l.load(["catalog", "schema", "table", "view", "function", "volume", "data_product", "data_contract",
                    "domain", "glossary_term"])
  {
    AllRequested(ObjectTypes, l.supported);
    OneLoader(h, l, ObjectTypes);
  }

  lemma {:induction false} OneRequested(t: string, supported: set<string>)
    ensures Requested([t], supported) == if t in supported then [t] else []
  {
    assert [t][1..] == [] && Requested([t][1..], supported) == [];
  }

  lemma {:induction false} AllRequested(types: seq<string>, supported: set<string>)
    requires forall t :: t in types ==> t in supported
    ensures Requested(types, supported) == types
  {
    if types != [] { AllRequested(types[1..], supported); }
  }

  lemma {:induction false} OneLoader(h: Host, l: Loader, types: seq<string>)
    ensures Iterated(h, [l], EntityFilter(types, None), None) == Loaded(types, l)
  {
    var all := Loaded(types, l);
    assert [l][1..] == [] && AllLoaded(types, [l][1..]) == [];
    assert AllLoaded(types, [l]) == all;
    AllKept(Keeps(h, None), all);
  }

  lemma {:induction false} AllKept<T>(keep: T -> bool, objs: seq<T>)
    requires forall x :: x in objs ==> keep(x)
    ensures Filtered(keep, objs) == objs
  {
    if objs != [] { AllKept(keep, objs[1..]); }
  }

  // ---------- Limits ----------

  /** A larger limit only adds to the end; no limit gives everything kept. */
  lemma {:induction false} LimitsNest(objs: seq<Object>, small: int, large: int)
    requires 0 < small <= large
    ensures Limited(objs, Some(small)) <= Limited(objs, Some(large)) <= Limited(objs, None)
    ensures |Limited(objs, Some(small))| == if |objs| <= small then |objs| else small
  {
  }

  /** A limit is kept to exactly when it is not negative, or nothing qualifies. */
  lemma {:induction false} LimitKept(objs: seq<Object>, limit: int)
    requires limit != 0
    ensures |Limited(objs, Some(limit))| <= (if limit < 0 then 0 else limit) <==> limit > 0 || objs == []
  {
  }

  // ---------- WHERE clauses ----------

  function And(a: Expr, b: Expr): Expr { BinaryOp(AND, a, b) }

  function Or(a: Expr, b: Expr): Expr { BinaryOp(OR, a, b) }

  function Negated(a: Expr): Expr { UnaryOp(NOT, a) }

  lemma {:induction false} FilteredTwice<T>(both: T -> bool, a: T -> bool, b: T -> bool, objs: seq<T>)
    requires forall obj :: both(obj) <==> a(obj) && b(obj)
    ensures Filtered(both, objs) == Filtered(b, Filtered(a, objs))
  {
    if objs != [] {
      FilteredTwice(both, a, b, objs[1..]);
      FilteredConcat(b, if a(objs[0]) then [objs[0]] else [], Filtered(a, objs[1..]));
      FilteredOne(b, objs[0]);
    }
  }

  /** Filtering by a conjunction is filtering twice, errors included. */
  lemma {:induction false} ConjunctionFiltersTwice(h: Host, a: Expr, b: Expr, objs: seq<Object>)
    ensures Kept(h, Some(And(a, b)), objs) == Kept(h, Some(b), Kept(h, Some(a), objs))
  {
    forall obj ensures Keep(h, Some(And(a, b)), obj) <==>
      Keep(h, Some(a), obj) && Keep(h, Some(b), obj) { KeepAnd(h, a, b, obj); }
    FilteredTwice(Keeps(h, Some(And(a, b))), Keeps(h, Some(a)), Keeps(h, Some(b)), objs);
  }

  lemma {:induction false} KeepAnd(h: Host, a: Expr, b: Expr, obj: Object)
    ensures Keep(h, Some(And(a, b)), obj) <==> Keep(h, Some(a), obj) && Keep(h, Some(b), obj)
  {
  }

  /** A disjunction drops what its left side cannot be evaluated on, whatever its right side says. */
  lemma {:induction false} DisjunctionDropsLeftErrors(h: Host, a: Expr, b: Expr, obj: Object)
    ensures Keep(h, Some(Or(a, b)), obj) <==> Keep(h, Some(a), obj) || (Keep(h, Some(b), obj) && Truth(h, obj, a).Ok?)
  {
  }

  function Fails(h: Host, a: Expr): Object -> bool {
    obj => Truth(h, obj, a).Err?
  }

  /** A clause and its negation share out the entities it can be evaluated on, and both drop the others. */
  lemma {:induction false} NegationSplits(h: Host, a: Expr, objs: seq<Object>)
    ensures Shares(Kept(h, Some(a), objs), Kept(h, Some(Negated(a)), objs), Filtered(Fails(h, a), objs), objs)
  {
    forall obj ensures Truth(h, obj, Negated(a)) == match Truth(h, obj, a) case Ok(b) => Ok(!b) case Err => Err {
      NegatedTruth(h, a, obj);
    }
    SplitThreeWays(Keeps(h, Some(a)), Keeps(h, Some(Negated(a))), Fails(h, a), objs);
  }

  lemma {:induction false} NegatedTruth(h: Host, a: Expr, obj: Object)
    ensures Truth(h, obj, Negated(a)) == match Truth(h, obj, a) case Ok(b) => Ok(!b) case Err => Err
  {
  }

  ghost predicate Shares<T>(a: seq<T>, b: seq<T>, c: seq<T>, whole: seq<T>) {
    multiset(a) + multiset(b) + multiset(c) == multiset(whole)
  }

  lemma {:induction false} SharedOut<T>(first: T, a: seq<T>, b: seq<T>, c: seq<T>, whole: seq<T>)
    requires Shares(a, b, c, whole)
    ensures Shares([first] + a, [] + b, [] + c, [first] + whole)
    ensures Shares([] + a, [first] + b, [] + c, [first] + whole)
    ensures Shares([] + a, [] + b, [first] + c, [first] + whole)
  {
    assert [] + a == a && [] + b == b && [] + c == c;
  }

  lemma {:induction false} SplitThreeWays<T>(a: T -> bool, b: T -> bool, c: T -> bool, objs: seq<T>)
    requires forall obj ::
               (a(obj) && !b(obj) && !c(obj)) || (!a(obj) && b(obj) && !c(obj)) || (!a(obj) && !b(obj) && c(obj))
    ensures Shares(Filtered(a, objs), Filtered(b, objs), Filtered(c, objs), objs)
  {
    if objs != [] {
      SplitThreeWays(a, b, c, objs[1..]);
      assert objs == [objs[0]] + objs[1..];
      SharedOut(objs[0], Filtered(a, objs[1..]), Filtered(b, objs[1..]), Filtered(c, objs[1..]), objs[1..]);
    }
  }
}
