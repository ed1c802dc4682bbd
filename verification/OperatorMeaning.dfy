/** What the evaluator's operators and functions mean, in arithmetic, text and membership, for every value. */
module OperatorMeaning {
  import opened Symbols
  import opened Parsing
  import opened Values
  import opened Evaluation

  // ---------- Equality ----------

  /** v with every number in it as a real: True as 1, False as 0. */
  function Reals(v: Value): Value {
    match v
    case BoolValue(b) => FloatValue(if b then 1.0 else 0.0)
    case IntValue(n) => FloatValue(n as real)
    case ListValue(items) => ListValue(seq(|items|, i requires 0 <= i < |items| => Reals(items[i])))
    case DictValue(fields) => DictValue(map k | k in fields :: Reals(fields[k]))
    case _ => v
  }

  lemma {:induction false} ListReals(xs: seq<Value>, ys: seq<Value>)
    ensures Reals(ListValue(xs)) == Reals(ListValue(ys)) <==>
            |xs| == |ys| && forall i :: 0 <= i < |xs| ==> Reals(xs[i]) == Reals(ys[i])
  {
    var s, t := Reals(ListValue(xs)).items, Reals(ListValue(ys)).items;
    assert |s| == |xs| && forall i :: 0 <= i < |s| ==> s[i] == Reals(xs[i]);
    assert |t| == |ys| && forall i :: 0 <= i < |t| ==> t[i] == Reals(ys[i]);
  }

  lemma {:induction false} DictReals(m: map<string, Value>, n: map<string, Value>)
    ensures Reals(DictValue(m)) == Reals(DictValue(n)) <==>
            m.Keys == n.Keys && forall k :: k in m ==> Reals(m[k]) == Reals(n[k])
  {
    var s, t := Reals(DictValue(m)).fields, Reals(DictValue(n)).fields;
    assert s.Keys == m.Keys && forall k :: k in m ==> s[k] == Reals(m[k]);
    assert t.Keys == n.Keys && forall k :: k in n ==> t[k] == Reals(n[k]);
    if m.Keys == n.Keys && forall k :: k in m ==> Reals(m[k]) == Reals(n[k]) {
      assert forall k :: k in s ==> s[k] == t[k];
    }
  }

  lemma {:induction false} EqualIsSameReals(a: Value, b: Value)
    ensures Equal(a, b) <==> Reals(a) == Reals(b)
  {
    match (a, b)
    case (ListValue(xs), ListValue(ys)) =>
      ListReals(xs, ys);
      forall i | 0 <= i < |xs| && i < |ys| ensures Equal(xs[i], ys[i]) <==> Reals(xs[i]) == Reals(ys[i]) {
        EqualIsSameReals(xs[i], ys[i]);
      }
    case (DictValue(m), DictValue(n)) =>
      DictReals(m, n);
      forall k | k in m && k in n ensures Equal(m[k], n[k]) <==> Reals(m[k]) == Reals(n[k]) {
        EqualIsSameReals(m[k], n[k]);
      }
    case _ =>
  }

  /** The operands have these values. */
  ghost predicate Operands(h: Host, obj: Object, l: Expr, r: Expr, a: Value, b: Value) {
    Evaluate(h, obj, l) == Ok(a) && Evaluate(h, obj, r) == Ok(b)
  }

  /** = asks whether two values are the same once numbers are read as reals, at any depth; != is its opposite. */
  lemma {:induction false} EqualityMeaning(h: Host, obj: Object, l: Expr, r: Expr, a: Value, b: Value)
    requires Operands(h, obj, l, r, a, b)
    ensures Evaluate(h, obj, BinaryOp(EQ, l, r)) == Ok(BoolValue(Reals(a) == Reals(b)))
    ensures Evaluate(h, obj, BinaryOp(NEQ, l, r)) == Ok(BoolValue(Reals(a) != Reals(b)))
  {
    EqualIsSameReals(a, b);
  }

  // ---------- Orderings ----------

  /** s comes before t: up to k they are the same, and there s ends or has the lesser character. */
  ghost predicate BeforeAt(s: string, t: string, k: nat) {
    k <= |s| && k < |t| && s[..k] == t[..k] && (k == |s| || s[k] < t[k])
  }

  ghost predicate Before(s: string, t: string) {
    exists k: nat :: BeforeAt(s, t, k)
  }

  /** Two lists part at k: they are equal up to there, and unequal there unless one of them ends. */
  ghost predicate PartAt(xs: seq<Value>, ys: seq<Value>, k: nat) {
    && k <= |xs| && k <= |ys| && (forall i :: 0 <= i < k ==> Reals(xs[i]) == Reals(ys[i]))
    && (k < |xs| && k < |ys| ==> Reals(xs[k]) != Reals(ys[k]))
  }

  predicate Numeric(v: Value) {
    Reals(v).FloatValue?
  }

  /** Numbers can be compared with numbers, strings with strings, and lists where what they part at can be. */
  ghost predicate Comparable(a: Value, b: Value)
    decreases a
  {
    || (Numeric(a) && Numeric(b))
    || (a.StrValue? && b.StrValue?)
    || (a.ListValue? && b.ListValue?
        && forall k: nat :: PartAt(a.items, b.items, k) && k < |a.items| && k < |b.items| ==>
             Comparable(a.items[k], b.items[k]))
  }

  ghost predicate Lesser(a: Value, b: Value)
    decreases a
  {
    || (Numeric(a) && Numeric(b) && Reals(a).r < Reals(b).r)
    || (a.StrValue? && b.StrValue? && Before(a.s, b.s))
    || (a.ListValue? && b.ListValue?
        && exists k: nat :: PartAt(a.items, b.items, k) && k < |b.items|
             && (k == |a.items| || Lesser(a.items[k], b.items[k])))
  }

  lemma {:induction false} SameHead(s: string, t: string, k: nat)
    requires 0 < k && BeforeAt(s, t, k)
    ensures s[0] == t[0]
  {
    assert s[..k][0] == t[..k][0];
  }

  lemma {:induction false} LessStrings(s: string, t: string)
    ensures OrderStrings(s, t).Less? <==> Before(s, t)
  {
    if s == [] || t == [] || s[0] != t[0] {
      if t != [] && (s == [] || s[0] < t[0]) { assert BeforeAt(s, t, 0); }
      if k: nat :| BeforeAt(s, t, k) {
        if k > 0 { SameHead(s, t, k); }
      }
    } else {
      LessStrings(s[1..], t[1..]);
      if k: nat :| BeforeAt(s[1..], t[1..], k) {
        assert s[..k + 1] == [s[0]] + s[1..][..k] && t[..k + 1] == [t[0]] + t[1..][..k];
        assert BeforeAt(s, t, k + 1);
      }
      if k: nat :| BeforeAt(s, t, k) {
        assert s[1..][..k - 1] == s[..k][1..] && t[1..][..k - 1] == t[..k][1..];
        assert BeforeAt(s[1..], t[1..], k - 1);
      }
    }
  }

  lemma {:induction false} Parts(xs: seq<Value>, ys: seq<Value>) returns (k: nat)
    ensures PartAt(xs, ys, k)
  {
    if xs == [] || ys == [] || Reals(xs[0]) != Reals(ys[0]) {
      k := 0;
    } else {
      k := Parts(xs[1..], ys[1..]);
      PartsLater(xs, ys, k);
      k := k + 1;
    }
  }

  lemma {:induction false} PartsLater(xs: seq<Value>, ys: seq<Value>, k: nat)
    requires xs != [] && ys != [] && Reals(xs[0]) == Reals(ys[0])
    ensures PartAt(xs, ys, k + 1) <==> PartAt(xs[1..], ys[1..], k)
  {
    assert forall i :: 0 < i < |xs| ==> xs[i] == xs[1..][i - 1];
    assert forall i :: 0 < i < |ys| ==> ys[i] == ys[1..][i - 1];
  }

  lemma {:induction false} PartsOnce(xs: seq<Value>, ys: seq<Value>, j: nat, k: nat)
    requires PartAt(xs, ys, j) && PartAt(xs, ys, k)
    ensures j == k
  {
  }

  /** Lists are ordered as the elements they part at, or by which of them ends there. */
  lemma {:induction false} OrderedAtPart(xs: seq<Value>, ys: seq<Value>, k: nat)
    requires PartAt(xs, ys, k)
    ensures OrderLists(xs, ys) ==
            if k == |xs| then Some(if k == |ys| then Same else Less)
            else if k == |ys| then Some(Greater)
            else Order(xs[k], ys[k])
  {
    if k == 0 {
      if xs != [] && ys != [] { EqualIsSameReals(xs[0], ys[0]); }
    } else {
      EqualIsSameReals(xs[0], ys[0]);
      PartsLater(xs, ys, k - 1);
      OrderedAtPart(xs[1..], ys[1..], k - 1);
    }
  }

  lemma {:induction false} OrderMeaning(a: Value, b: Value)
    ensures Order(a, b).Some? <==> Comparable(a, b)
    ensures Order(a, b) == Some(Less) <==> Lesser(a, b)
    decreases a
  {
    match (a, b)
    case (StrValue(s), StrValue(t)) => LessStrings(s, t);
    case (ListValue(xs), ListValue(ys)) => ListOrderMeaning(xs, ys);
    case _ =>
  }

  lemma {:induction false} ListOrderMeaning(xs: seq<Value>, ys: seq<Value>)
    ensures OrderLists(xs, ys).Some? <==> Comparable(ListValue(xs), ListValue(ys))
    ensures OrderLists(xs, ys) == Some(Less) <==> Lesser(ListValue(xs), ListValue(ys))
    decreases xs
  {
    var a, b := ListValue(xs), ListValue(ys);
    var k := Parts(xs, ys);
    OrderedAtPart(xs, ys, k);
    forall j: nat | PartAt(xs, ys, j) ensures j == k { PartsOnce(xs, ys, j, k); }
    assert PartAt(a.items, b.items, k);
    if k < |xs| && k < |ys| { OrderMeaning(xs[k], ys[k]); }
  }

  lemma {:induction false} OrderBothWays(a: Value, b: Value)
    ensures Order(a, b).Some? <==> Comparable(a, b)
    ensures Order(a, b) == Some(Less) <==> Lesser(a, b)
    ensures Order(a, b) == Some(Greater) <==> Lesser(b, a)
  {
    OrderMeaning(a, b);
    OrderMeaning(b, a);
    OrderTrichotomy(a, b);
  }

  /** An ordering operator on values that are ordered as told. */
  lemma {:induction false} ComparedAs(a: Value, b: Value, comparable: bool, less: bool, more: bool)
    requires Order(a, b).Some? <==> comparable
    requires (Order(a, b) == Some(Less) <==> less) && (Order(a, b) == Some(Greater) <==> more)
    ensures a.NoneValue? || b.NoneValue? ==> forall op :: Compared(op, a, b) == Ok(BoolValue(false))
    ensures !a.NoneValue? && !b.NoneValue? && !comparable ==> forall op :: Compared(op, a, b) == Err
    ensures !a.NoneValue? && !b.NoneValue? && comparable ==>
              && Compared(LT, a, b) == Ok(BoolValue(less)) && Compared(GT, a, b) == Ok(BoolValue(more))
              && Compared(LTE, a, b) == Ok(BoolValue(!more)) && Compared(GTE, a, b) == Ok(BoolValue(!less))
  {
  }

  lemma {:induction false} OrderingIsCompared(h: Host, obj: Object, op: TokenType, l: Expr, r: Expr, a: Value, b: Value)
    requires Operands(h, obj, l, r, a, b) && (op.LT? || op.GT? || op.LTE? || op.GTE?)
    ensures Evaluate(h, obj, BinaryOp(op, l, r)) == Compared(op, a, b)
  {
  }

  /**
   The four orderings of any two values: all false if one of them is None, all errors if the two cannot be
   compared, and otherwise what Lesser says, one way round or the other.
   */
  lemma {:induction false} OrderingsMeaning(h: Host, obj: Object, l: Expr, r: Expr, a: Value, b: Value)
    requires Operands(h, obj, l, r, a, b)
    ensures var less, more := Evaluate(h, obj, BinaryOp(LT, l, r)), Evaluate(h, obj, BinaryOp(GT, l, r));
            var atMost, atLeast := Evaluate(h, obj, BinaryOp(LTE, l, r)), Evaluate(h, obj, BinaryOp(GTE, l, r));
            if a.NoneValue? || b.NoneValue? then less == more == atMost == atLeast == Ok(BoolValue(false))
            else if !Comparable(a, b) then less == more == atMost == atLeast == Err
            else
              && less == Ok(BoolValue(Lesser(a, b))) && more == Ok(BoolValue(Lesser(b, a)))
              && atMost == Ok(BoolValue(!Lesser(b, a))) && atLeast == Ok(BoolValue(!Lesser(a, b)))
  {
    OrderBothWays(a, b);
    ComparedAs(a, b, Comparable(a, b), Lesser(a, b), Lesser(b, a));
    OrderingIsCompared(h, obj, LT, l, r, a, b);
    OrderingIsCompared(h, obj, GT, l, r, a, b);
    OrderingIsCompared(h, obj, LTE, l, r, a, b);
    OrderingIsCompared(h, obj, GTE, l, r, a, b);
  }

  /** Numbers are compared as reals, whatever their types. */
  lemma {:induction false} NumbersCompared(h: Host, obj: Object, l: Expr, r: Expr, a: Value, b: Value)
    requires Operands(h, obj, l, r, a, b) && Numeric(a) && Numeric(b)
    ensures var x, y := Reals(a).r, Reals(b).r;
            && Evaluate(h, obj, BinaryOp(EQ, l, r)) == Ok(BoolValue(x == y))
            && Evaluate(h, obj, BinaryOp(NEQ, l, r)) == Ok(BoolValue(x != y))
            && Evaluate(h, obj, BinaryOp(LT, l, r)) == Ok(BoolValue(x < y))
            && Evaluate(h, obj, BinaryOp(GT, l, r)) == Ok(BoolValue(x > y))
            && Evaluate(h, obj, BinaryOp(LTE, l, r)) == Ok(BoolValue(x <= y))
            && Evaluate(h, obj, BinaryOp(GTE, l, r)) == Ok(BoolValue(x >= y))
  {
    EqualityMeaning(h, obj, l, r, a, b);
    OrderingsMeaning(h, obj, l, r, a, b);
  }

  // ---------- Truth ----------

  /** The values that count as false. */
  predicate Falsy(v: Value) {
    v == NoneValue || v == BoolValue(false) || v == IntValue(0) || v == FloatValue(0.0) || v == StrValue("")
    || v == ListValue([]) || v == DictValue(map[])
  }

  lemma {:induction false} TruthyMeaning(v: Value)
    ensures Truthy(v) <==> !Falsy(v)
  {
    if v.DictValue? && v.fields.Keys == {} { assert v.fields == map[]; }
  }

  /** NOT of a value, and what AND and OR give back: one of their operands, the right one only if it is needed. */
  lemma {:induction false} ConnectivesMeaning(h: Host, obj: Object, l: Expr, r: Expr, a: Value)
    requires Evaluate(h, obj, l) == Ok(a)
    ensures Evaluate(h, obj, UnaryOp(NOT, l)) == Ok(BoolValue(Falsy(a)))
    ensures Evaluate(h, obj, BinaryOp(AND, l, r)) == if Falsy(a) then Ok(a) else Evaluate(h, obj, r)
    ensures Evaluate(h, obj, BinaryOp(OR, l, r)) == if Falsy(a) then Evaluate(h, obj, r) else Ok(a)
  {
    TruthyMeaning(a);
  }

  /** An operator fails if its left operand does, and unless it is AND or OR if its right one does. */
  lemma {:induction false} OperandsFail(h: Host, obj: Object, op: TokenType, l: Expr, r: Expr)
    ensures Evaluate(h, obj, l).Err? ==>
              Evaluate(h, obj, BinaryOp(op, l, r)).Err? && Evaluate(h, obj, UnaryOp(op, l)).Err?
    ensures Evaluate(h, obj, r).Err? && !op.AND? && !op.OR? ==> Evaluate(h, obj, BinaryOp(op, l, r)).Err?
  {
  }

  // ---------- CASE ----------

  /** Whether a clause is taken: by a subject equal to its condition, or by its condition alone. */
  ghost predicate Takes(subject: Option<Value>, condition: Value) {
    match subject case Some(v) => Reals(v) == Reals(condition) case None => !Falsy(condition)
  }

  /** The first k clauses can be evaluated and are not taken. */
  ghost predicate PassedOver(h: Host, obj: Object, subject: Option<Value>, ws: seq<When>, k: nat) {
    k <= |ws| && forall i :: 0 <= i < k ==>
      var c := Evaluate(h, obj, ws[i].condition); c.Ok? && !Takes(subject, c.value)
  }

  lemma {:induction false} WhensMeaning(h: Host, obj: Object, subject: Option<Value>, ws: seq<When>, k: nat)
    requires PassedOver(h, obj, subject, ws, k)
    ensures k == |ws| ==> EvaluateWhens(h, obj, subject, ws) == Ok(None)
    ensures k < |ws| && Evaluate(h, obj, ws[k].condition).Err? ==> EvaluateWhens(h, obj, subject, ws).Err?
    ensures k < |ws| && Evaluate(h, obj, ws[k].condition).Ok? && Takes(subject, Evaluate(h, obj, ws[k].condition).value)
            ==> EvaluateWhens(h, obj, subject, ws) == AsSome(Evaluate(h, obj, ws[k].result))
  {
    if ws != [] {
      TakenMeaning(h, obj, subject, ws[0]);
      if k > 0 {
        assert PassedOver(h, obj, subject, ws[1..], k - 1) by {
          assert forall i :: 0 <= i < k - 1 ==> ws[1..][i] == ws[i + 1];
        }
        WhensMeaning(h, obj, subject, ws[1..], k - 1);
      }
    }
  }

  lemma {:induction false} TakenMeaning(h: Host, obj: Object, subject: Option<Value>, w: When)
    ensures Taken(h, obj, subject, w) ==
            match Evaluate(h, obj, w.condition) case Err => Err case Ok(c) => Ok(Takes(subject, c))
  {
    var c := Evaluate(h, obj, w.condition);
    if c.Ok? {
      TruthyMeaning(c.value);
      if subject.Some? { EqualIsSameReals(subject.value, c.value); }
    }
  }

  /**
   A CASE whose first k clauses are passed over: the k-th clause decides if its condition fails or takes it,
   and if there is no other clause, ELSE, or None without one.
   */
  lemma {:induction false} CaseMeaning(
    h: Host, obj: Object, s: Option<Expr>, subject: Option<Value>, ws: seq<When>, otherwise: Option<Expr>, k: nat)
    requires s.Some? <==> subject.Some?
    requires s.Some? ==> Evaluate(h, obj, s.value) == Ok(subject.value)
    requires PassedOver(h, obj, subject, ws, k)
    ensures var whole := Evaluate(h, obj, CaseExpression(s, ws, otherwise));
            if k == |ws| then
              whole == match otherwise case Some(o) => Evaluate(h, obj, o) case None => Ok(NoneValue)
            else
              var c := Evaluate(h, obj, ws[k].condition);
              (c.Err? ==> whole.Err?) && (c.Ok? && Takes(subject, c.value) ==> whole == Evaluate(h, obj, ws[k].result))
  {
    WhensMeaning(h, obj, subject, ws, k);
    CaseOfWhens(h, obj, s, subject, ws, otherwise);
  }

  lemma {:induction false} CaseOfWhens(
    h: Host, obj: Object, s: Option<Expr>, subject: Option<Value>, ws: seq<When>, otherwise: Option<Expr>)
    requires s.Some? <==> subject.Some?
    requires s.Some? ==> Evaluate(h, obj, s.value) == Ok(subject.value)
    ensures Evaluate(h, obj, CaseExpression(s, ws, otherwise)) ==
            match EvaluateWhens(h, obj, subject, ws)
            case Err => Err
            case Ok(Some(v)) => Ok(v)
            case Ok(None) => match otherwise case Some(o) => Evaluate(h, obj, o) case None => Ok(NoneValue)
  {
  }

  // ---------- Membership ----------

  ghost predicate Among(v: Value, items: seq<Value>) {
    exists x :: x in items && Reals(x) == Reals(v)
  }

  /** s stands somewhere in t. */
  ghost predicate Inside(s: string, t: string) {
    exists before, after :: t == before + s + after
  }

  lemma {:induction false} SubstringMeaning(s: string, t: string)
    ensures Substring(s, t) <==> Inside(s, t)
  {
    if i :| 0 <= i <= |t| && s <= t[i..] {
      assert t == t[..i] + s + t[i..][|s|..];
    }
    if before, after :| t == before + s + after {
      assert t[|before|..] == s + after;
    }
  }

  lemma {:induction false} MemberMeaning(v: Value, items: seq<Value>)
    ensures Member(v, ListValue(items)) == Some(Among(v, items))
  {
    forall i | 0 <= i < |items| ensures Equal(v, items[i]) <==> Reals(items[i]) == Reals(v) {
      EqualIsSameReals(v, items[i]);
    }
  }

  /** What `v in container` gives; nothing if it raises. */
  ghost function Contained(v: Value, container: Value): Result<Value> {
    match container
    case ListValue(items) => Ok(BoolValue(Among(v, items)))
    case DictValue(fields) =>
      if v.ListValue? || v.DictValue? then Err else Ok(BoolValue(exists k :: k in fields && v == StrValue(k)))
    case StrValue(t) => if v.StrValue? then Ok(BoolValue(Inside(v.s, t))) else Err
    case _ => Err
  }

  lemma {:induction false} MemberIsContained(v: Value, container: Value)
    ensures Bool(Member(v, container)) == Contained(v, container)
  {
    match container
    case ListValue(items) => MemberMeaning(v, items);
    case StrValue(t) => if v.StrValue? { SubstringMeaning(v.s, t); }
    case _ =>
  }

  /** IN is membership in a list; on its right only a list will do. */
  lemma {:induction false} InMeaning(h: Host, obj: Object, l: Expr, r: Expr, a: Value, b: Value)
    requires Operands(h, obj, l, r, a, b)
    ensures Evaluate(h, obj, BinaryOp(IN, l, r)) ==
            if b.ListValue? then Ok(BoolValue(Among(a, b.items))) else Err
  {
    MemberIsContained(a, b);
  }

  /** The text of a value. */
  function TextOf(h: Host, v: Value): string {
    match v case StrValue(s) => s case _ => h.repr(v)
  }

  /**
   CONTAINS asks whether the left operand holds the right one: as an element, as a key, or as a part of its
   text; None holds nothing.
   */
  lemma {:induction false} ContainsMeaning(h: Host, obj: Object, l: Expr, r: Expr, a: Value, b: Value)
    requires Operands(h, obj, l, r, a, b)
    ensures Evaluate(h, obj, BinaryOp(CONTAINS, l, r)) ==
            match a
            case NoneValue => Ok(BoolValue(false))
            case ListValue(_) => Contained(b, a)
            case DictValue(_) => Contained(b, a)
            case _ => Ok(BoolValue(Inside(TextOf(h, b), TextOf(h, a))))
  {
    MemberIsContained(b, a);
    SubstringMeaning(TextOf(h, b), TextOf(h, a));
  }

  /** MATCHES takes its pattern from the right and the text from the left; None matches nothing. */
  lemma {:induction false} MatchesMeaning(h: Host, obj: Object, l: Expr, r: Expr, a: Value, b: Value)
    requires Operands(h, obj, l, r, a, b)
    ensures Evaluate(h, obj, BinaryOp(MATCHES, l, r)) ==
            if a == NoneValue then Ok(BoolValue(false))
            else
              var pattern, text := TextOf(h, b), TextOf(h, a);
              match h.matches(pattern, text) case Some(matched) => Ok(BoolValue(matched)) case None => Err
  {
  }

  // ---------- Functions ----------

  function Call(name: TokenType, x: Expr): Expr {
    FunctionCall(name, [x])
  }

  /** Functions take one argument, and fail if it does. */
  lemma {:induction false} CallsFail(h: Host, obj: Object, name: TokenType, args: seq<Expr>)
    requires |args| != 1 || Evaluate(h, obj, args[0]).Err?
    ensures Evaluate(h, obj, FunctionCall(name, args)).Err?
  {
  }

  /** HAS_TAG is membership in the tags of the object, of which there are none if it has no such property. */
  lemma {:induction false} HasTagMeaning(h: Host, obj: Object, x: Expr, v: Value)
    requires Evaluate(h, obj, x) == Ok(v)
    ensures Evaluate(h, obj, Call(HAS_TAG, x)) ==
            Contained(v, if "tags" in obj then obj["tags"] else DictValue(map[]))
  {
    MemberIsContained(v, Tags(obj));
  }

  /** TAG gives the tag's value, None if there is no such tag; tags must be a dictionary. */
  lemma {:induction false} TagMeaning(h: Host, obj: Object, x: Expr, v: Value)
    requires Evaluate(h, obj, x) == Ok(v)
    ensures var whole := Evaluate(h, obj, Call(TAG, x));
            if ("tags" in obj && !obj["tags"].DictValue?) || v.ListValue? || v.DictValue? then whole.Err?
            else if "tags" in obj && v.StrValue? && v.s in obj["tags"].fields then whole == Ok(obj["tags"].fields[v.s])
            else whole == Ok(NoneValue)
  {
  }

  /** A tag that TAG gives a value is one that HAS_TAG finds. */
  lemma {:induction false} TagsFound(h: Host, obj: Object, x: Expr)
    requires Evaluate(h, obj, Call(TAG, x)).Ok? && Evaluate(h, obj, Call(TAG, x)).value != NoneValue
    ensures Evaluate(h, obj, Call(HAS_TAG, x)) == Ok(BoolValue(true))
  {
    var v := Evaluate(h, obj, x).value;
    TagMeaning(h, obj, x, v);
    HasTagMeaning(h, obj, x, v);
  }

  /** LENGTH counts characters, elements or keys; of false values it is 0, and other numbers have none. */
  lemma {:induction false} LengthMeaning(h: Host, obj: Object, x: Expr, v: Value)
    requires Evaluate(h, obj, x) == Ok(v)
    ensures Evaluate(h, obj, Call(LENGTH, x)) ==
            match v
            case StrValue(s) => Ok(IntValue(|s|))
            case ListValue(items) => Ok(IntValue(|items|))
            case DictValue(fields) => Ok(IntValue(|fields.Keys|))
            case _ => if Falsy(v) then Ok(IntValue(0)) else Err
  {
    TruthyMeaning(v);
    if v.DictValue? { assert |v.fields| == |v.fields.Keys|; }
  }

  /** t is s with the letters from first to last replaced by those at the same places of the other alphabet. */
  ghost predicate Recased(s: string, t: string, first: char, last: char, other: char) {
    && |t| == |s|
    && forall i :: 0 <= i < |s| ==>
         if first <= s[i] <= last then t[i] as int - other as int == s[i] as int - first as int else t[i] == s[i]
  }

  /** UPPER and LOWER of a value's text; false values have none. */
  lemma {:induction false} CasesMeaning(h: Host, obj: Object, x: Expr, v: Value)
    requires Evaluate(h, obj, x) == Ok(v)
    ensures var upper, lower := Evaluate(h, obj, Call(UPPER, x)), Evaluate(h, obj, Call(LOWER, x));
            && upper.Ok? && upper.value.StrValue? && lower.Ok? && lower.value.StrValue?
            && var text := if Falsy(v) then "" else TextOf(h, v);
               Recased(text, upper.value.s, 'a', 'z', 'A') && Recased(text, lower.value.s, 'A', 'Z', 'a')
  {
    TruthyMeaning(v);
  }

  lemma {:induction false} CaseCalls(h: Host, obj: Object, x: Expr)
    ensures Evaluate(h, obj, x).Err? ==> Evaluate(h, obj, Call(UPPER, x)).Err? && Evaluate(h, obj, Call(LOWER, x)).Err?
    ensures Evaluate(h, obj, x).Ok? ==>
              var v := Evaluate(h, obj, x).value;
              && Evaluate(h, obj, Call(UPPER, x)) == Ok(StrValue(if Truthy(v) then Upper(StrOf(h, v)) else ""))
              && Evaluate(h, obj, Call(LOWER, x)) == Ok(StrValue(if Truthy(v) then Lower(StrOf(h, v)) else ""))
  {
  }

  lemma {:induction false} RecasedBack(s: string)
    ensures Upper(Lower(s)) == Upper(s) && Lower(Upper(s)) == Lower(s)
  {
  }

  /** Case can be changed there and back: UPPER(LOWER(x)) is UPPER(x), values and errors alike. */
  lemma {:induction false} CasesUndone(h: Host, obj: Object, x: Expr)
    ensures Evaluate(h, obj, Call(UPPER, Call(LOWER, x))) == Evaluate(h, obj, Call(UPPER, x))
    ensures Evaluate(h, obj, Call(LOWER, Call(UPPER, x))) == Evaluate(h, obj, Call(LOWER, x))
  {
    CaseCalls(h, obj, x);
    CaseCalls(h, obj, Call(LOWER, x));
    CaseCalls(h, obj, Call(UPPER, x));
    if Evaluate(h, obj, x).Ok? {
      var text := StrOf(h, Evaluate(h, obj, x).value);
      RecasedBack(text);
      assert Upper("") == "" && Lower("") == "";
      if Lower(text) == "" || Upper(text) == "" { assert text == ""; }
    }
  }

  // ---------- Literals and properties ----------

  /** A whole number, a string and a property of the object, which is None if the object lacks it. */
  lemma {:induction false} LeavesMean(h: Host, obj: Object, n: nat, s: string, variable: string, p: string)
    ensures Evaluate(h, obj, Literal(IntLit(n))) == Ok(IntValue(n))
    ensures Evaluate(h, obj, Literal(StrLit(s))) == Ok(StrValue(s))
    ensures Evaluate(h, obj, PropertyAccess(variable, p)) == Ok(if p in obj then obj[p] else NoneValue)
  {
  }

  /** A decimal is its digits, divided by ten once for every digit after the point. */
  lemma {:induction false} DecimalsMean(h: Host, obj: Object, m: nat, scale: nat)
    ensures Evaluate(h, obj, Literal(DecLit(m, 0))) == Ok(FloatValue(m as real))
    ensures var x := Evaluate(h, obj, Literal(DecLit(m, scale)));
            var y := Evaluate(h, obj, Literal(DecLit(m, scale + 1)));
            x.Ok? && x.value.FloatValue? && y == Ok(FloatValue(x.value.r / 10.0))
  {
    assert Pow10(scale + 1) as real == 10.0 * (Pow10(scale) as real);
    TenthOf(m as real, Pow10(scale) as real);
  }

  lemma {:induction false} TenthOf(x: real, t: real)
    requires t > 0.0
    ensures x / (10.0 * t) == (x / t) / 10.0
  {
    var q, r := x / t, x / (10.0 * t);
    assert q * t == x && r * (10.0 * t) == x;
    Regrouped(r, t);
    SameFactor(10.0 * r, q, t);
  }

  lemma {:induction false} Regrouped(r: real, t: real)
    ensures r * (10.0 * t) == (10.0 * r) * t
  {
  }

  lemma {:induction false} SameFactor(a: real, b: real, t: real)
    requires t > 0.0 && a * t == b * t
    ensures a == b
  {
    if a < b { LessScaled(a, b, t); }
    if b < a { LessScaled(b, a, t); }
  }

  lemma {:induction false} LessScaled(a: real, b: real, t: real)
    requires a < b && t > 0.0
    ensures a * t < b * t
  {
    assert (b - a) * t > 0.0;
  }
}
