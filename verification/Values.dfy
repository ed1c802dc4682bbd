/**
 The values rules compute with, as Python compares, orders, searches and tests
 them. Dictionaries have string keys; floats are exact reals.
 */
module Values {
  import opened Symbols

  datatype Value =
    | NoneValue
    | BoolValue(b: bool)
    | IntValue(n: int)
    | FloatValue(r: real)
    | StrValue(s: string)
    | ListValue(items: seq<Value>)
    | DictValue(fields: map<string, Value>)

  /** bool(v) */
  predicate Truthy(v: Value) {
    match v
    case NoneValue => false
    case BoolValue(b) => b
    case IntValue(n) => n != 0
    case FloatValue(r) => r != 0.0
    case StrValue(s) => s != []
    case ListValue(items) => items != []
    case DictValue(fields) => fields.Keys != {}
  }

  predicate IsNumber(v: Value) {
    v.BoolValue? || v.IntValue? || v.FloatValue?
  }

  /** Booleans count as 0 and 1. */
  function Number(v: Value): real
    requires IsNumber(v)
  {
    match v
    case BoolValue(b) => if b then 1.0 else 0.0
    case IntValue(n) => n as real
    case FloatValue(r) => r
  }

  /** a == b */
  predicate Equal(a: Value, b: Value) {
    if IsNumber(a) && IsNumber(b) then Number(a) == Number(b)
    else
      match (a, b)
      case (NoneValue, NoneValue) => true
      case (StrValue(s), StrValue(t)) => s == t
      case (ListValue(xs), ListValue(ys)) => |xs| == |ys| && forall i :: 0 <= i < |xs| ==> Equal(xs[i], ys[i])
      case (DictValue(m), DictValue(n)) => m.Keys == n.Keys && forall k :: k in m ==> Equal(m[k], n[k])
      case _ => false
  }

  datatype Ordering = Less | Same | Greater

  function OrderStrings(s: string, t: string): Ordering {
    if s == [] then (if t == [] then Same else Less)
    else if t == [] then Greater
    else if s[0] < t[0] then Less
    else if s[0] > t[0] then Greater
    else OrderStrings(s[1..], t[1..])
  }

  /** How a and b are ordered; None where comparing them raises TypeError. */
  function Order(a: Value, b: Value): Option<Ordering>
    decreases a, 1
  {
    if IsNumber(a) && IsNumber(b) then
      Some(if Number(a) < Number(b) then Less else if Number(a) > Number(b) then Greater else Same)
    else
      match (a, b)
      case (StrValue(s), StrValue(t)) => Some(OrderStrings(s, t))
      case (ListValue(xs), ListValue(ys)) => OrderLists(xs, ys)
      case _ => None
  }

  /** Lists are ordered by their first unequal elements, then by length. */
  function OrderLists(xs: seq<Value>, ys: seq<Value>): Option<Ordering>
    decreases xs, 0
  {
    if xs == [] then Some(if ys == [] then Same else Less)
    else if ys == [] then Some(Greater)
    else if Equal(xs[0], ys[0]) then OrderLists(xs[1..], ys[1..])
    else Order(xs[0], ys[0])
  }

  /** needle in hay, for strings */
  predicate Substring(needle: string, hay: string)
    ensures Substring(needle, hay) <==> exists i :: 0 <= i <= |hay| && needle <= hay[i..]
  {
    assert hay[0..] == hay;
    assert forall i {:trigger hay[i..]} :: 1 <= i <= |hay| ==> hay[i..] == hay[1..][i - 1..];
    assert forall i {:trigger hay[1..][i..]} :: hay != [] && 0 <= i <= |hay[1..]| ==> hay[1..][i..] == hay[i + 1..];
    needle <= hay || (hay != [] && Substring(needle, hay[1..]))
  }

  /** key in container; None where that raises. */
  function Member(key: Value, container: Value): Option<bool> {
    match container
    case DictValue(fields) =>
      if key.ListValue? || key.DictValue? then None
      else Some(key.StrValue? && key.s in fields)
    case ListValue(items) => Some(exists i :: 0 <= i < |items| && Equal(key, items[i]))
    case StrValue(s) => if key.StrValue? then Some(Substring(key.s, s)) else None
    case _ => None
  }

  /** len(v) */
  function Length(v: Value): Option<nat> {
    match v
    case StrValue(s) => Some(|s|)
    case ListValue(items) => Some(|items|)
    case DictValue(fields) => Some(|fields|)
    case _ => None
  }

  // ---------- Laws ----------

  lemma {:induction false} EqualReflexive(a: Value)
    ensures Equal(a, a)
  {
    match a
    case ListValue(xs) => forall i | 0 <= i < |xs| { EqualReflexive(xs[i]); }
    case DictValue(m) => forall k | k in m ensures Equal(m[k], m[k]) { EqualReflexive(m[k]); }
    case _ =>
  }

  lemma {:induction false} EqualSymmetric(a: Value, b: Value)
    requires Equal(a, b)
    ensures Equal(b, a)
  {
    match (a, b)
    case (ListValue(xs), ListValue(ys)) => forall i | 0 <= i < |xs|
      ensures Equal(ys[i], xs[i]) { EqualSymmetric(xs[i], ys[i]); }
    case (DictValue(m), DictValue(n)) => forall k | k in n ensures Equal(n[k], m[k]) { EqualSymmetric(m[k], n[k]); }
    case _ =>
  }

  lemma {:induction false} EqualTransitive(a: Value, b: Value, c: Value)
    requires Equal(a, b) && Equal(b, c)
    ensures Equal(a, c)
  {
    match (a, b, c)
    case (ListValue(xs), ListValue(ys), ListValue(zs)) =>
      forall i | 0 <= i < |xs| ensures Equal(xs[i], zs[i]) { EqualTransitive(xs[i], ys[i], zs[i]); }
    case (DictValue(m), DictValue(n), DictValue(p)) =>
      forall k | k in m ensures Equal(m[k], p[k]) { EqualTransitive(m[k], n[k], p[k]); }
    case _ =>
  }

  function Flip(o: Ordering): Ordering {
    match o case Less => Greater case Same => Same case Greater => Less
  }

  function FlipResult(o: Option<Ordering>): Option<Ordering> {
    match o case None => None case Some(x) => Some(Flip(x))
  }

  lemma {:induction false} OrderStringsFlips(s: string, t: string)
    ensures OrderStrings(t, s) == Flip(OrderStrings(s, t)) && (OrderStrings(s, t).Same? <==> s == t)
  {
    if s != [] && t != [] && s[0] == t[0] {
      OrderStringsFlips(s[1..], t[1..]);
      assert s == [s[0]] + s[1..] && t == [t[0]] + t[1..];
    }
  }

  /** Ordering is a trichotomy where it is defined: swapping the operands flips it, and Same means equal. */
  lemma {:induction false} OrderTrichotomy(a: Value, b: Value)
    ensures Order(b, a) == FlipResult(Order(a, b))
    ensures Order(a, b).Some? ==> (Order(a, b).value.Same? <==> Equal(a, b))
    decreases a, 1
  {
    match (a, b)
    case (StrValue(s), StrValue(t)) => OrderStringsFlips(s, t);
    case (ListValue(xs), ListValue(ys)) => OrderListsTrichotomy(xs, ys);
    case _ =>
  }

  lemma {:induction false} OrderListsTrichotomy(xs: seq<Value>, ys: seq<Value>)
    ensures OrderLists(ys, xs) == FlipResult(OrderLists(xs, ys))
    ensures OrderLists(xs, ys).Some? ==> (OrderLists(xs, ys).value.Same? <==> Equal(ListValue(xs), ListValue(ys)))
    decreases xs, 0
  {
    if xs != [] && ys != [] {
      if Equal(xs[0], ys[0]) {
        EqualSymmetric(xs[0], ys[0]);
        OrderListsTrichotomy(xs[1..], ys[1..]);
        assert Equal(ListValue(xs[1..]), ListValue(ys[1..])) <==> Equal(ListValue(xs), ListValue(ys)) by {
          assert forall i :: 0 < i < |xs| ==> xs[i] == xs[1..][i - 1];
          assert forall i :: 0 < i < |ys| ==> ys[i] == ys[1..][i - 1];
        }
      } else {
        if Equal(ys[0], xs[0]) { EqualSymmetric(ys[0], xs[0]); }
        OrderTrichotomy(xs[0], ys[0]);
      }
    }
  }
}
