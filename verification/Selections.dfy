/**
 Picking out of a list the elements of which something holds, in their order: as a
 function, and by the positions picked, which says the same.
 */
module Selections {
  import opened Symbols

  function Filtered<T>(keep: T -> bool, objs: seq<T>): seq<T> {
    if objs == [] then [] else (if keep(objs[0]) then [objs[0]] else []) + Filtered(keep, objs[1..])
  }

  lemma {:induction false} FilteredConcat<T>(keep: T -> bool, a: seq<T>, b: seq<T>)
    ensures Filtered(keep, a + b) == Filtered(keep, a) + Filtered(keep, b)
  {
    if a == [] {
      assert a + b == b;
    } else {
      assert (a + b)[0] == a[0] && (a + b)[1..] == a[1..] + b;
      FilteredConcat(keep, a[1..], b);
      Associates(if keep(a[0]) then [a[0]] else [], Filtered(keep, a[1..]), Filtered(keep, b));
    }
  }

  lemma {:induction false} FilteredOne<T>(keep: T -> bool, obj: T)
    ensures Filtered(keep, [obj]) == if keep(obj) then [obj] else []
  {
    assert [obj][1..] == [];
  }

  ghost predicate Increasing(s: seq<nat>) {
    forall i, j :: 0 <= i < j < |s| ==> s[i] < s[j]
  }

  /** At these positions, and at no others, keep holds; there the picked elements stand. */
  ghost predicate SelectsAt<T>(whole: seq<T>, keep: T -> bool, picked: seq<T>, at: seq<nat>) {
    && |at| == |picked| && Increasing(at)
    && (forall i :: 0 <= i < |at| ==> at[i] < |whole| && picked[i] == whole[at[i]])
    && (forall p: nat :: p in at <==> p < |whole| && keep(whole[p]))
  }

  ghost predicate Selects<T>(whole: seq<T>, keep: T -> bool, picked: seq<T>) {
    exists at :: SelectsAt(whole, keep, picked, at)
  }

  lemma {:induction false} SelectsMore<T>(whole: seq<T>, keep: T -> bool, picked: seq<T>, at: seq<nat>, x: T)
    requires SelectsAt(whole, keep, picked, at)
    ensures keep(x) ==> SelectsAt(whole + [x], keep, picked + [x], at + [|whole|])
    ensures !keep(x) ==> SelectsAt(whole + [x], keep, picked, at)
  {
    forall i | 0 <= i < |at| ensures at[i] < |whole| { assert at[i] in at; }
    forall p: nat ensures p in at + [|whole|] <==> p in at || p == |whole| {}
  }

  lemma {:induction false} FilteredSelects<T>(keep: T -> bool, whole: seq<T>) returns (at: seq<nat>)
    ensures SelectsAt(whole, keep, Filtered(keep, whole), at)
  {
    if whole == [] {
      at := [];
    } else {
      var init, last := whole[..|whole| - 1], whole[|whole| - 1];
      assert whole == init + [last];
      at := FilteredSelects(keep, init);
      FilteredConcat(keep, init, [last]);
      FilteredOne(keep, last);
      SelectsMore(init, keep, Filtered(keep, init), at, last);
      assert Filtered(keep, init) + [] == Filtered(keep, init);
      at := if keep(last) then at + [|init|] else at;
    }
  }

  lemma {:induction false} InInit(a: seq<nat>, p: nat)
    requires Increasing(a) && a != []
    ensures p in a[..|a| - 1] <==> p in a && p != a[|a| - 1]
  {
  }

  lemma {:induction false} IncreasingUnique(a: seq<nat>, b: seq<nat>)
    requires Increasing(a) && Increasing(b) && forall p :: p in a <==> p in b
    ensures a == b
  {
    if a + b != [] {
      assert (a + b)[0] in a && (a + b)[0] in b;
      var a', b' := a[..|a| - 1], b[..|b| - 1];
      assert a[|a| - 1] in b && b[|b| - 1] in a;
      forall p ensures p in a' <==> p in b' {
        InInit(a, p);
        InInit(b, p);
      }
      IncreasingUnique(a', b');
    }
  }

  /** There is one way of picking what a condition holds of. */
  lemma {:induction false} FilteredIsSelection<T>(whole: seq<T>, keep: T -> bool, picked: seq<T>)
    ensures Selects(whole, keep, picked) <==> picked == Filtered(keep, whole)
  {
    var at := FilteredSelects(keep, whole);
    if other :| SelectsAt(whole, keep, picked, other) {
      IncreasingUnique(at, other);
    }
  }

  lemma {:induction false} FilteredSame<T>(a: T -> bool, b: T -> bool, objs: seq<T>)
    requires forall x :: x in objs ==> a(x) == b(x)
    ensures Filtered(a, objs) == Filtered(b, objs)
  {
    if objs != [] {
      assert objs[0] in objs && forall x :: x in objs[1..] ==> x in objs;
      FilteredSame(a, b, objs[1..]);
    }
  }
}
