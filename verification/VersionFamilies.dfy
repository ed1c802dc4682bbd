/**
 What a collapsed list of versions shows, stated without the loop that makes it:
 which row stands for each family, the version counts beside the rows, what wider
 access adds, and what becomes of rows that belong to no family.
 */
module VersionFamilies {
  import opened Symbols
  import opened Selections
  import opened VersionVisibility

  // ---------- What the collapse shows ----------

  /** The row at p opens its family: no earlier visible row belongs to it. */
  ghost predicate Opens(access: Access, rows: seq<Row>, p: nat) {
    && p < |rows| && Visible(access, rows[p])
    && forall q :: 0 <= q < p && KeyOf(rows[q]) == KeyOf(rows[p]) ==> !Visible(access, rows[q])
  }

  /** The row at p is the best visible one of its family, and the earliest of the best. */
  ghost predicate Best(access: Access, rows: seq<Row>, p: nat) {
    && p < |rows| && Visible(access, rows[p])
    && forall q :: 0 <= q < |rows| && KeyOf(rows[q]) == KeyOf(rows[p]) && Visible(access, rows[q]) ==>
         && !Beats(RankOf(access, rows[q]), RankOf(access, rows[p]))
         && (q < p ==> Beats(RankOf(access, rows[p]), RankOf(access, rows[q])))
  }

  ghost predicate Firsts(access: Access, rows: seq<Row>, firsts: seq<nat>) {
    Increasing(firsts) && forall p :: p in firsts <==> Opens(access, rows, p)
  }

  /** The i-th row shown stands for the family that the row at firsts[i] opens. */
  ghost predicate StandsFor(access: Access, rows: seq<Row>, shown: Row, first: nat, best: nat) {
    && first < |rows| && Best(access, rows, best)
    && KeyOf(rows[best]) == KeyOf(rows[first]) && shown == rows[best]
  }

  /** One row per family with a visible row, the families in the order of their first visible rows. */
  ghost predicate Shows(access: Access, rows: seq<Row>, shown: seq<Row>, firsts: seq<nat>, bests: seq<nat>) {
    && |firsts| == |bests| == |shown| && Firsts(access, rows, firsts)
    && forall i :: 0 <= i < |shown| ==> StandsFor(access, rows, shown[i], firsts[i], bests[i])
  }

  ghost predicate IsCollapse(access: Access, rows: seq<Row>, shown: seq<Row>) {
    exists firsts, bests :: Shows(access, rows, shown, firsts, bests)
  }

  lemma {:induction false} CollapseSnoc(access: Access, rows: seq<Row>, r: Row)
    ensures Picked(access, rows + [r]) ==
            if Visible(access, r) then Pick(Picked(access, rows), EntryOf(access, r)) else Picked(access, rows)
  {
    var survivors := Survivors(access, rows);
    SurvivorsConcat(access, rows, [r]);
    assert Survivors(access, [r]) == if Visible(access, r) then [r] else [];
    if Visible(access, r) {
      EntriesConcat(access, survivors, [r]);
      assert Entries(access, [r]) == [EntryOf(access, r)];
      PickAllConcat([], Entries(access, survivors), [EntryOf(access, r)]);
    } else {
      assert survivors + [] == survivors;
    }
  }

  lemma {:induction false} OpensSnoc(access: Access, rows: seq<Row>, r: Row, p: nat)
    ensures p < |rows| ==> (Opens(access, rows + [r], p) <==> Opens(access, rows, p))
    ensures p > |rows| ==> !Opens(access, rows + [r], p)
  {
    assert forall q :: 0 <= q < |rows| ==> (rows + [r])[q] == rows[q];
    if p < |rows| && Opens(access, rows + [r], p) {
      forall q | 0 <= q < p && KeyOf(rows[q]) == KeyOf(rows[p]) ensures !Visible(access, rows[q]) {
        assert (rows + [r])[q] == rows[q];
      }
    }
  }

  /** A later row that cannot be seen, is of another family or does not beat the best leaves it the best. */
  lemma {:induction false} BestSnoc(access: Access, rows: seq<Row>, r: Row, p: nat)
    requires Best(access, rows, p)
    requires Visible(access, r) && KeyOf(r) == KeyOf(rows[p]) ==> !Beats(RankOf(access, r), RankOf(access, rows[p]))
    ensures Best(access, rows + [r], p)
  {
  }

  lemma {:induction false} NewBest(access: Access, rows: seq<Row>, r: Row, p: nat)
    requires Best(access, rows, p) && Visible(access, r) && KeyOf(r) == KeyOf(rows[p])
    requires Beats(RankOf(access, r), RankOf(access, rows[p]))
    ensures Best(access, rows + [r], |rows|)
  {
  }

  lemma {:induction false} FirstOf(access: Access, rows: seq<Row>, q: nat) returns (p: nat)
    requires q < |rows| && Visible(access, rows[q])
    ensures p <= q && Opens(access, rows, p) && KeyOf(rows[p]) == KeyOf(rows[q])
  {
    p := q;
    if !Opens(access, rows, q) {
      var before :| 0 <= before < q && KeyOf(rows[before]) == KeyOf(rows[q]) && Visible(access, rows[before]);
      p := FirstOf(access, rows, before);
    }
  }

  /** A row that cannot be seen, or whose family is known, opens nothing. */
  lemma {:induction false} FirstsKept(access: Access, rows: seq<Row>, r: Row, firsts: seq<nat>)
    requires Firsts(access, rows, firsts)
    requires Visible(access, r) ==>
               exists q :: 0 <= q < |rows| && KeyOf(rows[q]) == KeyOf(r) && Visible(access, rows[q])
    ensures Firsts(access, rows + [r], firsts)
  {
    if Visible(access, r) {
      var q :| 0 <= q < |rows| && KeyOf(rows[q]) == KeyOf(r) && Visible(access, rows[q]);
      assert (rows + [r])[q] == rows[q];
      assert !Opens(access, rows + [r], |rows|);
    }
    forall p: nat ensures p in firsts <==> Opens(access, rows + [r], p) { OpensSnoc(access, rows, r, p); }
  }

  lemma {:induction false} FirstsGrow(access: Access, rows: seq<Row>, r: Row, firsts: seq<nat>)
    requires Firsts(access, rows, firsts) && Visible(access, r)
    requires forall q :: 0 <= q < |rows| && KeyOf(rows[q]) == KeyOf(r) ==> !Visible(access, rows[q])
    ensures Firsts(access, rows + [r], firsts + [|rows|])
  {
    assert Opens(access, rows + [r], |rows|);
    forall i | 0 <= i < |firsts| ensures firsts[i] < |rows| {
      assert firsts[i] in firsts;
    }
    forall p: nat ensures p in firsts + [|rows|] <==> Opens(access, rows + [r], p) { OpensSnoc(access, rows, r, p); }
  }

  lemma {:induction false} NoneSeen(
    access: Access, rows: seq<Row>, r: Row, shown: seq<Row>, firsts: seq<nat>, bests: seq<nat>)
    requires Shows(access, rows, shown, firsts, bests)
    requires forall i :: 0 <= i < |shown| ==> KeyOf(shown[i]) != KeyOf(r)
    ensures forall q :: 0 <= q < |rows| && KeyOf(rows[q]) == KeyOf(r) ==> !Visible(access, rows[q])
  {
    forall q | 0 <= q < |rows| && Visible(access, rows[q]) ensures KeyOf(rows[q]) != KeyOf(r) {
      var p := FirstOf(access, rows, q);
      var i :| 0 <= i < |firsts| && firsts[i] == p;
      assert StandsFor(access, rows, shown[i], firsts[i], bests[i]);
    }
  }

  lemma {:induction false} StandsStill(access: Access, rows: seq<Row>, r: Row, shown: Row, first: nat, best: nat)
    requires StandsFor(access, rows, shown, first, best)
    requires Visible(access, r) && KeyOf(r) == KeyOf(shown) ==> !Beats(RankOf(access, r), RankOf(access, shown))
    ensures StandsFor(access, rows + [r], shown, first, best)
  {
    BestSnoc(access, rows, r, best);
  }

  lemma {:induction false} StandsAnew(access: Access, rows: seq<Row>, r: Row, shown: Row, first: nat, best: nat)
    requires StandsFor(access, rows, shown, first, best)
    requires Visible(access, r) && KeyOf(r) == KeyOf(shown) && Beats(RankOf(access, r), RankOf(access, shown))
    ensures StandsFor(access, rows + [r], r, first, |rows|)
  {
    NewBest(access, rows, r, best);
  }

  lemma {:induction false} ShowsUnseen(
    access: Access, rows: seq<Row>, r: Row, shown: seq<Row>, firsts: seq<nat>, bests: seq<nat>)
    requires Shows(access, rows, shown, firsts, bests) && !Visible(access, r)
    ensures Shows(access, rows + [r], shown, firsts, bests)
  {
    FirstsKept(access, rows, r, firsts);
    forall i | 0 <= i < |shown| ensures StandsFor(access, rows + [r], shown[i], firsts[i], bests[i]) {
      StandsStill(access, rows, r, shown[i], firsts[i], bests[i]);
    }
  }

  lemma {:induction false} ShowsNew(
    access: Access, rows: seq<Row>, r: Row, shown: seq<Row>, firsts: seq<nat>, bests: seq<nat>)
    requires Shows(access, rows, shown, firsts, bests) && Visible(access, r)
    requires forall i :: 0 <= i < |shown| ==> KeyOf(shown[i]) != KeyOf(r)
    ensures Shows(access, rows + [r], shown + [r], firsts + [|rows|], bests + [|rows|])
  {
    NoneSeen(access, rows, r, shown, firsts, bests);
    FirstsGrow(access, rows, r, firsts);
    assert StandsFor(access, rows + [r], r, |rows|, |rows|);
    forall i | 0 <= i < |shown| ensures StandsFor(access, rows + [r], shown[i], firsts[i], bests[i]) {
      StandsStill(access, rows, r, shown[i], firsts[i], bests[i]);
    }
  }

  lemma {:induction false} ShowsWorse(
    access: Access, rows: seq<Row>, r: Row, shown: seq<Row>, firsts: seq<nat>, bests: seq<nat>, i: nat)
    requires Shows(access, rows, shown, firsts, bests) && Visible(access, r)
    requires i < |shown| && KeyOf(shown[i]) == KeyOf(r) && !Beats(RankOf(access, r), RankOf(access, shown[i]))
    requires forall j :: 0 <= j < |shown| && j != i ==> KeyOf(shown[j]) != KeyOf(r)
    ensures Shows(access, rows + [r], shown, firsts, bests)
  {
    assert StandsFor(access, rows, shown[i], firsts[i], bests[i]);
    FirstsKept(access, rows, r, firsts);
    forall j | 0 <= j < |shown| ensures StandsFor(access, rows + [r], shown[j], firsts[j], bests[j]) {
      StandsStill(access, rows, r, shown[j], firsts[j], bests[j]);
    }
  }

  lemma {:induction false} ShowsBetter(
    access: Access, rows: seq<Row>, r: Row, shown: seq<Row>, firsts: seq<nat>, bests: seq<nat>, i: nat)
    requires Shows(access, rows, shown, firsts, bests) && Visible(access, r)
    requires i < |shown| && KeyOf(shown[i]) == KeyOf(r) && Beats(RankOf(access, r), RankOf(access, shown[i]))
    requires forall j :: 0 <= j < |shown| && j != i ==> KeyOf(shown[j]) != KeyOf(r)
    ensures Shows(access, rows + [r], shown[i := r], firsts, bests[i := |rows|])
  {
    assert StandsFor(access, rows, shown[i], firsts[i], bests[i]);
    FirstsKept(access, rows, r, firsts);
    StandsAnew(access, rows, r, shown[i], firsts[i], bests[i]);
    forall j | 0 <= j < |shown| && j != i ensures StandsFor(access, rows + [r], shown[j], firsts[j], bests[j]) {
      StandsStill(access, rows, r, shown[j], firsts[j], bests[j]);
    }
  }

  lemma {:induction false} PickedDistinct(access: Access, rows: seq<Row>)
    ensures Distinct(Picked(access, rows))
  {
    PickAllDistinct([], Entries(access, Survivors(access, rows)));
  }

  /** The entries hold the ranks of their rows, one entry a family. */
  ghost predicate Ranked(access: Access, picked: seq<Entry>) {
    Distinct(picked) && forall i :: 0 <= i < |picked| ==> picked[i].rank == RankOf(access, picked[i].row)
  }

  lemma {:induction false} RowsSnoc(picked: seq<Entry>, e: Entry)
    ensures Rows(picked + [e]) == Rows(picked) + [e.row]
  {
  }

  lemma {:induction false} RowsUpdate(picked: seq<Entry>, i: nat, e: Entry)
    requires i < |picked|
    ensures Rows(picked[i := e]) == Rows(picked)[i := e.row]
  {
  }

  lemma {:induction false} PickNewShows(
    access: Access, rows: seq<Row>, e: Entry, picked: seq<Entry>, firsts: seq<nat>, bests: seq<nat>)
    requires Shows(access, rows, Rows(picked), firsts, bests) && Visible(access, e.row)
    requires IndexOf(picked, Family(e)) == |picked|
    ensures IsCollapse(access, rows + [e.row], Rows(Pick(picked, e)))
  {
    ShowsNew(access, rows, e.row, Rows(picked), firsts, bests);
    RowsSnoc(picked, e);
  }

  lemma {:induction false} PickKnownShows(
    access: Access, rows: seq<Row>, e: Entry, picked: seq<Entry>, firsts: seq<nat>, bests: seq<nat>, i: nat)
    requires Shows(access, rows, Rows(picked), firsts, bests) && Visible(access, e.row)
    requires Ranked(access, picked) && e.rank == RankOf(access, e.row)
    requires i == IndexOf(picked, Family(e)) < |picked|
    ensures IsCollapse(access, rows + [e.row], Rows(Pick(picked, e)))
  {
    if Beats(e.rank, picked[i].rank) {
      ShowsBetter(access, rows, e.row, Rows(picked), firsts, bests, i);
      RowsUpdate(picked, i, e);
    } else {
      ShowsWorse(access, rows, e.row, Rows(picked), firsts, bests, i);
      assert picked[i := picked[i]] == picked;
    }
  }

  lemma {:induction false} PickedRanked(access: Access, rows: seq<Row>)
    ensures Ranked(access, Picked(access, rows))
  {
    PickedFromRows(access, rows);
    PickedDistinct(access, rows);
    var picked := Picked(access, rows);
    forall i | 0 <= i < |picked| ensures picked[i].rank == RankOf(access, picked[i].row) { assert picked[i] in picked; }
  }

  lemma {:induction false} CollapseShows(access: Access, rows: seq<Row>)
    ensures IsCollapse(access, rows, Collapse(access, rows))
  {
    if rows == [] {
      assert Shows(access, rows, [], [], []);
    } else {
      var init, r := rows[..|rows| - 1], rows[|rows| - 1];
      assert rows == init + [r];
      CollapseShows(access, init);
      CollapseSnoc(access, init, r);
      var firsts, bests :| Shows(access, init, Collapse(access, init), firsts, bests);
      if Visible(access, r) {
        PickedRanked(access, init);
        var picked, e := Picked(access, init), EntryOf(access, r);
        if IndexOf(picked, KeyOf(r)) == |picked| {
          PickNewShows(access, init, e, picked, firsts, bests);
        } else {
          PickKnownShows(access, init, e, picked, firsts, bests, IndexOf(picked, KeyOf(r)));
        }
      } else {
        ShowsUnseen(access, init, r, Collapse(access, init), firsts, bests);
      }
    }
  }

  lemma {:induction false} BestUnique(access: Access, rows: seq<Row>, p: nat, q: nat)
    requires Best(access, rows, p) && Best(access, rows, q) && KeyOf(rows[p]) == KeyOf(rows[q])
    ensures p == q
  {
  }

  /** The collapse is the only list that shows each visible family's best row in the order the families open. */
  lemma {:induction false} CollapseSpecification(access: Access, rows: seq<Row>, shown: seq<Row>)
    ensures shown == Collapse(access, rows) <==> IsCollapse(access, rows, shown)
  {
    CollapseShows(access, rows);
    if IsCollapse(access, rows, shown) {
      var firsts, bests :| Shows(access, rows, shown, firsts, bests);
      var firsts', bests' :| Shows(access, rows, Collapse(access, rows), firsts', bests');
      IncreasingUnique(firsts, firsts');
      forall i | 0 <= i < |shown| ensures shown[i] == Collapse(access, rows)[i] {
        assert StandsFor(access, rows, shown[i], firsts[i], bests[i]);
        BestUnique(access, rows, bests[i], bests'[i]);
      }
    }
  }

  // ---------- Version counts ----------

  function Count(rows: seq<Row>, key: Key): nat {
    if rows == [] then 0 else (if KeyOf(rows[0]) == key then 1 else 0) + Count(rows[1..], key)
  }

  lemma {:induction false} CountConcat(a: seq<Row>, b: seq<Row>, key: Key)
    ensures Count(a + b, key) == Count(a, key) + Count(b, key)
  {
    if a == [] {
      assert a + b == b;
    } else {
      assert (a + b)[1..] == a[1..] + b;
      CountConcat(a[1..], b, key);
    }
  }

  /** family_counts: how many rows each family has; rows without a family are not counted. */
  method FamilyCounts(rows: seq<Row>) returns (counts: map<string, nat>)
    ensures forall k :: k in counts <==> Count(rows, Some(k)) > 0
    ensures forall k :: k in counts ==> counts[k] == Count(rows, Some(k))
  {
    counts := map[];
    for i := 0 to |rows|
      invariant forall k :: k in counts <==> Count(rows[..i], Some(k)) > 0
      invariant forall k :: k in counts ==> counts[k] == Count(rows[..i], Some(k))
    {
      var key := KeyOf(rows[i]);
      assert rows[..i + 1] == rows[..i] + [rows[i]];
      forall k: string ensures Count(rows[..i + 1], Some(k)) ==
        Count(rows[..i], Some(k)) + (if key == Some(k) then 1 else 0) {
        CountConcat(rows[..i], [rows[i]], Some(k));
        assert [rows[i]][1..] == [];
      }
      if key.None? {
        continue;
      }
      var fid := key.value;
      counts := counts[fid := (if fid in counts then counts[fid] else 0) + 1];
    }
    assert rows[..|rows|] == rows;
  }

  lemma {:induction false} CountPositive(rows: seq<Row>, key: Key)
    ensures Count(rows, key) > 0 <==> exists r :: r in rows && KeyOf(r) == key
  {
    if rows != [] {
      CountPositive(rows[1..], key);
      assert rows == [rows[0]] + rows[1..];
      assert rows[0] in rows;
      if Count(rows[1..], key) > 0 {
        var r :| r in rows[1..] && KeyOf(r) == key;
        assert r in rows;
      }
    }
  }

  lemma {:induction false} CountDistinct(es: seq<Entry>, key: Key)
    requires Distinct(es)
    ensures Count(Rows(es), key) <= 1
  {
    if es != [] {
      assert Rows(es)[1..] == Rows(es[1..]);
      CountDistinct(es[1..], key);
      CountPositive(Rows(es[1..]), key);
      assert forall i :: 0 < i < |es| ==> Family(es[i]) != Family(es[0]);
    }
  }

  lemma {:induction false} CollapsedSurvives(access: Access, rows: seq<Row>, key: Key)
    requires Count(Collapse(access, rows), key) > 0
    ensures Count(Survivors(access, rows), key) > 0
  {
    var shown := Collapse(access, rows);
    CountPositive(shown, key);
    var r :| r in shown && KeyOf(r) == key;
    var i :| 0 <= i < |shown| && shown[i] == r;
    PickedFromRows(access, rows);
    assert Picked(access, rows)[i] in Picked(access, rows);
    SurvivorsVisible(access, rows);
    CountPositive(Survivors(access, rows), key);
  }

  lemma {:induction false} SurvivorCollapses(access: Access, rows: seq<Row>, key: Key)
    requires Count(Survivors(access, rows), key) > 0
    ensures Count(Collapse(access, rows), key) > 0
  {
    var shown := Collapse(access, rows);
    CountPositive(Survivors(access, rows), key);
    var r :| r in Survivors(access, rows) && KeyOf(r) == key;
    SurvivorsVisible(access, rows);
    var q :| 0 <= q < |rows| && rows[q] == r;
    var p := FirstOf(access, rows, q);
    CollapseShows(access, rows);
    var firsts, bests :| Shows(access, rows, shown, firsts, bests);
    var i :| 0 <= i < |firsts| && firsts[i] == p;
    assert shown[i] in shown;
    CountPositive(shown, key);
  }

  /** The collapse shows one row of each family family_counts counts among the survivors, and no other family. */
  lemma {:induction false} CollapsedOnce(access: Access, rows: seq<Row>, key: Key)
    ensures Count(Collapse(access, rows), key) == (if Count(Survivors(access, rows), key) > 0 then 1 else 0)
  {
    PickedDistinct(access, rows);
    CountDistinct(Picked(access, rows), key);
    if Count(Survivors(access, rows), key) > 0 { SurvivorCollapses(access, rows, key); }
    if Count(Collapse(access, rows), key) > 0 { CollapsedSurvives(access, rows, key); }
  }

  /** The version counts shown beside a list of rows, added up. */
  function Badges(shown: seq<Row>, survivors: seq<Row>): nat {
    if shown == [] then 0
    else (if KeyOf(shown[0]).Some? then Count(survivors, KeyOf(shown[0])) else 0) + Badges(shown[1..], survivors)
  }

  function Keyed(rows: seq<Row>): nat {
    if rows == [] then 0 else (if KeyOf(rows[0]).Some? then 1 else 0) + Keyed(rows[1..])
  }

  lemma {:induction false} BadgesCons(shown: seq<Row>, r: Row, survivors: seq<Row>)
    ensures Badges(shown, [r] + survivors)
         == Badges(shown, survivors) + (if KeyOf(r).Some? then Count(shown, KeyOf(r)) else 0)
  {
    if shown != [] {
      BadgesCons(shown[1..], r, survivors);
      assert ([r] + survivors)[1..] == survivors;
    }
  }

  lemma {:induction false} BadgesOfNone(shown: seq<Row>)
    ensures Badges(shown, []) == 0
  {
    if shown != [] { BadgesOfNone(shown[1..]); }
  }

  lemma {:induction false} BadgesTotal(shown: seq<Row>, survivors: seq<Row>)
    requires forall r :: r in survivors ==> Count(shown, KeyOf(r)) == 1
    ensures Badges(shown, survivors) == Keyed(survivors)
  {
    if survivors == [] {
      BadgesOfNone(shown);
    } else {
      assert survivors == [survivors[0]] + survivors[1..];
      BadgesCons(shown, survivors[0], survivors[1..]);
      BadgesTotal(shown, survivors[1..]);
    }
  }

  /** The counts shown on the collapsed rows account for every surviving version exactly once. */
  lemma {:induction false} CountsAddUp(access: Access, rows: seq<Row>)
    ensures Badges(Collapse(access, rows), Survivors(access, rows)) == Keyed(Survivors(access, rows))
  {
    forall r | r in Survivors(access, rows) ensures Count(Collapse(access, rows), KeyOf(r)) == 1 {
      CountPositive(Survivors(access, rows), KeyOf(r));
      CollapsedOnce(access, rows, KeyOf(r));
    }
    BadgesTotal(Collapse(access, rows), Survivors(access, rows));
  }

  // ---------- More access shows more ----------

  predicate Wider(a: Access, b: Access) {
    a.elevated <= b.elevated && (a.isAdmin ==> b.isAdmin)
  }

  lemma {:induction false} SurvivorsGrow(a: Access, b: Access, rows: seq<Row>, key: Key)
    requires Wider(a, b)
    ensures Count(Survivors(a, rows), key) <= Count(Survivors(b, rows), key)
  {
    if rows != [] {
      SurvivorsGrow(a, b, rows[1..], key);
      var one := [rows[0]];
      assert Visible(a, rows[0]) ==> Visible(b, rows[0]);
      assert one[1..] == [];
      CountConcat(one, Survivors(a, rows[1..]), key);
      CountConcat(one, Survivors(b, rows[1..]), key);
      assert [] + Survivors(a, rows[1..]) == Survivors(a, rows[1..]);
      assert [] + Survivors(b, rows[1..]) == Survivors(b, rows[1..]);
    }
  }

  /** Elevating more families, or making the caller an admin, never loses a family or one of its versions. */
  lemma {:induction false} WiderShowsMore(a: Access, b: Access, rows: seq<Row>, key: Key)
    requires Wider(a, b)
    ensures Count(Collapse(a, rows), key) <= Count(Collapse(b, rows), key)
    ensures Count(Survivors(a, rows), key) <= Count(Survivors(b, rows), key)
  {
    SurvivorsGrow(a, b, rows, key);
    CollapsedOnce(a, rows, key);
    CollapsedOnce(b, rows, key);
  }

  // ---------- Rows of no family ----------

  lemma {:induction false} KeylessSurvive(access: Access, rows: seq<Row>)
    ensures Count(Survivors(access, rows), None) == Count(rows, None)
  {
    if rows != [] {
      KeylessSurvive(access, rows[1..]);
      var one := [rows[0]];
      assert one[1..] == [];
      CountConcat(one, Survivors(access, rows[1..]), None);
      assert [] + Survivors(access, rows[1..]) == Survivors(access, rows[1..]);
    }
  }

  /**
   Rows with neither a family nor an id are meant to collapse to themselves, but the second pass keeps
   them all under one key: none is lost exactly when there is at most one.
   */
  lemma {:induction false} KeylessKept(access: Access, rows: seq<Row>)
    ensures Count(Collapse(access, rows), None) == Count(rows, None) <==> Count(rows, None) <= 1
  {
    KeylessSurvive(access, rows);
    CollapsedOnce(access, rows, None);
  }

  lemma {:induction false} TwoPicked(d: Entry, a: Entry)
    ensures PickAll([], [d, a]) == Pick(Pick([], d), a)
  {
    assert [d, a][1..] == [a] && [a][1..] == [];
    assert PickAll(Pick([], d), [a]) == PickAll(Pick(Pick([], d), a), []);
  }

  /** Two such rows: the one is hidden by the other. */
  lemma {:induction false} KeylessHidden(access: Access, draft: Row, active: Row)
    requires KeyOf(draft) == KeyOf(active) == None
    requires Status(draft) == "draft" && Status(active) == "active"
    ensures Collapse(access, [draft, active]) == [if access.isAdmin then draft else active]
  {
    var rows, d, a := [draft, active], EntryOf(access, draft), EntryOf(access, active);
    AllSurvive(access, rows);
    assert Entries(access, rows) == [d, a];
    PickNew([], d);
    PickAt([d], a, 0);
    assert [d][0 := Better(d, a)] == [Better(d, a)];
    TwoPicked(d, a);
  }
}
