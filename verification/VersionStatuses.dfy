/**
 Who sees which versions, and which version stands for a family, in the words of the
 statuses themselves: whatever their case and the blanks around them, who is an admin
 and which families are elevated.
 */
module VersionStatuses {
  import opened Symbols
  import opened Selections
  import opened VersionVisibility
  import opened VersionFamilies

  // ---------- Reading a status ----------

  predicate Blank(s: string) {
    forall i :: 0 <= i < |s| ==>
      s[i] == ' ' || 9 <= s[i] as int <= 13 || 28 <= s[i] as int <= 31
  }

  /** The same word, some of its letters perhaps capitals. */
  predicate SameLetters(word: string, w: string) {
    |word| == |w| && forall i :: 0 <= i < |w| ==>
      word[i] == w[i] || ('A' <= word[i] <= 'Z' && w[i] as int - 'a' as int == word[i] as int - 'A' as int)
  }

  ghost predicate ReadsAs(status: Option<string>, lead: string, word: string, trail: string, w: string) {
    status == Some(lead + word + trail) && Blank(lead) && Blank(trail) && SameLetters(word, w)
  }

  /** The status is this word, in any case, with blanks around it. */
  ghost predicate Reads(status: Option<string>, w: string) {
    exists lead, word, trail :: ReadsAs(status, lead, word, trail, w)
  }

  /** A word in small letters, underscores among them. */
  predicate Plain(w: string) {
    w != "" && forall i :: 0 <= i < |w| ==> 'a' <= w[i] <= 'z' || w[i] == '_'
  }

  lemma {:induction false} StripLeftCuts(s: string) returns (n: nat)
    ensures n <= |s| && StripLeft(s) == s[n..] && Blank(s[..n])
  {
    if s != [] && IsSpace(s[0]) {
      var k := StripLeftCuts(s[1..]);
      n := k + 1;
      assert s[1..][k..] == s[n..] && s[..n] == [s[0]] + s[1..][..k];
    } else {
      n := 0;
    }
  }

  lemma {:induction false} StripRightCuts(s: string) returns (n: nat)
    ensures n <= |s| && StripRight(s) == s[..n] && Blank(s[n..])
  {
    if s != [] && IsSpace(s[|s| - 1]) {
      var init := s[..|s| - 1];
      n := StripRightCuts(init);
      assert init[..n] == s[..n] && s[n..] == init[n..] + [s[|s| - 1]];
    } else {
      n := |s|;
    }
  }

  lemma {:induction false} StripLeftStops(lead: string, s: string)
    requires Blank(lead) && s != [] && !IsSpace(s[0])
    ensures StripLeft(lead + s) == s
  {
    if lead == [] {
      assert lead + s == s;
    } else {
      assert (lead + s)[1..] == lead[1..] + s;
      StripLeftStops(lead[1..], s);
    }
  }

  lemma {:induction false} StripRightStops(s: string, trail: string)
    requires Blank(trail) && s != [] && !IsSpace(s[|s| - 1])
    ensures StripRight(s + trail) == s
  {
    if trail == [] {
      assert s + trail == s;
    } else {
      assert (s + trail)[..|s + trail| - 1] == s + trail[..|trail| - 1];
      StripRightStops(s, trail[..|trail| - 1]);
    }
  }

  lemma {:induction false} PlainLetters(word: string, w: string)
    requires Plain(w)
    ensures SameLetters(word, w) <==> Lower(word) == w
    ensures SameLetters(word, w) ==> forall i :: 0 <= i < |word| ==> !IsSpace(word[i])
  {
    if Lower(word) == w {
      forall i | 0 <= i < |w|
        ensures word[i] == w[i]
          || ('A' <= word[i] <= 'Z' && w[i] as int - 'a' as int == word[i] as int - 'A' as int)
      {
        assert Lower(word)[i] == LowerChar(word[i]);
      }
    }
    if SameLetters(word, w) {
      forall i | 0 <= i < |w| ensures LowerChar(word[i]) == w[i] && !IsSpace(word[i]) {}
      assert Lower(word) == w;
    }
  }

  lemma {:induction false} CutInThree(s: string, i: nat, j: nat)
    requires i <= |s| && j <= |s[i..]|
    ensures s == s[..i] + s[i..][..j] + s[i..][j..]
  {
  }

  lemma {:induction false} StrippedReads(s: string, w: string)
    requires Plain(w) && Lower(Strip(s)) == w
    ensures Reads(Some(s), w)
  {
    var i := StripLeftCuts(s);
    var j := StripRightCuts(StripLeft(s));
    PlainLetters(Strip(s), w);
    CutInThree(s, i, j);
    assert ReadsAs(Some(s), s[..i], Strip(s), s[i..][j..], w);
  }

  lemma {:induction false} ReadsStripped(lead: string, word: string, trail: string, w: string)
    requires Plain(w) && ReadsAs(Some(lead + word + trail), lead, word, trail, w)
    ensures Lower(Strip(lead + word + trail)) == w
  {
    PlainLetters(word, w);
    assert lead + word + trail == lead + (word + trail);
    StripLeftStops(lead, word + trail);
    StripRightStops(word, trail);
  }

  lemma {:induction false} StatusReads(row: Row, w: string)
    requires Plain(w)
    ensures Status(row) == w <==> Reads(row.status, w)
  {
    if row.status.Some? && Lower(Strip(row.status.value)) == w { StrippedReads(row.status.value, w); }
    if lead, word, trail :| ReadsAs(row.status, lead, word, trail, w) { ReadsStripped(lead, word, trail, w); }
  }

  // ---------- Who sees a row ----------

  /** The row belongs to this family: the one it names, or that of its own id if it names none. */
  predicate InFamily(row: Row, f: string) {
    if row.familyId.Some? && row.familyId.value != "" then row.familyId.value == f else row.id == Some(f)
  }

  /** Admins see everything; others no retired row, and all else of an elevated family, or what is published. */
  ghost predicate CanSee(access: Access, row: Row, f: string) {
    || access.isAdmin
    || (!Reads(row.status, "retired")
        && (f in access.elevated || Reads(row.status, "active") || Reads(row.status, "deprecated")))
  }

  lemma {:induction false} FamilyIsKey(row: Row, f: string)
    ensures KeyOf(row) == Some(f) <==> InFamily(row, f)
  {
  }

  lemma {:induction false} VisibleMeaning(access: Access, row: Row, f: string)
    requires InFamily(row, f)
    ensures Visible(access, row) <==> CanSee(access, row, f)
  {
    StatusReads(row, "retired");
    StatusReads(row, "active");
    StatusReads(row, "deprecated");
  }

  /** Rows of no family are let through. */
  ghost predicate Admitted(access: Access, row: Row) {
    forall f :: InFamily(row, f) ==> CanSee(access, row, f)
  }

  lemma {:induction false} AdmittedIsVisible(access: Access, row: Row)
    ensures Visible(access, row) <==> Admitted(access, row)
  {
    forall f ensures InFamily(row, f) <==> KeyOf(row) == Some(f) { FamilyIsKey(row, f); }
    if KeyOf(row).Some? {
      assert InFamily(row, KeyOf(row).value);
      VisibleMeaning(access, row, KeyOf(row).value);
    }
  }

  lemma {:induction false} SurvivorsAreFiltered(access: Access, rows: seq<Row>)
    ensures Survivors(access, rows) == Filtered((r: Row) => Visible(access, r), rows)
  {
    if rows != [] { SurvivorsAreFiltered(access, rows[1..]); }
  }

  /** The first pass drops the rows the caller may not see, and nothing else: the others keep their order. */
  lemma {:induction false} SurvivorsMeaning(access: Access, rows: seq<Row>, survivors: seq<Row>, sees: Row -> bool)
    requires forall r :: sees(r) <==> Admitted(access, r)
    ensures survivors == Survivors(access, rows) <==> Selects(rows, sees, survivors)
  {
    forall r ensures sees(r) == Visible(access, r) { AdmittedIsVisible(access, r); }
    SurvivorsAreFiltered(access, rows);
    FilteredSame(sees, (r: Row) => Visible(access, r), rows);
    FilteredIsSelection(rows, sees, survivors);
  }

  // ---------- Which row is shown ----------

  /** The statuses from the most to the least preferred; unknown ones come after all of these. */
  function Preference(access: Access, f: string): seq<string> {
    if access.isAdmin || f in access.elevated
    then ["draft", "proposed", "under_review", "approved", "active", "deprecated"]
    else ["active", "deprecated"]
  }

  /** The place of a status in an order, past its end if it is none of them. */
  ghost predicate Place(order: seq<string>, status: Option<string>, i: nat) {
    && i <= |order| && (i < |order| ==> Reads(status, order[i]))
    && forall j :: 0 <= j < i ==> !Reads(status, order[j])
  }

  /** When a row was created; rows that do not say count as created at the epoch. */
  function Created(row: Row): real {
    match row.createdAt case Some(t) => t case None => 0.0
  }

  /** a is preferred to b: by its status, or being newer at the same place. */
  ghost predicate PreferredTo(order: seq<string>, a: Row, b: Row) {
    exists i, j :: Place(order, a.status, i) && Place(order, b.status, j)
      && (i < j || (i == j && Created(a) > Created(b)))
  }

  function RankAt(order: seq<string>, i: nat): nat {
    if i < |order| then i else 999
  }

  lemma {:induction false} PlaceFound(access: Access, f: string, row: Row) returns (i: nat)
    ensures Place(Preference(access, f), row.status, i)
    ensures forall j :: Place(Preference(access, f), row.status, j) ==> j == i
    ensures StatusRank(Status(row), access.isAdmin || f in access.elevated) == RankAt(Preference(access, f), i)
  {
    var order := Preference(access, f);
    forall j | 0 <= j < |order| ensures Status(row) == order[j] <==> Reads(row.status, order[j]) {
      StatusReads(row, order[j]);
    }
    i := 0;
    while i < |order| && Status(row) != order[i]
      invariant i <= |order| && forall j :: 0 <= j < i ==> Status(row) != order[j]
    {
      i := i + 1;
    }
    RankOfPlace(Status(row), access, f, i);
  }

  lemma {:induction false} RankOfPlace(status: string, access: Access, f: string, i: nat)
    requires i <= |Preference(access, f)| && (i < |Preference(access, f)| ==> status == Preference(access, f)[i])
    requires forall j :: 0 <= j < i ==> status != Preference(access, f)[j]
    ensures StatusRank(status, access.isAdmin || f in access.elevated) == RankAt(Preference(access, f), i)
  {
    var order := Preference(access, f);
    assert i > 0 ==> status != order[0];
    assert i > 1 ==> status != order[1];
    assert i > 2 ==> status != order[2] && (i > 3 ==> status != order[3]);
    assert i > 4 ==> status != order[4] && (i > 5 ==> status != order[5]);
  }

  lemma {:induction false} BeatsMeaning(access: Access, f: string, a: Row, b: Row)
    requires InFamily(a, f) && InFamily(b, f)
    ensures Beats(RankOf(access, a), RankOf(access, b)) <==> PreferredTo(Preference(access, f), a, b)
  {
    FamilyIsKey(a, f);
    FamilyIsKey(b, f);
    var i := PlaceFound(access, f, a);
    var j := PlaceFound(access, f, b);
    BeatsByPlace(Preference(access, f), a, b, i, j);
  }

  lemma {:induction false} BeatsByPlace(order: seq<string>, a: Row, b: Row, i: nat, j: nat)
    requires |order| < 999 && Place(order, a.status, i) && Place(order, b.status, j)
    ensures PreferredTo(order, a, b) <==>
            RankAt(order, i) < RankAt(order, j) || (RankAt(order, i) == RankAt(order, j) && Created(a) > Created(b))
  {
    if i', j' :|
      && Place(order, a.status, i') && Place(order, b.status, j')
      && (i' < j' || (i' == j' && Created(a) > Created(b))) {
      assert i' == i && j' == j;
    }
  }

  /** The row at p can be seen, and is preferred to every other of its family that can, or as good and earlier. */
  ghost predicate StandsAt(access: Access, rows: seq<Row>, f: string, p: nat) {
    && p < |rows| && InFamily(rows[p], f) && CanSee(access, rows[p], f)
    && forall q :: 0 <= q < |rows| && q != p && InFamily(rows[q], f) && CanSee(access, rows[q], f) ==>
         var order := Preference(access, f);
         PreferredTo(order, rows[p], rows[q]) || (p < q && !PreferredTo(order, rows[q], rows[p]))
  }

  lemma {:induction false} StandsIsBest(access: Access, rows: seq<Row>, f: string, p: nat)
    requires p < |rows| && InFamily(rows[p], f)
    ensures StandsAt(access, rows, f, p) <==> Best(access, rows, p)
  {
    FamilyIsKey(rows[p], f);
    VisibleMeaning(access, rows[p], f);
    forall q | 0 <= q < |rows| && KeyOf(rows[q]) == KeyOf(rows[p])
      ensures InFamily(rows[q], f) && (Visible(access, rows[q]) <==> CanSee(access, rows[q], f))
      ensures Beats(RankOf(access, rows[q]), RankOf(access, rows[p])) <==>
              PreferredTo(Preference(access, f), rows[q], rows[p])
      ensures Beats(RankOf(access, rows[p]), RankOf(access, rows[q])) <==>
              PreferredTo(Preference(access, f), rows[p], rows[q])
    {
      FamilyIsKey(rows[q], f);
      VisibleMeaning(access, rows[q], f);
      BeatsMeaning(access, f, rows[q], rows[p]);
      BeatsMeaning(access, f, rows[p], rows[q]);
    }
    forall q | 0 <= q < |rows| && InFamily(rows[q], f) ensures KeyOf(rows[q]) == KeyOf(rows[p]) {
      FamilyIsKey(rows[q], f);
    }
  }

  lemma {:induction false} ShownStands(access: Access, rows: seq<Row>, f: string, r: Row) returns (p: nat)
    requires r in Collapse(access, rows) && InFamily(r, f)
    ensures StandsAt(access, rows, f, p) && rows[p] == r
  {
    CollapseShows(access, rows);
    var shown := Collapse(access, rows);
    var firsts, bests :| Shows(access, rows, shown, firsts, bests);
    var i :| 0 <= i < |shown| && shown[i] == r;
    assert StandsFor(access, rows, shown[i], firsts[i], bests[i]);
    p := bests[i];
    StandsIsBest(access, rows, f, p);
  }

  lemma {:induction false} StandingIsShown(access: Access, rows: seq<Row>, f: string, p: nat)
    requires StandsAt(access, rows, f, p)
    ensures rows[p] in Collapse(access, rows)
  {
    StandsIsBest(access, rows, f, p);
    CollapseShows(access, rows);
    var shown := Collapse(access, rows);
    var firsts, bests :| Shows(access, rows, shown, firsts, bests);
    var first := FirstOf(access, rows, p);
    var i :| 0 <= i < |firsts| && firsts[i] == first;
    assert StandsFor(access, rows, shown[i], firsts[i], bests[i]);
    BestUnique(access, rows, p, bests[i]);
    assert shown[i] in shown;
  }

  /**
   The row shown for a family: of those the caller can see the one with the most preferred status, among
   these the newest, and among these the first.
   */
  lemma {:induction false} Representative(access: Access, rows: seq<Row>, f: string, r: Row)
    ensures r in Collapse(access, rows) && InFamily(r, f) <==>
            exists p: nat :: StandsAt(access, rows, f, p) && rows[p] == r
  {
    if r in Collapse(access, rows) && InFamily(r, f) {
      var p := ShownStands(access, rows, f, r);
    }
    if p: nat :| StandsAt(access, rows, f, p) && rows[p] == r {
      StandingIsShown(access, rows, f, p);
    }
  }

  /** A family is shown exactly when the caller can see one of its rows. */
  lemma {:induction false} FamilyShown(access: Access, rows: seq<Row>, f: string)
    ensures (exists r :: r in Collapse(access, rows) && InFamily(r, f)) <==>
            exists q :: 0 <= q < |rows| && InFamily(rows[q], f) && CanSee(access, rows[q], f)
  {
    if r :| r in Collapse(access, rows) && InFamily(r, f) {
      var p := ShownStands(access, rows, f, r);
    }
    if q :| 0 <= q < |rows| && InFamily(rows[q], f) && CanSee(access, rows[q], f) {
      VisibleMeaning(access, rows[q], f);
      FamilyIsKey(rows[q], f);
      CollapseShows(access, rows);
      var shown := Collapse(access, rows);
      var firsts, bests :| Shows(access, rows, shown, firsts, bests);
      var first := FirstOf(access, rows, q);
      var i :| 0 <= i < |firsts| && firsts[i] == first;
      assert StandsFor(access, rows, shown[i], firsts[i], bests[i]);
      FamilyIsKey(shown[i], f);
      assert shown[i] in shown;
    }
  }
}
