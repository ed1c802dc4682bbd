/**
 Collapsing the versions of contracts and products to one row per family: the visibility filter, the loop
 that keeps the best row of each family in a dictionary, and its algebra: gathering in parts is no different.
 */
module VersionVisibility {
  import opened Symbols

  datatype Row = Row(id: Option<string>, familyId: Option<string>, status: Option<string>, createdAt: Option<real>)

  /** Who is asking: the families the caller has a stake in, and whether the caller is an admin. */
  datatype Access = Access(elevated: set<string>, isAdmin: bool)

  type Key = Option<string>

  /** version_family_id or id; an empty family id counts as none. */
  function KeyOf(row: Row): Key {
    if row.familyId.Some? && row.familyId.value != "" then row.familyId else row.id
  }

  function Status(row: Row): string {
    match row.status case None => "" case Some(s) => Lower(Strip(s))
  }

  predicate IsVisibleConsumer(row: Row) {
    Status(row) == "active" || Status(row) == "deprecated"
  }

  predicate IsAdminOnlyStatus(row: Row) {
    Status(row) == "retired"
  }

  predicate HasElevated(access: Access, key: Key) {
    access.isAdmin || (key.Some? && key.value in access.elevated)
  }

  // ---------- Ranks ----------

  datatype Rank = Rank(status: nat, negatedEpoch: real)

  function StatusRank(status: string, elevated: bool): nat {
    if elevated then
      if status == "draft" then 0 else if status == "proposed" then 1 else if status == "under_review" then 2
      else if status == "approved" then 3 else if status == "active" then 4 else if status == "deprecated" then 5
      else 999
    else if status == "active" then 0
    else if status == "deprecated" then 1
    else 999
  }

  function ComputeRank(row: Row, elevated: bool): Rank {
    Rank(StatusRank(Status(row), elevated), match row.createdAt case None => 0.0 case Some(t) => -t)
  }

  /** Tuples compare by status first, then by negated creation time. */
  predicate Beats(a: Rank, b: Rank) {
    a.status < b.status || (a.status == b.status && a.negatedEpoch < b.negatedEpoch)
  }

  function RankOf(access: Access, row: Row): Rank {
    ComputeRank(row, HasElevated(access, KeyOf(row)))
  }

  /** Newer rows win among equals, and a draft beats the active version only where the caller has a stake. */
  lemma {:induction false} RankMeaning(row: Row, other: Row, elevated: bool)
    ensures Status(row) == Status(other) && row.createdAt.Some? && other.createdAt.Some? ==>
              (Beats(ComputeRank(row, elevated), ComputeRank(other, elevated)) <==>
                row.createdAt.value > other.createdAt.value)
    ensures Status(row) == "draft" && Status(other) == "active" ==>
              (Beats(ComputeRank(row, elevated), ComputeRank(other, elevated)) <==> elevated)
  {
  }

  // ---------- First pass ----------

  predicate Visible(access: Access, row: Row) {
    var key := KeyOf(row);
    key.None?
    || (!(!access.isAdmin && IsAdminOnlyStatus(row)) && (HasElevated(access, key) || IsVisibleConsumer(row)))
  }

  function Survivors(access: Access, rows: seq<Row>): seq<Row> {
    if rows == [] then []
    else (if Visible(access, rows[0]) then [rows[0]] else []) + Survivors(access, rows[1..])
  }

  // ---------- Second pass ----------

  /** What the dictionary holds for a family. */
  datatype Entry = Entry(rank: Rank, row: Row)

  function EntryOf(access: Access, row: Row): Entry {
    Entry(RankOf(access, row), row)
  }

  function Entries(access: Access, rows: seq<Row>): (es: seq<Entry>)
    ensures |es| == |rows| && forall i :: 0 <= i < |es| ==> es[i] == EntryOf(access, rows[i])
  {
    seq(|rows|, i requires 0 <= i < |rows| => EntryOf(access, rows[i]))
  }

  function Rows(es: seq<Entry>): (rows: seq<Row>)
    ensures |rows| == |es| && forall i :: 0 <= i < |es| ==> rows[i] == es[i].row
  {
    seq(|es|, i requires 0 <= i < |es| => es[i].row)
  }

  function Family(e: Entry): Key {
    KeyOf(e.row)
  }

  /** Where picked holds its entry for key; |picked| if it has none. */
  function IndexOf(picked: seq<Entry>, key: Key): (i: nat)
    ensures i <= |picked| && (i < |picked| ==> Family(picked[i]) == key)
    ensures forall j :: 0 <= j < i ==> Family(picked[j]) != key
  {
    if picked == [] || Family(picked[0]) == key then 0 else 1 + IndexOf(picked[1..], key)
  }

  function Better(current: Entry, e: Entry): Entry {
    if Beats(e.rank, current.rank) then e else current
  }

  /** A new family goes to the end; a known one keeps its place and the better of two entries. */
  function Pick(picked: seq<Entry>, e: Entry): seq<Entry> {
    var i := IndexOf(picked, Family(e));
    if i == |picked| then picked + [e] else picked[i := Better(picked[i], e)]
  }

  function PickAll(picked: seq<Entry>, es: seq<Entry>): seq<Entry>
    decreases |es|
  {
    if es == [] then picked else PickAll(Pick(picked, es[0]), es[1..])
  }

  function Picked(access: Access, rows: seq<Row>): seq<Entry> {
    PickAll([], Entries(access, Survivors(access, rows)))
  }

  /** One row per family. */
  function Collapse(access: Access, rows: seq<Row>): seq<Row> {
    Rows(Picked(access, rows))
  }

  lemma {:induction false} SurvivorsConcat(access: Access, a: seq<Row>, b: seq<Row>)
    ensures Survivors(access, a + b) == Survivors(access, a) + Survivors(access, b)
  {
    if a == [] {
      assert a + b == b;
    } else {
      assert (a + b)[1..] == a[1..] + b;
      SurvivorsConcat(access, a[1..], b);
      Associates(if Visible(access, a[0]) then [a[0]] else [], Survivors(access, a[1..]), Survivors(access, b));
    }
  }

  lemma {:induction false} SurvivorsSnoc(access: Access, rows: seq<Row>, i: nat)
    requires i < |rows|
    ensures Survivors(access, rows[..i + 1]) ==
            Survivors(access, rows[..i]) + (if Visible(access, rows[i]) then [rows[i]] else [])
  {
    assert rows[..i + 1] == rows[..i] + [rows[i]];
    SurvivorsConcat(access, rows[..i], [rows[i]]);
    assert [rows[i]][1..] == [];
  }

  lemma {:induction false} PickAllConcat(picked: seq<Entry>, a: seq<Entry>, b: seq<Entry>)
    ensures PickAll(picked, a + b) == PickAll(PickAll(picked, a), b)
    decreases |a|
  {
    if a == [] {
      assert a + b == b;
    } else {
      assert (a + b)[1..] == a[1..] + b;
      PickAllConcat(Pick(picked, a[0]), a[1..], b);
    }
  }

  lemma {:induction false} PickAllSnoc(es: seq<Entry>, i: nat)
    requires i < |es|
    ensures PickAll([], es[..i + 1]) == Pick(PickAll([], es[..i]), es[i])
  {
    var before, one := PickAll([], es[..i]), [es[i]];
    assert es[..i + 1] == es[..i] + one;
    PickAllConcat([], es[..i], one);
    assert one[1..] == [];
    assert PickAll(before, one) == PickAll(Pick(before, es[i]), []);
  }

  /** The first pass of collapse_by_family: drops the rows the caller cannot see. */
  method DropInvisible(rows: seq<Row>, elevatedFamilyIds: set<string>, isAdmin: bool) returns (survivors: seq<Row>)
    ensures survivors == Survivors(Access(elevatedFamilyIds, isAdmin), rows)
  {
    ghost var access := Access(elevatedFamilyIds, isAdmin);
    survivors := [];
    for i := 0 to |rows|
      invariant survivors == Survivors(access, rows[..i])
    {
      var row := rows[i];
      var key := KeyOf(row);
      SurvivorsSnoc(access, rows, i);
      if key.None? {
        survivors := survivors + [row];
        continue;
      }
      if !isAdmin && IsAdminOnlyStatus(row) {
        continue;
      }
      if key.value in elevatedFamilyIds || isAdmin {
        survivors := survivors + [row];
      } else if IsVisibleConsumer(row) {
        survivors := survivors + [row];
      }
    }
    assert rows[..|rows|] == rows;
  }

  /** collapse_by_family: the second pass keeps the best row of each family in an insertion-ordered dictionary. */
  method CollapseByFamily(rows: seq<Row>, elevatedFamilyIds: set<string>, isAdmin: bool) returns (result: seq<Row>)
    ensures result == Collapse(Access(elevatedFamilyIds, isAdmin), rows)
  {
    ghost var access := Access(elevatedFamilyIds, isAdmin);
    var survivors := DropInvisible(rows, elevatedFamilyIds, isAdmin);
    ghost var es := Entries(access, survivors);
    var keys: seq<Key> := [];
    var picked: map<Key, Entry> := map[];
    for i := 0 to |survivors|
      invariant Holds(keys, picked, PickAll([], es[..i]))
    {
      var row := survivors[i];
      var key := KeyOf(row);
      ghost var before := PickAll([], es[..i]);
      PickAllSnoc(es, i);
      var hasElevated := isAdmin || (key.Some? && key.value in elevatedFamilyIds);
      var entry := Entry(ComputeRank(row, hasElevated), row);
      assert entry == es[i];
      if key !in picked {
        Absent(keys, picked, before, entry);
        keys := keys + [key];
        picked := picked[key := entry];
      } else {
        Present(keys, picked, before, entry);
        if Beats(entry.rank, picked[key].rank) {
          picked := picked[key := entry];
        }
      }
    }
    assert es[..|survivors|] == es;
    result := seq(|keys|, i requires 0 <= i < |keys| && keys[i] in picked => picked[keys[i]].row);
  }

  /** The dictionary holds entries, in this order, each under its family. */
  ghost predicate Holds(keys: seq<Key>, picked: map<Key, Entry>, es: seq<Entry>) {
    && |keys| == |es| && Distinct(es)
    && (forall i :: 0 <= i < |es| ==> keys[i] == Family(es[i]))
    && (forall i :: 0 <= i < |keys| ==> keys[i] in picked && picked[keys[i]] == es[i])
    && (forall k :: k in picked ==> k in keys)
  }

  ghost predicate Distinct(es: seq<Entry>) {
    forall i, j :: 0 <= i < j < |es| ==> Family(es[i]) != Family(es[j])
  }

  lemma {:induction false} Absent(keys: seq<Key>, picked: map<Key, Entry>, es: seq<Entry>, e: Entry)
    requires Holds(keys, picked, es) && Family(e) !in picked
    ensures Holds(keys + [Family(e)], picked[Family(e) := e], Pick(es, e))
  {
    assert IndexOf(es, Family(e)) == |es|;
  }

  lemma {:induction false} Present(keys: seq<Key>, picked: map<Key, Entry>, es: seq<Entry>, e: Entry)
    requires Holds(keys, picked, es) && Family(e) in picked
    ensures Holds(keys, if Beats(e.rank, picked[Family(e)].rank) then picked[Family(e) := e] else picked, Pick(es, e))
  {
    var i := IndexOf(es, Family(e));
    var j :| 0 <= j < |keys| && keys[j] == Family(e);
    assert i == j;
  }

  // ---------- The collapse is a homomorphism ----------

  lemma {:induction false} BetterAssociative(a: Entry, b: Entry, c: Entry)
    ensures Better(Better(a, b), c) == Better(a, Better(b, c))
  {
  }

  lemma {:induction false} IndexIs(picked: seq<Entry>, key: Key, i: nat)
    requires i < |picked| && Family(picked[i]) == key && forall j :: 0 <= j < i ==> Family(picked[j]) != key
    ensures IndexOf(picked, key) == i
  {
  }

  lemma {:induction false} NoIndex(picked: seq<Entry>, key: Key)
    requires forall j :: 0 <= j < |picked| ==> Family(picked[j]) != key
    ensures IndexOf(picked, key) == |picked|
  {
  }

  lemma {:induction false} PickKeepsDistinct(picked: seq<Entry>, e: Entry)
    requires Distinct(picked)
    ensures Distinct(Pick(picked, e))
    ensures IndexOf(Pick(picked, e), Family(e)) == IndexOf(picked, Family(e)) < |Pick(picked, e)|
  {
    IndexIs(Pick(picked, e), Family(e), IndexOf(picked, Family(e)));
  }

  lemma {:induction false} PickAllDistinct(picked: seq<Entry>, es: seq<Entry>)
    requires Distinct(picked)
    ensures Distinct(PickAll(picked, es))
    decreases |es|
  {
    if es != [] {
      PickKeepsDistinct(picked, es[0]);
      PickAllDistinct(Pick(picked, es[0]), es[1..]);
    }
  }

  /** Picking two entries of one family is picking the better of them. */
  lemma {:induction false} PickTwice(picked: seq<Entry>, a: Entry, b: Entry)
    requires Distinct(picked) && Family(a) == Family(b)
    ensures Pick(Pick(picked, a), b) == Pick(picked, Better(a, b))
  {
    PickKeepsDistinct(picked, a);
    var i := IndexOf(picked, Family(a));
    if i < |picked| { BetterAssociative(picked[i], a, b); }
  }

  lemma {:induction false} PickAt(picked: seq<Entry>, e: Entry, i: nat)
    requires i < |picked| && Family(picked[i]) == Family(e) && Distinct(picked)
    ensures Pick(picked, e) == picked[i := Better(picked[i], e)]
  {
    IndexIs(picked, Family(e), i);
  }

  lemma {:induction false} PickNew(picked: seq<Entry>, e: Entry)
    requires forall j :: 0 <= j < |picked| ==> Family(picked[j]) != Family(e)
    ensures Pick(picked, e) == picked + [e]
  {
    NoIndex(picked, Family(e));
  }

  /** An entry of a family already there can be picked before or after an entry of another family. */
  lemma {:induction false} PickCommutes(picked: seq<Entry>, a: Entry, b: Entry)
    requires Distinct(picked) && Family(a) != Family(b) && IndexOf(picked, Family(b)) < |picked|
    ensures Pick(Pick(picked, a), b) == Pick(Pick(picked, b), a)
  {
    if IndexOf(picked, Family(a)) < |picked| {
      BothKnown(picked, a, b, IndexOf(picked, Family(a)), IndexOf(picked, Family(b)));
    } else {
      OneKnown(picked, a, b, IndexOf(picked, Family(b)));
    }
  }

  lemma {:induction false} BothKnown(picked: seq<Entry>, a: Entry, b: Entry, i: nat, j: nat)
    requires Distinct(picked) && i < |picked| && j < |picked| && i != j
    requires Family(picked[i]) == Family(a) && Family(picked[j]) == Family(b)
    ensures Pick(Pick(picked, a), b) == Pick(Pick(picked, b), a)
  {
    PickAt(picked, a, i);
    PickAt(picked, b, j);
    PickAt(picked[i := Better(picked[i], a)], b, j);
    PickAt(picked[j := Better(picked[j], b)], a, i);
    assert picked[i := Better(picked[i], a)][j := Better(picked[j], b)]
        == picked[j := Better(picked[j], b)][i := Better(picked[i], a)];
  }

  lemma {:induction false} OneKnown(picked: seq<Entry>, a: Entry, b: Entry, j: nat)
    requires Distinct(picked) && j < |picked| && Family(picked[j]) == Family(b)
    requires forall k :: 0 <= k < |picked| ==> Family(picked[k]) != Family(a)
    requires Family(a) != Family(b)
    ensures Pick(Pick(picked, a), b) == Pick(Pick(picked, b), a)
  {
    PickAt(picked, b, j);
    PickNew(picked, a);
    PickAt(picked + [a], b, j);
    PickNew(picked[j := Better(picked[j], b)], a);
    assert (picked + [a])[j := Better(picked[j], b)] == picked[j := Better(picked[j], b)] + [a];
  }

  lemma {:induction false} PickLast(picked: seq<Entry>, es: seq<Entry>, e: Entry)
    requires Distinct(picked) && IndexOf(picked, Family(e)) < |picked|
    requires forall x :: x in es ==> Family(x) != Family(e)
    ensures Pick(PickAll(picked, es), e) == PickAll(Pick(picked, e), es)
    decreases |es|
  {
    if es != [] {
      var next := Pick(picked, es[0]);
      PickKeepsDistinct(picked, es[0]);
      IndexIs(next, Family(e), IndexOf(picked, Family(e)));
      PickLast(next, es[1..], e);
      PickCommutes(picked, es[0], e);
    }
  }

  lemma {:induction false} PickHead(q: seq<Entry>, e: Entry)
    requires q != []
    ensures Pick(q, e) == if Family(q[0]) == Family(e) then [Better(q[0], e)] + q[1..] else [q[0]] + Pick(q[1..], e)
  {
  }

  /** Picking a collapsed list with one more entry picked into it is picking the list, then the entry. */
  lemma {:induction false} PickIntoPicked(base: seq<Entry>, q: seq<Entry>, e: Entry)
    requires Distinct(base) && Distinct(q)
    ensures PickAll(base, Pick(q, e)) == Pick(PickAll(base, q), e)
    decreases |q|
  {
    if q != [] {
      PickHead(q, e);
      PickKeepsDistinct(base, q[0]);
      if Family(q[0]) == Family(e) {
        PickTwice(base, q[0], e);
        PickLast(Pick(base, q[0]), q[1..], e);
        assert ([Better(q[0], e)] + q[1..])[1..] == q[1..];
      } else {
        PickIntoPicked(Pick(base, q[0]), q[1..], e);
        assert ([q[0]] + Pick(q[1..], e))[1..] == Pick(q[1..], e);
      }
    }
  }

  lemma {:induction false} PickCollapsed(base: seq<Entry>, q: seq<Entry>, es: seq<Entry>)
    requires Distinct(base) && Distinct(q)
    ensures PickAll(base, PickAll(q, es)) == PickAll(PickAll(base, q), es)
    decreases |es|
  {
    if es != [] {
      PickKeepsDistinct(q, es[0]);
      PickCollapsed(base, Pick(q, es[0]), es[1..]);
      PickIntoPicked(base, q, es[0]);
    }
  }

  lemma {:induction false} PickAllMembers(picked: seq<Entry>, es: seq<Entry>)
    ensures forall e :: e in PickAll(picked, es) ==> e in picked || e in es
    decreases |es|
  {
    if es != [] {
      PickAllMembers(Pick(picked, es[0]), es[1..]);
    }
  }

  lemma {:induction false} SurvivorsVisible(access: Access, rows: seq<Row>)
    ensures forall r :: r in Survivors(access, rows) <==> r in rows && Visible(access, r)
  {
    if rows != [] {
      SurvivorsVisible(access, rows[1..]);
      assert rows == [rows[0]] + rows[1..];
    }
  }

  lemma {:induction false} AllSurvive(access: Access, rows: seq<Row>)
    requires forall r :: r in rows ==> Visible(access, r)
    ensures Survivors(access, rows) == rows
  {
    if rows != [] {
      AllSurvive(access, rows[1..]);
    }
  }

  /** The entries picked are those of visible rows of the list. */
  lemma {:induction false} PickedFromRows(access: Access, rows: seq<Row>)
    ensures forall e :: e in Picked(access, rows) ==>
            e == EntryOf(access, e.row) && e.row in rows && Visible(access, e.row)
  {
    var survivors := Survivors(access, rows);
    PickAllMembers([], Entries(access, survivors));
    SurvivorsVisible(access, rows);
    forall e | e in Entries(access, survivors) ensures e.row in survivors && e == EntryOf(access, e.row) {
      var i :| 0 <= i < |survivors| && Entries(access, survivors)[i] == e;
    }
  }

  lemma {:induction false} EntriesConcat(access: Access, a: seq<Row>, b: seq<Row>)
    ensures Entries(access, a + b) == Entries(access, a) + Entries(access, b)
  {
  }

  /** The rows of a collapse are visible, and their entries are those picked. */
  lemma {:induction false} PickedAgain(access: Access, rows: seq<Row>)
    ensures Entries(access, Collapse(access, rows)) == Picked(access, rows)
    ensures forall r :: r in Collapse(access, rows) ==> Visible(access, r)
  {
    var picked := Picked(access, rows);
    PickedFromRows(access, rows);
    forall i | 0 <= i < |picked| ensures EntryOf(access, picked[i].row) == picked[i] && Visible(access, picked[i].row) {
      assert picked[i] in picked;
    }
  }

  /** A collapsed list collapses to the same entries as before. */
  lemma {:induction false} EntriesAgain(access: Access, a: seq<Row>, b: seq<Row>)
    ensures var again := Collapse(access, a) + Collapse(access, b);
            Entries(access, Survivors(access, again)) == Picked(access, a) + Picked(access, b)
  {
    PickedAgain(access, a);
    PickedAgain(access, b);
    AllSurvive(access, Collapse(access, a) + Collapse(access, b));
    EntriesConcat(access, Collapse(access, a), Collapse(access, b));
  }

  /**
   Collapsing in parts is collapsing at once: rows, order and ties are the same however the rows were
   gathered, for every caller.
   */
  lemma {:induction false} CollapseHomomorphism(access: Access, a: seq<Row>, b: seq<Row>)
    ensures Collapse(access, a + b) == Collapse(access, Collapse(access, a) + Collapse(access, b))
  {
    var ea, eb := Entries(access, Survivors(access, a)), Entries(access, Survivors(access, b));
    var pa, pb := PickAll([], ea), PickAll([], eb);
    SurvivorsConcat(access, a, b);
    EntriesConcat(access, Survivors(access, a), Survivors(access, b));
    PickAllConcat([], ea, eb);
    EntriesAgain(access, a, b);
    PickAllConcat([], pa, pb);
    PickAllDistinct([], ea);
    PickCollapsed([], [], ea);
    PickCollapsed(pa, [], eb);
  }

  lemma {:induction false} CollapseIdempotent(access: Access, rows: seq<Row>)
    ensures Collapse(access, Collapse(access, rows)) == Collapse(access, rows)
  {
    CollapseHomomorphism(access, rows, []);
    assert rows + [] == rows && Collapse(access, rows) + Collapse(access, []) == Collapse(access, rows);
  }
}
