/** The migration that makes the unique constraint on triples work: NULLs are written out, duplicates deleted. */
module TripleDedup {
  import opened Symbols

  /** A row of rdf_triples; origin stands for the columns that only track its source. */
  datatype Triple = Triple(
    id: string, subj: string, pred: string, obj: string, isUri: bool,
    language: Option<string>, dtype: Option<string>, context: string,
    createdAt: int, origin: Option<string>)

  /** The columns of uq_rdf_triple. */
  datatype Key = Key(subj: string, pred: string, obj: string, language: Option<string>, dtype: Option<string>,
    context: string)

  function KeyOf(t: Triple): Key {
    Key(t.subj, t.pred, t.obj, t.language, t.dtype, t.context)
  }

  predicate HasNull(t: Triple) {
    t.language.None? || t.dtype.None?
  }

  /** A unique constraint lets rows through that agree on NULL: NULL equals nothing. */
  predicate Conflict(a: Triple, b: Triple) {
    KeyOf(a) == KeyOf(b) && !HasNull(a)
  }

  ghost predicate ConflictFree(rows: seq<Triple>) {
    forall i, j :: 0 <= i < j < |rows| ==> !Conflict(rows[i], rows[j])
  }

  ghost predicate NoNulls(rows: seq<Triple>) {
    forall i :: 0 <= i < |rows| ==> !HasNull(rows[i])
  }

  ghost predicate KeysDistinct(rows: seq<Triple>) {
    forall i, j :: 0 <= i < j < |rows| ==> KeyOf(rows[i]) != KeyOf(rows[j])
  }

  function OrEmpty(column: Option<string>): Option<string> {
    if column.None? then Some("") else column
  }

  function NullIfEmpty(column: Option<string>): Option<string> {
    if column == Some("") then None else column
  }

  function Coalesce(t: Triple): Triple {
    t.(language := OrEmpty(t.language), dtype := OrEmpty(t.dtype))
  }

  function Uncoalesce(t: Triple): Triple {
    t.(language := NullIfEmpty(t.language), dtype := NullIfEmpty(t.dtype))
  }

  function Mapped(f: Triple -> Triple, rows: seq<Triple>): (r: seq<Triple>)
    ensures |r| == |rows| && forall i :: 0 <= i < |r| ==> r[i] == f(rows[i])
  {
    seq(|rows|, i requires 0 <= i < |rows| => f(rows[i]))
  }

  function Coalesced(rows: seq<Triple>): seq<Triple> {
    Mapped(Coalesce, rows)
  }

  function Uncoalesced(rows: seq<Triple>): seq<Triple> {
    Mapped(Uncoalesce, rows)
  }

  // ---------- Row numbers ----------

  /**
   What ROW_NUMBER() OVER (PARTITION BY key ORDER BY created_at) may return; equal times are numbered in
   any order.
   */
  ghost predicate Numbering(rows: seq<Triple>, numbers: seq<nat>) {
    && |numbers| == |rows|
    && (forall i :: 0 <= i < |rows| ==> numbers[i] >= 1)
    && (forall i, j :: 0 <= i < |rows| && 0 <= j < |rows| && i != j && KeyOf(rows[i]) == KeyOf(rows[j]) ==>
          numbers[i] != numbers[j] && (rows[i].createdAt < rows[j].createdAt ==> numbers[i] < numbers[j]))
    && (forall i :: 0 <= i < |rows| && numbers[i] > 1 ==> HasNumber(rows, numbers, KeyOf(rows[i]), numbers[i] - 1))
  }

  ghost predicate HasNumber(rows: seq<Triple>, numbers: seq<nat>, key: Key, n: nat) {
    exists i :: 0 <= i < |rows| && i < |numbers| && KeyOf(rows[i]) == key && numbers[i] == n
  }

  /** The rows the DELETE leaves. */
  function Kept(rows: seq<Triple>, numbers: seq<nat>): seq<Triple>
    requires |numbers| == |rows|
  {
    if rows == [] then []
    else (if numbers[0] > 1 then [] else [rows[0]]) + Kept(rows[1..], numbers[1..])
  }

  predicate Precedes(rows: seq<Triple>, i: nat, j: nat)
    requires i < |rows| && j < |rows|
  {
    rows[i].createdAt < rows[j].createdAt || (rows[i].createdAt == rows[j].createdAt && i <= j)
  }

  /** The rows of one key up to a row, in the order of the window. */
  function UpTo(rows: seq<Triple>, i: nat): set<nat>
    requires i < |rows|
  {
    set j: nat | j < |rows| && KeyOf(rows[j]) == KeyOf(rows[i]) && Precedes(rows, j, i)
  }

  lemma {:induction false} Within<T>(a: set<T>, b: set<T>)
    requires a <= b
    ensures |a| <= |b|
    ensures a != b ==> |a| < |b|
  {
    if x :| x in a { Within(a - {x}, b - {x}); }
  }

  /** The last of some rows in the order of the window. */
  lemma {:induction false} Latest(rows: seq<Triple>, s: set<nat>) returns (last: nat)
    requires s != {} && forall j :: j in s ==> j < |rows|
    ensures last in s && forall j :: j in s ==> Precedes(rows, j, last)
  {
    var x :| x in s;
    if s == {x} {
      last := x;
    } else {
      var other := Latest(rows, s - {x});
      last := if Precedes(rows, x, other) then other else x;
      forall j | j in s ensures Precedes(rows, j, last) {
        if j != x { assert j in s - {x} && Precedes(rows, j, other); }
      }
    }
  }

  lemma {:induction false} UpToOrder(rows: seq<Triple>, i: nat, j: nat)
    requires i < |rows| && j < |rows| && i != j && KeyOf(rows[i]) == KeyOf(rows[j]) && Precedes(rows, i, j)
    ensures |UpTo(rows, i)| < |UpTo(rows, j)|
  {
    assert j in UpTo(rows, j) && j !in UpTo(rows, i);
    assert UpTo(rows, i) <= UpTo(rows, j);
    Within(UpTo(rows, i), UpTo(rows, j));
  }

  lemma {:induction false} PreviousNumber(rows: seq<Triple>, i: nat) returns (j: nat)
    requires i < |rows| && |UpTo(rows, i)| > 1
    ensures j < |rows| && KeyOf(rows[j]) == KeyOf(rows[i]) && |UpTo(rows, j)| == |UpTo(rows, i)| - 1
  {
    assert i in UpTo(rows, i);
    var before := UpTo(rows, i) - {i};
    assert |before| == |UpTo(rows, i)| - 1;
    j := Latest(rows, before);
    assert UpTo(rows, j) == before;
  }

  method RowNumbers(rows: seq<Triple>) returns (numbers: seq<nat>)
    ensures Numbering(rows, numbers)
  {
    numbers := seq(|rows|, i requires 0 <= i < |rows| => |UpTo(rows, i)|);
    forall i | 0 <= i < |rows| ensures numbers[i] >= 1 {
      assert i in UpTo(rows, i);
    }
    forall i, j | 0 <= i < |rows| && 0 <= j < |rows| && i != j && KeyOf(rows[i]) == KeyOf(rows[j])
      ensures numbers[i] != numbers[j] && (rows[i].createdAt < rows[j].createdAt ==> numbers[i] < numbers[j])
    {
      if Precedes(rows, i, j) { UpToOrder(rows, i, j); } else { UpToOrder(rows, j, i); }
    }
    forall i | 0 <= i < |rows| && numbers[i] > 1 ensures HasNumber(rows, numbers, KeyOf(rows[i]), numbers[i] - 1) {
      var j := PreviousNumber(rows, i);
      assert numbers[j] == numbers[i] - 1;
    }
  }

  lemma {:induction false} KeptConcat(a: seq<Triple>, m: seq<nat>, b: seq<Triple>, n: seq<nat>)
    requires |a| == |m| && |b| == |n|
    ensures Kept(a + b, m + n) == Kept(a, m) + Kept(b, n)
  {
    if a == [] {
      assert a + b == b && m + n == n;
    } else {
      assert (a + b)[1..] == a[1..] + b && (m + n)[1..] == m[1..] + n;
      KeptConcat(a[1..], m[1..], b, n);
      Associates(if m[0] > 1 then [] else [a[0]], Kept(a[1..], m[1..]), Kept(b, n));
    }
  }

  /** Deletes the rows numbered above one. */
  method Delete(rows: seq<Triple>, numbers: seq<nat>) returns (kept: seq<Triple>)
    requires |numbers| == |rows|
    ensures kept == Kept(rows, numbers)
  {
    kept := [];
    for i := 0 to |rows|
      invariant kept == Kept(rows[..i], numbers[..i])
    {
      assert rows[..i + 1] == rows[..i] + [rows[i]] && numbers[..i + 1] == numbers[..i] + [numbers[i]];
      KeptConcat(rows[..i], numbers[..i], [rows[i]], [numbers[i]]);
      if numbers[i] <= 1 {
        kept := kept + [rows[i]];
      }
    }
    assert rows[..|rows|] == rows && numbers[..|rows|] == numbers;
  }

  // ---------- The migration ----------

  ghost predicate Upgraded(before: seq<Triple>, after: seq<Triple>) {
    exists numbers :: Numbering(Coalesced(before), numbers) && after == Kept(Coalesced(before), numbers)
  }

  class Table {
    var rows: seq<Triple>
    var unique: bool
    var notNull: bool

    /** The constraints declared hold of the rows. */
    ghost predicate Valid()
      reads this
    {
      (unique ==> ConflictFree(rows)) && (notNull ==> NoNulls(rows))
    }

    constructor (rows: seq<Triple>)
      requires ConflictFree(rows)
      ensures Valid() && this.rows == rows && unique && !notNull
    {
      this.rows := rows;
      this.unique := true;
      this.notNull := false;
    }

    method DropUnique()
      requires Valid()
      modifies this`unique
      ensures Valid() && !unique
    {
      unique := false;
    }

    method AddUnique() returns (r: Result<()>)
      requires Valid()
      modifies this`unique
      ensures Valid() && (r.Ok? <==> ConflictFree(rows)) && unique == (old(unique) || r.Ok?)
    {
      if exists i, j :: 0 <= i < j < |rows| && Conflict(rows[i], rows[j]) {
        return Err;
      }
      unique := true;
      return Ok(());
    }

    method SetNotNull() returns (r: Result<()>)
      requires Valid()
      modifies this`notNull
      ensures Valid() && (r.Ok? <==> NoNulls(rows)) && notNull == (old(notNull) || r.Ok?)
    {
      if exists i :: 0 <= i < |rows| && HasNull(rows[i]) {
        return Err;
      }
      notNull := true;
      return Ok(());
    }

    method UpdateAll(f: Triple -> Triple)
      requires Valid() && !unique && !notNull
      modifies this`rows
      ensures Valid() && rows == Mapped(f, old(rows))
    {
      rows := Mapped(f, rows);
    }

    method Deduplicate()
      requires Valid() && !unique
      modifies this`rows
      ensures exists numbers :: Numbering(old(rows), numbers) && rows == Kept(old(rows), numbers)
      ensures Valid()
    {
      var numbers := RowNumbers(rows);
      KeptNoNulls(rows, numbers);
      rows := Delete(rows, numbers);
    }

    method Upgrade() returns (r: Result<()>)
      requires Valid() && !notNull
      modifies this
      ensures r.Ok? && Valid() && unique && notNull
      ensures Upgraded(old(rows), rows)
    {
      DropUnique();
      UpdateAll((t: Triple) => t.(language := OrEmpty(t.language)));
      UpdateAll((t: Triple) => t.(dtype := OrEmpty(t.dtype)));
      assert rows == Coalesced(old(rows));
      Deduplicate();
      UpgradedConstraints(old(rows), rows);
      r := SetNotNull();
      if r.Ok? {
        r := AddUnique();
      }
    }

    method Downgrade() returns (r: Result<()>)
      requires Valid() && unique && notNull
      modifies this
      ensures r.Ok? && Valid() && unique && !notNull && rows == Uncoalesced(old(rows))
    {
      DropUnique();
      notNull := false;
      UpdateAll((t: Triple) => t.(language := NullIfEmpty(t.language)));
      UpdateAll((t: Triple) => t.(dtype := NullIfEmpty(t.dtype)));
      assert rows == Uncoalesced(old(rows));
      r := AddUnique();
    }

    /** add_triple: coerces NULLs, and does nothing on conflict. */
    method Add(t: Triple)
      requires Valid() && unique
      modifies this`rows
      ensures Valid() && rows == Inserted(old(rows), Coalesce(t))
    {
      var coerced := Coalesce(t);
      if !exists i :: 0 <= i < |rows| && Conflict(rows[i], coerced) {
        rows := rows + [coerced];
      }
    }
  }

  // ---------- What the DELETE keeps ----------

  /** The rows kept are rows of the table that are numbered one. */
  lemma {:induction false} KeptFrom(rows: seq<Triple>, numbers: seq<nat>)
    requires |numbers| == |rows|
    ensures forall t :: t in Kept(rows, numbers) <==> exists i :: 0 <= i < |rows| && numbers[i] <= 1 && rows[i] == t
  {
    if rows != [] {
      KeptFrom(rows[1..], numbers[1..]);
      forall t ensures t in Kept(rows, numbers) <==> exists i :: 0 <= i < |rows| && numbers[i] <= 1 && rows[i] == t {
        if t in Kept(rows[1..], numbers[1..]) {
          var i :| 0 <= i < |rows[1..]| && numbers[1..][i] <= 1 && rows[1..][i] == t;
          assert rows[i + 1] == t;
        }
        if i :| 0 <= i < |rows| && numbers[i] <= 1 && rows[i] == t {
          if i > 0 { assert rows[1..][i - 1] == t && numbers[1..][i - 1] <= 1; }
        }
      }
    }
  }

  lemma {:induction false} KeptNoNulls(rows: seq<Triple>, numbers: seq<nat>)
    requires |numbers| == |rows|
    ensures NoNulls(rows) ==> NoNulls(Kept(rows, numbers))
  {
    var kept := Kept(rows, numbers);
    KeptFrom(rows, numbers);
    forall k | NoNulls(rows) && 0 <= k < |kept| ensures !HasNull(kept[k]) { assert kept[k] in kept; }
  }

  /** The constraints can be declared. */
  lemma {:induction false} UpgradedConstraints(before: seq<Triple>, after: seq<Triple>)
    requires Upgraded(before, after)
    ensures ConflictFree(after) && NoNulls(after)
  {
    var numbers :| Numbering(Coalesced(before), numbers) && after == Kept(Coalesced(before), numbers);
    KeptDistinct(Coalesced(before), numbers);
    KeptNoNulls(Coalesced(before), numbers);
  }

  lemma {:induction false} KeptDistinctIn(rows: seq<Triple>, numbers: seq<nat>)
    requires |numbers| == |rows|
    requires forall i, j :: 0 <= i < j < |rows| && numbers[i] <= 1 && numbers[j] <= 1 ==>
             KeyOf(rows[i]) != KeyOf(rows[j])
    ensures KeysDistinct(Kept(rows, numbers))
  {
    if rows != [] {
      KeptDistinctIn(rows[1..], numbers[1..]);
      KeptFrom(rows[1..], numbers[1..]);
      var rest := Kept(rows[1..], numbers[1..]);
      forall j | numbers[0] <= 1 && 0 <= j < |rest| ensures KeyOf(rest[j]) != KeyOf(rows[0]) {
        assert rest[j] in rest;
      }
    }
  }

  lemma {:induction false} KeptDistinct(rows: seq<Triple>, numbers: seq<nat>)
    requires Numbering(rows, numbers)
    ensures KeysDistinct(Kept(rows, numbers))
  {
    KeptDistinctIn(rows, numbers);
  }

  lemma {:induction false} FirstOfKey(rows: seq<Triple>, numbers: seq<nat>, i: nat) returns (first: nat)
    requires Numbering(rows, numbers) && i < |rows|
    ensures first < |rows| && KeyOf(rows[first]) == KeyOf(rows[i]) && numbers[first] == 1
    decreases numbers[i]
  {
    if numbers[i] == 1 {
      first := i;
    } else {
      var j :| 0 <= j < |rows| && j < |numbers| && KeyOf(rows[j]) == KeyOf(rows[i]) && numbers[j] == numbers[i] - 1;
      first := FirstOfKey(rows, numbers, j);
    }
  }

  ghost predicate Earliest(rows: seq<Triple>, t: Triple) {
    t in rows && forall other :: other in rows && KeyOf(other) == KeyOf(t) ==> t.createdAt <= other.createdAt
  }

  ghost predicate HasKey(rows: seq<Triple>, key: Key) {
    exists i :: 0 <= i < |rows| && KeyOf(rows[i]) == key
  }

  lemma {:induction false} KeptEarliest(rows: seq<Triple>, numbers: seq<nat>, t: Triple)
    requires Numbering(rows, numbers) && t in Kept(rows, numbers)
    ensures Earliest(rows, t)
  {
    KeptFrom(rows, numbers);
    var i :| 0 <= i < |rows| && numbers[i] <= 1 && rows[i] == t;
    forall other | other in rows && KeyOf(other) == KeyOf(t) ensures t.createdAt <= other.createdAt {
      var j :| 0 <= j < |rows| && rows[j] == other;
      assert numbers[j] >= 1;
    }
  }

  lemma {:induction false} KeptKeys(rows: seq<Triple>, numbers: seq<nat>, key: Key)
    requires Numbering(rows, numbers)
    ensures HasKey(Kept(rows, numbers), key) <==> HasKey(rows, key)
  {
    var kept := Kept(rows, numbers);
    KeptFrom(rows, numbers);
    if HasKey(kept, key) {
      var k :| 0 <= k < |kept| && KeyOf(kept[k]) == key;
      assert kept[k] in kept;
    }
    if HasKey(rows, key) {
      var i :| 0 <= i < |rows| && KeyOf(rows[i]) == key;
      var first := FirstOfKey(rows, numbers, i);
      assert rows[first] in kept;
      var k :| 0 <= k < |kept| && kept[k] == rows[first];
    }
  }

  /**
   However ties are broken, the upgrade leaves exactly the coalesced keys there were, each once, and each
   on a row that was in the table, unchanged up to NULL, created no later than any other of that key.
   */
  lemma {:induction false} UpgradeSpecification(before: seq<Triple>, after: seq<Triple>, key: Key)
    requires Upgraded(before, after)
    ensures KeysDistinct(after) && NoNulls(after)
    ensures HasKey(after, key) <==> HasKey(Coalesced(before), key)
    ensures forall t :: t in after ==> Earliest(Coalesced(before), t)
  {
    var rows := Coalesced(before);
    var numbers :| Numbering(rows, numbers) && after == Kept(rows, numbers);
    KeptDistinct(rows, numbers);
    KeptKeys(rows, numbers, key);
    forall t | t in after ensures Earliest(rows, t) { KeptEarliest(rows, numbers, t); }
    UpgradedConstraints(before, after);
  }

  // ---------- Column by column ----------

  /** A column as it reads after the upgrade: NULL is the empty string. */
  function Written(column: Option<string>): string {
    match column case None => "" case Some(s) => s
  }

  /** Two rows agree on all six columns of the constraint, NULL read as the empty string. */
  predicate Agree(a: Triple, b: Triple) {
    && a.subj == b.subj && a.pred == b.pred && a.obj == b.obj
    && Written(a.language) == Written(b.language) && Written(a.dtype) == Written(b.dtype) && a.context == b.context
  }

  /** The row b of a table, its NULLs written out, and no row that agrees with it is older. */
  ghost predicate Keeps(rows: seq<Triple>, b: Triple, kept: Triple) {
    && b in rows && kept == b.(language := Some(Written(b.language)), dtype := Some(Written(b.dtype)))
    && forall other :: other in rows && Agree(other, b) ==> b.createdAt <= other.createdAt
  }

  lemma {:induction false} AgreeIsKey(a: Triple, b: Triple)
    ensures Agree(a, b) <==> KeyOf(Coalesce(a)) == KeyOf(Coalesce(b))
  {
  }

  lemma {:induction false} CoalescedFrom(rows: seq<Triple>, t: Triple) returns (b: Triple)
    requires t in Coalesced(rows)
    ensures b in rows && t == Coalesce(b)
  {
    var i :| 0 <= i < |rows| && Coalesced(rows)[i] == t;
    b := rows[i];
  }

  lemma {:induction false} CoalescedHas(rows: seq<Triple>, b: Triple)
    requires b in rows
    ensures Coalesce(b) in Coalesced(rows)
  {
    var i :| 0 <= i < |rows| && rows[i] == b;
    assert Coalesced(rows)[i] == Coalesce(b);
  }

  lemma {:induction false} KeptColumns(before: seq<Triple>, after: seq<Triple>, a: Triple) returns (b: Triple)
    requires Upgraded(before, after) && a in after
    ensures Keeps(before, b, a)
  {
    UpgradeSpecification(before, after, KeyOf(a));
    b := EarliestColumns(before, a);
  }

  lemma {:induction false} EarliestColumns(rows: seq<Triple>, a: Triple) returns (b: Triple)
    requires Earliest(Coalesced(rows), a)
    ensures Keeps(rows, b, a)
  {
    b := CoalescedFrom(rows, a);
    forall other | other in rows && Agree(other, b) ensures b.createdAt <= other.createdAt {
      AgreeIsKey(other, b);
      CoalescedHas(rows, other);
    }
  }

  lemma {:induction false} ColumnsKept(before: seq<Triple>, after: seq<Triple>, b: Triple) returns (a: Triple)
    requires Upgraded(before, after) && b in before
    ensures a in after && Agree(a, b)
  {
    UpgradeSpecification(before, after, KeyOf(Coalesce(b)));
    CoalescedHas(before, b);
    var i :| 0 <= i < |before| && Coalesced(before)[i] == Coalesce(b);
    assert HasKey(Coalesced(before), KeyOf(Coalesce(b)));
    var k :| 0 <= k < |after| && KeyOf(after[k]) == KeyOf(Coalesce(b));
    a := after[k];
    var c := KeptColumns(before, after, a);
    AgreeIsKey(c, b);
  }

  /**
   The upgrade, column by column: no two rows agree on all six columns afterwards and none has a NULL, every
   row is an earliest of the rows that agreed with it, and every row there was agrees with one that is left.
   */
  lemma {:induction false} ColumnsSpecification(before: seq<Triple>, after: seq<Triple>)
    requires Upgraded(before, after)
    ensures forall i, j :: 0 <= i < j < |after| ==> !Agree(after[i], after[j])
    ensures forall a :: a in after ==>
              a.language.Some? && a.dtype.Some? && exists b :: Keeps(before, b, a)
    ensures forall b :: b in before ==> exists a :: a in after && Agree(a, b)
  {
    UpgradeSpecification(before, after, Key("", "", "", None, None, ""));
    forall a | a in after ensures a.language.Some? && a.dtype.Some? && exists b :: Keeps(before, b, a) {
      var b := KeptColumns(before, after, a);
    }
    forall i, j | 0 <= i < j < |after| ensures !Agree(after[i], after[j]) {
      assert after[i] in after && after[j] in after;
      AgreeIsKey(after[i], after[j]);
      assert Coalesce(after[i]) == after[i] && Coalesce(after[j]) == after[j];
    }
    forall b | b in before ensures exists a :: a in after && Agree(a, b) {
      var a := ColumnsKept(before, after, b);
    }
  }

  /** Two rows that differ in any of the six columns are both still represented, by different rows. */
  lemma {:induction false} DifferencesKept(before: seq<Triple>, after: seq<Triple>, b: Triple, c: Triple)
    requires Upgraded(before, after) && b in before && c in before
    requires b.subj != c.subj || b.pred != c.pred || b.obj != c.obj || Written(b.language) != Written(c.language)
             || Written(b.dtype) != Written(c.dtype) || b.context != c.context
    ensures exists i, j :: 0 <= i < |after| && 0 <= j < |after| && i != j && Agree(after[i], b) && Agree(after[j], c)
  {
    var a := ColumnsKept(before, after, b);
    var d := ColumnsKept(before, after, c);
    var i :| 0 <= i < |after| && after[i] == a;
    var j :| 0 <= j < |after| && after[j] == d;
    assert i != j;
  }

  /** What the constraint forbids: two rows the same in all six columns, neither column NULL. */
  lemma {:induction false} ConstraintMeaning(rows: seq<Triple>)
    ensures ConflictFree(rows) <==>
            forall i, j :: 0 <= i < j < |rows| && Agree(rows[i], rows[j]) ==>
              || rows[i].language.None? || rows[i].dtype.None? || rows[j].language.None? || rows[j].dtype.None?
  {
    forall i, j | 0 <= i < j < |rows|
      ensures Conflict(rows[i], rows[j]) <==>
              && Agree(rows[i], rows[j]) && rows[i].language.Some? && rows[i].dtype.Some?
              && rows[j].language.Some? && rows[j].dtype.Some?
    {
    }
  }

  // ---------- Running it again, and back ----------

  lemma {:induction false} NothingDropped(rows: seq<Triple>, numbers: seq<nat>)
    requires |numbers| == |rows|
    ensures |Kept(rows, numbers)| <= |rows|
    ensures (forall i :: 0 <= i < |rows| ==> numbers[i] <= 1) <==> |Kept(rows, numbers)| == |rows|
    ensures (forall i :: 0 <= i < |rows| ==> numbers[i] <= 1) ==> Kept(rows, numbers) == rows
  {
    if rows != [] {
      NothingDropped(rows[1..], numbers[1..]);
      if forall i :: 0 <= i < |rows[1..]| ==> numbers[1..][i] <= 1 {
        forall i | 0 < i < |rows| ensures numbers[i] <= 1 { assert numbers[i] == numbers[1..][i - 1]; }
      }
    }
  }

  /** The DELETE leaves the table alone exactly when no key came twice. */
  lemma {:induction false} DedupKeepsAll(rows: seq<Triple>, numbers: seq<nat>)
    requires Numbering(rows, numbers)
    ensures KeysDistinct(rows) <==> |Kept(rows, numbers)| == |rows|
    ensures KeysDistinct(rows) ==> Kept(rows, numbers) == rows
  {
    NothingDropped(rows, numbers);
    if KeysDistinct(rows) {
      forall i | 0 <= i < |rows| ensures numbers[i] <= 1 {
        if numbers[i] > 1 {
          var first := FirstOfKey(rows, numbers, i);
          assert false;
        }
      }
    } else {
      var i, j :| 0 <= i < j < |rows| && KeyOf(rows[i]) == KeyOf(rows[j]);
      assert numbers[i] != numbers[j];
    }
  }

  /** A second upgrade changes nothing. */
  lemma {:induction false} UpgradeAgain(before: seq<Triple>, after: seq<Triple>, again: seq<Triple>)
    requires Upgraded(before, after) && Upgraded(after, again)
    ensures again == after
  {
    UpgradeSpecification(before, after, Key("", "", "", None, None, ""));
    var numbers :| Numbering(Coalesced(after), numbers) && again == Kept(Coalesced(after), numbers);
    assert Coalesced(after) == after;
    DedupKeepsAll(after, numbers);
  }

  /** Downgrading and upgrading again restores a migrated table. */
  lemma {:induction false} DowngradeUndone(rows: seq<Triple>, again: seq<Triple>)
    requires KeysDistinct(rows) && NoNulls(rows) && Upgraded(Uncoalesced(rows), again)
    ensures again == rows
  {
    forall i | 0 <= i < |rows| ensures Coalesce(Uncoalesce(rows[i])) == rows[i] {
      assert !HasNull(rows[i]);
    }
    assert Coalesced(Uncoalesced(rows)) == rows;
    var numbers :| Numbering(rows, numbers) && again == Kept(rows, numbers);
    DedupKeepsAll(rows, numbers);
  }

  ghost predicate NoEmpties(rows: seq<Triple>) {
    forall i :: 0 <= i < |rows| ==> rows[i].language != Some("") && rows[i].dtype != Some("")
  }

  /** The downgrade gives back the original table exactly when it held no empty strings and no hidden duplicates. */
  lemma {:induction false} UpgradeUndone(before: seq<Triple>, after: seq<Triple>)
    requires Upgraded(before, after)
    ensures Uncoalesced(after) == before <==> NoEmpties(before) && KeysDistinct(before)
  {
    var rows := Coalesced(before);
    var numbers :| Numbering(rows, numbers) && after == Kept(rows, numbers);
    DedupKeepsAll(rows, numbers);
    if Uncoalesced(after) == before {
      forall i | 0 <= i < |before| ensures before[i] == Uncoalesce(rows[i]) && before[i] == Uncoalesce(after[i]) {}
      assert NoEmpties(before);
      CoalescedKeys(before);
    }
    if NoEmpties(before) && KeysDistinct(before) {
      CoalescedKeys(before);
      forall i | 0 <= i < |before| ensures Uncoalesce(rows[i]) == before[i] {}
    }
  }

  /** Without empty strings, coalescing makes no two keys equal. */
  lemma {:induction false} CoalescedKeys(rows: seq<Triple>)
    requires NoEmpties(rows)
    ensures KeysDistinct(Coalesced(rows)) <==> KeysDistinct(rows)
  {
    var coalesced := Coalesced(rows);
    forall i, j | 0 <= i < j < |rows|
      ensures KeyOf(coalesced[i]) == KeyOf(coalesced[j]) <==> KeyOf(rows[i]) == KeyOf(rows[j])
    {
      assert coalesced[i] == Coalesce(rows[i]) && coalesced[j] == Coalesce(rows[j]);
    }
  }

  // ---------- What is not in the key ----------

  /** What a row states: an object that is a URI and a literal spelled the same are different objects. */
  datatype Statement = Statement(key: Key, isUri: bool)

  function StatementOf(t: Triple): Statement {
    Statement(KeyOf(t), t.isUri)
  }

  ghost predicate States(rows: seq<Triple>, s: Statement) {
    exists t :: t in rows && StatementOf(t) == s
  }

  ghost predicate NoMixedObjects(rows: seq<Triple>) {
    forall a, b :: a in rows && b in rows && KeyOf(a) == KeyOf(b) ==> a.isUri == b.isUri
  }

  /**
   The partition leaves out object_is_uri. Every statement of the table survives exactly when no key is
   used both for a URI and for a literal.
   */
  lemma {:induction false} StatementsSurvive(before: seq<Triple>, after: seq<Triple>)
    requires Upgraded(before, after)
    ensures (forall s :: States(after, s) <==> States(Coalesced(before), s)) <==> NoMixedObjects(Coalesced(before))
  {
    var rows := Coalesced(before);
    var numbers :| Numbering(rows, numbers) && after == Kept(rows, numbers);
    KeptFrom(rows, numbers);
    KeptDistinct(rows, numbers);
    forall s | States(after, s) ensures States(rows, s) {
      var t :| t in after && StatementOf(t) == s;
      assert t in rows;
    }
    if NoMixedObjects(rows) {
      forall s | States(rows, s) ensures States(after, s) { StatementKept(rows, numbers, s); }
    } else {
      var a, b :| a in rows && b in rows && KeyOf(a) == KeyOf(b) && a.isUri != b.isUri;
      if States(after, StatementOf(a)) && States(after, StatementOf(b)) {
        BothKept(after, StatementOf(a), StatementOf(b));
      }
      assert States(rows, StatementOf(a)) && States(rows, StatementOf(b));
    }
  }

  lemma {:induction false} StatementKept(rows: seq<Triple>, numbers: seq<nat>, s: Statement)
    requires Numbering(rows, numbers) && NoMixedObjects(rows) && States(rows, s)
    ensures States(Kept(rows, numbers), s)
  {
    var t :| t in rows && StatementOf(t) == s;
    var i :| 0 <= i < |rows| && rows[i] == t;
    var first := FirstOfKey(rows, numbers, i);
    KeptFrom(rows, numbers);
    assert rows[first] in Kept(rows, numbers) && rows[first] in rows;
    assert StatementOf(rows[first]) == s;
  }

  lemma {:induction false} BothKept(rows: seq<Triple>, a: Statement, b: Statement)
    requires KeysDistinct(rows) && States(rows, a) && States(rows, b) && a.key == b.key
    ensures a == b
  {
    var s, t :| s in rows && StatementOf(s) == a && t in rows && StatementOf(t) == b;
    var i :| 0 <= i < |rows| && rows[i] == s;
    var j :| 0 <= j < |rows| && rows[j] == t;
    assert i == j;
  }

  // ---------- Insertion ----------

  /** INSERT ... ON CONFLICT DO NOTHING. */
  ghost function Inserted(rows: seq<Triple>, t: Triple): seq<Triple> {
    if exists i :: 0 <= i < |rows| && Conflict(rows[i], t) then rows else rows + [t]
  }

  ghost function InsertedAll(rows: seq<Triple>, ts: seq<Triple>): seq<Triple>
    decreases |ts|
  {
    if ts == [] then rows else InsertedAll(Inserted(rows, Coalesce(ts[0])), ts[1..])
  }

  lemma {:induction false} InsertGrows(rows: seq<Triple>, t: Triple, key: Key)
    ensures HasKey(Inserted(rows, t), key) <==> HasKey(rows, key) || key == KeyOf(t)
  {
    if HasKey(rows, key) {
      var i :| 0 <= i < |rows| && KeyOf(rows[i]) == key;
      assert Inserted(rows, t)[i] == rows[i];
    }
    if KeyOf(t) == key && Inserted(rows, t) == rows + [t] {
      assert Inserted(rows, t)[|rows|] == t;
    }
  }

  lemma {:induction false} HasKeyCons(t: Triple, rest: seq<Triple>, key: Key)
    ensures HasKey([t] + rest, key) <==> KeyOf(t) == key || HasKey(rest, key)
  {
    var all := [t] + rest;
    if i :| 0 <= i < |rest| && KeyOf(rest[i]) == key { assert all[i + 1] == rest[i]; }
    if KeyOf(t) == key { assert all[0] == t; }
    if i :| 0 <= i < |all| && KeyOf(all[i]) == key {
      if i > 0 { assert rest[i - 1] == all[i]; }
    }
  }

  lemma {:induction false} InsertedKeys(rows: seq<Triple>, ts: seq<Triple>, key: Key)
    ensures HasKey(InsertedAll(rows, ts), key) <==> HasKey(rows, key) || HasKey(Coalesced(ts), key)
    decreases |ts|
  {
    if ts != [] {
      InsertGrows(rows, Coalesce(ts[0]), key);
      InsertedKeys(Inserted(rows, Coalesce(ts[0])), ts[1..], key);
      assert Coalesced(ts) == [Coalesce(ts[0])] + Coalesced(ts[1..]);
      HasKeyCons(Coalesce(ts[0]), Coalesced(ts[1..]), key);
    }
  }

  lemma {:induction false} KnownAddNothing(rows: seq<Triple>, ts: seq<Triple>)
    requires forall i :: 0 <= i < |ts| ==> HasKey(rows, KeyOf(Coalesce(ts[i])))
    ensures InsertedAll(rows, ts) == rows
    decreases |ts|
  {
    if ts != [] {
      assert HasKey(rows, KeyOf(Coalesce(ts[0])));
      var i :| 0 <= i < |rows| && KeyOf(rows[i]) == KeyOf(Coalesce(ts[0]));
      assert Conflict(rows[i], Coalesce(ts[0]));
      KnownAddNothing(rows, ts[1..]);
    }
  }

  /** Loading the same triples again, as every server start does, adds nothing. */
  lemma {:induction false} ReloadAddsNothing(rows: seq<Triple>, ts: seq<Triple>)
    ensures InsertedAll(InsertedAll(rows, ts), ts) == InsertedAll(rows, ts)
  {
    forall i | 0 <= i < |ts| ensures HasKey(InsertedAll(rows, ts), KeyOf(Coalesce(ts[i]))) {
      assert KeyOf(Coalesced(ts)[i]) == KeyOf(Coalesce(ts[i]));
      InsertedKeys(rows, ts, KeyOf(Coalesce(ts[i])));
    }
    KnownAddNothing(InsertedAll(rows, ts), ts);
  }

  /** A triple is inserted unless a row is the same in all six columns, none of them NULL. */
  lemma {:induction false} InsertionMeaning(rows: seq<Triple>, t: Triple)
    ensures Inserted(rows, t) ==
            if t.language.Some? && t.dtype.Some?
               && exists r :: r in rows && r.language.Some? && r.dtype.Some? && Agree(r, t)
            then rows else rows + [t]
  {
    if r :| r in rows && r.language.Some? && r.dtype.Some? && Agree(r, t) {
      var i :| 0 <= i < |rows| && rows[i] == r;
    }
  }

  /**
   Without the coercion a triple is inserted a second time exactly when a column is NULL: the fault the
   migration repairs.
   */
  lemma {:induction false} NullsReinserted(rows: seq<Triple>, t: Triple)
    ensures Inserted(Inserted(rows, t), t) != Inserted(rows, t) <==> t.language.None? || t.dtype.None?
  {
    var once := Inserted(rows, t);
    if !HasNull(t) && once == rows + [t] {
      assert Conflict(once[|rows|], t);
    }
  }
}
