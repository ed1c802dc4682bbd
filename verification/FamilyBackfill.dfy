/**
 The migration that gives every version a family: a recursive query finds the root its chain of parents
 ends at, and an UPDATE fills the empty families. The query is shown to stop on broken and cyclic chains too.
 */
module FamilyBackfill {
  import opened Symbols

  datatype Version = Version(id: string, parent: Option<string>, family: Option<string>)

  /** A row of the recursive query: a version's id and the root it was reached from. */
  datatype Reached = Reached(id: string, root: string)

  ghost predicate PrimaryKey(rows: seq<Version>) {
    forall i, j :: 0 <= i < j < |rows| ==> rows[i].id != rows[j].id
  }

  // ---------- Chains of parents ----------

  predicate HasRow(rows: seq<Version>, id: string) {
    exists i :: 0 <= i < |rows| && rows[i].id == id
  }

  function ParentOf(rows: seq<Version>, id: string): Option<string>
    requires HasRow(rows, id)
  {
    if rows[0].id == id then rows[0].parent else ParentOf(rows[1..], id)
  }

  /** The k-th ancestor of a version, as long as the chain goes on in the table. */
  ghost function Up(rows: seq<Version>, id: string, k: nat): (up: Option<string>)
    ensures up.Some? ==> HasRow(rows, up.value)
    decreases k
  {
    if !HasRow(rows, id) then None
    else if k == 0 then Some(id)
    else match ParentOf(rows, id)
      case None => None
      case Some(parent) => Up(rows, parent, k - 1)
  }

  /** The chain ends at its k-th ancestor, which has no parent. */
  ghost predicate EndsAt(rows: seq<Version>, id: string, k: nat) {
    Up(rows, id, k).Some? && ParentOf(rows, Up(rows, id, k).value).None?
  }

  ghost predicate Rooted(rows: seq<Version>, id: string) {
    exists k :: EndsAt(rows, id, k)
  }

  ghost function RootOf(rows: seq<Version>, id: string): (root: string)
    requires Rooted(rows, id)
    ensures HasRow(rows, root) && ParentOf(rows, root).None?
  {
    var k: nat :| EndsAt(rows, id, k);
    Up(rows, id, k).value
  }

  /** A version whose chain does not reach a root is its own family. */
  ghost function FamilyOf(rows: seq<Version>, id: string): string {
    if Rooted(rows, id) then RootOf(rows, id) else id
  }

  lemma {:induction false} ParentFound(rows: seq<Version>, i: nat)
    requires PrimaryKey(rows) && i < |rows|
    ensures HasRow(rows, rows[i].id) && ParentOf(rows, rows[i].id) == rows[i].parent
  {
    if i > 0 {
      assert rows[i] == rows[1..][i - 1];
      ParentFound(rows[1..], i - 1);
    }
  }

  /** Nothing lies above a root, so a chain ends at one place only. */
  lemma {:induction false} EndsOnce(rows: seq<Version>, id: string, j: nat, k: nat)
    requires EndsAt(rows, id, j) && Up(rows, id, k).Some?
    ensures k <= j
    decreases j
  {
    if j > 0 && k > 0 {
      EndsOnce(rows, ParentOf(rows, id).value, j - 1, k - 1);
    }
  }

  lemma {:induction false} RootIs(rows: seq<Version>, id: string, k: nat)
    requires EndsAt(rows, id, k)
    ensures Rooted(rows, id) && RootOf(rows, id) == Up(rows, id, k).value
  {
    var j: nat :| EndsAt(rows, id, j) && RootOf(rows, id) == Up(rows, id, j).value;
    EndsOnce(rows, id, j, k);
    EndsOnce(rows, id, k, j);
  }

  lemma {:induction false} UpAdds(rows: seq<Version>, id: string, j: nat, k: nat)
    requires Up(rows, id, j).Some?
    ensures Up(rows, id, j + k) == Up(rows, Up(rows, id, j).value, k)
    decreases j
  {
    if j > 0 {
      UpAdds(rows, ParentOf(rows, id).value, j - 1, k);
    }
  }

  // ---------- Chains are short, or they repeat ----------

  ghost function Chain(rows: seq<Version>, id: string, n: nat): (chain: seq<string>)
    requires forall k :: 0 <= k < n ==> Up(rows, id, k).Some?
    ensures |chain| == n && forall k :: 0 <= k < n ==> chain[k] == Up(rows, id, k).value
  {
    seq(n, k requires 0 <= k < n => Up(rows, id, k).value)
  }

  ghost predicate Repeats(s: seq<string>) {
    exists i, j :: 0 <= i < j < |s| && s[i] == s[j]
  }

  /** More names than rows: some name comes twice. */
  lemma {:induction false} Pigeonhole(rows: seq<Version>, names: seq<string>)
    requires |names| > |rows| && forall k :: 0 <= k < |names| ==> HasRow(rows, names[k])
    ensures Repeats(names)
  {
    assert HasRow(rows, names[0]);
    if i :| 0 <= i < |names| && names[i] == rows[0].id {
      var rest := names[..i] + names[i + 1..];
      if j :| 0 <= j < |rest| && rest[j] == rows[0].id {
        assert names[if j < i then j else j + 1] == names[i];
      } else {
        RestInRows(rows, rest);
        Pigeonhole(rows[1..], rest);
        RestRepeats(names, i);
      }
    } else {
      RestInRows(rows, names);
      Pigeonhole(rows[1..], names);
    }
  }

  lemma {:induction false} RestInRows(rows: seq<Version>, names: seq<string>)
    requires rows != [] && forall k :: 0 <= k < |names| ==> HasRow(rows, names[k]) && names[k] != rows[0].id
    ensures forall k :: 0 <= k < |names| ==> HasRow(rows[1..], names[k])
  {
    forall k | 0 <= k < |names| ensures HasRow(rows[1..], names[k]) {
      var i :| 0 <= i < |rows| && rows[i].id == names[k];
      assert rows[1..][i - 1].id == names[k];
    }
  }

  lemma {:induction false} RestRepeats(names: seq<string>, i: nat)
    requires i < |names| && Repeats(names[..i] + names[i + 1..])
    ensures Repeats(names)
  {
    var rest := names[..i] + names[i + 1..];
    var a, b :| 0 <= a < b < |rest| && rest[a] == rest[b];
    var a', b' := if a < i then a else a + 1, if b < i then b else b + 1;
    assert names[a'] == names[b'];
  }

  /** A chain that repeats never ends. */
  lemma {:induction false} EndedChainIsDistinct(rows: seq<Version>, id: string, k: nat, i: nat, j: nat)
    requires EndsAt(rows, id, k) && i < j <= k && Up(rows, id, i).Some? && Up(rows, id, j).Some?
    ensures Up(rows, id, i) != Up(rows, id, j)
  {
    if Up(rows, id, i) == Up(rows, id, j) {
      UpAdds(rows, id, i, k - j);
      UpAdds(rows, id, j, k - j);
      EndsOnce(rows, id, i + (k - j), k);
      assert false;
    }
  }

  lemma {:induction false} UpBelow(rows: seq<Version>, id: string, j: nat, k: nat)
    requires j <= k && Up(rows, id, k).Some?
    ensures Up(rows, id, j).Some?
    decreases j
  {
    if j > 0 { UpBelow(rows, ParentOf(rows, id).value, j - 1, k - 1); }
  }

  /** A chain that ends does so within as many steps as there are rows. */
  lemma {:induction false} EndsSoon(rows: seq<Version>, id: string, k: nat)
    requires EndsAt(rows, id, k)
    ensures k < |rows|
  {
    forall j | 0 <= j < k + 1 ensures Up(rows, id, j).Some? { UpBelow(rows, id, j, k); }
    if k >= |rows| {
      var chain := Chain(rows, id, k + 1);
      Pigeonhole(rows, chain);
      var i, j :| 0 <= i < j < |chain| && chain[i] == chain[j];
      EndedChainIsDistinct(rows, id, k, i, j);
      assert false;
    }
  }

  // ---------- The recursive query ----------

  function Anchor(rows: seq<Version>): seq<Reached> {
    if rows == [] then []
    else (if rows[0].parent.None? then [Reached(rows[0].id, rows[0].id)] else []) + Anchor(rows[1..])
  }

  /** The working rows that carry an id. */
  function Matching(working: seq<Reached>, id: string): seq<Reached> {
    if working == [] then []
    else (if working[0].id == id then [working[0]] else []) + Matching(working[1..], id)
  }

  function Carry(id: string, working: seq<Reached>): seq<Reached> {
    seq(|working|, i requires 0 <= i < |working| => Reached(id, working[i].root))
  }

  /** One recursion step: every version joined with the working rows of its parent. */
  function Join(rows: seq<Version>, working: seq<Reached>): seq<Reached> {
    if rows == [] then []
    else
      (match rows[0].parent
       case None => []
       case Some(parent) => Carry(rows[0].id, Matching(working, parent)))
      + Join(rows[1..], working)
  }

  /** What the k-th step adds: the versions k steps below their root. */
  ghost function Level(table: seq<Version>, rows: seq<Version>, k: nat): seq<Reached> {
    if rows == [] then []
    else
      (if EndsAt(table, rows[0].id, k) then [Reached(rows[0].id, Up(table, rows[0].id, k).value)] else [])
      + Level(table, rows[1..], k)
  }

  ghost function Levels(rows: seq<Version>, n: nat): seq<Reached> {
    if n == 0 then [] else Levels(rows, n - 1) + Level(rows, rows, n - 1)
  }

  ghost predicate PartOf(rows: seq<Version>, table: seq<Version>) {
    forall i :: 0 <= i < |rows| ==> HasRow(table, rows[i].id) && ParentOf(table, rows[i].id) == rows[i].parent
  }

  lemma {:induction false} AnchorIsLevel(table: seq<Version>, rows: seq<Version>)
    requires PartOf(rows, table)
    ensures Anchor(rows) == Level(table, rows, 0)
  {
    if rows != [] { AnchorIsLevel(table, rows[1..]); }
  }

  lemma {:induction false} MatchingLevel(table: seq<Version>, rows: seq<Version>, k: nat, id: string)
    requires PrimaryKey(rows)
    ensures Matching(Level(table, rows, k), id) ==
            if HasRow(rows, id) && EndsAt(table, id, k) then [Reached(id, Up(table, id, k).value)] else []
  {
    if rows != [] {
      var first := if EndsAt(table, rows[0].id, k) then [Reached(rows[0].id, Up(table, rows[0].id, k).value)] else [];
      MatchingLevel(table, rows[1..], k, id);
      MatchingConcat(first, Level(table, rows[1..], k), id);
      assert Matching(first, id) == if rows[0].id == id then first else [];
      HasRowSplit(rows, id);
    }
  }

  lemma {:induction false} HasRowSplit(rows: seq<Version>, id: string)
    requires rows != []
    ensures HasRow(rows, id) <==> rows[0].id == id || HasRow(rows[1..], id)
  {
    if HasRow(rows[1..], id) {
      var i :| 0 <= i < |rows[1..]| && rows[1..][i].id == id;
      assert rows[i + 1].id == id;
    }
    if HasRow(rows, id) && rows[0].id != id {
      var i :| 0 <= i < |rows| && rows[i].id == id;
      assert rows[1..][i - 1].id == id;
    }
  }

  lemma {:induction false} MatchingConcat(a: seq<Reached>, b: seq<Reached>, id: string)
    ensures Matching(a + b, id) == Matching(a, id) + Matching(b, id)
  {
    if a == [] {
      assert a + b == b;
    } else {
      assert (a + b)[1..] == a[1..] + b;
      MatchingConcat(a[1..], b, id);
      Associates(if a[0].id == id then [a[0]] else [], Matching(a[1..], id), Matching(b, id));
    }
  }

  lemma {:induction false} JoinedOnce(id: string, working: seq<Reached>)
    requires |working| <= 1
    ensures Carry(id, working) == if working == [] then [] else [Reached(id, working[0].root)]
  {
  }

  lemma {:induction false} EndsStep(rows: seq<Version>, id: string, k: nat)
    requires HasRow(rows, id)
    ensures EndsAt(rows, id, k + 1) <==> ParentOf(rows, id).Some? && EndsAt(rows, ParentOf(rows, id).value, k)
    ensures ParentOf(rows, id).Some? ==> Up(rows, id, k + 1) == Up(rows, ParentOf(rows, id).value, k)
  {
  }

  /** The join takes the versions k steps below their roots to those one step further down. */
  lemma {:induction false} JoinIsLevel(table: seq<Version>, rows: seq<Version>, k: nat)
    requires PrimaryKey(table) && PartOf(rows, table)
    ensures Join(rows, Level(table, table, k)) == Level(table, rows, k + 1)
  {
    if rows != [] {
      JoinIsLevel(table, rows[1..], k);
      EndsStep(table, rows[0].id, k);
      if rows[0].parent.Some? {
        var parent := rows[0].parent.value;
        MatchingLevel(table, table, k, parent);
        JoinedOnce(rows[0].id, Matching(Level(table, table, k), parent));
      }
    }
  }

  lemma {:induction false} LevelInhabited(table: seq<Version>, rows: seq<Version>, k: nat)
    requires Level(table, rows, k) != []
    ensures exists id :: EndsAt(table, id, k)
  {
    if !EndsAt(table, rows[0].id, k) { LevelInhabited(table, rows[1..], k); }
  }

  lemma {:induction false} LevelEmpty(table: seq<Version>, rows: seq<Version>, k: nat)
    requires Level(table, rows, k) == []
    ensures forall id :: HasRow(rows, id) ==> !EndsAt(table, id, k)
  {
    if rows != [] {
      LevelEmpty(table, rows[1..], k);
      forall id | HasRow(rows, id) ensures !EndsAt(table, id, k) { HasRowSplit(rows, id); }
    }
  }

  lemma {:induction false} EndsBelow(rows: seq<Version>, id: string, k: nat, j: nat)
    requires EndsAt(rows, id, k) && j <= k
    ensures exists up :: EndsAt(rows, up, j)
    decreases k
  {
    if j < k { EndsBelow(rows, ParentOf(rows, id).value, k - 1, j); }
  }

  /** Once a step adds nothing, no later step would. */
  lemma {:induction false} NoneBelow(rows: seq<Version>, n: nat, id: string, k: nat)
    requires Level(rows, rows, n) == [] && EndsAt(rows, id, k)
    ensures k < n
  {
    if k >= n {
      EndsBelow(rows, id, k, n);
      var up :| EndsAt(rows, up, n);
      LevelEmpty(rows, rows, n);
      assert false;
    }
  }

  lemma {:induction false} PartOfItself(rows: seq<Version>)
    requires PrimaryKey(rows)
    ensures PartOf(rows, rows)
  {
    forall i | 0 <= i < |rows| ensures HasRow(rows, rows[i].id) && ParentOf(rows, rows[i].id) == rows[i].parent {
      ParentFound(rows, i);
    }
  }

  lemma {:induction false} LevelDepth(rows: seq<Version>, k: nat)
    requires Level(rows, rows, k) != []
    ensures k < |rows|
  {
    LevelInhabited(rows, rows, k);
    var id :| EndsAt(rows, id, k);
    EndsSoon(rows, id, k);
  }

  ghost predicate Finds(rows: seq<Version>, roots: seq<Reached>, id: string) {
    Matching(roots, id) == if Rooted(rows, id) then [Reached(id, RootOf(rows, id))] else []
  }

  /** The recursive query stops on every table, and finds each version at most once: with the root of its chain. */
  method RecursiveRoots(rows: seq<Version>) returns (roots: seq<Reached>)
    requires PrimaryKey(rows)
    ensures forall id :: HasRow(rows, id) ==> Finds(rows, roots, id)
  {
    PartOfItself(rows);
    var working := Anchor(rows);
    AnchorIsLevel(rows, rows);
    roots := working;
    ghost var n := 0;
    while working != []
      invariant working == Level(rows, rows, n)
      invariant roots == Levels(rows, n + 1)
      decreases |rows| - n
    {
      LevelDepth(rows, n);
      JoinIsLevel(rows, rows, n);
      working := Join(rows, working);
      roots := roots + working;
      n := n + 1;
    }
    forall id | HasRow(rows, id) ensures Finds(rows, roots, id) { RootsFound(rows, n, id); }
  }

  /** What the k-th step finds of one version. */
  ghost function Hit(rows: seq<Version>, id: string, k: nat): seq<Reached> {
    if EndsAt(rows, id, k) then [Reached(id, Up(rows, id, k).value)] else []
  }

  lemma {:induction false} MatchingStep(rows: seq<Version>, n: nat, id: string)
    requires PrimaryKey(rows) && HasRow(rows, id)
    ensures Matching(Levels(rows, n + 1), id) == Matching(Levels(rows, n), id) + Hit(rows, id, n)
  {
    MatchingConcat(Levels(rows, n), Level(rows, rows, n), id);
    MatchingLevel(rows, rows, n, id);
  }

  ghost function Hits(rows: seq<Version>, id: string, n: nat): seq<Reached> {
    if n == 0 then [] else Hits(rows, id, n - 1) + Hit(rows, id, n - 1)
  }

  lemma {:induction false} NothingMatches(id: string)
    ensures Matching([], id) == []
  {
  }

  lemma {:induction false} HitsStep(rows: seq<Version>, id: string, n: nat)
    ensures Hits(rows, id, n + 1) == Hits(rows, id, n) + Hit(rows, id, n)
  {
  }

  lemma {:induction false} MatchingHits(rows: seq<Version>, n: nat, id: string)
    requires PrimaryKey(rows) && HasRow(rows, id)
    ensures Matching(Levels(rows, n), id) == Hits(rows, id, n)
  {
    if n == 0 {
      NothingMatches(id);
    } else {
      var m := n - 1;
      MatchingHits(rows, m, id);
      MatchingStep(rows, m, id);
      HitsStep(rows, id, m);
    }
  }

  lemma {:induction false} NoHits(rows: seq<Version>, n: nat, id: string)
    requires forall k :: 0 <= k < n ==> Hit(rows, id, k) == []
    ensures Hits(rows, id, n) == []
  {
    if n > 0 { NoHits(rows, n - 1, id); }
  }

  lemma {:induction false} OneHit(rows: seq<Version>, n: nat, id: string, k: nat)
    requires k < n && forall j: nat :: j != k ==> Hit(rows, id, j) == []
    ensures Hits(rows, id, n) == Hit(rows, id, k)
  {
    if k == n - 1 {
      NoHits(rows, k, id);
    } else {
      OneHit(rows, n - 1, id, k);
      assert Hit(rows, id, n - 1) == [];
    }
  }

  lemma {:induction false} HitsOnce(rows: seq<Version>, id: string, k: nat)
    requires EndsAt(rows, id, k)
    ensures Hit(rows, id, k) == [Reached(id, RootOf(rows, id))] && Rooted(rows, id)
    ensures forall j: nat :: j != k ==> Hit(rows, id, j) == []
  {
    RootIs(rows, id, k);
    forall j: nat | j != k ensures Hit(rows, id, j) == [] {
      if EndsAt(rows, id, j) {
        EndsOnce(rows, id, j, k);
        EndsOnce(rows, id, k, j);
        assert false;
      }
    }
  }

  /** After as many steps as its chain is long, a version was found once if its chain ends. */
  lemma {:induction false} HitsMeaning(rows: seq<Version>, n: nat, id: string)
    requires forall k: nat :: EndsAt(rows, id, k) ==> k < n
    ensures Hits(rows, id, n) == if Rooted(rows, id) then [Reached(id, RootOf(rows, id))] else []
  {
    if k: nat :| EndsAt(rows, id, k) {
      HitsOnce(rows, id, k);
      OneHit(rows, n, id, k);
    } else {
      NoHits(rows, n, id);
    }
  }

  lemma {:induction false} RootsFound(rows: seq<Version>, n: nat, id: string)
    requires PrimaryKey(rows) && HasRow(rows, id) && Level(rows, rows, n) == []
    ensures Finds(rows, Levels(rows, n + 1), id)
  {
    MatchingHits(rows, n + 1, id);
    forall k: nat | EndsAt(rows, id, k) ensures k < n + 1 { NoneBelow(rows, n, id, k); }
    HitsMeaning(rows, n + 1, id);
  }

  // ---------- The migration ----------

  /** A subquery used as a value is NULL without a row, and an error with more than one. */
  function Scalar(found: seq<Reached>): Result<Option<string>> {
    if found == [] then Ok(None) else if |found| == 1 then Ok(Some(found[0].root)) else Err
  }

  /** The table after the backfill: every empty family filled, all else as it was. */
  ghost function Filled(table: seq<Version>, row: Version): Version {
    if row.family.None? then row.(family := Some(FamilyOf(table, row.id))) else row
  }

  ghost function Backfilled(rows: seq<Version>): seq<Version> {
    seq(|rows|, i requires 0 <= i < |rows| => Filled(rows, rows[i]))
  }

  function Dropped(rows: seq<Version>): seq<Version> {
    seq(|rows|, i requires 0 <= i < |rows| => rows[i].(family := None))
  }

  /** One of the two tables: its rows, and whether version_family_id is declared NOT NULL. */
  class Table {
    var rows: seq<Version>
    var notNull: bool

    ghost predicate Valid()
      reads this
    {
      PrimaryKey(rows) && (notNull ==> forall i :: 0 <= i < |rows| ==> rows[i].family.Some?)
    }

    constructor (rows: seq<Version>)
      requires PrimaryKey(rows)
      ensures Valid() && this.rows == rows && !notNull
    {
      this.rows := rows;
      this.notNull := false;
    }

    /** The UPDATE over the recursive query; the subquery never finds more than one row. */
    method Backfill()
      requires Valid()
      modifies this`rows
      ensures Valid() && rows == Backfilled(old(rows))
    {
      var roots := RecursiveRoots(rows);
      var updated: seq<Version> := [];
      for i := 0 to |rows|
        invariant rows == old(rows)
        invariant updated == Backfilled(rows)[..i]
      {
        var row := rows[i];
        assert HasRow(rows, row.id);
        if row.family.None? {
          assert Finds(rows, roots, row.id);
          var found := Scalar(Matching(roots, row.id)).value;
          var root := match found case None => row.id case Some(root) => root;
          row := row.(family := Some(root));
        }
        updated := updated + [row];
      }
      rows := updated;
    }

    method SetNotNull() returns (r: Result<()>)
      requires Valid()
      modifies this`notNull
      ensures Valid()
      ensures r.Ok? <==> forall i :: 0 <= i < |rows| ==> rows[i].family.Some?
      ensures notNull == (old(notNull) || r.Ok?)
    {
      if i :| 0 <= i < |rows| && rows[i].family.None? {
        return Err;
      }
      notNull := true;
      return Ok(());
    }

    method DropFamily()
      requires Valid()
      modifies this
      ensures Valid() && rows == Dropped(old(rows)) && !notNull
    {
      rows := Dropped(rows);
      notNull := false;
    }
  }

  method Upgrade(contracts: Table, products: Table) returns (r: Result<()>)
    requires contracts != products && contracts.Valid() && products.Valid()
    modifies contracts, products
    ensures contracts.Valid() && products.Valid()
    ensures r.Ok? && contracts.notNull && products.notNull
    ensures contracts.rows == Backfilled(old(contracts.rows)) && products.rows == Backfilled(old(products.rows))
  {
    contracts.Backfill();
    products.Backfill();
    r := contracts.SetNotNull();
    if r.Ok? {
      r := products.SetNotNull();
    }
  }

  method Downgrade(contracts: Table, products: Table)
    requires contracts != products && contracts.Valid() && products.Valid()
    modifies contracts, products
    ensures contracts.Valid() && products.Valid() && !contracts.notNull && !products.notNull
    ensures contracts.rows == Dropped(old(contracts.rows)) && products.rows == Dropped(old(products.rows))
  {
    contracts.DropFamily();
    products.DropFamily();
  }

  // ---------- What a family is ----------

  ghost predicate Meet(rows: seq<Version>, a: string, b: string) {
    exists j, k :: Up(rows, a, j).Some? && Up(rows, a, j) == Up(rows, b, k)
  }

  lemma {:induction false} RootedAbove(rows: seq<Version>, id: string, j: nat)
    requires Rooted(rows, id) && Up(rows, id, j).Some?
    ensures Rooted(rows, Up(rows, id, j).value) && RootOf(rows, Up(rows, id, j).value) == RootOf(rows, id)
  {
    var k: nat :| EndsAt(rows, id, k);
    EndsOnce(rows, id, k, j);
    UpAdds(rows, id, j, k - j);
    RootIs(rows, id, k);
    RootIs(rows, Up(rows, id, j).value, k - j);
  }

  /** Two versions are of one family exactly when they are the same, or their chains end and come together. */
  lemma {:induction false} FamilyMeaning(rows: seq<Version>, a: string, b: string)
    requires HasRow(rows, a) && HasRow(rows, b)
    ensures FamilyOf(rows, a) == FamilyOf(rows, b) <==>
            a == b || (Rooted(rows, a) && Rooted(rows, b) && Meet(rows, a, b))
  {
    if Rooted(rows, a) {
      RootOfRoot(rows, a);
    }
    if Rooted(rows, b) {
      RootOfRoot(rows, b);
    }
    if Rooted(rows, a) && Rooted(rows, b) && Meet(rows, a, b) {
      var j, k :| Up(rows, a, j).Some? && Up(rows, a, j) == Up(rows, b, k);
      RootedAbove(rows, a, j);
      RootedAbove(rows, b, k);
    }
  }

  lemma {:induction false} RootOfRoot(rows: seq<Version>, id: string)
    requires Rooted(rows, id)
    ensures exists k :: Up(rows, id, k) == Some(RootOf(rows, id))
    ensures Rooted(rows, RootOf(rows, id)) && RootOf(rows, RootOf(rows, id)) == RootOf(rows, id)
  {
    var k: nat :| EndsAt(rows, id, k);
    RootIs(rows, id, k);
    RootedAbove(rows, id, k);
  }

  /** A version and its predecessor share a family exactly when the chain reaches a root; a broken chain splits it. */
  lemma {:induction false} ChildSharesFamily(rows: seq<Version>, id: string, parent: string)
    requires HasRow(rows, id) && HasRow(rows, parent) && ParentOf(rows, id) == Some(parent) && id != parent
    ensures FamilyOf(rows, id) == FamilyOf(rows, parent) <==> Rooted(rows, id)
    ensures Rooted(rows, id) <==> Rooted(rows, parent)
  {
    FamilyMeaning(rows, id, parent);
    assert Up(rows, id, 1) == Up(rows, parent, 0) == Some(parent);
    if Rooted(rows, id) { RootedAbove(rows, id, 1); }
    if k: nat :| EndsAt(rows, parent, k) {
      EndsStep(rows, id, k);
    }
  }

  /** The chain leaves the table: some ancestor names a parent that is not there. */
  ghost predicate Dangles(rows: seq<Version>, id: string) {
    exists k: nat :: Up(rows, id, k).Some? && Up(rows, id, k + 1).None? && !EndsAt(rows, id, k)
  }

  ghost predicate Loops(rows: seq<Version>, id: string) {
    exists i: nat, j: nat :: i < j && Up(rows, id, i).Some? && Up(rows, id, i) == Up(rows, id, j)
  }

  lemma {:induction false} GoesOn(rows: seq<Version>, id: string, n: nat)
    requires HasRow(rows, id) && !Rooted(rows, id) && !Dangles(rows, id)
    ensures Up(rows, id, n).Some?
  {
    if n > 0 {
      GoesOn(rows, id, n - 1);
      assert !EndsAt(rows, id, n - 1);
      assert Up(rows, id, n - 1 + 1).Some?;
    }
  }

  /** The versions left as their own family are those whose chains are broken or cyclic. */
  lemma {:induction false} UnrootedMeaning(rows: seq<Version>, id: string)
    requires HasRow(rows, id)
    ensures !Rooted(rows, id) <==> Dangles(rows, id) || Loops(rows, id)
  {
    if Rooted(rows, id) {
      var k: nat :| EndsAt(rows, id, k);
      forall j: nat | Up(rows, id, j).Some? ensures j <= k { EndsOnce(rows, id, k, j); }
      forall i: nat, j: nat | i < j && Up(rows, id, i).Some? && Up(rows, id, j).Some?
        ensures Up(rows, id, i) != Up(rows, id, j) {
        EndedChainIsDistinct(rows, id, k, i, j);
      }
      forall j: nat | Up(rows, id, j).Some? && Up(rows, id, j + 1).None? ensures EndsAt(rows, id, j) {
        if j < k { UpBelow(rows, id, j + 1, k); }
      }
    } else if !Dangles(rows, id) {
      var n := |rows| + 1;
      forall k | 0 <= k < n ensures Up(rows, id, k).Some? { GoesOn(rows, id, k); }
      var chain := Chain(rows, id, n);
      Pigeonhole(rows, chain);
    }
  }

  // ---------- The family, on the rows themselves ----------

  /** The row of this id has that parent. */
  ghost predicate Rises(rows: seq<Version>, id: string, parent: Option<string>) {
    exists v :: v in rows && v.id == id && v.parent == parent
  }

  /** The ids from a version up to a root: each is a row's whose parent is the next, and the last has none. */
  ghost predicate Ascent(rows: seq<Version>, p: seq<string>) {
    && p != [] && (forall i :: 0 <= i < |p| - 1 ==> Rises(rows, p[i], Some(p[i + 1])))
    && Rises(rows, p[|p| - 1], None)
  }

  lemma {:induction false} RisesIs(rows: seq<Version>, id: string, parent: Option<string>)
    requires PrimaryKey(rows)
    ensures Rises(rows, id, parent) <==> HasRow(rows, id) && ParentOf(rows, id) == parent
  {
    if v :| v in rows && v.id == id && v.parent == parent {
      var i :| 0 <= i < |rows| && rows[i] == v;
      ParentFound(rows, i);
    }
    if HasRow(rows, id) {
      var i :| 0 <= i < |rows| && rows[i].id == id;
      ParentFound(rows, i);
      assert rows[i] in rows;
    }
  }

  lemma {:induction false} AscentStep(rows: seq<Version>, p: seq<string>)
    requires |p| > 1
    ensures Ascent(rows, p) <==> Rises(rows, p[0], Some(p[1])) && Ascent(rows, p[1..])
  {
    var rest := p[1..];
    if Ascent(rows, p) {
      forall i | 0 <= i < |rest| - 1 ensures Rises(rows, rest[i], Some(rest[i + 1])) {
        assert Rises(rows, p[i + 1], Some(p[i + 1 + 1]));
      }
    }
    if Rises(rows, p[0], Some(p[1])) && Ascent(rows, rest) {
      forall i | 0 <= i < |p| - 1 ensures Rises(rows, p[i], Some(p[i + 1])) {
        if i > 0 { assert Rises(rows, rest[i - 1], Some(rest[i - 1 + 1])); }
      }
    }
  }

  lemma {:induction false} AscentEnds(rows: seq<Version>, p: seq<string>)
    requires PrimaryKey(rows) && Ascent(rows, p)
    ensures EndsAt(rows, p[0], |p| - 1) && Up(rows, p[0], |p| - 1) == Some(p[|p| - 1])
  {
    if |p| == 1 {
      RisesIs(rows, p[0], None);
    } else {
      AscentStep(rows, p);
      RisesIs(rows, p[0], Some(p[1]));
      AscentEnds(rows, p[1..]);
      EndsStep(rows, p[0], |p| - 2);
    }
  }

  lemma {:induction false} EndAscends(rows: seq<Version>, id: string, k: nat) returns (p: seq<string>)
    requires PrimaryKey(rows) && EndsAt(rows, id, k)
    ensures Ascent(rows, p) && p[0] == id
    decreases k
  {
    if k == 0 {
      RisesIs(rows, id, None);
      p := [id];
    } else {
      EndsStep(rows, id, k - 1);
      var parent := ParentOf(rows, id).value;
      RisesIs(rows, id, Some(parent));
      var rest := EndAscends(rows, parent, k - 1);
      p := [id] + rest;
      assert p[1..] == rest;
      AscentStep(rows, p);
    }
  }

  lemma {:induction false} FamilyAscends(rows: seq<Version>, id: string)
    requires PrimaryKey(rows)
    ensures forall p :: Ascent(rows, p) && p[0] == id ==> FamilyOf(rows, id) == p[|p| - 1]
    ensures (forall p :: Ascent(rows, p) ==> p[0] != id) ==> FamilyOf(rows, id) == id
  {
    forall p | Ascent(rows, p) && p[0] == id ensures FamilyOf(rows, id) == p[|p| - 1] {
      AscentEnds(rows, p);
      RootIs(rows, id, |p| - 1);
    }
    if k: nat :| EndsAt(rows, id, k) {
      var p := EndAscends(rows, id, k);
    }
  }

  /**
   What the backfill makes of a row: a family it has stays; otherwise it is the id of the root that the
   row's parents lead up to, or the row's own id if they lead to none. Nothing else changes.
   */
  lemma {:induction false} FamilyIsRoot(rows: seq<Version>, i: nat)
    requires PrimaryKey(rows) && i < |rows|
    ensures var (row, filled) := (rows[i], Backfilled(rows)[i]);
            && filled.id == row.id && filled.parent == row.parent
            && (row.family.Some? ==> filled.family == row.family)
            && (row.family.None? ==>
                  && (forall p :: Ascent(rows, p) && p[0] == row.id ==> filled.family == Some(p[|p| - 1]))
                  && ((forall p :: Ascent(rows, p) ==> p[0] != row.id) ==> filled.family == Some(row.id)))
  {
    FamilyAscends(rows, rows[i].id);
  }

  // ---------- Runs of the migration ----------

  ghost predicate AllFilled(rows: seq<Version>) {
    forall i :: 0 <= i < |rows| ==> rows[i].family.Some?
  }

  /** A second run finds nothing to fill. */
  lemma {:induction false} RerunChangesNothing(rows: seq<Version>)
    ensures AllFilled(Backfilled(rows)) && Backfilled(Backfilled(rows)) == Backfilled(rows)
  {
  }

  lemma {:induction false} SameChains(a: seq<Version>, b: seq<Version>, id: string)
    requires |a| == |b| && forall i :: 0 <= i < |a| ==> a[i].id == b[i].id && a[i].parent == b[i].parent
    ensures HasRow(a, id) == HasRow(b, id)
    ensures HasRow(a, id) ==> ParentOf(a, id) == ParentOf(b, id)
  {
    if a != [] {
      HasRowSplit(a, id);
      HasRowSplit(b, id);
      SameChains(a[1..], b[1..], id);
    }
  }

  lemma {:induction false} SameUp(a: seq<Version>, b: seq<Version>, id: string, k: nat)
    requires |a| == |b| && forall i :: 0 <= i < |a| ==> a[i].id == b[i].id && a[i].parent == b[i].parent
    ensures Up(a, id, k) == Up(b, id, k)
    ensures EndsAt(a, id, k) == EndsAt(b, id, k)
    decreases k
  {
    SameChains(a, b, id);
    if k > 0 && HasRow(a, id) && ParentOf(a, id).Some? {
      SameUp(a, b, ParentOf(a, id).value, k - 1);
    }
    if Up(a, id, k).Some? { SameChains(a, b, Up(a, id, k).value); }
  }

  /** Families depend on ids and parents alone: taking the column away and running again gives the same families. */
  lemma {:induction false} FamiliesRecovered(rows: seq<Version>)
    requires forall i :: 0 <= i < |rows| ==> rows[i].family.None?
    ensures Dropped(Backfilled(rows)) == rows
    ensures Backfilled(Dropped(Backfilled(rows))) == Backfilled(rows)
  {
  }

  /** Rows filled at different times agree: filling some by hand with their root first changes nothing. */
  lemma {:induction false} FilledInStages(rows: seq<Version>, part: seq<Version>)
    requires |part| == |rows| && forall i :: 0 <= i < |rows| ==> part[i] == rows[i] || part[i] == Filled(rows, rows[i])
    ensures Backfilled(part) == Backfilled(rows)
  {
    forall i | 0 <= i < |rows| ensures Filled(part, part[i]) == Filled(rows, rows[i]) {
      SameFamily(rows, part, rows[i].id);
    }
  }

  lemma {:induction false} SameFamily(a: seq<Version>, b: seq<Version>, id: string)
    requires |a| == |b| && forall i :: 0 <= i < |a| ==> a[i].id == b[i].id && a[i].parent == b[i].parent
    ensures FamilyOf(a, id) == FamilyOf(b, id)
  {
    forall k ensures EndsAt(a, id, k) == EndsAt(b, id, k) && Up(a, id, k) == Up(b, id, k) { SameUp(a, b, id, k); }
    if k: nat :| EndsAt(a, id, k) {
      RootIs(a, id, k);
      RootIs(b, id, k);
    }
  }
}
