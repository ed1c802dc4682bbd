/** The gate on migration histories: what its look at heads and direct parents says of whole ancestries. */
module AlembicHeads {
  import opened Symbols

  /** down_revision is absent, one id, or a tuple of ids. */
  datatype Down = NoDown | OneDown(id: string) | Downs(ids: seq<string>)

  datatype Revision = Revision(id: string, down: Down, file: Option<string>)

  function AsTuple(down: Down): seq<string> {
    match down
    case NoDown => []
    case OneDown(id) => [id]
    case Downs(ids) => ids
  }

  /** The parents of every revision of a versions directory. */
  type Graph = map<string, seq<string>>

  ghost predicate DistinctIds(tree: seq<Revision>) {
    forall i, j :: 0 <= i < j < |tree| ==> tree[i].id != tree[j].id
  }

  function GraphOf(tree: seq<Revision>): (g: Graph)
    requires DistinctIds(tree)
    ensures g.Keys == Ids(tree)
    ensures forall i :: 0 <= i < |tree| ==> tree[i].id in g && g[tree[i].id] == AsTuple(tree[i].down)
  {
    map i | 0 <= i < |tree| :: tree[i].id := AsTuple(tree[i].down)
  }

  function Ids(tree: seq<Revision>): set<string> {
    set i | 0 <= i < |tree| :: tree[i].id
  }

  predicate IsParent(g: Graph, id: string) {
    exists child :: child in g && id in g[child]
  }

  /** The revisions nothing is built on. */
  function Heads(g: Graph): set<string> {
    set id | id in g && !IsParent(g, id)
  }

  // ---------- The gate ----------

  /** A revision that does not descend from the base: it is a second root, or names an unknown parent. */
  datatype Fault = SecondRoot(rev: string) | UnknownParent(rev: string, parent: string)

  datatype Verdict =
    | Passed
    | ManyHeads(heads: set<string>)
    | NothingFound
    | Faulty(faults: seq<Fault>)

  predicate IsNew(rev: Revision, newFiles: set<string>) {
    rev.file.Some? && rev.file.value in newFiles
  }

  function NewOnes(tree: seq<Revision>, newFiles: set<string>): seq<Revision> {
    if tree == [] then []
    else (if IsNew(tree[0], newFiles) then [tree[0]] else []) + NewOnes(tree[1..], newFiles)
  }

  function ParentFaults(rev: string, downs: seq<string>, known: set<string>): seq<Fault> {
    if downs == [] then []
    else (if downs[0] in known then [] else [UnknownParent(rev, downs[0])]) + ParentFaults(rev, downs[1..], known)
  }

  function RevisionFaults(rev: Revision, base: set<string>, known: set<string>): seq<Fault> {
    if AsTuple(rev.down) == [] then (if base != {} then [SecondRoot(rev.id)] else [])
    else ParentFaults(rev.id, AsTuple(rev.down), known)
  }

  function Faults(revs: seq<Revision>, base: set<string>, known: set<string>): seq<Fault> {
    if revs == [] then [] else RevisionFaults(revs[0], base, known) + Faults(revs[1..], base, known)
  }

  function Decide(tree: seq<Revision>, newFiles: set<string>, base: set<string>): Verdict
    requires DistinctIds(tree)
  {
    var revs := NewOnes(tree, newFiles);
    var faults := Faults(revs, base, base + Ids(revs));
    if |Heads(GraphOf(tree))| > 1 then ManyHeads(Heads(GraphOf(tree)))
    else if newFiles == {} then Passed
    else if revs == [] then NothingFound
    else if faults != [] then Faulty(faults)
    else Passed
  }

  lemma {:induction false} NewOnesConcat(a: seq<Revision>, b: seq<Revision>, newFiles: set<string>)
    ensures NewOnes(a + b, newFiles) == NewOnes(a, newFiles) + NewOnes(b, newFiles)
  {
    if a == [] {
      assert a + b == b;
    } else {
      assert (a + b)[1..] == a[1..] + b;
      NewOnesConcat(a[1..], b, newFiles);
      Associates(if IsNew(a[0], newFiles) then [a[0]] else [], NewOnes(a[1..], newFiles), NewOnes(b, newFiles));
    }
  }

  lemma {:induction false} FaultsConcat(a: seq<Revision>, b: seq<Revision>, base: set<string>, known: set<string>)
    ensures Faults(a + b, base, known) == Faults(a, base, known) + Faults(b, base, known)
  {
    if a == [] {
      assert a + b == b;
    } else {
      assert (a + b)[1..] == a[1..] + b;
      FaultsConcat(a[1..], b, base, known);
      Associates(RevisionFaults(a[0], base, known), Faults(a[1..], base, known), Faults(b, base, known));
    }
  }

  lemma {:induction false} ParentFaultsConcat(rev: string, a: seq<string>, b: seq<string>, known: set<string>)
    ensures ParentFaults(rev, a + b, known) == ParentFaults(rev, a, known) + ParentFaults(rev, b, known)
  {
    if a == [] {
      assert a + b == b;
    } else {
      assert (a + b)[1..] == a[1..] + b;
      ParentFaultsConcat(rev, a[1..], b, known);
      var first := if a[0] in known then [] else [UnknownParent(rev, a[0])];
      Associates(first, ParentFaults(rev, a[1..], known), ParentFaults(rev, b, known));
    }
  }

  /** Fills new_revs_in_pr. */
  method CollectNew(tree: seq<Revision>, newFiles: set<string>) returns (revs: seq<Revision>)
    ensures revs == NewOnes(tree, newFiles)
  {
    revs := [];
    for i := 0 to |tree|
      invariant revs == NewOnes(tree[..i], newFiles)
    {
      assert tree[..i + 1] == tree[..i] + [tree[i]];
      NewOnesConcat(tree[..i], [tree[i]], newFiles);
      if IsNew(tree[i], newFiles) {
        revs := revs + [tree[i]];
      }
    }
    assert tree[..|tree|] == tree;
  }

  /** The parents of one revision that are neither in the base nor new. */
  method CollectParents(rev: string, downs: seq<string>, base: set<string>, newIds: set<string>)
    returns (unreachable: seq<Fault>)
    ensures unreachable == ParentFaults(rev, downs, base + newIds)
  {
    unreachable := [];
    for j := 0 to |downs|
      invariant unreachable == ParentFaults(rev, downs[..j], base + newIds)
    {
      assert downs[..j + 1] == downs[..j] + [downs[j]];
      ParentFaultsConcat(rev, downs[..j], [downs[j]], base + newIds);
      if downs[j] !in base && downs[j] !in newIds {
        unreachable := unreachable + [UnknownParent(rev, downs[j])];
      }
    }
    assert downs[..|downs|] == downs;
  }

  lemma {:induction false} FaultsSnoc(revs: seq<Revision>, i: nat, base: set<string>, known: set<string>)
    requires i < |revs|
    ensures Faults(revs[..i + 1], base, known) == Faults(revs[..i], base, known) + RevisionFaults(revs[i], base, known)
  {
    assert revs[..i + 1] == revs[..i] + [revs[i]];
    FaultsConcat(revs[..i], [revs[i]], base, known);
    assert [revs[i]][1..] == [] && Faults([revs[i]], base, known) == RevisionFaults(revs[i], base, known);
  }

  /** Fills unreachable. */
  method CollectFaults(revs: seq<Revision>, base: set<string>, newIds: set<string>) returns (unreachable: seq<Fault>)
    ensures unreachable == Faults(revs, base, base + newIds)
  {
    unreachable := [];
    for i := 0 to |revs|
      invariant unreachable == Faults(revs[..i], base, base + newIds)
    {
      var downs := AsTuple(revs[i].down);
      FaultsSnoc(revs, i, base, base + newIds);
      if downs == [] {
        if base != {} {
          unreachable := unreachable + [SecondRoot(revs[i].id)];
        }
        continue;
      }
      var more := CollectParents(revs[i].id, downs, base, newIds);
      unreachable := unreachable + more;
    }
    assert revs[..|revs|] == revs;
  }

  /** The two checks of main, on the revisions of the pull request, its new files and the ids of the base. */
  method CheckHeads(tree: seq<Revision>, newFiles: set<string>, base: set<string>) returns (verdict: Verdict)
    requires DistinctIds(tree)
    ensures verdict == Decide(tree, newFiles, base)
  {
    var heads := Heads(GraphOf(tree));
    if |heads| > 1 {
      return ManyHeads(heads);
    }
    if newFiles == {} {
      return Passed;
    }
    var revs := CollectNew(tree, newFiles);
    if revs == [] {
      return NothingFound;
    }
    var unreachable := CollectFaults(revs, base, Ids(revs));
    if unreachable != [] {
      return Faulty(unreachable);
    }
    return Passed;
  }

  // ---------- What the checks look at ----------

  lemma {:induction false} NewOnesMembers(tree: seq<Revision>, newFiles: set<string>)
    ensures forall r :: r in NewOnes(tree, newFiles) <==> r in tree && IsNew(r, newFiles)
  {
    if tree != [] {
      NewOnesMembers(tree[1..], newFiles);
      assert tree == [tree[0]] + tree[1..];
    }
  }

  lemma {:induction false} NoParentFaults(rev: string, downs: seq<string>, known: set<string>)
    ensures ParentFaults(rev, downs, known) == [] <==> forall p :: p in downs ==> p in known
  {
    if downs != [] {
      NoParentFaults(rev, downs[1..], known);
      assert downs == [downs[0]] + downs[1..];
      assert downs[0] in downs;
    }
  }

  /** A new revision that is no second root and whose parents are all known. */
  predicate Attached(downs: seq<string>, base: set<string>, known: set<string>) {
    (downs == [] ==> base == {}) && forall p :: p in downs ==> p in known
  }

  lemma {:induction false} NoFaults(revs: seq<Revision>, base: set<string>, known: set<string>)
    ensures Faults(revs, base, known) == [] <==> forall r :: r in revs ==> Attached(AsTuple(r.down), base, known)
  {
    if revs != [] {
      NoFaults(revs[1..], base, known);
      NoParentFaults(revs[0].id, AsTuple(revs[0].down), known);
      assert revs == [revs[0]] + revs[1..];
      assert revs[0] in revs;
    }
  }

  function NewIds(tree: seq<Revision>, newFiles: set<string>): set<string> {
    Ids(NewOnes(tree, newFiles))
  }

  lemma {:induction false} NewIdsKnown(tree: seq<Revision>, newFiles: set<string>)
    requires DistinctIds(tree)
    ensures NewIds(tree, newFiles) <= GraphOf(tree).Keys
    ensures forall r :: r in NewOnes(tree, newFiles) ==>
            r.id in NewIds(tree, newFiles) && GraphOf(tree)[r.id] == AsTuple(r.down)
    ensures forall id :: id in NewIds(tree, newFiles) ==> exists r :: r in NewOnes(tree, newFiles) && r.id == id
  {
    NewOnesMembers(tree, newFiles);
    var revs := NewOnes(tree, newFiles);
    forall id | id in NewIds(tree, newFiles) ensures id in GraphOf(tree) && exists r :: r in revs && r.id == id {
      var i :| 0 <= i < |revs| && revs[i].id == id;
      assert revs[i] in tree;
    }
  }

  predicate Accepted(g: Graph, base: set<string>, added: set<string>) {
    && |Heads(g)| <= 1 && added != {}
    && forall id :: id in added && id in g ==> Attached(g[id], base, base + added)
  }

  /**
   A pull request with new files passes when it has new revisions, at most one head, and every new revision
   attached.
   */
  lemma {:induction false} PassedMeans(tree: seq<Revision>, newFiles: set<string>, base: set<string>)
    requires DistinctIds(tree) && newFiles != {}
    ensures Decide(tree, newFiles, base).Passed? <==> Accepted(GraphOf(tree), base, NewIds(tree, newFiles))
  {
    var revs := NewOnes(tree, newFiles);
    NewIdsKnown(tree, newFiles);
    NoFaults(revs, base, base + Ids(revs));
    if revs != [] { assert revs[0] in revs; }
  }

  /** A parent that neither the base nor a new revision provides. */
  ghost predicate Missing(p: string, base: set<string>, revs: seq<Revision>) {
    p !in base && forall r :: r in revs ==> r.id != p
  }

  lemma {:induction false} IdsMembers(revs: seq<Revision>, p: string)
    ensures p in Ids(revs) <==> exists r :: r in revs && r.id == p
  {
    if r :| r in revs && r.id == p {
      var i :| 0 <= i < |revs| && revs[i] == r;
    }
  }

  lemma {:induction false} ParentFaultsMembers(rev: string, downs: seq<string>, known: set<string>, f: Fault)
    ensures f in ParentFaults(rev, downs, known) <==>
            exists p :: p in downs && p !in known && f == UnknownParent(rev, p)
  {
    if downs != [] {
      ParentFaultsMembers(rev, downs[1..], known, f);
      assert downs == [downs[0]] + downs[1..];
      assert downs[0] in downs;
    }
  }

  lemma {:induction false} FaultsMembers(revs: seq<Revision>, base: set<string>, known: set<string>, f: Fault)
    ensures f in Faults(revs, base, known) <==> exists r :: r in revs && f in RevisionFaults(r, base, known)
  {
    if revs != [] {
      FaultsMembers(revs[1..], base, known, f);
      assert revs == [revs[0]] + revs[1..];
      assert revs[0] in revs;
    }
  }

  /**
   The faults reported: a new revision without parents, unless the base is empty, and every parent of a new
   revision that is neither in the base nor new itself.
   */
  lemma {:induction false} FaultsMeaning(revs: seq<Revision>, base: set<string>, f: Fault)
    ensures f in Faults(revs, base, base + Ids(revs)) <==>
            match f
            case SecondRoot(id) => base != {} && exists r :: r in revs && r.id == id && AsTuple(r.down) == []
            case UnknownParent(id, p) =>
              Missing(p, base, revs) && exists r :: r in revs && r.id == id && p in AsTuple(r.down)
  {
    var known := base + Ids(revs);
    FaultsMembers(revs, base, known, f);
    forall r: Revision ensures f in ParentFaults(r.id, AsTuple(r.down), known) <==>
      exists p :: p in AsTuple(r.down) && p !in known && f == UnknownParent(r.id, p)
    {
      ParentFaultsMembers(r.id, AsTuple(r.down), known, f);
    }
    if f.UnknownParent? { IdsMembers(revs, f.parent); }
  }

  /**
   The verdict: many heads first, whatever is new; then nothing to check without new files; then new files
   that hold no revision; then the faults, if there are any.
   */
  lemma {:induction false} VerdictMeaning(tree: seq<Revision>, newFiles: set<string>, base: set<string>)
    requires DistinctIds(tree)
    ensures var verdict, heads := Decide(tree, newFiles, base), Heads(GraphOf(tree));
            var found := exists r, file :: r in tree && r.file == Some(file) && file in newFiles;
            && (verdict.ManyHeads? <==> |heads| > 1) && (verdict.ManyHeads? ==> verdict.heads == heads)
            && (|heads| <= 1 && newFiles == {} ==> verdict.Passed?)
            && (verdict.NothingFound? <==> |heads| <= 1 && newFiles != {} && !found)
            && (verdict.Faulty? ==> verdict.faults != [])
            && (verdict.Faulty? ==>
                  verdict.faults == Faults(NewOnes(tree, newFiles), base, base + NewIds(tree, newFiles)))
  {
    NewOnesMembers(tree, newFiles);
    var revs := NewOnes(tree, newFiles);
    if revs != [] { assert revs[0] in revs && IsNew(revs[0], newFiles); }
  }

  // ---------- Ancestry ----------

  /** A way from a revision towards the roots: each step goes to a parent. */
  ghost predicate Walk(g: Graph, p: seq<string>) {
    p != [] && forall i :: 0 <= i < |p| - 1 ==> p[i] in g && p[i + 1] in g[p[i]]
  }

  ghost predicate Ancestor(g: Graph, a: string, d: string) {
    exists p :: Walk(g, p) && p[0] == d && p[|p| - 1] == a
  }

  ghost predicate Acyclic(g: Graph) {
    forall p :: Walk(g, p) && |p| > 1 ==> p[0] != p[|p| - 1]
  }

  /** A walk that cannot go on: it ends at a root, or at a parent that is missing. */
  ghost predicate Rootward(g: Graph, p: seq<string>) {
    Walk(g, p) && (p[|p| - 1] !in g || g[p[|p| - 1]] == [])
  }

  lemma {:induction false} WalkPart(g: Graph, p: seq<string>, i: nat, j: nat)
    requires Walk(g, p) && i < j <= |p|
    ensures Walk(g, p[i..j])
  {
  }

  lemma {:induction false} WalkDistinct(g: Graph, p: seq<string>, i: nat, j: nat)
    requires Acyclic(g) && Walk(g, p) && i < j < |p|
    ensures p[i] != p[j]
  {
    WalkPart(g, p, i, j + 1);
    assert p[i..j + 1][0] == p[i] && p[i..j + 1][|p[i..j + 1]| - 1] == p[j];
  }

  function Elements(p: seq<string>): set<string> {
    set i | 0 <= i < |p| :: p[i]
  }

  lemma {:induction false} DistinctSize(p: seq<string>)
    requires forall i, j :: 0 <= i < j < |p| ==> p[i] != p[j]
    ensures |Elements(p)| == |p|
  {
    if p != [] {
      var init, last := p[..|p| - 1], p[|p| - 1];
      DistinctSize(init);
      assert Elements(p) == Elements(init) + {last};
    }
  }

  /** A walk in a finite acyclic history is no longer than the history. */
  lemma {:induction false} WalkShort(g: Graph, p: seq<string>)
    requires Acyclic(g) && Walk(g, p) && forall i :: 0 <= i < |p| ==> p[i] in g
    ensures |p| <= |g.Keys|
  {
    forall i, j | 0 <= i < j < |p| ensures p[i] != p[j] { WalkDistinct(g, p, i, j); }
    DistinctSize(p);
    Within(Elements(p), g.Keys);
  }

  lemma {:induction false} Within(a: set<string>, b: set<string>)
    requires a <= b
    ensures |a| <= |b|
  {
    if x :| x in a { Within(a - {x}, b - {x}); }
  }

  /** From any revision, going from parents to children ends at a head. */
  lemma {:induction false} Climb(g: Graph, p: seq<string>) returns (head: string)
    requires Acyclic(g) && Walk(g, p) && forall i :: 0 <= i < |p| ==> p[i] in g
    ensures head in Heads(g) && Ancestor(g, p[|p| - 1], head)
    decreases |g.Keys| + 1 - |p|
  {
    WalkShort(g, p);
    if p[0] in Heads(g) {
      head := p[0];
    } else {
      var child :| child in g && p[0] in g[child];
      head := Climb(g, [child] + p);
    }
  }

  /** With one head, everything is an ancestor of it. */
  lemma {:induction false} HeadOverAll(g: Graph, id: string) returns (head: string)
    requires Acyclic(g) && |Heads(g)| <= 1 && id in g
    ensures Heads(g) == {head} && Ancestor(g, id, head)
  {
    head := Climb(g, [id]);
    Within({head}, Heads(g));
    if other :| other in Heads(g) && other != head {
      Within({head, other}, Heads(g));
    }
  }

  ghost predicate Closed(g: Graph, ids: set<string>) {
    forall id, p :: id in ids && id in g && p in g[id] ==> p in ids
  }

  /** A walk never leaves a set closed under parents. */
  lemma {:induction false} WalkStays(g: Graph, p: seq<string>, ids: set<string>, i: nat, j: nat)
    requires Walk(g, p) && Closed(g, ids) && i <= j < |p| && p[i] in ids
    ensures p[j] in ids
    decreases j - i
  {
    if i < j {
      assert p[i + 1] in g[p[i]];
      WalkStays(g, p, ids, i + 1, j);
    }
  }

  // ---------- What passing guarantees ----------

  /** The head of the history is new, and every revision leads to it. */
  ghost predicate NewHeadOverAll(g: Graph, added: set<string>) {
    exists head :: head in added && forall id :: id in g ==> Ancestor(g, id, head)
  }

  /** Every way rootward from a new revision ends at a known revision, and enters the base unless that is empty. */
  ghost predicate DescendsFromBase(g: Graph, base: set<string>, added: set<string>) {
    forall p :: Rootward(g, p) && p[0] in added ==>
      p[|p| - 1] in g && (base != {} ==> exists i :: 0 <= i < |p| && p[i] in base)
  }

  /** The pull request is the base, closed under parents, and the new revisions beside it. */
  ghost predicate Extends(g: Graph, base: set<string>, added: set<string>) {
    g.Keys == base + added && base !! added && Closed(g, base)
  }

  lemma {:induction false} HeadIsNew(g: Graph, base: set<string>, added: set<string>) returns (head: string)
    requires added <= g.Keys && g.Keys <= base + added && base !! added && Closed(g, base) && Acyclic(g)
    requires |Heads(g)| <= 1 && added != {}
    ensures Heads(g) == {head} && head in added
  {
    var id :| id in added;
    head := HeadOverAll(g, id);
    if head in base {
      var p :| Walk(g, p) && p[0] == head && p[|p| - 1] == id;
      WalkStays(g, p, base, 0, |p| - 1);
      assert false;
    }
  }

  lemma {:induction false} AttachedDescend(g: Graph, base: set<string>, added: set<string>, p: seq<string>)
    requires Extends(g, base, added)
    requires forall id :: id in added ==> Attached(g[id], base, base + added)
    requires Rootward(g, p) && p[0] in added
    ensures p[|p| - 1] in g && (base != {} ==> exists i :: 0 <= i < |p| && p[i] in base)
  {
    assert Closed(g, g.Keys);
    WalkStays(g, p, g.Keys, 0, |p| - 1);
    if p[|p| - 1] in added {
      assert Attached(g[p[|p| - 1]], base, base + added);
    }
  }

  lemma {:induction false} DescendAttached(g: Graph, base: set<string>, added: set<string>, id: string)
    requires Extends(g, base, added) && DescendsFromBase(g, base, added) && id in added
    ensures Attached(g[id], base, base + added)
  {
    if g[id] == [] {
      assert Rootward(g, [id]);
    }
    forall p | p in g[id] ensures p in base + added {
      if p !in g { assert Rootward(g, [id, p]); }
    }
  }

  lemma {:induction false} OverAllSingle(g: Graph, head: string)
    requires head in g && forall id :: id in g ==> Ancestor(g, id, head)
    ensures |Heads(g)| <= 1
  {
    forall id | id in g && id != head ensures id !in Heads(g) {
      var p :| Walk(g, p) && p[0] == head && p[|p| - 1] == id;
      assert p[|p| - 2] in g && p[|p| - 2 + 1] in g[p[|p| - 2]];
    }
    Within(Heads(g), {head});
  }

  lemma {:induction false} AcceptedDescends(g: Graph, base: set<string>, added: set<string>)
    requires Extends(g, base, added) && Acyclic(g) && Accepted(g, base, added)
    ensures NewHeadOverAll(g, added) && DescendsFromBase(g, base, added)
  {
    var head := HeadIsNew(g, base, added);
    forall id | id in g ensures Ancestor(g, id, head) {
      var same := HeadOverAll(g, id);
      assert same in {head};
    }
    forall p | Rootward(g, p) && p[0] in added
      ensures p[|p| - 1] in g && (base != {} ==> exists i :: 0 <= i < |p| && p[i] in base)
    {
      AttachedDescend(g, base, added, p);
    }
  }

  lemma {:induction false} DescendsAccepted(g: Graph, base: set<string>, added: set<string>)
    requires Extends(g, base, added) && NewHeadOverAll(g, added) && DescendsFromBase(g, base, added)
    ensures Accepted(g, base, added)
  {
    var head :| head in added && forall id :: id in g ==> Ancestor(g, id, head);
    OverAllSingle(g, head);
    forall id | id in added ensures Attached(g[id], base, base + added) { DescendAttached(g, base, added, id); }
  }

  /**
   On an acyclic history that is a parent-closed base plus the new revisions, the two checks decide a
   property of whole ancestries: one new head over everything, and no way from a new revision to the
   roots that misses the base.
   */
  lemma {:induction false} GateDecidesDescent(tree: seq<Revision>, newFiles: set<string>, base: set<string>)
    requires DistinctIds(tree) && newFiles != {}
    requires Extends(GraphOf(tree), base, NewIds(tree, newFiles)) && Acyclic(GraphOf(tree))
    ensures Decide(tree, newFiles, base).Passed? <==>
            && NewHeadOverAll(GraphOf(tree), NewIds(tree, newFiles))
            && DescendsFromBase(GraphOf(tree), base, NewIds(tree, newFiles))
  {
    var g, added := GraphOf(tree), NewIds(tree, newFiles);
    PassedMeans(tree, newFiles, base);
    if Accepted(g, base, added) { AcceptedDescends(g, base, added); }
    if NewHeadOverAll(g, added) && DescendsFromBase(g, base, added) { DescendsAccepted(g, base, added); }
  }

  // ---------- A pull request that is behind its base ----------

  /** The history after the merge. */
  function Merged(g: Graph, baseGraph: Graph): Graph {
    baseGraph + g
  }

  ghost predicate Agree(g: Graph, baseGraph: Graph) {
    forall id :: id in g && id in baseGraph ==> g[id] == baseGraph[id]
  }

  lemma {:induction false} MergedParents(g: Graph, baseGraph: Graph, id: string)
    requires Agree(g, baseGraph)
    ensures IsParent(Merged(g, baseGraph), id) <==> IsParent(g, id) || IsParent(baseGraph, id)
  {
    var m := Merged(g, baseGraph);
    if IsParent(g, id) {
      var c :| c in g && id in g[c];
      assert c in m && id in m[c];
    }
    if IsParent(baseGraph, id) {
      var c :| c in baseGraph && id in baseGraph[c];
      assert c in m && id in m[c];
    }
  }

  /** A well-formed pull request against a base that may have moved on since. */
  ghost predicate Against(g: Graph, baseGraph: Graph, added: set<string>) {
    && Closed(g, g.Keys) && Closed(baseGraph, baseGraph.Keys) && Agree(g, baseGraph)
    && added <= g.Keys && g.Keys - added <= baseGraph.Keys && added !! baseGraph.Keys
  }

  lemma {:induction false} NewHeadStays(g: Graph, baseGraph: Graph, added: set<string>, head: string)
    requires Against(g, baseGraph, added) && head in added && head in Heads(g)
    ensures head in Heads(Merged(g, baseGraph))
  {
    MergedParents(g, baseGraph, head);
  }

  lemma {:induction false} MergedHeads(g: Graph, baseGraph: Graph, added: set<string>, head: string, tip: string)
    requires Against(g, baseGraph, added) && head in added && Heads(g) == {head} && Heads(baseGraph) == {tip}
    ensures Heads(Merged(g, baseGraph)) == if tip in g then {head} else {head, tip}
  {
    var m := Merged(g, baseGraph);
    assert head in {head} && tip in {tip};
    NewHeadStays(g, baseGraph, added, head);
    forall id | id in Heads(m) ensures id == head || (id == tip && tip !in g) {
      MergedParents(g, baseGraph, id);
      if id in g { assert id in Heads(g); } else { assert id in Heads(baseGraph); }
    }
    if tip !in g {
      MergedParents(g, baseGraph, tip);
      assert tip in Heads(m);
    }
  }

  /**
   The second check asks for parents in the base, not for the tip of the base. A pull request that passes
   leaves one head after the merge exactly when it already contains the tip of the base it is merged into.
   */
  lemma {:induction false} MergeKeepsOneHead(tree: seq<Revision>, newFiles: set<string>, baseGraph: Graph, tip: string)
    requires DistinctIds(tree) && newFiles != {} && Decide(tree, newFiles, baseGraph.Keys).Passed?
    requires Acyclic(GraphOf(tree)) && Against(GraphOf(tree), baseGraph, NewIds(tree, newFiles))
    requires Heads(baseGraph) == {tip}
    ensures |Heads(Merged(GraphOf(tree), baseGraph))| == 1 <==> tip in GraphOf(tree)
  {
    var g, added := GraphOf(tree), NewIds(tree, newFiles);
    PassedMeans(tree, newFiles, baseGraph.Keys);
    var head := HeadIsNew(g, baseGraph.Keys, added);
    assert tip in Heads(baseGraph);
    MergedHeads(g, baseGraph, added, head, tip);
  }

  lemma {:induction false} NewOnesOne(rev: Revision, newFiles: set<string>)
    ensures NewOnes([rev], newFiles) == if IsNew(rev, newFiles) then [rev] else []
  {
    assert NewOnes([rev][1..], newFiles) == [];
  }

  lemma {:induction false} TwoNew(first: Revision, second: Revision, newFiles: set<string>)
    requires !IsNew(first, newFiles) && IsNew(second, newFiles)
    ensures NewOnes([first] + [second], newFiles) == [second]
  {
    NewOnesConcat([first], [second], newFiles);
    NewOnesOne(first, newFiles);
    NewOnesOne(second, newFiles);
  }

  lemma {:induction false} OneId(revs: seq<Revision>)
    requires |revs| == 1
    ensures Ids(revs) == {revs[0].id}
  {
  }

  lemma {:induction false} TwoRevisions(tree: seq<Revision>, file: string)
    requires |tree| == 2 && tree[0].id != tree[1].id && !IsNew(tree[0], {file}) && IsNew(tree[1], {file})
    ensures DistinctIds(tree) && NewIds(tree, {file}) == {tree[1].id}
    ensures GraphOf(tree) == map[tree[0].id := AsTuple(tree[0].down), tree[1].id := AsTuple(tree[1].down)]
  {
    TwoGraph(tree);
    TwoIds(tree, {file});
  }

  lemma {:induction false} TwoIds(tree: seq<Revision>, newFiles: set<string>)
    requires |tree| == 2 && !IsNew(tree[0], newFiles) && IsNew(tree[1], newFiles)
    ensures NewIds(tree, newFiles) == {tree[1].id}
  {
    assert tree == [tree[0]] + [tree[1]];
    TwoNew(tree[0], tree[1], newFiles);
    OneId([tree[1]]);
  }

  lemma {:induction false} TwoGraph(tree: seq<Revision>)
    requires |tree| == 2 && tree[0].id != tree[1].id
    ensures DistinctIds(tree)
    ensures GraphOf(tree) == map[tree[0].id := AsTuple(tree[0].down), tree[1].id := AsTuple(tree[1].down)]
  {
  }

  lemma {:induction false} ChainHead(first: string, second: string)
    requires first != second
    ensures Heads(map[first := [], second := [first]]) == {second}
  {
    var g: Graph := map[first := [], second := [first]];
    assert first in g[second];
  }

  lemma {:induction false} StaleGraph(past: string, tip: string, added: string, g: Graph, baseGraph: Graph)
    requires past != tip && added != past && added != tip
    requires g == map[past := [], added := [past]] && baseGraph == map[past := [], tip := [past]]
    ensures Accepted(g, baseGraph.Keys, {added}) && Heads(Merged(g, baseGraph)) == {added, tip}
  {
    ChainHead(past, tip);
    ChainHead(past, added);
    assert g.Keys == {past, added} && baseGraph.Keys == {past, tip};
    assert g[past] == [] && g[added] == [past] && baseGraph[past] == [] && baseGraph[tip] == [past];
    MergedHeads(g, baseGraph, {added}, added, tip);
  }

  /** A pull request built on the old tip of a base that has moved on: it passes, and the merge has two heads. */
  lemma {:induction false} StalePasses(past: string, tip: string, added: string, file: string)
    requires past != tip && added != past && added != tip
    ensures var tree := [Revision(past, NoDown, None), Revision(added, OneDown(past), Some(file))];
            var baseGraph: Graph := map[past := [], tip := [past]];
            && DistinctIds(tree) && Decide(tree, {file}, baseGraph.Keys).Passed?
            && Heads(Merged(GraphOf(tree), baseGraph)) == {added, tip}
  {
    var first, second := Revision(past, NoDown, None), Revision(added, OneDown(past), Some(file));
    var baseGraph: Graph := map[past := [], tip := [past]];
    TwoRevisions([first, second], file);
    StaleGraph(past, tip, added, GraphOf([first, second]), baseGraph);
    PassedMeans([first, second], {file}, baseGraph.Keys);
  }
}
