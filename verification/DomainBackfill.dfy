/**
 The migration from one domain per entity to a table of associations: every legacy
 domain value that resolves becomes a primary association, the legacy columns are
 dropped, and the downgrade restores them from the primaries.
 */
module DomainBackfill {
  import opened Symbols

  datatype Domain = Domain(id: string, name: string)

  datatype Entity = Entity(id: string, domain: Option<string>)

  datatype EntityType = Team | DataContract | Asset | DataProduct

  /** A row of entity_domain_associations. */
  datatype Link = Link(domain: string, etype: EntityType, entity: string, primary: bool)

  // ---------- Selecting ----------

  predicate HasId(domains: seq<Domain>, id: string) {
    exists d :: d in domains && d.id == id
  }

  /** Whether a domain is what an entity's legacy value means: by its id, or by its name when the value is no id. */
  predicate Chosen(domains: seq<Domain>, d: Domain, e: Entity, byName: bool) {
    && e.domain.Some?
    && if byName then d.name == e.domain.value && !HasId(domains, e.domain.value) else d.id == e.domain.value
  }

  function SelectFor(domains: seq<Domain>, some: seq<Domain>, e: Entity, t: EntityType, byName: bool): seq<Link> {
    if some == [] then []
    else
      (if Chosen(domains, some[0], e, byName) then [Link(some[0].id, t, e.id, true)] else [])
      + SelectFor(domains, some[1..], e, t, byName)
  }

  function Select(domains: seq<Domain>, es: seq<Entity>, t: EntityType, byName: bool): seq<Link> {
    if es == [] then [] else SelectFor(domains, domains, es[0], t, byName) + Select(domains, es[1..], t, byName)
  }

  // ---------- Inserting ----------

  predicate SameAssignment(a: Link, b: Link) {
    a.domain == b.domain && a.etype == b.etype && a.entity == b.entity
  }

  predicate BothPrimary(a: Link, b: Link) {
    a.primary && b.primary && a.etype == b.etype && a.entity == b.entity
  }

  /** ON CONFLICT covers the unique constraint on assignments, not the index that allows one primary per entity. */
  function Put(links: seq<Link>, link: Link): Result<seq<Link>> {
    if exists l :: l in links && SameAssignment(l, link) then Ok(links)
    else if exists l :: l in links && BothPrimary(l, link) then Err
    else Ok(links + [link])
  }

  function PutAll(links: seq<Link>, more: seq<Link>): Result<seq<Link>>
    decreases |more|
  {
    if more == [] then Ok(links)
    else
      var next :- Put(links, more[0]);
      PutAll(next, more[1..])
  }

  ghost predicate Indexed(links: seq<Link>) {
    forall i, j :: 0 <= i < j < |links| ==> !SameAssignment(links[i], links[j]) && !BothPrimary(links[i], links[j])
  }

  lemma {:induction false} PutAllConcat(links: seq<Link>, a: seq<Link>, b: seq<Link>)
    ensures PutAll(links, a + b) == match PutAll(links, a) case Err => Err case Ok(next) => PutAll(next, b)
    decreases |a|
  {
    if a == [] {
      assert a + b == b;
    } else {
      assert (a + b)[1..] == a[1..] + b;
      if Put(links, a[0]).Ok? { PutAllConcat(Put(links, a[0]).value, a[1..], b); }
    }
  }

  // ---------- The migration ----------

  /** The entities of the four tables that have a legacy domain column. */
  datatype Tables = Tables(teams: seq<Entity>, contracts: seq<Entity>, assets: seq<Entity>, products: seq<Entity>) {
    function Of(t: EntityType): seq<Entity> {
      match t case Team => teams case DataContract => contracts case Asset => assets case DataProduct => products
    }

    function Selected(domains: seq<Domain>): seq<Link> {
      Select(domains, teams, Team, false) + Select(domains, contracts, DataContract, false)
      + Select(domains, assets, Asset, false)
      + Select(domains, products, DataProduct, false) + Select(domains, products, DataProduct, true)
    }

    /** Ids are primary keys. */
    ghost predicate Keyed() {
      forall t :: DistinctIds(Of(t))
    }
  }

  ghost predicate DistinctIds(es: seq<Entity>) {
    forall a, b :: a in es && b in es && a.id == b.id ==> a == b
  }

  /** The primaries of one entity, in table order. */
  function PrimaryOf(links: seq<Link>, t: EntityType, id: string): Option<string> {
    if links == [] then None
    else if links[0].primary && links[0].etype == t && links[0].entity == id then Some(links[0].domain)
    else PrimaryOf(links[1..], t, id)
  }

  /** UPDATE ... FROM sets the column where there is a primary. */
  function Restored(links: seq<Link>, t: EntityType, es: seq<Entity>): (r: seq<Entity>)
    ensures |r| == |es|
  {
    seq(|es|, i requires 0 <= i < |es| =>
      match PrimaryOf(links, t, es[i].id) case None => es[i] case Some(d) => es[i].(domain := Some(d)))
  }

  function Cleared(es: seq<Entity>): (r: seq<Entity>)
    ensures |r| == |es|
  {
    seq(|es|, i requires 0 <= i < |es| => es[i].(domain := None))
  }

  function RestoredTables(links: seq<Link>, tables: Tables): Tables {
    Tables(Restored(links, Team, tables.teams), Restored(links, DataContract, tables.contracts),
           Restored(links, Asset, tables.assets), Restored(links, DataProduct, tables.products))
  }

  function ClearedTables(tables: Tables): Tables {
    Tables(Cleared(tables.teams), Cleared(tables.contracts), Cleared(tables.assets), Cleared(tables.products))
  }

  class Database {
    var domains: seq<Domain>
    var tables: Tables
    var links: seq<Link>

    constructor (domains: seq<Domain>, tables: Tables)
      ensures this.domains == domains && this.tables == tables && links == []
    {
      this.domains, this.tables, this.links := domains, tables, [];
    }

    method SelectFrom(es: seq<Entity>, t: EntityType, byName: bool) returns (selected: seq<Link>)
      ensures selected == Select(domains, es, t, byName)
    {
      selected := [];
      for i := 0 to |es|
        invariant selected == Select(domains, es[..i], t, byName)
      {
        ghost var before := selected;
        assert es[..i + 1] == es[..i] + [es[i]];
        SelectSnoc(domains, es[..i], es[i], t, byName);
        for j := 0 to |domains|
          invariant selected == before + SelectFor(domains, domains[..j], es[i], t, byName)
        {
          assert domains[..j + 1] == domains[..j] + [domains[j]];
          SelectForSnoc(domains, domains[..j], domains[j], es[i], t, byName);
          if Chosen(domains, domains[j], es[i], byName) {
            selected := selected + [Link(domains[j].id, t, es[i].id, true)];
          }
        }
        assert domains[..|domains|] == domains;
      }
      assert es[..|es|] == es;
    }

    /** One INSERT ... SELECT statement: all rows, or none. */
    method Backfill(es: seq<Entity>, t: EntityType, byName: bool) returns (r: Result<()>)
      modifies this`links
      ensures match PutAll(old(links), Select(domains, es, t, byName))
              case Ok(next) => r.Ok? && links == next
              case Err => r.Err? && links == old(links)
    {
      var selected := SelectFrom(es, t, byName);
      var next := links;
      for i := 0 to |selected|
        invariant links == old(links)
        invariant PutAll(links, selected) == PutAll(next, selected[i..])
      {
        var put := Put(next, selected[i]);
        assert selected[i..][1..] == selected[i + 1..];
        if put.Err? {
          return Err;
        }
        next := put.value;
      }
      links := next;
      return Ok(());
    }

    /** Fills the associations and drops the legacy columns, in one transaction. */
    method Upgrade() returns (r: Result<()>)
      modifies this
      ensures domains == old(domains)
      ensures match PutAll(old(links), old(tables).Selected(old(domains)))
              case Ok(next) => r.Ok? && links == next && tables == ClearedTables(old(tables))
              case Err => r.Err? && links == old(links) && tables == old(tables)
    {
      var before := links;
      r := BackfillAll();
      if r.Err? {
        links := before;
        return;
      }
      tables := tables.(teams := Cleared(tables.teams));
      tables := tables.(contracts := Cleared(tables.contracts));
      tables := tables.(assets := Cleared(tables.assets));
      tables := tables.(products := Cleared(tables.products));
    }

    method BackfillAll() returns (r: Result<()>)
      modifies this`links
      ensures match PutAll(old(links), tables.Selected(domains))
              case Ok(next) => r.Ok? && links == next
              case Err => r.Err?
    {
      FiveStatements(links, domains, tables);
      r := Backfill(tables.teams, Team, false);
      if r.Err? { return; }
      r := Backfill(tables.contracts, DataContract, false);
      if r.Err? { return; }
      r := Backfill(tables.assets, Asset, false);
      if r.Err? { return; }
      r := Backfill(tables.products, DataProduct, false);
      if r.Err? { return; }
      r := Backfill(tables.products, DataProduct, true);
    }

    method Downgrade()
      modifies this
      ensures domains == old(domains) && links == [] && tables == RestoredTables(old(links), old(tables))
    {
      tables := tables.(teams := Restored(links, Team, tables.teams));
      tables := tables.(contracts := Restored(links, DataContract, tables.contracts));
      tables := tables.(assets := Restored(links, Asset, tables.assets));
      tables := tables.(products := Restored(links, DataProduct, tables.products));
      links := [];
    }
  }

  ghost function Then(r: Result<seq<Link>>, more: seq<Link>): Result<seq<Link>> {
    match r case Err => Err case Ok(links) => PutAll(links, more)
  }

  lemma {:induction false} FiveStatements(links: seq<Link>, domains: seq<Domain>, tables: Tables)
    ensures PutAll(links, tables.Selected(domains)) ==
            Then(Then(Then(Then(PutAll(links, Select(domains, tables.teams, Team, false)),
              Select(domains, tables.contracts, DataContract, false)), Select(domains, tables.assets, Asset, false)),
              Select(domains, tables.products, DataProduct, false)),
                Select(domains, tables.products, DataProduct, true))
  {
    var a, b := Select(domains, tables.teams, Team, false), Select(domains, tables.contracts, DataContract, false);
    var c, d := Select(domains, tables.assets, Asset, false), Select(domains, tables.products, DataProduct, false);
    var e := Select(domains, tables.products, DataProduct, true);
    PutAllConcat(links, a, b);
    PutAllConcat(links, a + b, c);
    PutAllConcat(links, a + b + c, d);
    PutAllConcat(links, a + b + c + d, e);
  }

  lemma {:induction false} SelectForSnoc(
    domains: seq<Domain>, some: seq<Domain>, d: Domain, e: Entity, t: EntityType, byName: bool)
    ensures SelectFor(domains, some + [d], e, t, byName) ==
            SelectFor(domains, some, e, t, byName)
              + (if Chosen(domains, d, e, byName) then [Link(d.id, t, e.id, true)] else [])
  {
    if some == [] {
      assert some + [d] == [d] && [d][1..] == [];
    } else {
      assert (some + [d])[1..] == some[1..] + [d];
      SelectForSnoc(domains, some[1..], d, e, t, byName);
    }
  }

  lemma {:induction false} SelectSnoc(domains: seq<Domain>, es: seq<Entity>, e: Entity, t: EntityType, byName: bool)
    ensures Select(domains, es + [e], t, byName) ==
            Select(domains, es, t, byName) + SelectFor(domains, domains, e, t, byName)
  {
    if es == [] {
      assert es + [e] == [e] && [e][1..] == [];
    } else {
      assert (es + [e])[1..] == es[1..] + [e];
      SelectSnoc(domains, es[1..], e, t, byName);
    }
  }

  // ---------- What is selected ----------

  ghost predicate Assigns(domains: seq<Domain>, e: Entity, t: EntityType, byName: bool, link: Link) {
    exists d :: d in domains && Chosen(domains, d, e, byName) && link == Link(d.id, t, e.id, true)
  }

  lemma {:induction false} SelectForMembers(
    domains: seq<Domain>, some: seq<Domain>, e: Entity, t: EntityType, byName: bool, link: Link)
    ensures link in SelectFor(domains, some, e, t, byName) <==>
            exists d :: d in some && Chosen(domains, d, e, byName) && link == Link(d.id, t, e.id, true)
  {
    if some != [] {
      SelectForMembers(domains, some[1..], e, t, byName, link);
      assert some == [some[0]] + some[1..];
      assert some[0] in some;
    }
  }

  lemma {:induction false} SelectMembers(domains: seq<Domain>, es: seq<Entity>, t: EntityType, byName: bool, link: Link)
    ensures link in Select(domains, es, t, byName) <==> exists e :: e in es && Assigns(domains, e, t, byName, link)
  {
    if es != [] {
      SelectMembers(domains, es[1..], t, byName, link);
      SelectForMembers(domains, domains, es[0], t, byName, link);
      assert es == [es[0]] + es[1..];
      assert es[0] in es;
    }
  }

  // ---------- What insertion keeps ----------

  ghost predicate AllPrimary(links: seq<Link>) {
    forall l :: l in links ==> l.primary
  }

  /** Two primary assignments of one entity to different domains. */
  predicate Clash(a: Link, b: Link) {
    BothPrimary(a, b) && a.domain != b.domain
  }

  ghost predicate ClashFree(links: seq<Link>) {
    forall a, b :: a in links && b in links ==> !Clash(a, b)
  }

  /** Inserting primaries succeeds exactly when none clash, and then adds each of them once. */
  lemma {:induction false} PutAllPrimaries(links: seq<Link>, more: seq<Link>)
    requires Indexed(links) && AllPrimary(links) && AllPrimary(more)
    ensures PutAll(links, more).Ok? <==> ClashFree(links + more)
    ensures PutAll(links, more).Ok? ==>
              var r := PutAll(links, more).value;
              Indexed(r) && AllPrimary(r) && forall l :: l in r <==> l in links || l in more
    decreases |more|
  {
    if more == [] {
      assert links + more == links;
      forall a, b | a in links && b in links ensures !Clash(a, b) {
        var i :| 0 <= i < |links| && links[i] == a;
        var j :| 0 <= j < |links| && links[j] == b;
      }
    } else {
      var first, rest := more[0], more[1..];
      assert more == [first] + rest && first in more;
      PutOne(links, first);
      if Put(links, first).Ok? {
        var next := Put(links, first).value;
        PutAllPrimaries(next, rest);
        assert forall l :: l in next + rest <==> l in links + more;
      } else {
        var l :| l in links && Clash(l, first);
        assert l in links + more && first in links + more;
      }
    }
  }

  lemma {:induction false} PutOne(links: seq<Link>, link: Link)
    requires Indexed(links) && AllPrimary(links) && link.primary
    ensures Put(links, link).Ok? ==>
              var r := Put(links, link).value;
              Indexed(r) && AllPrimary(r) && forall l :: l in r <==> l in links || l == link
    ensures Put(links, link).Err? ==> exists l :: l in links && Clash(l, link)
  {
    if l :| l in links && SameAssignment(l, link) {
      assert l == link;
    }
  }

  // ---------- The migrated database ----------

  ghost predicate DomainKeys(domains: seq<Domain>) {
    forall a, b :: a in domains && b in domains && a.id == b.id ==> a == b
  }

  /** No product's value is the name of two domains while being the id of none. */
  ghost predicate Unambiguous(domains: seq<Domain>, products: seq<Entity>) {
    forall p, c, d ::
      p in products && c in domains && d in domains && Chosen(domains, c, p, true) && Chosen(domains, d, p, true) ==>
        c == d
  }

  ghost predicate Resolves(domains: seq<Domain>, e: Entity, t: EntityType, id: string) {
    exists d :: d in domains && d.id == id
      && (Chosen(domains, d, e, false) || (t.DataProduct? && Chosen(domains, d, e, true)))
  }

  /** A row of one of the five selections. */
  ghost predicate Comes(domains: seq<Domain>, tables: Tables, link: Link) {
    || (exists e :: e in tables.Of(link.etype) && Assigns(domains, e, link.etype, false, link))
    || (link.etype.DataProduct? && exists e :: e in tables.products && Assigns(domains, e, DataProduct, true, link))
  }

  /** The association of an entity whose value resolves. */
  ghost predicate Stems(domains: seq<Domain>, tables: Tables, link: Link) {
    exists e :: e in tables.Of(link.etype) && e.id == link.entity && Resolves(domains, e, link.etype, link.domain)
  }

  lemma {:induction false} SelectedComes(domains: seq<Domain>, tables: Tables, link: Link)
    ensures link in tables.Selected(domains) <==> Comes(domains, tables, link)
  {
    SelectMembers(domains, tables.teams, Team, false, link);
    SelectMembers(domains, tables.contracts, DataContract, false, link);
    SelectMembers(domains, tables.assets, Asset, false, link);
    SelectMembers(domains, tables.products, DataProduct, false, link);
    SelectMembers(domains, tables.products, DataProduct, true, link);
  }

  lemma {:induction false} SelectedMembers(domains: seq<Domain>, tables: Tables, link: Link)
    ensures link in tables.Selected(domains) <==>
            link.primary && Stems(domains, tables, link)
  {
    SelectedComes(domains, tables, link);
    if link in tables.Selected(domains) {
      SelectedResolves(domains, tables, link);
    }
    if link.primary && Stems(domains, tables, link) {
      var e :| e in tables.Of(link.etype) && e.id == link.entity && Resolves(domains, e, link.etype, link.domain);
      assert Assigns(domains, e, link.etype, false, link)
        || (link.etype.DataProduct? && Assigns(domains, e, link.etype, true, link));
    }
  }

  lemma {:induction false} SelectedResolves(domains: seq<Domain>, tables: Tables, link: Link)
    requires Comes(domains, tables, link)
    ensures link.primary && Stems(domains, tables, link)
  {
    if e :| e in tables.Of(link.etype) && Assigns(domains, e, link.etype, false, link) {
      assert Resolves(domains, e, link.etype, link.domain);
    } else {
      var e :| e in tables.products && Assigns(domains, e, DataProduct, true, link);
      assert Resolves(domains, e, link.etype, link.domain);
    }
  }

  ghost predicate Migrated(domains: seq<Domain>, tables: Tables, links: seq<Link>) {
    PutAll([], tables.Selected(domains)) == Ok(links)
  }

  lemma {:induction false} ClashIsAmbiguity(domains: seq<Domain>, tables: Tables, a: Link, b: Link)
    requires DomainKeys(domains) && tables.Keyed() && Unambiguous(domains, tables.products)
    requires a in tables.Selected(domains) && b in tables.Selected(domains)
    ensures !Clash(a, b)
  {
    SelectedMembers(domains, tables, a);
    SelectedMembers(domains, tables, b);
    if Clash(a, b) {
      var e :| e in tables.Of(a.etype) && e.id == a.entity && Resolves(domains, e, a.etype, a.domain);
      var f :| f in tables.Of(b.etype) && f.id == b.entity && Resolves(domains, f, b.etype, b.domain);
      assert DistinctIds(tables.Of(a.etype));
      ResolvesOnce(domains, tables.Of(a.etype), e, a.etype, a.domain, b.domain);
      assert false;
    }
  }

  lemma {:induction false} ResolvesOnce(
    domains: seq<Domain>, es: seq<Entity>, e: Entity, t: EntityType, a: string, b: string)
    requires DomainKeys(domains) && (t.DataProduct? ==> Unambiguous(domains, es)) && e in es
    requires Resolves(domains, e, t, a) && Resolves(domains, e, t, b)
    ensures a == b
  {
    var c :| c in domains && c.id == a
      && (Chosen(domains, c, e, false) || (t.DataProduct? && Chosen(domains, c, e, true)));
    var d :| d in domains && d.id == b
      && (Chosen(domains, d, e, false) || (t.DataProduct? && Chosen(domains, d, e, true)));
    assert Chosen(domains, c, e, false) ==> HasId(domains, e.domain.value);
    assert Chosen(domains, d, e, false) ==> HasId(domains, e.domain.value);
  }

  lemma {:induction false} AmbiguityClashes(domains: seq<Domain>, tables: Tables, p: Entity, c: Domain, d: Domain)
    requires DomainKeys(domains) && p in tables.products && c in domains && d in domains && c != d
    requires Chosen(domains, c, p, true) && Chosen(domains, d, p, true)
    ensures !ClashFree(tables.Selected(domains))
  {
    var a, b := Link(c.id, DataProduct, p.id, true), Link(d.id, DataProduct, p.id, true);
    assert Resolves(domains, p, DataProduct, c.id) && Resolves(domains, p, DataProduct, d.id);
    assert p in tables.Of(DataProduct);
    SelectedMembers(domains, tables, a);
    SelectedMembers(domains, tables, b);
    assert Clash(a, b);
  }

  lemma {:induction false} SelectedPrimary(domains: seq<Domain>, tables: Tables)
    ensures AllPrimary(tables.Selected(domains))
  {
    forall l | l in tables.Selected(domains) ensures l.primary { SelectedMembers(domains, tables, l); }
  }

  /** From an empty table the upgrade succeeds exactly when no product's value names two domains. */
  lemma {:induction false} UpgradeSucceeds(domains: seq<Domain>, tables: Tables)
    requires DomainKeys(domains) && tables.Keyed()
    ensures PutAll([], tables.Selected(domains)).Ok? <==> Unambiguous(domains, tables.products)
  {
    var selected := tables.Selected(domains);
    SelectedPrimary(domains, tables);
    PutAllPrimaries([], selected);
    assert [] + selected == selected;
    if Unambiguous(domains, tables.products) {
      forall a, b | a in selected && b in selected ensures !Clash(a, b) { ClashIsAmbiguity(domains, tables, a, b); }
    } else {
      var p, c, d :| p in tables.products && c in domains && d in domains && Chosen(domains, c, p, true)
        && Chosen(domains, d, p, true) && c != d;
      AmbiguityClashes(domains, tables, p, c, d);
    }
  }

  /** Domain names are unique in the schema. */
  lemma {:induction false} UniqueNamesSuffice(domains: seq<Domain>, products: seq<Entity>)
    requires forall c, d :: c in domains && d in domains && c.name == d.name ==> c == d
    ensures Unambiguous(domains, products)
  {
  }

  /** The associations are those of the values that resolve, each entity with at most one primary. */
  lemma {:induction false} MigratedLinks(domains: seq<Domain>, tables: Tables, links: seq<Link>)
    requires Migrated(domains, tables, links)
    ensures Indexed(links)
    ensures forall l :: l in links <==>
              l.primary && Stems(domains, tables, l)
  {
    SelectedPrimary(domains, tables);
    PutAllPrimaries([], tables.Selected(domains));
    forall l ensures l in links <==>
              l.primary && Stems(domains, tables, l)
    {
      SelectedMembers(domains, tables, l);
    }
  }

  // ---------- Back again ----------

  lemma {:induction false} PrimaryIs(links: seq<Link>, t: EntityType, id: string, d: string)
    requires Indexed(links)
    ensures PrimaryOf(links, t, id) == Some(d) <==> Link(d, t, id, true) in links
  {
    if links != [] {
      PrimaryIs(links[1..], t, id, d);
      assert links == [links[0]] + links[1..];
    }
  }

  lemma {:induction false} RestoredOf(links: seq<Link>, tables: Tables, t: EntityType)
    ensures RestoredTables(links, tables).Of(t) == Restored(links, t, tables.Of(t))
    ensures ClearedTables(tables).Of(t) == Cleared(tables.Of(t))
  {
  }

  /**
   Upgrading an empty association table and downgrading again gives every entity the id of the domain its
   value resolves to, and no domain to the others.
   */
  lemma {:induction false} RoundTrip(domains: seq<Domain>, tables: Tables, links: seq<Link>, t: EntityType, i: nat)
    requires tables.Keyed() && Migrated(domains, tables, links) && i < |tables.Of(t)|
    ensures var back := RestoredTables(links, ClearedTables(tables)).Of(t);
            && |back| == |tables.Of(t)| && back[i].id == tables.Of(t)[i].id
            && forall id :: back[i].domain == Some(id) <==> Resolves(domains, tables.Of(t)[i], t, id)
  {
    var e := tables.Of(t)[i];
    var cleared := ClearedTables(tables);
    RestoredOf([], tables, t);
    RestoredOf(links, cleared, t);
    MigratedLinks(domains, tables, links);
    forall id ensures PrimaryOf(links, t, e.id) == Some(id) <==> Resolves(domains, e, t, id) {
      PrimaryIs(links, t, e.id, id);
      assert DistinctIds(tables.Of(t));
      assert e in tables.Of(t);
      assert Link(id, t, e.id, true).primary;
    }
  }

  /**
   What an entity has after an upgrade and a downgrade, on the domains themselves: its value if that is a
   domain's id; for a product whose value is no id, the id of a domain of that name; otherwise nothing.
   */
  lemma {:induction false} RestoredValue(domains: seq<Domain>, tables: Tables, links: seq<Link>, t: EntityType, i: nat)
    requires tables.Keyed() && Migrated(domains, tables, links) && i < |tables.Of(t)|
    ensures var (e, back) := (tables.Of(t)[i], RestoredTables(links, ClearedTables(tables)).Of(t));
            && i < |back| && back[i].id == e.id
            && forall id :: back[i].domain == Some(id) <==>
                 || (e.domain == Some(id) && exists d :: d in domains && d.id == id)
                 || (t.DataProduct? && e.domain.Some? && (forall d :: d in domains ==> d.id != e.domain.value)
                     && exists d :: d in domains && d.id == id && d.name == e.domain.value)
  {
    RoundTrip(domains, tables, links, t, i);
    var e := tables.Of(t)[i];
    forall id ensures Resolves(domains, e, t, id) <==>
      || (e.domain == Some(id) && exists d :: d in domains && d.id == id)
      || (t.DataProduct? && e.domain.Some? && (forall d :: d in domains ==> d.id != e.domain.value)
          && exists d :: d in domains && d.id == id && d.name == e.domain.value)
    {
      ResolvesMeaning(domains, e, t, id);
    }
  }

  lemma {:induction false} ResolvesMeaning(domains: seq<Domain>, e: Entity, t: EntityType, id: string)
    ensures Resolves(domains, e, t, id) <==>
            || (e.domain == Some(id) && exists d :: d in domains && d.id == id)
            || (t.DataProduct? && e.domain.Some? && (forall d :: d in domains ==> d.id != e.domain.value)
                && exists d :: d in domains && d.id == id && d.name == e.domain.value)
  {
    if d :| d in domains && d.id == id && e.domain == Some(id) { assert Chosen(domains, d, e, false); }
    if d :|
      && d in domains && d.id == id && e.domain.Some? && d.name == e.domain.value
      && !HasId(domains, e.domain.value) {
      assert Chosen(domains, d, e, true);
    }
  }

  /**
   The value itself comes back exactly when it was empty or a domain's id; names become ids, stale values
   are lost.
   */
  lemma {:induction false} ValueKept(domains: seq<Domain>, tables: Tables, links: seq<Link>, t: EntityType, i: nat)
    requires tables.Keyed() && Migrated(domains, tables, links) && i < |tables.Of(t)|
    ensures var (e, back) := (tables.Of(t)[i], RestoredTables(links, ClearedTables(tables)).Of(t));
            i < |back| && (back[i] == e <==> e.domain.None? || HasId(domains, e.domain.value))
  {
    RoundTrip(domains, tables, links, t, i);
    var (e, back) := (tables.Of(t)[i], RestoredTables(links, ClearedTables(tables)).Of(t));
    if e.domain.None? {
      forall id ensures !Resolves(domains, e, t, id) {}
    } else if HasId(domains, e.domain.value) {
      var d :| d in domains && d.id == e.domain.value;
      assert Chosen(domains, d, e, false);
      assert Resolves(domains, e, t, d.id);
    }
  }

  /** Associations that are not primary make no difference to the downgrade. */
  lemma {:induction false} SecondariesIgnored(a: seq<Link>, b: seq<Link>, tables: Tables)
    requires Indexed(a) && Indexed(b) && forall l: Link :: l.primary ==> (l in a <==> l in b)
    ensures RestoredTables(a, tables) == RestoredTables(b, tables)
  {
    forall t, id ensures PrimaryOf(a, t, id) == PrimaryOf(b, t, id) {
      if PrimaryOf(a, t, id).Some? {
        PrimaryIs(a, t, id, PrimaryOf(a, t, id).value);
        PrimaryIs(b, t, id, PrimaryOf(a, t, id).value);
      } else if PrimaryOf(b, t, id).Some? {
        PrimaryIs(a, t, id, PrimaryOf(b, t, id).value);
        PrimaryIs(b, t, id, PrimaryOf(b, t, id).value);
      }
    }
    forall t, es: seq<Entity> ensures Restored(a, t, es) == Restored(b, t, es) {}
  }

  lemma {:induction false} ResolvesAgain(domains: seq<Domain>, e: Entity, back: Entity, t: EntityType, id: string)
    requires forall d :: back.domain == Some(d) <==> Resolves(domains, e, t, d)
    ensures Resolves(domains, back, t, id) <==> Resolves(domains, e, t, id)
  {
    if Resolves(domains, e, t, id) {
      var d :| d in domains && d.id == id;
      assert Chosen(domains, d, back, false);
    }
    if Resolves(domains, back, t, id) {
      var value := back.domain.value;
      assert Resolves(domains, e, t, value);
      assert HasId(domains, value);
    }
  }

  /** The same entities, each resolving to what it resolved to before. */
  ghost predicate ResolvesAlike(domains: seq<Domain>, t: EntityType, es: seq<Entity>, back: seq<Entity>) {
    |back| == |es| && forall i :: 0 <= i < |es| ==> back[i].id == es[i].id && SameResolution(domains, t, es[i], back[i])
  }

  ghost predicate SameResolution(domains: seq<Domain>, t: EntityType, e: Entity, f: Entity) {
    forall id :: Resolves(domains, e, t, id) <==> Resolves(domains, f, t, id)
  }

  lemma {:induction false} RestoredAlike(domains: seq<Domain>, tables: Tables, links: seq<Link>, t: EntityType)
    requires tables.Keyed() && Migrated(domains, tables, links)
    ensures ResolvesAlike(domains, t, tables.Of(t), RestoredTables(links, ClearedTables(tables)).Of(t))
  {
    var back, es := RestoredTables(links, ClearedTables(tables)).Of(t), tables.Of(t);
    RestoredOf([], tables, t);
    RestoredOf(links, ClearedTables(tables), t);
    forall i | 0 <= i < |es| ensures back[i].id == es[i].id && SameResolution(domains, t, es[i], back[i]) {
      RoundTrip(domains, tables, links, t, i);
      forall id ensures Resolves(domains, es[i], t, id) <==> Resolves(domains, back[i], t, id) {
        ResolvesAgain(domains, es[i], back[i], t, id);
      }
    }
  }

  lemma {:induction false} AlikeLinks(
    domains: seq<Domain>, t: EntityType, es: seq<Entity>, back: seq<Entity>, entity: string, d: string)
    requires ResolvesAlike(domains, t, es, back)
    requires exists e :: e in es && e.id == entity && Resolves(domains, e, t, d)
    ensures exists e :: e in back && e.id == entity && Resolves(domains, e, t, d)
  {
    var e :| e in es && e.id == entity && Resolves(domains, e, t, d);
    var i :| 0 <= i < |es| && es[i] == e;
    assert back[i] in back && SameResolution(domains, t, es[i], back[i]);
  }

  lemma {:induction false} AlikeBack(domains: seq<Domain>, t: EntityType, es: seq<Entity>, back: seq<Entity>)
    requires ResolvesAlike(domains, t, es, back)
    ensures ResolvesAlike(domains, t, back, es)
  {
    forall i | 0 <= i < |es| ensures SameResolution(domains, t, back[i], es[i]) {
      assert SameResolution(domains, t, es[i], back[i]);
    }
  }

  /** Down and up again: the second upgrade makes the associations of the first. */
  lemma {:induction false} UpgradeAgain(
    domains: seq<Domain>, tables: Tables, links: seq<Link>, again: seq<Link>, l: Link)
    requires tables.Keyed() && Migrated(domains, tables, links)
    requires Migrated(domains, RestoredTables(links, ClearedTables(tables)), again)
    ensures l in again <==> l in links
  {
    var back := RestoredTables(links, ClearedTables(tables));
    MigratedLinks(domains, tables, links);
    MigratedLinks(domains, back, again);
    RestoredAlike(domains, tables, links, l.etype);
    AlikeBack(domains, l.etype, tables.Of(l.etype), back.Of(l.etype));
    if l in links { AlikeLinks(domains, l.etype, tables.Of(l.etype), back.Of(l.etype), l.entity, l.domain); }
    if l in again { AlikeLinks(domains, l.etype, back.Of(l.etype), tables.Of(l.etype), l.entity, l.domain); }
  }
}
