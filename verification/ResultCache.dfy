/**
 The caching workspace client, which answers from a dictionary for a minute after each fetch and falls back
 to older answers when one fails. Laws over whole runs compare it with the workspace it stands for.
 */
module ResultCache {
  import opened Symbols

  const Duration := 60.0

  /** A dictionary entry: the value and when its fetch began. */
  datatype Stored<V> = Stored(value: V, at: real)

  type Contents<V> = map<string, Stored<V>>

  const CatalogsList := "catalogs.list"

  /** What a client can be asked; fetched is what the workspace answers, or would. */
  datatype Event<V> =
    | Ask(key: string, now: real, fetched: Result<V>)
    | Clear(cleared: string)
    | Create(created: Result<V>)

  predicate Fresh<V>(s: Contents<V>, key: string, now: real) {
    key in s && now - s[key].at < Duration
  }

  function Answer<V>(s: Contents<V>, key: string, now: real, fetched: Result<V>): Result<V> {
    if Fresh(s, key, now) then Ok(s[key].value)
    else if fetched.Ok? then fetched
    else if key in s then Ok(s[key].value)
    else Err
  }

  /** An empty key clears everything. */
  function Forget<V>(s: Contents<V>, key: string): Contents<V> {
    if key == "" then map[] else s - {key}
  }

  function After<V>(s: Contents<V>, e: Event<V>): Contents<V> {
    match e
    case Ask(key, now, fetched) =>
      if !Fresh(s, key, now) && fetched.Ok? then s[key := Stored(fetched.value, now)] else s
    case Clear(key) => Forget(s, key)
    case Create(created) => if created.Ok? then Forget(s, CatalogsList) else s
  }

  function Run<V>(es: seq<Event<V>>): Contents<V> {
    if es == [] then map[] else After(Run(es[..|es| - 1]), es[|es| - 1])
  }

  /** CachingWorkspaceClient. */
  class CachingClient<V> {
    var cache: map<string, V>
    var cacheTimes: map<string, real>
    // how often the workspace was called
    ghost var calls: nat

    ghost predicate Valid()
      reads this
    {
      cache.Keys == cacheTimes.Keys
    }

    ghost function Now(): (s: Contents<V>)
      requires Valid()
      reads this
      ensures s.Keys == cache.Keys
    {
      map k | k in cache :: Stored(cache[k], cacheTimes[k])
    }

    constructor ()
      ensures Valid() && Now() == map[] && calls == 0
    {
      cache := map[];
      cacheTimes := map[];
      calls := 0;
    }

    method ClearCache(key: Option<string>)
      requires Valid()
      modifies this`cache, this`cacheTimes
      ensures Valid()
      ensures Now() == After(old(Now()), Clear(match key case None => "" case Some(k) => k))
    {
      if key.Some? && key.value != "" {
        cache := cache - {key.value};
        cacheTimes := cacheTimes - {key.value};
      } else {
        cache := map[];
        cacheTimes := map[];
      }
    }

    /** _cache_result: the workspace is called exactly when there is no fresh entry. */
    method CacheResult(key: string, fetch: () -> Result<V>, now: real) returns (r: Result<V>)
      requires Valid()
      modifies this
      ensures Valid()
      ensures r == Answer(old(Now()), key, now, fetch())
      ensures Now() == After(old(Now()), Ask(key, now, fetch()))
      ensures calls == old(calls) + (if Fresh(old(Now()), key, now) then 0 else 1)
    {
      if key in cache && key in cacheTimes && now - cacheTimes[key] < Duration {
        return Ok(cache[key]);
      }
      var result := fetch();
      calls := calls + 1;
      match result {
        case Ok(value) =>
          cache := cache[key := value];
          cacheTimes := cacheTimes[key := now];
          return result;
        case Err =>
          if key in cache {
            return Ok(cache[key]);
          }
          return Err;
      }
    }

    method ListCatalogs(fetch: () -> Result<V>, now: real) returns (r: Result<V>)
      requires Valid()
      modifies this
      ensures Valid()
      ensures r == Answer(old(Now()), CatalogsList, now, fetch())
      ensures Now() == After(old(Now()), Ask(CatalogsList, now, fetch()))
      ensures calls == old(calls) + (if Fresh(old(Now()), CatalogsList, now) then 0 else 1)
    {
      r := CacheResult(CatalogsList, fetch, now);
    }

    method GetCatalog(name: string, fetch: string -> Result<V>, now: real) returns (r: Result<V>)
      requires Valid()
      modifies this
      ensures Valid()
      ensures r == Answer(old(Now()), GetCatalogKey(name), now, fetch(name))
      ensures Now() == After(old(Now()), Ask(GetCatalogKey(name), now, fetch(name)))
    {
      r := CacheResult(GetCatalogKey(name), () => fetch(name), now);
    }

    /** A failed creation leaves the list cached. */
    method CreateCatalog(name: string, create: string -> Result<V>) returns (r: Result<V>)
      requires Valid()
      modifies this
      ensures Valid()
      ensures r == create(name) && Now() == After(old(Now()), Create(create(name)))
    {
      var result :- create(name);
      calls := calls + 1;
      ClearCache(Some(CatalogsList));
      return Ok(result);
    }

    method ListTables(
      catalog: string, schema: string, fetch: (string, string) -> Result<V>, now: real) returns (r: Result<V>)
      requires Valid()
      modifies this
      ensures Valid()
      ensures r == Answer(old(Now()), ListTablesKey(catalog, schema), now, fetch(catalog, schema))
      ensures Now() == After(old(Now()), Ask(ListTablesKey(catalog, schema), now, fetch(catalog, schema)))
    {
      r := CacheResult(ListTablesKey(catalog, schema), () => fetch(catalog, schema), now);
    }
  }

  function GetCatalogKey(name: string): string {
    "catalogs.get::" + name
  }

  function ListTablesKey(catalog: string, schema: string): string {
    "tables.list::" + (catalog + ("::" + schema))
  }

  // ---------- Where an answer comes from ----------

  predicate Clears<V>(e: Event<V>, key: string) {
    match e
    case Ask(_, _, _) => false
    case Clear(cleared) => cleared == "" || cleared == key
    case Create(created) => created.Ok? && key == CatalogsList
  }

  /** The i-th event fetched what is stored: nothing after it cleared the key or fetched it anew. */
  ghost predicate Fetched<V(!new)>(es: seq<Event<V>>, i: nat, key: string, stored: Stored<V>) {
    && i < |es| && es[i] == Ask(key, stored.at, Ok(stored.value))
    && forall j :: i < j < |es| ==>
         && !Clears(es[j], key)
         && (es[j].Ask? && es[j].key == key && es[j].fetched.Ok? ==> es[j].now - stored.at < 60.0)
  }

  /** An entry of the dictionary is the most recent fetch of its key that succeeded and was not cleared. */
  lemma {:induction false} StoredWasFetched<V(!new)>(es: seq<Event<V>>, key: string) returns (i: nat)
    requires key in Run(es)
    ensures Fetched(es, i, key, Run(es)[key])
  {
    var init, last := es[..|es| - 1], es[|es| - 1];
    if last.Ask? && last.key == key && !Fresh(Run(init), key, last.now) && last.fetched.Ok? {
      i := |init|;
    } else {
      i := StoredWasFetched(init, key);
    }
  }

  /** A key that no event since has cleared stays in the dictionary. */
  lemma {:induction false} FetchedIsStored<V>(es: seq<Event<V>>, i: nat, key: string)
    requires i < |es| && es[i].Ask? && es[i].key == key && es[i].fetched.Ok?
    requires forall j :: i < j < |es| ==> !Clears(es[j], key)
    ensures key in Run(es)
  {
    if i < |es| - 1 { FetchedIsStored(es[..|es| - 1], i, key); }
  }

  /** The dictionary holds exactly the keys fetched with success and not cleared since. */
  lemma {:induction false} KeysMeaning<V(!new)>(es: seq<Event<V>>, key: string)
    ensures key in Run(es) <==>
            exists i :: 0 <= i < |es| && es[i].Ask? && es[i].key == key && es[i].fetched.Ok?
                        && forall j :: i < j < |es| ==> !Clears(es[j], key)
  {
    if key in Run(es) {
      var i := StoredWasFetched(es, key);
    }
    if i :|
      && 0 <= i < |es| && es[i].Ask? && es[i].key == key && es[i].fetched.Ok?
      && forall j :: i < j < |es| ==> !Clears(es[j], key) {
      FetchedIsStored(es, i, key);
    }
  }

  /**
   After a successful create the list is fetched anew, whatever else is asked in between; if that fails,
   nothing stale comes back.
   */
  lemma {:induction false} CreateForcesFetch<V(!new)>(es: seq<Event<V>>, i: nat, now: real, fetched: Result<V>)
    requires i < |es| && es[i].Create? && es[i].created.Ok?
    requires forall j :: i < j < |es| && es[j].Ask? ==> es[j].key != CatalogsList
    ensures !Fresh(Run(es), CatalogsList, now) && Answer(Run(es), CatalogsList, now, fetched) == fetched
  {
    KeysMeaning(es, CatalogsList);
    assert Clears(es[i], CatalogsList);
  }

  /** Events that leave what was fetched for a key at time t in place: none clears it, none fetches it anew. */
  ghost predicate Spares<V(!new)>(es: seq<Event<V>>, key: string, t: real) {
    forall i :: 0 <= i < |es| ==>
      && !Clears(es[i], key)
      && (es[i].Ask? && es[i].key == key && es[i].fetched.Ok? ==> es[i].now - t < 60.0)
  }

  lemma {:induction false} SparedStays<V(!new)>(es: seq<Event<V>>, more: seq<Event<V>>, key: string, stored: Stored<V>)
    requires key in Run(es) && Run(es)[key] == stored && Spares(more, key, stored.at)
    ensures key in Run(es + more) && Run(es + more)[key] == stored
  {
    if more == [] {
      assert es + more == es;
    } else {
      var init := more[..|more| - 1];
      assert (es + more)[..|es + more| - 1] == es + init;
      SparedStays(es, init, key, stored);
    }
  }

  /**
   A key that was not kept is fetched, whatever its last answer was; what was fetched is then the answer for
   a minute, without another fetch, and after that for as long as fetches fail.
   */
  lemma {:induction false} FetchServesAMinute<V(!new)>(
    es: seq<Event<V>>, more: seq<Event<V>>, key: string, t: real, v: V, now: real, fetched: Result<V>)
    requires key !in Run(es) && Spares(more, key, t)
    ensures Answer(Run(es), key, now, fetched) == fetched
    ensures Answer(Run(es + [Ask(key, t, Ok(v))] + more), key, now, fetched) ==
            if now - t < 60.0 || fetched.Err? then Ok(v) else fetched
  {
    var first := es + [Ask(key, t, Ok(v))];
    assert first[..|first| - 1] == es;
    SparedStays(first, more, key, Stored(v, t));
  }

  // ---------- Agreement with the workspace ----------

  /** What the workspace answers for a key at a time. */
  type World<!V> = (string, real) -> Result<V>

  ghost predicate Timed<V(!new)>(es: seq<Event<V>>, now: real) {
    && (forall i :: 0 <= i < |es| && es[i].Ask? ==> es[i].now <= now)
    && (forall i, j :: 0 <= i < j < |es| && es[i].Ask? && es[j].Ask? ==> es[i].now <= es[j].now)
  }

  ghost predicate Asks<V(!new)>(es: seq<Event<V>>, world: World<V>) {
    forall i :: 0 <= i < |es| && es[i].Ask? ==> es[i].fetched == world(es[i].key, es[i].now)
  }

  /** The workspace gave this value at this time, which is not after now. */
  ghost predicate Given<V(!new)>(world: World<V>, key: string, v: V, t: real, now: real) {
    t <= now && world(key, t) == Ok(v)
  }

  /**
   In every run, an answer is one the workspace gave: less than a minute ago if the workspace could answer
   now; and there is no answer only if it cannot answer now and nothing was kept.
   */
  lemma {:induction false} AnswersAgree<V(!new)>(world: World<V>, es: seq<Event<V>>, key: string, now: real)
    requires Asks(es, world) && Timed(es, now)
    ensures var r := Answer(Run(es), key, now, world(key, now));
            && (r.Ok? ==>
                  exists t :: Given(world, key, r.value, t, now) && (world(key, now).Ok? ==> now - t < 60.0))
            && (r.Err? <==> world(key, now).Err? && key !in Run(es))
  {
    var r := Answer(Run(es), key, now, world(key, now));
    if key in Run(es) {
      var i := StoredWasFetched(es, key);
      assert Given(world, key, Run(es)[key].value, Run(es)[key].at, now);
    }
    if world(key, now).Ok? && !Fresh(Run(es), key, now) {
      assert Given(world, key, r.value, now, now);
    }
  }

  /** Where the workspace does not change for a key, the cache cannot be told from it. */
  lemma {:induction false} SteadyWorld<V(!new)>(world: World<V>, es: seq<Event<V>>, key: string, now: real, v: V)
    requires Asks(es, world) && Timed(es, now)
    requires forall t :: world(key, t) == Ok(v) || world(key, t) == Err
    ensures var r := Answer(Run(es), key, now, world(key, now)); r == Ok(v) || (r == Err && world(key, now) == Err)
  {
    AnswersAgree(world, es, key, now);
  }

  // ---------- Keys ----------

  lemma {:induction false} KeyStarts(name: string, catalog: string, schema: string)
    ensures var (get, tables) := (GetCatalogKey(name), ListTablesKey(catalog, schema));
            |get| > 9 && |tables| > 9 && get[0] == 'c' && get[9] == 'g' && tables[0] == 't'
  {
    assert "catalogs.get::"[0] == 'c' && "catalogs.get::"[9] == 'g' && "tables.list::"[0] == 't';
  }

  /**
   What is kept for one question never answers another: every catalog has a key of its own, so has every
   schema of one catalog, and the three kinds of questions share no key; none is the empty one.
   */
  lemma {:induction false} KeysApart(name: string, other: string, catalog: string, schema: string, sibling: string)
    ensures GetCatalogKey(name) == GetCatalogKey(other) <==> name == other
    ensures ListTablesKey(catalog, schema) == ListTablesKey(catalog, sibling) <==> schema == sibling
    ensures GetCatalogKey(name) != ListTablesKey(catalog, schema)
    ensures GetCatalogKey(name) != CatalogsList && ListTablesKey(catalog, schema) != CatalogsList
    ensures GetCatalogKey(name) != "" && ListTablesKey(catalog, schema) != "" && CatalogsList != ""
  {
    KeyStarts(name, catalog, schema);
    assert CatalogsList[0] == 'c' && CatalogsList[9] == 'l';
    if GetCatalogKey(name) == GetCatalogKey(other) { SamePrefix("catalogs.get::", name, other); }
    if ListTablesKey(catalog, schema) == ListTablesKey(catalog, sibling) {
      SamePrefix("tables.list::", catalog + ("::" + schema), catalog + ("::" + sibling));
      SamePrefix(catalog, "::" + schema, "::" + sibling);
      SamePrefix("::", schema, sibling);
    }
  }

  /**
   The key of a list of tables joins two names. Two catalogs can be told apart under every schema exactly
   when neither name, with its separator, begins the other.
   */
  lemma {:induction false} TableKeysApart(c: string, d: string)
    requires c != d
    ensures (forall s, t :: ListTablesKey(c, s) != ListTablesKey(d, t)) <==>
            !(c + "::" <= d + "::") && !(d + "::" <= c + "::")
  {
    if c + "::" <= d + "::" { Overlap(c, d); }
    if d + "::" <= c + "::" { Overlap(d, c); }
    if s, t :| ListTablesKey(c, s) == ListTablesKey(d, t) {
      SameKeyOverlaps(c, s, d, t);
    }
  }

  lemma {:induction false} Overlap(c: string, d: string)
    requires c + "::" <= d + "::"
    ensures exists s, t :: ListTablesKey(c, s) == ListTablesKey(d, t)
  {
    var s := (d + "::")[|c| + 2..];
    assert (c + "::") + s == d + "::";
    assert c + ("::" + s) == (c + "::") + s;
    assert "::" + "" == "::";
    assert ListTablesKey(c, s) == ListTablesKey(d, "");
  }

  lemma {:induction false} SameKeyOverlaps(c: string, s: string, d: string, t: string)
    requires ListTablesKey(c, s) == ListTablesKey(d, t)
    ensures c + "::" <= d + "::" || d + "::" <= c + "::"
  {
    SamePrefix("tables.list::", c + ("::" + s), d + ("::" + t));
    assert c + ("::" + s) == (c + "::") + s && d + ("::" + t) == (d + "::") + t;
    BothBegin(c + "::", s, d + "::", t);
  }

  lemma {:induction false} SamePrefix(prefix: string, a: string, b: string)
    requires prefix + a == prefix + b
    ensures a == b
  {
    assert (prefix + a)[|prefix|..] == a && (prefix + b)[|prefix|..] == b;
  }

  lemma {:induction false} BothBegin(a: string, s: string, b: string, t: string)
    requires a + s == b + t
    ensures a <= b || b <= a
  {
    assert (a + s)[..|a|] == a && (b + t)[..|b|] == b;
  }
}
