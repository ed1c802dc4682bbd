/** The cache of workspace clients: over every run of requests, whose credentials a returned client carries. */
module ClientCache {
  import opened Symbols

  const CleanupInterval := 300.0
  const MaxAge := 600.0

  /** What a client authenticates with. */
  datatype Credentials = Pat(token: string) | OnBehalf(token: string) | Profile(name: string) | Implicit | Mock

  /** A client, told apart by serial number. */
  datatype Client = Client(credentials: Credentials, serial: nat)

  /** An entry: the client, the token hash or other identifier it was stored with, and its last use. */
  datatype Entry = Entry(client: Client, identifier: string, lastAccess: real)

  type Clients = map<string, Entry>

  /** How a workspace reacts to new credentials: building a client, and the two calls that verify it. */
  datatype Workspace = Workspace(builds: bool, clustersAnswer: bool, userAnswers: bool)

  type Host = Credentials -> Workspace

  /** Settings of the app; a missing token or profile is empty. */
  datatype Settings = Settings(mock: bool, token: string, profile: string)

  /** The headers of a request; a missing header is None. */
  datatype Headers = Headers(token: Option<string>, email: Option<string>, user: Option<string>)

  datatype Request = Service | ForUser(headers: Headers)

  /** The token's hash, an arbitrary function. */
  type Hash = string -> string

  function Given(header: Option<string>): string {
    if header.Some? then header.value else ""
  }

  function UserOf(h: Headers): string {
    if Given(h.email) != "" then Given(h.email) else Given(h.user)
  }

  // ---------- Keys ----------

  function ServiceKey(hash: Hash, s: Settings): string {
    if s.token != "" then "sp_" + hash(s.token) else if s.profile != "" then "profile_" + s.profile else "implicit_auth"
  }

  function ServiceCredentials(s: Settings): Credentials {
    if s.token != "" then Pat(s.token) else if s.profile != "" then Profile(s.profile) else Implicit
  }

  function ServiceIdentifier(hash: Hash, s: Settings): string {
    if s.token != "" then hash(s.token) else if s.profile != "" then s.profile else "implicit"
  }

  function UserKey(hash: Hash, h: Headers): string {
    if UserOf(h) == "" then "obo_" + hash(Given(h.token)) else "user_" + UserOf(h)
  }

  /** _verify_workspace_client. */
  predicate Verified(w: Workspace, skipClusterCheck: bool) {
    w.builds && (w.userAnswers || (!skipClusterCheck && w.clustersAnswer))
  }

  // ---------- The cache as a state machine ----------

  datatype State = State(clients: Clients, lastCleanup: real, made: nat)

  function CleanedUp(s: State, now: real): State {
    if now - s.lastCleanup < CleanupInterval then s
    else
      var recent := map k | k in s.clients && now - s.clients[k].lastAccess <= MaxAge :: s.clients[k];
      s.(lastCleanup := now, clients := recent)
  }

  datatype Outcome = Outcome(state: State, answer: Result<Client>)

  /** Stores a client that was just built. */
  function Made(s: State, key: string, credentials: Credentials, identifier: string, stamp: real): Outcome {
    var client := Client(credentials, s.made);
    Outcome(s.(clients := s.clients[key := Entry(client, identifier, stamp)], made := s.made + 1), Ok(client))
  }

  function Reused(s: State, key: string, stamp: real): Outcome
    requires key in s.clients
  {
    Outcome(s.(clients := s.clients[key := s.clients[key].(lastAccess := stamp)]), Ok(s.clients[key].client))
  }

  /** Reuse the entry when it is there and, for token clients, carries the same hash; else build, verify, store. */
  function Lookup(
    s: State, host: Host, key: string, credentials: Credentials, identifier: string, anyIdentifier: bool,
    skip: bool, stamp: real): Outcome {
    if key in s.clients && (anyIdentifier || s.clients[key].identifier == identifier) then Reused(s, key, stamp)
    else if Verified(host(credentials), skip) then Made(s, key, credentials, identifier, stamp)
    else Outcome(s, Err)
  }

  function GetService(hash: Hash, s: State, host: Host, settings: Settings, now: real, stamp: real): Outcome {
    if settings.mock then
      if "mock_ws" in s.clients then Outcome(s, Ok(s.clients["mock_ws"].client))
      else Made(s, "mock_ws", Mock, "mock", stamp)
    else
      Lookup(CleanedUp(s, now), host, ServiceKey(hash, settings), ServiceCredentials(settings),
             ServiceIdentifier(hash, settings), settings.token == "",
             settings.token == "" && settings.profile != "", stamp)
  }

  function GetForUser(
    hash: Hash, s: State, host: Host, settings: Settings, h: Headers, now: real, stamp: real): Outcome {
    var cleaned := CleanedUp(s, now);
    if Given(h.token) == "" then GetService(hash, cleaned, host, settings, now, stamp)
    else Lookup(cleaned, host, UserKey(hash, h), OnBehalf(Given(h.token)), hash(Given(h.token)), false, true, stamp)
  }

  /** The module's cache. */
  class Cache {
    const hash: Hash
    var clients: Clients
    var lastCleanup: real
    var made: nat

    function Now(): State
      reads this
    {
      State(clients, lastCleanup, made)
    }

    constructor (hash: Hash, now: real)
      ensures this.hash == hash && Now() == State(map[], now, 0)
    {
      this.hash, this.clients, this.lastCleanup, this.made := hash, map[], now, 0;
    }

    method CleanUp(now: real)
      modifies this`clients, this`lastCleanup
      ensures Now() == CleanedUp(old(Now()), now)
    {
      if now - lastCleanup < CleanupInterval {
        return;
      }
      lastCleanup := now;
      var stale := set k | k in clients && now - clients[k].lastAccess > MaxAge;
      while stale != {}
        invariant lastCleanup == now && made == old(made)
        invariant stale == set k | k in clients && now - clients[k].lastAccess > MaxAge
        invariant clients.Keys <= old(clients.Keys) && forall k :: k in clients ==> clients[k] == old(clients)[k]
        invariant forall k :: k in old(clients) && now - old(clients)[k].lastAccess <= MaxAge ==> k in clients
        decreases stale
      {
        var key :| key in stale;
        clients := clients - {key};
        stale := stale - {key};
      }
      forall k | k in clients ensures now - clients[k].lastAccess <= MaxAge { assert k !in stale; }
      assert clients == CleanedUp(old(Now()), now).clients;
    }

    method Store(key: string, credentials: Credentials, identifier: string, stamp: real) returns (client: Client)
      modifies this`clients, this`made
      ensures Outcome(Now(), Ok(client)) == Made(old(Now()), key, credentials, identifier, stamp)
    {
      client := Client(credentials, made);
      made := made + 1;
      clients := clients[key := Entry(client, identifier, stamp)];
    }

    method GetWorkspaceClient(host: Host, settings: Settings, now: real, stamp: real) returns (r: Result<Client>)
      modifies this
      ensures Outcome(Now(), r) == GetService(hash, old(Now()), host, settings, now, stamp)
    {
      if settings.mock {
        if "mock_ws" in clients {
          return Ok(clients["mock_ws"].client);
        }
        var mock := Store("mock_ws", Mock, "mock", stamp);
        return Ok(mock);
      }
      CleanUp(now);
      var key, credentials, identifier, skip;
      if settings.token != "" {
        var tokenHash := hash(settings.token);
        key := "sp_" + tokenHash;
        if key in clients && clients[key].identifier == tokenHash {
          clients := clients[key := Entry(clients[key].client, tokenHash, stamp)];
          return Ok(clients[key].client);
        }
        credentials, identifier, skip := Pat(settings.token), tokenHash, false;
      } else if settings.profile != "" {
        key := "profile_" + settings.profile;
        if key in clients {
          clients := clients[key := clients[key].(lastAccess := stamp)];
          return Ok(clients[key].client);
        }
        credentials, identifier, skip := Profile(settings.profile), settings.profile, true;
      } else {
        key := "implicit_auth";
        if key in clients {
          clients := clients[key := clients[key].(lastAccess := stamp)];
          return Ok(clients[key].client);
        }
        credentials, identifier, skip := Implicit, "implicit", false;
      }
      if !Verified(host(credentials), skip) {
        return Err;
      }
      var client := Store(key, credentials, identifier, stamp);
      return Ok(client);
    }

    method GetOboWorkspaceClient(
      host: Host, settings: Settings, h: Headers, now: real, stamp: real) returns (r: Result<Client>)
      modifies this
      ensures Outcome(Now(), r) == GetForUser(hash, old(Now()), host, settings, h, now, stamp)
    {
      CleanUp(now);
      var token := Given(h.token);
      if token == "" {
        r := GetWorkspaceClient(host, settings, now, stamp);
        return;
      }
      var email := UserOf(h);
      var key := if email == "" then "obo_" + hash(token) else "user_" + email;
      var tokenHash := hash(token);
      if key in clients && clients[key].identifier == tokenHash {
        clients := clients[key := Entry(clients[key].client, tokenHash, stamp)];
        return Ok(clients[key].client);
      }
      if !Verified(host(OnBehalf(token)), true) {
        return Err;
      }
      var client := Store(key, OnBehalf(token), tokenHash, stamp);
      return Ok(client);
    }
  }

  // ---------- Whose client it is ----------

  predicate StartsWith(s: string, prefix: string) {
    prefix <= s
  }

  /** What an entry holds is told by its key. */
  ghost predicate Fits(hash: Hash, key: string, e: Entry) {
    match e.client.credentials
    case Pat(token) => key == "sp_" + hash(token) && e.identifier == hash(token)
    case OnBehalf(token) => e.identifier == hash(token) && (key == "obo_" + hash(token) || StartsWith(key, "user_"))
    case Profile(name) => key == "profile_" + name && e.identifier == name
    case Implicit => key == "implicit_auth" && e.identifier == "implicit"
    case Mock => key == "mock_ws" && e.identifier == "mock"
  }

  ghost predicate AllFit(hash: Hash, s: State) {
    forall k :: k in s.clients ==> Fits(hash, k, s.clients[k])
  }

  /**
   A client that may be given to a caller: built from the caller's own kind of credentials, and a token of
   the same hash.
   */
  ghost predicate Belongs(hash: Hash, r: Request, settings: Settings, c: Client) {
    if r.ForUser? && Given(r.headers.token) != "" then
      c.credentials.OnBehalf? && hash(c.credentials.token) == hash(Given(r.headers.token))
    else if settings.mock then c.credentials.Mock?
    else if settings.token != "" then c.credentials.Pat? && hash(c.credentials.token) == hash(settings.token)
    else if settings.profile != "" then c.credentials == Profile(settings.profile)
    else c.credentials.Implicit?
  }

  /** A request, its surroundings, and the times it looks at and stamps its entry with. */
  datatype Event = Event(request: Request, settings: Settings, host: Host, now: real, stamp: real)

  function Serve(hash: Hash, s: State, e: Event): Outcome {
    match e.request
    case Service => GetService(hash, s, e.host, e.settings, e.now, e.stamp)
    case ForUser(h) => GetForUser(hash, s, e.host, e.settings, h, e.now, e.stamp)
  }

  function Run(hash: Hash, start: real, es: seq<Event>): State {
    if es == [] then State(map[], start, 0) else Serve(hash, Run(hash, start, es[..|es| - 1]), es[|es| - 1]).state
  }

  /** Every kind of key begins with a letter of its own. */
  lemma {:induction false} KeyInitial(hash: Hash, key: string, e: Entry)
    requires Fits(hash, key, e)
    ensures key != ""
    ensures match e.client.credentials
            case Pat(_) => key[0] == 's'
            case OnBehalf(_) => key[0] == 'o' || key[0] == 'u'
            case Profile(_) => key[0] == 'p'
            case Implicit => key[0] == 'i'
            case Mock => key[0] == 'm'
  {
    if StartsWith(key, "user_") { assert key[0] == "user_"[0]; }
  }

  lemma {:induction false} CleanedUpFits(hash: Hash, s: State, now: real)
    requires AllFit(hash, s)
    ensures AllFit(hash, CleanedUp(s, now))
  {
  }

  /** An entry found under a service key was stored for the same settings. */
  lemma {:induction false} ServiceFits(hash: Hash, settings: Settings, e: Entry)
    requires !settings.mock && Fits(hash, ServiceKey(hash, settings), e)
    requires settings.token == "" || e.identifier == hash(settings.token)
    ensures Belongs(hash, Service, settings, e.client)
  {
    var key := ServiceKey(hash, settings);
    KeyInitial(hash, key, e);
    if settings.token != "" {
      assert key[0] == "sp_"[0];
      assert key[3..] == hash(settings.token);
      if e.client.credentials.Pat? { assert key[3..] == hash(e.client.credentials.token); }
    } else if settings.profile != "" {
      assert key[0] == "profile_"[0];
      assert key[8..] == settings.profile;
      if e.client.credentials.Profile? { assert key[8..] == e.client.credentials.name; }
    }
  }

  lemma {:induction false} UserFits(hash: Hash, h: Headers, settings: Settings, e: Entry)
    requires Given(h.token) != "" && Fits(hash, UserKey(hash, h), e) && e.identifier == hash(Given(h.token))
    ensures Belongs(hash, ForUser(h), settings, e.client)
  {
    var key := UserKey(hash, h);
    KeyInitial(hash, key, e);
    assert key[0] == (if UserOf(h) == "" then "obo_" else "user_")[0];
  }

  lemma {:induction false} MockFits(hash: Hash, e: Entry)
    requires Fits(hash, "mock_ws", e)
    ensures e.client.credentials.Mock?
  {
    KeyInitial(hash, "mock_ws", e);
  }

  lemma {:induction false} MadeFits(
    hash: Hash, s: State, key: string, credentials: Credentials, identifier: string, stamp: real)
    requires AllFit(hash, s) && Fits(hash, key, Entry(Client(credentials, s.made), identifier, stamp))
    ensures AllFit(hash, Made(s, key, credentials, identifier, stamp).state)
  {
  }

  lemma {:induction false} ReusedFits(hash: Hash, s: State, key: string, stamp: real)
    requires AllFit(hash, s) && key in s.clients
    ensures AllFit(hash, Reused(s, key, stamp).state)
  {
    assert Fits(hash, key, s.clients[key]);
  }

  lemma {:induction false} ServiceBelongs(hash: Hash, s: State, settings: Settings, host: Host, now: real, stamp: real)
    requires AllFit(hash, s)
    ensures var o := GetService(hash, s, host, settings, now, stamp);
            AllFit(hash, o.state) && (o.answer.Ok? ==> Belongs(hash, Service, settings, o.answer.value))
  {
    if settings.mock {
      if "mock_ws" in s.clients {
        MockFits(hash, s.clients["mock_ws"]);
      } else {
        MadeFits(hash, s, "mock_ws", Mock, "mock", stamp);
      }
    } else {
      var cleaned, key, credentials := CleanedUp(s, now), ServiceKey(hash, settings), ServiceCredentials(settings);
      CleanedUpFits(hash, s, now);
      if key in cleaned.clients
        && (settings.token == "" || cleaned.clients[key].identifier == ServiceIdentifier(hash, settings)) {
        ServiceFits(hash, settings, cleaned.clients[key]);
        ReusedFits(hash, cleaned, key, stamp);
      } else {
        MadeFits(hash, cleaned, key, credentials, ServiceIdentifier(hash, settings), stamp);
      }
    }
  }

  lemma {:induction false} ServeBelongs(hash: Hash, s: State, e: Event)
    requires AllFit(hash, s)
    ensures var o := Serve(hash, s, e);
            AllFit(hash, o.state) && (o.answer.Ok? ==> Belongs(hash, e.request, e.settings, o.answer.value))
  {
    match e.request
    case Service =>
      ServiceBelongs(hash, s, e.settings, e.host, e.now, e.stamp);
    case ForUser(h) =>
      var cleaned, key, token := CleanedUp(s, e.now), UserKey(hash, h), Given(h.token);
      CleanedUpFits(hash, s, e.now);
      if token == "" {
        ServiceBelongs(hash, cleaned, e.settings, e.host, e.now, e.stamp);
      } else if key in cleaned.clients && cleaned.clients[key].identifier == hash(token) {
        UserFits(hash, h, e.settings, cleaned.clients[key]);
        ReusedFits(hash, cleaned, key, e.stamp);
      } else {
        UserKeyPrefix(hash, h);
        MadeFits(hash, cleaned, key, OnBehalf(token), hash(token), e.stamp);
      }
  }

  lemma {:induction false} UserKeyPrefix(hash: Hash, h: Headers)
    ensures UserOf(h) != "" ==> StartsWith(UserKey(hash, h), "user_")
  {
  }

  lemma {:induction false} RunFits(hash: Hash, start: real, es: seq<Event>)
    ensures AllFit(hash, Run(hash, start, es))
  {
    if es != [] {
      RunFits(hash, start, es[..|es| - 1]);
      ServeBelongs(hash, Run(hash, start, es[..|es| - 1]), es[|es| - 1]);
    }
  }

  /**
   After any run of requests, across token refreshes and cleanups, a client handed out carries the
   requester's own kind of credentials, and for a token client a token of the requester's hash.
   */
  lemma {:induction false} AnswersBelong(hash: Hash, start: real, es: seq<Event>, e: Event)
    ensures var o := Serve(hash, Run(hash, start, es), e);
            o.answer.Ok? ==> Belongs(hash, e.request, e.settings, o.answer.value)
  {
    RunFits(hash, start, es);
    ServeBelongs(hash, Run(hash, start, es), e);
  }

  // ---------- How long an unused client stays ----------

  /** The clock never goes back, from the start of the process on. */
  ghost predicate Timed(start: real, es: seq<Event>, now: real) {
    && start <= now
    && (forall i :: 0 <= i < |es| ==> start <= es[i].now <= es[i].stamp <= now)
    && (forall i, j :: 0 <= i < j < |es| ==> es[i].stamp <= es[j].now)
  }

  /** Nothing was idle for more than ten minutes at the last cleanup, and nothing was used after now. */
  ghost predicate RecentAt(s: State, now: real) {
    && s.lastCleanup <= now
    && forall k :: k in s.clients ==> s.lastCleanup - MaxAge <= s.clients[k].lastAccess <= now
  }

  lemma {:induction false} CleanedUpRecent(s: State, now: real)
    requires RecentAt(s, now)
    ensures RecentAt(CleanedUp(s, now), now)
    ensures forall k :: k in CleanedUp(s, now).clients ==>
              CleanedUp(s, now).clients[k] == s.clients[k] && now - s.clients[k].lastAccess < MaxAge + CleanupInterval
  {
  }

  lemma {:induction false} ServeRecent(hash: Hash, s: State, e: Event)
    requires RecentAt(s, e.now) && e.now <= e.stamp
    ensures RecentAt(Serve(hash, s, e).state, e.stamp)
  {
    CleanedUpRecent(s, e.now);
    CleanedUpRecent(CleanedUp(s, e.now), e.now);
  }

  lemma {:induction false} RunRecent(hash: Hash, start: real, es: seq<Event>, now: real)
    requires Timed(start, es, now)
    ensures RecentAt(Run(hash, start, es), now)
  {
    if es != [] {
      var init, last := es[..|es| - 1], es[|es| - 1];
      assert Timed(start, init, last.now);
      RunRecent(hash, start, init, last.now);
      ServeRecent(hash, Run(hash, start, init), last);
    }
  }

  predicate Reuses(hash: Hash, s: State, e: Event) {
    Serve(hash, s, e).answer.Ok? && Serve(hash, s, e).state.made == s.made
  }

  /**
   Outside mock mode, a client that is reused was last used less than fifteen minutes ago: ten of idleness,
   five between cleanups.
   */
  lemma {:induction false} ReusedClientsAreRecent(hash: Hash, start: real, es: seq<Event>, e: Event)
    requires Timed(start, es, e.now) && e.now <= e.stamp && !e.settings.mock
    requires Reuses(hash, Run(hash, start, es), e)
    ensures exists k :: var s := Run(hash, start, es);
              k in s.clients && Serve(hash, s, e).answer == Ok(s.clients[k].client)
              && e.now - s.clients[k].lastAccess < 900.0
  {
    var s := Run(hash, start, es);
    RunRecent(hash, start, es, e.now);
    CleanedUpRecent(s, e.now);
    var cleaned := CleanedUp(s, e.now);
    assert CleanedUp(cleaned, e.now) == cleaned;
    var key := match e.request
      case Service => ServiceKey(hash, e.settings)
      case ForUser(h) => if Given(h.token) == "" then ServiceKey(hash, e.settings) else UserKey(hash, h);
    assert key in cleaned.clients;
    assert Serve(hash, s, e).answer == Ok(s.clients[key].client);
  }

  /** What a cleanup drops: nothing within five minutes of the last, then what was idle for more than ten. */
  lemma {:induction false} CleanupMeaning(s: State, now: real, key: string)
    ensures var after := CleanedUp(s, now);
            && after.made == s.made && after.lastCleanup == (if now - s.lastCleanup < 300.0 then s.lastCleanup else now)
            && (key in after.clients <==>
                  key in s.clients && (now - s.lastCleanup < 300.0 || now - s.clients[key].lastAccess <= 600.0))
            && (key in after.clients ==> after.clients[key] == s.clients[key])
  {
  }

  // ---------- New clients, and the same ones again ----------

  predicate HasToken(e: Event) {
    e.request.ForUser? && e.request.headers.token.Some? && e.request.headers.token.value != ""
  }

  /** The user a request names: by email, or else by the user header. */
  predicate NamesUser(h: Headers, user: string) {
    user != "" && (h.email == Some(user) || ((h.email.None? || h.email == Some("")) && h.user == Some(user)))
  }

  /** Users with a token share a client only if they are the same user, or unnamed with tokens of one hash. */
  lemma {:induction false} UserKeysApart(hash: Hash, h: Headers, g: Headers)
    requires h.token.Some? && g.token.Some?
    ensures UserKey(hash, h) == UserKey(hash, g) <==>
            || (exists user :: NamesUser(h, user) && NamesUser(g, user))
            || ((forall user :: !NamesUser(h, user) && !NamesUser(g, user))
                && hash(h.token.value) == hash(g.token.value))
  {
    forall user ensures NamesUser(h, user) <==> user != "" && user == UserOf(h) {}
    forall user ensures NamesUser(g, user) <==> user != "" && user == UserOf(g) {}
    var a, b := UserKey(hash, h), UserKey(hash, g);
    assert a[0] == (if UserOf(h) == "" then "obo_" else "user_")[0];
    assert b[0] == (if UserOf(g) == "" then "obo_" else "user_")[0];
    if a == b {
      if UserOf(h) == "" {
        assert a[4..] == hash(h.token.value) && b[4..] == hash(g.token.value);
      } else {
        assert a[5..] == UserOf(h) && b[5..] == UserOf(g);
      }
    }
    assert UserOf(h) != "" ==> NamesUser(h, UserOf(h));
    assert UserOf(g) != "" ==> NamesUser(g, UserOf(g));
  }

  /** A verified client: it can be built, and the workspace tells who it is or, where asked, which clusters it has. */
  predicate Works(w: Workspace, clusters: bool) {
    w.builds && (w.userAnswers || (clusters && w.clustersAnswer))
  }

  /**
   With nothing in the cache a client is made of exactly the requester's credentials, if it works: a user's
   token and a profile are not asked for clusters, and the mock client always works.
   */
  lemma {:induction false} NewClients(hash: Hash, s: State, e: Event)
    requires s.clients == map[]
    ensures var answer := Serve(hash, s, e).answer;
            var made := (credentials: Credentials) => Ok(Client(credentials, s.made));
            if HasToken(e) then
              var credentials := OnBehalf(e.request.headers.token.value);
              answer == if Works(e.host(credentials), false) then made(credentials) else Err
            else if e.settings.mock then answer == made(Mock)
            else if e.settings.token != "" then
              answer == if Works(e.host(Pat(e.settings.token)), true) then made(Pat(e.settings.token)) else Err
            else if e.settings.profile != "" then
              answer ==
              if Works(e.host(Profile(e.settings.profile)), false) then made(Profile(e.settings.profile)) else Err
            else answer == if Works(e.host(Implicit), true) then made(Implicit) else Err
  {
    CleanedOfNothing(s, e.now);
    CleanedOfNothing(CleanedUp(s, e.now), e.now);
  }

  lemma {:induction false} CleanedOfNothing(s: State, now: real)
    requires s.clients == map[]
    ensures CleanedUp(s, now).clients == map[] && CleanedUp(s, now).made == s.made
  {
    forall key ensures key !in CleanedUp(s, now).clients { CleanupMeaning(s, now, key); }
    assert CleanedUp(s, now).clients == map[];
  }

  predicate IsMocked(e: Event) {
    e.settings.mock && !HasToken(e)
  }

  /** The key a request is served under. */
  function KeyFor(hash: Hash, e: Event): string {
    if HasToken(e) then UserKey(hash, e.request.headers)
    else if e.settings.mock then "mock_ws"
    else ServiceKey(hash, e.settings)
  }

  /** The identifier it is stored with. */
  function IdentifierFor(hash: Hash, e: Event): string {
    if HasToken(e) then hash(e.request.headers.token.value)
    else if e.settings.mock then "mock"
    else ServiceIdentifier(hash, e.settings)
  }

  /** The entry a request has just used or made. */
  ghost predicate Holds(hash: Hash, s: State, e: Event, client: Client) {
    var key := KeyFor(hash, e);
    && key in s.clients && s.clients[key].client == client
    && (KeyIsChecked(e) ==> s.clients[key].identifier == IdentifierFor(hash, e))
    && (IsMocked(e) || s.clients[key].lastAccess == e.stamp)
  }

  /** Entries made for a token are compared with its hash. */
  predicate KeyIsChecked(e: Event) {
    HasToken(e) || (!e.settings.mock && e.settings.token != "")
  }

  lemma {:induction false} ServedIsHeld(hash: Hash, s: State, e: Event)
    requires Serve(hash, s, e).answer.Ok?
    ensures Holds(hash, Serve(hash, s, e).state, e, Serve(hash, s, e).answer.value)
  {
  }

  /** Whether what a request has just used is still there for the same request later. */
  ghost predicate Kept(s: State, e: Event, again: Event) {
    if IsMocked(e) && e.request.ForUser? then
      "mock_ws" in s.clients
      && (again.now - s.lastCleanup < 300.0 || again.now - s.clients["mock_ws"].lastAccess <= 600.0)
    else true
  }

  lemma {:induction false} HeldIsServed(hash: Hash, s: State, e: Event, again: Event, client: Client)
    requires Holds(hash, s, e, client) && again.request == e.request && again.settings == e.settings
    requires again.now - e.stamp <= 600.0
    ensures Kept(s, e, again) ==>
              Serve(hash, s, again).answer == Ok(client) && Serve(hash, s, again).state.made == s.made
    ensures !Kept(s, e, again) ==> Serve(hash, s, again).state.made == s.made + 1
  {
    var key := KeyFor(hash, e);
    CleanupMeaning(s, again.now, key);
    var cleaned := CleanedUp(s, again.now);
    CleanupMeaning(cleaned, again.now, key);
    if HasToken(e) {
      assert Serve(hash, s, again) == Reused(cleaned, key, again.stamp);
    } else if e.settings.mock {
      assert e.request.Service? ==> Serve(hash, s, again) == Outcome(s, Ok(client));
      var served := GetService(hash, cleaned, again.host, again.settings, again.now, again.stamp);
      assert e.request.ForUser? ==> Serve(hash, s, again) == served;
    } else if e.request.Service? {
      assert Serve(hash, s, again) == Reused(cleaned, key, again.stamp);
    } else {
      assert Serve(hash, s, again) == Reused(CleanedUp(cleaned, again.now), key, again.stamp);
    }
  }

  /**
   The same request again within ten minutes gets the same client, and none is built. Using the mock client
   does not renew it: for a user without a token it is built anew exactly when a cleanup is due and it was
   made more than ten minutes ago.
   */
  lemma {:induction false} SameClientAgain(hash: Hash, s: State, e: Event, again: Event)
    requires Serve(hash, s, e).answer.Ok?
    requires again.request == e.request && again.settings == e.settings && again.now - e.stamp <= 600.0
    ensures var (first, next) := (Serve(hash, s, e), Serve(hash, Serve(hash, s, e).state, again));
            && (next.state.made == first.state.made <==> Kept(first.state, e, again))
            && (next.state.made == first.state.made ==> next.answer == first.answer)
  {
    ServedIsHeld(hash, s, e);
    HeldIsServed(hash, Serve(hash, s, e).state, e, again, Serve(hash, s, e).answer.value);
  }
}
