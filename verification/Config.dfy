/** The server registry and the reload of the configuration (config.go; the checks of hop.go). */
module Config {
  import opened Wrappers

  type Time = nat
  type ClientId = nat

  /** Go's zero `time.Time`, which precedes every other time. */
  const ZERO_TIME: Time := 0
  const DEFAULT_USER_LIMIT := 10

  datatype Server = Server(addr: string, mediaPool: string, fallback: string, dynamic: bool, poolAdded: Time)

  type Servers = map<string, Server>

  datatype Config = Config(userLimit: int, defaultSrv: string, kickOnNewPool: bool, servers: Servers)

  /** A server as the configuration file defines it. */
  datatype ServerDef = ServerDef(addr: string, mediaPool: string, fallback: string)

  /** The file: absent fields are None; a decoding error may come after some fields were stored. */
  datatype File =
    | Unreadable
    | Malformed(stored: Config)
    | Parsed(userLimit: Option<int>, defaultSrv: Option<string>, kickOnNewPool: Option<bool>,
             defs: map<string, ServerDef>)

  /** `server` is empty while there is no upstream connection. */
  datatype Client = Client(created: Time, server: string, denyPools: set<string>)

  type Clients = map<ClientId, Client>

  // -------------------------------------------------------------------------
  // Pools

  function PoolNames(servers: Servers): set<string> {
    set n | n in servers :: servers[n].mediaPool
  }

  function Members(servers: Servers, pool: string): Servers {
    map n | n in servers && servers[n].mediaPool == pool :: servers[n]
  }

  ghost predicate HasStatic(servers: Servers, pool: string) {
    exists n :: n in servers && !servers[n].dynamic && servers[n].mediaPool == pool
  }

  /** Every dynamic server's pool has a static member. */
  ghost predicate Backed(servers: Servers) {
    forall n :: n in servers && servers[n].dynamic ==> HasStatic(servers, servers[n].mediaPool)
  }

  ghost predicate InUse(clients: Clients, name: string) {
    exists c :: c in clients && clients[c].server == name
  }

  /** Servers that clients are connected to are configured. */
  ghost predicate Configured(servers: Servers, clients: Clients) {
    forall c :: c in clients && clients[c].server != "" ==> clients[c].server in servers
  }

  /** `Pools`: the servers, partitioned by pool; no part is empty. */
  method Pools(servers: Servers) returns (pools: map<string, Servers>)
    ensures pools.Keys == PoolNames(servers)
    ensures forall p :: p in pools ==> pools[p] == Members(servers, p) && pools[p] != map[]
  {
    pools := map[];
    var left := servers.Keys;
    ghost var done: Servers := map[];
    while left != {}
      invariant left <= servers.Keys && done == servers - left
      invariant pools.Keys == PoolNames(done)
      invariant forall p :: p in pools ==> pools[p] == Members(done, p) && pools[p] != map[]
      decreases left
    {
      var name :| name in left;
      var srv := servers[name];
      var pool := if srv.mediaPool in pools then pools[srv.mediaPool] else map[];
      pools := pools[srv.mediaPool := pool[name := srv]];
      MembersSnoc(done, name, srv);
      left := left - {name};
      assert servers - left == done[name := srv];
      done := done[name := srv];
    }
    assert servers - {} == servers;
  }

  /** A partition: each server is in its own pool, and in no other. */
  lemma PoolsSpelled(servers: Servers, pools: map<string, Servers>)
    requires pools.Keys == PoolNames(servers) && forall p :: p in pools ==> pools[p] == Members(servers, p)
    ensures forall n :: n in servers ==> servers[n].mediaPool in pools && n in pools[servers[n].mediaPool]
    ensures forall p, n :: p in pools && n in pools[p] ==>
      n in servers && pools[p][n] == servers[n] && servers[n].mediaPool == p
  {
    assert forall n :: n in servers ==> servers[n].mediaPool in PoolNames(servers);
  }

  lemma MembersSnoc(servers: Servers, name: string, srv: Server)
    requires name !in servers
    ensures PoolNames(servers[name := srv]) == PoolNames(servers) + {srv.mediaPool}
    ensures forall p :: p != srv.mediaPool ==> Members(servers[name := srv], p) == Members(servers, p)
    ensures Members(servers[name := srv], srv.mediaPool) == Members(servers, srv.mediaPool)[name := srv]
    ensures srv.mediaPool !in PoolNames(servers) ==> Members(servers, srv.mediaPool) == map[]
  {
    var more := servers[name := srv];
    assert forall n :: n in servers ==> more[n] == servers[n];
    forall p ensures p in PoolNames(more) <==> p in PoolNames(servers) + {srv.mediaPool} {
      if p in PoolNames(servers) {
        var n :| n in servers && servers[n].mediaPool == p;
        assert more[n].mediaPool == p;
      }
      assert more[name].mediaPool == srv.mediaPool;
    }
    assert forall n :: n in servers ==> servers[n].mediaPool in PoolNames(servers);
  }

  // -------------------------------------------------------------------------
  // Adding and removing

  /** `AddServer` succeeds exactly for a free name and a pool with a static member. */
  function Added(servers: Servers, name: string, s: Server, startTime: Time): Servers {
    servers[name := s.(dynamic := true, poolAdded := startTime)]
  }

  lemma AddKeeps(servers: Servers, name: string, s: Server, startTime: Time)
    requires name !in servers && HasStatic(servers, s.mediaPool)
    ensures var more := Added(servers, name, s, startTime);
      && (forall p :: HasStatic(more, p) <==> HasStatic(servers, p))
      && (Backed(servers) ==> Backed(more))
      && PoolNames(more) == PoolNames(servers)
  {
    var more := Added(servers, name, s, startTime);
    forall p ensures HasStatic(more, p) <==> HasStatic(servers, p) {
      if HasStatic(servers, p) {
        var n :| n in servers && !servers[n].dynamic && servers[n].mediaPool == p;
        assert n in more && !more[n].dynamic && more[n].mediaPool == p;
      }
      if HasStatic(more, p) {
        var n :| n in more && !more[n].dynamic && more[n].mediaPool == p;
        assert n in servers && !servers[n].dynamic && servers[n].mediaPool == p;
      }
    }
    MembersSnoc(servers, name, more[name]);
    StaticPool(servers, s.mediaPool);
  }

  lemma StaticOneMore(servers: Servers, left: set<string>, name: string, pool: string)
    requires name in left && left <= servers.Keys
    ensures HasStatic(servers - (left - {name}), pool) <==>
            HasStatic(servers - left, pool) || (!servers[name].dynamic && servers[name].mediaPool == pool)
  {
    var few, more := servers - left, servers - (left - {name});
    if HasStatic(few, pool) {
      var n :| n in few && !few[n].dynamic && few[n].mediaPool == pool;
      assert n in more && !more[n].dynamic && more[n].mediaPool == pool;
    }
    if HasStatic(more, pool) {
      var n :| n in more && !more[n].dynamic && more[n].mediaPool == pool;
      assert n != name ==> n in few && !few[n].dynamic && few[n].mediaPool == pool;
    }
    if !servers[name].dynamic && servers[name].mediaPool == pool {
      assert name in more && !more[name].dynamic && more[name].mediaPool == pool;
    }
  }

  lemma StaticPool(servers: Servers, pool: string)
    requires HasStatic(servers, pool)
    ensures pool in PoolNames(servers)
  {
    var n :| n in servers && !servers[n].dynamic && servers[n].mediaPool == pool;
    assert servers[n].mediaPool in PoolNames(servers);
  }

  lemma RemoveKeeps(servers: Servers, name: string)
    requires name in servers && servers[name].dynamic && Backed(servers)
    ensures Backed(servers - {name}) && PoolNames(servers - {name}) == PoolNames(servers)
  {
    var less := servers - {name};
    forall p | HasStatic(servers, p) ensures HasStatic(less, p) {
      var n :| n in servers && !servers[n].dynamic && servers[n].mediaPool == p;
      assert n in less && !less[n].dynamic && less[n].mediaPool == p;
    }
    forall n | n in less && less[n].dynamic ensures HasStatic(less, less[n].mediaPool) {
      assert HasStatic(servers, servers[n].mediaPool);
    }
    forall p | p in PoolNames(servers) ensures p in PoolNames(less) {
      var n :| n in servers && servers[n].mediaPool == p;
      if n == name {
        StaticPool(less, p);
      } else {
        assert less[n].mediaPool == p;
      }
    }
  }

  // -------------------------------------------------------------------------
  // Reloading

  function Normal(name: string, s: Server): Server {
    if s.mediaPool == "" then s.(mediaPool := name) else s
  }

  lemma NormalKeeps(name: string, s: Server)
    ensures Normal(name, s).dynamic == s.dynamic && Normal(name, s).poolAdded == s.poolAdded
  {
  }

  /** A server of the file; its unexported fields have their zero values. */
  function FromDef(name: string, d: ServerDef): Server {
    Normal(name, Server(d.addr, d.mediaPool, d.fallback, false, ZERO_TIME))
  }

  ghost predicate Duplicate(servers: Servers, defs: map<string, ServerDef>, name: string) {
    name in servers && servers[name].dynamic && name in defs
  }

  ghost predicate Abandoned(servers: Servers, clients: Clients, defs: map<string, ServerDef>, name: string) {
    name in servers && !servers[name].dynamic && name !in defs && InUse(clients, name)
  }

  /** The file asks for something that a running proxy cannot do. */
  ghost predicate Conflict(servers: Servers, clients: Clients, defs: map<string, ServerDef>) {
    exists name :: Blocks(servers, clients, defs, name)
  }

  ghost predicate Blocks(servers: Servers, clients: Clients, defs: map<string, ServerDef>, name: string) {
    Duplicate(servers, defs, name) || Abandoned(servers, clients, defs, name)
  }

  /** The time from which clients know a server's pool. */
  ghost predicate RightAge(servers: Servers, name: string, s: Server, now: Time) {
    if name in servers then s.poolAdded == ZERO_TIME
    else if s.mediaPool in PoolNames(servers) then
      exists m :: m in servers && servers[m].mediaPool == s.mediaPool && servers[m].poolAdded == s.poolAdded
    else s.poolAdded == now
  }

  /** The registry after a reload, whatever order the maps are iterated in. */
  ghost predicate Merged(servers: Servers, defs: map<string, ServerDef>, now: Time, merged: Servers) {
    && (forall n :: n in merged <==> n in defs || (n in servers && servers[n].dynamic))
    && (forall n :: n in merged && n !in defs ==> merged[n] == Normal(n, servers[n]))
    && (forall n :: n in defs && n in merged ==>
          merged[n] == FromDef(n, defs[n]).(poolAdded := merged[n].poolAdded) && RightAge(servers, n, merged[n], now))
  }

  /** The dynamic servers, except for the names that are left to be looked at. */
  ghost function Dynamic(servers: Servers, left: set<string>): Servers {
    map n | n in servers && n !in left && servers[n].dynamic :: servers[n]
  }

  /** What the last loop of a reload does to one server. */
  ghost predicate Aged(servers: Servers, name: string, s: Server, t: Server, now: Time) {
    && t == s.(poolAdded := t.poolAdded)
    && if name in servers || s.dynamic then t == s else RightAge(servers, name, t, now)
  }

  /** The three loops of a reload together. */
  lemma MergedIntro(servers: Servers, clients: Clients, defs: map<string, ServerDef>, now: Time,
                    fromFile: Servers, taken: Servers, merged: Servers)
    requires !Conflict(servers, clients, defs)
    requires fromFile == map n | n in defs ::
      Server(defs[n].addr, defs[n].mediaPool, defs[n].fallback, false, ZERO_TIME)
    requires taken == fromFile + Dynamic(servers, {})
    requires merged.Keys == taken.Keys
    requires forall n :: n in taken ==> Aged(servers, n, Normal(n, taken[n]), merged[n], now)
    ensures Merged(servers, defs, now, merged)
  {
    hide RightAge, Aged, Conflict, Normal;
    forall n | n in defs ensures n !in Dynamic(servers, {}) {
      FileIsStatic(servers, clients, defs, n);
    }
    forall n | n in merged && n !in defs ensures merged[n] == Normal(n, servers[n]) {
      assert taken[n] == servers[n];
      NormalKeeps(n, servers[n]);
      AgedMeaning(servers, n, Normal(n, servers[n]), merged[n], now);
    }
    forall n | n in defs
      ensures merged[n] == FromDef(n, defs[n]).(poolAdded := merged[n].poolAdded)
      ensures RightAge(servers, n, merged[n], now)
    {
      assert taken[n] == fromFile[n];
      NormalKeeps(n, fromFile[n]);
      AgedMeaning(servers, n, FromDef(n, defs[n]), merged[n], now);
    }
  }

  lemma AgedMeaning(servers: Servers, name: string, s: Server, t: Server, now: Time)
    requires Aged(servers, name, s, t, now)
    ensures t == s.(poolAdded := t.poolAdded)
    ensures s.dynamic ==> t == s
    ensures !s.dynamic && s.poolAdded == ZERO_TIME ==> RightAge(servers, name, t, now)
  {
  }

  lemma FileIsStatic(servers: Servers, clients: Clients, defs: map<string, ServerDef>, name: string)
    requires !Conflict(servers, clients, defs) && name in defs
    ensures name !in Dynamic(servers, {})
  {
    assert !Blocks(servers, clients, defs, name);
  }

  ghost predicate Loaded(before: Config, clients: Clients, file: File, now: Time, after: Config, ok: bool) {
    && (ok <==> file.Parsed? && !Conflict(before.servers, clients, file.defs))
    && (!ok ==> after == before)
    && (ok ==>
          && Merged(before.servers, file.defs, now, after.servers)
          && after.userLimit == (match file.userLimit case Some(x) => x case None => DEFAULT_USER_LIMIT)
          // fields without a default keep their old values
          && after.defaultSrv == (match file.defaultSrv case Some(x) => x case None => before.defaultSrv)
          && after.kickOnNewPool == (match file.kickOnNewPool case Some(x) => x case None => before.kickOnNewPool))
  }

  /** A reload neither adds nor drops a dynamic server, and changes none that names its pool. */
  lemma ReloadKeepsDynamic(before: Config, clients: Clients, file: File, now: Time, after: Config, ok: bool)
    requires Loaded(before, clients, file, now, after, ok)
    ensures forall n :: (n in before.servers && before.servers[n].dynamic) <==>
      (n in after.servers && after.servers[n].dynamic)
    ensures forall n :: n in before.servers && before.servers[n].dynamic && before.servers[n].mediaPool != "" ==>
      after.servers[n] == before.servers[n]
  {
    if ok {
      forall n | n in before.servers && before.servers[n].dynamic ensures n !in file.defs {
        assert !Blocks(before.servers, clients, file.defs, n);
      }
    }
  }

  /**
   A file that asks for nothing else impossible is taken exactly if it defines no dynamic server; its
   definition of one is not ignored.
   */
  lemma DuplicateRefusedExactly(before: Config, clients: Clients, file: File, now: Time, after: Config, ok: bool)
    requires Loaded(before, clients, file, now, after, ok) && file.Parsed?
    requires forall n :: !Abandoned(before.servers, clients, file.defs, n)
    ensures ok <==> forall n :: n in before.servers && before.servers[n].dynamic ==> n !in file.defs
  {
    if ok {
      forall n | n in before.servers && before.servers[n].dynamic ensures n !in file.defs {
        assert !Blocks(before.servers, clients, file.defs, n);
      }
    } else {
      var n :| Blocks(before.servers, clients, file.defs, n);
      assert Duplicate(before.servers, file.defs, n);
    }
  }

  /** A reload goes through exactly if no dynamic server is in the file and no dropped one has a client. */
  lemma ReloadSucceedsExactly(before: Config, clients: Clients, file: File, now: Time, after: Config, ok: bool)
    requires Loaded(before, clients, file, now, after, ok) && file.Parsed?
    ensures ok <==> forall n :: n in before.servers ==>
      if before.servers[n].dynamic then n !in file.defs
      else n in file.defs || forall c :: c in clients ==> clients[c].server != n
  {
    if ok {
      forall n | n in before.servers
        ensures if before.servers[n].dynamic then n !in file.defs
                else n in file.defs || forall c :: c in clients ==> clients[c].server != n
      {
        assert !Blocks(before.servers, clients, file.defs, n);
        if !before.servers[n].dynamic && n !in file.defs {
          assert !InUse(clients, n);
        }
      }
    } else {
      var n :| Blocks(before.servers, clients, file.defs, n);
      if Abandoned(before.servers, clients, file.defs, n) {
        assert InUse(clients, n);
      } else {
        assert Duplicate(before.servers, file.defs, n);
      }
    }
  }

  lemma ReloadKeepsConfigured(before: Config, clients: Clients, file: File, now: Time, after: Config, ok: bool)
    requires Loaded(before, clients, file, now, after, ok) && Configured(before.servers, clients)
    ensures Configured(after.servers, clients)
  {
    if ok {
      forall c | c in clients && clients[c].server != "" ensures clients[c].server in after.servers {
        var name := clients[c].server;
        assert InUse(clients, name);
        assert !Blocks(before.servers, clients, file.defs, name);
      }
    }
  }

  /** The registry after a reload, server by server. */
  lemma ReloadSpelled(before: Config, clients: Clients, file: File, now: Time, after: Config)
    requires Loaded(before, clients, file, now, after, true)
    ensures forall n :: n in file.defs ==>
      && n in after.servers && !after.servers[n].dynamic
      && after.servers[n].addr == file.defs[n].addr && after.servers[n].fallback == file.defs[n].fallback
      && after.servers[n].mediaPool == if file.defs[n].mediaPool == "" then n else file.defs[n].mediaPool
    ensures forall n :: n in after.servers && n !in file.defs ==> n in before.servers && before.servers[n].dynamic
    ensures forall n :: n in after.servers && n !in file.defs ==>
      && after.servers[n].dynamic && after.servers[n].addr == before.servers[n].addr
      && after.servers[n].fallback == before.servers[n].fallback
      && after.servers[n].poolAdded == before.servers[n].poolAdded
      && after.servers[n].mediaPool == if before.servers[n].mediaPool == "" then n else before.servers[n].mediaPool
    ensures file.userLimit == None ==> after.userLimit == 10
    ensures file.userLimit.Some? ==> after.userLimit == file.userLimit.value
    ensures file.defaultSrv == None ==> after.defaultSrv == before.defaultSrv
  {
    hide Conflict, RightAge;
  }

  /** A reload does not look at the pools: the dynamic servers stay backed exactly if the file backs them. */
  lemma ReloadBackedExactly(before: Config, clients: Clients, file: File, now: Time, after: Config)
    requires Loaded(before, clients, file, now, after, true)
    requires forall n :: n in before.servers ==> before.servers[n].mediaPool != ""
    ensures Backed(after.servers) <==> forall n :: n in before.servers && before.servers[n].dynamic ==>
      exists d :: d in file.defs && FromDef(d, file.defs[d]).mediaPool == before.servers[n].mediaPool
  {
    ReloadKeepsDynamic(before, clients, file, now, after, true);
    forall p ensures HasStatic(after.servers, p) <==>
        exists d :: d in file.defs && FromDef(d, file.defs[d]).mediaPool == p {
      FileBacks(before, clients, file, now, after, p);
    }
  }

  lemma FileBacks(before: Config, clients: Clients, file: File, now: Time, after: Config, p: string)
    requires Loaded(before, clients, file, now, after, true)
    ensures HasStatic(after.servers, p) <==> exists d :: d in file.defs && FromDef(d, file.defs[d]).mediaPool == p
  {
    if HasStatic(after.servers, p) {
      var n :| n in after.servers && !after.servers[n].dynamic && after.servers[n].mediaPool == p;
      assert n in file.defs && FromDef(n, file.defs[n]).mediaPool == p;
    }
    if d :| d in file.defs && FromDef(d, file.defs[d]).mediaPool == p {
      assert d in after.servers && !after.servers[d].dynamic && after.servers[d].mediaPool == p;
    }
  }

  // -------------------------------------------------------------------------
  // Hopping

  /** The checks of `HopRaw` before it touches the connection. */
  predicate MayHop(servers: Servers, client: Client, name: string) {
    && client.server != ""
    && name in servers
    && servers[name].mediaPool !in client.denyPools
    && servers[name].poolAdded <= client.created
  }

  /**
   A server of the file that was configured before passes the age check for every client; one in a
   pool that is new passes it exactly for the clients that are not older than the reload.
   */
  lemma AgeExactly(before: Config, clients: Clients, file: File, now: Time, after: Config, name: string, created: Time)
    requires Loaded(before, clients, file, now, after, true) && name in file.defs
    requires name in before.servers || FromDef(name, file.defs[name]).mediaPool !in PoolNames(before.servers)
    ensures name in after.servers
    ensures after.servers[name].poolAdded <= created <==> name in before.servers || now <= created
  {
  }

  /** What a hop to such a server asks of the client besides. */
  lemma NewServerHopExactly(before: Config, clients: Clients, file: File, now: Time, after: Config,
                            name: string, client: Client)
    requires Loaded(before, clients, file, now, after, true) && name in file.defs
    requires name in before.servers || FromDef(name, file.defs[name]).mediaPool !in PoolNames(before.servers)
    ensures MayHop(after.servers, client, name) <==>
      && client.server != "" && FromDef(name, file.defs[name]).mediaPool !in client.denyPools
      && (name in before.servers || now <= client.created)
  {
    AgeExactly(before, clients, file, now, after, name, client.created);
  }

  /** The outcome of a reload with another age for one server. */
  function WithAge(conf: Config, name: string, age: Time): Config
    requires name in conf.servers
  {
    conf.(servers := conf.servers[name := conf.servers[name].(poolAdded := age)])
  }

  /** Any member's age may be the one that a new server of a known pool gets. */
  lemma AnyAgeLoads(before: Config, clients: Clients, file: File, now: Time, after: Config, name: string, m: string)
    requires Loaded(before, clients, file, now, after, true) && name in file.defs && name !in before.servers
    requires m in Members(before.servers, FromDef(name, file.defs[name]).mediaPool)
    ensures name in after.servers
    ensures Loaded(before, clients, file, now, WithAge(after, name, before.servers[m].poolAdded), true)
  {
    hide Conflict;
    var with := WithAge(after, name, before.servers[m].poolAdded);
    assert before.servers[m].mediaPool in PoolNames(before.servers);
    assert RightAge(before.servers, name, with.servers[name], now);
    AgeInMerged(before.servers, file.defs, now, after.servers, name, before.servers[m].poolAdded);
    hide Merged, RightAge;
  }

  lemma AgeInMerged(servers: Servers, defs: map<string, ServerDef>, now: Time, merged: Servers, name: string, age: Time)
    requires Merged(servers, defs, now, merged) && name in defs && name in merged
    requires RightAge(servers, name, merged[name].(poolAdded := age), now)
    ensures Merged(servers, defs, now, merged[name := merged[name].(poolAdded := age)])
  {
    hide RightAge, FromDef, Normal;
  }

  /** Every outcome of the reload lets the client in. */
  ghost predicate AlwaysOldEnough(before: Config, clients: Clients, file: File, now: Time,
                                  name: string, created: Time) {
    forall after :: Loaded(before, clients, file, now, after, true) && name in after.servers ==>
      after.servers[name].poolAdded <= created
  }

  /**
   A new server of a pool that was known before gets the age of one of the members, and the order
   of the map decides which: it passes the age check whatever the order exactly if all members do.
   */
  lemma KnownPoolExactly(before: Config, clients: Clients, file: File, now: Time, after: Config,
                         name: string, created: Time)
    requires Loaded(before, clients, file, now, after, true) && name in file.defs && name !in before.servers
    requires FromDef(name, file.defs[name]).mediaPool in PoolNames(before.servers)
    ensures AlwaysOldEnough(before, clients, file, now, name, created) <==>
      forall m :: m in Members(before.servers, FromDef(name, file.defs[name]).mediaPool) ==>
        before.servers[m].poolAdded <= created
  {
    var members := Members(before.servers, FromDef(name, file.defs[name]).mediaPool);
    if AlwaysOldEnough(before, clients, file, now, name, created) {
      forall m | m in members ensures before.servers[m].poolAdded <= created {
        AnyAgeLoads(before, clients, file, now, after, name, m);
        assert WithAge(after, name, before.servers[m].poolAdded).servers[name].poolAdded <= created;
      }
    } else {
      var other :| Loaded(before, clients, file, now, other, true) && name in other.servers
        && other.servers[name].poolAdded > created;
      var m := AgedAfter(before, clients, file, now, other, name);
      assert before.servers[m].poolAdded > created;
    }
  }

  /** The member whose age a new server of a known pool got. */
  lemma AgedAfter(before: Config, clients: Clients, file: File, now: Time, after: Config, name: string)
    returns (m: string)
    requires Loaded(before, clients, file, now, after, true) && name in file.defs && name !in before.servers
    requires FromDef(name, file.defs[name]).mediaPool in PoolNames(before.servers)
    ensures m in Members(before.servers, FromDef(name, file.defs[name]).mediaPool)
    ensures name in after.servers && before.servers[m].poolAdded == after.servers[name].poolAdded
  {
    hide Conflict;
    m :| m in before.servers && before.servers[m].mediaPool == after.servers[name].mediaPool
      && before.servers[m].poolAdded == after.servers[name].poolAdded;
  }

  /** One reload after the other, each of a file, with a time and an outcome. */
  datatype Reload = Reload(clients: Clients, file: File, now: Time, ok: bool)

  ghost predicate AreReloads(confs: seq<Config>, reloads: seq<Reload>) {
    && |confs| == |reloads| + 1
    && forall k :: 0 <= k < |reloads| ==>
         Loaded(confs[k], reloads[k].clients, reloads[k].file, reloads[k].now, confs[k + 1], reloads[k].ok)
  }

  /** The server stays in the file. */
  ghost predicate StaysInFile(reloads: seq<Reload>, name: string) {
    forall k :: 0 <= k < |reloads| && reloads[k].ok ==>
      reloads[k].file.Parsed? && name in reloads[k].file.defs
  }

  /** Some reload after the first one succeeds. */
  ghost predicate ReloadedAgain(reloads: seq<Reload>) {
    exists k :: 0 < k < |reloads| && reloads[k].ok
  }

  /**
   Over any sequence of reloads: a server whose pool was new at the first of them, and which stays
   in the file, passes the age check exactly for clients that are not older than that reload, until
   another reload succeeds; from then on it passes for all.
   */
  lemma {:induction false} AgeForgottenExactly(confs: seq<Config>, reloads: seq<Reload>, name: string, created: Time)
    requires AreReloads(confs, reloads) && reloads != [] && reloads[0].ok && StaysInFile(reloads, name)
    requires name !in confs[0].servers
    requires FromDef(name, reloads[0].file.defs[name]).mediaPool !in PoolNames(confs[0].servers)
    ensures name in confs[|reloads|].servers
    ensures confs[|reloads|].servers[name].poolAdded <= created <==>
            reloads[0].now <= created || ReloadedAgain(reloads)
  {
    hide Merged;
    var n := |reloads| - 1;
    var r := reloads[n];
    if n == 0 {
      AgeExactly(confs[0], r.clients, r.file, r.now, confs[1], name, created);
    } else {
      AgeForgottenExactly(confs[..n + 1], reloads[..n], name, created);
      assert ReloadedAgain(reloads) <==> ReloadedAgain(reloads[..n]) || r.ok;
      if r.ok {
        AgeExactly(confs[n], r.clients, r.file, r.now, confs[n + 1], name, created);
      }
    }
  }

  // -------------------------------------------------------------------------
  // Runs

  datatype World = World(config: Config, clients: Clients)

  datatype Event =
    | Add(name: string, s: Server, startTime: Time)
    | Remove(name: string)
    | Load(file: File, now: Time)
    | HopTo(c: ClientId, name: string, dialled: bool)
    | Join(c: ClientId, created: Time, name: string, denyPools: set<string>)
    | Leave(c: ClientId)

  ghost predicate Next(w: World, e: Event, v: World) {
    match e
    case Add(name, s, startTime) =>
      v.clients == w.clients && v.config ==
        if name !in w.config.servers && HasStatic(w.config.servers, s.mediaPool)
        then w.config.(servers := Added(w.config.servers, name, s, startTime)) else w.config
    case Remove(name) =>
      v.clients == w.clients && v.config ==
        if name in w.config.servers && w.config.servers[name].dynamic && !InUse(w.clients, name)
        then w.config.(servers := w.config.servers - {name}) else w.config
    case Load(file, now) =>
      v.clients == w.clients && exists ok :: Loaded(w.config, w.clients, file, now, v.config, ok)
    case HopTo(c, name, dialled) =>
      v.config == w.config && v.clients ==
        if c in w.clients && MayHop(w.config.servers, w.clients[c], name)
        then w.clients[c := w.clients[c].(server := if dialled then name else "")] else w.clients
    case Join(c, created, name, denyPools) =>
      v.config == w.config && v.clients ==
        if c !in w.clients && name in w.config.servers
        then w.clients[c := Client(created, name, denyPools)] else w.clients
    case Leave(c) => v.config == w.config && v.clients == w.clients - {c}
  }

  ghost predicate IsRun(worlds: seq<World>, events: seq<Event>) {
    |worlds| == |events| + 1 && forall k :: 0 <= k < |events| ==> Next(worlds[k], events[k], worlds[k + 1])
  }

  /** When a server is added, and what is then there. */
  lemma AddSpelled(w: World, name: string, s: Server, startTime: Time, v: World)
    requires Next(w, Add(name, s, startTime), v)
    ensures var servers := w.config.servers;
      var allowed := name !in servers
        && exists n :: n in servers && !servers[n].dynamic && servers[n].mediaPool == s.mediaPool;
      && (!allowed ==> v == w)
      && (allowed ==> v.clients == w.clients && v.config == w.config.(servers := v.config.servers))
      && (allowed ==>
            v.config.servers == servers[name := Server(s.addr, s.mediaPool, s.fallback, true, startTime)])
  {
  }

  /** When a server is removed. */
  lemma RemoveSpelled(w: World, name: string, v: World)
    requires Next(w, Remove(name), v)
    ensures var servers := w.config.servers;
      var allowed := name in servers && servers[name].dynamic
        && forall c :: c in w.clients ==> w.clients[c].server != name;
      && (!allowed ==> v == w)
      && (allowed ==> v.clients == w.clients && v.config == w.config.(servers := servers - {name}))
  {
    if InUse(w.clients, name) {
      var c :| c in w.clients && w.clients[c].server == name;
      assert w.clients[c].server == name;
    }
  }

  /** A connected client's hop: refused, gone through, or left without a server. */
  lemma HopSpelled(w: World, c: ClientId, name: string, dialled: bool, v: World)
    requires Next(w, HopTo(c, name, dialled), v) && c in w.clients && w.clients[c].server != ""
    ensures v.config == w.config && v.clients.Keys == w.clients.Keys
    ensures forall d :: d in w.clients && d != c ==> v.clients[d] == w.clients[d]
    ensures var clt, servers := w.clients[c], w.config.servers;
      v.clients[c] == clt.(server :=
        if name !in servers || servers[name].mediaPool in clt.denyPools || servers[name].poolAdded > clt.created
        then clt.server else if dialled then name else "")
  {
  }

  lemma NextKeepsConfigured(w: World, e: Event, v: World)
    requires Next(w, e, v) && Configured(w.config.servers, w.clients)
    ensures Configured(v.config.servers, v.clients)
  {
    match e {
      case Load(file, now) =>
        var ok :| Loaded(w.config, w.clients, file, now, v.config, ok);
        ReloadKeepsConfigured(w.config, w.clients, file, now, v.config, ok);
      case Remove(name) =>
        forall c | c in w.clients && !InUse(w.clients, name) ensures w.clients[c].server != name {
        }
      case _ =>
    }
  }

  /** Across any run, every connected client's server stays configured. */
  lemma {:induction false} RunKeepsConfigured(worlds: seq<World>, events: seq<Event>)
    requires IsRun(worlds, events) && Configured(worlds[0].config.servers, worlds[0].clients)
    ensures Configured(worlds[|events|].config.servers, worlds[|events|].clients)
  {
    if events == [] {
    } else {
      var n := |events| - 1;
      RunKeepsConfigured(worlds[..|worlds| - 1], events[..n]);
      NextKeepsConfigured(worlds[n], events[n], worlds[n + 1]);
    }
  }

  /** Across any run without a reload, the dynamic servers stay backed and the pools stay the same. */
  lemma {:induction false} RunKeepsPools(worlds: seq<World>, events: seq<Event>)
    requires IsRun(worlds, events) && Backed(worlds[0].config.servers)
    requires forall e :: e in events ==> !e.Load?
    ensures Backed(worlds[|events|].config.servers)
    ensures PoolNames(worlds[|events|].config.servers) == PoolNames(worlds[0].config.servers)
  {
    if events == [] {
    } else {
      var n := |events| - 1;
      RunKeepsPools(worlds[..|worlds| - 1], events[..n]);
      assert events[n] in events;
      NextKeepsPools(worlds[n], events[n], worlds[n + 1]);
    }
  }

  lemma NextKeepsPools(w: World, e: Event, v: World)
    requires Next(w, e, v) && !e.Load? && Backed(w.config.servers)
    ensures Backed(v.config.servers) && PoolNames(v.config.servers) == PoolNames(w.config.servers)
  {
    match e {
      case Add(name, s, startTime) =>
        if name !in w.config.servers && HasStatic(w.config.servers, s.mediaPool) {
          AddKeeps(w.config.servers, name, s, startTime);
        }
      case Remove(name) =>
        if name in w.config.servers && w.config.servers[name].dynamic {
          RemoveKeeps(w.config.servers, name);
        }
      case _ =>
    }
  }

  // -------------------------------------------------------------------------
  // The global configuration

  class Proxy {
    var config: Config
    var clients: Clients

    method UsesServer(name: string) returns (used: bool)
      ensures used <==> InUse(clients, name)
    {
      var left := clients.Keys;
      while left != {}
        invariant left <= clients.Keys
        invariant forall c :: c in clients && clients[c].server == name ==> c in left
        decreases left
      {
        var c :| c in left;
        if clients[c].server == name {
          return true;
        }
        left := left - {c};
      }
      used := false;
    }

    method AddServer(name: string, s: Server, startTime: Time) returns (ok: bool)
      modifies this`config
      ensures ok <==> name !in old(config).servers && HasStatic(old(config).servers, s.mediaPool)
      ensures Next(World(old(config), clients), Add(name, s, startTime), World(config, clients))
    {
      if name in config.servers {
        return false;
      }
      var poolMembers := false;
      var left := config.servers.Keys;
      while left != {}
        invariant left <= config.servers.Keys
        invariant config == old(config)
        invariant poolMembers <==> HasStatic(config.servers - left, s.mediaPool)
        decreases left
      {
        var n :| n in left;
        StaticOneMore(config.servers, left, n, s.mediaPool);
        if !config.servers[n].dynamic && config.servers[n].mediaPool == s.mediaPool {
          poolMembers := true;
        }
        left := left - {n};
      }
      assert config.servers - left == config.servers;
      if !poolMembers {
        return false;
      }
      config := config.(servers := config.servers[name := s.(dynamic := true, poolAdded := startTime)]);
      ok := true;
    }

    /** True also if there is no such server. */
    method RmServer(name: string) returns (ok: bool)
      modifies this`config
      ensures ok <==> name !in config.servers
      ensures Next(World(old(config), clients), Remove(name), World(config, clients))
    {
      if name !in config.servers {
        return true;
      }
      if !config.servers[name].dynamic {
        return false;
      }
      var used := UsesServer(name);
      if used {
        return false;
      }
      config := config.(servers := config.servers - {name});
      ok := true;
    }

    method LoadConfig(file: File, now: Time) returns (ok: bool)
      modifies this`config
      ensures Loaded(old(config), clients, file, now, config, ok)
    {
      var oldConf := config;
      config := config.(userLimit := DEFAULT_USER_LIMIT, servers := map[]);
      match file {
        case Unreadable =>
          config := oldConf;
          return false;
        case Malformed(stored) =>
          config := stored;
          config := oldConf;
          return false;
        case Parsed(userLimit, defaultSrv, kickOnNewPool, defs) =>
          var servers := map n | n in defs ::
            Server(defs[n].addr, defs[n].mediaPool, defs[n].fallback, false, ZERO_TIME);
          config := Config(
            match userLimit case Some(x) => x case None => config.userLimit,
            match defaultSrv case Some(x) => x case None => config.defaultSrv,
            match kickOnNewPool case Some(x) => x case None => config.kickOnNewPool,
            servers);
          ok := TakeOverDynamic(oldConf, defs);
          if !ok {
            config := oldConf;
            return false;
          }
          ghost var taken := config.servers;
          NameDefaultPools();
          SetPoolAges(oldConf, now);
          MergedIntro(oldConf.servers, clients, defs, now, servers, taken, config.servers);
      }
    }

    /** The first loop: dynamic servers are kept; it stops at the first conflict. */
    method TakeOverDynamic(oldConf: Config, defs: map<string, ServerDef>) returns (ok: bool)
      requires config.servers.Keys == defs.Keys
      modifies this`config
      ensures ok <==> !Conflict(oldConf.servers, clients, defs)
      ensures config == old(config).(servers := config.servers)
      ensures ok ==> config.servers == old(config).servers + Dynamic(oldConf.servers, {})
    {
      var left := oldConf.servers.Keys;
      while left != {}
        invariant left <= oldConf.servers.Keys
        invariant config == old(config).(servers := config.servers)
        invariant config.servers == old(config).servers + Dynamic(oldConf.servers, left)
        invariant forall n :: n in oldConf.servers && n !in left ==> !Blocks(oldConf.servers, clients, defs, n)
        decreases left
      {
        var name :| name in left;
        var srv := oldConf.servers[name];
        if srv.dynamic {
          if name in config.servers {
            assert Blocks(oldConf.servers, clients, defs, name);
            return false;
          }
          config := config.(servers := config.servers[name := srv]);
        } else if name !in config.servers {
          var used := UsesServer(name);
          if used {
            assert Blocks(oldConf.servers, clients, defs, name);
            return false;
          }
        }
        left := left - {name};
      }
      ok := true;
    }

    method NameDefaultPools()
      modifies this`config
      ensures config == old(config).(servers := config.servers)
      ensures config.servers == map n | n in old(config).servers :: Normal(n, old(config).servers[n])
    {
      var left := config.servers.Keys;
      while left != {}
        invariant left <= old(config).servers.Keys == config.servers.Keys
        invariant config == old(config).(servers := config.servers)
        invariant forall n :: n in left ==> config.servers[n] == old(config).servers[n]
        invariant forall n :: n in config.servers && n !in left ==>
          config.servers[n] == Normal(n, old(config).servers[n])
        decreases left
      {
        var name :| name in left;
        var srv := config.servers[name];
        if srv.mediaPool == "" {
          config := config.(servers := config.servers[name := srv.(mediaPool := name)]);
        }
        left := left - {name};
      }
    }

    /** The last loop: new static servers get the age of their pool. */
    method SetPoolAges(oldConf: Config, now: Time)
      modifies this`config
      ensures config == old(config).(servers := config.servers)
      ensures config.servers.Keys == old(config).servers.Keys
      ensures forall n :: n in config.servers ==>
        Aged(oldConf.servers, n, old(config).servers[n], config.servers[n], now)
    {
      var oldPools := Pools(oldConf.servers);
      var left := config.servers.Keys;
      while left != {}
        invariant left <= old(config).servers.Keys == config.servers.Keys
        invariant config == old(config).(servers := config.servers)
        invariant forall n :: n in left ==> config.servers[n] == old(config).servers[n]
        invariant forall n :: n in config.servers && n !in left ==>
          Aged(oldConf.servers, n, old(config).servers[n], config.servers[n], now)
        decreases left
      {
        var name :| name in left;
        var srv := config.servers[name];
        if name !in oldConf.servers && !srv.dynamic {
          if srv.mediaPool in oldPools {
            var members := oldPools[srv.mediaPool];
            // the loop over the members leaves the age of whichever comes last
            var m :| m in members;
            srv := srv.(poolAdded := members[m].poolAdded);
            assert m in oldConf.servers && oldConf.servers[m].poolAdded == srv.poolAdded;
          } else {
            srv := srv.(poolAdded := now);
          }
          config := config.(servers := config.servers[name := srv]);
        }
        left := left - {name};
      }
    }

    /** A hop as far as the registry is concerned; the old connection is gone even if the new one cannot be made. */
    method HopRaw(c: ClientId, name: string, dialled: bool) returns (ok: bool)
      modifies this`clients
      ensures ok <==> c in old(clients) && MayHop(config.servers, old(clients)[c], name) && dialled
      ensures Next(World(config, old(clients)), HopTo(c, name, dialled), World(config, clients))
    {
      if c !in clients || clients[c].server == "" {
        return false;
      }
      if name !in config.servers {
        return false;
      }
      var newSrv := config.servers[name];
      if newSrv.mediaPool in clients[c].denyPools {
        return false;
      }
      if newSrv.poolAdded > clients[c].created {
        return false;
      }
      clients := clients[c := clients[c].(server := "")];
      if !dialled {
        return false;
      }
      clients := clients[c := clients[c].(server := name)];
      ok := true;
    }
  }
}
