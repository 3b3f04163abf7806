/** The controller's handlers as atomic protocol steps, and what holds over every serial run. */
module Controller {
  import opened Text
  import opened Hostnames
  import opened Leases
  import opened Views
  import opened Storage
  import opened LookupKeys

  datatype Config = Config(ttl: nat, policy: Policy)

  /** The tables, the published DNS registry and the time of its last refresh. */
  datatype State = State(db: Db, dns: map<string, Ipv4>, refreshedAt: nat)

  datatype Event =
    | CreateToken(token: string)
    | Enroll(token: string, id: string, name: string, ip: string, credential: string)
    | Heartbeat(id: string, credential: string, ip: string)
    | Put(id: string, credential: string, entries: seq<Entry>)
    | Delete(host: string)
    | RevokeAgent(id: string)
    | Cleanup

  function Refreshed(cfg: Config, db: Db, now: nat): (s: State)
  {
    State(db, DnsView(db, now, cfg.ttl), now)
  }

  predicate AllAllowed(cfg: Config, entries: seq<Entry>)
  {
    forall i :: 0 <= i < |entries| ==> Allowed(cfg.policy, entries[i].hostname)
  }

  /** The PUT passes authentication and policy. */
  predicate PutRuns(cfg: Config, db: Db, ev: Event)
  {
    ev.Put? && Authorized(db, ev.id, ev.credential) && AllAllowed(cfg, ev.entries)
  }

  /** What the handler makes of the tables. */
  function TablesAfter(cfg: Config, db: Db, ev: Event, now: nat): (r: Db)
    requires cfg.ttl <= now
  {
    match ev
    case CreateToken(token) => AddToken(db, token)
    case Enroll(token, id, name, ip, credential) =>
      if TokenUsable(db, token) then AddAgent(UseToken(db, token), id, name, ip, credential, now) else db
    case Heartbeat(id, credential, ip) => if Authorized(db, id, credential) then Beat(db, id, ip, now) else db
    case Put(id, _, entries) =>
      if PutRuns(cfg, db, ev) then db.(routes := PutAt(db, id, cfg.ttl, entries, now).routes) else db
    case Delete(host) => DropRoute(db, host)
    case RevokeAgent(id) => Revoke(db, id)
    case Cleanup => Purge(db, now - cfg.ttl)
  }

  /** The handler ends with a refresh. */
  predicate Refreshes(cfg: Config, db: Db, ev: Event)
  {
    match ev
    case CreateToken(_) => false
    case Enroll(_, _, _, _, _) => false
    case Heartbeat(id, credential, _) => Authorized(db, id, credential)
    case Put(_, _, _) => PutRuns(cfg, db, ev)
    case _ => true
  }

  function Step(cfg: Config, s: State, ev: Event, now: nat): (r: State)
    requires cfg.ttl <= now
  {
    var db := TablesAfter(cfg, s.db, ev, now);
    if Refreshes(cfg, s.db, ev) then Refreshed(cfg, db, now) else s.(db := db)
  }

  // ---- The handlers ----

  datatype Reply = Unauthorized | Forbidden | StorageError | Done | PutDone(accepted: seq<string>, conflicts: seq<Conflict>)

  class ControllerApi {
    const cfg: Config
    const storage: Store
    const registry: DnsRegistry
    ghost var refreshedAt: nat

    ghost function View(): (s: State)
      reads this, storage, registry
    {
      State(storage.View(), registry.inner, refreshedAt)
    }

    constructor (cfg: Config)
      ensures this.cfg == cfg && fresh(storage) && fresh(registry)
      ensures View().db == Db(map[], map[], map[]) && View().dns == map[]
    {
      this.cfg := cfg;
      this.storage := new Store();
      this.registry := new DnsRegistry();
      refreshedAt := 0;
    }

    /** Reads the active routes and publishes those whose address parses. */
    method RefreshDns(now: nat)
      modifies this, registry
      ensures View() == Refreshed(cfg, old(storage.View()), now)
    {
      var routes := storage.ActiveDnsRoutes(cfg.ttl, now);
      ghost var active := ActiveRoutes(storage.View(), now, cfg.ttl);
      var m: map<string, Ipv4> := map[];
      var i := 0;
      while i < |routes|
        invariant 0 <= i <= |routes|
        invariant forall h :: h in m <==> exists k :: 0 <= k < i && routes[k].hostname == h && ParseIpv4(routes[k].ip).Some?
        invariant forall h :: h in m ==> h in active && Some(m[h]) == ParseIpv4(active[h])
      {
        var r := routes[i];
        assert DnsRoute(r.hostname, r.ip) in routes;
        var ip := ParseIpv4(r.ip);
        if ip.Some? {
          m := m[r.hostname := ip.value];
        }
        i := i + 1;
      }
      assert m == DnsView(storage.View(), now, cfg.ttl) by {
        forall h
          ensures h in m <==> h in DnsView(storage.View(), now, cfg.ttl)
        {
          if h in active && ParseIpv4(active[h]).Some? {
            assert DnsRoute(h, active[h]) in routes;
          }
          if h in m {
            var k :| 0 <= k < |routes| && routes[k].hostname == h && ParseIpv4(routes[k].ip).Some?;
            assert DnsRoute(routes[k].hostname, routes[k].ip) in routes;
          }
        }
      }
      registry.Replace(m);
      refreshedAt := now;
    }

    method HandleCreateToken(token: string, now: nat) returns (r: Reply)
      requires cfg.ttl <= now
      modifies storage
      ensures View() == Step(cfg, old(View()), CreateToken(token), now)
      ensures r == if token in old(View()).db.tokens then StorageError else Done
    {
      var ok := storage.CreateEnrollmentToken(token);
      r := if ok then Done else StorageError;
    }

    method HandleEnroll(token: string, id: string, name: string, ip: string, credential: string, now: nat) returns (r: Reply)
      requires cfg.ttl <= now
      modifies storage
      ensures View() == Step(cfg, old(View()), Enroll(token, id, name, ip, credential), now)
      ensures r == (if !TokenUsable(old(View()).db, token) then Unauthorized
                    else if id in old(View()).db.agents then StorageError else Done)
    {
      var ok := storage.ConsumeEnrollmentToken(token);
      if !ok {
        return Unauthorized;
      }
      var added := storage.EnrollAgent(id, name, ip, credential, now);
      r := if added then Done else StorageError;
    }

    method HandleHeartbeat(id: string, credential: string, ip: string, now: nat) returns (r: Reply)
      requires cfg.ttl <= now
      modifies this, storage, registry
      ensures View() == Step(cfg, old(View()), Heartbeat(id, credential, ip), now)
      ensures r == (if Authorized(old(View()).db, id, credential) then Done else Unauthorized)
      ensures id !in old(View()).db.agents || old(View()).db.agents[id].credential != credential ==>
                r == Unauthorized && View() == old(View())
    {
      hide DnsView;
      var ok := storage.VerifyAgentToken(id, credential);
      if !ok {
        return Unauthorized;
      }
      var beaten := storage.Heartbeat(id, ip, now);
      RefreshDns(now);
      r := Done;
    }

    method HandlePut(id: string, credential: string, entries: seq<Entry>, now: nat) returns (r: Reply)
      requires cfg.ttl <= now
      modifies this, storage, registry
      ensures View() == Step(cfg, old(View()), Put(id, credential, entries), now)
      ensures id !in old(View()).db.agents || old(View()).db.agents[id].credential != credential ==>
                r == Unauthorized && View() == old(View())
      ensures r == (if !Authorized(old(View()).db, id, credential) then Unauthorized
                    else if !AllAllowed(cfg, entries) then Forbidden
                    else var p := PutAt(old(View()).db, id, cfg.ttl, entries, now); PutDone(p.accepted, p.conflicts))
    {
      hide DnsView;
      var ok := storage.VerifyAgentToken(id, credential);
      if !ok {
        return Unauthorized;
      }
      var i := 0;
      while i < |entries|
        invariant 0 <= i <= |entries|
        invariant forall k :: 0 <= k < i ==> Allowed(cfg.policy, entries[k].hostname)
      {
        if !Allowed(cfg.policy, entries[i].hostname) {
          return Forbidden;
        }
        i := i + 1;
      }
      var out := storage.PutRoutes(id, entries, cfg.ttl, Always(|entries|, now));
      RefreshDns(now);
      r := PutDone(out.accepted, out.conflicts);
    }

    method HandleDelete(host: string, now: nat)
      requires cfg.ttl <= now
      modifies this, storage, registry
      ensures View() == Step(cfg, old(View()), Delete(host), now)
    {
      hide DnsView;
      storage.DeleteRoute(host);
      RefreshDns(now);
    }

    method HandleRevoke(id: string, now: nat)
      requires cfg.ttl <= now
      modifies this, storage, registry
      ensures View() == Step(cfg, old(View()), RevokeAgent(id), now)
    {
      hide DnsView;
      storage.RevokeAgent(id);
      RefreshDns(now);
    }

    /** One turn of the cleanup task. */
    method CleanupTick(now: nat)
      requires cfg.ttl <= now
      modifies this, storage, registry
      ensures View() == Step(cfg, old(View()), Cleanup, now)
    {
      hide StaleAgents, DnsView;
      var deleted := storage.PurgeExpiredAgents(cfg.ttl, now);
      assert storage.View() == TablesAfter(cfg, old(storage.View()), Cleanup, now);
      RefreshDns(now);
    }
  }
}
