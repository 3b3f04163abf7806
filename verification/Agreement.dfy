/** The agent's lists replayed by the controller: after a reconcile the proxy map, the routes
    table and DNS tell the same story. */
module Agreement {
  import opened Text
  import opened Backends
  import opened Hostnames
  import opened Leases
  import opened Views
  import opened LookupKeys
  import opened Storage
  import opened Controller
  import opened Resolve
  import opened Merge
  import Intents

  /** Claims come under normalised hostnames. */
  predicate CanonicalClaims(claims: seq<Claim>)
  {
    forall i :: 0 <= i < |claims| ==> IsCanonical(claims[i].host)
  }

  lemma {:induction false} LastRouteCanonical(claims: seq<Claim>, h: string)
    requires CanonicalClaims(claims) && LastRoute(claims, h).Some?
    ensures IsCanonical(h)
  {
    if claims[|claims| - 1].host != h {
      LastRouteCanonical(claims[..|claims| - 1], h);
    }
  }

  lemma {:induction false} HostEntriesMember(api: seq<Entry>, i: nat)
    requires i < |api|
    ensures HostEntries(api, api[i].hostname) != []
  {
    if i < |api| - 1 {
      HostEntriesMember(api[..|api| - 1], i);
    }
  }

  lemma MergedHostsCanonical(labels: seq<Claim>, intents: seq<Claim>, statics: seq<Claim>)
    requires CanonicalClaims(labels) && CanonicalClaims(intents) && CanonicalClaims(statics)
    ensures var m := Layers(labels, intents, statics);
            && (forall h :: h in m.local ==> IsCanonical(h))
            && (forall i :: 0 <= i < |m.api| ==> IsCanonical(m.api[i].hostname) && m.api[i].hostname in m.local)
  {
    var m := Layers(labels, intents, statics);
    MergeMeaning(labels, intents, statics);
    forall h | h in m.local
      ensures IsCanonical(h)
    {
      assert HostMerged(m, labels, intents, statics, h);
      if LastRoute(statics, h).Some? {
        LastRouteCanonical(statics, h);
      } else if LastRoute(intents, h).Some? {
        LastRouteCanonical(intents, h);
      } else {
        LastRouteCanonical(labels, h);
      }
    }
    forall i | 0 <= i < |m.api|
      ensures m.api[i].hostname in m.local
    {
      HostEntriesMember(m.api, i);
      assert HostMerged(m, labels, intents, statics, m.api[i].hostname);
    }
  }

  /** With lower-case hosts the last entry the controller reads for a host is the last one listed. */
  lemma {:induction false} LastForIsLastEntry(api: seq<Entry>, h: string)
    requires forall i :: 0 <= i < |api| ==> IsLower(api[i].hostname)
    ensures h in HostsOf(api) <==> HostEntries(api, h) != []
    ensures h in HostsOf(api) ==>
              var es := HostEntries(api, h); api[LastFor(api, h)] == es[|es| - 1]
  {
    if api != [] {
      var n := |api| - 1;
      LastForIsLastEntry(api[..n], h);
      HostsOfInit(api);
      LowerFacts(api[n].hostname);
      if HostOf(api[n]) != h && h in HostsOf(api) {
        assert LastFor(api, h) == LastFor(api[..n], h);
      }
    }
  }

  /** The entry the controller keeps for a host is the proxy's route for it. */
  lemma {:induction false} ReplayIsLocal(labels: seq<Claim>, intents: seq<Claim>, statics: seq<Claim>, h: string)
    requires CanonicalClaims(labels) && CanonicalClaims(intents) && CanonicalClaims(statics)
    ensures var m := Layers(labels, intents, statics);
            && (h in HostsOf(m.api) <==> h in m.local)
            && (h in m.local ==> m.api[LastFor(m.api, h)] == EntryOf(Claim(h, m.local[h])))
  {
    var m := Layers(labels, intents, statics);
    MergeMeaning(labels, intents, statics);
    MergedHostsCanonical(labels, intents, statics);
    assert HostMerged(m, labels, intents, statics, h);
    LastForIsLastEntry(m.api, h);
  }

  /** A canonical host is its own proxy key. */
  lemma CanonicalProxyKey(h: string)
    requires IsCanonical(h)
    ensures ProxyKey(h) == h
  {
    ValidSyntaxChars(h);
    SplitNone(h, ':');
    LowerFacts(h);
  }

  /** The PUT and the heartbeat of one reconcile, run by the controller one after the other. */
  function Reconciled(cfg: Config, s: State, id: string, credential: string, ip: string, m: Merged, put: nat, beat: nat): (r: State)
    requires cfg.ttl <= put && cfg.ttl <= beat
  {
    Step(cfg, Step(cfg, s, Controller.Put(id, credential, m.api), put), Controller.Heartbeat(id, credential, ip), beat)
  }

  /** The two handlers, when the PUT is let through. */
  lemma BothRun(cfg: Config, s: State, id: string, credential: string, ip: string, m: Merged, put: nat, beat: nat)
    requires cfg.ttl <= put && cfg.ttl <= beat && PutRuns(cfg, s.db, Controller.Put(id, credential, m.api))
    ensures var db := s.db.(routes := PutAt(s.db, id, cfg.ttl, m.api, put).routes);
            Reconciled(cfg, s, id, credential, ip, m, put, beat) == Controller.Refreshed(cfg, Beat(db, id, ip, beat), beat)
  {
    hide PutAt, DnsView;
  }

  /** An agent's row right after its heartbeat: DNS has its address for it, if that parses. */
  lemma AnsweredAfterBeat(db: Db, id: string, ip: string, beat: nat, ttl: nat, h: string)
    requires Enrolled(db, id) && Owns(db, id, h)
    ensures var dns := DnsView(Beat(db, id, ip, beat), beat, ttl);
            && (h in dns ==> Some(dns[h]) == ParseIpv4(ip))
            && (0 < ttl && ParseIpv4(ip).Some? ==> h in dns)
  {
    hide ParseIpv4, DnsView;
    DnsViewMeaning(Beat(db, id, ip, beat), beat, ttl, h);
  }

  /** The PUT of a merge: the agent's rows are its proxy map without the hosts in conflict. */
  lemma PutAgrees(db: Db, id: string, ttl: nat, labels: seq<Claim>, intents: seq<Claim>, statics: seq<Claim>, put: nat, h: string)
    requires CanonicalClaims(labels) && CanonicalClaims(intents) && CanonicalClaims(statics)
    ensures var m := Layers(labels, intents, statics);
            var r := db.(routes := PutAt(db, id, ttl, m.api, put).routes);
            && (Owns(r, id, h) <==> h in m.local && !Blocked(db.agents, db.routes, id, h, put, ttl))
            && (Owns(r, id, h) ==>
                  r.routes[h] == Row(id, BaseUrl(m.local[h].backend), m.local[h].containerId, m.local[h].containerName, put))
  {
    hide Layers;
    var m := Layers(labels, intents, statics);
    PutAtMeaning(db, id, ttl, m.api, put);
    ReplayIsLocal(labels, intents, statics, h);
  }

  /** After one full reconcile the rows this agent owns are exactly its proxy map without the
      hosts in conflict, field by field; and every name DNS answers from a row of this agent is
      one its proxy resolves, to the same route, while the address answered is the agent's. */
  lemma ReconcileAgrees(cfg: Config, s: State, id: string, credential: string, ip: string,
                        labels: seq<Claim>, intents: seq<Claim>, statics: seq<Claim>, put: nat, beat: nat, h: string)
    requires cfg.ttl <= put && cfg.ttl <= beat
    requires CanonicalClaims(labels) && CanonicalClaims(intents) && CanonicalClaims(statics)
    requires PutRuns(cfg, s.db, Controller.Put(id, credential, Layers(labels, intents, statics).api))
    ensures var m := Layers(labels, intents, statics);
            var r := Reconciled(cfg, s, id, credential, ip, m, put, beat);
            var conflict := Blocked(s.db.agents, s.db.routes, id, h, put, cfg.ttl);
            && (Owns(r.db, id, h) <==> h in m.local && !conflict)
            && (Owns(r.db, id, h) ==>
                  r.db.routes[h] == Row(id, BaseUrl(m.local[h].backend), m.local[h].containerId, m.local[h].containerName, put)
                  && Find(m.local, ProxyKey(h)) == Some(m.local[h]))
            && (Owns(r.db, id, h) && h in r.dns ==> Some(r.dns[h]) == ParseIpv4(ip))
            && (Owns(r.db, id, h) && 0 < cfg.ttl && ParseIpv4(ip).Some? ==> h in r.dns)
  {
    hide Layers, DnsView, ParseIpv4, PutAt, BaseUrl, ProxyKey;
    var m := Layers(labels, intents, statics);
    var db := s.db.(routes := PutAt(s.db, id, cfg.ttl, m.api, put).routes);
    BothRun(cfg, s, id, credential, ip, m, put, beat);
    PutAgrees(s.db, id, cfg.ttl, labels, intents, statics, put, h);
    if Owns(db, id, h) {
      MergedHostsCanonical(labels, intents, statics);
      CanonicalProxyKey(h);
      AnsweredAfterBeat(db, id, ip, beat, cfg.ttl, h);
    }
  }

  lemma CanonicalDnsKey(h: string)
    requires IsCanonical(h)
    ensures DnsKey(h) == h
  {
    LowerFacts(h);
  }

  /** The rows this agent owns are served by its proxy to the registered route, and DNS answers them
      with its address. */
  ghost predicate Served(cfg: Config, s: State, id: string, ip: string, routes: RouteStore, registry: DnsRegistry)
    reads routes, registry
  {
    forall h :: Owns(s.db, id, h) ==>
      && routes.Resolve(h).Some?
      && BaseUrl(routes.Resolve(h).value.backend) == s.db.routes[h].backend
      && (0 < cfg.ttl && ParseIpv4(ip).Some? ==> registry.LookupA(h) == ParseIpv4(ip))
  }

  lemma ServedOne(cfg: Config, s: State, id: string, credential: string, ip: string,
                  labels: seq<Claim>, intents: seq<Claim>, statics: seq<Claim>, put: nat, beat: nat, h: string)
    requires cfg.ttl <= put && cfg.ttl <= beat
    requires CanonicalClaims(labels) && CanonicalClaims(intents) && CanonicalClaims(statics)
    requires PutRuns(cfg, s.db, Controller.Put(id, credential, Layers(labels, intents, statics).api))
    requires Owns(Reconciled(cfg, s, id, credential, ip, Layers(labels, intents, statics), put, beat).db, id, h)
    ensures var m := Layers(labels, intents, statics);
            var r := Reconciled(cfg, s, id, credential, ip, m, put, beat);
            && h in m.local && Find(m.local, ProxyKey(h)) == Some(m.local[h])
            && BaseUrl(m.local[h].backend) == r.db.routes[h].backend
            && (0 < cfg.ttl && ParseIpv4(ip).Some? ==> Find(r.dns, DnsKey(h)) == ParseIpv4(ip))
  {
    ReconcileAgrees(cfg, s, id, credential, ip, labels, intents, statics, put, beat, h);
    MergedHostsCanonical(labels, intents, statics);
    CanonicalDnsKey(h);
  }

  /** `reconcile_once` past the listing of containers: merge, swap the proxy table, PUT, heartbeat.
      The proxy table is swapped even if the controller then refuses. */
  method ReconcileOnce(api: ControllerApi, routes: RouteStore, parse: ParseBackend, services: seq<Service>,
                       desired: Option<seq<Intent>>, statics: seq<PreparedRoute>,
                       id: string, credential: string, ip: string, put: nat, beat: nat) returns (ok: bool)
    requires api.cfg.ttl <= put && api.cfg.ttl <= beat
    modifies routes, api, api.storage, api.registry
    ensures var labels, intents, fixed := LabelClaims(services), DesiredClaims(parse, desired), StaticClaims(statics);
            var m := Layers(labels, intents, fixed);
            && routes.inner == m.local
            && ok == PutRuns(api.cfg, old(api.View()).db, Controller.Put(id, credential, m.api))
            && (!ok ==> api.View() == old(api.View()))
            && (ok ==> api.View() == Reconciled(api.cfg, old(api.View()), id, credential, ip, m, put, beat))
            && (ok && CanonicalClaims(labels) && CanonicalClaims(intents) && CanonicalClaims(fixed) ==>
                  Served(api.cfg, api.View(), id, ip, routes, api.registry))
  {
    ghost var s := api.View();
    ghost var labels, intents, fixed := LabelClaims(services), DesiredClaims(parse, desired), StaticClaims(statics);
    var m := MergeAll(parse, services, desired, statics);
    routes.Replace(m.local);
    var reply := api.HandlePut(id, credential, m.api, put);
    ok := reply.PutDone?;
    if ok {
      var beaten := api.HandleHeartbeat(id, credential, ip, beat);
      if CanonicalClaims(labels) && CanonicalClaims(intents) && CanonicalClaims(fixed) {
        forall h | Owns(api.View().db, id, h)
          ensures routes.Resolve(h).Some? && BaseUrl(routes.Resolve(h).value.backend) == api.View().db.routes[h].backend
          ensures 0 < api.cfg.ttl && ParseIpv4(ip).Some? ==> api.registry.LookupA(h) == ParseIpv4(ip)
        {
          ServedOne(api.cfg, s, id, credential, ip, labels, intents, fixed, put, beat, h);
        }
      }
    }
  }

  /** `refresh_local_routes` past the listing: what the proxy finds then, host by host. */
  method RefreshLocalRoutes(routes: RouteStore, services: seq<Service>, statics: seq<PreparedRoute>)
    modifies routes
    ensures forall h :: Lookup(routes.inner, h) == Winner(LabelClaims(services), [], StaticClaims(statics), h)
  {
    var local := RefreshLocal(services, statics);
    routes.Replace(local);
    forall h
      ensures Lookup(local, h) == Winner(LabelClaims(services), [], StaticClaims(statics), h)
    {
      RefreshMeaning(LabelClaims(services), StaticClaims(statics), h);
    }
  }

  // ---- Where the claims come from ----

  predicate AllCanonical(hosts: seq<string>)
  {
    forall i :: 0 <= i < |hosts| ==> IsCanonical(hosts[i])
  }

  lemma HostListCanonical(idna: Idna, raw: string)
    requires HostList(idna, raw).Some?
    ensures AllCanonical(HostList(idna, raw).value)
  {
    var parts, out := Split(raw, ','), HostList(idna, raw).value;
    var xs := NormalForms(idna, parts);
    FirstOccurrencesOrdered(xs);
    forall i | 0 <= i < |out|
      ensures IsCanonical(out[i])
    {
      var k := FirstIndex(xs, out[i]);
      NormalizeIsCanonical(idna, parts[k]);
    }
  }

  lemma {:induction false} GoodHostsCanonical(idna: Idna, hosts: seq<string>)
    ensures AllCanonical(GoodHosts(idna, hosts))
  {
    if hosts != [] {
      var n := |hosts| - 1;
      GoodHostsCanonical(idna, hosts[..n]);
      if Normalize(idna, hosts[n]).Some? {
        NormalizeIsCanonical(idna, hosts[n]);
      }
    }
  }

  /** The label's text that a container's hosts were read from. */
  ghost predicate FromLabel(idna: Idna, svc: Service)
  {
    exists raw :: HostList(idna, raw) == Some(svc.labels.hosts)
  }

  lemma {:induction false} LabelClaimsCanonical(idna: Idna, services: seq<Service>)
    requires forall i :: 0 <= i < |services| ==> FromLabel(idna, services[i])
    ensures CanonicalClaims(LabelClaims(services))
  {
    if services != [] {
      var svc := services[|services| - 1];
      LabelClaimsCanonical(idna, services[..|services| - 1]);
      var raw :| HostList(idna, raw) == Some(svc.labels.hosts);
      HostListCanonical(idna, raw);
    }
  }

  lemma {:induction false} IntentClaimsCanonical(parse: ParseBackend, desired: seq<Intent>)
    requires forall i :: 0 <= i < |desired| ==> AllCanonical(desired[i].hostnames)
    ensures CanonicalClaims(IntentClaims(parse, desired))
  {
    if desired != [] {
      IntentClaimsCanonical(parse, desired[..|desired| - 1]);
    }
  }

  lemma {:induction false} StaticClaimsCanonical(parse: ParseBackend, idna: Idna, entries: seq<StaticConfig>)
    ensures CanonicalClaims(StaticClaims(Prepare(parse, idna, entries)))
  {
    if entries != [] {
      var n := |entries| - 1;
      StaticClaimsCanonical(parse, idna, entries[..n]);
      GoodHostsCanonical(idna, entries[n].hosts);
      var p := Prepare(parse, idna, entries);
      if p != Prepare(parse, idna, entries[..n]) {
        assert p[..|p| - 1] == Prepare(parse, idna, entries[..n]);
      }
    }
  }

  /** An intent as the controller hands it out: a row of the enabled services. */
  ghost predicate FromTable(table: Intents.Table, d: Intent)
  {
    exists s :: s in table && d == Intent(table[s].hostnames, table[s].backend, table[s].containerName)
  }

  /** Label lists that parsed, rows of the enabled-services table and prepared static routes give
      claims under normalised hostnames, so a reconcile from them ends in agreement. */
  lemma {:induction false} SourcesAreCanonical(idna: Idna, parse: ParseBackend, policy: Policy, services: seq<Service>,
                            table: Intents.Table, desired: seq<Intent>, entries: seq<StaticConfig>)
    requires forall i :: 0 <= i < |services| ==> FromLabel(idna, services[i])
    requires Intents.HostsOk(policy, table) && forall i :: 0 <= i < |desired| ==> FromTable(table, desired[i])
    ensures CanonicalClaims(LabelClaims(services))
    ensures CanonicalClaims(IntentClaims(parse, desired))
    ensures CanonicalClaims(StaticClaims(Prepare(parse, idna, entries)))
  {
    LabelClaimsCanonical(idna, services);
    forall i | 0 <= i < |desired|
      ensures AllCanonical(desired[i].hostnames)
    {
      assert FromTable(table, desired[i]);
      var s :| s in table && desired[i] == Intent(table[s].hostnames, table[s].backend, table[s].containerName);
    }
    IntentClaimsCanonical(parse, desired);
    StaticClaimsCanonical(parse, idna, entries);
  }
}
