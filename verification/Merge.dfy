/** The agent's desired route set: labels, overridden by admin intents, overridden by static
    routes, kept in a proxy map and in the two lists sent to the controller. */
module Merge {
  import opened Text
  import opened Backends
  import opened Hostnames
  import opened Resolve
  import opened Leases

  datatype HeartbeatRef = HeartbeatRef(hostname: string, fingerprint: string)

  datatype Intent = Intent(hostnames: seq<string>, backend: string, containerName: Option<string>)

  datatype StaticConfig = StaticConfig(hosts: seq<string>, backend: string)

  datatype PreparedRoute = PreparedRoute(hosts: seq<string>, backend: Backend)

  /** `parse_backend_url`, whose URL parser is not part of this model. */
  type ParseBackend = string -> Option<Backend>

  datatype Merged = Merged(local: map<string, BackendRoute>, api: seq<Entry>, hb: seq<HeartbeatRef>)

  const EMPTY: Merged := Merged(map[], [], [])

  /** One layer's wish for one host. */
  datatype Claim = Claim(host: string, route: BackendRoute)

  function EntryOf(c: Claim): (e: Entry)
  {
    Entry(c.host, BaseUrl(c.route.backend), c.route.containerId, c.route.containerName)
  }

  function RefOf(c: Claim): (r: HeartbeatRef)
  {
    HeartbeatRef(c.host, Fingerprint(c.route.backend))
  }

  function Without(api: seq<Entry>, host: string): (r: seq<Entry>)
  {
    if api == [] then []
    else
      var n := |api| - 1;
      if api[n].hostname == host then Without(api[..n], host) else Without(api[..n], host) + [api[n]]
  }

  function WithoutRef(hb: seq<HeartbeatRef>, host: string): (r: seq<HeartbeatRef>)
  {
    if hb == [] then []
    else
      var n := |hb| - 1;
      if hb[n].hostname == host then WithoutRef(hb[..n], host) else WithoutRef(hb[..n], host) + [hb[n]]
  }

  function Add(m: Merged, c: Claim): (r: Merged)
  {
    Merged(m.local[c.host := c.route], m.api + [EntryOf(c)], m.hb + [RefOf(c)])
  }

  /** Earlier list entries for the host go before the new one is added. */
  function Override(m: Merged, c: Claim): (r: Merged)
  {
    if c.host in m.local then Add(Merged(m.local, Without(m.api, c.host), WithoutRef(m.hb, c.host)), c) else Add(m, c)
  }

  function AddAll(m: Merged, claims: seq<Claim>): (r: Merged)
  {
    if claims == [] then m else Add(AddAll(m, claims[..|claims| - 1]), claims[|claims| - 1])
  }

  function OverrideAll(m: Merged, claims: seq<Claim>): (r: Merged)
  {
    if claims == [] then m else Override(OverrideAll(m, claims[..|claims| - 1]), claims[|claims| - 1])
  }

  function Layers(labels: seq<Claim>, intents: seq<Claim>, statics: seq<Claim>): (r: Merged)
  {
    OverrideAll(OverrideAll(AddAll(EMPTY, labels), intents), statics)
  }

  // ---- The claims of each layer ----

  function ClaimsFor(hosts: seq<string>, route: BackendRoute): (r: seq<Claim>)
  {
    seq(|hosts|, i requires 0 <= i < |hosts| => Claim(hosts[i], route))
  }

  /** A container whose backend does not resolve claims nothing. */
  function ServiceClaims(svc: Service): (r: seq<Claim>)
  {
    match ResolveBackend(svc)
    case None => []
    case Some(b) => ClaimsFor(svc.labels.hosts, BackendRoute(b, Some(svc.containerId), Some(svc.containerName)))
  }

  function LabelClaims(services: seq<Service>): (r: seq<Claim>)
  {
    if services == [] then []
    else LabelClaims(services[..|services| - 1]) + ServiceClaims(services[|services| - 1])
  }

  function IntentName(d: Intent): (r: Option<string>)
  {
    if d.containerName.Some? then d.containerName else Some("enabled")
  }

  function OneIntentClaims(parse: ParseBackend, d: Intent): (r: seq<Claim>)
  {
    match parse(d.backend)
    case None => []
    case Some(b) => ClaimsFor(d.hostnames, BackendRoute(b, None, IntentName(d)))
  }

  function IntentClaims(parse: ParseBackend, desired: seq<Intent>): (r: seq<Claim>)
  {
    if desired == [] then []
    else IntentClaims(parse, desired[..|desired| - 1]) + OneIntentClaims(parse, desired[|desired| - 1])
  }

  function StaticRoute(sr: PreparedRoute): (r: BackendRoute)
  {
    BackendRoute(sr.backend, None, Some("static"))
  }

  function StaticClaims(statics: seq<PreparedRoute>): (r: seq<Claim>)
  {
    if statics == [] then []
    else
      var sr := statics[|statics| - 1];
      StaticClaims(statics[..|statics| - 1]) + ClaimsFor(sr.hosts, StaticRoute(sr))
  }

  lemma AddAllStep(m: Merged, claims: seq<Claim>, c: Claim)
    ensures AddAll(m, claims + [c]) == Add(AddAll(m, claims), c)
  {
    assert (claims + [c])[..|claims|] == claims;
  }

  lemma OverrideAllStep(m: Merged, claims: seq<Claim>, c: Claim)
    ensures OverrideAll(m, claims + [c]) == Override(OverrideAll(m, claims), c)
  {
    assert (claims + [c])[..|claims|] == claims;
  }

  lemma {:induction false} AddAllConcat(m: Merged, a: seq<Claim>, b: seq<Claim>)
    ensures AddAll(m, a + b) == AddAll(AddAll(m, a), b)
  {
    if b == [] {
      assert a + b == a;
    } else {
      var init, c := b[..|b| - 1], b[|b| - 1];
      assert b == init + [c] && a + b == a + init + [c];
      AddAllConcat(m, a, init);
      AddAllStep(m, a + init, c);
      AddAllStep(AddAll(m, a), init, c);
    }
  }

  lemma {:induction false} OverrideAllConcat(m: Merged, a: seq<Claim>, b: seq<Claim>)
    ensures OverrideAll(m, a + b) == OverrideAll(OverrideAll(m, a), b)
  {
    if b == [] {
      assert a + b == a;
    } else {
      var init, c := b[..|b| - 1], b[|b| - 1];
      assert b == init + [c] && a + b == a + init + [c];
      OverrideAllConcat(m, a, init);
      OverrideAllStep(m, a + init, c);
      OverrideAllStep(OverrideAll(m, a), init, c);
    }
  }

  lemma LabelStep(services: seq<Service>, i: nat)
    requires i < |services|
    ensures AddAll(EMPTY, LabelClaims(services[..i + 1])) ==
            AddAll(AddAll(EMPTY, LabelClaims(services[..i])), ServiceClaims(services[i]))
  {
    assert services[..i + 1][..i] == services[..i];
    AddAllConcat(EMPTY, LabelClaims(services[..i]), ServiceClaims(services[i]));
  }

  lemma IntentStep(parse: ParseBackend, base: Merged, ds: seq<Intent>, i: nat)
    requires i < |ds|
    ensures OverrideAll(base, IntentClaims(parse, ds[..i + 1])) ==
            OverrideAll(OverrideAll(base, IntentClaims(parse, ds[..i])), OneIntentClaims(parse, ds[i]))
  {
    assert ds[..i + 1][..i] == ds[..i];
    OverrideAllConcat(base, IntentClaims(parse, ds[..i]), OneIntentClaims(parse, ds[i]));
  }

  lemma StaticStep(m: Merged, statics: seq<PreparedRoute>, i: nat)
    requires i < |statics|
    ensures OverrideAll(m, StaticClaims(statics[..i + 1])) ==
            OverrideAll(OverrideAll(m, StaticClaims(statics[..i])), ClaimsFor(statics[i].hosts, StaticRoute(statics[i])))
    ensures |StaticClaims(statics[..i + 1])| == |StaticClaims(statics[..i])| + |statics[i].hosts|
  {
    assert statics[..i + 1][..i] == statics[..i];
    OverrideAllConcat(m, StaticClaims(statics[..i]), ClaimsFor(statics[i].hosts, StaticRoute(statics[i])));
  }

  lemma ClaimsForInit(hosts: seq<string>, route: BackendRoute, j: nat)
    requires j < |hosts|
    ensures ClaimsFor(hosts[..j + 1], route) == ClaimsFor(hosts[..j], route) + [Claim(hosts[j], route)]
  {
  }

  // ---- The code ----

  /** The hosts of a configured route that normalise. */
  function GoodHosts(idna: Idna, hosts: seq<string>): (r: seq<string>)
  {
    if hosts == [] then []
    else
      var n := Normalize(idna, hosts[|hosts| - 1]);
      GoodHosts(idna, hosts[..|hosts| - 1]) + (if n.Some? then [n.value] else [])
  }

  function Prepare(parse: ParseBackend, idna: Idna, entries: seq<StaticConfig>): (r: seq<PreparedRoute>)
  {
    if entries == [] then []
    else
      var e := entries[|entries| - 1];
      Prepare(parse, idna, entries[..|entries| - 1])
      + (if parse(e.backend).Some? && GoodHosts(idna, e.hosts) != []
         then [PreparedRoute(GoodHosts(idna, e.hosts), parse(e.backend).value)] else [])
  }

  predicate NormalAt(idna: Idna, hosts: seq<string>, j: int, h: string)
  {
    0 <= j < |hosts| && Normalize(idna, hosts[j]) == Some(h)
  }

  lemma {:induction false} GoodHostsMeaning(idna: Idna, hosts: seq<string>, h: string)
    ensures h in GoodHosts(idna, hosts) <==> exists j :: NormalAt(idna, hosts, j, h)
  {
    if hosts != [] {
      var n := |hosts| - 1;
      var init := hosts[..n];
      GoodHostsMeaning(idna, init, h);
      assert forall j :: 0 <= j < n ==> NormalAt(idna, init, j, h) == NormalAt(idna, hosts, j, h);
      assert NormalAt(idna, hosts, n, h) <==> Normalize(idna, hosts[n]) == Some(h);
      assert forall j :: NormalAt(idna, hosts, j, h) ==> j == n || NormalAt(idna, init, j, h);
    }
  }

  predicate PreparedFrom(parse: ParseBackend, idna: Idna, e: StaticConfig, p: PreparedRoute)
  {
    parse(e.backend) == Some(p.backend) && p.hosts == GoodHosts(idna, e.hosts) && p.hosts != []
  }

  predicate PreparedAt(parse: ParseBackend, idna: Idna, entries: seq<StaticConfig>, i: int, p: PreparedRoute)
  {
    0 <= i < |entries| && PreparedFrom(parse, idna, entries[i], p)
  }

  lemma {:induction false} PreparedMembers(parse: ParseBackend, idna: Idna, entries: seq<StaticConfig>, p: PreparedRoute)
    ensures p in Prepare(parse, idna, entries) <==> exists i :: PreparedAt(parse, idna, entries, i, p)
  {
    if entries != [] {
      var n := |entries| - 1;
      var init := entries[..n];
      PreparedMembers(parse, idna, init, p);
      assert forall i :: 0 <= i < n ==> PreparedAt(parse, idna, init, i, p) == PreparedAt(parse, idna, entries, i, p);
      assert PreparedAt(parse, idna, entries, n, p) <==> PreparedFrom(parse, idna, entries[n], p);
      assert forall i :: PreparedAt(parse, idna, entries, i, p) ==> i == n || PreparedAt(parse, idna, init, i, p);
    }
  }

  /** What survives preparation: the entries whose backend parses and of whose hosts at least one
      normalises, with just those hosts. */
  lemma {:induction false} PrepareMeaning(parse: ParseBackend, idna: Idna, entries: seq<StaticConfig>, p: PreparedRoute)
    ensures p in Prepare(parse, idna, entries) <==> exists i :: PreparedAt(parse, idna, entries, i, p)
    ensures p in Prepare(parse, idna, entries) ==>
              exists i :: PreparedAt(parse, idna, entries, i, p)
                          && forall h :: h in p.hosts <==> exists j :: NormalAt(idna, entries[i].hosts, j, h)
  {
    PreparedMembers(parse, idna, entries, p);
    if i :| PreparedAt(parse, idna, entries, i, p) {
      forall h
        ensures h in p.hosts <==> exists j :: NormalAt(idna, entries[i].hosts, j, h)
      {
        GoodHostsMeaning(idna, entries[i].hosts, h);
      }
    }
  }

  /** `prepare_static_routes`: bad hosts are dropped, and entries with a bad backend or no host left. */
  method PrepareStaticRoutes(parse: ParseBackend, idna: Idna, entries: seq<StaticConfig>) returns (out: seq<PreparedRoute>)
    ensures out == Prepare(parse, idna, entries)
  {
    out := [];
    var i := 0;
    while i < |entries|
      invariant 0 <= i <= |entries| && out == Prepare(parse, idna, entries[..i])
    {
      var e := entries[i];
      assert entries[..i + 1][..i] == entries[..i];
      var backend := parse(e.backend);
      if backend.Some? {
        var hosts: seq<string> := [];
        var j := 0;
        while j < |e.hosts|
          invariant 0 <= j <= |e.hosts| && hosts == GoodHosts(idna, e.hosts[..j])
        {
          assert e.hosts[..j + 1][..j] == e.hosts[..j];
          var n := Normalize(idna, e.hosts[j]);
          if n.Some? {
            hosts := hosts + [n.value];
          }
          j := j + 1;
        }
        assert e.hosts[..j] == e.hosts;
        if hosts != [] {
          out := out + [PreparedRoute(hosts, backend.value)];
        }
      }
      i := i + 1;
    }
    assert entries[..i] == entries;
  }

  /** `Vec::retain` on the two lists. */
  method Retain(api: seq<Entry>, hb: seq<HeartbeatRef>, host: string) returns (api': seq<Entry>, hb': seq<HeartbeatRef>)
    ensures api' == Without(api, host) && hb' == WithoutRef(hb, host)
  {
    api', hb' := [], [];
    var i := 0;
    while i < |api|
      invariant 0 <= i <= |api| && api' == Without(api[..i], host)
    {
      assert api[..i + 1][..i] == api[..i];
      if api[i].hostname != host {
        api' := api' + [api[i]];
      }
      i := i + 1;
    }
    assert api[..i] == api;
    i := 0;
    while i < |hb|
      invariant 0 <= i <= |hb| && hb' == WithoutRef(hb[..i], host)
    {
      assert hb[..i + 1][..i] == hb[..i];
      if hb[i].hostname != host {
        hb' := hb' + [hb[i]];
      }
      i := i + 1;
    }
    assert hb[..i] == hb;
  }

  /** The hosts of one container, added without looking for earlier claims. */
  method AddHosts(m: Merged, hosts: seq<string>, route: BackendRoute) returns (r: Merged)
    ensures r == AddAll(m, ClaimsFor(hosts, route))
  {
    var local, api, hb := m.local, m.api, m.hb;
    var url := BaseUrl(route.backend);
    var j := 0;
    while j < |hosts|
      invariant 0 <= j <= |hosts|
      invariant Merged(local, api, hb) == AddAll(m, ClaimsFor(hosts[..j], route))
    {
      var key := hosts[j];
      local := local[key := route];
      api := api + [Entry(key, url, route.containerId, route.containerName)];
      hb := hb + [HeartbeatRef(key, Fingerprint(route.backend))];
      ClaimsForInit(hosts, route, j);
      AddAllStep(m, ClaimsFor(hosts[..j], route), Claim(key, route));
      j := j + 1;
    }
    assert hosts[..j] == hosts;
    r := Merged(local, api, hb);
  }

  /** One host of an intent or static route; `was` tells whether it replaced something. */
  method OverrideHost(m: Merged, host: string, route: BackendRoute) returns (r: Merged, was: bool)
    ensures r == Override(m, Claim(host, route))
    ensures |r.local| == |m.local| + if was then 0 else 1
  {
    var api, hb := m.api, m.hb;
    was := host in m.local;
    if was {
      api, hb := Retain(api, hb, host);
      assert m.local[host := route].Keys == m.local.Keys;
    } else {
      assert m.local[host := route].Keys == m.local.Keys + {host};
    }
    r := Merged(m.local[host := route],
                api + [Entry(host, BaseUrl(route.backend), route.containerId, route.containerName)],
                hb + [HeartbeatRef(host, Fingerprint(route.backend))]);
  }

  /** The hosts of one intent or static route, each replacing what was there. */
  method OverrideHosts(m: Merged, hosts: seq<string>, route: BackendRoute) returns (r: Merged, overridden: nat)
    ensures r == OverrideAll(m, ClaimsFor(hosts, route))
    ensures |r.local| == |m.local| + |hosts| - overridden
  {
    r, overridden := m, 0;
    var j := 0;
    while j < |hosts|
      invariant 0 <= j <= |hosts|
      invariant r == OverrideAll(m, ClaimsFor(hosts[..j], route))
      invariant |r.local| == |m.local| + j - overridden
    {
      var was;
      r, was := OverrideHost(r, hosts[j], route);
      if was {
        overridden := overridden + 1;
      }
      ClaimsForInit(hosts, route, j);
      OverrideAllStep(m, ClaimsFor(hosts[..j], route), Claim(hosts[j], route));
      j := j + 1;
    }
    assert hosts[..j] == hosts;
  }

  /** `apply_static_routes`. The counts account for the size of the proxy map. */
  method ApplyStaticRoutes(m: Merged, statics: seq<PreparedRoute>) returns (r: Merged, written: nat, overridden: nat)
    ensures r == OverrideAll(m, StaticClaims(statics))
    ensures written == |StaticClaims(statics)|
    ensures |r.local| == |m.local| + written - overridden
  {
    r, written, overridden := m, 0, 0;
    var i := 0;
    while i < |statics|
      invariant 0 <= i <= |statics|
      invariant r == OverrideAll(m, StaticClaims(statics[..i]))
      invariant written == |StaticClaims(statics[..i])|
      invariant |r.local| == |m.local| + written - overridden
    {
      var more;
      r, more := OverrideHosts(r, statics[i].hosts, StaticRoute(statics[i]));
      overridden := overridden + more;
      written := written + |statics[i].hosts|;
      StaticStep(m, statics, i);
      i := i + 1;
    }
    assert statics[..i] == statics;
  }

  /** The label layer, from the containers in the order listed. */
  method AddServices(services: seq<Service>) returns (r: Merged)
    ensures r == AddAll(EMPTY, LabelClaims(services))
  {
    r := EMPTY;
    var i := 0;
    while i < |services|
      invariant 0 <= i <= |services|
      invariant r == AddAll(EMPTY, LabelClaims(services[..i]))
    {
      var svc := services[i];
      LabelStep(services, i);
      var backend := ResolveBackend(svc);
      if backend.Some? {
        r := AddHosts(r, svc.labels.hosts, BackendRoute(backend.value, Some(svc.containerId), Some(svc.containerName)));
      }
      i := i + 1;
    }
    assert services[..i] == services;
  }

  /** The intent layer; an intent whose backend does not parse is skipped. */
  method OverrideIntents(parse: ParseBackend, base: Merged, ds: seq<Intent>) returns (r: Merged)
    ensures r == OverrideAll(base, IntentClaims(parse, ds))
  {
    r := base;
    var i := 0;
    while i < |ds|
      invariant 0 <= i <= |ds|
      invariant r == OverrideAll(base, IntentClaims(parse, ds[..i]))
    {
      IntentStep(parse, base, ds, i);
      var backend := parse(ds[i].backend);
      if backend.Some? {
        var n;
        r, n := OverrideHosts(r, ds[i].hostnames, BackendRoute(backend.value, None, IntentName(ds[i])));
      }
      i := i + 1;
    }
    assert ds[..i] == ds;
  }

  function DesiredClaims(parse: ParseBackend, desired: Option<seq<Intent>>): (r: seq<Claim>)
  {
    if desired.Some? then IntentClaims(parse, desired.value) else []
  }

  /** The merge of `reconcile_once`; without an answer from the controller there are no intents. */
  method MergeAll(parse: ParseBackend, services: seq<Service>, desired: Option<seq<Intent>>, statics: seq<PreparedRoute>)
    returns (r: Merged)
    ensures r == Layers(LabelClaims(services), DesiredClaims(parse, desired), StaticClaims(statics))
  {
    r := AddServices(services);
    if desired.Some? {
      r := OverrideIntents(parse, r, desired.value);
    }
    var written, overridden;
    r, written, overridden := ApplyStaticRoutes(r, statics);
  }

  /** `refresh_local_routes`: what the proxy serves after a failed reconcile. */
  method RefreshLocal(services: seq<Service>, statics: seq<PreparedRoute>) returns (local: map<string, BackendRoute>)
    ensures local == Refreshed(LabelClaims(services), StaticClaims(statics))
  {
    var m := AddServices(services);
    var r, written, overridden := ApplyStaticRoutes(Merged(m.local, [], []), statics);
    local := r.local;
  }

  // ---- What the merge means ----

  function LastRoute(claims: seq<Claim>, h: string): (r: Option<BackendRoute>)
  {
    if claims == [] then None
    else
      var c := claims[|claims| - 1];
      if c.host == h then Some(c.route) else LastRoute(claims[..|claims| - 1], h)
  }

  /** The list entries of one host, in order. */
  function HostEntries(api: seq<Entry>, h: string): (r: seq<Entry>)
  {
    if api == [] then []
    else
      var e := api[|api| - 1];
      HostEntries(api[..|api| - 1], h) + (if e.hostname == h then [e] else [])
  }

  function EntriesFor(claims: seq<Claim>, h: string): (r: seq<Entry>)
  {
    if claims == [] then []
    else
      var c := claims[|claims| - 1];
      EntriesFor(claims[..|claims| - 1], h) + (if c.host == h then [EntryOf(c)] else [])
  }

  function Lookup(local: map<string, BackendRoute>, h: string): (r: Option<BackendRoute>)
  {
    if h in local then Some(local[h]) else None
  }

  /** The heartbeat list says, place by place, what the route list says. */
  function RefsOf(api: seq<Entry>): (r: seq<HeartbeatRef>)
  {
    seq(|api|, i requires 0 <= i < |api| => HeartbeatRef(api[i].hostname, api[i].backend))
  }

  lemma HostEntriesAppend(api: seq<Entry>, e: Entry, h: string)
    ensures HostEntries(api + [e], h) == HostEntries(api, h) + (if e.hostname == h then [e] else [])
  {
    assert (api + [e])[..|api|] == api;
  }

  lemma {:induction false} HostEntriesWithout(api: seq<Entry>, g: string, h: string)
    ensures HostEntries(Without(api, g), h) == if h == g then [] else HostEntries(api, h)
  {
    if api != [] {
      var n := |api| - 1;
      HostEntriesWithout(api[..n], g, h);
      HostEntriesAppend(Without(api[..n], g), api[n], h);
    }
  }

  lemma {:induction false} WithoutInStep(api: seq<Entry>, g: string)
    ensures WithoutRef(RefsOf(api), g) == RefsOf(Without(api, g))
  {
    if api != [] {
      var n := |api| - 1;
      WithoutInStep(api[..n], g);
      assert RefsOf(api)[..n] == RefsOf(api[..n]);
      assert RefsOf(Without(api[..n], g) + [api[n]]) == RefsOf(Without(api[..n], g)) + [RefsOf([api[n]])[0]];
    }
  }

  lemma AddInStep(m: Merged, c: Claim)
    requires m.hb == RefsOf(m.api)
    ensures Add(m, c).hb == RefsOf(Add(m, c).api)
  {
    FingerprintIdentifies(c.route.backend, c.route.backend);
  }

  /** How one host stands after the label layer. */
  predicate LabelState(m: Merged, labels: seq<Claim>, h: string)
  {
    Lookup(m.local, h) == LastRoute(labels, h) && HostEntries(m.api, h) == EntriesFor(labels, h)
  }

  lemma {:induction false} AddAllMeaning(labels: seq<Claim>)
    ensures var m := AddAll(EMPTY, labels);
            m.hb == RefsOf(m.api) && forall h :: LabelState(m, labels, h)
  {
    if labels != [] {
      var n, c := |labels| - 1, labels[|labels| - 1];
      AddAllMeaning(labels[..n]);
      var m := AddAll(EMPTY, labels[..n]);
      AddInStep(m, c);
      forall h
        ensures LabelState(AddAll(EMPTY, labels), labels, h)
      {
        assert LabelState(m, labels[..n], h);
        HostEntriesAppend(m.api, EntryOf(c), h);
      }
    }
  }

  /** How one host stands when overriding claims have been applied to `m`. */
  predicate OverrideState(m: Merged, over: seq<Claim>, r: Merged, h: string)
  {
    match LastRoute(over, h)
    case None => Lookup(r.local, h) == Lookup(m.local, h) && HostEntries(r.api, h) == HostEntries(m.api, h)
    case Some(route) => Lookup(r.local, h) == Some(route) && HostEntries(r.api, h) == [EntryOf(Claim(h, route))]
  }

  /** A host is in the map just when it is in the route list. */
  predicate SameHosts(m: Merged, h: string)
  {
    h in m.local <==> HostEntries(m.api, h) != []
  }

  lemma OverrideOne(m: Merged, c: Claim, h: string)
    requires SameHosts(m, h)
    ensures var r := Override(m, c);
            && Lookup(r.local, h) == (if h == c.host then Some(c.route) else Lookup(m.local, h))
            && HostEntries(r.api, h) == (if h == c.host then [EntryOf(c)] else HostEntries(m.api, h))
  {
    HostEntriesWithout(m.api, c.host, h);
    HostEntriesAppend(m.api, EntryOf(c), h);
    HostEntriesAppend(Without(m.api, c.host), EntryOf(c), h);
  }

  lemma {:induction false} OverrideAllMeaning(m: Merged, over: seq<Claim>)
    requires m.hb == RefsOf(m.api) && forall h :: SameHosts(m, h)
    ensures var r := OverrideAll(m, over);
            r.hb == RefsOf(r.api) && forall h :: OverrideState(m, over, r, h) && SameHosts(r, h)
  {
    if over != [] {
      var n, c := |over| - 1, over[|over| - 1];
      OverrideAllMeaning(m, over[..n]);
      var r := OverrideAll(m, over[..n]);
      WithoutInStep(r.api, c.host);
      AddInStep(r, c);
      AddInStep(Merged(r.local, Without(r.api, c.host), WithoutRef(r.hb, c.host)), c);
      forall h
        ensures OverrideState(m, over, OverrideAll(m, over), h) && SameHosts(OverrideAll(m, over), h)
      {
        assert OverrideState(m, over[..n], r, h) && SameHosts(r, h);
        OverrideOne(r, c, h);
      }
    }
  }

  lemma {:induction false} EntriesForLast(claims: seq<Claim>, h: string)
    ensures EntriesFor(claims, h) == [] <==> LastRoute(claims, h).None?
    ensures LastRoute(claims, h).Some? ==>
              var es := EntriesFor(claims, h); es[|es| - 1] == EntryOf(Claim(h, LastRoute(claims, h).value))
  {
    if claims != [] {
      EntriesForLast(claims[..|claims| - 1], h);
    }
  }

  /** The route of the last layer that claims the host; within a layer, of its last claim. */
  function Winner(labels: seq<Claim>, intents: seq<Claim>, statics: seq<Claim>, h: string): (r: Option<BackendRoute>)
  {
    if LastRoute(statics, h).Some? then LastRoute(statics, h)
    else if LastRoute(intents, h).Some? then LastRoute(intents, h)
    else LastRoute(labels, h)
  }

  /** Everything about one host after the merge: the map holds the winner; the route list holds
      its one entry if an intent or a static route claims it, and otherwise all its label entries,
      of which the last describes the winner. */
  predicate HostMerged(m: Merged, labels: seq<Claim>, intents: seq<Claim>, statics: seq<Claim>, h: string)
  {
    var es := HostEntries(m.api, h);
    && Lookup(m.local, h) == Winner(labels, intents, statics, h)
    && (h in m.local <==> es != [])
    && (h in m.local ==> es[|es| - 1] == EntryOf(Claim(h, m.local[h])))
    && (if LastRoute(intents, h).Some? || LastRoute(statics, h).Some? then |es| == 1 else es == EntriesFor(labels, h))
  }

  lemma HostThroughLayers(labels: seq<Claim>, intents: seq<Claim>, statics: seq<Claim>,
                          m1: Merged, m2: Merged, m3: Merged, h: string)
    requires LabelState(m1, labels, h) && OverrideState(m1, intents, m2, h) && OverrideState(m2, statics, m3, h)
    ensures HostMerged(m3, labels, intents, statics, h)
  {
    EntriesForLast(labels, h);
  }

  /** The three structures stay in step through all layers. */
  lemma MergeMeaning(labels: seq<Claim>, intents: seq<Claim>, statics: seq<Claim>)
    ensures Layers(labels, intents, statics).hb == RefsOf(Layers(labels, intents, statics).api)
    ensures forall h :: HostMerged(Layers(labels, intents, statics), labels, intents, statics, h)
  {
    var m1 := AddAll(EMPTY, labels);
    var m2 := OverrideAll(m1, intents);
    var m3 := OverrideAll(m2, statics);
    AddAllMeaning(labels);
    forall h
      ensures SameHosts(m1, h)
    {
      assert LabelState(m1, labels, h);
      EntriesForLast(labels, h);
    }
    OverrideAllMeaning(m1, intents);
    OverrideAllMeaning(m2, statics);
    forall h
      ensures HostMerged(m3, labels, intents, statics, h)
    {
      assert LabelState(m1, labels, h);
      assert OverrideState(m1, intents, m2, h);
      assert OverrideState(m2, statics, m3, h);
      HostThroughLayers(labels, intents, statics, m1, m2, m3, h);
    }
  }

  // ---- After a failed reconcile ----

  lemma {:induction false} AddAllLocal(m: Merged, claims: seq<Claim>, h: string)
    ensures Lookup(AddAll(m, claims).local, h) ==
            if LastRoute(claims, h).Some? then LastRoute(claims, h) else Lookup(m.local, h)
  {
    if claims != [] {
      AddAllLocal(m, claims[..|claims| - 1], h);
    }
  }

  lemma {:induction false} OverrideAllLocal(m: Merged, claims: seq<Claim>, h: string)
    ensures Lookup(OverrideAll(m, claims).local, h) ==
            if LastRoute(claims, h).Some? then LastRoute(claims, h) else Lookup(m.local, h)
  {
    if claims != [] {
      OverrideAllLocal(m, claims[..|claims| - 1], h);
    }
  }

  /** The proxy map a refresh installs. */
  function Refreshed(labels: seq<Claim>, statics: seq<Claim>): (r: map<string, BackendRoute>)
  {
    OverrideAll(AddAll(EMPTY, labels).(api := [], hb := []), statics).local
  }

  /** A refresh serves labels overridden by static routes: admin intents are left out. */
  lemma RefreshMeaning(labels: seq<Claim>, statics: seq<Claim>, h: string)
    ensures Lookup(Refreshed(labels, statics), h) == Winner(labels, [], statics, h)
  {
    AddAllLocal(EMPTY, labels, h);
    OverrideAllLocal(AddAll(EMPTY, labels).(api := [], hb := []), statics, h);
  }

  /** A host that only an intent claims is served after a reconcile and gone after the refresh
      that follows a failed one. */
  lemma RefreshDropsIntent(b: Backend)
    ensures var route := BackendRoute(b, None, Some("enabled"));
            && Layers([], [Claim("app.internal", route)], []).local == map["app.internal" := route]
            && Refreshed([], []) == map[]
  {
    var claim := Claim("app.internal", BackendRoute(b, None, Some("enabled")));
    OverrideAllStep(EMPTY, [], claim);
    assert [] + [claim] == [claim];
  }

  /** No host depends on an intent: each one an intent claims is claimed by a static route too,
      or its last intent says what the labels say. */
  ghost predicate IntentsRedundant(labels: seq<Claim>, intents: seq<Claim>, statics: seq<Claim>)
  {
    forall h :: LastRoute(intents, h).Some? && LastRoute(statics, h).None? ==> LastRoute(intents, h) == LastRoute(labels, h)
  }

  /** The refresh after a failed reconcile keeps the routes the proxy was serving exactly when no
      host depends on an intent. */
  lemma RefreshKeepsRoutesExactly(labels: seq<Claim>, intents: seq<Claim>, statics: seq<Claim>)
    ensures Refreshed(labels, statics) == Layers(labels, intents, statics).local <==>
            IntentsRedundant(labels, intents, statics)
  {
    var m, r := Layers(labels, intents, statics).local, Refreshed(labels, statics);
    forall h
      ensures Lookup(m, h) == Winner(labels, intents, statics, h) && Lookup(r, h) == Winner(labels, [], statics, h)
    {
      MergeMeaning(labels, intents, statics);
      assert HostMerged(Layers(labels, intents, statics), labels, intents, statics, h);
      RefreshMeaning(labels, statics, h);
    }
    if IntentsRedundant(labels, intents, statics) {
      forall h
        ensures (h in m <==> h in r) && (h in m ==> m[h] == r[h])
      {
        assert Lookup(m, h) == Lookup(r, h);
      }
      assert m == r;
    }
    if m == r {
      forall h | LastRoute(intents, h).Some? && LastRoute(statics, h).None?
        ensures LastRoute(intents, h) == LastRoute(labels, h)
      {
        assert Lookup(m, h) == Lookup(r, h);
      }
    }
  }
}
