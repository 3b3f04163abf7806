/** Whose wish it is: what the claims of each layer come from, and who wins a host in the end. */
module Claims {
  import opened Text
  import opened Backends
  import opened Resolve
  import opened Merge

  // ---- Labels ----

  /** Claim `c` is container `i`'s for its label's host `j`. */
  predicate LabelClaimAt(services: seq<Service>, i: int, j: int, c: Claim)
  {
    && 0 <= i < |services| && 0 <= j < |services[i].labels.hosts|
    && c.host == services[i].labels.hosts[j]
    && ResolveBackend(services[i]) == Some(c.route.backend)
    && c.route.containerId == Some(services[i].containerId)
    && c.route.containerName == Some(services[i].containerName)
  }

  /** The container asks for the host with this route. */
  predicate LabelAsks(svc: Service, h: string, r: BackendRoute)
  {
    && h in svc.labels.hosts
    && ResolveBackend(svc) == Some(r.backend)
    && r.containerId == Some(svc.containerId) && r.containerName == Some(svc.containerName)
  }

  /** Container `i` asks for the host and no later one that resolves does. */
  predicate LabelWins(services: seq<Service>, i: int, h: string, r: BackendRoute)
  {
    && 0 <= i < |services| && LabelAsks(services[i], h, r)
    && forall k :: i < k < |services| ==> !(h in services[k].labels.hosts && ResolveBackend(services[k]).Some?)
  }

  // ---- Intents ----

  predicate IntentClaimAt(parse: ParseBackend, ds: seq<Intent>, i: int, j: int, c: Claim)
  {
    && 0 <= i < |ds| && 0 <= j < |ds[i].hostnames|
    && c.host == ds[i].hostnames[j]
    && parse(ds[i].backend) == Some(c.route.backend)
    && c.route.containerId == None
    && c.route.containerName == (if ds[i].containerName.Some? then ds[i].containerName else Some("enabled"))
  }

  predicate IntentAsks(parse: ParseBackend, d: Intent, h: string, r: BackendRoute)
  {
    && h in d.hostnames
    && parse(d.backend) == Some(r.backend)
    && r.containerId == None && r.containerName == (if d.containerName.Some? then d.containerName else Some("enabled"))
  }

  predicate IntentWins(parse: ParseBackend, ds: seq<Intent>, i: int, h: string, r: BackendRoute)
  {
    && 0 <= i < |ds| && IntentAsks(parse, ds[i], h, r)
    && forall k :: i < k < |ds| ==> !(h in ds[k].hostnames && parse(ds[k].backend).Some?)
  }

  // ---- Static routes ----

  predicate StaticClaimAt(statics: seq<PreparedRoute>, i: int, j: int, c: Claim)
  {
    && 0 <= i < |statics| && 0 <= j < |statics[i].hosts|
    && c.host == statics[i].hosts[j]
    && c.route == BackendRoute(statics[i].backend, None, Some("static"))
  }

  predicate StaticWins(statics: seq<PreparedRoute>, i: int, h: string, r: BackendRoute)
  {
    && 0 <= i < |statics| && h in statics[i].hosts
    && r == BackendRoute(statics[i].backend, None, Some("static"))
    && forall k :: i < k < |statics| ==> h !in statics[k].hosts
  }

  // ---- Membership ----

  lemma ClaimsForMember(hosts: seq<string>, route: BackendRoute, c: Claim)
    ensures c in ClaimsFor(hosts, route) <==> c.route == route && exists j :: 0 <= j < |hosts| && hosts[j] == c.host
  {
    var cs := ClaimsFor(hosts, route);
    if c in cs {
      var j :| 0 <= j < |cs| && cs[j] == c;
      assert hosts[j] == c.host;
    }
    if c.route == route && exists j :: 0 <= j < |hosts| && hosts[j] == c.host {
      var j :| 0 <= j < |hosts| && hosts[j] == c.host;
      assert cs[j] == c;
    }
  }

  lemma ServiceMember(services: seq<Service>, i: int, c: Claim)
    requires 0 <= i < |services|
    ensures c in ServiceClaims(services[i]) <==> exists j :: LabelClaimAt(services, i, j, c)
  {
    var svc := services[i];
    if ResolveBackend(svc).Some? {
      ClaimsForMember(svc.labels.hosts, BackendRoute(ResolveBackend(svc).value, Some(svc.containerId), Some(svc.containerName)), c);
      if j :| 0 <= j < |svc.labels.hosts| && svc.labels.hosts[j] == c.host {
        if c in ServiceClaims(svc) {
          assert LabelClaimAt(services, i, j, c);
        }
      }
    }
  }

  ghost predicate LabelClaimSome(services: seq<Service>, c: Claim)
  {
    exists i, j :: LabelClaimAt(services, i, j, c)
  }

  lemma LabelClaimNone(c: Claim)
    ensures !LabelClaimSome([], c)
  {
  }

  lemma LabelClaimStep(services: seq<Service>, n: nat, c: Claim)
    requires |services| == n + 1
    ensures LabelClaimSome(services, c) <==> LabelClaimSome(services[..n], c) || exists j :: LabelClaimAt(services, n, j, c)
  {
    var init := services[..n];
    if i, j :| LabelClaimAt(init, i, j, c) {
      assert LabelClaimAt(services, i, j, c);
    }
    if i, j :| LabelClaimAt(services, i, j, c) {
      if i < n {
        assert LabelClaimAt(init, i, j, c);
      } else {
        assert LabelClaimAt(services, n, j, c);
      }
    }
  }

  /** The label layer claims exactly the hosts of the containers whose backend resolves, each with
      that backend and the container's id and name. */
  lemma {:induction false} LabelClaimsExact(services: seq<Service>, c: Claim)
    ensures c in LabelClaims(services) <==> exists i, j :: LabelClaimAt(services, i, j, c)
  {
    hide LabelClaimAt;
    if services != [] {
      var n := |services| - 1;
      LabelClaimsExact(services[..n], c);
      ServiceMember(services, n, c);
      LabelClaimStep(services, n, c);
    } else {
      LabelClaimNone(c);
    }
    assert LabelClaimSome(services, c) <==> exists i, j :: LabelClaimAt(services, i, j, c);
  }

  lemma OneIntentMember(parse: ParseBackend, ds: seq<Intent>, i: int, c: Claim)
    requires 0 <= i < |ds|
    ensures c in OneIntentClaims(parse, ds[i]) <==> exists j :: IntentClaimAt(parse, ds, i, j, c)
  {
    var d := ds[i];
    if parse(d.backend).Some? {
      ClaimsForMember(d.hostnames, BackendRoute(parse(d.backend).value, None, IntentName(d)), c);
      if j :| 0 <= j < |d.hostnames| && d.hostnames[j] == c.host {
        if c in OneIntentClaims(parse, d) {
          assert IntentClaimAt(parse, ds, i, j, c);
        }
      }
    }
  }

  ghost predicate IntentClaimSome(parse: ParseBackend, ds: seq<Intent>, c: Claim)
  {
    exists i, j :: IntentClaimAt(parse, ds, i, j, c)
  }

  lemma IntentClaimNone(parse: ParseBackend, c: Claim)
    ensures !IntentClaimSome(parse, [], c)
  {
  }

  lemma IntentClaimStep(parse: ParseBackend, ds: seq<Intent>, n: nat, c: Claim)
    requires |ds| == n + 1
    ensures IntentClaimSome(parse, ds, c) <==> IntentClaimSome(parse, ds[..n], c) || exists j :: IntentClaimAt(parse, ds, n, j, c)
  {
    var init := ds[..n];
    if i, j :| IntentClaimAt(parse, init, i, j, c) {
      assert IntentClaimAt(parse, ds, i, j, c);
    }
    if i, j :| IntentClaimAt(parse, ds, i, j, c) {
      if i < n {
        assert IntentClaimAt(parse, init, i, j, c);
      } else {
        assert IntentClaimAt(parse, ds, n, j, c);
      }
    }
  }

  /** The intent layer claims exactly the hosts of the intents whose backend parses, under the
      intent's name or "enabled" and no container id. */
  lemma {:induction false} IntentClaimsExact(parse: ParseBackend, ds: seq<Intent>, c: Claim)
    ensures c in IntentClaims(parse, ds) <==> exists i, j :: IntentClaimAt(parse, ds, i, j, c)
  {
    hide IntentClaimAt;
    if ds != [] {
      var n := |ds| - 1;
      IntentClaimsExact(parse, ds[..n], c);
      OneIntentMember(parse, ds, n, c);
      IntentClaimStep(parse, ds, n, c);
    } else {
      IntentClaimNone(parse, c);
    }
    assert IntentClaimSome(parse, ds, c) <==> exists i, j :: IntentClaimAt(parse, ds, i, j, c);
  }

  lemma OneStaticMember(statics: seq<PreparedRoute>, i: int, c: Claim)
    requires 0 <= i < |statics|
    ensures c in ClaimsFor(statics[i].hosts, StaticRoute(statics[i])) <==> exists j :: StaticClaimAt(statics, i, j, c)
  {
    ClaimsForMember(statics[i].hosts, StaticRoute(statics[i]), c);
    if j :| 0 <= j < |statics[i].hosts| && statics[i].hosts[j] == c.host {
      if c.route == StaticRoute(statics[i]) {
        assert StaticClaimAt(statics, i, j, c);
      }
    }
  }

  ghost predicate StaticClaimSome(statics: seq<PreparedRoute>, c: Claim)
  {
    exists i, j :: StaticClaimAt(statics, i, j, c)
  }

  lemma StaticClaimNone(c: Claim)
    ensures !StaticClaimSome([], c)
  {
  }

  lemma StaticClaimStep(statics: seq<PreparedRoute>, n: nat, c: Claim)
    requires |statics| == n + 1
    ensures StaticClaimSome(statics, c) <==> StaticClaimSome(statics[..n], c) || exists j :: StaticClaimAt(statics, n, j, c)
  {
    var init := statics[..n];
    if i, j :| StaticClaimAt(init, i, j, c) {
      assert StaticClaimAt(statics, i, j, c);
    }
    if i, j :| StaticClaimAt(statics, i, j, c) {
      if i < n {
        assert StaticClaimAt(init, i, j, c);
      } else {
        assert StaticClaimAt(statics, n, j, c);
      }
    }
  }

  /** The static layer claims exactly the hosts of the prepared routes, named "static". */
  lemma {:induction false} StaticClaimsExact(statics: seq<PreparedRoute>, c: Claim)
    ensures c in StaticClaims(statics) <==> exists i, j :: StaticClaimAt(statics, i, j, c)
  {
    hide StaticClaimAt;
    if statics != [] {
      var n := |statics| - 1;
      StaticClaimsExact(statics[..n], c);
      OneStaticMember(statics, n, c);
      StaticClaimStep(statics, n, c);
    } else {
      StaticClaimNone(c);
    }
    assert StaticClaimSome(statics, c) <==> exists i, j :: StaticClaimAt(statics, i, j, c);
  }

  // ---- The last one wins ----

  lemma {:induction false} LastAfter(a: seq<Claim>, hosts: seq<string>, route: BackendRoute, h: string)
    ensures LastRoute(a + ClaimsFor(hosts, route), h) == if h in hosts then Some(route) else LastRoute(a, h)
  {
    if hosts == [] {
      assert a + ClaimsFor(hosts, route) == a;
    } else {
      var n := |hosts| - 1;
      var all := a + ClaimsFor(hosts, route);
      LastAfter(a, hosts[..n], route, h);
      assert all[..|all| - 1] == a + ClaimsFor(hosts[..n], route);
      assert all[|all| - 1] == Claim(hosts[n], route);
      assert hosts == hosts[..n] + [hosts[n]];
    }
  }

  /** The last offer there is. */
  function LastOffer(os: seq<Option<BackendRoute>>): (r: Option<BackendRoute>)
  {
    if os == [] then None
    else if os[|os| - 1].Some? then os[|os| - 1]
    else LastOffer(os[..|os| - 1])
  }

  predicate OfferWins(os: seq<Option<BackendRoute>>, i: int, r: BackendRoute)
  {
    0 <= i < |os| && os[i] == Some(r) && forall k :: i < k < |os| ==> os[k].None?
  }

  lemma {:induction false} LastOfferExact(os: seq<Option<BackendRoute>>, r: BackendRoute)
    ensures LastOffer(os) == Some(r) <==> exists i :: OfferWins(os, i, r)
    ensures LastOffer(os).Some? <==> exists i :: 0 <= i < |os| && os[i].Some?
  {
    if os != [] {
      var n := |os| - 1;
      LastOfferExact(os[..n], r);
      if os[n].None? {
        assert forall i :: i < n ==> OfferWins(os, i, r) == OfferWins(os[..n], i, r);
        if i :| OfferWins(os[..n], i, r) {
          assert OfferWins(os, i, r);
        }
        if i :| 0 <= i < n && os[..n][i].Some? {
          assert os[i].Some?;
        }
      } else if os[n] == Some(r) {
        assert OfferWins(os, n, r);
      }
    }
  }

  /** The route with which the container takes the host, if it does. */
  function LabelOffer(x: Service, h: string): (r: Option<BackendRoute>)
  {
    if h in x.labels.hosts && ResolveBackend(x).Some? then
      Some(BackendRoute(ResolveBackend(x).value, Some(x.containerId), Some(x.containerName)))
    else None
  }

  function LabelOffers(xs: seq<Service>, h: string): (r: seq<Option<BackendRoute>>)
  {
    seq(|xs|, i requires 0 <= i < |xs| => LabelOffer(xs[i], h))
  }

  lemma {:induction false} LabelLast(xs: seq<Service>, h: string)
    ensures LastRoute(LabelClaims(xs), h) == LastOffer(LabelOffers(xs, h))
  {
    if xs != [] {
      var n := |xs| - 1;
      var init, x := xs[..n], xs[n];
      LabelLast(init, h);
      assert LabelOffers(xs, h)[..n] == LabelOffers(init, h);
      if ResolveBackend(x).Some? {
        LastAfter(LabelClaims(init), x.labels.hosts, BackendRoute(ResolveBackend(x).value, Some(x.containerId), Some(x.containerName)), h);
      } else {
        assert LabelClaims(xs) == LabelClaims(init);
      }
    }
  }

  /** The route with which the intent takes the host, if it does. */
  function IntentOffer(parse: ParseBackend, x: Intent, h: string): (r: Option<BackendRoute>)
  {
    if h in x.hostnames && parse(x.backend).Some? then Some(BackendRoute(parse(x.backend).value, None, IntentName(x))) else None
  }

  function IntentOffers(parse: ParseBackend, xs: seq<Intent>, h: string): (r: seq<Option<BackendRoute>>)
  {
    seq(|xs|, i requires 0 <= i < |xs| => IntentOffer(parse, xs[i], h))
  }

  lemma {:induction false} IntentLast(parse: ParseBackend, xs: seq<Intent>, h: string)
    ensures LastRoute(IntentClaims(parse, xs), h) == LastOffer(IntentOffers(parse, xs, h))
  {
    if xs != [] {
      var n := |xs| - 1;
      var init, x := xs[..n], xs[n];
      IntentLast(parse, init, h);
      assert IntentOffers(parse, xs, h)[..n] == IntentOffers(parse, init, h);
      if parse(x.backend).Some? {
        LastAfter(IntentClaims(parse, init), x.hostnames, BackendRoute(parse(x.backend).value, None, IntentName(x)), h);
      } else {
        assert IntentClaims(parse, xs) == IntentClaims(parse, init);
      }
    }
  }

  /** The route with which the static route takes the host, if it does. */
  function StaticOffer(x: PreparedRoute, h: string): (r: Option<BackendRoute>)
  {
    if h in x.hosts then Some(StaticRoute(x)) else None
  }

  function StaticOffers(xs: seq<PreparedRoute>, h: string): (r: seq<Option<BackendRoute>>)
  {
    seq(|xs|, i requires 0 <= i < |xs| => StaticOffer(xs[i], h))
  }

  lemma {:induction false} StaticLast(xs: seq<PreparedRoute>, h: string)
    ensures LastRoute(StaticClaims(xs), h) == LastOffer(StaticOffers(xs, h))
  {
    if xs != [] {
      var n := |xs| - 1;
      var init, x := xs[..n], xs[n];
      StaticLast(init, h);
      assert StaticOffers(xs, h)[..n] == StaticOffers(init, h);
      LastAfter(StaticClaims(init), x.hosts, StaticRoute(x), h);
    }
  }

  /** Among containers, the last one that resolves and asks for a host has it. */
  lemma LabelWinner(services: seq<Service>, h: string, r: BackendRoute)
    ensures LastRoute(LabelClaims(services), h) == Some(r) <==> exists i :: LabelWins(services, i, h, r)
  {
    hide ResolveBackend;
    var os := LabelOffers(services, h);
    LabelLast(services, h);
    LastOfferExact(os, r);
    forall i
      ensures LabelWins(services, i, h, r) <==> OfferWins(os, i, r)
    {
      if LabelWins(services, i, h, r) {
        assert forall k :: i < k < |os| ==> os[k] == LabelOffer(services[k], h);
      }
      if OfferWins(os, i, r) {
        assert forall k :: i < k < |services| ==> os[k] == LabelOffer(services[k], h);
      }
    }
  }

  /** Among intents, the last one with the host whose backend parses. */
  lemma IntentWinner(parse: ParseBackend, ds: seq<Intent>, h: string, r: BackendRoute)
    ensures LastRoute(IntentClaims(parse, ds), h) == Some(r) <==> exists i :: IntentWins(parse, ds, i, h, r)
  {
    hide ResolveBackend;
    var os := IntentOffers(parse, ds, h);
    IntentLast(parse, ds, h);
    LastOfferExact(os, r);
    forall i
      ensures IntentWins(parse, ds, i, h, r) <==> OfferWins(os, i, r)
    {
      if IntentWins(parse, ds, i, h, r) {
        assert forall k :: i < k < |os| ==> os[k] == IntentOffer(parse, ds[k], h);
      }
      if OfferWins(os, i, r) {
        assert forall k :: i < k < |ds| ==> os[k] == IntentOffer(parse, ds[k], h);
      }
    }
  }

  /** Among static routes, the last one with the host. */
  lemma StaticWinner(statics: seq<PreparedRoute>, h: string, r: BackendRoute)
    ensures LastRoute(StaticClaims(statics), h) == Some(r) <==> exists i :: StaticWins(statics, i, h, r)
  {
    hide ResolveBackend;
    var os := StaticOffers(statics, h);
    StaticLast(statics, h);
    LastOfferExact(os, r);
    forall i
      ensures StaticWins(statics, i, h, r) <==> OfferWins(os, i, r)
    {
      if StaticWins(statics, i, h, r) {
        assert forall k :: i < k < |os| ==> os[k] == StaticOffer(statics[k], h);
      }
      if OfferWins(os, i, r) {
        assert forall k :: i < k < |statics| ==> os[k] == StaticOffer(statics[k], h);
      }
    }
  }

  // ---- The merge in terms of containers, intents and static routes ----

  predicate StaticTakes(statics: seq<PreparedRoute>, h: string)
  {
    exists i :: 0 <= i < |statics| && h in statics[i].hosts
  }

  predicate IntentTakes(parse: ParseBackend, desired: Option<seq<Intent>>, h: string)
  {
    desired.Some? && exists i :: 0 <= i < |desired.value| && h in desired.value[i].hostnames && parse(desired.value[i].backend).Some?
  }

  lemma StaticTakesIff(statics: seq<PreparedRoute>, h: string)
    ensures LastRoute(StaticClaims(statics), h).Some? <==> StaticTakes(statics, h)
  {
    var os := StaticOffers(statics, h);
    StaticLast(statics, h);
    LastOfferExact(os, BackendRoute(Backend("", 0), None, None));
    assert forall i :: 0 <= i < |os| ==> os[i].Some? == (h in statics[i].hosts);
  }

  lemma IntentTakesIff(parse: ParseBackend, ds: seq<Intent>, h: string)
    ensures LastRoute(IntentClaims(parse, ds), h).Some? <==> IntentTakes(parse, Some(ds), h)
  {
    var os := IntentOffers(parse, ds, h);
    IntentLast(parse, ds, h);
    LastOfferExact(os, BackendRoute(Backend("", 0), None, None));
    assert forall i :: 0 <= i < |os| ==> os[i].Some? == (h in ds[i].hostnames && parse(ds[i].backend).Some?);
  }

  /** The proxy map after a merge: the last static route with the host has it; else the last intent
      with it whose backend parses; else the last container with it that resolves. */
  lemma MergeExact(parse: ParseBackend, services: seq<Service>, desired: Option<seq<Intent>>, statics: seq<PreparedRoute>,
                   h: string, r: BackendRoute)
    ensures var local := Layers(LabelClaims(services), DesiredClaims(parse, desired), StaticClaims(statics)).local;
            Lookup(local, h) == Some(r) <==>
              if StaticTakes(statics, h) then exists i :: StaticWins(statics, i, h, r)
              else if IntentTakes(parse, desired, h) then exists i :: IntentWins(parse, desired.value, i, h, r)
              else exists i :: LabelWins(services, i, h, r)
  {
    hide Layers, LabelClaims, IntentClaims, StaticClaims, StaticWins, IntentWins, LabelWins, StaticTakes;
    var labels, intents, fixed := LabelClaims(services), DesiredClaims(parse, desired), StaticClaims(statics);
    MergeMeaning(labels, intents, fixed);
    assert HostMerged(Layers(labels, intents, fixed), labels, intents, fixed, h);
    StaticTakesIff(statics, h);
    StaticWinner(statics, h, r);
    LabelWinner(services, h, r);
    if desired.Some? {
      IntentTakesIff(parse, desired.value, h);
      IntentWinner(parse, desired.value, h, r);
    }
  }

  lemma ResolvingHostClaimed(services: seq<Service>, i: nat, h: string)
    requires i < |services| && ResolveBackend(services[i]).Some? && h in services[i].labels.hosts
    ensures LastRoute(LabelClaims(services), h).Some?
  {
    hide ResolveBackend;
    var os := LabelOffers(services, h);
    LabelLast(services, h);
    LastOfferExact(os, BackendRoute(Backend("", 0), None, None));
    assert os[i].Some?;
  }

  /** Every host of every container that resolves is served and registered. */
  lemma ResolvingHostsServed(parse: ParseBackend, services: seq<Service>, desired: Option<seq<Intent>>, statics: seq<PreparedRoute>,
                             i: nat, h: string)
    requires i < |services| && ResolveBackend(services[i]).Some? && h in services[i].labels.hosts
    ensures var m := Layers(LabelClaims(services), DesiredClaims(parse, desired), StaticClaims(statics));
            h in m.local && HostEntries(m.api, h) != []
  {
    hide Layers, LabelClaims, DesiredClaims, StaticClaims;
    var labels, intents, fixed := LabelClaims(services), DesiredClaims(parse, desired), StaticClaims(statics);
    ResolvingHostClaimed(services, i, h);
    MergeMeaning(labels, intents, fixed);
    assert HostMerged(Layers(labels, intents, fixed), labels, intents, fixed, h);
  }
}
