/** Serial runs of the controller: invariants of every reachable state and who may lose a host. */
module Runs {
  import opened Text
  import opened Rfc3339
  import opened Hostnames
  import opened Leases
  import opened Views
  import opened Storage
  import opened Controller

  datatype Timed = Timed(ev: Event, at: nat)

  /** The clock shows a year of four digits, a lease or more after its origin. It need not be
      monotone. */
  predicate ClockOk(cfg: Config, evs: seq<Timed>)
  {
    forall i :: 0 <= i < |evs| ==> cfg.ttl <= evs[i].at && FourDigitYear(evs[i].at)
  }

  /** The clock starts at `from` and does not run backwards. */
  predicate Monotone(evs: seq<Timed>, from: nat)
  {
    && (forall i :: 0 <= i < |evs| ==> from <= evs[i].at)
    && (forall i, j :: 0 <= i < j < |evs| ==> evs[i].at <= evs[j].at)
  }

  function LastTime(evs: seq<Timed>, from: nat): (t: nat)
  {
    if evs == [] then from else evs[|evs| - 1].at
  }

  const INITIAL: State := State(Db(map[], map[], map[]), map[], 0)

  function Run(cfg: Config, evs: seq<Timed>): (s: State)
    requires ClockOk(cfg, evs)
  {
    if evs == [] then INITIAL
    else
      var n := |evs| - 1;
      Step(cfg, Run(cfg, evs[..n]), evs[n].ev, evs[n].at)
  }

  lemma RunStep(cfg: Config, evs: seq<Timed>, k: nat)
    requires ClockOk(cfg, evs) && k < |evs|
    ensures Run(cfg, evs[..k + 1]) == Step(cfg, Run(cfg, evs[..k]), evs[k].ev, evs[k].at)
  {
    assert evs[..k + 1][..k] == evs[..k];
  }

  // ---- Invariants ----

  function Used(tokens: map<string, bool>): (r: set<string>)
  {
    set t | t in tokens && tokens[t]
  }

  /** A row's host is lower-case and passes the policy; its owner is enrolled and not revoked. */
  predicate RowOk(cfg: Config, db: Db, h: string)
    requires h in db.routes
  {
    IsLower(h) && Allowed(cfg.policy, h) && Enrolled(db, db.routes[h].owner)
  }

  predicate RowsOk(cfg: Config, db: Db)
  {
    forall h :: h in db.routes ==> RowOk(cfg, db, h)
  }

  predicate CountsOk(db: Db)
  {
    |db.agents| <= |Used(db.tokens)| <= |db.tokens|
  }

  predicate StampsOk(db: Db)
  {
    StampsPrintable(db) && forall id :: id in db.agents ==> db.agents[id].lastSeen.Some?
  }

  /** The registry is the DNS view of the present tables at the time of the last refresh. */
  predicate DnsOk(cfg: Config, s: State)
  {
    s.dns == DnsView(s.db, s.refreshedAt, cfg.ttl)
  }

  predicate Inv(cfg: Config, s: State)
  {
    RowsOk(cfg, s.db) && CountsOk(s.db) && StampsOk(s.db) && DnsOk(cfg, s)
  }

  lemma RowsStep(cfg: Config, s: State, ev: Event, now: nat)
    requires cfg.ttl <= now && RowsOk(cfg, s.db)
    ensures RowsOk(cfg, Step(cfg, s, ev, now).db)
  {
    hide DnsView, StaleAgents;
    if ev.Put? && PutRuns(cfg, s.db, ev) {
      PutAtMeaning(s.db, ev.id, cfg.ttl, ev.entries, now);
      var r := Step(cfg, s, ev, now).db;
      forall h | h in r.routes
        ensures RowOk(cfg, r, h)
      {
        if h in PutAt(s.db, ev.id, cfg.ttl, ev.entries, now).accepted {
          var e := ev.entries[LastFor(ev.entries, h)];
          LowerFacts(e.hostname);
          PolicyIgnoresCase(cfg.policy, e.hostname, h);
        } else {
          assert RowOk(cfg, s.db, h);
        }
      }
    } else {
      forall h | h in Step(cfg, s, ev, now).db.routes
        ensures RowOk(cfg, Step(cfg, s, ev, now).db, h)
      {
        assert RowOk(cfg, s.db, h);
      }
    }
  }

  lemma UsedUnchanged(t: map<string, bool>, token: string)
    requires token !in t
    ensures Used(t[token := false]) == Used(t)
    ensures |t[token := false]| == |t| + 1
  {
    var t' := t[token := false];
    assert forall x :: x in Used(t') <==> x in Used(t);
    assert t'.Keys == t.Keys + {token};
  }

  lemma TokenCounts(db: Db, token: string)
    requires CountsOk(db)
    ensures CountsOk(AddToken(db, token))
  {
    if token !in db.tokens {
      UsedUnchanged(db.tokens, token);
    }
  }

  lemma EnrolCounts(db: Db, token: string, id: string, name: string, ip: string, credential: string, now: nat)
    requires CountsOk(db) && TokenUsable(db, token)
    ensures CountsOk(AddAgent(UseToken(db, token), id, name, ip, credential, now))
  {
    var r := AddAgent(UseToken(db, token), id, name, ip, credential, now);
    assert Used(r.tokens) == Used(db.tokens) + {token};
    assert Used(r.tokens) <= r.tokens.Keys;
    SubsetSmaller(Used(r.tokens), r.tokens.Keys);
    if id !in db.agents {
      assert r.agents.Keys == db.agents.Keys + {id};
    }
  }

  lemma OtherCounts(cfg: Config, s: State, ev: Event, now: nat)
    requires cfg.ttl <= now && !ev.CreateToken? && !ev.Enroll?
    ensures Step(cfg, s, ev, now).db.tokens == s.db.tokens
    ensures Step(cfg, s, ev, now).db.agents.Keys == s.db.agents.Keys
  {
    hide PutAt, DnsView, StaleAgents;
  }

  lemma CountsStep(cfg: Config, s: State, ev: Event, now: nat)
    requires cfg.ttl <= now && CountsOk(s.db)
    ensures CountsOk(Step(cfg, s, ev, now).db)
  {
    if ev.CreateToken? {
      TokenCounts(s.db, ev.token);
    } else if ev.Enroll? {
      if TokenUsable(s.db, ev.token) {
        EnrolCounts(s.db, ev.token, ev.id, ev.name, ev.ip, ev.credential, now);
      }
    } else {
      OtherCounts(cfg, s, ev, now);
      var a, a' := s.db.agents, Step(cfg, s, ev, now).db.agents;
      assert |a.Keys| == |a| && |a'.Keys| == |a'|;
    }
  }

  lemma StampsStep(cfg: Config, s: State, ev: Event, now: nat)
    requires cfg.ttl <= now && FourDigitYear(now) && StampsOk(s.db)
    ensures StampsOk(Step(cfg, s, ev, now).db)
  {
    hide PutAt, DnsView, StaleAgents;
  }

  /** Adding agents that own nothing leaves the DNS view as it is. */
  lemma NewAgentsKeepView(d: Db, e: Db, now: nat, ttl: nat)
    requires e.routes == d.routes && d.agents.Keys <= e.agents.Keys
    requires forall id :: id in d.agents ==> e.agents[id] == d.agents[id]
    requires forall h :: h in d.routes ==> d.routes[h].owner in d.agents
    ensures DnsView(e, now, ttl) == DnsView(d, now, ttl)
  {
    assert forall h :: Active(e, h, now, ttl) == Active(d, h, now, ttl);
    assert ActiveRoutes(e, now, ttl) == ActiveRoutes(d, now, ttl);
  }

  /** Enrolment and token creation do not refresh; nor do they change any row or an owner. */
  lemma EnrolKeepsView(cfg: Config, db: Db, ev: Event, now: nat, t: nat)
    requires RowsOk(cfg, db)
    ensures DnsView(AddToken(db, ev.token), t, cfg.ttl) == DnsView(db, t, cfg.ttl)
    ensures ev.Enroll? ==>
              DnsView(AddAgent(UseToken(db, ev.token), ev.id, ev.name, ev.ip, ev.credential, now), t, cfg.ttl) == DnsView(db, t, cfg.ttl)
    requires ev.CreateToken? || ev.Enroll?
  {
    forall h | h in db.routes
      ensures db.routes[h].owner in db.agents
    {
      assert RowOk(cfg, db, h);
    }
    NewAgentsKeepView(db, AddToken(db, ev.token), t, cfg.ttl);
    if ev.Enroll? {
      NewAgentsKeepView(db, AddAgent(UseToken(db, ev.token), ev.id, ev.name, ev.ip, ev.credential, now), t, cfg.ttl);
    }
  }

  lemma DnsStep(cfg: Config, s: State, ev: Event, now: nat)
    requires cfg.ttl <= now && RowsOk(cfg, s.db) && DnsOk(cfg, s)
    ensures DnsOk(cfg, Step(cfg, s, ev, now))
  {
    hide PutAt, Purge;
    if ev.CreateToken? || ev.Enroll? {
      EnrolKeepsView(cfg, s.db, ev, now, s.refreshedAt);
    }
  }

  /** Every state of every serial run: rows are lower-case, allowed and owned by enrolled,
      unrevoked agents; there are no more agents than used tokens and no more of those than
      created ones; the registry is the view of the present tables as of its last refresh. */
  lemma {:induction false} InvariantsHold(cfg: Config, evs: seq<Timed>)
    requires ClockOk(cfg, evs)
    ensures Inv(cfg, Run(cfg, evs))
  {
    if evs == [] {
      assert Used(INITIAL.db.tokens) == {};
    } else {
      var n := |evs| - 1;
      InvariantsHold(cfg, evs[..n]);
      var s := Run(cfg, evs[..n]);
      RowsStep(cfg, s, evs[n].ev, evs[n].at);
      CountsStep(cfg, s, evs[n].ev, evs[n].at);
      StampsStep(cfg, s, evs[n].ev, evs[n].at);
      DnsStep(cfg, s, evs[n].ev, evs[n].at);
    }
  }

  predicate LeaseLive(cfg: Config, s: State, a: string, now: nat)
  {
    a in s.db.agents && Live(s.db.agents[a].lastSeen, now, cfg.ttl)
  }

  /** No lease behind a published name has run out. */
  predicate NoneRunOut(cfg: Config, s: State, now: nat)
  {
    forall h :: h in s.dns ==> h in s.db.routes && LeaseLive(cfg, s, s.db.routes[h].owner, now)
  }

  lemma ViewShrinks(cfg: Config, s: State, now: nat, h: string)
    requires DnsOk(cfg, s) && s.refreshedAt <= now
    ensures var v := DnsView(s.db, now, cfg.ttl);
            && (h in v <==> h in s.dns && LeaseLive(cfg, s, s.db.routes[h].owner, now))
            && (h in v ==> v[h] == s.dns[h])
  {
    DnsViewMeaning(s.db, now, cfg.ttl, h);
    DnsViewMeaning(s.db, s.refreshedAt, cfg.ttl, h);
  }

  /** In every state of every serial run the registry still says what a refresh now would say,
      exactly when no lease behind a published name has run out since the last refresh: an expired
      agent leaves DNS with the next refresh, not before. */
  lemma {:induction false} RegistryCurrentExactly(cfg: Config, evs: seq<Timed>, now: nat)
    requires ClockOk(cfg, evs) && Run(cfg, evs).refreshedAt <= now
    ensures var s := Run(cfg, evs); s.dns == DnsView(s.db, now, cfg.ttl) <==> NoneRunOut(cfg, s, now)
  {
    InvariantsHold(cfg, evs);
    var s := Run(cfg, evs);
    var v := DnsView(s.db, now, cfg.ttl);
    forall h
      ensures (h in v <==> h in s.dns && LeaseLive(cfg, s, s.db.routes[h].owner, now)) && (h in v ==> v[h] == s.dns[h])
    {
      ViewShrinks(cfg, s, now, h);
    }
    forall h | h in s.dns
      ensures h in s.db.routes
    {
      DnsViewMeaning(s.db, s.refreshedAt, cfg.ttl, h);
    }
  }

  /** Token, enrolment and PUT, all at one time. */
  function JoinAndPut(ip: string, e: Entry, at: nat): (evs: seq<Timed>)
  {
    [Timed(CreateToken("t"), at), Timed(Enroll("t", "a", "", ip, "c"), at), Timed(Put("a", "c", [e]), at)]
  }

  lemma ThreeSteps(cfg: Config, evs: seq<Timed>)
    requires ClockOk(cfg, evs) && |evs| == 3
    ensures Run(cfg, evs) ==
            Step(cfg, Step(cfg, Step(cfg, INITIAL, evs[0].ev, evs[0].at), evs[1].ev, evs[1].at), evs[2].ev, evs[2].at)
  {
    RunStep(cfg, evs, 0);
    RunStep(cfg, evs, 1);
    RunStep(cfg, evs, 2);
    assert evs[..0] == [] && evs[..3] == evs;
  }

  lemma JoinedTables(cfg: Config, ip: string, e: Entry, at: nat)
    requires cfg.ttl <= at && FourDigitYear(at) && Allowed(cfg.policy, e.hostname)
    ensures var db := Db(map["a" := Agent("", ip, "c", Some(at), false)], map[], map["t" := true]);
            Run(cfg, JoinAndPut(ip, e, at)) == Refreshed(cfg, db.(routes := PutAt(db, "a", cfg.ttl, [e], at).routes), at)
  {
    var evs := JoinAndPut(ip, e, at);
    ThreeSteps(cfg, evs);
    var s1 := Step(cfg, INITIAL, evs[0].ev, at);
    assert s1.db == Db(map[], map[], map["t" := false]);
    var s2 := Step(cfg, s1, evs[1].ev, at);
    assert s2.db == Db(map["a" := Agent("", ip, "c", Some(at), false)], map[], map["t" := true]);
    assert PutRuns(cfg, s2.db, evs[2].ev);
  }

  /** A run after which the registry still answers a name whose lease has just run out. */
  lemma RegistryGoesStale(cfg: Config, ip: string, e: Entry, at: nat)
    requires 0 < cfg.ttl <= at && FourDigitYear(at) && Allowed(cfg.policy, e.hostname) && ParseIpv4(ip).Some?
    ensures var s := Run(cfg, JoinAndPut(ip, e, at));
            HostOf(e) in s.dns && HostOf(e) !in DnsView(s.db, at + cfg.ttl, cfg.ttl)
  {
    var db := Db(map["a" := Agent("", ip, "c", Some(at), false)], map[], map["t" := true]);
    var s := Run(cfg, JoinAndPut(ip, e, at));
    JoinedTables(cfg, ip, e, at);
    PutAtMeaning(db, "a", cfg.ttl, [e], at);
    assert HostOf([e][0]) in HostsOf([e]);
    assert s.db.agents == db.agents && HostOf(e) in s.db.routes && s.db.routes[HostOf(e)].owner == "a";
    DnsViewMeaning(s.db, at, cfg.ttl, HostOf(e));
    DnsViewMeaning(s.db, at + cfg.ttl, cfg.ttl, HostOf(e));
  }

  lemma AddressParses()
    ensures ParseIpv4("1.1.1.1") == Some(Ipv4(1, 1, 1, 1))
  {
    assert Dotted(Ipv4(1, 1, 1, 1)) == "1.1.1.1";
    ParseIpv4Exact("1.1.1.1", Ipv4(1, 1, 1, 1));
  }

  /** With numbers: a lease of 90, everything at time 90, looked at when 180 has come. */
  lemma StaleAnswer()
    ensures var cfg := Config(90, Policy([], []));
            var evs := JoinAndPut("1.1.1.1", Entry("app", "http://h:1/", None, None), 90);
            ClockOk(cfg, evs) && Run(cfg, evs).dns != DnsView(Run(cfg, evs).db, 180, 90)
  {
    AddressParses();
    assert FourDigitYear(90);
    RegistryGoesStale(Config(90, Policy([], [])), "1.1.1.1", Entry("app", "http://h:1/", None, None), 90);
  }

  // ---- Ownership ----

  /** The owner puts a set without the host, the host is deleted, or the owner is revoked. */
  predicate GivenUp(cfg: Config, s: State, ev: Event, a: string, h: string)
  {
    || (PutRuns(cfg, s.db, ev) && ev.id == a && h !in HostsOf(ev.entries))
    || (ev.Delete? && Lower(ev.host) == h)
    || (ev.RevokeAgent? && ev.id == a)
  }

  /** What takes a host from an owner whose lease has run out: another agent's PUT of it, or a
      purge more than a lease after the last heartbeat. */
  predicate TakenFromDead(cfg: Config, s: State, ev: Event, now: nat, a: string, h: string)
  {
    && !LeaseLive(cfg, s, a, now)
    && (|| (PutRuns(cfg, s.db, ev) && ev.id != a && h in HostsOf(ev.entries))
        || (ev.Cleanup? && a in s.db.agents && s.db.agents[a].lastSeen.Some? && now - s.db.agents[a].lastSeen.value > cfg.ttl))
  }

  lemma LossByPut(cfg: Config, s: State, ev: Event, now: nat, a: string, h: string)
    requires cfg.ttl <= now && PutRuns(cfg, s.db, ev)
    requires Owns(s.db, a, h) && a in s.db.agents
    ensures !Owns(Step(cfg, s, ev, now).db, a, h) <==>
            if ev.id == a then h !in HostsOf(ev.entries)
            else h in HostsOf(ev.entries) && !LeaseLive(cfg, s, a, now)
  {
    PutAtMeaning(s.db, ev.id, cfg.ttl, ev.entries, now);
    var r := PutAt(s.db, ev.id, cfg.ttl, ev.entries, now);
    assert h in r.accepted <==> h in HostsOf(ev.entries) && !Blocked(s.db.agents, s.db.routes, ev.id, h, now, cfg.ttl);
  }

  lemma LossByCleanup(cfg: Config, s: State, now: nat, a: string, h: string)
    requires cfg.ttl <= now && FourDigitYear(now) && StampsOk(s.db)
    requires Owns(s.db, a, h) && a in s.db.agents
    ensures !Owns(Step(cfg, s, Cleanup, now).db, a, h) <==> now - s.db.agents[a].lastSeen.value > cfg.ttl
  {
    hide StaleAgents;
    PurgeExact(s.db, now, cfg.ttl, h);
  }

  /** Exactly when a step takes a host from its owner. */
  lemma LossExact(cfg: Config, s: State, ev: Event, now: nat, a: string, h: string)
    requires cfg.ttl <= now && FourDigitYear(now) && RowsOk(cfg, s.db) && StampsOk(s.db)
    requires Owns(s.db, a, h)
    ensures !Owns(Step(cfg, s, ev, now).db, a, h) <==>
            GivenUp(cfg, s, ev, a, h) || TakenFromDead(cfg, s, ev, now, a, h)
  {
    hide PutAt, Purge, DnsView;
    assert RowOk(cfg, s.db, h);
    if PutRuns(cfg, s.db, ev) {
      LossByPut(cfg, s, ev, now, a, h);
    } else if ev.Cleanup? {
      LossByCleanup(cfg, s, now, a, h);
    }
  }

  lemma LossAtStep(cfg: Config, evs: seq<Timed>, i: nat, j: nat, a: string, h: string)
    requires ClockOk(cfg, evs) && i < j <= |evs|
    requires Owns(Run(cfg, evs[..i]).db, a, h) && !Owns(Run(cfg, evs[..i + 1]).db, a, h)
    ensures LostAt(cfg, evs, i, j, i, a, h)
  {
    RunStep(cfg, evs, i);
    InvariantsHold(cfg, evs[..i]);
    LossExact(cfg, Run(cfg, evs[..i]), evs[i].ev, evs[i].at, a, h);
  }

  /** Over a whole run: between a state in which one agent owns a host and a later one in which
      it does not - because another owns it, say - some step took it, while it was owned, and at
      that step the owner gave it up or its lease had run out. */
  lemma {:induction false} OwnershipSafety(cfg: Config, evs: seq<Timed>, i: nat, j: nat, a: string, h: string) returns (k: nat)
    requires ClockOk(cfg, evs) && i <= j <= |evs|
    requires Owns(Run(cfg, evs[..i]).db, a, h) && !Owns(Run(cfg, evs[..j]).db, a, h)
    ensures LostAt(cfg, evs, i, j, k, a, h)
    decreases j - i
  {
    assert i < j;
    if Owns(Run(cfg, evs[..i + 1]).db, a, h) {
      k := OwnershipSafety(cfg, evs, i + 1, j, a, h);
    } else {
      LossAtStep(cfg, evs, i, j, a, h);
      k := i;
    }
  }

  predicate LostAt(cfg: Config, evs: seq<Timed>, i: nat, j: nat, k: int, a: string, h: string)
    requires ClockOk(cfg, evs) && j <= |evs|
  {
    && i <= k < j
    && Owns(Run(cfg, evs[..k]).db, a, h)
    && !Owns(Run(cfg, evs[..k + 1]).db, a, h)
    && (|| GivenUp(cfg, Run(cfg, evs[..k]), evs[k].ev, a, h)
        || TakenFromDead(cfg, Run(cfg, evs[..k]), evs[k].ev, evs[k].at, a, h))
  }
}
