/** A purge is not seen: a controller that has purged and one that has not go on alike, whatever
    steps follow, until the owner of a purged row sends a heartbeat. */
module PurgeRuns {
  import opened Rfc3339
  import opened Leases
  import opened Views
  import opened Storage
  import opened Controller
  import opened Runs

  predicate Dead(db: Db, id: string, now: nat, ttl: nat)
  {
    id in db.agents && !Live(db.agents[id].lastSeen, now, ttl)
  }

  /** `e` is `d` without some rows whose owners' leases are over. */
  predicate Trimmed(d: Db, e: Db, now: nat, ttl: nat)
  {
    && e.agents == d.agents && e.tokens == d.tokens
    && (forall h :: h in e.routes ==> h in d.routes && e.routes[h] == d.routes[h])
    && (forall h :: h in d.routes && h !in e.routes ==> Dead(d, d.routes[h].owner, now, ttl))
  }

  predicate SameViews(d: Db, e: Db, now: nat, ttl: nat)
  {
    && ActiveRoutes(d, now, ttl) == ActiveRoutes(e, now, ttl)
    && DnsView(d, now, ttl) == DnsView(e, now, ttl)
    && AdminView(d, now, ttl) == AdminView(e, now, ttl)
  }

  lemma PurgeTrims(db: Db, now: nat, ttl: nat)
    requires ttl <= now && FourDigitYear(now) && StampsPrintable(db)
    ensures Trimmed(db, Purge(db, now - ttl), now, ttl)
  {
    forall h | h in db.routes && h !in Purge(db, now - ttl).routes
      ensures Dead(db, db.routes[h].owner, now, ttl)
    {
      PurgeExact(db, now, ttl, h);
    }
  }

  lemma TrimmedViews(d: Db, e: Db, now: nat, ttl: nat, later: nat)
    requires Trimmed(d, e, now, ttl) && now <= later
    ensures SameViews(d, e, later, ttl)
  {
    forall h
      ensures Active(d, h, later, ttl) == Active(e, h, later, ttl)
    {
      if h in d.routes && h !in e.routes {
        assert Dead(d, d.routes[h].owner, now, ttl);
      }
    }
    ViewsFromActive(d, e, later, ttl);
  }

  lemma TrimmedLater(d: Db, e: Db, now: nat, ttl: nat, later: nat)
    requires Trimmed(d, e, now, ttl) && now <= later
    ensures Trimmed(d, e, later, ttl)
  {
  }

  // ---- Steps ----

  lemma SameBlocks(d: Db, e: Db, me: string, ttl: nat, now: nat, h: string)
    requires Trimmed(d, e, now, ttl)
    ensures Blocked(d.agents, d.routes, me, h, now, ttl) == Blocked(e.agents, e.routes, me, h, now, ttl)
    ensures Blocked(d.agents, d.routes, me, h, now, ttl) ==> d.routes[h] == e.routes[h]
  {
    if h in d.routes && h !in e.routes {
      assert Dead(d, d.routes[h].owner, now, ttl);
    }
  }

  /** A PUT is answered alike. */
  lemma SameOutcome(d: Db, e: Db, me: string, ttl: nat, entries: seq<Entry>, now: nat)
    requires Trimmed(d, e, now, ttl)
    ensures var p, q := PutAt(d, me, ttl, entries, now), PutAt(e, me, ttl, entries, now);
            p.accepted == q.accepted && p.conflicts == q.conflicts
  {
    var ts := Always(|entries|, now);
    forall i | 0 <= i < |entries|
      ensures var h := HostOf(entries[i]);
              && Blocked(d.agents, d.routes, me, h, ts[i], ttl) == Blocked(d.agents, e.routes, me, h, ts[i], ttl)
              && (Blocked(d.agents, d.routes, me, h, ts[i], ttl) ==> d.routes[h] == e.routes[h])
    {
      SameBlocks(d, e, me, ttl, now, HostOf(entries[i]));
    }
    SameBlocking(d, e, me, ttl, entries, ts);
    PutRoutesExact(d, me, ttl, entries, ts);
    PutRoutesExact(e, me, ttl, entries, ts);
  }

  lemma TrimmedPut(d: Db, e: Db, me: string, ttl: nat, entries: seq<Entry>, now: nat)
    requires Trimmed(d, e, now, ttl)
    ensures Trimmed(d.(routes := PutAt(d, me, ttl, entries, now).routes), e.(routes := PutAt(e, me, ttl, entries, now).routes), now, ttl)
  {
    var p, q := PutAt(d, me, ttl, entries, now), PutAt(e, me, ttl, entries, now);
    SameOutcome(d, e, me, ttl, entries, now);
    PutAtMeaning(d, me, ttl, entries, now);
    PutAtMeaning(e, me, ttl, entries, now);
    forall h
      ensures h in q.routes ==> h in p.routes && q.routes[h] == p.routes[h]
      ensures h in p.routes && h !in q.routes ==> h in d.routes && h !in e.routes && p.routes[h] == d.routes[h]
    {
      assert h in p.accepted <==> h in q.accepted;
    }
  }

  /** The heartbeat of an agent that owns a row one side is without. */
  ghost predicate Revives(d: Db, e: Db, ev: Event)
  {
    ev.Heartbeat? && Authorized(d, ev.id, ev.credential) && exists h :: Owns(d, ev.id, h) && h !in e.routes
  }

  lemma TrimmedBeat(d: Db, e: Db, id: string, ip: string, now: nat, ttl: nat)
    requires Trimmed(d, e, now, ttl) && forall h :: Owns(d, id, h) ==> h in e.routes
    ensures Trimmed(Beat(d, id, ip, now), Beat(e, id, ip, now), now, ttl)
  {
    forall h | h in d.routes && h !in e.routes
      ensures Dead(Beat(d, id, ip, now), d.routes[h].owner, now, ttl)
    {
      assert !Owns(d, id, h) && Dead(d, d.routes[h].owner, now, ttl);
    }
  }

  lemma TrimmedDelete(d: Db, e: Db, now: nat, ttl: nat, host: string)
    requires Trimmed(d, e, now, ttl)
    ensures Trimmed(DropRoute(d, host), DropRoute(e, host), now, ttl)
  {
  }

  lemma TrimmedDrop(d: Db, e: Db, now: nat, ttl: nat, ids: set<string>)
    requires Trimmed(d, e, now, ttl)
    ensures Trimmed(DropRowsOf(d, ids), DropRowsOf(e, ids), now, ttl)
  {
  }

  lemma TrimmedRevoke(d: Db, e: Db, now: nat, ttl: nat, id: string)
    requires Trimmed(d, e, now, ttl)
    ensures Trimmed(Revoke(d, id), Revoke(e, id), now, ttl)
  {
  }

  lemma TrimmedEnrol(d: Db, e: Db, now: nat, ttl: nat, token: string, id: string, name: string, ip: string, credential: string)
    requires Trimmed(d, e, now, ttl)
    ensures Trimmed(AddToken(d, token), AddToken(e, token), now, ttl)
    ensures Trimmed(AddAgent(UseToken(d, token), id, name, ip, credential, now),
                    AddAgent(UseToken(e, token), id, name, ip, credential, now), now, ttl)
  {
  }

  lemma TrimmedByPut(cfg: Config, d: Db, e: Db, ev: Event, now: nat)
    requires cfg.ttl <= now && Trimmed(d, e, now, cfg.ttl) && ev.Put?
    ensures Trimmed(TablesAfter(cfg, d, ev, now), TablesAfter(cfg, e, ev, now), now, cfg.ttl)
  {
    assert PutRuns(cfg, d, ev) == PutRuns(cfg, e, ev);
    TrimmedPut(d, e, ev.id, cfg.ttl, ev.entries, now);
  }

  lemma TrimmedByBeat(cfg: Config, d: Db, e: Db, ev: Event, now: nat)
    requires cfg.ttl <= now && Trimmed(d, e, now, cfg.ttl) && ev.Heartbeat? && !Revives(d, e, ev)
    ensures Trimmed(TablesAfter(cfg, d, ev, now), TablesAfter(cfg, e, ev, now), now, cfg.ttl)
  {
    if Authorized(d, ev.id, ev.credential) {
      TrimmedBeat(d, e, ev.id, ev.ip, now, cfg.ttl);
    }
  }

  lemma TrimmedByEnrol(cfg: Config, d: Db, e: Db, ev: Event, now: nat)
    requires cfg.ttl <= now && Trimmed(d, e, now, cfg.ttl) && (ev.CreateToken? || ev.Enroll?)
    ensures Trimmed(TablesAfter(cfg, d, ev, now), TablesAfter(cfg, e, ev, now), now, cfg.ttl)
  {
    if ev.Enroll? {
      TrimmedEnrol(d, e, now, cfg.ttl, ev.token, ev.id, ev.name, ev.ip, ev.credential);
    } else {
      TrimmedEnrol(d, e, now, cfg.ttl, ev.token, "", "", "", "");
    }
  }

  lemma TrimmedByAdmin(cfg: Config, d: Db, e: Db, ev: Event, now: nat)
    requires cfg.ttl <= now && Trimmed(d, e, now, cfg.ttl) && (ev.Delete? || ev.RevokeAgent?)
    ensures Trimmed(TablesAfter(cfg, d, ev, now), TablesAfter(cfg, e, ev, now), now, cfg.ttl)
  {
    if ev.Delete? {
      TrimmedDelete(d, e, now, cfg.ttl, ev.host);
    } else {
      TrimmedRevoke(d, e, now, cfg.ttl, ev.id);
    }
  }

  lemma TrimmedByCleanup(cfg: Config, d: Db, e: Db, ev: Event, now: nat)
    requires cfg.ttl <= now && Trimmed(d, e, now, cfg.ttl) && ev.Cleanup?
    ensures Trimmed(TablesAfter(cfg, d, ev, now), TablesAfter(cfg, e, ev, now), now, cfg.ttl)
  {
    hide StaleAgents;
    TrimmedDrop(d, e, now, cfg.ttl, StaleAgents(d.agents, now - cfg.ttl));
  }

  lemma TrimmedByEvent(cfg: Config, d: Db, e: Db, ev: Event, now: nat)
    requires cfg.ttl <= now && Trimmed(d, e, now, cfg.ttl) && !Revives(d, e, ev)
    ensures Trimmed(TablesAfter(cfg, d, ev, now), TablesAfter(cfg, e, ev, now), now, cfg.ttl)
  {
    hide Trimmed, TablesAfter;
    if ev.CreateToken? || ev.Enroll? {
      TrimmedByEnrol(cfg, d, e, ev, now);
    } else if ev.Heartbeat? {
      TrimmedByBeat(cfg, d, e, ev, now);
    } else if ev.Put? {
      TrimmedByPut(cfg, d, e, ev, now);
    } else if ev.Cleanup? {
      TrimmedByCleanup(cfg, d, e, ev, now);
    } else {
      TrimmedByAdmin(cfg, d, e, ev, now);
    }
  }

  /** Both sides refresh alike, and to the same registry. */
  lemma SameRegistry(cfg: Config, s: State, s': State, ev: Event, now: nat)
    requires cfg.ttl <= now && s.db.agents == s'.db.agents && s.dns == s'.dns
    requires DnsView(TablesAfter(cfg, s.db, ev, now), now, cfg.ttl) == DnsView(TablesAfter(cfg, s'.db, ev, now), now, cfg.ttl)
    ensures Step(cfg, s, ev, now).dns == Step(cfg, s', ev, now).dns
  {
    hide TablesAfter;
    assert Refreshes(cfg, s.db, ev) == Refreshes(cfg, s'.db, ev);
  }

  /** A step other than a reviving heartbeat keeps the two sides alike, registries included. */
  lemma TrimmedStep(cfg: Config, s: State, s': State, ev: Event, from: nat, now: nat)
    requires cfg.ttl <= now && from <= now && Trimmed(s.db, s'.db, from, cfg.ttl) && s.dns == s'.dns && !Revives(s.db, s'.db, ev)
    ensures Trimmed(Step(cfg, s, ev, now).db, Step(cfg, s', ev, now).db, now, cfg.ttl)
    ensures Step(cfg, s, ev, now).dns == Step(cfg, s', ev, now).dns
  {
    hide TablesAfter;
    TrimmedLater(s.db, s'.db, from, cfg.ttl, now);
    TrimmedByEvent(cfg, s.db, s'.db, ev, now);
    TrimmedViews(TablesAfter(cfg, s.db, ev, now), TablesAfter(cfg, s'.db, ev, now), now, cfg.ttl, now);
    SameRegistry(cfg, s, s', ev, now);
  }

  /** With a reviving heartbeat the name returns on the side that kept the row and not on the other. */
  lemma ReviveShows(cfg: Config, s: State, s': State, ev: Event, from: nat, now: nat, h: string)
    requires 0 < cfg.ttl <= now && Trimmed(s.db, s'.db, from, cfg.ttl) && Revives(s.db, s'.db, ev)
    requires Owns(s.db, ev.id, h) && h !in s'.db.routes
    ensures h in ActiveRoutes(Step(cfg, s, ev, now).db, now, cfg.ttl)
    ensures h !in Step(cfg, s', ev, now).db.routes
  {
  }

  // ---- Runs ----

  predicate ClockFrom(cfg: Config, evs: seq<Timed>, from: nat)
  {
    cfg.ttl <= from && Monotone(evs, from)
  }

  function RunFrom(cfg: Config, s: State, evs: seq<Timed>, from: nat): (r: State)
    requires ClockFrom(cfg, evs, from)
  {
    if evs == [] then s
    else
      var n := |evs| - 1;
      Step(cfg, RunFrom(cfg, s, evs[..n], from), evs[n].ev, evs[n].at)
  }

  lemma RunFromStep(cfg: Config, s: State, evs: seq<Timed>, from: nat, j: nat)
    requires ClockFrom(cfg, evs, from) && j < |evs|
    ensures RunFrom(cfg, s, evs[..j + 1], from) == Step(cfg, RunFrom(cfg, s, evs[..j], from), evs[j].ev, evs[j].at)
  {
    assert evs[..j + 1][..j] == evs[..j];
  }

  /** Event `j` revives a row the purge has taken. */
  ghost predicate RevivesAt(cfg: Config, s: State, s': State, evs: seq<Timed>, from: nat, j: nat)
    requires ClockFrom(cfg, evs, from) && j < |evs|
  {
    Revives(RunFrom(cfg, s, evs[..j], from).db, RunFrom(cfg, s', evs[..j], from).db, evs[j].ev)
  }

  ghost predicate NoRevival(cfg: Config, s: State, s': State, evs: seq<Timed>, from: nat)
    requires ClockFrom(cfg, evs, from)
  {
    forall j :: 0 <= j < |evs| ==> !RevivesAt(cfg, s, s', evs, from, j)
  }

  lemma {:induction false} TrimmedRun(cfg: Config, s: State, s': State, evs: seq<Timed>, from: nat)
    requires ClockFrom(cfg, evs, from) && Trimmed(s.db, s'.db, from, cfg.ttl) && s.dns == s'.dns
    requires NoRevival(cfg, s, s', evs, from)
    ensures Trimmed(RunFrom(cfg, s, evs, from).db, RunFrom(cfg, s', evs, from).db, LastTime(evs, from), cfg.ttl)
    ensures RunFrom(cfg, s, evs, from).dns == RunFrom(cfg, s', evs, from).dns
  {
    if evs != [] {
      var n := |evs| - 1;
      var init := evs[..n];
      forall j | 0 <= j < n
        ensures !RevivesAt(cfg, s, s', init, from, j)
      {
        assert init[..j] == evs[..j] && !RevivesAt(cfg, s, s', evs, from, j);
      }
      TrimmedRun(cfg, s, s', init, from);
      assert !RevivesAt(cfg, s, s', evs, from, n);
      TrimmedStep(cfg, RunFrom(cfg, s, init, from), RunFrom(cfg, s', init, from), evs[n].ev, LastTime(init, from), evs[n].at);
    }
  }

  /** Whatever happens after a purge, short of a reviving heartbeat: the registry and, at that time
      and any later one, the active routes, the DNS view and the admin view are those of a
      controller that has not purged. */
  lemma PurgeKeepsViews(cfg: Config, s: State, evs: seq<Timed>, at: nat, later: nat)
    requires ClockFrom(cfg, evs, at) && FourDigitYear(at) && StampsPrintable(s.db) && LastTime(evs, at) <= later
    requires NoRevival(cfg, s, s.(db := Purge(s.db, at - cfg.ttl)), evs, at)
    ensures var r, r' := RunFrom(cfg, s, evs, at), RunFrom(cfg, s.(db := Purge(s.db, at - cfg.ttl)), evs, at);
            r.dns == r'.dns && SameViews(r.db, r'.db, later, cfg.ttl)
  {
    hide Purge;
    var s' := s.(db := Purge(s.db, at - cfg.ttl));
    PurgeTrims(s.db, at, cfg.ttl);
    TrimmedRun(cfg, s, s', evs, at);
    TrimmedViews(RunFrom(cfg, s, evs, at).db, RunFrom(cfg, s', evs, at).db, LastTime(evs, at), cfg.ttl, later);
  }

  /** The views agree after the first `j` events, at the time of the last of them. */
  predicate AgreeAfter(cfg: Config, s: State, s': State, evs: seq<Timed>, from: nat, j: nat)
    requires ClockFrom(cfg, evs, from) && j <= |evs|
  {
    SameViews(RunFrom(cfg, s, evs[..j], from).db, RunFrom(cfg, s', evs[..j], from).db, LastTime(evs[..j], from), cfg.ttl)
  }

  lemma {:induction false} FirstRevival(cfg: Config, s: State, s': State, evs: seq<Timed>, from: nat, n: nat) returns (j: nat)
    requires ClockFrom(cfg, evs, from) && n < |evs| && RevivesAt(cfg, s, s', evs, from, n)
    ensures j <= n && RevivesAt(cfg, s, s', evs, from, j)
    ensures forall i :: 0 <= i < j ==> !RevivesAt(cfg, s, s', evs, from, i)
  {
    if i :| 0 <= i < n && RevivesAt(cfg, s, s', evs, from, i) {
      j := FirstRevival(cfg, s, s', evs, from, i);
    } else {
      j := n;
    }
  }

  lemma DisagreeAfterRevival(cfg: Config, s: State, s': State, evs: seq<Timed>, from: nat, j: nat)
    requires ClockFrom(cfg, evs, from) && 0 < cfg.ttl && Trimmed(s.db, s'.db, from, cfg.ttl) && s.dns == s'.dns
    requires j < |evs| && RevivesAt(cfg, s, s', evs, from, j) && forall i :: 0 <= i < j ==> !RevivesAt(cfg, s, s', evs, from, i)
    ensures !AgreeAfter(cfg, s, s', evs, from, j + 1)
  {
    var init := evs[..j];
    forall i | 0 <= i < j
      ensures !RevivesAt(cfg, s, s', init, from, i)
    {
      assert init[..i] == evs[..i] && !RevivesAt(cfg, s, s', evs, from, i);
    }
    TrimmedRun(cfg, s, s', init, from);
    RunFromStep(cfg, s, evs, from, j);
    RunFromStep(cfg, s', evs, from, j);
    var r, r' := RunFrom(cfg, s, init, from), RunFrom(cfg, s', init, from);
    var h :| Owns(r.db, evs[j].ev.id, h) && h !in r'.db.routes;
    ReviveShows(cfg, r, r', evs[j].ev, LastTime(init, from), evs[j].at, h);
  }

  lemma AgreeWithoutRevival(cfg: Config, s: State, s': State, evs: seq<Timed>, from: nat, j: nat)
    requires ClockFrom(cfg, evs, from) && Trimmed(s.db, s'.db, from, cfg.ttl) && s.dns == s'.dns
    requires j <= |evs| && forall i :: 0 <= i < j ==> !RevivesAt(cfg, s, s', evs, from, i)
    ensures AgreeAfter(cfg, s, s', evs, from, j)
  {
    var init := evs[..j];
    forall i | 0 <= i < j
      ensures !RevivesAt(cfg, s, s', init, from, i)
    {
      assert init[..i] == evs[..i] && !RevivesAt(cfg, s, s', evs, from, i);
    }
    TrimmedRun(cfg, s, s', init, from);
    TrimmedViews(RunFrom(cfg, s, init, from).db, RunFrom(cfg, s', init, from).db, LastTime(init, from), cfg.ttl, LastTime(init, from));
  }

  /** A purge stays unseen throughout a run exactly when no event of it is a reviving heartbeat. */
  lemma PurgeUnseenExactly(cfg: Config, s: State, evs: seq<Timed>, at: nat)
    requires ClockFrom(cfg, evs, at) && 0 < cfg.ttl && FourDigitYear(at) && StampsPrintable(s.db)
    ensures var s' := s.(db := Purge(s.db, at - cfg.ttl));
            (forall j :: 0 <= j <= |evs| ==> AgreeAfter(cfg, s, s', evs, at, j)) <==> NoRevival(cfg, s, s', evs, at)
  {
    hide Purge;
    var s' := s.(db := Purge(s.db, at - cfg.ttl));
    PurgeTrims(s.db, at, cfg.ttl);
    if n :| 0 <= n < |evs| && RevivesAt(cfg, s, s', evs, at, n) {
      var j := FirstRevival(cfg, s, s', evs, at, n);
      DisagreeAfterRevival(cfg, s, s', evs, at, j);
    } else {
      forall j | 0 <= j <= |evs|
        ensures AgreeAfter(cfg, s, s', evs, at, j)
      {
        AgreeWithoutRevival(cfg, s, s', evs, at, j);
      }
    }
  }
}
