/** The controller's tables as values: what each storage operation makes of them.

    A lease is the owner's `last_seen_at`; rows of the routes table are keyed by lower-case
    hostname and belong to one agent. */
module Leases {
  import opened Text

  datatype Agent = Agent(name: string, ip: string, credential: string, lastSeen: Option<nat>, revoked: bool)

  datatype Row = Row(owner: string, backend: string, containerId: Option<string>,
                     containerName: Option<string>, updatedAt: nat)

  datatype Entry = Entry(hostname: string, backend: string, containerId: Option<string>,
                         containerName: Option<string>)

  datatype Conflict = Conflict(hostname: string, owner: string, expires: nat)

  /** `tokens` says of each enrolment token whether it has been used. */
  datatype Db = Db(agents: map<string, Agent>, routes: map<string, Row>, tokens: map<string, bool>)

  /** A lease is live strictly before `lastSeen + ttl`. */
  predicate Live(lastSeen: Option<nat>, now: nat, ttl: nat)
  {
    lastSeen.Some? && now - lastSeen.value < ttl
  }

  predicate Enrolled(db: Db, id: string)
  {
    id in db.agents && !db.agents[id].revoked
  }

  predicate Owns(db: Db, id: string, host: string)
  {
    host in db.routes && db.routes[host].owner == id
  }

  // ---- PUT of a full route set ----

  function HostOf(e: Entry): (h: string)
  {
    Lower(e.hostname)
  }

  function HostsOf(entries: seq<Entry>): (hs: set<string>)
  {
    set e | e in entries :: HostOf(e)
  }

  function RowFor(me: string, e: Entry, at: nat): (r: Row)
  {
    Row(me, e.backend, e.containerId, e.containerName, at)
  }

  /** Another agent holds the host on a live lease. Revocation is not looked at. */
  predicate Blocked(agents: map<string, Agent>, routes: map<string, Row>, me: string, host: string, now: nat, ttl: nat)
  {
    && host in routes && routes[host].owner in agents
    && routes[host].owner != me
    && Live(agents[routes[host].owner].lastSeen, now, ttl)
  }

  function ConflictFor(agents: map<string, Agent>, routes: map<string, Row>, me: string, host: string, now: nat, ttl: nat): (c: Conflict)
    requires Blocked(agents, routes, me, host, now, ttl)
  {
    Conflict(host, routes[host].owner, agents[routes[host].owner].lastSeen.value + ttl)
  }

  datatype PutState = PutState(accepted: seq<string>, conflicts: seq<Conflict>, routes: map<string, Row>)

  function PutEntry(agents: map<string, Agent>, me: string, ttl: nat, e: Entry, now: nat, st: PutState): (r: PutState)
  {
    var host := HostOf(e);
    if Blocked(agents, st.routes, me, host, now, ttl) then
      st.(conflicts := st.conflicts + [ConflictFor(agents, st.routes, me, host, now, ttl)])
    else
      st.(accepted := st.accepted + [host], routes := st.routes[host := RowFor(me, e, now)])
  }

  /** The loop of `put_routes`; the clock is read again for each entry. */
  function PutEntries(db: Db, me: string, ttl: nat, entries: seq<Entry>, times: seq<nat>): (r: PutState)
    requires |entries| == |times|
  {
    if entries == [] then PutState([], [], db.routes)
    else
      var n := |entries| - 1;
      PutEntry(db.agents, me, ttl, entries[n], times[n], PutEntries(db, me, ttl, entries[..n], times[..n]))
  }

  lemma PutEntriesStep(db: Db, me: string, ttl: nat, entries: seq<Entry>, times: seq<nat>, i: nat)
    requires |entries| == |times| && i < |entries|
    ensures PutEntries(db, me, ttl, entries[..i + 1], times[..i + 1]) ==
            PutEntry(db.agents, me, ttl, entries[i], times[i], PutEntries(db, me, ttl, entries[..i], times[..i]))
    ensures HostsOf(entries[..i + 1]) == HostsOf(entries[..i]) + {HostOf(entries[i])}
  {
    assert entries[..i + 1][..i] == entries[..i] && times[..i + 1][..i] == times[..i];
    HostsOfInit(entries[..i + 1]);
  }

  /** The final sweep: the agent's rows for hosts it no longer asks for go. */
  function Sweep(routes: map<string, Row>, me: string, desired: set<string>): (r: map<string, Row>)
  {
    map h | h in routes && (routes[h].owner != me || h in desired) :: routes[h]
  }

  function PutRoutes(db: Db, me: string, ttl: nat, entries: seq<Entry>, times: seq<nat>): (r: PutState)
    requires |entries| == |times|
  {
    var st := PutEntries(db, me, ttl, entries, times);
    st.(routes := Sweep(st.routes, me, HostsOf(entries)))
  }

  // ---- What a PUT means, said without the loop ----

  /** Hosts of the entries whose row in the original table does not block them, in order. */
  function Unblocked(db: Db, me: string, ttl: nat, entries: seq<Entry>, times: seq<nat>): (r: seq<string>)
    requires |entries| == |times|
  {
    if entries == [] then []
    else
      var n := |entries| - 1;
      var host := HostOf(entries[n]);
      Unblocked(db, me, ttl, entries[..n], times[..n])
      + (if Blocked(db.agents, db.routes, me, host, times[n], ttl) then [] else [host])
  }

  /** Conflicts of the other entries, with the original owner and its expiry, in order. */
  function Refusals(db: Db, me: string, ttl: nat, entries: seq<Entry>, times: seq<nat>): (r: seq<Conflict>)
    requires |entries| == |times|
  {
    if entries == [] then []
    else
      var n := |entries| - 1;
      var host := HostOf(entries[n]);
      Refusals(db, me, ttl, entries[..n], times[..n])
      + (if Blocked(db.agents, db.routes, me, host, times[n], ttl)
         then [ConflictFor(db.agents, db.routes, me, host, times[n], ttl)] else [])
  }

  function LastFor(entries: seq<Entry>, host: string): (i: nat)
    requires host in HostsOf(entries)
    ensures i < |entries| && HostOf(entries[i]) == host
    ensures forall k :: i < k < |entries| ==> HostOf(entries[k]) != host
  {
    var n := |entries| - 1;
    if HostOf(entries[n]) == host then n
    else
      assert entries == entries[..n] + [entries[n]];
      LastFor(entries[..n], host)
  }

  predicate NonDecreasing(times: seq<nat>)
  {
    forall i, j :: 0 <= i < j < |times| ==> times[i] <= times[j]
  }

  lemma HostsOfInit(entries: seq<Entry>)
    requires entries != []
    ensures HostsOf(entries) == HostsOf(entries[..|entries| - 1]) + {HostOf(entries[|entries| - 1])}
  {
    var n := |entries| - 1;
    assert entries == entries[..n] + [entries[n]];
  }

  lemma {:induction false} UnblockedMembers(db: Db, me: string, ttl: nat, entries: seq<Entry>, times: seq<nat>, host: string)
    requires |entries| == |times|
    ensures host in Unblocked(db, me, ttl, entries, times) <==>
            exists i :: 0 <= i < |entries| && HostOf(entries[i]) == host && !Blocked(db.agents, db.routes, me, host, times[i], ttl)
  {
    if entries != [] {
      var n := |entries| - 1;
      UnblockedMembers(db, me, ttl, entries[..n], times[..n], host);
      if host in Unblocked(db, me, ttl, entries[..n], times[..n]) {
        var i :| 0 <= i < n && HostOf(entries[..n][i]) == host && !Blocked(db.agents, db.routes, me, host, times[..n][i], ttl);
        assert HostOf(entries[i]) == host && !Blocked(db.agents, db.routes, me, host, times[i], ttl);
      }
      if i :| 0 <= i < |entries| && HostOf(entries[i]) == host && !Blocked(db.agents, db.routes, me, host, times[i], ttl) {
        if i < n {
          assert HostOf(entries[..n][i]) == host && !Blocked(db.agents, db.routes, me, host, times[..n][i], ttl);
        }
      }
    }
  }

  /** Once a host is free of others' live leases it stays free: nothing in a PUT renews one. */
  lemma UnblockedLater(db: Db, me: string, ttl: nat, entries: seq<Entry>, times: seq<nat>, host: string, now: nat)
    requires |entries| == |times| && host in Unblocked(db, me, ttl, entries, times)
    requires forall i :: 0 <= i < |times| ==> times[i] <= now
    ensures !Blocked(db.agents, db.routes, me, host, now, ttl)
  {
    UnblockedMembers(db, me, ttl, entries, times, host);
    var i :| 0 <= i < |entries| && HostOf(entries[i]) == host && !Blocked(db.agents, db.routes, me, host, times[i], ttl);
  }

  /** What one row looks like when the entries are done and the sweep is still to come. */
  predicate RowDone(db: Db, me: string, ttl: nat, entries: seq<Entry>, times: seq<nat>, routes: map<string, Row>, h: string)
    requires |entries| == |times|
  {
    if h in Unblocked(db, me, ttl, entries, times) then
      h in HostsOf(entries) && h in routes &&
      routes[h] == RowFor(me, entries[LastFor(entries, h)], times[LastFor(entries, h)])
    else
      (h in routes <==> h in db.routes) && (h in routes ==> routes[h] == db.routes[h])
  }

  lemma {:induction false} PutEntriesExact(db: Db, me: string, ttl: nat, entries: seq<Entry>, times: seq<nat>)
    requires |entries| == |times| && NonDecreasing(times)
    ensures var st := PutEntries(db, me, ttl, entries, times);
            && st.accepted == Unblocked(db, me, ttl, entries, times)
            && st.conflicts == Refusals(db, me, ttl, entries, times)
            && forall h :: RowDone(db, me, ttl, entries, times, st.routes, h)
  {
    if entries != [] {
      var n := |entries| - 1;
      var es, ts, g := entries[..n], times[..n], HostOf(entries[n]);
      PutEntriesExact(db, me, ttl, es, ts);
      var before := PutEntries(db, me, ttl, es, ts);
      var st := PutEntries(db, me, ttl, entries, times);
      assert RowDone(db, me, ttl, es, ts, before.routes, g);
      if g in Unblocked(db, me, ttl, es, ts) {
        UnblockedLater(db, me, ttl, es, ts, g, times[n]);
      }
      assert Blocked(db.agents, before.routes, me, g, times[n], ttl) == Blocked(db.agents, db.routes, me, g, times[n], ttl);
      HostsOfInit(entries);
      forall h
        ensures RowDone(db, me, ttl, entries, times, st.routes, h)
      {
        assert RowDone(db, me, ttl, es, ts, before.routes, h);
        if h != g && h in Unblocked(db, me, ttl, es, ts) {
          assert LastFor(entries, h) == LastFor(es, h);
        }
      }
    }
  }

  /** What one row looks like after the whole PUT. */
  predicate RowAfterPut(db: Db, me: string, ttl: nat, entries: seq<Entry>, times: seq<nat>, routes: map<string, Row>, h: string)
    requires |entries| == |times|
  {
    if h in Unblocked(db, me, ttl, entries, times) then
      h in HostsOf(entries) && h in routes &&
      routes[h] == RowFor(me, entries[LastFor(entries, h)], times[LastFor(entries, h)])
    else
      (h in routes <==> h in db.routes && db.routes[h].owner != me) && (h in routes ==> routes[h] == db.routes[h])
  }

  /** `put_routes` with a clock that does not run backwards: accepted and conflicting entries
      are told apart by the table as it was, the agent's rows afterwards are the accepted hosts
      with their last entries, and all other rows are as they were. */
  lemma PutRoutesExact(db: Db, me: string, ttl: nat, entries: seq<Entry>, times: seq<nat>)
    requires |entries| == |times| && NonDecreasing(times)
    ensures var r := PutRoutes(db, me, ttl, entries, times);
            && r.accepted == Unblocked(db, me, ttl, entries, times)
            && r.conflicts == Refusals(db, me, ttl, entries, times)
            && forall h :: RowAfterPut(db, me, ttl, entries, times, r.routes, h)
  {
    PutEntriesExact(db, me, ttl, entries, times);
    var st, r := PutEntries(db, me, ttl, entries, times), PutRoutes(db, me, ttl, entries, times);
    forall h
      ensures RowAfterPut(db, me, ttl, entries, times, r.routes, h)
    {
      assert RowDone(db, me, ttl, entries, times, st.routes, h);
      UnblockedMembers(db, me, ttl, entries, times, h);
      if h in db.routes && db.routes[h].owner == me && h in HostsOf(entries) {
        var i := LastFor(entries, h);
        assert !Blocked(db.agents, db.routes, me, h, times[i], ttl);
      }
    }
  }

  function Always(n: nat, now: nat): (ts: seq<nat>)
    ensures |ts| == n && NonDecreasing(ts)
  {
    seq(n, _ => now)
  }

  /** A PUT at one instant. */
  function PutAt(db: Db, me: string, ttl: nat, entries: seq<Entry>, now: nat): (r: PutState)
  {
    PutRoutes(db, me, ttl, entries, Always(|entries|, now))
  }

  lemma UnblockedAt(db: Db, me: string, ttl: nat, entries: seq<Entry>, now: nat, h: string)
    ensures h in Unblocked(db, me, ttl, entries, Always(|entries|, now)) <==>
            h in HostsOf(entries) && !Blocked(db.agents, db.routes, me, h, now, ttl)
  {
    UnblockedMembers(db, me, ttl, entries, Always(|entries|, now), h);
    if h in HostsOf(entries) && !Blocked(db.agents, db.routes, me, h, now, ttl) {
      var i := LastFor(entries, h);
      assert Always(|entries|, now)[i] == now;
    }
  }

  lemma {:induction false} RefusalsAt(db: Db, me: string, ttl: nat, entries: seq<Entry>, times: seq<nat>, now: nat)
    requires |entries| == |times| && forall i :: 0 <= i < |times| ==> times[i] == now
    ensures forall c :: c in Refusals(db, me, ttl, entries, times) <==>
              c.hostname in HostsOf(entries) && Blocked(db.agents, db.routes, me, c.hostname, now, ttl)
              && c == ConflictFor(db.agents, db.routes, me, c.hostname, now, ttl)
  {
    if entries != [] {
      var n := |entries| - 1;
      RefusalsAt(db, me, ttl, entries[..n], times[..n], now);
      HostsOfInit(entries);
    }
  }

  /** At one instant: a host asked for is accepted or conflicting, never both, however often it
      is repeated, and which one depends on the original table alone; the agent then owns exactly
      the accepted hosts, each with its last entry; no other row has changed. */
  lemma PutAtMeaning(db: Db, me: string, ttl: nat, entries: seq<Entry>, now: nat)
    ensures var r := PutAt(db, me, ttl, entries, now);
            && (forall h :: h in r.accepted <==> h in HostsOf(entries) && !Blocked(db.agents, db.routes, me, h, now, ttl))
            && (forall c :: c in r.conflicts <==>
                  c.hostname in HostsOf(entries) && Blocked(db.agents, db.routes, me, c.hostname, now, ttl)
                  && c == ConflictFor(db.agents, db.routes, me, c.hostname, now, ttl))
            && |r.accepted| + |r.conflicts| == |entries|
            && (forall h :: h in r.routes && r.routes[h].owner == me <==> h in r.accepted)
            && (forall h :: h in r.accepted ==> h in HostsOf(entries) && h in r.routes
                                                && r.routes[h] == RowFor(me, entries[LastFor(entries, h)], now))
            && (forall h :: h !in r.accepted ==>
                  (h in r.routes <==> h in db.routes && db.routes[h].owner != me)
                  && (h in r.routes ==> r.routes[h] == db.routes[h]))
  {
    var ts, r := Always(|entries|, now), PutAt(db, me, ttl, entries, now);
    PutRoutesExact(db, me, ttl, entries, ts);
    RefusalsAt(db, me, ttl, entries, ts, now);
    PartitionCount(db, me, ttl, entries, ts);
    forall h
      ensures h in r.accepted <==> h in HostsOf(entries) && !Blocked(db.agents, db.routes, me, h, now, ttl)
    {
      UnblockedAt(db, me, ttl, entries, now, h);
    }
    forall h
      ensures h in r.routes && r.routes[h].owner == me <==> h in r.accepted
      ensures h in r.accepted ==> h in HostsOf(entries) && h in r.routes
                                  && r.routes[h] == RowFor(me, entries[LastFor(entries, h)], now)
      ensures h !in r.accepted ==> (h in r.routes <==> h in db.routes && db.routes[h].owner != me)
                                   && (h in r.routes ==> r.routes[h] == db.routes[h])
    {
      assert RowAfterPut(db, me, ttl, entries, ts, r.routes, h);
    }
  }

  lemma {:induction false} PartitionCount(db: Db, me: string, ttl: nat, entries: seq<Entry>, times: seq<nat>)
    requires |entries| == |times|
    ensures |Unblocked(db, me, ttl, entries, times)| + |Refusals(db, me, ttl, entries, times)| == |entries|
  {
    if entries != [] {
      var n := |entries| - 1;
      PartitionCount(db, me, ttl, entries[..n], times[..n]);
    }
  }

  /** The expiry a conflict reports is exact. While the owner keeps the row and sends no
      heartbeat, a retry at any time is accepted just when that time has come. */
  lemma ConflictExpiryExact(db: Db, me: string, ttl: nat, entries: seq<Entry>, now: nat, c: Conflict,
                            db': Db, entries': seq<Entry>, now': nat)
    requires c in PutAt(db, me, ttl, entries, now).conflicts
    requires Owns(db', c.owner, c.hostname)
    requires c.owner in db.agents && c.owner in db'.agents
    requires db'.agents[c.owner].lastSeen == db.agents[c.owner].lastSeen
    requires c.hostname in HostsOf(entries')
    ensures now < c.expires
    ensures c.hostname in PutAt(db', me, ttl, entries', now').accepted <==> c.expires <= now'
    ensures c in PutAt(db', me, ttl, entries', now').conflicts <==> now' < c.expires
  {
    PutAtMeaning(db, me, ttl, entries, now);
    PutAtMeaning(db', me, ttl, entries', now');
  }

  lemma {:induction false} SameBlocking(d: Db, e: Db, me: string, ttl: nat, entries: seq<Entry>, times: seq<nat>)
    requires |entries| == |times| && d.agents == e.agents
    requires forall i :: 0 <= i < |entries| ==>
               var h := HostOf(entries[i]);
               && Blocked(d.agents, d.routes, me, h, times[i], ttl) == Blocked(d.agents, e.routes, me, h, times[i], ttl)
               && (Blocked(d.agents, d.routes, me, h, times[i], ttl) ==> d.routes[h] == e.routes[h])
    ensures Unblocked(d, me, ttl, entries, times) == Unblocked(e, me, ttl, entries, times)
    ensures Refusals(d, me, ttl, entries, times) == Refusals(e, me, ttl, entries, times)
  {
    if entries != [] {
      var n := |entries| - 1;
      SameBlocking(d, e, me, ttl, entries[..n], times[..n]);
    }
  }

  lemma BlockedAfterPut(db: Db, me: string, ttl: nat, entries: seq<Entry>, now: nat, h: string)
    requires h in HostsOf(entries)
    ensures var r := PutAt(db, me, ttl, entries, now);
            && Blocked(db.agents, db.routes, me, h, now, ttl) == Blocked(db.agents, r.routes, me, h, now, ttl)
            && (Blocked(db.agents, db.routes, me, h, now, ttl) ==> db.routes[h] == r.routes[h])
  {
    PutAtMeaning(db, me, ttl, entries, now);
    var r := PutAt(db, me, ttl, entries, now);
    assert h in r.accepted <==> !Blocked(db.agents, db.routes, me, h, now, ttl);
  }

  lemma SameRouteAgain(db: Db, me: string, ttl: nat, entries: seq<Entry>, now: nat, h: string)
    ensures var r := PutAt(db, me, ttl, entries, now);
            var r2 := PutAt(db.(routes := r.routes), me, ttl, entries, now);
            r.accepted == r2.accepted ==>
              (h in r.routes <==> h in r2.routes) && (h in r.routes ==> r.routes[h] == r2.routes[h])
  {
    var r := PutAt(db, me, ttl, entries, now);
    PutAtMeaning(db, me, ttl, entries, now);
    PutAtMeaning(db.(routes := r.routes), me, ttl, entries, now);
    assert h in r.accepted || h !in r.accepted;
  }

  /** Repeating a PUT at the same instant changes nothing and answers the same. */
  lemma PutIdempotent(db: Db, me: string, ttl: nat, entries: seq<Entry>, now: nat)
    ensures var r := PutAt(db, me, ttl, entries, now);
            PutAt(db.(routes := r.routes), me, ttl, entries, now) == r
  {
    var ts, r := Always(|entries|, now), PutAt(db, me, ttl, entries, now);
    var again := db.(routes := r.routes);
    var r2 := PutAt(again, me, ttl, entries, now);
    forall i | 0 <= i < |entries|
      ensures var h := HostOf(entries[i]);
              && Blocked(db.agents, db.routes, me, h, ts[i], ttl) == Blocked(db.agents, r.routes, me, h, ts[i], ttl)
              && (Blocked(db.agents, db.routes, me, h, ts[i], ttl) ==> db.routes[h] == r.routes[h])
    {
      BlockedAfterPut(db, me, ttl, entries, now, HostOf(entries[i]));
    }
    SameBlocking(db, again, me, ttl, entries, ts);
    PutRoutesExact(db, me, ttl, entries, ts);
    PutRoutesExact(again, me, ttl, entries, ts);
    forall h
      ensures (h in r.routes <==> h in r2.routes) && (h in r.routes ==> r.routes[h] == r2.routes[h])
    {
      SameRouteAgain(db, me, ttl, entries, now, h);
    }
    assert r.routes == r2.routes;
  }

  lemma SameHostsPermuted(entries: seq<Entry>, entries': seq<Entry>)
    requires multiset(entries) == multiset(entries')
    ensures HostsOf(entries) == HostsOf(entries')
    ensures forall e :: e in entries <==> e in entries'
  {
    forall e
      ensures e in entries <==> e in entries'
    {
      assert e in multiset(entries) <==> e in multiset(entries');
    }
  }

  /** With distinct hosts a host's last entry is its only one, wherever it stands. */
  lemma SameEntryPermuted(entries: seq<Entry>, entries': seq<Entry>, h: string)
    requires forall e :: e in entries <==> e in entries'
    requires forall i, j :: 0 <= i < j < |entries| ==> HostOf(entries[i]) != HostOf(entries[j])
    requires h in HostsOf(entries) && h in HostsOf(entries')
    ensures entries[LastFor(entries, h)] == entries'[LastFor(entries', h)]
  {
    var e := entries'[LastFor(entries', h)];
    assert e in entries;
    var i :| 0 <= i < |entries| && entries[i] == e;
    assert i == LastFor(entries, h);
  }

  /** Reordering a request whose hosts are distinct gives the same table and the same sets of
      accepted hosts and conflicts. */
  lemma PutPermutation(db: Db, me: string, ttl: nat, entries: seq<Entry>, entries': seq<Entry>, now: nat)
    requires multiset(entries) == multiset(entries')
    requires forall i, j :: 0 <= i < j < |entries| ==> HostOf(entries[i]) != HostOf(entries[j])
    ensures var r, r' := PutAt(db, me, ttl, entries, now), PutAt(db, me, ttl, entries', now);
            && r.routes == r'.routes
            && (forall h :: h in r.accepted <==> h in r'.accepted)
            && (forall c :: c in r.conflicts <==> c in r'.conflicts)
  {
    var r, r' := PutAt(db, me, ttl, entries, now), PutAt(db, me, ttl, entries', now);
    PutAtMeaning(db, me, ttl, entries, now);
    PutAtMeaning(db, me, ttl, entries', now);
    SameHostsPermuted(entries, entries');
    forall h
      ensures (h in r.routes <==> h in r'.routes) && (h in r.routes ==> r.routes[h] == r'.routes[h])
    {
      assert h in r.accepted <==> h in r'.accepted;
      if h in r.accepted {
        SameEntryPermuted(entries, entries', h);
      }
    }
    assert r.routes == r'.routes;
  }
}
