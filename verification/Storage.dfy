/** The storage object: the tables updated in place by the statements of each operation. */
module Storage {
  import opened Text
  import opened Leases
  import opened Views

  // ---- Operations as functions of the tables ----

  function AddToken(db: Db, token: string): (r: Db)
  {
    if token in db.tokens then db else db.(tokens := db.tokens[token := false])
  }

  predicate TokenUsable(db: Db, token: string)
  {
    token in db.tokens && !db.tokens[token]
  }

  /** The update is keyed by the token alone: whether it is still unused is not asked again. */
  function MarkUsed(db: Db, token: string): (r: Db)
  {
    if token in db.tokens then db.(tokens := db.tokens[token := true]) else db
  }

  function UseToken(db: Db, token: string): (r: Db)
  {
    if TokenUsable(db, token) then MarkUsed(db, token) else db
  }

  /** An agent id that is already taken violates the primary key and adds nothing. */
  function AddAgent(db: Db, id: string, name: string, ip: string, credential: string, now: nat): (r: Db)
  {
    if id in db.agents then db
    else db.(agents := db.agents[id := Agent(name, ip, credential, Some(now), false)])
  }

  predicate Authorized(db: Db, id: string, credential: string)
  {
    Enrolled(db, id) && db.agents[id].credential == credential
  }

  function Beat(db: Db, id: string, ip: string, now: nat): (r: Db)
  {
    if Enrolled(db, id) then db.(agents := db.agents[id := db.agents[id].(lastSeen := Some(now), ip := ip)]) else db
  }

  function DropRoute(db: Db, host: string): (r: Db)
  {
    db.(routes := db.routes - {Lower(host)})
  }

  function MarkRevoked(db: Db, id: string): (r: Db)
  {
    if id in db.agents then db.(agents := db.agents[id := db.agents[id].(revoked := true)]) else db
  }

  function DropOwned(db: Db, id: string): (r: Db)
  {
    db.(routes := map h | h in db.routes && db.routes[h].owner != id :: db.routes[h])
  }

  function Revoke(db: Db, id: string): (r: Db)
  {
    DropOwned(MarkRevoked(db, id), id)
  }

  datatype DnsRoute = DnsRoute(hostname: string, ip: string)

  datatype PutReply = NotFound | Outcome(accepted: seq<string>, conflicts: seq<Conflict>)

  /** The loop over the agent's rows at the end of a PUT. */
  method SweepOwned(routes: map<string, Row>, me: string, desired: set<string>) returns (tx: map<string, Row>)
    ensures tx == Sweep(routes, me, desired)
  {
    tx := routes;
    var owned := set h | h in tx && tx[h].owner == me;
    while owned != {}
      invariant forall h :: h in owned ==> h in tx && tx[h].owner == me
      invariant forall h :: h in tx ==> h in routes && tx[h] == routes[h]
      invariant forall h :: h in routes && h !in tx ==> routes[h].owner == me && h !in desired
      invariant forall h :: h in tx && tx[h].owner == me && h !in owned ==> h in desired
      decreases |owned|
    {
      var h :| h in owned;
      owned := owned - {h};
      if h !in desired {
        tx := tx - {h};
      }
    }
    assert tx == Sweep(routes, me, desired);
  }

  class Store {
    var agents: map<string, Agent>
    var routes: map<string, Row>
    var tokens: map<string, bool>

    ghost function View(): (db: Db)
      reads this
    {
      Db(agents, routes, tokens)
    }

    constructor ()
      ensures View() == Db(map[], map[], map[])
    {
      agents, routes, tokens := map[], map[], map[];
    }

    /** The token is drawn by the caller; a hash is taken to be verified by its own token only. */
    method CreateEnrollmentToken(token: string) returns (ok: bool)
      modifies this`tokens
      ensures View() == AddToken(old(View()), token)
      ensures ok == (token !in old(tokens))
    {
      ok := token !in tokens;
      if ok {
        tokens := tokens[token := false];
      }
    }

    /** Tries the unused tokens one after the other. */
    method ConsumeEnrollmentToken(token: string) returns (ok: bool)
      modifies this`tokens
      ensures View() == UseToken(old(View()), token)
      ensures ok == old(TokenUsable(View(), token))
    {
      var rows := set t | t in tokens && !tokens[t];
      while rows != {}
        invariant tokens == old(tokens)
        invariant rows <= set t | t in tokens && !tokens[t]
        invariant TokenUsable(View(), token) ==> token in rows
        decreases |rows|
      {
        var row :| row in rows;
        if row == token {
          tokens := tokens[row := true];
          return true;
        }
        rows := rows - {row};
      }
      ok := false;
    }

    method EnrollAgent(id: string, name: string, ip: string, credential: string, now: nat) returns (ok: bool)
      modifies this`agents
      ensures View() == AddAgent(old(View()), id, name, ip, credential, now)
      ensures ok == (id !in old(agents))
    {
      ok := id !in agents;
      if ok {
        agents := agents[id := Agent(name, ip, credential, Some(now), false)];
      }
    }

    method VerifyAgentToken(id: string, credential: string) returns (ok: bool)
      ensures ok == Authorized(View(), id, credential)
    {
      ok := id in agents && !agents[id].revoked && agents[id].credential == credential;
    }

    method Heartbeat(id: string, ip: string, now: nat) returns (ok: bool)
      modifies this`agents
      ensures View() == Beat(old(View()), id, ip, now)
      ensures ok == Enrolled(old(View()), id)
    {
      ok := id in agents && !agents[id].revoked;
      if ok {
        agents := agents[id := agents[id].(lastSeen := Some(now), ip := ip)];
      }
    }

    /** Replaces the agent's full route set in one transaction; `times` are the clock readings. */
    method PutRoutes(me: string, entries: seq<Entry>, ttl: nat, times: seq<nat>) returns (r: PutReply)
      requires |entries| == |times|
      modifies this`routes
      ensures !Enrolled(View(), me) ==> r == NotFound && routes == old(routes)
      ensures Enrolled(View(), me) ==>
                var p := Leases.PutRoutes(old(View()), me, ttl, entries, times);
                r == Outcome(p.accepted, p.conflicts) && routes == p.routes
    {
      if me !in agents || agents[me].revoked {
        return NotFound;
      }
      var accepted, conflicts, desired := [], [], {};
      var tx := routes;
      var i := 0;
      while i < |entries|
        invariant 0 <= i <= |entries|
        invariant PutState(accepted, conflicts, tx) == PutEntries(View(), me, ttl, entries[..i], times[..i])
        invariant desired == HostsOf(entries[..i])
        invariant routes == old(routes)
      {
        var host := HostOf(entries[i]);
        desired := desired + {host};
        if host in tx && tx[host].owner in agents && tx[host].owner != me
           && Live(agents[tx[host].owner].lastSeen, times[i], ttl)
        {
          conflicts := conflicts + [Conflict(host, tx[host].owner, agents[tx[host].owner].lastSeen.value + ttl)];
        } else {
          tx := tx[host := RowFor(me, entries[i], times[i])];
          accepted := accepted + [host];
        }
        PutEntriesStep(View(), me, ttl, entries, times, i);
        i := i + 1;
      }
      assert entries[..i] == entries && times[..i] == times;
      routes := SweepOwned(tx, me, desired);
      r := Outcome(accepted, conflicts);
    }

    method DeleteRoute(host: string)
      modifies this`routes
      ensures View() == DropRoute(old(View()), host)
    {
      routes := routes - {Lower(host)};
    }

    method RevokeAgent(id: string)
      modifies this`agents, this`routes
      ensures View() == Revoke(old(View()), id)
    {
      if id in agents {
        agents := agents[id := agents[id].(revoked := true)];
      }
      routes := map h | h in routes && routes[h].owner != id :: routes[h];
    }

    /** The rows come in no particular order. */
    method ActiveDnsRoutes(ttl: nat, now: nat) returns (out: seq<DnsRoute>)
      ensures forall h, ip :: DnsRoute(h, ip) in out <==>
                h in ActiveRoutes(View(), now, ttl) && ActiveRoutes(View(), now, ttl)[h] == ip
    {
      var rows := set h | h in routes && routes[h].owner in agents && !agents[routes[h].owner].revoked;
      ghost var all := rows;
      out := [];
      while rows != {}
        invariant rows <= all
        invariant forall h, ip :: DnsRoute(h, ip) in out <==>
                    h in all && h !in rows && h in ActiveRoutes(View(), now, ttl) && ActiveRoutes(View(), now, ttl)[h] == ip
        decreases |rows|
      {
        var h :| h in rows;
        if Live(agents[routes[h].owner].lastSeen, now, ttl) {
          out := out + [DnsRoute(h, agents[routes[h].owner].ip)];
        }
        rows := rows - {h};
      }
    }

    /** Deletes the rows of agents whose last heartbeat sorts before the cutoff, as text. */
    method PurgeExpiredAgents(ttl: nat, now: nat) returns (deleted: nat)
      requires ttl <= now
      modifies this`routes
      ensures View() == Purge(old(View()), now - ttl)
      ensures deleted == |old(routes)| - |routes|
    {
      var stale := StaleAgents(agents, now - ttl);
      var kept := map h | h in routes && routes[h].owner !in stale :: routes[h];
      assert kept.Keys <= routes.Keys;
      SubsetSmaller(kept.Keys, routes.Keys);
      deleted := |routes| - |kept|;
      routes := kept;
    }
  }

  lemma SubsetSmaller(a: set<string>, b: set<string>)
    requires a <= b
    ensures |a| <= |b|
  {
    assert b == a + (b - a);
  }
}
