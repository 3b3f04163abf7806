/** What overlapping handlers can break that no serial run breaks, and exactly when: rows of revoked
    agents, publications that overtake each other, and enrolment tokens used twice. */
module Overlaps {
  import opened Leases
  import opened Views
  import opened Storage
  import opened Controller
  import opened Interleaving

  // ---- Rows of revoked agents ----

  predicate OwnersEnrolled(db: Db)
  {
    forall h :: h in db.routes ==> Enrolled(db, db.routes[h].owner)
  }

  /** A PUT commits for an agent revoked since its checks, and some host of it is free. */
  predicate LateCommit(cfg: Config, g: Global, a: Action)
  {
    && a.Proceed? && a.t in g.tasks && g.tasks[a.t].PutChecked?
    && !Enrolled(g.db, g.tasks[a.t].id)
    && exists h :: h in HostsOf(g.tasks[a.t].entries) && !Blocked(g.db.agents, g.db.routes, g.tasks[a.t].id, h, g.clock, cfg.ttl)
  }

  /** An agent with rows is marked; its rows go with a later statement. */
  ghost predicate OwnerMarked(g: Global, a: Action)
  {
    a.BeginRevoke? && a.t !in g.tasks && exists h :: Owns(g.db, a.id, h)
  }

  lemma OwnersFewer(d: Db, e: Db)
    requires OwnersEnrolled(d)
    requires forall h :: h in e.routes ==> h in d.routes && e.routes[h] == d.routes[h]
    requires forall id :: Enrolled(d, id) ==> Enrolled(e, id)
    ensures OwnersEnrolled(e)
  {
  }

  lemma OwnersAfterPut(db: Db, id: string, ttl: nat, entries: seq<Entry>, now: nat)
    requires OwnersEnrolled(db)
    ensures OwnersEnrolled(db.(routes := PutAt(db, id, ttl, entries, now).routes)) <==>
            Enrolled(db, id) || forall h :: h in HostsOf(entries) ==> Blocked(db.agents, db.routes, id, h, now, ttl)
  {
    PutAtMeaning(db, id, ttl, entries, now);
    var r := PutAt(db, id, ttl, entries, now);
    var e := db.(routes := r.routes);
    assert forall h :: h in r.routes ==> h in r.accepted || h !in r.accepted;
    if h :| h in HostsOf(entries) && !Blocked(db.agents, db.routes, id, h, now, ttl) {
      assert h in r.accepted && h in e.routes && e.routes[h].owner == id;
    }
  }

  lemma OwnersAfterMark(db: Db, id: string)
    requires OwnersEnrolled(db)
    ensures OwnersEnrolled(MarkRevoked(db, id)) <==> !exists h :: Owns(db, id, h)
  {
    var e := MarkRevoked(db, id);
    if h :| Owns(db, id, h) {
      assert h in e.routes && !Enrolled(e, id);
    } else {
      forall h | h in e.routes
        ensures Enrolled(e, e.routes[h].owner)
      {
        assert !Owns(db, id, h);
      }
    }
  }

  /** From tables in which every owner is enrolled and not revoked, a step leads to such tables
      exactly unless it is a late commit or the mark of an agent that owns a row. */
  lemma OwnersExact(cfg: Config, g: Global, a: Action)
    requires cfg.ttl <= g.clock && OwnersEnrolled(g.db)
    ensures OwnersEnrolled(Act(cfg, g, a).db) <==> !LateCommit(cfg, g, a) && !OwnerMarked(g, a)
  {
    if a.Proceed? && a.t in g.tasks && g.tasks[a.t].PutChecked? {
      OwnersAfterPut(g.db, g.tasks[a.t].id, cfg.ttl, g.tasks[a.t].entries, g.clock);
    } else if a.BeginRevoke? && a.t !in g.tasks {
      OwnersAfterMark(g.db, a.id);
    } else {
      RowsShrink(cfg, g, a);
      OwnersFewer(g.db, Act(cfg, g, a).db);
    }
  }

  /** All other steps add no row and take no agent out. */
  lemma RowsShrink(cfg: Config, g: Global, a: Action)
    requires cfg.ttl <= g.clock
    requires !(a.Proceed? && a.t in g.tasks && g.tasks[a.t].PutChecked?)
    ensures var e := Act(cfg, g, a).db;
            && (forall h :: h in e.routes ==> h in g.db.routes && e.routes[h] == g.db.routes[h])
            && (forall id :: Enrolled(g.db, id) && !(a.BeginRevoke? && a.id == id) ==> Enrolled(e, id))
  {
    hide DnsView, PutAt, StaleAgents;
  }

  /** Over a run: every owner is enrolled in all its states exactly when that holds at the start and
      no step is a late commit or the mark of an agent that owns a row. */
  lemma {:induction false} OwnersOverRuns(cfg: Config, g: Global, acts: seq<Action>)
    requires cfg.ttl <= g.clock
    ensures (forall j :: 0 <= j <= |acts| ==> OwnersEnrolled(At(cfg, g, acts[..j]).db)) <==>
            OwnersEnrolled(g.db) && forall j :: 0 <= j < |acts| ==>
              !LateCommit(cfg, At(cfg, g, acts[..j]), acts[j]) && !OwnerMarked(At(cfg, g, acts[..j]), acts[j])
  {
    assert At(cfg, g, acts[..0]) == g;
    if forall j :: 0 <= j <= |acts| ==> OwnersEnrolled(At(cfg, g, acts[..j]).db) {
      forall j | 0 <= j < |acts|
        ensures !LateCommit(cfg, At(cfg, g, acts[..j]), acts[j]) && !OwnerMarked(At(cfg, g, acts[..j]), acts[j])
      {
        AtPrefix(cfg, g, acts, j);
        OwnersExact(cfg, At(cfg, g, acts[..j]), acts[j]);
      }
    } else if OwnersEnrolled(g.db) {
      var j :| 0 <= j <= |acts| && !OwnersEnrolled(At(cfg, g, acts[..j]).db);
      var i := FirstBroken(cfg, g, acts, j);
      AtPrefix(cfg, g, acts, i);
      OwnersExact(cfg, At(cfg, g, acts[..i]), acts[i]);
    }
  }

  lemma {:induction false} FirstBroken(cfg: Config, g: Global, acts: seq<Action>, j: nat) returns (i: nat)
    requires cfg.ttl <= g.clock && j <= |acts|
    requires OwnersEnrolled(g.db) && !OwnersEnrolled(At(cfg, g, acts[..j]).db)
    ensures i < j && OwnersEnrolled(At(cfg, g, acts[..i]).db) && !OwnersEnrolled(At(cfg, g, acts[..i + 1]).db)
  {
    assert At(cfg, g, acts[..0]) == g;
    if OwnersEnrolled(At(cfg, g, acts[..j - 1]).db) {
      i := j - 1;
    } else {
      i := FirstBroken(cfg, g, acts, j - 1);
    }
  }

  // Rows of revoked agents that no handler is about to delete.

  predicate BeingDropped(g: Global, id: string)
  {
    exists t :: t in g.tasks && g.tasks[t] == RevokeMarked(id)
  }

  predicate RowsAccounted(g: Global)
  {
    forall h :: h in g.db.routes ==> Enrolled(g.db, g.db.routes[h].owner) || BeingDropped(g, g.db.routes[h].owner)
  }

  lemma DroppedLater(cfg: Config, g: Global, a: Action, id: string)
    requires cfg.ttl <= g.clock && BeingDropped(g, id)
    ensures BeingDropped(Act(cfg, g, a), id) || !exists h :: Owns(Act(cfg, g, a).db, id, h)
  {
    var t :| t in g.tasks && g.tasks[t] == RevokeMarked(id);
    if !(a.Proceed? && a.t == t) {
      assert Act(cfg, g, a).tasks[t] == RevokeMarked(id);
    }
  }

  lemma CommitKeepsDropping(cfg: Config, g: Global, t: nat, id: string)
    requires cfg.ttl <= g.clock && t in g.tasks && g.tasks[t].PutChecked?
    ensures BeingDropped(Act(cfg, g, Proceed(t)), id) <==> BeingDropped(g, id)
  {
    var e := Act(cfg, g, Proceed(t));
    assert forall u :: u != t ==> (u in e.tasks <==> u in g.tasks) && (u in g.tasks ==> e.tasks[u] == g.tasks[u]);
    assert e.tasks[t] == NeedRows;
  }

  lemma AccountedAfterCommit(cfg: Config, g: Global, t: nat)
    requires cfg.ttl <= g.clock && t in g.tasks && g.tasks[t].PutChecked? && RowsAccounted(g)
    ensures RowsAccounted(Act(cfg, g, Proceed(t))) <==>
            !(LateCommit(cfg, g, Proceed(t)) && !BeingDropped(g, g.tasks[t].id))
  {
    hide DnsView, Purge;
    var id, entries := g.tasks[t].id, g.tasks[t].entries;
    var e := Act(cfg, g, Proceed(t));
    var r := PutAt(g.db, id, cfg.ttl, entries, g.clock);
    PutAtMeaning(g.db, id, cfg.ttl, entries, g.clock);
    assert e.db.routes == r.routes && e.db.agents == g.db.agents;
    forall h
      ensures h in e.db.routes ==>
                (if h in r.accepted then e.db.routes[h].owner == id else h in g.db.routes && e.db.routes[h] == g.db.routes[h])
    {
    }
    forall o
      ensures BeingDropped(e, o) <==> BeingDropped(g, o)
    {
      CommitKeepsDropping(cfg, g, t, o);
    }
    if LateCommit(cfg, g, Proceed(t)) {
      var h :| h in HostsOf(entries) && !Blocked(g.db.agents, g.db.routes, id, h, g.clock, cfg.ttl);
      assert h in r.accepted && h in e.db.routes && e.db.routes[h].owner == id;
    }
  }

  /** Every row of a revoked agent is about to be deleted by the handler that revoked it, and a step
      breaks this exactly when it is a late commit after that handler's deletion. */
  lemma RowsAccountedExact(cfg: Config, g: Global, a: Action)
    requires cfg.ttl <= g.clock && RowsAccounted(g)
    ensures RowsAccounted(Act(cfg, g, a)) <==>
            !(LateCommit(cfg, g, a) && !BeingDropped(g, g.tasks[a.t].id))
  {
    if a.Proceed? && a.t in g.tasks && g.tasks[a.t].PutChecked? {
      AccountedAfterCommit(cfg, g, a.t);
    } else {
      var e := Act(cfg, g, a);
      RowsShrink(cfg, g, a);
      forall h | h in e.db.routes
        ensures Enrolled(e.db, e.db.routes[h].owner) || BeingDropped(e, e.db.routes[h].owner)
      {
        var o := e.db.routes[h].owner;
        assert h in g.db.routes && Owns(e.db, o, h);
        if BeingDropped(g, o) {
          DroppedLater(cfg, g, a, o);
        } else if a.BeginRevoke? && a.id == o && a.t !in g.tasks {
          assert e.tasks[a.t] == RevokeMarked(o);
        }
      }
    }
  }

  // ---- What a PUT in flight has passed ----

  /** Step `i` began the PUT, with the agent's credential and allowed hosts. */
  ghost predicate BegunAt(cfg: Config, g: Global, acts: seq<Action>, i: int, t: nat, id: string, entries: seq<Entry>)
    requires cfg.ttl <= g.clock
  {
    && 0 <= i < |acts| && acts[i].BeginPut? && acts[i].t == t && acts[i].id == id && acts[i].entries == entries
    && Authorized(At(cfg, g, acts[..i]).db, id, acts[i].credential) && AllAllowed(cfg, entries)
  }

  /** Step `j` found the agent enrolled and unrevoked. */
  ghost predicate FoundAt(cfg: Config, g: Global, acts: seq<Action>, j: int, t: nat, id: string)
    requires cfg.ttl <= g.clock
  {
    0 <= j < |acts| && acts[j] == Proceed(t) && Enrolled(At(cfg, g, acts[..j]).db, id)
  }

  ghost predicate Passed(cfg: Config, g: Global, acts: seq<Action>, t: nat, task: Task)
    requires cfg.ttl <= g.clock
  {
    && (task.PutVerified? || task.PutChecked? ==> exists i :: BegunAt(cfg, g, acts, i, t, task.id, task.entries))
    && (task.PutChecked? ==> exists j :: FoundAt(cfg, g, acts, j, t, task.id))
  }

  lemma PassedLater(cfg: Config, g: Global, acts: seq<Action>, a: Action, t: nat, task: Task)
    requires cfg.ttl <= g.clock && Passed(cfg, g, acts, t, task)
    ensures Passed(cfg, g, acts + [a], t, task)
  {
    hide Authorized, AllAllowed, At;
    var more := acts + [a];
    if task.PutVerified? || task.PutChecked? {
      var i :| BegunAt(cfg, g, acts, i, t, task.id, task.entries);
      assert more[..i] == acts[..i];
      assert BegunAt(cfg, g, more, i, t, task.id, task.entries);
    }
    if task.PutChecked? {
      var j :| FoundAt(cfg, g, acts, j, t, task.id);
      assert more[..j] == acts[..j];
      assert FoundAt(cfg, g, more, j, t, task.id);
    }
  }

  lemma PassedNow(cfg: Config, g: Global, acts: seq<Action>, a: Action, t: nat)
    requires cfg.ttl <= g.clock && t in Act(cfg, At(cfg, g, acts), a).tasks
    requires t in At(cfg, g, acts).tasks ==> Passed(cfg, g, acts, t, At(cfg, g, acts).tasks[t])
    ensures Passed(cfg, g, acts + [a], t, Act(cfg, At(cfg, g, acts), a).tasks[t])
  {
    hide DnsView, PutAt, Purge, Authorized, AllAllowed;
    var now, more := At(cfg, g, acts), acts + [a];
    ActTasks(cfg, now, a, t);
    assert more[..|acts|] == acts && more[|acts|] == a;
    if t in now.tasks {
      PassedLater(cfg, g, acts, a, t, now.tasks[t]);
      if a.Proceed? && a.t == t && now.tasks[t].PutVerified? && Enrolled(now.db, now.tasks[t].id) {
        assert FoundAt(cfg, g, more, |acts|, t, now.tasks[t].id);
      }
    } else if a.BeginPut? {
      assert BegunAt(cfg, g, more, |acts|, t, a.id, a.entries);
    }
  }

  /** A PUT about to commit was begun under the agent's credential with allowed hosts only, and the
      agent has been found enrolled and unrevoked in between. */
  lemma {:induction false} CommitHasPassed(cfg: Config, g: Global, acts: seq<Action>, t: nat)
    requires Boot(cfg, g) && t in At(cfg, g, acts).tasks
    ensures Passed(cfg, g, acts, t, At(cfg, g, acts).tasks[t])
  {
    var n := |acts| - 1;
    var init := acts[..n];
    assert acts == init + [acts[n]];
    AtStep(cfg, g, init, acts[n]);
    if t in At(cfg, g, init).tasks {
      CommitHasPassed(cfg, g, init, t);
    }
    PassedNow(cfg, g, init, acts[n], t);
  }

  /** A handler that meets its agent revoked before its lookup or its update ends there and changes
      neither tables nor registry. */
  lemma RevokedHandlersEnd(cfg: Config, g: Global, t: nat)
    requires cfg.ttl <= g.clock && t in g.tasks && (g.tasks[t].PutVerified? || g.tasks[t].BeatTimed?)
    requires !Enrolled(g.db, g.tasks[t].id)
    ensures Act(cfg, g, Proceed(t)) == g.(tasks := g.tasks[t := Finished])
  {
  }

  // ---- Revocation is for good ----

  lemma RevokedStep(cfg: Config, g: Global, a: Action, id: string)
    requires cfg.ttl <= g.clock && id in g.db.agents && g.db.agents[id].revoked
    ensures id in Act(cfg, g, a).db.agents && Act(cfg, g, a).db.agents[id] == g.db.agents[id]
  {
  }

  lemma {:induction false} RevokedForGood(cfg: Config, g: Global, acts: seq<Action>, id: string)
    requires cfg.ttl <= g.clock && id in g.db.agents && g.db.agents[id].revoked
    ensures id in At(cfg, g, acts).db.agents && At(cfg, g, acts).db.agents[id] == g.db.agents[id]
  {
    if acts != [] {
      var n := |acts| - 1;
      RevokedForGood(cfg, g, acts[..n], id);
      RevokedStep(cfg, At(cfg, g, acts[..n]), acts[n], id);
    }
  }

  /** A PUT that passed its checks can commit after its agent was revoked and leave rows behind. As
      long as the agent keeps such a row, whatever else happens, it is in no DNS view at any time,
      yet keeps other agents from the host until the revoked agent's lease would have run out. */
  lemma LatePutNeverPublished(cfg: Config, g: Global, t: nat, h: string, acts: seq<Action>, me: string, entries: seq<Entry>, now: nat)
    requires cfg.ttl <= g.clock && t in g.tasks && g.tasks[t].PutChecked?
    requires var id := g.tasks[t].id; id in g.db.agents && g.db.agents[id].revoked && id != me
    requires h in PutAt(g.db, g.tasks[t].id, cfg.ttl, g.tasks[t].entries, g.clock).accepted
    requires h in HostsOf(entries)
    ensures var id, db := g.tasks[t].id, At(cfg, Act(cfg, g, Proceed(t)), acts).db;
            && Owns(Act(cfg, g, Proceed(t)).db, id, h)
            && (Owns(db, id, h) ==>
                  && h !in DnsView(db, now, cfg.ttl)
                  && (h in PutAt(db, me, cfg.ttl, entries, now).accepted <==>
                      !Live(g.db.agents[id].lastSeen, now, cfg.ttl)))
  {
    hide DnsView, Purge;
    var id, g1 := g.tasks[t].id, Act(cfg, g, Proceed(t));
    PutAtMeaning(g.db, id, cfg.ttl, g.tasks[t].entries, g.clock);
    RevokedStep(cfg, g, Proceed(t), id);
    RevokedForGood(cfg, g1, acts, id);
    if Owns(At(cfg, g1, acts).db, id, h) {
      KeptFromOthers(At(cfg, g1, acts).db, id, h, me, entries, cfg.ttl, now);
    }
  }

  lemma KeptFromOthers(db: Db, id: string, h: string, me: string, entries: seq<Entry>, ttl: nat, now: nat)
    requires id in db.agents && db.agents[id].revoked && id != me && Owns(db, id, h) && h in HostsOf(entries)
    ensures h !in DnsView(db, now, ttl)
    ensures h in PutAt(db, me, ttl, entries, now).accepted <==> !Live(db.agents[id].lastSeen, now, ttl)
  {
    PutAtMeaning(db, me, ttl, entries, now);
    DnsViewMeaning(db, now, ttl, h);
  }

  predicate OwnedByRevoked(db: Db, id: string, h: string)
  {
    Owns(db, id, h) && id in db.agents && db.agents[id].revoked
  }

  lemma PutReachesCommit(cfg: Config, g: Global, id: string, credential: string, entries: seq<Entry>)
    requires Boot(cfg, g) && Authorized(g.db, id, credential) && AllAllowed(cfg, entries)
    ensures Reaches(cfg, g, g.(tasks := map[1 := PutChecked(id, entries)]))
  {
    hide DnsView, Purge, PutAt;
    var g1 := Act(cfg, g, BeginPut(1, id, credential, entries));
    assert g1 == g.(tasks := map[1 := PutVerified(id, entries)]);
    ReachesSelf(cfg, g);
    ReachesNext(cfg, g, g, BeginPut(1, id, credential, entries));
    ReachesNext(cfg, g, g1, Proceed(1));
    assert Act(cfg, g1, Proceed(1)) == g.(tasks := map[1 := PutChecked(id, entries)]);
  }

  lemma RevokeRuns(cfg: Config, g: Global, s: Global, id: string)
    requires cfg.ttl <= g.clock && Reaches(cfg, g, s) && 2 !in s.tasks
    ensures Reaches(cfg, g, s.(db := Revoke(s.db, id), tasks := s.tasks[2 := NeedRows]))
  {
    hide DnsView, Purge, PutAt;
    ReachesNext(cfg, g, s, BeginRevoke(2, id));
    var s1 := Act(cfg, s, BeginRevoke(2, id));
    ReachesNext(cfg, g, s1, Proceed(2));
    assert Act(cfg, s1, Proceed(2)) == s.(db := Revoke(s.db, id), tasks := s.tasks[2 := NeedRows]);
  }

  lemma CommitAfterRevoke(db: Db, id: string, ttl: nat, entries: seq<Entry>, now: nat, h: string)
    requires id in db.agents && h in HostsOf(entries) && h !in db.routes
    ensures var e := Revoke(db, id);
            OwnedByRevoked(e.(routes := PutAt(e, id, ttl, entries, now).routes), id, h)
  {
    PutAtMeaning(Revoke(db, id), id, ttl, entries, now);
  }

  /** Such a commit is reachable from every boot state in which the agent could put the host. */
  lemma LatePutReachable(cfg: Config, g: Global, id: string, credential: string, entries: seq<Entry>, h: string)
    requires Boot(cfg, g) && Authorized(g.db, id, credential) && AllAllowed(cfg, entries)
    requires h in HostsOf(entries) && h !in g.db.routes
    ensures exists s :: Reaches(cfg, g, s) && OwnedByRevoked(s.db, id, h)
  {
    hide DnsView, Purge, PutAt, Revoke;
    PutReachesCommit(cfg, g, id, credential, entries);
    var s1 := g.(tasks := map[1 := PutChecked(id, entries)]);
    RevokeRuns(cfg, g, s1, id);
    var s2 := s1.(db := Revoke(s1.db, id), tasks := s1.tasks[2 := NeedRows]);
    ReachesNext(cfg, g, s2, Proceed(1));
    CommitAfterRevoke(g.db, id, cfg.ttl, entries, g.clock, h);
    assert OwnedByRevoked(Act(cfg, s2, Proceed(1)).db, id, h);
  }

  // ---- Publications that overtake each other ----

  /** Step `j` marks the agent as revoked. */
  predicate MarksAt(cfg: Config, g: Global, acts: seq<Action>, j: int, id: string)
    requires cfg.ttl <= g.clock
  {
    0 <= j < |acts| && acts[j].BeginRevoke? && acts[j].id == id && acts[j].t !in At(cfg, g, acts[..j]).tasks
  }

  lemma MarkStep(cfg: Config, g: Global, a: Action, id: string)
    requires cfg.ttl <= g.clock && Enrolled(g.db, id)
    ensures id in Act(cfg, g, a).db.agents
    ensures Act(cfg, g, a).db.agents[id].revoked <==> a.BeginRevoke? && a.id == id && a.t !in g.tasks
  {
  }

  /** An agent that was enrolled after `k` steps is revoked now just when a step since has marked it. */
  lemma {:induction false} RevokedSince(cfg: Config, g: Global, acts: seq<Action>, k: nat, id: string)
    requires cfg.ttl <= g.clock && k <= |acts| && Enrolled(At(cfg, g, acts[..k]).db, id)
    ensures id in At(cfg, g, acts).db.agents
    ensures At(cfg, g, acts).db.agents[id].revoked <==> exists j :: k <= j && MarksAt(cfg, g, acts, j, id)
  {
    if k == |acts| {
      assert acts[..k] == acts;
    } else {
      var n := |acts| - 1;
      var init := acts[..n];
      assert init[..k] == acts[..k];
      RevokedSince(cfg, g, init, k, id);
      forall j | 0 <= j < n
        ensures MarksAt(cfg, g, acts, j, id) == MarksAt(cfg, g, init, j, id)
      {
        assert init[..j] == acts[..j];
      }
      var s := At(cfg, g, init);
      if s.db.agents[id].revoked {
        RevokedStep(cfg, s, acts[n], id);
      } else {
        MarkStep(cfg, s, acts[n], id);
        assert MarksAt(cfg, g, acts, n, id) <==> acts[n].BeginRevoke? && acts[n].id == id && acts[n].t !in s.tasks;
      }
    }
  }

  /** The owner behind a published host is revoked by now exactly when it was marked after the rows
      of the published view were read; a view read after the mark never holds the host. */
  lemma PublishedRevokedExactly(cfg: Config, g: Global, acts: seq<Action>, k: nat, m: nat, h: string)
    requires Boot(cfg, g) && ViewFrom(cfg, g, acts, k, m, At(cfg, g, acts).dns) && h in At(cfg, g, acts).dns
    ensures h in At(cfg, g, acts[..k]).db.routes
    ensures var owner := At(cfg, g, acts[..k]).db.routes[h].owner;
            !Enrolled(At(cfg, g, acts).db, owner) <==> exists j :: k <= j && MarksAt(cfg, g, acts, j, owner)
  {
    DnsViewMeaning(At(cfg, g, acts[..k]).db, At(cfg, g, acts[..m]).clock, cfg.ttl, h);
    RevokedSince(cfg, g, acts, k, At(cfg, g, acts[..k]).db.routes[h].owner);
  }

  /** The refresh of a handler, undisturbed from `s` on. */
  lemma RefreshRuns(cfg: Config, g: Global, s: Global, t: nat)
    requires cfg.ttl <= g.clock && Reaches(cfg, g, s) && t in s.tasks && s.tasks[t] == NeedRows
    ensures Reaches(cfg, g, s.(tasks := s.tasks[t := HasView(DnsView(s.db, s.clock, cfg.ttl))]))
    ensures Reaches(cfg, g, s.(dns := DnsView(s.db, s.clock, cfg.ttl), tasks := s.tasks[t := Finished]))
  {
    var view := DnsView(s.db, s.clock, cfg.ttl);
    ReachesNext(cfg, g, s, Proceed(t));
    var s1 := Act(cfg, s, Proceed(t));
    ReachesNext(cfg, g, s1, Proceed(t));
    var s2 := Act(cfg, s1, Proceed(t));
    assert s2 == s.(tasks := s.tasks[t := HasView(view)]) by {
      assert s2.tasks == s.tasks[t := HasView(view)];
    }
    ReachesNext(cfg, g, s2, Proceed(t));
    assert Act(cfg, s2, Proceed(t)) == s.(dns := view, tasks := s.tasks[t := Finished]) by {
      assert Act(cfg, s2, Proceed(t)).tasks == s.tasks[t := Finished];
    }
  }

  /** A handler has the present view in hand: the deletion of a host nobody has. */
  lemma ViewInHand(cfg: Config, g: Global, h: string)
    requires Boot(cfg, g)
    ensures Reaches(cfg, g, g.(db := DropRoute(g.db, h + "x"), tasks := map[1 := HasView(DnsView(DropRoute(g.db, h + "x"), g.clock, cfg.ttl))]))
  {
    hide DnsView, Purge, PutAt;
    ReachesSelf(cfg, g);
    ReachesNext(cfg, g, g, BeginDelete(1, h + "x"));
    var s := Act(cfg, g, BeginDelete(1, h + "x"));
    assert s == g.(db := DropRoute(g.db, h + "x"), tasks := map[1 := NeedRows]);
    RefreshRuns(cfg, g, s, 1);
    assert s.tasks[1 := HasView(DnsView(s.db, s.clock, cfg.ttl))] == map[1 := HasView(DnsView(s.db, s.clock, cfg.ttl))];
  }

  lemma OtherHostStays(db: Db, h: string, now: nat, ttl: nat)
    requires h in DnsView(db, now, ttl)
    ensures h in DnsView(DropRoute(db, h + "x"), now, ttl)
    ensures DropRoute(db, h + "x").agents == db.agents
    ensures Owns(DropRoute(db, h + "x"), db.routes[h].owner, h)
  {
    DnsViewMeaning(db, now, ttl, h);
    DnsViewMeaning(DropRoute(db, h + "x"), now, ttl, h);
  }

  lemma RevokedLeaves(db: Db, id: string, h: string, now: nat, ttl: nat)
    requires Owns(db, id, h)
    ensures h !in DnsView(Revoke(db, id), now, ttl)
  {
    DnsViewMeaning(Revoke(db, id), now, ttl, h);
  }

  /** A whole revoke handler runs while another holds a view. */
  lemma RevokeMeanwhile(cfg: Config, g: Global, s: Global, id: string)
    requires cfg.ttl <= g.clock && Reaches(cfg, g, s) && 2 !in s.tasks
    ensures var db := Revoke(s.db, id);
            Reaches(cfg, g, Global(db, DnsView(db, s.clock, cfg.ttl), s.clock, s.tasks[2 := Finished]))
  {
    hide DnsView, Purge, PutAt, Revoke;
    var db := Revoke(s.db, id);
    RevokeRuns(cfg, g, s, id);
    RefreshRuns(cfg, g, s.(db := db, tasks := s.tasks[2 := NeedRows]), 2);
    assert s.tasks[2 := NeedRows][2 := Finished] == s.tasks[2 := Finished];
  }

  /** A revoke handler has finished and its refresh has taken the agent's host out of DNS - and a
      view read before the revocation is published after it and puts the host back. Reachable from
      every boot state, for every host it publishes. */
  lemma OvertakingReachable(cfg: Config, g: Global, h: string)
    requires Boot(cfg, g) && h in g.dns && h in g.db.routes
    ensures exists s :: Reaches(cfg, g, s) && cfg.ttl <= s.clock && Overtaken(cfg, s, g.db.routes[h].owner, h)
  {
    var id, now, db := g.db.routes[h].owner, g.clock, DropRoute(g.db, h + "x");
    var view := DnsView(db, now, cfg.ttl);
    ViewInHand(cfg, g, h);
    RevokeMeanwhile(cfg, g, g.(db := db, tasks := map[1 := HasView(view)]), id);
    OvertakenThen(cfg, g, h);
  }

  lemma OvertakenThen(cfg: Config, g: Global, h: string)
    requires Boot(cfg, g) && h in g.dns && h in g.db.routes
    ensures var id, db := g.db.routes[h].owner, DropRoute(g.db, h + "x");
            var view, db' := DnsView(db, g.clock, cfg.ttl), Revoke(db, id);
            Overtaken(cfg, Global(db', DnsView(db', g.clock, cfg.ttl), g.clock, map[1 := HasView(view)][2 := Finished]), id, h)
  {
    hide DnsView, Purge, PutAt;
    var id, db := g.db.routes[h].owner, DropRoute(g.db, h + "x");
    OtherHostStays(g.db, h, g.clock, cfg.ttl);
    DnsViewMeaning(g.db, g.clock, cfg.ttl, h);
    RevokedLeaves(db, id, h, g.clock, cfg.ttl);
    var view, db' := DnsView(db, g.clock, cfg.ttl), Revoke(db, id);
    ActDns(cfg, Global(db', DnsView(db', g.clock, cfg.ttl), g.clock, map[1 := HasView(view)][2 := Finished]), Proceed(1));
  }

  /** No revoke handler is left, the host is out of DNS, and one step puts it back. */
  predicate Overtaken(cfg: Config, s: Global, id: string, h: string)
    requires cfg.ttl <= s.clock
  {
    && id in s.db.agents && s.db.agents[id].revoked && h !in s.dns
    && 1 in s.tasks && 2 in s.tasks && s.tasks[2] == Finished
    && h in Act(cfg, s, Proceed(1)).dns
  }
}
