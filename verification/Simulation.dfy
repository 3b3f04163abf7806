/** The serial controller is one schedule of the interleaved one: every serial run is the run of
    handlers that each finish before the next begins. */
module Simulation {
  import opened Leases
  import opened Views
  import opened Storage
  import opened Controller
  import opened Interleaving
  import opened Runs

  function Start(t: nat, ev: Event): (a: Action)
  {
    match ev
    case CreateToken(token) => BeginCreateToken(t, token)
    case Enroll(token, id, name, ip, credential) => BeginEnroll(t, token, id, name, ip, credential)
    case Heartbeat(id, credential, ip) => BeginHeartbeat(t, id, credential, ip)
    case Put(id, credential, entries) => BeginPut(t, id, credential, entries)
    case Delete(host) => BeginDelete(t, host)
    case RevokeAgent(id) => BeginRevoke(t, id)
    case Cleanup => BeginCleanup(t)
  }

  const STEPS: nat := 5

  /** Five steps see every handler to its end; a finished or refused one does not move. */
  function Script(t: nat, ev: Event): (acts: seq<Action>)
  {
    [Start(t, ev)] + Proceeds(t, STEPS)
  }

  function Proceeds(t: nat, n: nat): (acts: seq<Action>)
  {
    if n == 0 then [] else [Proceed(t)] + Proceeds(t, n - 1)
  }

  /** Tables and registry after `n` more steps of handler `t`. */
  function Finish(cfg: Config, g: Global, t: nat, n: nat): (r: Global)
    requires cfg.ttl <= g.clock
    decreases n
  {
    if n == 0 then g else Finish(cfg, Act(cfg, g, Proceed(t)), t, n - 1)
  }

  lemma {:induction false} AtProceeds(cfg: Config, g: Global, t: nat, n: nat)
    requires cfg.ttl <= g.clock
    ensures At(cfg, g, Proceeds(t, n)) == Finish(cfg, g, t, n)
    decreases n
  {
    if n > 0 {
      AtConcat(cfg, g, [Proceed(t)], Proceeds(t, n - 1));
      AtOne(cfg, g, Proceed(t));
      AtProceeds(cfg, Act(cfg, g, Proceed(t)), t, n - 1);
    }
  }

  predicate Idle(g: Global, t: nat)
  {
    t in g.tasks ==> g.tasks[t] == Finished
  }

  lemma {:induction false} IdleStays(cfg: Config, g: Global, t: nat, n: nat)
    requires cfg.ttl <= g.clock && Idle(g, t)
    ensures Finish(cfg, g, t, n) == g
    decreases n
  {
    if n > 0 {
      assert Act(cfg, g, Proceed(t)) == g by {
        if t in g.tasks {
          assert g.tasks[t := Finished] == g.tasks;
        }
      }
      IdleStays(cfg, g, t, n - 1);
    }
  }

  /** The refresh at the end of a handler, undisturbed, publishes the present view. */
  lemma RefreshFinishes(cfg: Config, g: Global, t: nat, n: nat)
    requires cfg.ttl <= g.clock && t in g.tasks && g.tasks[t] == NeedRows && n >= 3
    ensures Finish(cfg, g, t, n) == g.(dns := DnsView(g.db, g.clock, cfg.ttl), tasks := g.tasks[t := Finished])
  {
    var g1 := Act(cfg, g, Proceed(t));
    var g2 := Act(cfg, g1, Proceed(t));
    var g3 := Act(cfg, g2, Proceed(t));
    assert g3 == g.(dns := DnsView(g.db, g.clock, cfg.ttl), tasks := g.tasks[t := Finished]) by {
      assert g3.tasks == g.tasks[t := Finished];
    }
    IdleStays(cfg, g3, t, n - 3);
    assert Finish(cfg, g, t, n) == Finish(cfg, g1, t, n - 1) == Finish(cfg, g2, t, n - 2) == Finish(cfg, g3, t, n - 3);
  }

  /** Same tables, same registry, same clock. */
  predicate Shows(g: Global, s: State, now: nat)
  {
    g.db == s.db && g.dns == s.dns && g.clock == now
  }

  lemma EnrolSimulated(cfg: Config, g: Global, s: State, ev: Event, t: nat)
    requires cfg.ttl <= g.clock && Shows(g, s, g.clock) && t !in g.tasks && (ev.Enroll? || ev.CreateToken?)
    ensures Shows(Finish(cfg, Act(cfg, g, Start(t, ev)), t, STEPS), Step(cfg, s, ev, g.clock), g.clock)
  {
    hide PutAt, DnsView, Purge;
    var g1 := Act(cfg, g, Start(t, ev));
    if Idle(g1, t) {
      IdleStays(cfg, g1, t, STEPS);
    } else {
      var g2 := Act(cfg, g1, Proceed(t));
      assert g2.db == UseToken(g.db, ev.token) && g2.tasks[t] == TokenSpent(ev.id, ev.name, ev.ip, ev.credential);
      var g3 := Act(cfg, g2, Proceed(t));
      var g4 := Act(cfg, g3, Proceed(t));
      IdleStays(cfg, g4, t, STEPS - 3);
      assert Finish(cfg, g1, t, STEPS) == Finish(cfg, g2, t, STEPS - 1) == Finish(cfg, g3, t, STEPS - 2) == Finish(cfg, g4, t, STEPS - 3);
    }
  }

  /** A handler whose next statement is its last before the refresh. */
  lemma StatementThenRefresh(cfg: Config, g: Global, t: nat, db: Db, n: nat)
    requires cfg.ttl <= g.clock && t in g.tasks && n >= 4
    requires NextTask(cfg, g.db, g.clock, g.tasks[t]) == NeedRows && NextDb(cfg, g.db, g.clock, g.tasks[t]) == db
    ensures var r := Finish(cfg, g, t, n);
            r.db == db && r.dns == DnsView(db, g.clock, cfg.ttl) && r.clock == g.clock
  {
    hide NextDb, NextTask, DnsView;
    RefreshFinishes(cfg, Act(cfg, g, Proceed(t)), t, n - 1);
  }

  lemma DeleteSimulated(cfg: Config, g: Global, s: State, ev: Event, t: nat)
    requires cfg.ttl <= g.clock && Shows(g, s, g.clock) && t !in g.tasks && ev.Delete?
    ensures Shows(Finish(cfg, Act(cfg, g, Start(t, ev)), t, STEPS), Step(cfg, s, ev, g.clock), g.clock)
  {
    var g1 := Act(cfg, g, Start(t, ev));
    assert g1.db == DropRoute(g.db, ev.host) && g1.tasks[t] == NeedRows;
    RefreshFinishes(cfg, g1, t, STEPS);
  }

  lemma RevokeSimulated(cfg: Config, g: Global, s: State, ev: Event, t: nat)
    requires cfg.ttl <= g.clock && Shows(g, s, g.clock) && t !in g.tasks && ev.RevokeAgent?
    ensures Shows(Finish(cfg, Act(cfg, g, Start(t, ev)), t, STEPS), Step(cfg, s, ev, g.clock), g.clock)
  {
    var g1 := Act(cfg, g, Start(t, ev));
    assert g1.db == MarkRevoked(g.db, ev.id) && g1.tasks[t] == RevokeMarked(ev.id);
    StatementThenRefresh(cfg, g1, t, Revoke(g.db, ev.id), STEPS);
  }

  /** What makes a handler of one statement and a refresh simulate a step. */
  lemma RefreshedSimulated(cfg: Config, g: Global, s: State, ev: Event, t: nat, g1: Global, n: nat)
    requires cfg.ttl <= g.clock && g1.clock == g.clock && t in g1.tasks && n >= 4
    requires NextTask(cfg, g1.db, g1.clock, g1.tasks[t]) == NeedRows
    requires NextDb(cfg, g1.db, g1.clock, g1.tasks[t]) == TablesAfter(cfg, s.db, ev, g.clock) && Refreshes(cfg, s.db, ev)
    ensures Shows(Finish(cfg, g1, t, n), Step(cfg, s, ev, g.clock), g.clock)
  {
    StatementThenRefresh(cfg, g1, t, TablesAfter(cfg, s.db, ev, g.clock), n);
  }

  lemma CleanupBegins(cfg: Config, g: Global, t: nat)
    requires cfg.ttl <= g.clock && t !in g.tasks
    ensures Act(cfg, g, BeginCleanup(t)) == g.(tasks := g.tasks[t := PurgeTimed(g.clock - cfg.ttl)])
  {
  }

  lemma CleanupStatement(cfg: Config, db: Db, clock: nat)
    requires cfg.ttl <= clock
    ensures NextDb(cfg, db, clock, PurgeTimed(clock - cfg.ttl)) == TablesAfter(cfg, db, Cleanup, clock)
    ensures NextTask(cfg, db, clock, PurgeTimed(clock - cfg.ttl)) == NeedRows
  {
    hide StaleAgents;
  }

  lemma CleanupSimulated(cfg: Config, g: Global, s: State, ev: Event, t: nat)
    requires cfg.ttl <= g.clock && Shows(g, s, g.clock) && t !in g.tasks && ev.Cleanup?
    ensures Shows(Finish(cfg, Act(cfg, g, Start(t, ev)), t, STEPS), Step(cfg, s, ev, g.clock), g.clock)
  {
    hide StaleAgents;
    CleanupBegins(cfg, g, t);
    CleanupStatement(cfg, g.db, g.clock);
    RefreshedSimulated(cfg, g, s, ev, t, g.(tasks := g.tasks[t := PurgeTimed(g.clock - cfg.ttl)]), STEPS);
  }

  lemma HeartbeatSimulated(cfg: Config, g: Global, s: State, ev: Event, t: nat)
    requires cfg.ttl <= g.clock && Shows(g, s, g.clock) && t !in g.tasks && ev.Heartbeat?
    ensures Shows(Finish(cfg, Act(cfg, g, Start(t, ev)), t, STEPS), Step(cfg, s, ev, g.clock), g.clock)
  {
    var g1 := Act(cfg, g, Start(t, ev));
    if Authorized(g.db, ev.id, ev.credential) {
      var g2 := Act(cfg, g1, Proceed(t));
      assert g2.db == g.db && g2.clock == g.clock && g2.tasks[t] == BeatTimed(ev.id, ev.ip, g.clock);
      StatementThenRefresh(cfg, g2, t, Beat(g.db, ev.id, ev.ip, g.clock), STEPS - 1);
      assert Finish(cfg, g1, t, STEPS) == Finish(cfg, g2, t, STEPS - 1);
    } else {
      IdleStays(cfg, g1, t, STEPS);
    }
  }

  lemma PutSimulated(cfg: Config, g: Global, s: State, ev: Event, t: nat)
    requires cfg.ttl <= g.clock && Shows(g, s, g.clock) && t !in g.tasks && ev.Put?
    ensures Shows(Finish(cfg, Act(cfg, g, Start(t, ev)), t, STEPS), Step(cfg, s, ev, g.clock), g.clock)
  {
    hide PutAt, DnsView, Purge;
    var g1 := Act(cfg, g, Start(t, ev));
    if PutRuns(cfg, g.db, ev) {
      var g2 := Act(cfg, g1, Proceed(t));
      assert g2.db == g.db && g2.clock == g.clock && g2.tasks[t] == PutChecked(ev.id, ev.entries);
      StatementThenRefresh(cfg, g2, t, g.db.(routes := PutAt(g.db, ev.id, cfg.ttl, ev.entries, g.clock).routes), STEPS - 1);
      assert Finish(cfg, g1, t, STEPS) == Finish(cfg, g2, t, STEPS - 1);
    } else {
      IdleStays(cfg, g1, t, STEPS);
    }
  }

  /** A handler that runs undisturbed does what the serial step does. */
  lemma StepSimulated(cfg: Config, g: Global, s: State, ev: Event, t: nat)
    requires cfg.ttl <= g.clock && Shows(g, s, g.clock) && t !in g.tasks
    ensures Shows(At(cfg, g, Script(t, ev)), Step(cfg, s, ev, g.clock), g.clock)
  {
    var g1 := Act(cfg, g, Start(t, ev));
    AtConcat(cfg, g, [Start(t, ev)], Proceeds(t, STEPS));
    AtOne(cfg, g, Start(t, ev));
    AtProceeds(cfg, g1, t, STEPS);
    if ev.Put? {
      PutSimulated(cfg, g, s, ev, t);
    } else if ev.Heartbeat? {
      HeartbeatSimulated(cfg, g, s, ev, t);
    } else if ev.Enroll? || ev.CreateToken? {
      EnrolSimulated(cfg, g, s, ev, t);
    } else if ev.Delete? {
      DeleteSimulated(cfg, g, s, ev, t);
    } else if ev.RevokeAgent? {
      RevokeSimulated(cfg, g, s, ev, t);
    } else {
      CleanupSimulated(cfg, g, s, ev, t);
    }
  }

  /** Handlers of numbers below `n` only. */
  predicate Below(g: Global, n: nat)
  {
    forall t :: t in g.tasks ==> t < n
  }

  lemma ActBelow(cfg: Config, g: Global, a: Action, n: nat)
    requires cfg.ttl <= g.clock && Below(g, n) && (a.Tick? || a.t < n)
    ensures Below(Act(cfg, g, a), n)
  {
  }

  lemma {:induction false} FinishBelow(cfg: Config, g: Global, t: nat, k: nat, n: nat)
    requires cfg.ttl <= g.clock && Below(g, n) && t < n
    ensures Below(Finish(cfg, g, t, k), n)
    decreases k
  {
    if k > 0 {
      ActBelow(cfg, g, Proceed(t), n);
      FinishBelow(cfg, Act(cfg, g, Proceed(t)), t, k - 1, n);
    }
  }

  lemma ScriptBelow(cfg: Config, g: Global, ev: Event, n: nat)
    requires cfg.ttl <= g.clock && Below(g, n)
    ensures Below(At(cfg, g, Script(n, ev)), n + 1)
  {
    var g1 := Act(cfg, g, Start(n, ev));
    AtConcat(cfg, g, [Start(n, ev)], Proceeds(n, STEPS));
    AtOne(cfg, g, Start(n, ev));
    AtProceeds(cfg, g1, n, STEPS);
    ActBelow(cfg, g, Start(n, ev), n + 1);
    FinishBelow(cfg, g1, n, STEPS, n + 1);
  }

  const FRESH: Db := Db(map[], map[], map[])

  /** Every serial run with a clock that does not run backwards is a run of the interleaved
      controller, so what holds of all interleavings holds of it too. */
  lemma {:induction false} SerialRunsAreInterleavings(cfg: Config, evs: seq<Timed>, from: nat) returns (acts: seq<Action>)
    requires ClockOk(cfg, evs) && Monotone(evs, from) && cfg.ttl <= from
    ensures Boot(cfg, Global(FRESH, map[], from, map[]))
    ensures var g := At(cfg, Global(FRESH, map[], from, map[]), acts);
            Shows(g, Run(cfg, evs), LastTime(evs, from)) && Below(g, |evs|)
  {
    var g0 := Global(FRESH, map[], from, map[]);
    assert DnsView(FRESH, from, cfg.ttl) == map[];
    if evs == [] {
      acts := [];
    } else {
      var n := |evs| - 1;
      var init, ev := evs[..n], evs[n];
      var before := SerialRunsAreInterleavings(cfg, init, from);
      var g := At(cfg, g0, before);
      var tick := Tick(ev.at - g.clock);
      var g1 := Act(cfg, g, tick);
      acts := before + [tick] + Script(n, ev.ev);
      AtConcat(cfg, g0, before, [tick]);
      AtOne(cfg, g, tick);
      AtConcat(cfg, g0, before + [tick], Script(n, ev.ev));
      StepSimulated(cfg, g1, Run(cfg, init), ev.ev, n);
      ScriptBelow(cfg, g1, ev.ev, n);
    }
  }
}
