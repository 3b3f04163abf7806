/** Handlers split at their await points: authentication, each statement, the clock readings bound
    into later statements, the reading of rows and the publication are separate steps, and any
    number of handlers are in flight at once. A transaction is one step. */
module Interleaving {
  import opened Text
  import opened Leases
  import opened Views
  import opened Storage
  import opened Controller

  /** Where a handler stands. */
  datatype Task =
    | TokenSeen(token: string, id: string, name: string, ip: string, credential: string)
    | TokenSpent(id: string, name: string, ip: string, credential: string)
    | EnrollTimed(id: string, name: string, ip: string, credential: string, at: nat)
    | BeatVerified(id: string, ip: string)
    | BeatTimed(id: string, ip: string, at: nat)
    | PutVerified(id: string, entries: seq<Entry>)
    | PutChecked(id: string, entries: seq<Entry>)
    | RevokeMarked(id: string)
    | PurgeTimed(cutoff: nat)
    | NeedRows
    | HasRows(rows: Db)
    | HasView(view: map<string, Ipv4>)
    | Finished

  datatype Global = Global(db: Db, dns: map<string, Ipv4>, clock: nat, tasks: map<nat, Task>)

  datatype Action =
    | Tick(d: nat)
    | BeginCreateToken(t: nat, token: string)
    | BeginEnroll(t: nat, token: string, id: string, name: string, ip: string, credential: string)
    | BeginHeartbeat(t: nat, id: string, credential: string, ip: string)
    | BeginPut(t: nat, id: string, credential: string, entries: seq<Entry>)
    | BeginDelete(t: nat, host: string)
    | BeginRevoke(t: nat, id: string)
    | BeginCleanup(t: nat)
    | Proceed(t: nat)

  // ---- One step of a handler ----

  /** What the next statement does to the tables. The commit of a PUT does not look at revocation
      again, nor the update of a token at its use. */
  function NextDb(cfg: Config, db: Db, clock: nat, task: Task): (r: Db)
  {
    match task
    case TokenSeen(token, _, _, _, _) => MarkUsed(db, token)
    case EnrollTimed(id, name, ip, credential, at) => AddAgent(db, id, name, ip, credential, at)
    case BeatTimed(id, ip, at) => Beat(db, id, ip, at)
    case PutChecked(id, entries) => db.(routes := PutAt(db, id, cfg.ttl, entries, clock).routes)
    case RevokeMarked(id) => DropOwned(db, id)
    case PurgeTimed(cutoff) => Purge(db, cutoff)
    case _ => db
  }

  /** Where the handler stands after it. */
  function NextTask(cfg: Config, db: Db, clock: nat, task: Task): (r: Task)
  {
    match task
    case TokenSeen(_, id, name, ip, credential) => TokenSpent(id, name, ip, credential)
    case TokenSpent(id, name, ip, credential) => EnrollTimed(id, name, ip, credential, clock)
    case EnrollTimed(_, _, _, _, _) => Finished
    case BeatVerified(id, ip) => BeatTimed(id, ip, clock)
    case BeatTimed(id, _, _) => if Enrolled(db, id) then NeedRows else Finished
    case PutVerified(id, entries) => if Enrolled(db, id) then PutChecked(id, entries) else Finished
    case PutChecked(_, _) => NeedRows
    case RevokeMarked(_) => NeedRows
    case PurgeTimed(_) => NeedRows
    case NeedRows => HasRows(db)
    case HasRows(rows) => HasView(DnsView(rows, clock, cfg.ttl))
    case HasView(_) => Finished
    case Finished => Finished
  }

  function Advance(cfg: Config, g: Global, t: nat): (r: Global)
    requires t in g.tasks
  {
    var task := g.tasks[t];
    Global(NextDb(cfg, g.db, g.clock, task), if task.HasView? then task.view else g.dns, g.clock,
           g.tasks[t := NextTask(cfg, g.db, g.clock, task)])
  }

  // ---- The first step of a handler ----

  function FirstDb(db: Db, a: Action): (r: Db)
  {
    match a
    case BeginCreateToken(_, token) => AddToken(db, token)
    case BeginDelete(_, host) => DropRoute(db, host)
    case BeginRevoke(_, id) => MarkRevoked(db, id)
    case _ => db
  }

  /** `None` is a request that is refused. */
  function FirstTask(cfg: Config, db: Db, clock: nat, a: Action): (r: Option<Task>)
    requires !a.Tick? && !a.Proceed? && cfg.ttl <= clock
  {
    match a
    case BeginCreateToken(_, _) => Some(Finished)
    case BeginEnroll(_, token, id, name, ip, credential) =>
      if TokenUsable(db, token) then Some(TokenSeen(token, id, name, ip, credential)) else None
    case BeginHeartbeat(_, id, credential, ip) =>
      if Authorized(db, id, credential) then Some(BeatVerified(id, ip)) else None
    case BeginPut(_, id, credential, entries) =>
      if Authorized(db, id, credential) && AllAllowed(cfg, entries) then Some(PutVerified(id, entries)) else None
    case BeginDelete(_, _) => Some(NeedRows)
    case BeginRevoke(_, id) => Some(RevokeMarked(id))
    case BeginCleanup(_) => Some(PurgeTimed(clock - cfg.ttl))
  }

  /** A task number in use, or a refused request, changes nothing. */
  function Begin(cfg: Config, g: Global, a: Action): (r: Global)
    requires !a.Tick? && !a.Proceed? && cfg.ttl <= g.clock
  {
    var first := FirstTask(cfg, g.db, g.clock, a);
    if a.t in g.tasks || first.None? then g
    else Global(FirstDb(g.db, a), g.dns, g.clock, g.tasks[a.t := first.value])
  }

  function Act(cfg: Config, g: Global, a: Action): (r: Global)
    requires cfg.ttl <= g.clock
    ensures g.clock <= r.clock
  {
    match a
    case Tick(d) => g.(clock := g.clock + d)
    case Proceed(t) => if t in g.tasks then Advance(cfg, g, t) else g
    case _ => Begin(cfg, g, a)
  }

  // ---- Runs ----

  /** The boot refresh has run and no handler is in flight. */
  predicate Boot(cfg: Config, g: Global)
  {
    cfg.ttl <= g.clock && g.tasks == map[] && g.dns == DnsView(g.db, g.clock, cfg.ttl)
  }

  function At(cfg: Config, g: Global, acts: seq<Action>): (r: Global)
    requires cfg.ttl <= g.clock
    ensures g.clock <= r.clock
  {
    if acts == [] then g
    else Act(cfg, At(cfg, g, acts[..|acts| - 1]), acts[|acts| - 1])
  }

  lemma AtStep(cfg: Config, g: Global, acts: seq<Action>, a: Action)
    requires cfg.ttl <= g.clock
    ensures At(cfg, g, acts + [a]) == Act(cfg, At(cfg, g, acts), a)
  {
    assert (acts + [a])[..|acts|] == acts;
  }

  lemma AtPrefix(cfg: Config, g: Global, acts: seq<Action>, j: nat)
    requires cfg.ttl <= g.clock && j < |acts|
    ensures At(cfg, g, acts[..j + 1]) == Act(cfg, At(cfg, g, acts[..j]), acts[j])
  {
    assert acts[..j + 1] == acts[..j] + [acts[j]];
    AtStep(cfg, g, acts[..j], acts[j]);
  }

  lemma {:induction false} AtConcat(cfg: Config, g: Global, a: seq<Action>, b: seq<Action>)
    requires cfg.ttl <= g.clock
    ensures At(cfg, g, a + b) == At(cfg, At(cfg, g, a), b)
  {
    if b == [] {
      assert a + b == a;
    } else {
      var n := |b| - 1;
      AtConcat(cfg, g, a, b[..n]);
      assert (a + b)[..|a + b| - 1] == a + b[..n];
    }
  }

  lemma AtOne(cfg: Config, g: Global, a: Action)
    requires cfg.ttl <= g.clock
    ensures At(cfg, g, [a]) == Act(cfg, g, a)
  {
    assert [a][..0] == [];
  }

  /** `s` is a state of some run from `g`. */
  ghost predicate Reaches(cfg: Config, g: Global, s: Global)
    requires cfg.ttl <= g.clock
  {
    exists acts :: At(cfg, g, acts) == s
  }

  lemma ReachesSelf(cfg: Config, g: Global)
    requires cfg.ttl <= g.clock
    ensures Reaches(cfg, g, g)
  {
    assert At(cfg, g, []) == g;
  }

  lemma ReachesNext(cfg: Config, g: Global, s: Global, a: Action)
    requires cfg.ttl <= g.clock && Reaches(cfg, g, s)
    ensures cfg.ttl <= s.clock && Reaches(cfg, g, Act(cfg, s, a))
  {
    var acts :| At(cfg, g, acts) == s;
    AtStep(cfg, g, acts, a);
  }

  // ---- Provenance of what is published ----

  /** `rows` are the tables as they were after the first `k` of the actions. */
  predicate RowsFrom(cfg: Config, g: Global, acts: seq<Action>, k: nat, rows: Db)
    requires cfg.ttl <= g.clock
  {
    k <= |acts| && rows == At(cfg, g, acts[..k]).db
  }

  /** `view` is the DNS view of the tables after `k` actions at the clock after `m` actions. */
  predicate ViewFrom(cfg: Config, g: Global, acts: seq<Action>, k: nat, m: nat, view: map<string, Ipv4>)
    requires cfg.ttl <= g.clock
  {
    k <= m <= |acts| && view == DnsView(At(cfg, g, acts[..k]).db, At(cfg, g, acts[..m]).clock, cfg.ttl)
  }

  ghost predicate TaskHistoric(cfg: Config, g: Global, acts: seq<Action>, t: Task)
    requires cfg.ttl <= g.clock
  {
    && (t.HasRows? ==> exists k: nat :: RowsFrom(cfg, g, acts, k, t.rows))
    && (t.HasView? ==> exists k: nat, m: nat :: ViewFrom(cfg, g, acts, k, m, t.view))
  }

  ghost predicate Historic(cfg: Config, g: Global, acts: seq<Action>)
    requires cfg.ttl <= g.clock
  {
    var now := At(cfg, g, acts);
    && (exists k: nat, m: nat :: ViewFrom(cfg, g, acts, k, m, now.dns))
    && forall t :: t in now.tasks ==> TaskHistoric(cfg, g, acts, now.tasks[t])
  }

  lemma RowsFromLater(cfg: Config, g: Global, acts: seq<Action>, a: Action, k: nat, rows: Db)
    requires cfg.ttl <= g.clock && RowsFrom(cfg, g, acts, k, rows)
    ensures RowsFrom(cfg, g, acts + [a], k, rows)
  {
    assert (acts + [a])[..k] == acts[..k];
  }

  lemma ViewFromLater(cfg: Config, g: Global, acts: seq<Action>, a: Action, k: nat, m: nat, view: map<string, Ipv4>)
    requires cfg.ttl <= g.clock && ViewFrom(cfg, g, acts, k, m, view)
    ensures ViewFrom(cfg, g, acts + [a], k, m, view)
  {
    assert (acts + [a])[..k] == acts[..k] && (acts + [a])[..m] == acts[..m];
  }

  lemma TaskLater(cfg: Config, g: Global, acts: seq<Action>, a: Action, t: Task)
    requires cfg.ttl <= g.clock && TaskHistoric(cfg, g, acts, t)
    ensures TaskHistoric(cfg, g, acts + [a], t)
  {
    if t.HasRows? {
      var k: nat :| RowsFrom(cfg, g, acts, k, t.rows);
      RowsFromLater(cfg, g, acts, a, k, t.rows);
    } else if t.HasView? {
      var k: nat, m: nat :| ViewFrom(cfg, g, acts, k, m, t.view);
      ViewFromLater(cfg, g, acts, a, k, m, t.view);
    }
  }

  /** A handler about to read rows reads the present ones. */
  lemma RowsRead(cfg: Config, g: Global, acts: seq<Action>, a: Action)
    requires cfg.ttl <= g.clock
    ensures RowsFrom(cfg, g, acts + [a], |acts|, At(cfg, g, acts).db)
  {
    assert (acts + [a])[..|acts|] == acts;
  }

  /** A handler that has read rows takes their view by the present clock. */
  lemma ViewTaken(cfg: Config, g: Global, acts: seq<Action>, a: Action, rows: Db) returns (k: nat)
    requires cfg.ttl <= g.clock && exists k: nat :: RowsFrom(cfg, g, acts, k, rows)
    ensures ViewFrom(cfg, g, acts + [a], k, |acts|, DnsView(rows, At(cfg, g, acts).clock, cfg.ttl))
  {
    k :| RowsFrom(cfg, g, acts, k, rows);
    assert (acts + [a])[..k] == acts[..k] && (acts + [a])[..|acts|] == acts;
  }

  /** The task a step leaves behind is accounted for. */
  lemma SteppedTask(cfg: Config, g: Global, acts: seq<Action>, a: Action, task: Task)
    requires cfg.ttl <= g.clock && TaskHistoric(cfg, g, acts, task)
    ensures TaskHistoric(cfg, g, acts + [a], NextTask(cfg, At(cfg, g, acts).db, At(cfg, g, acts).clock, task))
  {
    if task.NeedRows? {
      RowsRead(cfg, g, acts, a);
    } else if task.HasRows? {
      var k := ViewTaken(cfg, g, acts, a, task.rows);
    }
  }

  /** Only a publication changes the registry. */
  lemma ActDns(cfg: Config, now: Global, a: Action)
    requires cfg.ttl <= now.clock
    ensures Act(cfg, now, a).dns ==
            if a.Proceed? && a.t in now.tasks && now.tasks[a.t].HasView? then now.tasks[a.t].view else now.dns
  {
  }

  /** A step changes one task at most, and a handler does not begin with rows or a view in hand. */
  lemma ActTasks(cfg: Config, now: Global, a: Action, t: nat)
    requires cfg.ttl <= now.clock && t in Act(cfg, now, a).tasks
    ensures var task' := Act(cfg, now, a).tasks[t];
            if a.Proceed? && t == a.t then
              t in now.tasks && task' == NextTask(cfg, now.db, now.clock, now.tasks[t])
            else if t in now.tasks then task' == now.tasks[t]
            else !a.Tick? && !a.Proceed? && a.t == t && FirstTask(cfg, now.db, now.clock, a) == Some(task')
  {
  }

  lemma HistoricDns(cfg: Config, g: Global, acts: seq<Action>, a: Action)
    requires cfg.ttl <= g.clock && Historic(cfg, g, acts)
    ensures exists k: nat, m: nat :: ViewFrom(cfg, g, acts + [a], k, m, Act(cfg, At(cfg, g, acts), a).dns)
  {
    var now := At(cfg, g, acts);
    ActDns(cfg, now, a);
    var view := Act(cfg, now, a).dns;
    if a.Proceed? && a.t in now.tasks && now.tasks[a.t].HasView? {
      assert TaskHistoric(cfg, g, acts, now.tasks[a.t]);
    }
    var k: nat, m: nat :| ViewFrom(cfg, g, acts, k, m, view);
    ViewFromLater(cfg, g, acts, a, k, m, view);
  }

  lemma HistoricTasks(cfg: Config, g: Global, acts: seq<Action>, a: Action, t: nat)
    requires cfg.ttl <= g.clock && Historic(cfg, g, acts)
    requires t in Act(cfg, At(cfg, g, acts), a).tasks
    ensures TaskHistoric(cfg, g, acts + [a], Act(cfg, At(cfg, g, acts), a).tasks[t])
  {
    var now := At(cfg, g, acts);
    ActTasks(cfg, now, a, t);
    if t in now.tasks {
      assert TaskHistoric(cfg, g, acts, now.tasks[t]);
      SteppedTask(cfg, g, acts, a, now.tasks[t]);
      TaskLater(cfg, g, acts, a, now.tasks[t]);
    }
  }

  lemma HistoricStep(cfg: Config, g: Global, acts: seq<Action>, a: Action)
    requires cfg.ttl <= g.clock && Historic(cfg, g, acts)
    ensures Historic(cfg, g, acts + [a])
  {
    AtStep(cfg, g, acts, a);
    HistoricDns(cfg, g, acts, a);
    forall t | t in At(cfg, g, acts + [a]).tasks
      ensures TaskHistoric(cfg, g, acts + [a], At(cfg, g, acts + [a]).tasks[t])
    {
      HistoricTasks(cfg, g, acts, a, t);
    }
  }

  lemma {:induction false} AlwaysHistoric(cfg: Config, g: Global, acts: seq<Action>)
    requires Boot(cfg, g)
    ensures Historic(cfg, g, acts)
  {
    if acts == [] {
      assert acts[..0] == acts;
      assert ViewFrom(cfg, g, acts, 0, 0, g.dns);
    } else {
      var n := |acts| - 1;
      AlwaysHistoric(cfg, g, acts[..n]);
      HistoricStep(cfg, g, acts[..n], acts[n]);
      assert acts == acts[..n] + [acts[n]];
    }
  }

  /** However handlers interleave, the registry is the DNS view of the tables at one past moment
      read by the clock of a moment not before it, and so no published entry's owner was revoked
      when its row was read, nor was its lease over when the clock was. */
  lemma PublishedWereActive(cfg: Config, g: Global, acts: seq<Action>)
    requires Boot(cfg, g)
    ensures exists k: nat, m: nat :: k <= m <= |acts| && ViewFrom(cfg, g, acts, k, m, At(cfg, g, acts).dns)
                           && forall h :: h in At(cfg, g, acts).dns ==>
                                Active(At(cfg, g, acts[..k]).db, h, At(cfg, g, acts[..m]).clock, cfg.ttl)
  {
    AlwaysHistoric(cfg, g, acts);
    var dns := At(cfg, g, acts).dns;
    var k: nat, m: nat :| ViewFrom(cfg, g, acts, k, m, dns);
    forall h | h in dns
      ensures Active(At(cfg, g, acts[..k]).db, h, At(cfg, g, acts[..m]).clock, cfg.ttl)
    {
      DnsViewMeaning(At(cfg, g, acts[..k]).db, At(cfg, g, acts[..m]).clock, cfg.ttl, h);
    }
  }
}
