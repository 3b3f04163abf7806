/** Enrolment tokens under overlap. A token is looked up in one statement and marked used in a later
    one that does not ask again, so it is good for one enrolment exactly as long as no two handlers
    stand between the two with the same token. */
module OneTimeTokens {
  import opened Leases
  import opened Storage
  import opened Controller
  import opened Interleaving
  import opened Runs

  /** Handler `t` has seen the token unused and has not marked it yet. */
  predicate Holds(g: Global, t: nat, k: string)
  {
    t in g.tasks && g.tasks[t].TokenSeen? && g.tasks[t].token == k
  }

  /** The step marks a token used and lets its handler enrol. */
  predicate IsSpend(g: Global, a: Action)
  {
    a.Proceed? && a.t in g.tasks && g.tasks[a.t].TokenSeen?
  }

  predicate Spends(g: Global, a: Action, k: string)
  {
    a.Proceed? && Holds(g, a.t, k)
  }

  /** The step lets a handler enrol on a token that is already used. */
  predicate Reuses(g: Global, a: Action)
  {
    IsSpend(g, a) && g.tasks[a.t].token in g.db.tokens && g.db.tokens[g.tasks[a.t].token]
  }

  /** Step `j` spends the token in one handler while handler `t` holds it as well. */
  predicate OverlapAt(cfg: Config, g: Global, acts: seq<Action>, j: int, t: nat, k: string)
    requires cfg.ttl <= g.clock
  {
    && 0 <= j < |acts|
    && Spends(At(cfg, g, acts[..j]), acts[j], k) && acts[j].t != t
    && Holds(At(cfg, g, acts[..j]), t, k)
  }

  // ---- When a held token is already used ----

  lemma TasksStay(cfg: Config, g: Global, a: Action)
    requires cfg.ttl <= g.clock
    ensures g.tasks.Keys <= Act(cfg, g, a).tasks.Keys
  {
  }

  lemma {:induction false} TasksGrow(cfg: Config, g: Global, acts: seq<Action>, j: nat)
    requires cfg.ttl <= g.clock && j <= |acts|
    ensures At(cfg, g, acts[..j]).tasks.Keys <= At(cfg, g, acts).tasks.Keys
  {
    if j == |acts| {
      assert acts[..j] == acts;
    } else {
      var n := |acts| - 1;
      assert acts[..n][..j] == acts[..j];
      TasksGrow(cfg, g, acts[..n], j);
      TasksStay(cfg, At(cfg, g, acts[..n]), acts[n]);
    }
  }

  /** Tokens stay, and become used exactly when a step spends them. */
  lemma TokenStep(cfg: Config, g: Global, a: Action, k: string)
    requires cfg.ttl <= g.clock && k in g.db.tokens
    ensures k in Act(cfg, g, a).db.tokens
    ensures Act(cfg, g, a).db.tokens[k] <==> g.db.tokens[k] || Spends(g, a, k)
  {
  }

  /** A handler that holds a token after a step held it before, or has just seen it unused. */
  lemma HoldStep(cfg: Config, g: Global, a: Action, t: nat, k: string)
    requires cfg.ttl <= g.clock && Holds(Act(cfg, g, a), t, k)
    ensures if t in g.tasks then Holds(g, t, k) && !(a.Proceed? && a.t == t)
            else TokenUsable(g.db, k) && TokenUsable(Act(cfg, g, a).db, k)
  {
    ActTasks(cfg, g, a, t);
  }

  lemma OverlapBefore(cfg: Config, g: Global, acts: seq<Action>, a: Action, j: int, t: nat, k: string)
    requires cfg.ttl <= g.clock && j < |acts|
    ensures OverlapAt(cfg, g, acts + [a], j, t, k) == OverlapAt(cfg, g, acts, j, t, k)
  {
    if 0 <= j {
      assert (acts + [a])[..j] == acts[..j];
    }
  }

  lemma OverlapNow(cfg: Config, g: Global, acts: seq<Action>, a: Action, t: nat, k: string)
    requires cfg.ttl <= g.clock
    ensures OverlapAt(cfg, g, acts + [a], |acts|, t, k) <==>
            Spends(At(cfg, g, acts), a, k) && a.t != t && Holds(At(cfg, g, acts), t, k)
  {
    assert (acts + [a])[..|acts|] == acts;
  }

  ghost predicate Overlapped(cfg: Config, g: Global, acts: seq<Action>, t: nat, k: string)
    requires cfg.ttl <= g.clock
  {
    exists j :: OverlapAt(cfg, g, acts, j, t, k)
  }

  lemma OverlappedStep(cfg: Config, g: Global, acts: seq<Action>, a: Action, t: nat, k: string)
    requires cfg.ttl <= g.clock
    ensures Overlapped(cfg, g, acts + [a], t, k) <==>
            Overlapped(cfg, g, acts, t, k)
            || (Spends(At(cfg, g, acts), a, k) && a.t != t && Holds(At(cfg, g, acts), t, k))
  {
    OverlapNow(cfg, g, acts, a, t, k);
    forall j | j < |acts|
      ensures OverlapAt(cfg, g, acts + [a], j, t, k) == OverlapAt(cfg, g, acts, j, t, k)
    {
      OverlapBefore(cfg, g, acts, a, j, t, k);
    }
    if j :| OverlapAt(cfg, g, acts, j, t, k) {
      assert OverlapAt(cfg, g, acts + [a], j, t, k);
    }
    if j :| OverlapAt(cfg, g, acts + [a], j, t, k) {
      assert j == |acts| || OverlapAt(cfg, g, acts, j, t, k);
    }
  }

  lemma NotOverlappedYet(cfg: Config, g: Global, acts: seq<Action>, t: nat, k: string)
    requires cfg.ttl <= g.clock && t !in At(cfg, g, acts).tasks
    ensures !Overlapped(cfg, g, acts, t, k)
  {
    if j :| OverlapAt(cfg, g, acts, j, t, k) {
      TasksGrow(cfg, g, acts, j);
      assert false;
    }
  }

  /** In every interleaving, the token a handler is about to spend has been used already exactly
      when some other handler spent it while this one held it. */
  lemma {:induction false} HeldTokenUsedExactly(cfg: Config, g: Global, acts: seq<Action>, t: nat, k: string)
    requires Boot(cfg, g) && Holds(At(cfg, g, acts), t, k)
    ensures k in At(cfg, g, acts).db.tokens
    ensures At(cfg, g, acts).db.tokens[k] <==> Overlapped(cfg, g, acts, t, k)
  {
    var n := |acts| - 1;
    var init, a := acts[..n], acts[n];
    assert acts == init + [a];
    AtStep(cfg, g, init, a);
    var s := At(cfg, g, init);
    HoldStep(cfg, s, a, t, k);
    OverlappedStep(cfg, g, init, a, t, k);
    if t in s.tasks {
      HeldTokenUsedExactly(cfg, g, init, t, k);
      TokenStep(cfg, s, a, k);
    } else {
      NotOverlappedYet(cfg, g, init, t, k);
    }
  }

  // ---- Counting ----

  function SpendCount(cfg: Config, g: Global, acts: seq<Action>): (n: nat)
    requires cfg.ttl <= g.clock
  {
    if acts == [] then 0
    else
      var init, a := acts[..|acts| - 1], acts[|acts| - 1];
      SpendCount(cfg, g, init) + if IsSpend(At(cfg, g, init), a) then 1 else 0
  }

  predicate NoReuse(cfg: Config, g: Global, acts: seq<Action>)
    requires cfg.ttl <= g.clock
  {
    forall j :: 0 <= j < |acts| ==> !Reuses(At(cfg, g, acts[..j]), acts[j])
  }

  /** No handler ever spends a token that another has spent while it held it. */
  ghost predicate NoOverlap(cfg: Config, g: Global, acts: seq<Action>)
    requires cfg.ttl <= g.clock
  {
    forall j, t, k :: 0 <= j < |acts| && acts[j] == Proceed(t) && Spends(At(cfg, g, acts[..j]), acts[j], k) ==>
      !Overlapped(cfg, g, acts[..j], t, k)
  }

  lemma ReuseIsOverlap(cfg: Config, g: Global, acts: seq<Action>)
    requires Boot(cfg, g)
    ensures NoReuse(cfg, g, acts) <==> NoOverlap(cfg, g, acts)
  {
    forall j, t, k | 0 <= j < |acts| && acts[j] == Proceed(t) && Spends(At(cfg, g, acts[..j]), acts[j], k)
      ensures Reuses(At(cfg, g, acts[..j]), acts[j]) <==> Overlapped(cfg, g, acts[..j], t, k)
    {
      HeldTokenUsedExactly(cfg, g, acts[..j], t, k);
    }
    if !NoReuse(cfg, g, acts) {
      var j :| 0 <= j < |acts| && Reuses(At(cfg, g, acts[..j]), acts[j]);
      var k := At(cfg, g, acts[..j]).tasks[acts[j].t].token;
      assert Spends(At(cfg, g, acts[..j]), acts[j], k);
      assert Overlapped(cfg, g, acts[..j], acts[j].t, k);
    }
  }

  lemma TokensAfter(cfg: Config, g: Global, a: Action)
    requires cfg.ttl <= g.clock
    ensures Act(cfg, g, a).db.tokens ==
            if IsSpend(g, a) then MarkUsed(g.db, g.tasks[a.t].token).tokens
            else if a.BeginCreateToken? && a.t !in g.tasks then AddToken(g.db, a.token).tokens
            else g.db.tokens
  {
  }

  lemma UsedAfterMark(db: Db, k: string)
    requires k in db.tokens
    ensures Used(MarkUsed(db, k).tokens) == Used(db.tokens) + {k}
  {
  }

  lemma UsedAfterAdd(db: Db, k: string)
    ensures Used(AddToken(db, k).tokens) == Used(db.tokens)
  {
    if k !in db.tokens {
      UsedUnchanged(db.tokens, k);
    }
  }

  /** Tokens gone used by one step: none, or the one spent unless it is reused. */
  lemma UsedStep(cfg: Config, g: Global, a: Action)
    requires cfg.ttl <= g.clock
    requires IsSpend(g, a) ==> g.tasks[a.t].token in g.db.tokens
    ensures |Used(Act(cfg, g, a).db.tokens)| == |Used(g.db.tokens)| + if IsSpend(g, a) && !Reuses(g, a) then 1 else 0
  {
    TokensAfter(cfg, g, a);
    if IsSpend(g, a) {
      var k, used := g.tasks[a.t].token, Used(g.db.tokens);
      UsedAfterMark(g.db, k);
      assert Reuses(g, a) <==> k in used;
      assert k in used ==> used + {k} == used;
    } else if a.BeginCreateToken? {
      UsedAfterAdd(g.db, a.token);
    }
  }

  lemma NoReuseStep(cfg: Config, g: Global, acts: seq<Action>, a: Action)
    requires cfg.ttl <= g.clock
    ensures NoReuse(cfg, g, acts + [a]) <==> NoReuse(cfg, g, acts) && !Reuses(At(cfg, g, acts), a)
  {
    var more := acts + [a];
    assert more[..|acts|] == acts;
    assert forall j :: 0 <= j < |acts| ==> more[..j] == acts[..j] && more[j] == acts[j];
  }

  lemma {:induction false} UsedCount(cfg: Config, g: Global, acts: seq<Action>)
    requires Boot(cfg, g)
    ensures var spent := |Used(At(cfg, g, acts).db.tokens)| - |Used(g.db.tokens)|;
            spent <= SpendCount(cfg, g, acts) && (spent == SpendCount(cfg, g, acts) <==> NoReuse(cfg, g, acts))
  {
    if acts != [] {
      var n := |acts| - 1;
      var init, a := acts[..n], acts[n];
      var s := At(cfg, g, init);
      assert acts == init + [a];
      UsedCount(cfg, g, init);
      NoReuseStep(cfg, g, init, a);
      if IsSpend(s, a) {
        HeldTokenUsedExactly(cfg, g, init, a.t, s.tasks[a.t].token);
      }
      UsedStep(cfg, s, a);
    }
  }

  /** One token, one enrolment: as many tokens have been used as enrolments were let through,
      exactly when no two handlers overlap on a token. */
  lemma OneTimeExactly(cfg: Config, g: Global, acts: seq<Action>)
    requires Boot(cfg, g)
    ensures |Used(At(cfg, g, acts).db.tokens)| == |Used(g.db.tokens)| + SpendCount(cfg, g, acts) <==> NoOverlap(cfg, g, acts)
  {
    UsedCount(cfg, g, acts);
    ReuseIsOverlap(cfg, g, acts);
  }

  // ---- Agents and tokens ----

  /** Handlers that have spent a token and not added their agent yet. */
  function Enrolling(g: Global): (r: set<nat>)
  {
    set t | t in g.tasks && (g.tasks[t].TokenSpent? || g.tasks[t].EnrollTimed?)
  }

  lemma EnrollingStep(cfg: Config, g: Global, a: Action)
    requires cfg.ttl <= g.clock
    ensures Enrolling(Act(cfg, g, a)) ==
            if IsSpend(g, a) then Enrolling(g) + {a.t}
            else if a.Proceed? && a.t in g.tasks && g.tasks[a.t].EnrollTimed? then Enrolling(g) - {a.t}
            else Enrolling(g)
  {
    var e, e' := Enrolling(g), Enrolling(Act(cfg, g, a));
    forall t
      ensures t in e' <==> t in (if IsSpend(g, a) then e + {a.t}
                                 else if a.Proceed? && a.t in g.tasks && g.tasks[a.t].EnrollTimed? then e - {a.t} else e)
    {
      if t in Act(cfg, g, a).tasks {
        ActTasks(cfg, g, a, t);
      }
    }
  }

  lemma AgentsAfter(cfg: Config, g: Global, a: Action)
    requires cfg.ttl <= g.clock
    ensures Act(cfg, g, a).db.agents.Keys ==
            if a.Proceed? && a.t in g.tasks && g.tasks[a.t].EnrollTimed? then g.db.agents.Keys + {g.tasks[a.t].id}
            else g.db.agents.Keys
  {
  }

  lemma AgentsStep(cfg: Config, g: Global, a: Action)
    requires cfg.ttl <= g.clock
    ensures |Act(cfg, g, a).db.agents.Keys| + |Enrolling(Act(cfg, g, a))| <=
            |g.db.agents.Keys| + |Enrolling(g)| + if IsSpend(g, a) then 1 else 0
  {
    EnrollingStep(cfg, g, a);
    AgentsAfter(cfg, g, a);
  }

  lemma {:induction false} AgentsCount(cfg: Config, g: Global, acts: seq<Action>)
    requires Boot(cfg, g)
    ensures |At(cfg, g, acts).db.agents.Keys| + |Enrolling(At(cfg, g, acts))| <= |g.db.agents.Keys| + SpendCount(cfg, g, acts)
  {
    if acts == [] {
      assert Enrolling(g) == {};
    } else {
      var n := |acts| - 1;
      AgentsCount(cfg, g, acts[..n]);
      AgentsStep(cfg, At(cfg, g, acts[..n]), acts[n]);
    }
  }

  /** As long as no two handlers overlap on a token, there are no more agents than used tokens. */
  lemma AgentsWithinTokens(cfg: Config, g: Global, acts: seq<Action>)
    requires Boot(cfg, g) && CountsOk(g.db) && NoOverlap(cfg, g, acts)
    ensures CountsOk(At(cfg, g, acts).db)
  {
    AgentsCount(cfg, g, acts);
    OneTimeExactly(cfg, g, acts);
    var tokens := At(cfg, g, acts).db.tokens;
    assert Used(tokens) <= tokens.Keys;
    SubsetSmaller(Used(tokens), tokens.Keys);
    assert |At(cfg, g, acts).db.agents.Keys| == |At(cfg, g, acts).db.agents| && |g.db.agents.Keys| == |g.db.agents|;
  }

  // ---- The double use is real ----

  /** Handler `t` goes from its look-up to its insertion with nothing else going on. */
  lemma EnrolRuns(cfg: Config, g: Global, s: Global, t: nat)
    requires cfg.ttl <= g.clock && Reaches(cfg, g, s) && t in s.tasks && s.tasks[t].TokenSeen?
    ensures var k := s.tasks[t];
            Reaches(cfg, g, Global(AddAgent(MarkUsed(s.db, k.token), k.id, k.name, k.ip, k.credential, s.clock),
                                   s.dns, s.clock, s.tasks[t := Finished]))
  {
    var k := s.tasks[t];
    ReachesNext(cfg, g, s, Proceed(t));
    var s1 := Act(cfg, s, Proceed(t));
    assert s1 == Global(MarkUsed(s.db, k.token), s.dns, s.clock, s.tasks[t := TokenSpent(k.id, k.name, k.ip, k.credential)]);
    ReachesNext(cfg, g, s1, Proceed(t));
    var s2 := Act(cfg, s1, Proceed(t));
    assert s2 == s1.(tasks := s1.tasks[t := EnrollTimed(k.id, k.name, k.ip, k.credential, s.clock)]);
    ReachesNext(cfg, g, s2, Proceed(t));
    assert s2.tasks[t := Finished] == s.tasks[t := Finished];
  }

  lemma TwoSeeToken(cfg: Config, g: Global, k: string, first: string, second: string, name: string, ip: string, credential: string)
    requires Boot(cfg, g) && TokenUsable(g.db, k)
    ensures Reaches(cfg, g, g.(tasks := map[1 := TokenSeen(k, first, name, ip, credential)][2 := TokenSeen(k, second, name, ip, credential)]))
  {
    ReachesSelf(cfg, g);
    ReachesNext(cfg, g, g, BeginEnroll(1, k, first, name, ip, credential));
    var s := Act(cfg, g, BeginEnroll(1, k, first, name, ip, credential));
    assert s == g.(tasks := map[1 := TokenSeen(k, first, name, ip, credential)]);
    ReachesNext(cfg, g, s, BeginEnroll(2, k, second, name, ip, credential));
  }

  lemma TwoAgentsOneToken(db: Db, k: string, first: string, second: string, name: string, ip: string, credential: string, now: nat)
    requires TokenUsable(db, k) && first !in db.agents && second !in db.agents && first != second
    ensures var d := AddAgent(MarkUsed(db, k), first, name, ip, credential, now);
            var e := AddAgent(MarkUsed(d, k), second, name, ip, credential, now);
            |e.agents| == |db.agents| + 2 && e.tokens == db.tokens[k := true]
  {
    var d := AddAgent(MarkUsed(db, k), first, name, ip, credential, now);
    var e := AddAgent(MarkUsed(d, k), second, name, ip, credential, now);
    assert d.agents.Keys == db.agents.Keys + {first} && e.agents.Keys == d.agents.Keys + {second};
    assert |e.agents.Keys| == |e.agents| && |db.agents.Keys| == |db.agents|;
  }

  /** From every boot state with a usable token, two overlapping enrolments on it both succeed. */
  lemma DoubleUseReachable(cfg: Config, g: Global, k: string, first: string, second: string, name: string, ip: string, credential: string)
    requires Boot(cfg, g) && TokenUsable(g.db, k)
    requires first !in g.db.agents && second !in g.db.agents && first != second
    ensures exists s :: Reaches(cfg, g, s) && |s.db.agents| == |g.db.agents| + 2 && s.db.tokens == g.db.tokens[k := true]
  {
    TwoSeeToken(cfg, g, k, first, second, name, ip, credential);
    var s := g.(tasks := map[1 := TokenSeen(k, first, name, ip, credential)][2 := TokenSeen(k, second, name, ip, credential)]);
    EnrolRuns(cfg, g, s, 1);
    var s1 := Global(AddAgent(MarkUsed(s.db, k), first, name, ip, credential, s.clock), s.dns, s.clock, s.tasks[1 := Finished]);
    EnrolRuns(cfg, g, s1, 2);
    TwoAgentsOneToken(g.db, k, first, second, name, ip, credential, g.clock);
  }

  lemma OneMoreUsed(db: Db, tokens: map<string, bool>, k: string)
    requires TokenUsable(db, k) && tokens == db.tokens[k := true]
    ensures |Used(tokens)| == |Used(db.tokens)| + 1
  {
    UsedAfterMark(db, k);
    assert k !in Used(db.tokens);
  }

  /** So from every boot state with as many agents as used tokens, agents come to outnumber them. */
  lemma CountsBreak(cfg: Config, g: Global, k: string, first: string, second: string)
    requires Boot(cfg, g) && TokenUsable(g.db, k) && |g.db.agents| == |Used(g.db.tokens)|
    requires first !in g.db.agents && second !in g.db.agents && first != second
    ensures exists s :: Reaches(cfg, g, s) && |s.db.agents| == |Used(s.db.tokens)| + 1
  {
    DoubleUseReachable(cfg, g, k, first, second, "", "", "");
    var s :| Reaches(cfg, g, s) && |s.db.agents| == |g.db.agents| + 2 && s.db.tokens == g.db.tokens[k := true];
    OneMoreUsed(g.db, s.db.tokens, k);
  }
}
