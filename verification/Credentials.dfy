/** Who may act, and on which names, over whole runs: an agent's lease, address and rows change only
    under the credential it was enrolled with, and only names the policy lets through come up. */
module Credentials {
  import opened Text
  import opened Hostnames
  import opened Leases
  import opened Views
  import opened Controller
  import opened Runs

  /** Event `i` of the run added the agent, with this credential. */
  ghost predicate EnrolledAt(cfg: Config, evs: seq<Timed>, i: int, id: string, credential: string)
    requires ClockOk(cfg, evs)
  {
    && 0 <= i < |evs| && evs[i].ev.Enroll? && evs[i].ev.id == id && evs[i].ev.credential == credential
    && id !in Run(cfg, evs[..i]).db.agents && id in Run(cfg, evs[..i + 1]).db.agents
  }

  /** A step adds no agent but by enrolment, and never changes a credential. */
  lemma CredentialStep(cfg: Config, s: State, ev: Event, now: nat, id: string)
    requires cfg.ttl <= now && id in Step(cfg, s, ev, now).db.agents
    ensures id in s.db.agents ==> Step(cfg, s, ev, now).db.agents[id].credential == s.db.agents[id].credential
    ensures id !in s.db.agents ==>
              ev.Enroll? && ev.id == id && Step(cfg, s, ev, now).db.agents[id].credential == ev.credential
  {
    hide DnsView, PutAt, StaleAgents;
  }

  lemma EnrolledEarlier(cfg: Config, evs: seq<Timed>, n: nat, i: int, id: string, credential: string)
    requires ClockOk(cfg, evs) && n <= |evs| && EnrolledAt(cfg, evs[..n], i, id, credential)
    ensures EnrolledAt(cfg, evs, i, id, credential)
  {
    assert evs[..n][..i] == evs[..i] && evs[..n][..i + 1] == evs[..i + 1];
  }

  /** Every agent was added by an enrolment of the run, whose credential it still has. */
  lemma {:induction false} CredentialFromEnrolment(cfg: Config, evs: seq<Timed>, id: string)
    requires ClockOk(cfg, evs) && id in Run(cfg, evs).db.agents
    ensures exists i :: EnrolledAt(cfg, evs, i, id, Run(cfg, evs).db.agents[id].credential)
  {
    var n := |evs| - 1;
    var init, s := evs[..n], Run(cfg, evs[..n]);
    assert evs[..n + 1] == evs;
    CredentialStep(cfg, s, evs[n].ev, evs[n].at, id);
    if id in s.db.agents {
      CredentialFromEnrolment(cfg, init, id);
      var i :| EnrolledAt(cfg, init, i, id, s.db.agents[id].credential);
      EnrolledEarlier(cfg, evs, n, i, id, s.db.agents[id].credential);
    } else {
      assert EnrolledAt(cfg, evs, n, id, Run(cfg, evs).db.agents[id].credential);
    }
  }

  /** A heartbeat or a PUT with any other credential, or for an agent unknown or revoked, changes
      nothing at all. */
  lemma WrongCredential(cfg: Config, s: State, ev: Event, now: nat)
    requires cfg.ttl <= now && (ev.Heartbeat? || ev.Put?)
    requires ev.id !in s.db.agents || s.db.agents[ev.id].revoked || s.db.agents[ev.id].credential != ev.credential
    ensures Step(cfg, s, ev, now) == s
  {
  }

  /** With its own credential an unrevoked agent's heartbeat renews its lease and sets its address. */
  lemma RightCredential(cfg: Config, s: State, ev: Event, now: nat)
    requires cfg.ttl <= now && ev.Heartbeat?
    requires ev.id in s.db.agents && !s.db.agents[ev.id].revoked && s.db.agents[ev.id].credential == ev.credential
    ensures Step(cfg, s, ev, now).db ==
            s.db.(agents := s.db.agents[ev.id := s.db.agents[ev.id].(lastSeen := Some(now), ip := ev.ip)])
    ensures Step(cfg, s, ev, now).refreshedAt == now
  {
    hide DnsView;
  }

  /** The agent's lease or address is another, or a row of its is new or another, or its PUT has
      taken rows away. */
  ghost predicate ActedFor(s: State, s': State, ev: Event, id: string)
  {
    || (id in s.db.agents && id in s'.db.agents &&
        (s.db.agents[id].lastSeen != s'.db.agents[id].lastSeen || s.db.agents[id].ip != s'.db.agents[id].ip))
    || (exists h :: Owns(s'.db, id, h) && !(h in s.db.routes && s.db.routes[h] == s'.db.routes[h]))
    || (ev.Put? && ev.id == id && s.db.routes != s'.db.routes)
  }

  lemma ActingStep(cfg: Config, s: State, ev: Event, now: nat, id: string)
    requires cfg.ttl <= now && ActedFor(s, Step(cfg, s, ev, now), ev, id)
    ensures (ev.Heartbeat? || ev.Put?) && ev.id == id
    ensures id in s.db.agents && !s.db.agents[id].revoked && s.db.agents[id].credential == ev.credential
  {
    hide DnsView, StaleAgents;
    if ev.Put? && PutRuns(cfg, s.db, ev) {
      PutAtMeaning(s.db, ev.id, cfg.ttl, ev.entries, now);
    }
  }

  /** Over runs: whatever changes an agent's lease, its address or a row under its name is a
      heartbeat or a PUT of that agent carrying the credential of the enrolment that added it. */
  lemma ChangesCarryCredential(cfg: Config, evs: seq<Timed>, k: nat, id: string)
    requires ClockOk(cfg, evs) && k < |evs|
    requires ActedFor(Run(cfg, evs[..k]), Run(cfg, evs[..k + 1]), evs[k].ev, id)
    ensures (evs[k].ev.Heartbeat? || evs[k].ev.Put?) && evs[k].ev.id == id
    ensures exists i :: i < k && EnrolledAt(cfg, evs, i, id, evs[k].ev.credential)
  {
    RunStep(cfg, evs, k);
    ActingStep(cfg, Run(cfg, evs[..k]), evs[k].ev, evs[k].at, id);
    CredentialFromEnrolment(cfg, evs[..k], id);
    var i :| EnrolledAt(cfg, evs[..k], i, id, evs[k].ev.credential);
    EnrolledEarlier(cfg, evs, k, i, id, evs[k].ev.credential);
  }

  /** Tokens and enrolments leave the published registry alone; so does whatever is refused. */
  lemma QuietSteps(cfg: Config, s: State, ev: Event, now: nat)
    requires cfg.ttl <= now && (ev.CreateToken? || ev.Enroll?)
    ensures Step(cfg, s, ev, now).dns == s.dns && Step(cfg, s, ev, now).refreshedAt == s.refreshedAt
    ensures Step(cfg, s, ev, now).db.routes == s.db.routes
  {
  }

  /** Over runs: no name with a row and no published name is a blocked one in any case, and each is
      under a configured suffix if there are any. */
  lemma PolicyOverRuns(cfg: Config, evs: seq<Timed>, h: string)
    requires ClockOk(cfg, evs) && (h in Run(cfg, evs).db.routes || h in Run(cfg, evs).dns)
    ensures forall b :: b in cfg.policy.blocked ==> h != Lower(b)
    ensures cfg.policy.suffixes == [] || exists s :: s in cfg.policy.suffixes && UnderDomain(h, s)
  {
    hide DnsView, Allowed;
    var s := Run(cfg, evs);
    InvariantsHold(cfg, evs);
    if h in s.dns {
      DnsViewMeaning(s.db, s.refreshedAt, cfg.ttl, h);
    }
    assert RowOk(cfg, s.db, h);
    LowerFacts(h);
    AllowedExactly(cfg.policy, h);
  }
}
