/** Answering DNS requests: the registry first, then the cache, then upstream. The registry may be
    swapped between any two looks at it. */
module DnsServer {
  import opened Text
  import opened Hostnames
  import opened Leases
  import opened Views
  import opened LookupKeys
  import opened DnsCache

  datatype Question = Question(name: string, qtype: RecordType)

  datatype Upstream = Replied(reply: Reply) | Broken | TimedOut

  /** What a question meets: the registry as first looked at and as looked at again, the upstream
      reply it would get, and the clock when the cache is asked and when the reply is recorded. */
  datatype Env = Env(seen: map<string, Ipv4>, looked: map<string, Ipv4>, upstream: Upstream, askedAt: nat, repliedAt: nat)

  /** A question of a request and what it meets. */
  datatype Ask = Ask(question: Question, env: Env)

  datatype Answer = FromRegistry(name: string, ttl: nat, ip: Ipv4) | FromUpstream(record: Record)

  datatype Outcome = Failed | Answered(answers: seq<Answer>, rcode: ResponseCode)

  datatype Address = Address(ip: string, port: nat)

  datatype Config = Config(listen: Address, upstreams: seq<Address>, serviceTtl: nat, caps: Caps)

  datatype Response = Response(rcode: ResponseCode, answers: seq<Answer>)

  function Wrap(records: seq<Record>): (r: seq<Answer>)
  {
    seq(|records|, i requires 0 <= i < |records| => FromUpstream(records[i]))
  }

  predicate IsRegistered(registry: map<string, Ipv4>, name: string)
  {
    Find(registry, DnsKey(name)).Some?
  }

  // ---- One question ----

  function ForwardOutcome(cfg: Config, table: Table, q: Question, env: Env): (o: Outcome)
  {
    var hit := Hit(table, KeyOf(q.name, q.qtype), env.askedAt);
    if hit.Some? then Answered(Wrap(hit.value.records), hit.value.rcode)
    else
      match env.upstream
      case Replied(Records(records)) => Answered(Wrap(records), NoError)
      case Replied(NoRecords) => Answered([], NXDomain)
      case _ => Failed
  }

  /** The cache operations a forwarded question performs. */
  function ForwardOps(table: Table, q: Question, env: Env): (ops: seq<Op>)
  {
    var key := KeyOf(q.name, q.qtype);
    [Get(key, env.askedAt)]
    + (if Hit(table, key, env.askedAt).None? && env.upstream.Replied?
       then [Store(key, env.upstream.reply, env.repliedAt)] else [])
  }

  predicate Forwards(q: Question, env: Env)
  {
    IsRegistered(env.seen, q.name) ==> q.qtype.Other?
  }

  function AnswerOutcome(cfg: Config, table: Table, q: Question, env: Env): (o: Outcome)
  {
    if Forwards(q, env) then ForwardOutcome(cfg, table, q, env)
    else if q.qtype == AAAA then Answered([], NoError)
    else
      match Find(env.looked, DnsKey(q.name))
      case None => Failed
      case Some(ip) => Answered([FromRegistry(q.name, cfg.serviceTtl, ip)], NoError)
  }

  function AnswerOps(table: Table, q: Question, env: Env): (ops: seq<Op>)
  {
    if Forwards(q, env) then ForwardOps(table, q, env) else []
  }

  function ApplyOp(caps: Caps, t: Table, op: Op): (r: Table)
  {
    match op
    case Get(key, at) => AfterGet(t, key, at)
    case Store(key, reply, at) => AfterPut(caps, t, key, reply, at)
  }

  function ApplyOps(caps: Caps, t: Table, ops: seq<Op>): (r: Table)
    decreases |ops|
  {
    if ops == [] then t else ApplyOps(caps, ApplyOp(caps, t, ops[0]), ops[1..])
  }

  // ---- A request ----

  /** The cache and the outcomes so far. */
  datatype Progress = Progress(table: Table, outcomes: seq<Outcome>)

  function AskOne(cfg: Config, p: Progress, ask: Ask): (r: Progress)
  {
    Progress(ApplyOps(cfg.caps, p.table, AnswerOps(p.table, ask.question, ask.env)),
             p.outcomes + [AnswerOutcome(cfg, p.table, ask.question, ask.env)])
  }

  function AskAll(cfg: Config, table: Table, asks: seq<Ask>): (r: Progress)
    ensures |r.outcomes| == |asks|
  {
    if asks == [] then Progress(table, [])
    else AskOne(cfg, AskAll(cfg, table, asks[..|asks| - 1]), asks[|asks| - 1])
  }

  function Answers(os: seq<Outcome>): (r: seq<Answer>)
  {
    if os == [] then []
    else
      var o := os[|os| - 1];
      Answers(os[..|os| - 1]) + (if o.Answered? then o.answers else [])
  }

  /** The cache holds answers and NXDOMAIN without records, nothing else. */
  predicate CodesOk(table: Table)
  {
    forall k :: k in table ==> table[k].rcode == NoError || (table[k].rcode == NXDomain && table[k].records == [])
  }

  predicate OutcomeOk(o: Outcome)
  {
    o.Answered? ==> o.rcode == NoError || (o.rcode == NXDomain && o.answers == [])
  }

  /** The response code, said outright. */
  function CodeOf(os: seq<Outcome>): (c: ResponseCode)
  {
    if Failed in os && Answers(os) == [] then ServFail
    else if Answered([], NXDomain) in os then NXDomain
    else NoError
  }

  lemma ApplyOpsCodes(caps: Caps, table: Table, q: Question, env: Env)
    requires CodesOk(table)
    ensures CodesOk(ApplyOps(caps, table, AnswerOps(table, q, env)))
  {
    var ops := AnswerOps(table, q, env);
    if ops != [] {
      var t1 := ApplyOp(caps, table, ops[0]);
      assert CodesOk(t1);
      if |ops| == 2 {
        assert ops[1..] == [ops[1]];
        assert ApplyOps(caps, t1, [ops[1]]) == ApplyOp(caps, t1, ops[1]) by {
          assert [ops[1]][1..] == [];
        }
      } else {
        assert ops[1..] == [];
      }
    }
  }

  lemma AskAllStep(cfg: Config, table: Table, asks: seq<Ask>, i: nat)
    requires i < |asks|
    ensures AskAll(cfg, table, asks[..i + 1]) == AskOne(cfg, AskAll(cfg, table, asks[..i]), asks[i])
  {
    assert asks[..i + 1][..i] == asks[..i];
  }

  /** The response under construction and the flags of the loop. */
  datatype Flags = Flags(rcode: ResponseCode, answers: seq<Answer>, anyFail: bool, anyAnswer: bool)

  /** One turn of the loop, given what the question came to. */
  function Tally(f: Flags, o: Outcome): (r: Flags)
  {
    match o
    case Failed => f.(anyFail := true)
    case Answered(records, code) =>
      Flags(if code != NoError && records == [] then code else f.rcode, f.answers + records,
            f.anyFail, f.anyAnswer || records != [])
  }

  /** The loop over the outcomes, whenever and between whatever else they came. */
  function TallyAll(os: seq<Outcome>): (r: Flags)
  {
    if os == [] then Flags(NoError, [], false, false) else Tally(TallyAll(os[..|os| - 1]), os[|os| - 1])
  }

  function Conclude(f: Flags): (r: Response)
  {
    Response(if f.anyFail && !f.anyAnswer then ServFail else f.rcode, f.answers)
  }

  lemma TallyStep(os: seq<Outcome>, o: Outcome)
    ensures TallyAll(os + [o]) == Tally(TallyAll(os), o)
  {
    assert (os + [o])[..|os|] == os;
  }

  /** What the flags stand for. */
  predicate FlagsMean(f: Flags, os: seq<Outcome>)
  {
    && f.answers == Answers(os)
    && f.anyFail == (Failed in os) && f.anyAnswer == (f.answers != [])
    && f.rcode == if Answered([], NXDomain) in os then NXDomain else NoError
  }

  lemma FlagsStep(f: Flags, os: seq<Outcome>, o: Outcome)
    requires FlagsMean(f, os) && OutcomeOk(o)
    ensures FlagsMean(Tally(f, o), os + [o])
  {
    assert (os + [o])[..|os|] == os;
    assert Failed in os + [o] <==> Failed in os || o == Failed;
    assert Answered([], NXDomain) in os + [o] <==> Answered([], NXDomain) in os || o == Answered([], NXDomain);
  }

  lemma {:induction false} FlagsMeaning(os: seq<Outcome>)
    requires forall i :: 0 <= i < |os| ==> OutcomeOk(os[i])
    ensures FlagsMean(TallyAll(os), os)
  {
    hide Tally, OutcomeOk;
    if os != [] {
      var init, o := os[..|os| - 1], os[|os| - 1];
      FlagsMeaning(init);
      FlagsStep(TallyAll(init), init, o);
      assert os == init + [o];
    }
  }

  /** The loop's response, said outright. */
  lemma LoopResponse(os: seq<Outcome>)
    requires forall i :: 0 <= i < |os| ==> OutcomeOk(os[i])
    ensures Conclude(TallyAll(os)) == Response(CodeOf(os), Answers(os))
  {
    FlagsMeaning(os);
  }

  lemma TwoOps(caps: Caps, t: Table, a: Op, b: Op)
    ensures ApplyOps(caps, t, [a]) == ApplyOp(caps, t, a)
    ensures ApplyOps(caps, t, [a] + [b]) == ApplyOp(caps, ApplyOp(caps, t, a), b)
  {
    assert [a][1..] == [] && [b][1..] == [];
    assert ([a] + [b])[0] == a && ([a] + [b])[1..] == [b];
    assert ApplyOps(caps, ApplyOp(caps, t, a), [b]) == ApplyOp(caps, ApplyOp(caps, t, a), b);
  }

  class Server {
    const cfg: Config
    const cache: ResponseCache

    constructor (cfg: Config)
      ensures this.cfg == cfg && fresh(cache) && cache.table == map[]
    {
      this.cfg := cfg;
      this.cache := new ResponseCache();
    }

    method ForwardQuery(q: Question, env: Env) returns (o: Outcome)
      modifies cache
      ensures o == ForwardOutcome(cfg, old(cache.table), q, env)
      ensures cache.table == ApplyOps(cfg.caps, old(cache.table), ForwardOps(old(cache.table), q, env))
    {
      ghost var key := KeyOf(q.name, q.qtype);
      ghost var t := cache.table;
      TwoOps(cfg.caps, t, Get(key, env.askedAt), Store(key, NoRecords, env.repliedAt));
      var hit := cache.Get(q.name, q.qtype, env.askedAt);
      if hit.Some? {
        return Answered(Wrap(hit.value.records), hit.value.rcode);
      }
      match env.upstream {
        case Broken => return Failed;
        case TimedOut => return Failed;
        case Replied(reply) =>
          TwoOps(cfg.caps, t, Get(key, env.askedAt), Store(key, reply, env.repliedAt));
          match reply {
            case NoRecords =>
              cache.Put(q.name, q.qtype, [], NXDomain, cfg.caps.negative, env.repliedAt);
              return Answered([], NXDomain);
            case Records(records) =>
              cache.Put(q.name, q.qtype, records, NoError, MinTtl(records, cfg.caps.positive), env.repliedAt);
              return Answered(Wrap(records), NoError);
          }
      }
    }

    method AnswerQuery(q: Question, env: Env) returns (o: Outcome)
      modifies cache
      ensures o == AnswerOutcome(cfg, old(cache.table), q, env)
      ensures cache.table == ApplyOps(cfg.caps, old(cache.table), AnswerOps(old(cache.table), q, env))
    {
      if IsRegistered(env.seen, q.name) {
        match q.qtype {
          case A =>
            var ip := Find(env.looked, DnsKey(q.name));
            if ip.None? {
              return Failed;
            }
            return Answered([FromRegistry(q.name, cfg.serviceTtl, ip.value)], NoError);
          case AAAA => return Answered([], NoError);
          case Other(_) =>
        }
      }
      o := ForwardQuery(q, env);
    }

    /** The loop over the questions of a request, past the loop checks. */
    method AnswerAll(asks: seq<Ask>) returns (r: Response)
      requires CodesOk(cache.table)
      modifies cache
      ensures CodesOk(cache.table) && cache.table == AskAll(cfg, old(cache.table), asks).table
      ensures var os := AskAll(cfg, old(cache.table), asks).outcomes;
              r == Conclude(TallyAll(os)) == Response(CodeOf(os), Answers(os))
    {
      hide AnswerOutcome, AnswerOps, ApplyOps, CodesOk, OutcomeOk, CodeOf, Answers;
      var rcode, answers, anyFail, anyAnswer := NoError, [], false, false;
      ghost var t0 := cache.table;
      ghost var os: seq<Outcome> := [];
      var i := 0;
      while i < |asks|
        invariant 0 <= i <= |asks|
        invariant Progress(cache.table, os) == AskAll(cfg, t0, asks[..i])
        invariant CodesOk(cache.table) && forall k :: 0 <= k < |os| ==> OutcomeOk(os[k])
        invariant Flags(rcode, answers, anyFail, anyAnswer) == TallyAll(os)
      {
        ApplyOpsCodes(cfg.caps, cache.table, asks[i].question, asks[i].env);
        OutcomeCodes(cfg, cache.table, asks[i].question, asks[i].env);
        AskAllStep(cfg, t0, asks, i);
        var o := AnswerQuery(asks[i].question, asks[i].env);
        TallyStep(os, o);
        match o {
          case Failed =>
            anyFail := true;
          case Answered(records, code) =>
            if code != NoError && records == [] {
              rcode := code;
            }
            answers := answers + records;
            if records != [] {
              anyAnswer := true;
            }
        }
        os := os + [o];
        i := i + 1;
      }
      assert asks[..i] == asks;
      LoopResponse(os);
      if anyFail && !anyAnswer {
        rcode := ServFail;
      }
      r := Response(rcode, answers);
    }

    /** `handle_request` for a decoded message; `gate` is the registry as the loop check sees it,
        for each upstream and question. */
    method HandleRequest(asks: seq<Ask>, peer: Option<Address>, gate: Gate) returns (r: Response)
      requires CodesOk(cache.table)
      modifies cache
      ensures CodesOk(cache.table)
      ensures var p := AskAll(cfg, old(cache.table), asks);
              if peer == Some(cfg.listen) then r == Response(Refused, []) && cache.table == old(cache.table)
              else if peer.Some? && LoopRisk(cfg, asks, gate) then r == Response(ServFail, []) && cache.table == old(cache.table)
              else r == Response(CodeOf(p.outcomes), Answers(p.outcomes)) && cache.table == p.table
    {
      if peer.Some? {
        if peer.value == cfg.listen {
          return Response(Refused, []);
        }
        var i := 0;
        while i < |cfg.upstreams|
          invariant 0 <= i <= |cfg.upstreams|
          invariant forall k :: 0 <= k < i && cfg.upstreams[k] == cfg.listen ==> AllRegistered(asks, gate, k)
        {
          if cfg.upstreams[i] == cfg.listen && !AllRegistered(asks, gate, i) {
            return Response(ServFail, []);
          }
          i := i + 1;
        }
      }
      r := AnswerAll(asks);
    }
  }

  /** The registry seen when upstream `u` and question `k` are checked. */
  type Gate = (nat, nat) -> map<string, Ipv4>

  predicate AllRegistered(asks: seq<Ask>, gate: Gate, u: nat)
  {
    forall k :: 0 <= k < |asks| ==> IsRegistered(gate(u, k), asks[k].question.name)
  }

  /** An upstream points at this server and some question would be forwarded to it. */
  predicate LoopRisk(cfg: Config, asks: seq<Ask>, gate: Gate)
  {
    exists u :: 0 <= u < |cfg.upstreams| && cfg.upstreams[u] == cfg.listen && !AllRegistered(asks, gate, u)
  }

  lemma OutcomeCodes(cfg: Config, table: Table, q: Question, env: Env)
    requires CodesOk(table)
    ensures OutcomeOk(AnswerOutcome(cfg, table, q, env))
  {
    if Forwards(q, env) {
      var hit := Hit(table, KeyOf(q.name, q.qtype), env.askedAt);
      assert hit.Some? && hit.value.records == [] ==> Wrap(hit.value.records) == [];
    }
  }

  // ---- What answers mean ----

  predicate UpstreamFree(answers: seq<Answer>)
  {
    forall i :: 0 <= i < |answers| ==> answers[i].FromRegistry?
  }

  lemma AskOneKeeps(cfg: Config, p: Progress, ask: Ask, k: nat)
    requires k < |p.outcomes|
    ensures AskOne(cfg, p, ask).outcomes[k] == p.outcomes[k]
  {
  }

  lemma {:induction false} OutcomeStays(cfg: Config, table: Table, asks: seq<Ask>, m: nat, k: nat)
    requires k < m <= |asks|
    ensures AskAll(cfg, table, asks).outcomes[k] == AskAll(cfg, table, asks[..m]).outcomes[k]
  {
    var n := |asks| - 1;
    if m <= n {
      var init := asks[..n];
      OutcomeStays(cfg, table, init, m, k);
      assert init[..m] == asks[..m];
      AskOneKeeps(cfg, AskAll(cfg, table, init), asks[n], k);
    } else {
      assert asks[..m] == asks;
    }
  }

  lemma OutcomeAt(cfg: Config, table: Table, asks: seq<Ask>, k: nat)
    requires k < |asks|
    ensures AskAll(cfg, table, asks).outcomes[k] ==
            AnswerOutcome(cfg, AskAll(cfg, table, asks[..k]).table, asks[k].question, asks[k].env)
  {
    OutcomeStays(cfg, table, asks, k + 1, k);
    AskAllStep(cfg, table, asks, k);
  }

  /** Whatever swaps happen, a name seen as registered is answered from the registry or not at all
      for A and AAAA questions: no cached or upstream record is returned, no NXDOMAIN is claimed,
      and the cache is neither asked nor filled. */
  lemma {:induction false} RegisteredNamesStayLocal(cfg: Config, table: Table, asks: seq<Ask>, k: nat)
    requires k < |asks|
    requires IsRegistered(asks[k].env.seen, asks[k].question.name) && !asks[k].question.qtype.Other?
    ensures var o := AskAll(cfg, table, asks).outcomes[k];
            && (o.Answered? ==> o.rcode == NoError && UpstreamFree(o.answers))
            && (asks[k].question.qtype == A ==>
                  (o.Failed? <==> !IsRegistered(asks[k].env.looked, asks[k].question.name))
                  && (o.Answered? ==> |o.answers| == 1))
    ensures AskAll(cfg, table, asks[..k + 1]).table == AskAll(cfg, table, asks[..k]).table
  {
    OutcomeAt(cfg, table, asks, k);
    AskAllStep(cfg, table, asks, k);
  }

  /** From the refresh on: an A question for a normalised hostname, in any case and with any number
      of dots, is answered by one record of that name, with the service TTL and the address the
      owner gave, exactly when the host's owner was enrolled, unrevoked and live at the refresh with
      an address that parses to it. An AAAA question for such a host gets an empty answer. */
  lemma RegisteredAnswer(idna: Idna, input: string, v: string, n: nat, cfg: Config, table: Table, asks: seq<Ask>, k: nat,
                         db: Db, now: nat, ttl: nat, ip: Ipv4)
    requires Normalize(idna, input).Some? && Lower(v) == Normalize(idna, input).value
    requires k < |asks| && asks[k].question.name == v + Dots(n)
    requires asks[k].env.seen == asks[k].env.looked == DnsView(db, now, ttl)
    ensures var h, o := Normalize(idna, input).value, AskAll(cfg, table, asks).outcomes[k];
            var found := Active(db, h, now, ttl) && ParseIpv4(db.agents[db.routes[h].owner].ip) == Some(ip);
            && (asks[k].question.qtype == A ==>
                  (o == Answered([FromRegistry(v + Dots(n), cfg.serviceTtl, ip)], NoError) <==> found))
            && (asks[k].question.qtype == AAAA && found ==> o == Answered([], NoError))
  {
    hide DnsView, Active, ParseIpv4, DnsKey, Normalize;
    OutcomeAt(cfg, table, asks, k);
    LookupsAgree(idna, input, v, n, "", db, now, ttl, map[], ip);
    var t := AskAll(cfg, table, asks[..k]).table;
    ForwardedIsUpstream(cfg, t, asks[k].question, asks[k].env);
    var o, one := AskAll(cfg, table, asks).outcomes[k], [FromRegistry(v + Dots(n), cfg.serviceTtl, ip)];
    if asks[k].question.qtype == A && o == Answered(one, NoError) {
      assert o.answers[0] == one[0] && one[0].FromRegistry?;
    }
  }

  /** What is forwarded is never answered from the registry. */
  lemma ForwardedIsUpstream(cfg: Config, table: Table, q: Question, env: Env)
    ensures var o := ForwardOutcome(cfg, table, q, env);
            o.Answered? ==> forall i :: 0 <= i < |o.answers| ==> o.answers[i].FromUpstream?
  {
  }

  /** The records answered are these, one by one. */
  predicate Carries(answers: seq<Answer>, records: seq<Record>)
  {
    |answers| == |records| && forall i :: 0 <= i < |records| ==> answers[i] == FromUpstream(records[i])
  }

  /** A forwarded question: the kept reply while it is fresh; else what upstream replies; and failure
      if upstream breaks or is late. */
  lemma ForwardedAnswer(cfg: Config, past: seq<Op>, ask: Ask, o: Outcome)
    requires AnsweredAfter(cfg, past, ask, o) && Forwards(ask.question, ask.env)
    ensures match FromLog(cfg.caps, past, KeyOf(ask.question.name, ask.question.qtype), ask.env.askedAt)
            case Some(e) => o.Answered? && Carries(o.answers, e.records) && o.rcode == e.rcode
            case None =>
              match ask.env.upstream
              case Replied(Records(records)) => o.Answered? && Carries(o.answers, records) && o.rcode == NoError
              case Replied(NoRecords) => o == Answered([], NXDomain)
              case Broken => o == Failed
              case TimedOut => o == Failed
  {
    CacheIsLog(cfg.caps, past, ask.question.name, ask.question.name, ask.question.qtype, ask.env.askedAt);
  }

  lemma {:induction false} AnswersEmpty(os: seq<Outcome>)
    ensures Answers(os) == [] <==> forall i :: 0 <= i < |os| && os[i].Answered? ==> os[i].answers == []
  {
    if os != [] {
      AnswersEmpty(os[..|os| - 1]);
    }
  }

  lemma {:induction false} RunConcat(caps: Caps, ops: seq<Op>, more: seq<Op>)
    ensures ApplyOps(caps, Run(caps, ops), more) == Run(caps, ops + more)
    decreases |more|
  {
    if more == [] {
      assert ops + more == ops;
    } else {
      assert (ops + [more[0]])[..|ops|] == ops;
      RunConcat(caps, ops + [more[0]], more[1..]);
      assert ops + [more[0]] + more[1..] == ops + more;
    }
  }

  /** An NXDOMAIN answer repeats what upstream said: in reply to this very question, or in a reply
      for the same name and type that the cache has kept for less than the negative cap. */
  lemma {:induction false} NxdomainIsReal(cfg: Config, ops: seq<Op>, q: Question, env: Env)
    requires InTime(ops, env.askedAt)
    requires var o := AnswerOutcome(cfg, Run(cfg.caps, ops), q, env); o.Answered? && o.rcode == NXDomain
    ensures Forwards(q, env)
    ensures env.upstream == Replied(NoRecords) ||
            exists i :: Stores(cfg.caps, ops, KeyOf(q.name, q.qtype), i) && ops[i].reply == NoRecords
                        && ops[i].at <= env.askedAt < ops[i].at + cfg.caps.negative
  {
    var key := KeyOf(q.name, q.qtype);
    var hit := Hit(Run(cfg.caps, ops), key, env.askedAt);
    if hit.Some? {
      HitsAreSound(cfg.caps, ops, q.name, q.name, q.qtype, env.askedAt);
      var i :| Repeats(cfg.caps, ops, key, env.askedAt, hit.value, i);
      assert ops[i].reply == NoRecords;
    }
  }

  /** What a question does to the cache is an extension of the run so far: a lookup, and the
      storing of a reply after a miss. So every answer of every run is sound. */
  lemma QuestionExtendsRun(cfg: Config, ops: seq<Op>, q: Question, env: Env)
    requires InTime(ops, env.askedAt) && env.askedAt <= env.repliedAt
    ensures var t := Run(cfg.caps, ops);
            && ApplyOps(cfg.caps, t, AnswerOps(t, q, env)) == Run(cfg.caps, ops + AnswerOps(t, q, env))
            && InTime(ops + AnswerOps(t, q, env), env.repliedAt)
  {
    RunConcat(cfg.caps, ops, AnswerOps(Run(cfg.caps, ops), q, env));
  }

  /** The questions of a request are asked one after the other, from `now` on. */
  predicate AskedInTime(asks: seq<Ask>, now: nat)
  {
    && (forall i :: 0 <= i < |asks| ==> now <= asks[i].env.askedAt <= asks[i].env.repliedAt)
    && (forall i, j :: 0 <= i < j < |asks| ==> asks[i].env.repliedAt <= asks[j].env.askedAt)
  }

  /** The cache run, extended by what the questions do. */
  function OpsAfter(cfg: Config, ops: seq<Op>, asks: seq<Ask>): (r: seq<Op>)
  {
    if asks == [] then ops
    else
      var before, ask := OpsAfter(cfg, ops, asks[..|asks| - 1]), asks[|asks| - 1];
      before + AnswerOps(Run(cfg.caps, before), ask.question, ask.env)
  }

  lemma {:induction false} RequestExtendsRun(cfg: Config, ops: seq<Op>, asks: seq<Ask>, now: nat)
    requires InTime(ops, now) && AskedInTime(asks, now)
    ensures AskAll(cfg, Run(cfg.caps, ops), asks).table == Run(cfg.caps, OpsAfter(cfg, ops, asks))
    ensures InTime(OpsAfter(cfg, ops, asks), if asks == [] then now else asks[|asks| - 1].env.repliedAt)
  {
    if asks != [] {
      var n := |asks| - 1;
      RequestExtendsRun(cfg, ops, asks[..n], now);
      QuestionExtendsRun(cfg, OpsAfter(cfg, ops, asks[..n]), asks[n].question, asks[n].env);
    }
  }

  /** The question was told "no records": now, or by a reply that the cache operations so far have
      stored and that still counts. */
  predicate ToldNoRecords(cfg: Config, past: seq<Op>, ask: Ask)
  {
    && Forwards(ask.question, ask.env)
    && var key := KeyOf(ask.question.name, ask.question.qtype);
       || ask.env.upstream == Replied(NoRecords)
       || exists i :: 0 <= i < |past| && Stores(cfg.caps, past, key, i) && past[i].reply == NoRecords
                      && past[i].at <= ask.env.askedAt < past[i].at + cfg.caps.negative
  }

  predicate AnsweredAfter(cfg: Config, past: seq<Op>, ask: Ask, o: Outcome)
  {
    InTime(past, ask.env.askedAt) && o == AnswerOutcome(cfg, Run(cfg.caps, past), ask.question, ask.env)
  }

  lemma NxdomainOutcome(cfg: Config, past: seq<Op>, ask: Ask)
    requires AnsweredAfter(cfg, past, ask, Answered([], NXDomain))
    ensures ToldNoRecords(cfg, past, ask)
  {
    NxdomainIsReal(cfg, past, ask.question, ask.env);
  }

  /** However requests interleave - each question meets the cache after some history of its own - the
      loop's response says NXDOMAIN only if one of its questions was really told so, says SERVFAIL
      just when a question failed and none was answered, and holds all answers in order. */
  lemma ResponseCodesAreReal(cfg: Config, pasts: seq<seq<Op>>, asks: seq<Ask>, os: seq<Outcome>)
    requires |pasts| == |asks| == |os|
    requires forall k :: 0 <= k < |asks| ==> AnsweredAfter(cfg, pasts[k], asks[k], os[k])
    ensures var r := Conclude(TallyAll(os));
            && (r.rcode == NXDomain ==> exists k :: 0 <= k < |asks| && ToldNoRecords(cfg, pasts[k], asks[k]))
            && (r.rcode == ServFail <==>
                  Failed in os && forall i :: 0 <= i < |os| && os[i].Answered? ==> os[i].answers == [])
            && (r.rcode == NXDomain <==> r.rcode != ServFail && exists k :: 0 <= k < |os| && os[k] == Answered([], NXDomain))
            && (r.rcode == NXDomain || r.rcode == ServFail || r.rcode == NoError)
            && r.answers == Answers(os)
  {
    forall k | 0 <= k < |os|
      ensures OutcomeOk(os[k])
    {
      assert AnsweredAfter(cfg, pasts[k], asks[k], os[k]);
      RunCodes(cfg.caps, pasts[k]);
      OutcomeCodes(cfg, Run(cfg.caps, pasts[k]), asks[k].question, asks[k].env);
    }
    LoopResponse(os);
    AnswersEmpty(os);
    if CodeOf(os) == NXDomain {
      var k :| 0 <= k < |os| && os[k] == Answered([], NXDomain);
      NxdomainOutcome(cfg, pasts[k], asks[k]);
    }
  }

  /** The loop over the questions is such a response, each question's history being what came
      before it. */
  lemma {:induction false} LoopAnswersAfter(cfg: Config, ops: seq<Op>, asks: seq<Ask>, now: nat, k: nat)
    requires InTime(ops, now) && AskedInTime(asks, now) && k < |asks|
    ensures AnsweredAfter(cfg, OpsAfter(cfg, ops, asks[..k]), asks[k], AskAll(cfg, Run(cfg.caps, ops), asks).outcomes[k])
  {
    var init := asks[..k];
    OutcomeAt(cfg, Run(cfg.caps, ops), asks, k);
    assert AskedInTime(init, now);
    RequestExtendsRun(cfg, ops, init, now);
    InTimeLater(OpsAfter(cfg, ops, init), if k == 0 then now else asks[k - 1].env.repliedAt, asks[k].env.askedAt);
  }

  /** The cache's own invariant holds after every run, so every request may rely on it. */
  lemma {:induction false} RunCodes(caps: Caps, ops: seq<Op>)
    ensures CodesOk(Run(caps, ops))
  {
    if ops != [] {
      RunCodes(caps, ops[..|ops| - 1]);
    }
  }

  lemma InTimeLater(ops: seq<Op>, now: nat, later: nat)
    requires InTime(ops, now) && now <= later
    ensures InTime(ops, later)
  {
  }
}
