/** What is read out of the tables - the DNS view and the admin view - and the purge that
    must not change either. */
module Views {
  import opened Text
  import opened Rfc3339
  import opened Leases

  // ---- IPv4 addresses as `str::parse::<Ipv4Addr>` reads them ----

  datatype Ipv4 = Ipv4(a: nat, b: nat, c: nat, d: nat)

  predicate IsOctet(s: string)
  {
    && 1 <= |s| <= 3
    && IsDigits(s)
    && (|s| > 1 ==> s[0] != '0')
    && Number(s) <= 255
  }

  function ParseIpv4(s: string): (r: Option<Ipv4>)
  {
    var p := Split(s, '.');
    if |p| == 4 && IsOctet(p[0]) && IsOctet(p[1]) && IsOctet(p[2]) && IsOctet(p[3]) then
      Some(Ipv4(Number(p[0]), Number(p[1]), Number(p[2]), Number(p[3])))
    else None
  }

  /** Dotted decimal, without leading zeros. */
  function Dotted(ip: Ipv4): (s: string)
  {
    Decimal(ip.a) + "." + Decimal(ip.b) + "." + Decimal(ip.c) + "." + Decimal(ip.d)
  }

  lemma OctetPrinted(n: nat)
    requires n < 256
    ensures IsOctet(Decimal(n)) && Number(Decimal(n)) == n && '.' !in Decimal(n)
  {
    NumberDecimal(n);
    if n >= 100 {
      assert Decimal(n) == Decimal(n / 10) + [Digit(n % 10)] && Decimal(n / 10) == Decimal(n / 100) + [Digit(n / 10 % 10)];
      assert Decimal(n / 100) == [Digit(n / 100)];
    } else if n >= 10 {
      assert Decimal(n / 10) == [Digit(n / 10)];
    }
  }

  lemma SplitDotted(ip: Ipv4)
    requires ip.a < 256 && ip.b < 256 && ip.c < 256 && ip.d < 256
    ensures Split(Dotted(ip), '.') == [Decimal(ip.a), Decimal(ip.b), Decimal(ip.c), Decimal(ip.d)]
  {
    hide Decimal, IsOctet, Number, Split;
    var a, b, c, d := Decimal(ip.a), Decimal(ip.b), Decimal(ip.c), Decimal(ip.d);
    OctetPrinted(ip.a);
    OctetPrinted(ip.b);
    OctetPrinted(ip.c);
    OctetPrinted(ip.d);
    SplitNone(d, '.');
    SplitAtFirst(c, '.', d);
    SplitAtFirst(b, '.', c + "." + d);
    SplitAtFirst(a, '.', b + "." + (c + "." + d));
    assert Dotted(ip) == a + "." + (b + "." + (c + "." + d));
  }

  lemma JoinFour(p: seq<string>)
    requires |p| == 4
    ensures Join(p, '.') == p[0] + "." + p[1] + "." + p[2] + "." + p[3]
  {
    assert p[1..][1..] == p[2..] && p[2..][1..] == p[3..];
    assert Join(p[3..], '.') == p[3];
    assert Join(p[2..], '.') == p[2] + "." + p[3];
    assert Join(p[1..], '.') == p[1] + "." + (p[2] + "." + p[3]);
    assert Join(p, '.') == p[0] + "." + (p[1] + "." + (p[2] + "." + p[3]));
  }

  /** Parsing undoes printing, and reads nothing else. */
  lemma ParseIpv4Exact(s: string, ip: Ipv4)
    ensures ParseIpv4(s) == Some(ip) <==>
            ip.a < 256 && ip.b < 256 && ip.c < 256 && ip.d < 256 && s == Dotted(ip)
  {
    if ParseIpv4(s) == Some(ip) {
      var p := Split(s, '.');
      JoinSplit(s, '.');
      JoinFour(p);
      DecimalNumber(p[0]);
      DecimalNumber(p[1]);
      DecimalNumber(p[2]);
      DecimalNumber(p[3]);
    }
    if ip.a < 256 && ip.b < 256 && ip.c < 256 && ip.d < 256 && s == Dotted(ip) {
      SplitDotted(ip);
      OctetPrinted(ip.a);
      OctetPrinted(ip.b);
      OctetPrinted(ip.c);
      OctetPrinted(ip.d);
    }
  }

  // ---- Views ----

  /** The row's owner is enrolled, not revoked, and its lease is live. */
  predicate Active(db: Db, h: string, now: nat, ttl: nat)
  {
    && h in db.routes
    && Enrolled(db, db.routes[h].owner)
    && Live(db.agents[db.routes[h].owner].lastSeen, now, ttl)
  }

  /** `active_dns_routes`: host to the owner's address text. */
  function ActiveRoutes(db: Db, now: nat, ttl: nat): (m: map<string, string>)
  {
    map h | h in db.routes && Active(db, h, now, ttl) :: db.agents[db.routes[h].owner].ip
  }

  /** What a refresh publishes: active hosts whose owner's address parses. */
  function DnsView(db: Db, now: nat, ttl: nat): (m: map<string, Ipv4>)
  {
    var active := ActiveRoutes(db, now, ttl);
    map h | h in active && ParseIpv4(active[h]).Some? :: ParseIpv4(active[h]).value
  }

  datatype AdminRow = AdminRow(owner: string, backend: string, containerId: Option<string>,
                               containerName: Option<string>, expires: nat)

  /** `list_routes_admin`. */
  function AdminView(db: Db, now: nat, ttl: nat): (m: map<string, AdminRow>)
  {
    map h | h in db.routes && Active(db, h, now, ttl) ::
      var r := db.routes[h];
      AdminRow(r.owner, r.backend, r.containerId, r.containerName, db.agents[r.owner].lastSeen.value + ttl)
  }

  /** DNS answers one address for a host just when its row's owner is enrolled, unrevoked, live
      and has an address that parses - and then it answers that address. */
  lemma DnsViewMeaning(db: Db, now: nat, ttl: nat, h: string)
    ensures h in DnsView(db, now, ttl) <==>
            Active(db, h, now, ttl) && ParseIpv4(db.agents[db.routes[h].owner].ip).Some?
    ensures h in DnsView(db, now, ttl) ==>
            Some(DnsView(db, now, ttl)[h]) == ParseIpv4(db.agents[db.routes[h].owner].ip)
  {
  }

  /** The admin view lists a host just when it is active, with its row's fields, and the expiry it
      shows is the first time at which, left alone, the host is not active. */
  lemma AdminViewMeaning(db: Db, now: nat, ttl: nat, h: string, later: nat)
    ensures h in AdminView(db, now, ttl) <==> Active(db, h, now, ttl)
    ensures h in AdminView(db, now, ttl) ==>
              var a, r := AdminView(db, now, ttl)[h], db.routes[h];
              && a.owner == r.owner && a.backend == r.backend
              && a.containerId == r.containerId && a.containerName == r.containerName
              && now < a.expires && (Active(db, h, later, ttl) <==> later < a.expires)
  {
  }

  // ---- Purge, which compares rendered timestamps as text ----

  predicate Stale(lastSeen: Option<nat>, cutoff: nat)
  {
    lastSeen.None? || Less(Render(lastSeen.value), Render(cutoff))
  }

  /** The subquery: agents whose last heartbeat sorts before the cutoff. */
  function StaleAgents(agents: map<string, Agent>, cutoff: nat): (r: set<string>)
  {
    set id | id in agents && Stale(agents[id].lastSeen, cutoff)
  }

  function DropRowsOf(db: Db, ids: set<string>): (r: Db)
  {
    db.(routes := map h | h in db.routes && db.routes[h].owner !in ids :: db.routes[h])
  }

  /** The one statement of a purge, with its cutoff bound. */
  function Purge(db: Db, cutoff: nat): (r: Db)
  {
    DropRowsOf(db, StaleAgents(db.agents, cutoff))
  }

  /** Every recorded heartbeat lies in a year of four digits. */
  predicate StampsPrintable(db: Db)
  {
    forall id :: id in db.agents && db.agents[id].lastSeen.Some? ==> FourDigitYear(db.agents[id].lastSeen.value)
  }

  /** Comparing the texts is comparing the times: purge removes exactly the rows whose owner was
      seen more than a lease ago (or never). A row right at the end of its lease is dead and stays. */
  lemma {:induction false} PurgeExact(db: Db, now: nat, ttl: nat, h: string)
    requires ttl <= now && FourDigitYear(now) && StampsPrintable(db)
    ensures h in Purge(db, now - ttl).routes <==>
            h in db.routes &&
            !(db.routes[h].owner in db.agents &&
              (var seen := db.agents[db.routes[h].owner].lastSeen; seen.None? || now - seen.value > ttl))
    ensures h in Purge(db, now - ttl).routes ==> Purge(db, now - ttl).routes[h] == db.routes[h]
  {
    if h in db.routes && db.routes[h].owner in db.agents && db.agents[db.routes[h].owner].lastSeen.Some? {
      YearAtMonotone(now - ttl, now);
      RenderOrder(db.agents[db.routes[h].owner].lastSeen.value, now - ttl);
    }
  }

  lemma AdminFromActive(d: Db, e: Db, now: nat, ttl: nat)
    requires d.agents == e.agents
    requires forall h :: Active(d, h, now, ttl) == Active(e, h, now, ttl)
    requires forall h :: Active(d, h, now, ttl) && Active(e, h, now, ttl) ==> d.routes[h] == e.routes[h]
    ensures AdminView(d, now, ttl) == AdminView(e, now, ttl)
  {
    var a, b := AdminView(d, now, ttl), AdminView(e, now, ttl);
    forall h
      ensures (h in a <==> h in b) && (h in a ==> a[h] == b[h])
    {
      assert Active(d, h, now, ttl) == Active(e, h, now, ttl);
    }
    assert a == b;
  }

  /** The views depend only on the active rows and the agents behind them. */
  lemma ViewsFromActive(d: Db, e: Db, now: nat, ttl: nat)
    requires d.agents == e.agents
    requires forall h :: Active(d, h, now, ttl) == Active(e, h, now, ttl)
    requires forall h :: Active(d, h, now, ttl) && Active(e, h, now, ttl) ==> d.routes[h] == e.routes[h]
    ensures ActiveRoutes(d, now, ttl) == ActiveRoutes(e, now, ttl)
    ensures DnsView(d, now, ttl) == DnsView(e, now, ttl)
    ensures AdminView(d, now, ttl) == AdminView(e, now, ttl)
  {
    assert ActiveRoutes(d, now, ttl) == ActiveRoutes(e, now, ttl);
    AdminFromActive(d, e, now, ttl);
  }
}
