/** The two tables looked up by name - the DNS registry and the agent's proxy table - and the
    keys they look up. Both are swapped as a whole. */
module LookupKeys {
  import opened Text
  import opened Hostnames
  import opened Backends
  import opened Leases
  import opened Views

  /** DNS names lose their trailing dots and their case. */
  function DnsKey(name: string): (k: string)
  {
    Lower(TrimEndDots(name))
  }

  /** Host headers lose what follows the first colon, and their case. */
  function ProxyKey(host: string): (k: string)
  {
    Lower(Split(host, ':')[0])
  }

  function Find<V>(m: map<string, V>, key: string): (r: Option<V>)
  {
    if key in m then Some(m[key]) else None
  }

  class DnsRegistry {
    var inner: map<string, Ipv4>

    constructor ()
      ensures inner == map[]
    {
      inner := map[];
    }

    method Replace(routes: map<string, Ipv4>)
      modifies this
      ensures inner == routes
    {
      inner := routes;
    }

    function LookupA(name: string): (r: Option<Ipv4>)
      reads this
    {
      Find(inner, DnsKey(name))
    }

  }

  class RouteStore {
    var inner: map<string, BackendRoute>

    constructor ()
      ensures inner == map[]
    {
      inner := map[];
    }

    method Replace(routes: map<string, BackendRoute>)
      modifies this
      ensures inner == routes
    {
      inner := routes;
    }

    function Resolve(host: string): (r: Option<BackendRoute>)
      reads this
    {
      Find(inner, ProxyKey(host))
    }
  }

  lemma {:induction false} TrimmedForm(q: string) returns (n: nat)
    ensures q == TrimEndDots(q) + Dots(n)
    ensures TrimEndDots(q) == [] || TrimEndDots(q)[|TrimEndDots(q)| - 1] != '.'
  {
    if q != [] && q[|q| - 1] == '.' {
      var k := TrimmedForm(q[..|q| - 1]);
      n := k + 1;
      assert q == q[..|q| - 1] + ".";
    } else {
      n := 0;
    }
  }

  lemma {:induction false} FirstPartForm(s: string, d: char)
    ensures var v := Split(s, d)[0];
            d !in v && (s == v || exists p :: s == v + [d] + p)
  {
    var v := Split(s, d)[0];
    if s != [] {
      FirstPartForm(s[1..], d);
      if s[0] == d {
        assert s == v + [d] + s[1..];
      } else {
        var w := Split(s[1..], d)[0];
        assert s == [s[0]] + s[1..] && v == [s[0]] + w;
        if s[1..] != w {
          var p :| s[1..] == w + [d] + p;
          assert s == v + [d] + p;
        }
      }
    }
  }

  lemma CaseVariantEnds(v: string, h: string)
    requires Lower(v) == h && h != [] && h[|h| - 1] != '.'
    ensures v != [] && v[|v| - 1] != '.'
  {
    assert h[|h| - 1] == LowerChar(v[|v| - 1]);
  }

  lemma CaseVariantColons(v: string)
    requires ':' !in Lower(v)
    ensures ':' !in v
  {
    forall i | 0 <= i < |v|
      ensures v[i] != ':'
    {
      assert Lower(v)[i] == LowerChar(v[i]);
    }
  }

  /** DNS finds a normalised hostname under a query name exactly when the name is a case variant
      of it followed by any number of dots. */
  lemma DnsKeyExact(idna: Idna, input: string, q: string)
    requires Normalize(idna, input).Some?
    ensures var h := Normalize(idna, input).value;
            DnsKey(q) == h <==> exists v, n :: q == v + Dots(n) && Lower(v) == h
  {
    var h := Normalize(idna, input).value;
    NormalizeIsCanonical(idna, input);
    var k := TrimmedForm(q);
    if v, n :| q == v + Dots(n) && Lower(v) == h {
      CaseVariantEnds(v, h);
      TrimAppendedDots(v, n);
    }
    if DnsKey(q) == h {
      assert q == TrimEndDots(q) + Dots(k) && Lower(TrimEndDots(q)) == h;
    }
  }

  /** The proxy finds it exactly under a case variant of it, alone or with a colon and anything
      behind it. A trailing dot is not removed, so a name DNS answers can miss here. */
  lemma ProxyKeyExact(idna: Idna, input: string, s: string)
    requires Normalize(idna, input).Some?
    ensures var h := Normalize(idna, input).value;
            ProxyKey(s) == h <==> exists v :: Lower(v) == h && (s == v || exists p :: s == v + ":" + p)
  {
    var h := Normalize(idna, input).value;
    NormalizeIsCanonical(idna, input);
    FirstPartForm(s, ':');
    if v :| Lower(v) == h && (s == v || exists p :: s == v + ":" + p) {
      CaseVariantColons(v);
      if s == v {
        SplitNone(v, ':');
      } else {
        var p :| s == v + ":" + p;
        SplitAtFirst(v, ':', p);
      }
    }
    if ProxyKey(s) == h {
      var v := Split(s, ':')[0];
      assert Lower(v) == h;
    }
  }

  /** With a trailing dot the proxy's key is no normalised hostname at all. */
  lemma ProxyMissesTrailingDot(idna: Idna, input: string, input': string, v: string, n: nat)
    requires Normalize(idna, input).Some? && Lower(v) == Normalize(idna, input).value
    requires n > 0
    ensures DnsKey(v + Dots(n)) == Normalize(idna, input).value
    ensures Some(ProxyKey(v + Dots(n))) != Normalize(idna, input')
  {
    var h := Normalize(idna, input).value;
    NormalizeIsCanonical(idna, input);
    CaseVariantEnds(v, h);
    TrimAppendedDots(v, n);
    CaseVariantColons(v);
    DotsAreDots(n);
    SplitNone(v + Dots(n), ':');
    var key := ProxyKey(v + Dots(n));
    assert key[|key| - 1] == '.';
    if Normalize(idna, input').Some? {
      NormalizeIsCanonical(idna, input');
    }
  }

  /** From a refresh on, DNS answers a normalised hostname, in any case and with any number of
      dots, with one address just when at the refresh its row's owner was enrolled, unrevoked and
      live with that address; and the proxy table answers the same name, in any case and with any
      port, whenever it holds it. */
  lemma LookupsAgree(idna: Idna, input: string, v: string, n: nat, port: string,
                     db: Db, now: nat, ttl: nat, proxy: map<string, BackendRoute>, ip: Ipv4)
    requires Normalize(idna, input).Some? && Lower(v) == Normalize(idna, input).value
    ensures var h := Normalize(idna, input).value;
            && (Find(DnsView(db, now, ttl), DnsKey(v + Dots(n))) == Some(ip) <==>
                Active(db, h, now, ttl) && ParseIpv4(db.agents[db.routes[h].owner].ip) == Some(ip))
            && Find(proxy, ProxyKey(v)) == Find(proxy, ProxyKey(v + ":" + port)) == Find(proxy, h)
  {
    var h := Normalize(idna, input).value;
    DnsKeyExact(idna, input, v + Dots(n));
    assert DnsKey(v + Dots(n)) == h;
    DnsViewMeaning(db, now, ttl, h);
    ProxyKeyExact(idna, input, v);
    ProxyKeyExact(idna, input, v + ":" + port);
  }
}
