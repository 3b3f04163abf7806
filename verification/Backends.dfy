/** HTTP backends and the texts that identify them. */
module Backends {
  import opened Text

  type Port = n: nat | n < 65536

  datatype Backend = Backend(host: string, port: Port)

  /** What the local proxy keeps for a host. */
  datatype BackendRoute = BackendRoute(backend: Backend, containerId: Option<string>, containerName: Option<string>)

  /** The host as printed: an unbracketed host with a colon gains brackets. */
  function HostText(host: string): (s: string)
  {
    if ':' in host && host[0] != '[' then "[" + host + "]" else host
  }

  function Authority(b: Backend): (s: string)
  {
    HostText(b.host) + ":" + Decimal(b.port)
  }

  function BaseUrl(b: Backend): (s: string)
  {
    "http://" + Authority(b) + "/"
  }

  function Fingerprint(b: Backend): (s: string)
  {
    "http://" + Authority(b) + "/"
  }

  /** `a` is `b` inside one bracket pair, for a bare `b` that holds a colon. */
  predicate Brackets(a: string, b: string)
  {
    ':' in b && b[0] != '[' && a == "[" + b + "]"
  }

  lemma LastColonPlace(p: string, x: string)
    requires ':' !in x
    ensures (p + ":" + x)[|p|] == ':'
    ensures forall i :: |p| < i < |p| + 1 + |x| ==> (p + ":" + x)[i] != ':'
  {
  }

  /** A text is split in one way only at a colon with no colon behind it. */
  lemma LastColonUnique(p: string, x: string, q: string, y: string)
    requires p + ":" + x == q + ":" + y
    requires ':' !in x && ':' !in y
    ensures p == q && x == y
  {
    LastColonPlace(p, x);
    LastColonPlace(q, y);
    var s := p + ":" + x;
    assert |p| == |q|;
    assert s[..|p|] == p && s[..|q|] == q;
    assert s[|p| + 1..] == x && s[|q| + 1..] == y;
  }

  lemma HostTextEqual(a: string, b: string)
    ensures HostText(a) == HostText(b) <==> a == b || Brackets(a, b) || Brackets(b, a)
  {
    var bare := (h: string) => ':' in h && h[0] != '[';
    if bare(a) && bare(b) && HostText(a) == HostText(b) {
      assert HostText(a)[1..|a| + 1] == a && HostText(b)[1..|b| + 1] == b;
    }
    if Brackets(a, b) {
      assert a[0] == '[';
    }
    if Brackets(b, a) {
      assert b[0] == '[';
    }
  }

  /** Two backends print the same authority exactly when the ports agree and the hosts agree
      up to one bracket pair around a bare host that holds a colon. */
  lemma AuthorityIdentifies(a: Backend, b: Backend)
    ensures Authority(a) == Authority(b) <==>
            a.port == b.port && (a.host == b.host || Brackets(a.host, b.host) || Brackets(b.host, a.host))
  {
    HostTextEqual(a.host, b.host);
    if Authority(a) == Authority(b) {
      DecimalDigits(a.port);
      DecimalDigits(b.port);
      LastColonUnique(HostText(a.host), Decimal(a.port), HostText(b.host), Decimal(b.port));
      DecimalInjective(a.port, b.port);
    }
  }

  /** How an authority reads: the host, in brackets if it holds a colon and has none, a colon, and
      digits that say the port; nothing behind the last colon but those. */
  lemma AuthorityReads(b: Backend)
    ensures exists digits :: IsDigits(digits) && digits != [] && Number(digits) == b.port &&
              Authority(b) == (if ':' in b.host && b.host[0] != '[' then "[" + b.host + "]" else b.host) + ":" + digits
    ensures forall p, x :: Authority(b) == p + ":" + x && ':' !in x ==> IsDigits(x) && Number(x) == b.port
    ensures BaseUrl(b) == "http://" + Authority(b) + "/"
  {
    NumberDecimal(b.port);
    DecimalDigits(b.port);
    forall p, x | Authority(b) == p + ":" + x && ':' !in x
      ensures IsDigits(x) && Number(x) == b.port
    {
      LastColonUnique(HostText(b.host), Decimal(b.port), p, x);
    }
  }

  /** The fingerprint sent with a heartbeat and the URL sent with a route are one text, and it
      identifies the backend as the authority does. */
  lemma FingerprintIdentifies(a: Backend, b: Backend)
    ensures Fingerprint(a) == BaseUrl(a)
    ensures Fingerprint(a) == Fingerprint(b) <==>
            a.port == b.port && (a.host == b.host || Brackets(a.host, b.host) || Brackets(b.host, a.host))
  {
    AuthorityIdentifies(a, b);
    var s, t := Fingerprint(a), Fingerprint(b);
    assert s[7..|s| - 1] == Authority(a) && t[7..|t| - 1] == Authority(b);
  }
}
