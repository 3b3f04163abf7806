/** Choosing a container's backend: an explicit label, a published host port, the host network,
    the container's address - and nothing when the choice is ambiguous. */
module Resolve {
  import opened Text
  import opened Backends

  datatype PublishedPort = PublishedPort(containerPort: Port, hostIp: string, hostPort: Port)

  datatype Network = Network(name: string, ip: string)

  datatype Labels = Labels(hosts: seq<string>, port: Option<Port>, backend: Option<Backend>, network: Option<string>)

  /** Ports and networks come in the iteration order of hash maps. */
  datatype Service = Service(containerId: string, containerName: string, labels: Labels,
                             networkMode: Option<string>, published: seq<PublishedPort>,
                             networks: seq<Network>, exposed: seq<Port>)

  const LOOPBACK: string := "127.0.0.1"
  const ANY: string := "0.0.0.0"

  // ---- The code ----

  function ContainerPorts(published: seq<PublishedPort>): (r: seq<Port>)
  {
    seq(|published|, i requires 0 <= i < |published| => published[i].containerPort)
  }

  function Insert(s: seq<Port>, p: Port): (r: seq<Port>)
  {
    if s == [] || p <= s[0] then [p] + s else [s[0]] + Insert(s[1..], p)
  }

  function SortPorts(s: seq<Port>): (r: seq<Port>)
  {
    if s == [] then [] else Insert(SortPorts(s[1..]), s[0])
  }

  /** `Vec::dedup`: drops each element equal to the one before it. */
  function Dedup(s: seq<Port>): (r: seq<Port>)
  {
    if |s| <= 1 then s
    else if s[|s| - 2] == s[|s| - 1] then Dedup(s[..|s| - 1])
    else Dedup(s[..|s| - 1]) + [s[|s| - 1]]
  }

  function SingleExposed(svc: Service): (r: Option<Port>)
  {
    if |svc.exposed| == 1 then Some(svc.exposed[0]) else None
  }

  function SinglePublished(svc: Service): (r: Option<Port>)
  {
    var ports := Dedup(SortPorts(ContainerPorts(svc.published)));
    if |ports| == 1 then Some(ports[0]) else None
  }

  function OrElse<T>(a: Option<T>, b: Option<T>): (r: Option<T>)
  {
    if a.Some? then a else b
  }

  predicate IsLocal(p: PublishedPort)
  {
    p.hostIp == LOOPBACK || p.hostIp == ANY || p.hostIp == ""
  }

  /** The elements that pass a test, in order. */
  function Where<T>(s: seq<T>, test: T -> bool): (r: seq<T>)
  {
    if s == [] then []
    else if test(s[0]) then [s[0]] + Where(s[1..], test)
    else Where(s[1..], test)
  }

  function Matches(published: seq<PublishedPort>, port: Port): (r: seq<PublishedPort>)
  {
    Where(published, (p: PublishedPort) => p.containerPort == port)
  }

  datatype Selection = Absent | Ambiguous | Selected(binding: PublishedPort)

  function SelectPublished(svc: Service, port: Port): (r: Selection)
  {
    var ms := Matches(svc.published, port);
    if |ms| == 0 then Absent
    else if |ms| == 1 then Selected(ms[0])
    else if |Where(ms, IsLocal)| == 1 then Selected(Where(ms, IsLocal)[0])
    else Ambiguous
  }

  function Get(networks: seq<Network>, name: string): (r: Option<string>)
  {
    if networks == [] then None
    else if networks[0].name == name then Some(networks[0].ip)
    else Get(networks[1..], name)
  }

  function SelectIp(svc: Service): (r: Option<string>)
  {
    if svc.labels.network.Some? then Get(svc.networks, svc.labels.network.value)
    else if |svc.networks| == 1 then Some(svc.networks[0].ip)
    else None
  }

  function Target(p: PublishedPort): (b: Backend)
  {
    Backend(if p.hostIp == ANY || p.hostIp == "" then LOOPBACK else p.hostIp, p.hostPort)
  }

  /** `resolve_backend`; `None` is its one kind of error. */
  function ResolveBackend(svc: Service): (r: Option<Backend>)
  {
    if svc.labels.backend.Some? then svc.labels.backend
    else
      var port := OrElse(OrElse(svc.labels.port, SingleExposed(svc)), SinglePublished(svc));
      if port.None? then None
      else
        match SelectPublished(svc, port.value)
        case Ambiguous => None
        case Selected(p) => Some(Target(p))
        case Absent =>
          if svc.networkMode == Some("host") then Some(Backend(LOOPBACK, port.value))
          else
            match SelectIp(svc)
            case None => None
            case Some(ip) => Some(Backend(ip, port.value))
  }

  // ---- Sort and dedup ----

  predicate IsSorted(s: seq<Port>)
  {
    forall i, j :: 0 <= i < j < |s| ==> s[i] <= s[j]
  }

  predicate OneValue(s: seq<Port>, p: Port)
  {
    s != [] && forall i :: 0 <= i < |s| ==> s[i] == p
  }

  lemma {:induction false} InsertMembers(s: seq<Port>, p: Port)
    ensures forall x :: x in Insert(s, p) <==> x == p || x in s
  {
    if s != [] && p > s[0] {
      InsertMembers(s[1..], p);
      assert s == [s[0]] + s[1..];
    }
  }

  lemma {:induction false} InsertMultiset(s: seq<Port>, p: Port)
    ensures multiset(Insert(s, p)) == multiset(s) + multiset{p}
  {
    if s != [] && p > s[0] {
      InsertMultiset(s[1..], p);
      assert s == [s[0]] + s[1..];
    }
  }

  lemma FirstIsLeast(p: Port, s: seq<Port>)
    requires IsSorted(s) && forall x :: x in s ==> p <= x
    ensures IsSorted([p] + s)
  {
    assert forall i :: 0 <= i < |s| ==> s[i] in s;
  }

  lemma {:induction false} InsertSorts(s: seq<Port>, p: Port)
    requires IsSorted(s)
    ensures IsSorted(Insert(s, p))
  {
    if s == [] || p <= s[0] {
      FirstIsLeast(p, s);
    } else {
      InsertSorts(s[1..], p);
      InsertMembers(s[1..], p);
      FirstIsLeast(s[0], Insert(s[1..], p));
    }
  }

  lemma {:induction false} SortPortsSorts(s: seq<Port>)
    ensures IsSorted(SortPorts(s)) && multiset(SortPorts(s)) == multiset(s)
  {
    if s != [] {
      SortPortsSorts(s[1..]);
      InsertSorts(SortPorts(s[1..]), s[0]);
      InsertMultiset(SortPorts(s[1..]), s[0]);
      assert s == [s[0]] + s[1..];
    }
  }

  /** Whatever the sort makes of the ports, one is left after dedup just when all are equal. */
  lemma {:induction false} DedupOne(s: seq<Port>)
    requires IsSorted(s)
    ensures s != [] ==> Dedup(s) != [] && Dedup(s)[0] == s[0]
    ensures |Dedup(s)| == 1 <==> s != [] && OneValue(s, s[0])
  {
    if |s| > 1 {
      DedupOne(s[..|s| - 1]);
      if s[|s| - 2] == s[|s| - 1] {
        assert forall i :: 0 <= i < |s| ==> s[i] == (if i == |s| - 1 then s[|s| - 2] else s[..|s| - 1][i]);
      }
    }
  }

  lemma SameMembersOneValue(s: seq<Port>, t: seq<Port>, p: Port)
    requires OneValue(s, p) && |s| == |t| && forall x :: x in t ==> x in s
    ensures OneValue(t, p)
  {
    forall i | 0 <= i < |t|
      ensures t[i] == p
    {
      assert t[i] in s;
    }
  }

  lemma SortDedupOne(ports: seq<Port>, sorted: seq<Port>, p: Port)
    requires IsSorted(sorted) && multiset(sorted) == multiset(ports)
    ensures |Dedup(sorted)| == 1 && Dedup(sorted)[0] == p <==> OneValue(ports, p)
  {
    DedupOne(sorted);
    assert |ports| == |multiset(ports)| == |multiset(sorted)| == |sorted|;
    forall x
      ensures x in ports <==> x in sorted
    {
      assert x in multiset(ports) <==> x in multiset(sorted);
    }
    if OneValue(ports, p) {
      SameMembersOneValue(ports, sorted, p);
    }
    if OneValue(sorted, p) {
      SameMembersOneValue(sorted, ports, p);
    }
  }

  lemma SinglePublishedIff(svc: Service, p: Port)
    ensures SinglePublished(svc) == Some(p) <==> OneValue(ContainerPorts(svc.published), p)
  {
    var ports := ContainerPorts(svc.published);
    SortPortsSorts(ports);
    SortDedupOne(ports, SortPorts(ports), p);
  }

  // ---- What is chosen, said without the code ----

  /** The container port: the label's, else the only exposed one, else the one all bindings share. */
  predicate PortIs(svc: Service, p: Port)
  {
    if svc.labels.port.Some? then p == svc.labels.port.value
    else if |svc.exposed| == 1 then p == svc.exposed[0]
    else svc.published != [] && forall i :: 0 <= i < |svc.published| ==> svc.published[i].containerPort == p
  }

  predicate Binds(svc: Service, p: Port, i: int)
  {
    0 <= i < |svc.published| && svc.published[i].containerPort == p
  }

  predicate LocalAddress(ip: string)
  {
    ip == "" || ip == "0.0.0.0" || ip == "127.0.0.1"
  }

  /** `b` is where the binding listens, as seen from the host itself. */
  predicate PointsTo(q: PublishedPort, b: Backend)
  {
    b.port == q.hostPort && b.host == (if q.hostIp == "" || q.hostIp == "0.0.0.0" then "127.0.0.1" else q.hostIp)
  }

  /** Binding `i` is the only one for the port, or the only local one for it. */
  ghost predicate Decisive(svc: Service, p: Port, i: int)
  {
    && Binds(svc, p, i)
    && (|| (forall j :: Binds(svc, p, j) ==> j == i)
        || (LocalAddress(svc.published[i].hostIp) && forall j :: Binds(svc, p, j) && LocalAddress(svc.published[j].hostIp) ==> j == i))
  }

  predicate IpIs(svc: Service, ip: string)
  {
    if svc.labels.network.Some? then Network(svc.labels.network.value, ip) in svc.networks
    else |svc.networks| == 1 && svc.networks[0].ip == ip
  }

  /** `b` is what the highest applicable level of priority determines, given the port. */
  ghost predicate ChosenFor(svc: Service, p: Port, b: Backend)
  {
    if exists i :: Binds(svc, p, i) then exists i :: Decisive(svc, p, i) && PointsTo(svc.published[i], b)
    else if svc.networkMode == Some("host") then b == Backend("127.0.0.1", p)
    else b.port == p && IpIs(svc, b.host)
  }

  ghost predicate Chosen(svc: Service, b: Backend)
  {
    if svc.labels.backend.Some? then b == svc.labels.backend.value
    else exists p :: PortIs(svc, p) && ChosenFor(svc, p, b)
  }

  /** Keys of a map occur once. */
  predicate DistinctNames(networks: seq<Network>)
  {
    forall i, j :: 0 <= i < j < |networks| ==> networks[i].name != networks[j].name
  }

  lemma {:induction false} GetIff(networks: seq<Network>, name: string, ip: string)
    requires DistinctNames(networks)
    ensures Get(networks, name) == Some(ip) <==> Network(name, ip) in networks
  {
    if networks != [] {
      GetIff(networks[1..], name, ip);
      assert networks == [networks[0]] + networks[1..];
    }
  }

  predicate OnlyAt<T>(s: seq<T>, test: T -> bool, i: int)
  {
    0 <= i < |s| && test(s[i]) && forall j :: 0 <= j < |s| && test(s[j]) ==> j == i
  }

  lemma OnlyAtTail<T>(s: seq<T>, test: T -> bool, i: int)
    requires s != [] && !test(s[0])
    ensures OnlyAt(s, test, i + 1) <==> OnlyAt(s[1..], test, i)
  {
    if OnlyAt(s, test, i + 1) {
      assert forall j :: 0 <= j < |s[1..]| ==> s[1..][j] == s[j + 1];
    }
    if OnlyAt(s[1..], test, i) {
      assert forall j :: 1 <= j < |s| ==> s[j] == s[1..][j - 1];
    }
  }

  /** A filter keeps none, or one, just when none, or one, of the places passes. */
  lemma {:induction false} WhereCounts<T>(s: seq<T>, test: T -> bool)
    ensures |Where(s, test)| == 0 <==> forall i :: 0 <= i < |s| ==> !test(s[i])
    ensures |Where(s, test)| == 1 <==> exists i :: OnlyAt(s, test, i)
    ensures forall i :: OnlyAt(s, test, i) ==> |Where(s, test)| == 1 && Where(s, test)[0] == s[i]
  {
    if s != [] {
      var tail := s[1..];
      WhereCounts(tail, test);
      assert forall i :: 0 <= i < |tail| ==> tail[i] == s[i + 1];
      assert forall i :: 1 <= i < |s| ==> s[i] == tail[i - 1];
      if test(s[0]) {
        assert OnlyAt(s, test, 0) <==> |Where(tail, test)| == 0;
        assert forall i :: OnlyAt(s, test, i) ==> i == 0;
      } else {
        forall i
          ensures OnlyAt(s, test, i) ==> OnlyAt(tail, test, i - 1)
          ensures OnlyAt(tail, test, i) ==> OnlyAt(s, test, i + 1)
        {
          OnlyAtTail(s, test, i);
          OnlyAtTail(s, test, i - 1);
        }
        if i :| OnlyAt(tail, test, i) {
          assert OnlyAt(s, test, i + 1);
        }
        if i :| OnlyAt(s, test, i) {
          assert OnlyAt(tail, test, i - 1);
        }
      }
    }
  }

  lemma {:induction false} WhereTwice<T>(s: seq<T>, p: T -> bool, q: T -> bool, both: T -> bool)
    requires forall x :: both(x) == (p(x) && q(x))
    ensures Where(Where(s, p), q) == Where(s, both)
  {
    if s != [] {
      WhereTwice(s[1..], p, q, both);
      if p(s[0]) {
        assert Where(s, p)[1..] == Where(s[1..], p);
      } else {
        assert Where(s, p) == Where(s[1..], p);
      }
    }
  }

  lemma {:induction false} WhereConcat<T>(s: seq<T>, t: seq<T>, test: T -> bool)
    ensures Where(s + t, test) == Where(s, test) + Where(t, test)
  {
    if s == [] {
      assert s + t == t;
    } else {
      WhereConcat(s[1..], t, test);
      assert (s + t)[0] == s[0] && (s + t)[1..] == s[1..] + t;
    }
  }

  lemma WhereSingle<T>(x: T, test: T -> bool)
    ensures Where([x], test) == if test(x) then [x] else []
  {
    assert [x][1..] == [];
  }

  lemma WhereAround<T>(before: seq<T>, x: T, after: seq<T>, test: T -> bool)
    ensures multiset(Where(before + [x] + after, test)) ==
            multiset(Where(before + after, test)) + (if test(x) then multiset{x} else multiset{})
  {
    WhereConcat(before, after, test);
    WhereConcat(before + [x], after, test);
    WhereConcat(before, [x], test);
    WhereSingle(x, test);
  }

  lemma WithoutFirst<T>(s: seq<T>)
    requires s != []
    ensures multiset(s[1..]) == multiset(s) - multiset{s[0]}
  {
    assert s == [s[0]] + s[1..];
  }

  lemma WithoutMiddle<T>(before: seq<T>, x: T, after: seq<T>)
    ensures multiset(before + after) == multiset(before + [x] + after) - multiset{x}
  {
  }

  lemma {:induction false} WherePermuted<T>(s: seq<T>, t: seq<T>, test: T -> bool)
    requires multiset(s) == multiset(t)
    ensures multiset(Where(s, test)) == multiset(Where(t, test))
  {
    if s == [] {
      assert |multiset(t)| == 0;
    } else {
      assert s[0] in multiset(t);
      var k :| 0 <= k < |t| && t[k] == s[0];
      var before, after := t[..k], t[k + 1..];
      assert t == before + [t[k]] + after;
      WithoutFirst(s);
      WithoutMiddle(before, t[k], after);
      WherePermuted(s[1..], before + after, test);
      WhereAround(before, t[k], after, test);
    }
  }

  lemma SingletonPermuted<T>(s: seq<T>, t: seq<T>)
    requires multiset(s) == multiset(t)
    ensures |s| == |t| && (|s| == 1 ==> s == t)
  {
    assert |s| == |multiset(s)| && |t| == |multiset(t)|;
    if |s| == 1 {
      assert s[0] in multiset(t);
    }
  }

  /** The selected binding is a decisive one; none is selected otherwise. */
  lemma SelectPublishedIff(svc: Service, p: Port, q: PublishedPort)
    ensures SelectPublished(svc, p) == Absent <==> !exists i :: Binds(svc, p, i)
    ensures SelectPublished(svc, p) == Selected(q) <==> exists i :: Decisive(svc, p, i) && svc.published[i] == q
  {
    hide IsLocal, LocalAddress, Decisive;
    var isPort := (x: PublishedPort) => x.containerPort == p;
    var both := (x: PublishedPort) => x.containerPort == p && IsLocal(x);
    var s := svc.published;
    var ms := Matches(s, p);
    assert ms == Where(s, isPort);
    WhereCounts(s, isPort);
    WhereTwice(s, isPort, IsLocal, both);
    WhereCounts(s, both);
    assert forall i :: Binds(svc, p, i) <==> 0 <= i < |s| && isPort(s[i]);
    forall i
      ensures Decisive(svc, p, i) <==> OnlyAt(s, isPort, i) || OnlyAt(s, both, i)
    {
      DecisiveIff(svc, p, i, isPort, both);
    }
    if |ms| == 1 {
      var i :| OnlyAt(s, isPort, i);
      assert Decisive(svc, p, i);
      assert forall j :: Decisive(svc, p, j) ==> j == i;
    } else if |Where(ms, IsLocal)| == 1 {
      var i :| OnlyAt(s, both, i);
      assert Decisive(svc, p, i);
    }
  }

  lemma DecisiveIff(svc: Service, p: Port, i: int, isPort: PublishedPort -> bool, both: PublishedPort -> bool)
    requires forall x :: isPort(x) == (x.containerPort == p)
    requires forall x :: both(x) == (x.containerPort == p && IsLocal(x))
    ensures Decisive(svc, p, i) <==> OnlyAt(svc.published, isPort, i) || OnlyAt(svc.published, both, i)
  {
    assert forall j :: Binds(svc, p, j) <==> 0 <= j < |svc.published| && isPort(svc.published[j]);
    assert forall j :: Binds(svc, p, j) && IsLocal(svc.published[j]) <==> 0 <= j < |svc.published| && both(svc.published[j]);
  }

  lemma PortIff(svc: Service, p: Port)
    ensures OrElse(OrElse(svc.labels.port, SingleExposed(svc)), SinglePublished(svc)) == Some(p) <==> PortIs(svc, p)
  {
    SinglePublishedIff(svc, p);
    assert OneValue(ContainerPorts(svc.published), p) <==>
           svc.published != [] && forall i :: 0 <= i < |svc.published| ==> svc.published[i].containerPort == p by {
      var c := ContainerPorts(svc.published);
      assert forall i :: 0 <= i < |c| ==> c[i] == svc.published[i].containerPort;
    }
  }

  lemma SelectTargetIff(svc: Service, p: Port, b: Backend)
    ensures SelectPublished(svc, p) == Absent <==> !exists i :: Binds(svc, p, i)
    ensures SelectPublished(svc, p).Selected? && Target(SelectPublished(svc, p).binding) == b <==>
            exists i :: Decisive(svc, p, i) && PointsTo(svc.published[i], b)
  {
    var sel := SelectPublished(svc, p);
    SelectPublishedIff(svc, p, PublishedPort(p, "", p));
    if i :| Decisive(svc, p, i) && PointsTo(svc.published[i], b) {
      SelectPublishedIff(svc, p, svc.published[i]);
    }
    if sel.Selected? {
      SelectPublishedIff(svc, p, sel.binding);
    }
  }

  lemma ChosenForIff(svc: Service, p: Port, b: Backend)
    requires DistinctNames(svc.networks) && svc.labels.backend.None? && PortIs(svc, p)
    ensures ResolveBackend(svc) == Some(b) <==> ChosenFor(svc, p, b)
  {
    PortIff(svc, p);
    SelectTargetIff(svc, p, b);
    if svc.labels.network.Some? {
      GetIff(svc.networks, svc.labels.network.value, b.host);
    }
  }

  /** `resolve_backend` returns a backend just when it is the one determined at the highest
      applicable level, and fails just when there is none. */
  lemma ResolveExact(svc: Service, b: Backend)
    requires DistinctNames(svc.networks)
    ensures ResolveBackend(svc) == Some(b) <==> Chosen(svc, b)
  {
    if svc.labels.backend.None? {
      var port := OrElse(OrElse(svc.labels.port, SingleExposed(svc)), SinglePublished(svc));
      forall p: Port
        ensures port == Some(p) <==> PortIs(svc, p)
      {
        PortIff(svc, p);
      }
      if port.Some? {
        ChosenForIff(svc, port.value, b);
      }
    }
  }

  // ---- Iteration order does not matter ----

  predicate SameUpToOrder(a: Service, b: Service)
  {
    && a.labels == b.labels && a.networkMode == b.networkMode
    && multiset(a.published) == multiset(b.published)
    && multiset(a.exposed) == multiset(b.exposed)
    && multiset(a.networks) == multiset(b.networks)
  }

  lemma SinglePublishedPermuted(a: Service, b: Service)
    requires multiset(a.published) == multiset(b.published)
    ensures SinglePublished(a) == SinglePublished(b)
  {
    SingletonPermuted(a.published, b.published);
    assert forall x :: x in a.published <==> x in multiset(a.published);
    assert forall x :: x in b.published <==> x in multiset(b.published);
    forall p: Port
      ensures SinglePublished(a) == Some(p) <==> SinglePublished(b) == Some(p)
    {
      SinglePublishedIff(a, p);
      SinglePublishedIff(b, p);
      OneValueByMembers(a.published, p);
      OneValueByMembers(b.published, p);
    }
    assert SinglePublished(a).Some? ==> SinglePublished(b) == Some(SinglePublished(a).value);
    assert SinglePublished(b).Some? ==> SinglePublished(a) == Some(SinglePublished(b).value);
  }

  lemma OneValueByMembers(published: seq<PublishedPort>, p: Port)
    ensures OneValue(ContainerPorts(published), p) <==>
            published != [] && forall x :: x in published ==> x.containerPort == p
  {
    var c := ContainerPorts(published);
    assert forall i :: 0 <= i < |c| ==> c[i] == published[i].containerPort;
  }

  lemma SelectPublishedPermuted(a: Service, b: Service, port: Port)
    requires multiset(a.published) == multiset(b.published)
    ensures SelectPublished(a, port) == SelectPublished(b, port)
  {
    var isPort := (p: PublishedPort) => p.containerPort == port;
    var ma, mb := Where(a.published, isPort), Where(b.published, isPort);
    assert ma == Matches(a.published, port) && mb == Matches(b.published, port);
    WherePermuted(a.published, b.published, isPort);
    SingletonPermuted(ma, mb);
    WherePermuted(ma, mb, IsLocal);
    SingletonPermuted(Where(ma, IsLocal), Where(mb, IsLocal));
  }

  /** Success and result do not change under any reordering of ports or networks. */
  lemma ResolveIgnoresOrder(a: Service, b: Service)
    requires SameUpToOrder(a, b) && DistinctNames(a.networks) && DistinctNames(b.networks)
    ensures ResolveBackend(a) == ResolveBackend(b)
  {
    hide SinglePublished, Get, SelectPublished, DistinctNames;
    SingletonPermuted(a.exposed, b.exposed);
    SinglePublishedPermuted(a, b);
    SingletonPermuted(a.networks, b.networks);
    forall port: Port
      ensures SelectPublished(a, port) == SelectPublished(b, port)
    {
      SelectPublishedPermuted(a, b, port);
    }
    if a.labels.network.Some? {
      var name := a.labels.network.value;
      forall ip
        ensures Get(a.networks, name) == Some(ip) <==> Get(b.networks, name) == Some(ip)
      {
        GetIff(a.networks, name, ip);
        GetIff(b.networks, name, ip);
        assert Network(name, ip) in multiset(a.networks) <==> Network(name, ip) in multiset(b.networks);
      }
      assert Get(a.networks, name).Some? ==> Get(b.networks, name) == Some(Get(a.networks, name).value);
      assert Get(b.networks, name).Some? ==> Get(a.networks, name) == Some(Get(b.networks, name).value);
    }
    assert SelectIp(a) == SelectIp(b);
  }

  // ---- The second resolver ----

  /** `suggest_backend`, on the same fields. */
  function SuggestBackend(svc: Service): (r: Option<Backend>)
  {
    if |svc.published| == 1 then Some(Target(svc.published[0]))
    else if svc.networkMode == Some("host") then
      if |svc.exposed| == 1 then Some(Backend(LOOPBACK, svc.exposed[0])) else None
    else if |svc.networks| == 1 && |svc.exposed| == 1 then Some(Backend(svc.networks[0].ip, svc.exposed[0]))
    else None
  }

  predicate Unlabelled(svc: Service)
  {
    svc.labels.port.None? && svc.labels.backend.None? && svc.labels.network.None?
  }

  /** With at most one published port, whose container port is the exposed one if there is a
      single exposed one, the two resolvers give the same answer. */
  lemma ResolversAgree(svc: Service)
    requires Unlabelled(svc)
    requires |svc.published| <= 1
    requires |svc.published| == 1 && |svc.exposed| == 1 ==> svc.exposed[0] == svc.published[0].containerPort
    ensures SuggestBackend(svc) == ResolveBackend(svc)
  {
    if |svc.published| == 1 {
      var p := svc.published[0];
      SinglePublishedIff(svc, p.containerPort);
      assert svc.published == [p];
      WhereSingle(p, (x: PublishedPort) => x.containerPort == p.containerPort);
      assert Matches(svc.published, p.containerPort) == [p];
    } else {
      assert SortPorts(ContainerPorts(svc.published)) == [];
    }
  }

  /** What is left when no binding matches: the host network or the only container address. */
  predicate FallbackIs(svc: Service, port: Port, b: Backend)
  {
    if svc.networkMode == Some("host") then b == Backend("127.0.0.1", port)
    else |svc.networks| == 1 && b == Backend(svc.networks[0].ip, port)
  }

  /** The binding listens at the fallback's address and port. */
  predicate SamePlace(svc: Service, port: Port, q: PublishedPort)
  {
    && q.hostPort == port
    && (if svc.networkMode == Some("host") then LocalAddress(q.hostIp)
        else |svc.networks| == 1 && svc.networks[0].ip == (if q.hostIp == "" || q.hostIp == "0.0.0.0" then "127.0.0.1" else q.hostIp))
  }

  predicate NoFallback(svc: Service)
  {
    svc.networkMode != Some("host") && |svc.networks| != 1
  }

  predicate AllBind(svc: Service, p: Port)
  {
    forall i :: 0 <= i < |svc.published| ==> svc.published[i].containerPort == p
  }

  /** When the two resolvers coincide. The suggestion looks at the bindings only if there is one,
      and then never at the exposed port; the resolution looks for a binding of the exposed port, if
      that is a single one, and else of the port all bindings share. */
  ghost predicate Coincide(svc: Service)
  {
    if |svc.exposed| == 1 then
      var port := svc.exposed[0];
      if !exists i :: Binds(svc, port, i) then
        |svc.published| != 1 || SamePlace(svc, port, svc.published[0])
      else if exists i :: Decisive(svc, port, i) then
        |svc.published| == 1 || exists i :: Decisive(svc, port, i) && SamePlace(svc, port, svc.published[i])
      else NoFallback(svc)
    else
      |svc.published| <= 1 || !exists i :: AllBind(svc, svc.published[0].containerPort) && Decisive(svc, svc.published[0].containerPort, i)
  }

  lemma SharedIsFirst(svc: Service, p: Port)
    requires svc.published != [] && SinglePublished(svc) == Some(p)
    ensures p == svc.published[0].containerPort
  {
    SinglePublishedIff(svc, p);
    assert ContainerPorts(svc.published)[0] == p;
  }

  /** Several bindings and no single exposed port: nothing is suggested, and something is resolved
      just when all bindings are for one port and one of them stands out. */
  lemma SeveralBindings(svc: Service)
    requires Unlabelled(svc) && |svc.published| > 1 && |svc.exposed| != 1
    ensures var port := svc.published[0].containerPort;
            SuggestBackend(svc) == ResolveBackend(svc) <==> !(AllBind(svc, port) && exists i :: Decisive(svc, port, i))
  {
    var port, found := svc.published[0].containerPort, SinglePublished(svc);
    SinglePublishedIff(svc, port);
    OneValueByMembers(svc.published, port);
    assert AllBind(svc, port) <==> found == Some(port);
    if found.Some? {
      SharedIsFirst(svc, found.value);
    }
    if found == Some(port) {
      assert Binds(svc, port, 0);
      SelectionStandsOut(svc, port);
    }
  }

  /** With a binding for the port, one is selected just when one is decisive. */
  lemma SelectionStandsOut(svc: Service, port: Port)
    ensures SelectPublished(svc, port) == Absent <==> !exists i :: Binds(svc, port, i)
    ensures SelectPublished(svc, port).Selected? <==> exists i :: Decisive(svc, port, i)
    ensures SelectPublished(svc, port).Selected? ==>
              exists i :: Decisive(svc, port, i) && svc.published[i] == SelectPublished(svc, port).binding
    ensures forall i :: Decisive(svc, port, i) ==> SelectPublished(svc, port) == Selected(svc.published[i])
  {
    var sel := SelectPublished(svc, port);
    SelectPublishedIff(svc, port, if sel.Selected? then sel.binding else PublishedPort(port, "", port));
    forall i | Decisive(svc, port, i)
      ensures sel == Selected(svc.published[i])
    {
      SelectPublishedIff(svc, port, svc.published[i]);
    }
  }

  /** What an unlabelled container with a single exposed port resolves to. */
  lemma ResolvedExposed(svc: Service, b: Backend)
    requires Unlabelled(svc) && |svc.exposed| == 1
    ensures var port := svc.exposed[0];
            ResolveBackend(svc) == Some(b) <==>
              if exists i :: Binds(svc, port, i) then exists i :: Decisive(svc, port, i) && PointsTo(svc.published[i], b)
              else FallbackIs(svc, port, b)
  {
    SelectionStandsOut(svc, svc.exposed[0]);
  }

  lemma SuggestedExposed(svc: Service, b: Backend)
    requires |svc.exposed| == 1
    ensures SuggestBackend(svc) == Some(b) <==>
              if |svc.published| == 1 then PointsTo(svc.published[0], b) else FallbackIs(svc, svc.exposed[0], b)
    ensures SuggestBackend(svc) == None <==> |svc.published| != 1 && NoFallback(svc)
  {
  }

  lemma PlaceIsTarget(svc: Service, port: Port, q: PublishedPort)
    ensures PointsTo(q, Target(q))
    ensures SamePlace(svc, port, q) <==> FallbackIs(svc, port, Target(q))
  {
  }

  /** A single exposed port: both start from it, unless there is a single binding. */
  lemma OneExposed(svc: Service)
    requires Unlabelled(svc) && |svc.exposed| == 1
    ensures SuggestBackend(svc) == ResolveBackend(svc) <==> Coincide(svc)
  {
    var port, sug, res := svc.exposed[0], SuggestBackend(svc), ResolveBackend(svc);
    forall b
      ensures res == Some(b) <==> if exists i :: Binds(svc, port, i) then exists i :: Decisive(svc, port, i) && PointsTo(svc.published[i], b)
                                  else FallbackIs(svc, port, b)
      ensures sug == Some(b) <==> if |svc.published| == 1 then PointsTo(svc.published[0], b) else FallbackIs(svc, port, b)
    {
      ResolvedExposed(svc, b);
      SuggestedExposed(svc, b);
    }
    SuggestedExposed(svc, Backend("", port));
    SelectionStandsOut(svc, port);
    forall q: PublishedPort
      ensures SamePlace(svc, port, q) <==> FallbackIs(svc, port, Target(q)) && PointsTo(q, Target(q))
    {
      PlaceIsTarget(svc, port, q);
    }
    if |svc.published| == 1 && Binds(svc, port, 0) {
      assert Decisive(svc, port, 0);
    }
  }

  /** Exactly when an unlabelled container gets the same answer from both resolvers. */
  lemma ResolversAgreeExactly(svc: Service)
    requires Unlabelled(svc)
    ensures SuggestBackend(svc) == ResolveBackend(svc) <==> Coincide(svc)
  {
    if |svc.exposed| == 1 {
      OneExposed(svc);
    } else if |svc.published| > 1 {
      SeveralBindings(svc);
    } else {
      ResolversAgree(svc);
    }
  }

  /** Web server exposed on 80, database port published: one is suggested, the other resolved. */
  lemma ResolversDiffer()
    ensures var svc := Service("c1", "web", Labels([], None, None, None), None,
                               [PublishedPort(5432, "", 15432)], [Network("front", "172.18.0.4")], [80]);
            && SuggestBackend(svc) == Some(Backend("127.0.0.1", 15432))
            && ResolveBackend(svc) == Some(Backend("172.18.0.4", 80))
  {
    var p: PublishedPort := PublishedPort(5432, "", 15432);
    WhereSingle(p, (x: PublishedPort) => x.containerPort == 80);
    assert Matches([p], 80) == [];
  }
}
