/** Services an administrator enabled: the table behind the intents an agent is told to serve. */
module Intents {
  import opened Text
  import opened Backends
  import opened Hostnames
  import opened Merge

  /** A row is unique by agent and identity key, and has an id of its own. */
  datatype Slot = Slot(agent: string, identity: string)

  datatype Enabled = Enabled(id: string, containerName: Option<string>, hostnames: seq<string>, backend: string, enabled: bool)

  type Table = map<Slot, Enabled>

  predicate IdTaken(t: Table, id: string)
  {
    exists s :: s in t && t[s].id == id
  }

  predicate IdsDistinct(t: Table)
  {
    forall a, b :: a in t && b in t && t[a].id == t[b].id ==> a == b
  }

  /** Hosts are stored normalised and allowed. */
  predicate HostsOk(policy: Policy, t: Table)
  {
    forall s, i :: s in t && 0 <= i < |t[s].hostnames| ==>
      IsCanonical(t[s].hostnames[i]) && Allowed(policy, t[s].hostnames[i])
  }

  /** The upsert: an existing row keeps its id and is switched on again. */
  function Upsert(t: Table, s: Slot, id: string, name: Option<string>, hosts: seq<string>, backend: string): (r: Option<Table>)
  {
    if s in t then Some(t[s := t[s].(containerName := name, hostnames := hosts, backend := backend, enabled := true)])
    else if IdTaken(t, id) then None
    else Some(t[s := Enabled(id, name, hosts, backend, true)])
  }

  function Switch(t: Table, id: string, on: bool): (r: Table)
  {
    map s | s in t :: if t[s].id == id then t[s].(enabled := on) else t[s]
  }

  /** What the agent is told. */
  function Desired(t: Table, agent: string): (r: set<Slot>)
  {
    set s | s in t && s.agent == agent && t[s].enabled
  }

  datatype EnableReply = Refused | Broken | Done(id: string)

  predicate HostsPass(idna: Idna, policy: Policy, hostnames: seq<string>)
  {
    AllNormalize(idna, hostnames)
    && forall i :: 0 <= i < |hostnames| ==> Allowed(policy, Normalize(idna, hostnames[i]).value)
  }

  lemma PassedHosts(idna: Idna, policy: Policy, hostnames: seq<string>)
    requires HostsPass(idna, policy, hostnames)
    ensures var hs := NormalForms(idna, hostnames);
            forall k :: 0 <= k < |hs| ==> IsCanonical(hs[k]) && Allowed(policy, hs[k])
  {
    var hs := NormalForms(idna, hostnames);
    forall k | 0 <= k < |hs|
      ensures IsCanonical(hs[k]) && Allowed(policy, hs[k])
    {
      NormalizeIsCanonical(idna, hostnames[k]);
    }
  }

  /** The normal forms of the requested hostnames, unless one of them is refused or there is none. */
  method CheckHosts(idna: Idna, policy: Policy, hostnames: seq<string>) returns (r: Option<seq<string>>)
    ensures r.Some? <==> hostnames != [] && HostsPass(idna, policy, hostnames)
    ensures r.Some? ==> r.value == NormalForms(idna, hostnames)
                        && forall k :: 0 <= k < |r.value| ==> IsCanonical(r.value[k]) && Allowed(policy, r.value[k])
  {
    if hostnames == [] {
      return None;
    }
    var hosts: seq<string> := [];
    var i := 0;
    while i < |hostnames|
      invariant 0 <= i <= |hostnames|
      invariant HostsPass(idna, policy, hostnames[..i]) && hosts == NormalForms(idna, hostnames[..i])
    {
      var n := Normalize(idna, hostnames[i]);
      if n.None? || !Allowed(policy, n.value) {
        return None;
      }
      hosts := hosts + [n.value];
      i := i + 1;
    }
    assert hostnames[..i] == hostnames;
    PassedHosts(idna, policy, hostnames);
    r := Some(hosts);
  }

  class EnabledServices {
    var rows: Table

    constructor ()
      ensures rows == map[]
    {
      rows := map[];
    }

    /** `admin_enable_service` behind its authentication; `drawn` is the id drawn for a new row.
        Every hostname must normalise and pass the policy, and the agent must exist. */
    method Enable(idna: Idna, policy: Policy, parse: ParseBackend, agents: set<string>, s: Slot, drawn: string,
                  name: Option<string>, hostnames: seq<string>, backend: string) returns (r: EnableReply)
      requires IdsDistinct(rows) && HostsOk(policy, rows)
      modifies this
      ensures IdsDistinct(rows) && HostsOk(policy, rows)
      ensures r == Refused <==> !(hostnames != [] && HostsPass(idna, policy, hostnames) && parse(backend).Some?)
      ensures r.Done? <==> r != Refused && s.agent in agents && (s in old(rows) || !IdTaken(old(rows), drawn))
      ensures !r.Done? ==> rows == old(rows)
      ensures r.Done? ==>
                && HostsPass(idna, policy, hostnames) && parse(backend).Some?
                && Some(rows) == Upsert(old(rows), s, drawn, name, NormalForms(idna, hostnames),
                                        "http://" + Authority(parse(backend).value))
                && s in rows && r.id == rows[s].id
                && r.id == (if s in old(rows) then old(rows)[s].id else drawn)
    {
      var hosts := CheckHosts(idna, policy, hostnames);
      if hosts.None? {
        return Refused;
      }
      var b := parse(backend);
      if b.None? {
        return Refused;
      }
      var url := "http://" + Authority(b.value);
      if s.agent !in agents || (s !in rows && IdTaken(rows, drawn)) {
        return Broken;
      }
      if s in rows {
        rows := rows[s := rows[s].(containerName := name, hostnames := hosts.value, backend := url, enabled := true)];
      } else {
        rows := rows[s := Enabled(drawn, name, hosts.value, url, true)];
      }
      r := Done(rows[s].id);
    }

    method Disable(id: string) returns (ok: bool)
      modifies this
      ensures rows == Switch(old(rows), id, false)
      ensures ok == IdTaken(old(rows), id)
    {
      ok := IdTaken(rows, id);
      rows := map s | s in rows :: if rows[s].id == id then rows[s].(enabled := false) else rows[s];
    }
  }

  /** Enabling puts the slot among what its agent is told and touches no other slot. */
  lemma EnableMeaning(t: Table, s: Slot, id: string, name: Option<string>, hosts: seq<string>, backend: string)
    requires IdsDistinct(t) && Upsert(t, s, id, name, hosts, backend).Some?
    ensures var on := Upsert(t, s, id, name, hosts, backend).value;
            && IdsDistinct(on)
            && Desired(on, s.agent) == Desired(t, s.agent) + {s}
            && (forall a :: a != s.agent ==> Desired(on, a) == Desired(t, a))
            && on[s] == Enabled(if s in t then t[s].id else id, name, hosts, backend, true)
            && forall x :: x != s ==> (x in on <==> x in t) && (x in t ==> on[x] == t[x])
  {
    if s !in t {
      assert forall x :: x in t ==> t[x].id != id;
    }
  }

  /** Disabling by id takes just that slot out of what its agent is told. */
  lemma DisableMeaning(t: Table, s: Slot)
    requires IdsDistinct(t) && s in t
    ensures var off := Switch(t, t[s].id, false);
            && IdsDistinct(off)
            && Desired(off, s.agent) == Desired(t, s.agent) - {s}
            && (forall a :: a != s.agent ==> Desired(off, a) == Desired(t, a))
            && off[s] == t[s].(enabled := false)
            && forall x :: x != s ==> (x in off <==> x in t) && (x in t ==> off[x] == t[x])
  {
    var off := Switch(t, t[s].id, false);
    assert forall x :: x in t && x != s ==> t[x].id != t[s].id;
    assert Desired(off, s.agent) == Desired(t, s.agent) - {s};
  }

  /** Enable, disable by the returned id, enable again: the slot is in, out and in, under one id
      however another was drawn, and all other slots are as they were at first. */
  lemma {:induction false} EnableDisableEnable(t: Table, s: Slot, id: string, id': string, name: Option<string>, hosts: seq<string>,
                            backend: string, name': Option<string>, hosts': seq<string>, backend': string)
    requires IdsDistinct(t) && Upsert(t, s, id, name, hosts, backend).Some?
    ensures var on := Upsert(t, s, id, name, hosts, backend).value;
            var off := Switch(on, on[s].id, false);
            var again := Upsert(off, s, id', name', hosts', backend');
            && Desired(off, s.agent) == Desired(t, s.agent) - {s}
            && again.Some? && s in again.value
            && again.value[s] == Enabled(on[s].id, name', hosts', backend', true)
            && Desired(again.value, s.agent) == Desired(t, s.agent) + {s}
            && forall x :: x != s && x in t ==> x in again.value && again.value[x] == t[x]
  {
    EnableMeaning(t, s, id, name, hosts, backend);
    var on := Upsert(t, s, id, name, hosts, backend).value;
    DisableMeaning(on, s);
    EnableMeaning(Switch(on, on[s].id, false), s, id', name', hosts', backend');
  }
}
