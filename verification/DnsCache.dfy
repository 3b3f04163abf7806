/** The capped, lazily expiring cache of upstream answers, against the log of what upstream said.
    Times are in nanoseconds, record TTLs in seconds. */
module DnsCache {
  import opened Text
  import opened Rfc3339

  datatype RecordType = A | AAAA | Other(code: nat)

  datatype Record = Record(name: string, ttl: nat, data: string)

  datatype ResponseCode = NoError | NXDomain | ServFail | Refused

  datatype Key = Key(name: string, qtype: RecordType)

  datatype CacheEntry = CacheEntry(records: seq<Record>, rcode: ResponseCode, expires: nat)

  /** What the resolver brings back and the server records: records, or that there are none. */
  datatype Reply = Records(records: seq<Record>) | NoRecords

  datatype Caps = Caps(positive: nat, negative: nat)

  type Table = map<Key, CacheEntry>

  function KeyOf(name: string, qtype: RecordType): (k: Key)
  {
    Key(Lower(name), qtype)
  }

  /** Entries are kept apart by type and, case aside, by name. */
  lemma KeyExact(m: string, n: string, q: RecordType, r: RecordType)
    ensures KeyOf(m, q) == KeyOf(n, r) <==> Lower(m) == Lower(n) && q == r
  {
  }

  // ---- The cache ----

  function MinTtl(records: seq<Record>, cap: nat): (t: nat)
  {
    if records == [] then cap
    else
      var rest, own := MinTtl(records[1..], cap), records[0].ttl * NANOS;
      if own < rest then own else rest
  }

  /** How long a reply may be kept. */
  function Lifetime(caps: Caps, reply: Reply): (t: nat)
  {
    match reply
    case Records(records) => MinTtl(records, caps.positive)
    case NoRecords => caps.negative
  }

  /** Upstream "no records" is recorded as NXDOMAIN whatever its own code was. */
  function EntryFor(caps: Caps, reply: Reply, at: nat): (e: CacheEntry)
  {
    match reply
    case Records(records) => CacheEntry(records, NoError, at + Lifetime(caps, reply))
    case NoRecords => CacheEntry([], NXDomain, at + Lifetime(caps, reply))
  }

  /** What `get` answers. */
  function Hit(table: Table, key: Key, now: nat): (r: Option<CacheEntry>)
  {
    if key in table && now < table[key].expires then Some(table[key]) else None
  }

  /** What `get` leaves behind: an expired entry is removed when it is met. */
  function AfterGet(table: Table, key: Key, now: nat): (r: Table)
  {
    if key in table && now >= table[key].expires then table - {key} else table
  }

  /** What `put` leaves behind: a reply without lifetime is not stored. */
  function AfterPut(caps: Caps, table: Table, key: Key, reply: Reply, at: nat): (r: Table)
  {
    if Lifetime(caps, reply) == 0 then table else table[key := EntryFor(caps, reply, at)]
  }

  class ResponseCache {
    var table: Table

    constructor ()
      ensures table == map[]
    {
      table := map[];
    }

    method Get(name: string, qtype: RecordType, now: nat) returns (r: Option<CacheEntry>)
      modifies this
      ensures r == Hit(old(table), KeyOf(name, qtype), now)
      ensures table == AfterGet(old(table), KeyOf(name, qtype), now)
    {
      var key := KeyOf(name, qtype);
      if key !in table {
        return None;
      }
      var ent := table[key];
      if now >= ent.expires {
        table := table - {key};
        return None;
      }
      r := Some(ent);
    }

    method Put(name: string, qtype: RecordType, records: seq<Record>, rcode: ResponseCode, ttl: nat, now: nat)
      modifies this
      ensures table == if ttl == 0 then old(table)
                       else old(table)[KeyOf(name, qtype) := CacheEntry(records, rcode, now + ttl)]
    {
      if ttl == 0 {
        return;
      }
      table := table[KeyOf(name, qtype) := CacheEntry(records, rcode, now + ttl)];
    }
  }

  // ---- Runs: lookups and replies of any queries, interleaved in any way ----

  datatype Op = Get(key: Key, at: nat) | Store(key: Key, reply: Reply, at: nat)

  function Run(caps: Caps, ops: seq<Op>): (t: Table)
  {
    if ops == [] then map[]
    else
      var t := Run(caps, ops[..|ops| - 1]);
      match ops[|ops| - 1]
      case Get(key, at) => AfterGet(t, key, at)
      case Store(key, reply, at) => AfterPut(caps, t, key, reply, at)
  }

  /** The clock does not run backwards, and `now` is its latest reading. */
  predicate InTime(ops: seq<Op>, now: nat)
  {
    && (forall i :: 0 <= i < |ops| ==> ops[i].at <= now)
    && (forall i, j :: 0 <= i < j < |ops| ==> ops[i].at <= ops[j].at)
  }

  /** Op `i` stored a reply for the key that has a lifetime. */
  predicate Stores(caps: Caps, ops: seq<Op>, key: Key, i: int)
  {
    0 <= i < |ops| && ops[i].Store? && ops[i].key == key && Lifetime(caps, ops[i].reply) > 0
  }

  /** The reference: the latest reply for the key, if it still lives. No removal, no map. */
  function Latest(caps: Caps, ops: seq<Op>, key: Key): (r: Option<nat>)
    ensures r.Some? ==> Stores(caps, ops, key, r.value) && forall j :: r.value < j ==> !Stores(caps, ops, key, j)
    ensures r.None? ==> forall j :: !Stores(caps, ops, key, j)
  {
    if ops == [] then None
    else
      var n := |ops| - 1;
      assert forall j :: j < n ==> Stores(caps, ops, key, j) == Stores(caps, ops[..n], key, j);
      if Stores(caps, ops, key, n) then Some(n) else Latest(caps, ops[..n], key)
  }

  function FromLog(caps: Caps, ops: seq<Op>, key: Key, now: nat): (r: Option<CacheEntry>)
  {
    match Latest(caps, ops, key)
    case None => None
    case Some(i) =>
      var e := EntryFor(caps, ops[i].reply, ops[i].at);
      if now < e.expires then Some(e) else None
  }

  /** A key's place in the table: the latest reply, or nothing once that has died. */
  predicate Follows(caps: Caps, ops: seq<Op>, table: Table, key: Key, now: nat)
  {
    match Latest(caps, ops, key)
    case None => key !in table
    case Some(i) =>
      var e := EntryFor(caps, ops[i].reply, ops[i].at);
      if key in table then table[key] == e else e.expires <= now
  }

  lemma LatestExtends(caps: Caps, ops: seq<Op>, op: Op, key: Key)
    ensures Latest(caps, ops + [op], key) ==
            if op.Store? && op.key == key && Lifetime(caps, op.reply) > 0 then Some(|ops|) else Latest(caps, ops, key)
  {
    assert (ops + [op])[..|ops|] == ops;
  }

  lemma FollowsGet(caps: Caps, ops: seq<Op>, table: Table, got: Key, at: nat, key: Key, now: nat)
    requires Follows(caps, ops, table, key, at) && at <= now
    ensures Follows(caps, ops + [Get(got, at)], AfterGet(table, got, at), key, now)
  {
    LatestExtends(caps, ops, Get(got, at), key);
  }

  lemma FollowsStore(caps: Caps, ops: seq<Op>, table: Table, stored: Key, reply: Reply, at: nat, key: Key, now: nat)
    requires Follows(caps, ops, table, key, at) && at <= now
    ensures Follows(caps, ops + [Store(stored, reply, at)], AfterPut(caps, table, stored, reply, at), key, now)
  {
    LatestExtends(caps, ops, Store(stored, reply, at), key);
  }

  lemma {:induction false} RunFollows(caps: Caps, ops: seq<Op>, now: nat, key: Key)
    requires InTime(ops, now)
    ensures Follows(caps, ops, Run(caps, ops), key, now)
  {
    if ops != [] {
      var init, op := ops[..|ops| - 1], ops[|ops| - 1];
      assert ops == init + [op];
      RunFollows(caps, init, op.at, key);
      match op {
        case Get(got, at) => FollowsGet(caps, init, Run(caps, init), got, at, key, now);
        case Store(stored, reply, at) => FollowsStore(caps, init, Run(caps, init), stored, reply, at, key, now);
      }
    }
  }

  /** In every run, whatever is removed when, the cache answers a lookup as the log does: with the
      latest reply recorded for the name, in any case, and type, for as long as it lives. */
  lemma {:induction false} CacheIsLog(caps: Caps, ops: seq<Op>, name: string, variant: string, qtype: RecordType, now: nat)
    requires InTime(ops, now) && Lower(name) == Lower(variant)
    ensures Hit(Run(caps, ops), KeyOf(variant, qtype), now) == FromLog(caps, ops, KeyOf(name, qtype), now)
  {
    RunFollows(caps, ops, now, KeyOf(name, qtype));
  }

  /** A lookup leaves no dead entry for its key behind. */
  lemma LookupCleans(caps: Caps, ops: seq<Op>, key: Key, at: nat)
    ensures var t := Run(caps, ops + [Get(key, at)]);
            && (key in t ==> at < t[key].expires)
            && (forall k :: k != key ==> (k in t <==> k in Run(caps, ops)) && (k in t ==> t[k] == Run(caps, ops)[k]))
  {
    assert (ops + [Get(key, at)])[..|ops|] == ops;
  }

  lemma {:induction false} MinTtlBounds(records: seq<Record>, cap: nat)
    ensures MinTtl(records, cap) <= cap
    ensures forall i :: 0 <= i < |records| ==> MinTtl(records, cap) <= records[i].ttl * NANOS
  {
    if records != [] {
      MinTtlBounds(records[1..], cap);
      forall i | 0 <= i < |records|
        ensures MinTtl(records, cap) <= records[i].ttl * NANOS
      {
        if i > 0 {
          assert records[i] == records[1..][i - 1];
        }
      }
    }
  }

  /** The least of the cap and the TTLs. */
  lemma {:induction false} MinTtlReached(records: seq<Record>, cap: nat)
    ensures MinTtl(records, cap) == cap || exists i :: 0 <= i < |records| && MinTtl(records, cap) == records[i].ttl * NANOS
  {
    if records != [] {
      MinTtlReached(records[1..], cap);
      var m := MinTtl(records, cap);
      if m == records[0].ttl * NANOS {
        assert m == records[0].ttl * NANOS;
      } else if m != cap {
        var i :| 0 <= i < |records[1..]| && m == records[1..][i].ttl * NANOS;
        assert records[1..][i] == records[i + 1];
      }
    }
  }

  /** A hit at `now` repeats the reply that op `i` recorded for the key. */
  predicate Repeats(caps: Caps, ops: seq<Op>, key: Key, now: nat, e: CacheEntry, i: int)
  {
    && Stores(caps, ops, key, i)
    && ops[i].at <= now
    && match ops[i].reply
       case Records(records) =>
         && e.rcode == NoError && e.records == records
         && now - ops[i].at < caps.positive
         && forall r :: 0 <= r < |records| ==> now - ops[i].at < records[r].ttl * NANOS
       case NoRecords => e.rcode == NXDomain && e.records == [] && now - ops[i].at < caps.negative
  }

  /** Younger than the positive cap and every TTL, or than the negative cap. */
  predicate Fresh(caps: Caps, reply: Reply, age: int)
  {
    match reply
    case Records(records) => age < caps.positive && forall r :: 0 <= r < |records| ==> age < records[r].ttl * NANOS
    case NoRecords => age < caps.negative
  }

  lemma FreshIff(caps: Caps, reply: Reply, age: int)
    ensures age < Lifetime(caps, reply) <==> Fresh(caps, reply, age)
  {
    match reply {
      case Records(records) =>
        MinTtlBounds(records, caps.positive);
        MinTtlReached(records, caps.positive);
      case NoRecords =>
    }
  }

  /** Op `i` is the last to record a reply for the key that could be kept at all. */
  ghost predicate LastStored(caps: Caps, ops: seq<Op>, key: Key, i: int)
  {
    && 0 <= i < |ops| && ops[i].Store? && ops[i].key == key && Fresh(caps, ops[i].reply, 0)
    && forall j :: i < j < |ops| && ops[j].Store? && ops[j].key == key ==> !Fresh(caps, ops[j].reply, 0)
  }

  /** A lookup hits exactly as long as the last reply recorded for the name, in any case, and type is
      fresh - and gives that reply's records, or NXDOMAIN without records. */
  lemma HitExactly(caps: Caps, ops: seq<Op>, name: string, variant: string, qtype: RecordType, now: nat, records: seq<Record>, rcode: ResponseCode)
    requires InTime(ops, now) && Lower(name) == Lower(variant)
    ensures var hit := Hit(Run(caps, ops), KeyOf(variant, qtype), now);
            hit.Some? && hit.value.records == records && hit.value.rcode == rcode <==>
            exists i :: LastStored(caps, ops, KeyOf(name, qtype), i) && Fresh(caps, ops[i].reply, now - ops[i].at)
                        && match ops[i].reply
                           case Records(rs) => records == rs && rcode == NoError
                           case NoRecords => records == [] && rcode == NXDomain
  {
    var key, latest := KeyOf(name, qtype), Latest(caps, ops, KeyOf(name, qtype));
    CacheIsLog(caps, ops, name, variant, qtype, now);
    forall i
      ensures LastStored(caps, ops, key, i) <==> latest == Some(i)
    {
      LastStoredIff(caps, ops, key, i);
    }
    if latest.Some? {
      var i := latest.value;
      assert LastStored(caps, ops, key, i);
      FreshIff(caps, ops[i].reply, now - ops[i].at);
    }
  }

  lemma LastStoredIff(caps: Caps, ops: seq<Op>, key: Key, i: int)
    ensures LastStored(caps, ops, key, i) <==> Latest(caps, ops, key) == Some(i)
  {
    forall j | 0 <= j < |ops| && ops[j].Store?
      ensures Fresh(caps, ops[j].reply, 0) <==> Lifetime(caps, ops[j].reply) > 0
    {
      FreshIff(caps, ops[j].reply, 0);
    }
    if LastStored(caps, ops, key, i) {
      assert Stores(caps, ops, key, i);
      assert forall j :: i < j ==> !Stores(caps, ops, key, j);
    }
    if Latest(caps, ops, key) == Some(i) {
      assert forall j :: i < j < |ops| && ops[j].Store? && ops[j].key == key ==> !Stores(caps, ops, key, j);
    }
  }

  /** Every hit of every run repeats a recorded reply for the same name, in any case, and type,
      younger than each of its records' TTLs and the positive cap, or than the negative cap. */
  lemma HitsAreSound(caps: Caps, ops: seq<Op>, name: string, variant: string, qtype: RecordType, now: nat)
    requires InTime(ops, now) && Lower(name) == Lower(variant)
    requires Hit(Run(caps, ops), KeyOf(variant, qtype), now).Some?
    ensures exists i :: Repeats(caps, ops, KeyOf(name, qtype), now, Hit(Run(caps, ops), KeyOf(variant, qtype), now).value, i)
  {
    var key := KeyOf(name, qtype);
    CacheIsLog(caps, ops, name, variant, qtype, now);
    var i := Latest(caps, ops, key).value;
    if ops[i].reply.Records? {
      MinTtlBounds(ops[i].reply.records, caps.positive);
    }
    assert Repeats(caps, ops, key, now, Hit(Run(caps, ops), KeyOf(variant, qtype), now).value, i);
  }
}
