/**
 * The `noc.hosts` service: a store of observed hosts keyed by address. The
 * `lookup` action counts a hit on a known address, and on a new address asks
 * the networks service (twice when the first answer is empty) and reverse DNS,
 * then creates the host linked to its network; it runs under the service's
 * lock. The `score` action adds a delta to a host's score.
 *
 * The answers of the networks service and of reverse DNS are inputs: a
 * `Result` is the outcome of `ctx.call` (a resolved value, or a rejection).
 */
module NocHosts {
  import opened Js
  import Codec
  import Locks

  /** The service lock is taken without a key (`this.lock.acquire()`); the model names that key "". */
  const LookupKey: string := ""

  datatype Host = Host(
    id: nat,
    ip: string,
    ipInt: int,
    network: nat,
    hostname: Option<string>,
    hits: int,
    score: int,
    updatedAt: Option<int>)

  /** The outward calls `lookup` makes, in order. */
  datatype Call = NetworksLookup(ip: string) | Reverse(ip: string)

  // ---------------------------------------------------------------------------
  // Store queries

  /** `findEntity({ query: { ip } })`: the first host stored under the address. */
  function FindByIp(records: seq<Host>, ip: string): (r: Option<nat>)
    ensures r.Some? ==> r.value < |records| && records[r.value].ip == ip
    ensures r.Some? ==> forall j :: 0 <= j < r.value ==> records[j].ip != ip
    ensures r.None? <==> forall j :: 0 <= j < |records| ==> records[j].ip != ip
  {
    if records == [] then None
    else if records[0].ip == ip then Some(0)
    else match FindByIp(records[1..], ip)
      case None => None
      case Some(k) => Some(k + 1)
  }

  /**
   * `resolveEntities({ id })`: the position of the host with that identity.
   * The same first-match search as `FindByIp`, kept apart because the source
   * runs two different store queries, on different fields and key types.
   */
  function FindById(records: seq<Host>, id: nat): (r: Option<nat>)
    ensures r.Some? ==> r.value < |records| && records[r.value].id == id
    ensures r.Some? ==> forall j :: 0 <= j < r.value ==> records[j].id != id
    ensures r.None? <==> forall j :: 0 <= j < |records| ==> records[j].id != id
  {
    if records == [] then None
    else if records[0].id == id then Some(0)
    else match FindById(records[1..], id)
      case None => None
      case Some(k) => Some(k + 1)
  }

  /** A stored host: a dotted-quad address, `ipInt` as the setter computes it, and at least one hit. */
  predicate HostOk(h: Host)
  {
    Codec.IsDottedQuad(h.ip) && h.ipInt == Codec.Ip2Int(h.ip) && h.hits >= 1
  }

  /**
   * What the store holds after any sequence of lookups and scorings: identities
   * below the next one and distinct, one host per address, and every host
   * satisfying `HostOk`.
   */
  ghost predicate WellFormed(records: seq<Host>, nextId: nat)
  {
    && (forall k :: 0 <= k < |records| ==> records[k].id < nextId)
    && (forall j, k :: 0 <= j < k < |records| ==> records[j].id != records[k].id)
    && (forall j, k :: 0 <= j < k < |records| ==> records[j].ip != records[k].ip)
    && (forall k :: 0 <= k < |records| ==> HostOk(records[k]))
  }

  /** Replacing a host by one with the same identity and address that is still `HostOk` keeps the store well formed. */
  lemma ReplaceKeepsWellFormed(records: seq<Host>, nextId: nat, k: nat, h: Host)
    requires WellFormed(records, nextId) && k < |records|
    requires h.id == records[k].id && h.ip == records[k].ip && HostOk(h)
    ensures WellFormed(records[k := h], nextId)
  {
    var records' := records[k := h];
    assert forall j :: 0 <= j < |records| ==> records'[j].id == records[j].id && records'[j].ip == records[j].ip;
  }

  /** Appending a `HostOk` host under a fresh identity and a new address keeps the store well formed. */
  lemma AppendKeepsWellFormed(records: seq<Host>, nextId: nat, h: Host)
    requires WellFormed(records, nextId) && h.id == nextId && HostOk(h)
    requires forall j :: 0 <= j < |records| ==> records[j].ip != h.ip
    ensures WellFormed(records + [h], nextId + 1)
  {
    var records' := records + [h];
    assert forall j :: 0 <= j < |records| ==> records'[j] == records[j];
  }

  // ---------------------------------------------------------------------------
  // The lookup action

  /**
   * The hostname handed to `createEntity`: the first reverse-DNS answer, `''`
   * when the reverse lookup rejected, and `undefined` when it answered with no
   * name at all.
   */
  function Hostname(reverse: Result<seq<string>>): (h: Option<string>)
    ensures reverse.Threw? ==> h == Some("")
    ensures reverse.Ok? && reverse.value != [] ==> h == Some(reverse.value[0])
    ensures reverse == Ok([]) ==> h == None
  {
    match reverse
    case Threw(_) => Some("")
    case Ok(names) => if names == [] then None else Some(names[0])
  }

  /** The host `createEntity` stores for a new address: one hit, the schema's default score 0, `ipInt` from the setter. */
  function NewHost(id: nat, ip: string, network: nat, hostname: Option<string>): (h: Host)
    requires Codec.IsDottedQuad(ip)
    ensures h.id == id && h.ip == ip && h.network == network && h.hostname == hostname
    ensures h.hits == 1 && h.score == 0 && h.updatedAt == None
    ensures HostOk(h)
  {
    Host(id, ip, Codec.Ip2Int(ip), network, hostname, 1, 0, None)
  }

  /** The `ipInt` of a new host is a 32-bit value that `int2ip` prints back as the host's octets. */
  lemma NewHostPrintsBack(id: nat, ip: string, network: nat, hostname: Option<string>)
    requires Codec.IsDottedQuad(ip)
    ensures var h := NewHost(id, ip, network, hostname);
      0 <= h.ipInt < Codec.TwoTo32 && Codec.Octets(Codec.Int2Ip(h.ipInt)) == Codec.Octets(ip)
  {
    Codec.Int2IpKeepsOctets(ip);
  }

  /** `updateEntity({ $inc: { hits: 1 }, $set: { updatedAt: now } })`. */
  function Hit(h: Host, now: int): (h': Host)
    ensures h'.hits == h.hits + 1 && h'.updatedAt == Some(now)
    ensures h' == h.(hits := h'.hits, updatedAt := h'.updatedAt)
  {
    h.(hits := h.hits + 1, updatedAt := Some(now))
  }

  /** The network `lookup` links a new host to: the first answer, or the second when the first was empty. */
  function ChosenNetwork(network1: Result<Option<nat>>, network2: Result<Option<nat>>): (c: Result<Option<nat>>)
    ensures c.Threw? <==> network1.Threw? || (network1 == Ok(None) && network2.Threw?)
    ensures network1.Ok? && network1.value.Some? ==> c == network1
    ensures c == Ok(None) <==> network1 == Ok(None) && network2 == Ok(None)
  {
    match network1
    case Threw(e) => Threw(e)
    case Ok(Some(n)) => Ok(Some(n))
    case Ok(None) => network2
  }

  /**
   * The store after `lookup` and its result: a known address gets one more hit;
   * a new address gets a host linked to the chosen network, none when no
   * network was found, and a rejected networks call rejects the lookup.
   */
  function AfterLookup(records: seq<Host>, nextId: nat, ip: string,
                       network1: Result<Option<nat>>, network2: Result<Option<nat>>,
                       reverse: Result<seq<string>>, now: int): (out: (seq<Host>, nat, Result<Option<Host>>))
    requires Codec.IsDottedQuad(ip)
    ensures out.1 == nextId + 1 <==> FindByIp(records, ip).None? && ChosenNetwork(network1, network2).Ok?
                                     && ChosenNetwork(network1, network2).value.Some?
    ensures out.1 == nextId + 1 ==> out.2.Ok? && out.2.value.Some? && out.0 == records + [out.2.value.value]
    ensures out.1 != nextId + 1 ==> out.1 == nextId && |out.0| == |records|
    ensures out.2.Threw? <==> FindByIp(records, ip).None? && ChosenNetwork(network1, network2).Threw?
  {
    match FindByIp(records, ip)
    case Some(k) =>
      var h := Hit(records[k], now);
      (records[k := h], nextId, Ok(Some(h)))
    case None =>
      match ChosenNetwork(network1, network2)
      case Threw(e) => (records, nextId, Threw(e))
      case Ok(None) => (records, nextId, Ok(None))
      case Ok(Some(n)) =>
        var h := NewHost(nextId, ip, n, Hostname(reverse));
        (records + [h], nextId + 1, Ok(Some(h)))
  }

  /** The calls `lookup` makes: none for a known address, else networks, reverse DNS, and networks again after an empty answer. */
  function LookupCalls(records: seq<Host>, ip: string, network1: Result<Option<nat>>): (calls: seq<Call>)
    ensures calls == [] <==> FindByIp(records, ip).Some?
    ensures calls != [] ==> calls[0] == NetworksLookup(ip)
    ensures Reverse(ip) in calls <==> FindByIp(records, ip).None? && network1.Ok?
    ensures |calls| == 3 <==> FindByIp(records, ip).None? && network1 == Ok(None)
  {
    if FindByIp(records, ip).Some? then []
    else if network1.Threw? then [NetworksLookup(ip)]
    else [NetworksLookup(ip), Reverse(ip)] + (if network1 == Ok(None) then [NetworksLookup(ip)] else [])
  }

  /** A lookup on a stored address returns that host with exactly one more hit, changes nothing else, and calls nobody. */
  lemma LookupOfKnownHost(records: seq<Host>, nextId: nat, ip: string, network1: Result<Option<nat>>,
                          network2: Result<Option<nat>>, reverse: Result<seq<string>>, now: int, k: nat)
    requires Codec.IsDottedQuad(ip)
    requires k < |records| && records[k].ip == ip
    requires WellFormed(records, nextId)
    ensures var (records', nextId', r) := AfterLookup(records, nextId, ip, network1, network2, reverse, now);
      && r.Ok? && r.value.Some? && r.value.value.id == records[k].id
      && r.value.value.hits == records[k].hits + 1 && r.value.value.score == records[k].score
      && records' == records[k := r.value.value] && nextId' == nextId
    ensures LookupCalls(records, ip, network1) == []
  {
  }

  /**
   * A lookup on a new address with a resolved network creates exactly one host:
   * the given address, its integer value, the network, one hit and score 0.
   */
  lemma LookupOfNewHost(records: seq<Host>, nextId: nat, ip: string, network1: Result<Option<nat>>,
                        network2: Result<Option<nat>>, reverse: Result<seq<string>>, now: int)
    requires Codec.IsDottedQuad(ip)
    requires forall j :: 0 <= j < |records| ==> records[j].ip != ip
    requires ChosenNetwork(network1, network2).Ok? && ChosenNetwork(network1, network2).value.Some?
    ensures var (records', nextId', r) := AfterLookup(records, nextId, ip, network1, network2, reverse, now);
      && r.Ok? && r.value.Some?
      && records' == records + [r.value.value] && nextId' == nextId + 1
      && r.value.value.ip == ip && r.value.value.ipInt == Codec.Ip2Int(ip)
      && r.value.value.network == ChosenNetwork(network1, network2).value.value
      && r.value.value.hits == 1 && r.value.value.score == 0
      && r.value.value.hostname == Hostname(reverse)
  {
  }

  /** When neither networks answer names a network, nothing is created and the empty find result is returned. */
  lemma LookupWithoutNetwork(records: seq<Host>, nextId: nat, ip: string,
                             reverse: Result<seq<string>>, now: int)
    requires Codec.IsDottedQuad(ip)
    requires forall j :: 0 <= j < |records| ==> records[j].ip != ip
    ensures AfterLookup(records, nextId, ip, Ok(None), Ok(None), reverse, now) == (records, nextId, Ok(None))
    ensures LookupCalls(records, ip, Ok(None)) == [NetworksLookup(ip), Reverse(ip), NetworksLookup(ip)]
  {
  }

  /** Lookups keep the store well formed: in particular there is never a second host for one address. */
  lemma LookupKeepsWellFormed(records: seq<Host>, nextId: nat, ip: string, network1: Result<Option<nat>>,
                              network2: Result<Option<nat>>, reverse: Result<seq<string>>, now: int)
    requires Codec.IsDottedQuad(ip)
    requires WellFormed(records, nextId)
    ensures var (records', nextId', _) := AfterLookup(records, nextId, ip, network1, network2, reverse, now);
      WellFormed(records', nextId')
  {
    match FindByIp(records, ip)
    case Some(k) =>
      ReplaceKeepsWellFormed(records, nextId, k, Hit(records[k], now));
    case None =>
      match ChosenNetwork(network1, network2)
      case Threw(_) =>
      case Ok(None) =>
      case Ok(Some(n)) =>
        AppendKeepsWellFormed(records, nextId, NewHost(nextId, ip, n, Hostname(reverse)));
  }

  /** The host a lookup returns is the one stored under its identity, so scoring it right after finds it. */
  lemma LookupResultIsStored(records: seq<Host>, nextId: nat, ip: string, network1: Result<Option<nat>>,
                             network2: Result<Option<nat>>, reverse: Result<seq<string>>, now: int)
    requires Codec.IsDottedQuad(ip)
    requires WellFormed(records, nextId)
    ensures var (records', _, r) := AfterLookup(records, nextId, ip, network1, network2, reverse, now);
      r.Ok? && r.value.Some? ==>
        FindById(records', r.value.value.id).Some? && records'[FindById(records', r.value.value.id).value] == r.value.value
  {
    var (records', nextId', r) := AfterLookup(records, nextId, ip, network1, network2, reverse, now);
    LookupKeepsWellFormed(records, nextId, ip, network1, network2, reverse, now);
    if r.Ok? && r.value.Some? {
      var h := r.value.value;
      var k := if FindByIp(records, ip).Some? then FindByIp(records, ip).value else |records|;
      assert records'[k] == h;
      assert FindById(records', h.id).value == k;
    }
  }

  // ---------------------------------------------------------------------------
  // The score action

  /**
   * The store after `score(id, delta)` and its result: the host with that
   * identity gets exactly `delta` added to its score and nothing else changes;
   * an unknown identity leaves the store as it was and returns nothing.
   */
  function AfterScore(records: seq<Host>, id: nat, delta: int): (out: (seq<Host>, Option<Host>))
    ensures |out.0| == |records|
    ensures FindById(records, id).None? ==> out == (records, None)
    ensures FindById(records, id).Some? ==>
      var k := FindById(records, id).value;
      && out.1 == Some(out.0[k])
      && out.0[k].score == records[k].score + delta
      && out.0[k] == records[k].(score := out.0[k].score)
      && forall j :: 0 <= j < |records| && j != k ==> out.0[j] == records[j]
  {
    match FindById(records, id)
    case None => (records, None)
    case Some(k) =>
      var h := records[k].(score := records[k].score + delta);
      (records[k := h], Some(h))
  }

  /** Scoring keeps the store well formed. */
  lemma ScoreKeepsWellFormed(records: seq<Host>, nextId: nat, id: nat, delta: int)
    requires WellFormed(records, nextId)
    ensures WellFormed(AfterScore(records, id, delta).0, nextId)
  {
    match FindById(records, id)
    case None =>
    case Some(k) =>
      ReplaceKeepsWellFormed(records, nextId, k, records[k].(score := records[k].score + delta));
  }

  // ---------------------------------------------------------------------------
  // The store

  class HostStore {
    var records: seq<Host>
    /** The identity the store gives the next host it creates. */
    var nextId: nat
    /** The service's lock (`this.lock`). */
    const lock: Locks.Lock
    /** The outward calls made by lookups, in order. */
    ghost var calls: seq<Call>

    ghost predicate Valid()
      reads this
    {
      WellFormed(records, nextId)
    }

    constructor (lock: Locks.Lock)
      ensures Valid() && records == [] && calls == [] && this.lock == lock
    {
      records := [];
      nextId := 0;
      this.lock := lock;
      calls := [];
    }

    /** The handler's body between acquiring and releasing the lock. */
    method FindOrCreate(ip: string, network1: Result<Option<nat>>, network2: Result<Option<nat>>,
                        reverse: Result<seq<string>>, now: int) returns (r: Result<Option<Host>>)
      requires Valid() && Codec.IsDottedQuad(ip)
      modifies this
      ensures Valid()
      ensures (records, nextId, r) == AfterLookup(old(records), old(nextId), ip, network1, network2, reverse, now)
      ensures calls == old(calls) + LookupCalls(old(records), ip, network1)
    {
      var found := FindByIp(records, ip);
      if found.Some? {
        assert AfterLookup(records, nextId, ip, network1, network2, reverse, now)
          == (records[found.value := Hit(records[found.value], now)], nextId, Ok(Some(Hit(records[found.value], now))));
        var h := RecordHit(found.value, now);
        return Ok(Some(h));
      }
      calls := calls + [NetworksLookup(ip)];
      if network1.Threw? {
        return Threw(network1.error);
      }
      var network := network1.value;
      calls := calls + [Reverse(ip)];
      var hostname := Hostname(reverse);
      if network.None? {
        calls := calls + [NetworksLookup(ip)];
        if network2.Threw? {
          return Threw(network2.error);
        }
        network := network2.value;
      }
      if network.None? {
        return Ok(None);
      }
      var h := NewHost(nextId, ip, network.value, hostname);
      assert AfterLookup(records, nextId, ip, network1, network2, reverse, now) == (records + [h], nextId + 1, Ok(Some(h)));
      CreateHost(h);
      r := Ok(Some(h));
    }

    /** `updateEntity` on the stored host at position `k`: one more hit at `now`. */
    method RecordHit(k: nat, now: int) returns (h: Host)
      requires Valid() && k < |records|
      modifies this
      ensures Valid()
      ensures h == Hit(old(records)[k], now)
      ensures records == old(records)[k := h] && nextId == old(nextId) && calls == old(calls)
    {
      h := Hit(records[k], now);
      ReplaceKeepsWellFormed(records, nextId, k, h);
      records := records[k := h];
    }

    /** `createEntity` of a new host under the next identity. */
    method CreateHost(h: Host)
      requires Valid() && h.id == nextId && HostOk(h)
      requires forall j :: 0 <= j < |records| ==> records[j].ip != h.ip
      modifies this
      ensures Valid()
      ensures records == old(records) + [h] && nextId == old(nextId) + 1 && calls == old(calls)
    {
      AppendKeepsWellFormed(records, nextId, h);
      records := records + [h];
      nextId := nextId + 1;
    }

    /**
     * The `lookup` action as written: every explicit `return` releases the lock
     * taken at the start, but a rejected networks call escapes the handler
     * between the two and leaves the lock held.
     */
    method LookupAction(ip: string, network1: Result<Option<nat>>, network2: Result<Option<nat>>,
                        reverse: Result<seq<string>>, now: int) returns (r: Result<Option<Host>>)
      requires Valid() && Codec.IsDottedQuad(ip) && LookupKey !in lock.held
      modifies this, lock
      ensures Valid()
      ensures (records, nextId, r) == AfterLookup(old(records), old(nextId), ip, network1, network2, reverse, now)
      ensures calls == old(calls) + LookupCalls(old(records), ip, network1)
      ensures r.Ok? ==> lock.held == old(lock.held)
      ensures r.Threw? ==> lock.held == old(lock.held) + {LookupKey}
    {
      lock.Acquire(LookupKey);
      r := FindOrCreate(ip, network1, network2, reverse, now);
      if r.Ok? {
        lock.Release(LookupKey);
      }
    }

    /** The `lookup` action with the lock released on every path, the rejection included. */
    method Lookup(ip: string, network1: Result<Option<nat>>, network2: Result<Option<nat>>,
                  reverse: Result<seq<string>>, now: int) returns (r: Result<Option<Host>>)
      requires Valid() && Codec.IsDottedQuad(ip) && LookupKey !in lock.held
      modifies this, lock
      ensures Valid()
      ensures (records, nextId, r) == AfterLookup(old(records), old(nextId), ip, network1, network2, reverse, now)
      ensures calls == old(calls) + LookupCalls(old(records), ip, network1)
      ensures lock.held == old(lock.held)
    {
      lock.Acquire(LookupKey);
      r := FindOrCreate(ip, network1, network2, reverse, now);
      lock.Release(LookupKey);
    }

    /** The `score` action: add `delta` to the score of the host with identity `id`. */
    method Score(id: nat, delta: int) returns (r: Option<Host>)
      requires Valid()
      modifies this
      ensures Valid()
      ensures (records, r) == AfterScore(old(records), id, delta)
      ensures nextId == old(nextId) && calls == old(calls)
    {
      var found := FindById(records, id);
      if found.Some? {
        var h := records[found.value].(score := records[found.value].score + delta);
        ReplaceKeepsWellFormed(records, nextId, found.value, h);
        records := records[found.value := h];
        return Some(h);
      }
      r := None;
    }
  }
}
