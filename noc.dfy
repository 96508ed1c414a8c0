/**
 * The `noc` service: the `noc.http` event handler, which caches one verdict
 * per virtual host, looks the client address up in `noc.hosts`, penalises the
 * host when the virtual host has no route, and reports an incident while the
 * host's score is still above -10; and the text parsing of the `ip` action
 * (the whois `range` and `asn` fields).
 *
 * The route resolver's answer and the answers the hosts lookup needs are
 * inputs; an incident report is recorded in `incidents`.
 */
module Noc {
  import opened Js
  import opened Text
  import Decimal
  import Codec
  import Locks
  import NocHosts

  // ---------------------------------------------------------------------------
  // The vHost verdict cache

  /** A cached verdict: score 0 when the virtual host has a route, -1 when it has none. */
  datatype VHostEntry = VHostEntry(score: int, route: Option<Value>, vHost: string)

  datatype Meta = Meta(vHost: string, url: string)

  /** An incident report for a penalised host. */
  datatype Incident = Incident(host: nat, meta: Meta, source: string)

  /** The entry a cache miss inserts. */
  function NewEntry(vHost: string, route: Option<Value>): (e: VHostEntry)
    ensures e.vHost == vHost && e.route == route
    ensures e.score == 0 <==> Truthy(route)
    ensures e.score == -1 <==> !Truthy(route)
  {
    VHostEntry(if Truthy(route) then 0 else -1, route, vHost)
  }

  /** What `this.vHosts` holds: every entry is the one a miss inserts for its own key. */
  ghost predicate CacheOk(vHosts: map<string, VHostEntry>)
  {
    forall v :: v in vHosts ==> vHosts[v] == NewEntry(v, vHosts[v].route)
  }

  /** A host is penalised only when the virtual host's score is negative and the host lookup found a host. */
  predicate Penalised(entry: VHostEntry, host: Option<NocHosts.Host>)
  {
    entry.score < 0 && host.Some?
  }

  /** The incident window: a score strictly between -10 and 0. */
  predicate InIncidentWindow(score: int)
  {
    -10 < score < 0
  }

  /** The reports made after scoring `host`: one exactly when its new score is in the window. */
  function IncidentsFor(host: NocHosts.Host, meta: Meta): (r: seq<Incident>)
    ensures |r| <= 1
    ensures |r| == 1 <==> InIncidentWindow(host.score)
    ensures r != [] ==> r[0].host == host.id && r[0].meta == meta && r[0].source == "http"
  {
    if InIncidentWindow(host.score) then [Incident(host.id, meta, "http")] else []
  }

  /** Every cached score is 0 or -1, so a penalty always takes exactly one point, and only for a virtual host without a route. */
  lemma PenaltyIsOnePoint(vHosts: map<string, VHostEntry>, v: string, host: Option<NocHosts.Host>)
    requires CacheOk(vHosts) && v in vHosts
    ensures vHosts[v].score == 0 || vHosts[v].score == -1
    ensures Penalised(vHosts[v], host) <==> !Truthy(vHosts[v].route) && host.Some?
    ensures Penalised(vHosts[v], host) ==> vHosts[v].score == -1
  {
    assert vHosts[v] == NewEntry(v, vHosts[v].route);
  }

  /** Inserting the entry for a new key keeps every cached entry consistent. */
  lemma InsertKeepsCacheOk(vHosts: map<string, VHostEntry>, v: string, route: Option<Value>)
    requires CacheOk(vHosts)
    ensures CacheOk(vHosts[v := NewEntry(v, route)])
  {
    var vHosts' := vHosts[v := NewEntry(v, route)];
    forall w | w in vHosts' ensures vHosts'[w] == NewEntry(w, vHosts'[w].route) {
      if w != v {
        assert vHosts'[w] == vHosts[w];
      }
    }
  }

  /** The hosts store after `p` one-point penalties on the host with identity `id`. */
  function Penalties(records: seq<NocHosts.Host>, id: nat, p: nat): (out: seq<NocHosts.Host>)
    ensures |out| == |records|
    decreases p
  {
    if p == 0 then records else Penalties(NocHosts.AfterScore(records, id, -1).0, id, p - 1)
  }

  /** Two stores with the same identities in the same places find every identity at the same place. */
  lemma FindByIdOfSameIds(a: seq<NocHosts.Host>, b: seq<NocHosts.Host>, id: nat)
    requires |a| == |b| && forall j :: 0 <= j < |a| ==> a[j].id == b[j].id
    ensures NocHosts.FindById(a, id) == NocHosts.FindById(b, id)
  {
    var fa, fb := NocHosts.FindById(a, id), NocHosts.FindById(b, id);
    if fa.Some? && fb.Some? {
      assert a[fb.value].id == id && b[fa.value].id == id;
    }
  }

  /** After p one-point penalties the host found at place k is still found there. */
  lemma {:induction false} PenaltiesKeepPlace(records: seq<NocHosts.Host>, id: nat, k: nat, p: nat)
    requires NocHosts.FindById(records, id) == Some(k)
    ensures NocHosts.FindById(Penalties(records, id, p), id) == Some(k)
    decreases p
  {
    if p > 0 {
      var q: nat := p - 1;
      var next := NextPenalty(records, id, k, q);
      PenaltiesKeepPlace(next, id, k, q);
    }
  }

  /** After p one-point penalties the host found at place k has exactly p points fewer. */
  lemma {:induction false} PenaltiesScore(records: seq<NocHosts.Host>, id: nat, k: nat, p: nat)
    requires NocHosts.FindById(records, id) == Some(k)
    ensures Penalties(records, id, p)[k].score == records[k].score - p
    decreases p
  {
    if p > 0 {
      var q: nat := p - 1;
      var next := NextPenalty(records, id, k, q);
      PenaltiesScore(next, id, k, q);
    }
  }

  /**
   * A host that starts at score 0 and is penalised by one point on each
   * request to a route-less virtual host has score -p after p penalties; the
   * p-th penalty is reported exactly for the first nine, and never again.
   */
  lemma IncidentsForFirstNinePenalties(records: seq<NocHosts.Host>, id: nat, k: nat, p: nat, meta: Meta)
    requires NocHosts.FindById(records, id) == Some(k) && records[k].score == 0
    ensures NocHosts.FindById(Penalties(records, id, p), id) == Some(k)
    ensures Penalties(records, id, p)[k].score == -(p as int)
    ensures p >= 1 ==> (IncidentsFor(Penalties(records, id, p)[k], meta) != [] <==> p <= 9)
  {
    PenaltiesKeepPlace(records, id, k, p);
    PenaltiesScore(records, id, k, p);
  }

  /** The store after the first of q + 1 penalties, from which the other q follow. */
  lemma NextPenalty(records: seq<NocHosts.Host>, id: nat, k: nat, q: nat) returns (next: seq<NocHosts.Host>)
    requires NocHosts.FindById(records, id) == Some(k)
    ensures Penalties(records, id, q + 1) == Penalties(next, id, q)
    ensures NocHosts.FindById(next, id) == Some(k)
    ensures k < |records| == |next| && next[k].score == records[k].score - 1
  {
    next := NocHosts.AfterScore(records, id, -1).0;
    PenaltyStep(records, id, k);
  }

  /** One penalty takes exactly one point from the host found under `id`. */
  lemma PenaltyStep(records: seq<NocHosts.Host>, id: nat, k: nat)
    requires NocHosts.FindById(records, id) == Some(k)
    ensures NocHosts.FindById(NocHosts.AfterScore(records, id, -1).0, id) == Some(k)
    ensures NocHosts.AfterScore(records, id, -1).0[k].score == records[k].score - 1
  {
    var out := NocHosts.AfterScore(records, id, -1).0;
    assert forall j :: 0 <= j < |records| ==> out[j].id == records[j].id;
    FindByIdOfSameIds(out, records, id);
  }

  class Noc {
    /** `this.vHosts`: the verdict per virtual host; entries are never removed. */
    var vHosts: map<string, VHostEntry>
    /** `this.lock`, keyed by virtual host. */
    const lock: Locks.Lock
    /** The incident reports made, in order. */
    var incidents: seq<Incident>
    /** The virtual hosts whose route was resolved, in order. */
    ghost var routeQueries: seq<string>

    ghost predicate Valid()
      reads this
    {
      CacheOk(vHosts)
    }

    constructor (lock: Locks.Lock)
      ensures Valid() && vHosts == map[] && incidents == [] && routeQueries == [] && this.lock == lock
    {
      vHosts := map[];
      this.lock := lock;
      incidents := [];
      routeQueries := [];
    }

    /**
     * The `noc.http` event. A virtual host seen for the first time is resolved
     * once under its lock key and cached; then the client address is looked up
     * in `hosts`, and a found host is penalised by the cached score when that
     * score is negative, with an incident report while the new score is in the
     * window. A rejected route resolution escapes between acquire and release
     * and leaves the virtual host's key held; the hosts lookup is the action as
     * written, so a rejected networks call inside it leaves the hosts lock held.
     */
    method Http(meta: Meta, ip: string, route: Result<Option<Value>>, hosts: NocHosts.HostStore,
                network1: Result<Option<nat>>, network2: Result<Option<nat>>,
                reverse: Result<seq<string>>, now: int) returns (r: Result<()>)
      requires Valid() && hosts.Valid() && Codec.IsDottedQuad(ip)
      requires meta.vHost !in lock.held && NocHosts.LookupKey !in hosts.lock.held && lock != hosts.lock
      modifies this, lock, hosts, hosts.lock
      ensures Valid() && hosts.Valid()
      ensures old(vHosts).Keys <= vHosts.Keys
      ensures meta.vHost in old(vHosts) ==>
        vHosts == old(vHosts) && routeQueries == old(routeQueries) && lock.held == old(lock.held)
      ensures meta.vHost !in old(vHosts) ==> routeQueries == old(routeQueries) + [meta.vHost]
      ensures meta.vHost !in old(vHosts) && route.Ok? ==>
        vHosts == old(vHosts)[meta.vHost := NewEntry(meta.vHost, route.value)] && lock.held == old(lock.held)
      ensures meta.vHost !in old(vHosts) && route.Threw? ==>
        && r == Threw(route.error) && vHosts == old(vHosts) && lock.held == old(lock.held) + {meta.vHost}
        && hosts.records == old(hosts.records) && hosts.nextId == old(hosts.nextId)
        && hosts.calls == old(hosts.calls) && incidents == old(incidents)
      ensures meta.vHost in old(vHosts) || route.Ok? ==>
        var entry := vHosts[meta.vHost];
        var (records1, nextId1, found) :=
          NocHosts.AfterLookup(old(hosts.records), old(hosts.nextId), ip, network1, network2, reverse, now);
        && hosts.nextId == nextId1
        && hosts.calls == old(hosts.calls) + NocHosts.LookupCalls(old(hosts.records), ip, network1)
        && (found.Ok? ==> hosts.lock.held == old(hosts.lock.held))
        && (found.Threw? ==>
              && r == Threw(found.error) && hosts.records == records1 && incidents == old(incidents)
              && hosts.lock.held == old(hosts.lock.held) + {NocHosts.LookupKey})
        && (found.Ok? && !Penalised(entry, found.value) ==>
              r == Ok(()) && hosts.records == records1 && incidents == old(incidents))
        && (found.Ok? && Penalised(entry, found.value) ==>
              var (records2, scored) := NocHosts.AfterScore(records1, found.value.value.id, entry.score);
              && r == Ok(()) && hosts.records == records2 && scored.Some?
              && scored.value.score == found.value.value.score + entry.score
              && incidents == old(incidents) + IncidentsFor(scored.value, meta))
    {
      var cached := CachedEntry(meta.vHost, route);
      if cached.Threw? {
        return Threw(cached.error);
      }
      assert cached.value == vHosts[meta.vHost];
      r := PenaliseHost(meta, cached.value, ip, hosts, network1, network2, reverse, now);
    }

    /**
     * The verdict for a virtual host: the cached one, or, for a virtual host
     * seen for the first time, the one made from its route, resolved under the
     * virtual host's lock key and cached. A rejected resolution leaves the key held.
     */
    method CachedEntry(vHost: string, route: Result<Option<Value>>) returns (r: Result<VHostEntry>)
      requires Valid() && vHost !in lock.held
      modifies this, lock
      ensures Valid() && incidents == old(incidents)
      ensures vHost in old(vHosts) ==>
        && r == Ok(old(vHosts)[vHost])
        && vHosts == old(vHosts) && routeQueries == old(routeQueries) && lock.held == old(lock.held)
      ensures vHost !in old(vHosts) ==> routeQueries == old(routeQueries) + [vHost]
      ensures vHost !in old(vHosts) && route.Ok? ==>
        && r == Ok(NewEntry(vHost, route.value))
        && vHosts == old(vHosts)[vHost := NewEntry(vHost, route.value)] && lock.held == old(lock.held)
      ensures vHost !in old(vHosts) && route.Threw? ==>
        r == Threw(route.error) && vHosts == old(vHosts) && lock.held == old(lock.held) + {vHost}
    {
      if vHost in vHosts {
        return Ok(vHosts[vHost]);
      }
      lock.Acquire(vHost);
      routeQueries := routeQueries + [vHost];
      if route.Threw? {
        return Threw(route.error);
      }
      InsertKeepsCacheOk(vHosts, vHost, route.value);
      vHosts := vHosts[vHost := NewEntry(vHost, route.value)];
      lock.Release(vHost);
      r := Ok(vHosts[vHost]);
    }

    /**
     * The rest of `noc.http` once the verdict `entry` is known: look the client
     * address up in `hosts`; penalise a found host by a negative verdict score
     * and report an incident while its new score is in the window. A rejected
     * hosts lookup rejects `noc.http` with the hosts lock still held.
     */
    method PenaliseHost(meta: Meta, entry: VHostEntry, ip: string, hosts: NocHosts.HostStore,
                        network1: Result<Option<nat>>, network2: Result<Option<nat>>,
                        reverse: Result<seq<string>>, now: int) returns (r: Result<()>)
      requires hosts.Valid() && Codec.IsDottedQuad(ip) && NocHosts.LookupKey !in hosts.lock.held
      modifies this`incidents, hosts, hosts.lock
      ensures hosts.Valid()
      ensures
        var (records1, nextId1, found) :=
          NocHosts.AfterLookup(old(hosts.records), old(hosts.nextId), ip, network1, network2, reverse, now);
        && hosts.nextId == nextId1
        && hosts.calls == old(hosts.calls) + NocHosts.LookupCalls(old(hosts.records), ip, network1)
        && (found.Ok? ==> hosts.lock.held == old(hosts.lock.held))
        && (found.Threw? ==>
              && r == Threw(found.error) && hosts.records == records1 && incidents == old(incidents)
              && hosts.lock.held == old(hosts.lock.held) + {NocHosts.LookupKey})
        && (found.Ok? && !Penalised(entry, found.value) ==>
              r == Ok(()) && hosts.records == records1 && incidents == old(incidents))
        && (found.Ok? && Penalised(entry, found.value) ==>
              var (records2, scored) := NocHosts.AfterScore(records1, found.value.value.id, entry.score);
              && r == Ok(()) && hosts.records == records2 && scored.Some?
              && scored.value.score == found.value.value.score + entry.score
              && incidents == old(incidents) + IncidentsFor(scored.value, meta))
    {
      NocHosts.LookupResultIsStored(hosts.records, hosts.nextId, ip, network1, network2, reverse, now);
      var found := hosts.LookupAction(ip, network1, network2, reverse, now);
      if found.Threw? {
        return Threw(found.error);
      }
      if entry.score < 0 && found.value.Some? {
        var scored := hosts.Score(found.value.value.id, entry.score);
        incidents := incidents + IncidentsFor(scored.value, meta);
      }
      r := Ok(());
    }
  }

  // ---------------------------------------------------------------------------
  // Parsing in the `ip` action

  /** `res.range.split(' - ')`: the low bound, and the high bound when there is a second part. */
  function WhoisRange(res: map<string, Value>): (r: Result<(string, Option<string>)>)
    ensures r.Threw? <==> !("range" in res && res["range"].Text?)
  {
    match Get(res, "range")
    case Some(Text(s)) =>
      var parts := Split(s, " - ");
      Ok((parts[0], if |parts| >= 2 then Some(parts[1]) else None))
    case _ => Threw(TypeError("range has no split"))
  }

  /** " - " cannot match inside a text without '-', nor where such a text meets the separator. */
  lemma DashAbsent(a: string, t: string)
    requires '-' !in a
    requires t == [] || t[0] == ' '
    ensures NoMatchBefore(a + t, " - ", |a|)
  {
    forall i: nat | i < |a| ensures !MatchAt(a + t, " - ", i) {
      if i + 3 <= |a + t| {
        assert (a + t)[i..i + 3][1] == (a + t)[i + 1];
        assert i + 1 < |a| ==> (a + t)[i + 1] == a[i + 1];
        assert i + 1 == |a| ==> (a + t)[i + 1] == t[0];
      }
    }
  }

  /**
   * A range whose first " - " ends the text `a` gives the low bound `a`, and as
   * high bound the part of the rest up to its next " - ".
   */
  lemma WhoisRangeAtFirstSeparator(res: map<string, Value>, a: string, b: string)
    requires NoMatchBefore(a + " - ", " - ", |a|)
    requires Get(res, "range") == Some(Text(a + " - " + b))
    ensures WhoisRange(res) == Ok((a, Some(Split(b, " - ")[0])))
  {
    SplitAtFirstMatch(a, " - ", b);
  }

  /** A registry range "A - B" gives the low bound A and the high bound B. */
  lemma WhoisRangeOfRegistryText(res: map<string, Value>, a: string, b: string)
    requires '-' !in a && '-' !in b
    requires Get(res, "range") == Some(Text(a + " - " + b))
    ensures WhoisRange(res) == Ok((a, Some(b)))
  {
    DashAbsent(a, " - ");
    WhoisRangeAtFirstSeparator(res, a, b);
    DashAbsent(b, []);
    assert b + [] == b;
    SplitWithoutMatch(b, " - ");
  }

  /** A range text without the separator is the low bound alone; the high bound is `undefined`. */
  lemma WhoisRangeWithoutSeparator(res: map<string, Value>, a: string)
    requires '-' !in a
    requires Get(res, "range") == Some(Text(a))
    ensures WhoisRange(res) == Ok((a, None))
  {
    DashAbsent(a, []);
    assert a + [] == a;
    SplitWithoutMatch(a, " - ");
  }

  /** `asn.split(',').map((s) => s.trim())`. */
  function AsnEntries(asn: string): (entries: seq<string>)
    ensures |entries| == |Split(asn, ",")|
    ensures forall i :: 0 <= i < |entries| ==> entries[i] == Trim(Split(asn, ",")[i])
    ensures forall i :: 0 <= i < |entries| ==>
      entries[i] == [] || (!IsWhiteSpace(entries[i][0]) && !IsWhiteSpace(entries[i][|entries[i]| - 1]))
  {
    var parts := Split(asn, ",");
    seq(|parts|, i requires 0 <= i < |parts| => Trim(parts[i]))
  }

  /** An entry `Number` reads as a decimal integer once its first "AS" is removed. */
  predicate IsAsnEntry(entry: string)
  {
    Decimal.IsDigits(RemoveFirst(entry, "AS"))
  }

  /** `Number(entry.replace('AS', ''))`. */
  function AsnNumber(entry: string): (n: nat)
    requires IsAsnEntry(entry)
    ensures Decimal.IsCanonical(RemoveFirst(entry, "AS")) ==> Decimal.Show(n) == RemoveFirst(entry, "AS")
  {
    var digits := RemoveFirst(entry, "AS");
    if Decimal.IsCanonical(digits) then Decimal.ShowValueOf(digits); Decimal.ValueOf(digits)
    else Decimal.ValueOf(digits)
  }

  /** The label a registry prints for an autonomous system. */
  function Label(n: nat): string
  {
    "AS" + Decimal.Show(n)
  }

  /** Reading a printed label gives its number back. */
  lemma AsnNumberOfLabel(n: nat)
    ensures IsAsnEntry(Label(n)) && AsnNumber(Label(n)) == n
  {
    var s := Label(n);
    assert s[..2] == "AS" && s[2..] == Decimal.Show(n);
    Decimal.ValueOfShow(n);
  }

  /** A label has no ',' and no surrounding white space, so splitting and trimming keep it whole. */
  lemma LabelIsPlain(n: nat)
    ensures ',' !in Label(n) && Trim(Label(n)) == Label(n)
  {
    var d := Decimal.Show(n);
    var s := "AS" + d;
    assert Label(n) == s;
    forall j | 0 <= j < |s| ensures s[j] != ',' {
      if j >= 2 {
        assert s[j] == d[j - 2];
      }
    }
    assert s[|s| - 1] == d[|d| - 1];
    TrimNoOp(s);
  }

  /**
   * The loop of the `ip` action: one `noc.asns` lookup per entry of the `asn`
   * field, in list order, each for the entry's number.
   */
  method AsnLookups(res: map<string, Value>) returns (r: Result<seq<nat>>)
    requires "asn" in res && res["asn"].Text? ==>
      forall i :: 0 <= i < |AsnEntries(res["asn"].s)| ==> IsAsnEntry(AsnEntries(res["asn"].s)[i])
    ensures r.Threw? <==> !("asn" in res && res["asn"].Text?)
    ensures r.Ok? ==>
      var entries := AsnEntries(res["asn"].s);
      |r.value| == |entries| && forall i :: 0 <= i < |entries| ==> r.value[i] == AsnNumber(entries[i])
  {
    if !("asn" in res && res["asn"].Text?) {
      return Threw(TypeError("asn has no split"));
    }
    var entries := AsnEntries(res["asn"].s);
    var lookups: seq<nat> := [];
    for index := 0 to |entries|
      invariant |lookups| == index
      invariant forall i :: 0 <= i < index ==> lookups[i] == AsnNumber(entries[i])
    {
      lookups := lookups + [AsnNumber(entries[index])];
    }
    r := Ok(lookups);
  }

  /** A list of labels joined by ',' yields one lookup per label, for its number, in order. */
  lemma AsnListOfLabels(numbers: seq<nat>)
    requires |numbers| >= 1
    ensures var entries := AsnEntries(Join(seq(|numbers|, i requires 0 <= i < |numbers| => Label(numbers[i])), ","));
      && |entries| == |numbers|
      && forall i :: 0 <= i < |numbers| ==> IsAsnEntry(entries[i]) && AsnNumber(entries[i]) == numbers[i]
  {
    var labels := seq(|numbers|, i requires 0 <= i < |numbers| => Label(numbers[i]));
    forall k | 0 <= k < |labels| ensures ',' !in labels[k] {
      LabelIsPlain(numbers[k]);
    }
    SplitJoin(labels, ',');
    var entries := AsnEntries(Join(labels, ","));
    assert Split(Join(labels, ","), ",") == labels;
    forall i | 0 <= i < |numbers| ensures IsAsnEntry(entries[i]) && AsnNumber(entries[i]) == numbers[i] {
      assert entries[i] == Trim(labels[i]);
      LabelIsPlain(numbers[i]);
      AsnNumberOfLabel(numbers[i]);
    }
  }
}
