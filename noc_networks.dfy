/**
 * The `noc.networks` service: a store of network blocks indexed by their
 * inclusive integer range, the find-or-create `lookup` action that asks the
 * registry (`v1.utils.network.ip`) on a miss, the `resolveNetwork` field
 * mapping, the `rangeLow`/`rangeHigh` field setters, and the `noc.http` event
 * that wraps a lookup in a per-ip lock.
 */
module NocNetworks {
  import opened Js
  import opened Text
  import Codec
  import Locks

  /** The `source` parameter's default. */
  const DefaultSource: string := "whois"

  /** A stored network record. */
  datatype Network = Network(
    id: nat,
    name: Option<Value>,
    description: Option<Value>,
    source: string,
    rangeLowIP: string,
    rangeHighIP: string,
    rangeLow: Option<int>,
    rangeHigh: Option<int>)

  /** What `resolveNetwork` hands back from a registry answer. */
  datatype Resolved = Resolved(
    ip: string,
    range: Option<Value>,
    name: Option<Value>,
    description: Option<Value>,
    organisation: Option<Value>,
    status: Option<Value>,
    route: Option<Value>,
    asn: Option<Value>)

  // ---------------------------------------------------------------------------
  // Field setters and the range index

  /** Text a range setter can be given: nothing, or a dotted quad. */
  predicate IsBoundText(ipText: string)
  {
    ipText == "" || Codec.IsDottedQuad(ipText)
  }

  /**
   * The `rangeLow` / `rangeHigh` setter: `if (params.rangeLowIP) return ip2int(params.rangeLowIP)`.
   * It yields a value exactly when the address text is non-empty, and that value
   * is a 32-bit integer.
   */
  function RangeBound(ipText: string): (r: Option<int>)
    requires IsBoundText(ipText)
    ensures r.Some? <==> ipText != ""
    ensures r.Some? ==> 0 <= r.value < Codec.TwoTo32
  {
    if ipText != "" then Some(Codec.Ip2Int(ipText)) else None
  }

  /** A bound prints back as the same four octets as the text it was set from. */
  lemma RangeBoundPrintsBack(ipText: string)
    requires IsBoundText(ipText) && ipText != ""
    ensures Codec.Octets(Codec.Int2Ip(RangeBound(ipText).value)) == Codec.Octets(ipText)
  {
    Codec.Int2IpKeepsOctets(ipText);
  }

  /** The store query `rangeHigh >= x && rangeLow <= x`; a record missing either bound never matches. */
  predicate Contains(n: Network, x: int)
  {
    n.rangeLow.Some? && n.rangeHigh.Some? && n.rangeLow.value <= x <= n.rangeHigh.value
  }

  /** `findEntity` with the containment query: the first stored record that contains `x`. */
  function FirstContaining(records: seq<Network>, x: int): (r: Option<nat>)
    ensures r.Some? ==> r.value < |records| && Contains(records[r.value], x)
    ensures r.Some? ==> forall j :: 0 <= j < r.value ==> !Contains(records[j], x)
    ensures r.None? <==> forall j :: 0 <= j < |records| ==> !Contains(records[j], x)
  {
    if records == [] then None
    else if Contains(records[0], x) then Some(0)
    else match FirstContaining(records[1..], x)
      case None => None
      case Some(k) => Some(k + 1)
  }

  /** Both bounds are inclusive: a record contains its own low and high address and nothing just outside. */
  lemma ContainsIsClosed(n: Network, x: int)
    requires n.rangeLow.Some? && n.rangeHigh.Some? && n.rangeLow.value <= n.rangeHigh.value
    ensures Contains(n, n.rangeLow.value) && Contains(n, n.rangeHigh.value)
    ensures !Contains(n, n.rangeLow.value - 1) && !Contains(n, n.rangeHigh.value + 1)
    ensures Contains(n, x) <==> n.rangeLow.value <= x <= n.rangeHigh.value
  {
  }

  // ---------------------------------------------------------------------------
  // Registry answer

  /**
   * `resolveNetwork(ctx, ip)`: null when the registry has no answer, otherwise
   * the answer's fields, with `name` taken from `netname` and falling back to
   * `NetName` when `netname` is missing or empty.
   */
  function ResolveNetwork(ip: string, answer: Option<map<string, Value>>): (r: Option<Resolved>)
    ensures r.None? <==> answer.None?
    ensures r.Some? ==> r.value.ip == ip && r.value.range == Get(answer.value, "range")
    ensures r.Some? && Truthy(Get(answer.value, "netname")) ==> r.value.name == Get(answer.value, "netname")
    ensures r.Some? && !Truthy(Get(answer.value, "netname")) ==> r.value.name == Get(answer.value, "NetName")
    ensures r.Some? ==>
      && r.value.description == Get(answer.value, "descr") && r.value.organisation == Get(answer.value, "org")
      && r.value.status == Get(answer.value, "status") && r.value.route == Get(answer.value, "route")
      && r.value.asn == Get(answer.value, "asn")
  {
    match answer
    case None => None
    case Some(a) =>
      Some(Resolved(ip, Get(a, "range"), Or(Get(a, "netname"), Get(a, "NetName")), Get(a, "descr"),
                    Get(a, "org"), Get(a, "status"), Get(a, "route"), Get(a, "asn")))
  }

  /**
   * `range.split('-')[0].trim()` and `range.split('-')[1].trim()`. A missing or
   * non-text range throws (`undefined.split`, `x.split is not a function`), and
   * so does a range without '-' (`undefined.trim`).
   */
  function RangeBounds(range: Option<Value>): (r: Result<(string, string)>)
    ensures r.Ok? <==> range.Some? && range.value.Text? && |Split(range.value.s, "-")| >= 2
    ensures r.Ok? ==> r.value.0 == Trim(Split(range.value.s, "-")[0])
    ensures r.Ok? ==> r.value.1 == Trim(Split(range.value.s, "-")[1])
  {
    match range
    case Some(Text(s)) =>
      var parts := Split(s, "-");
      if |parts| >= 2 then Ok((Trim(parts[0]), Trim(parts[1])))
      else Threw(TypeError("Cannot read properties of undefined (reading 'trim')"))
    case _ => Threw(TypeError("range.split is not a function"))
  }

  /** A registry range written `"A - B"` (neither side holding a '-') yields the trimmed sides, low first. */
  lemma RangeBoundsOfRegistryText(a: string, b: string)
    requires '-' !in a && '-' !in b
    ensures RangeBounds(Some(Text(a + " - " + b))) == Ok((Trim(a), Trim(b)))
  {
    var left, right := a + " ", " " + b;
    assert a + " - " + b == Join([left, right], "-");
    assert '-' !in left && '-' !in right;
    SplitJoin([left, right], '-');
    TrimPaddedEnd(a, ' ');
    TrimPaddedStart(b, ' ');
  }

  /** The trimmed bounds of the registry answer's range: nothing without an answer, else what `RangeBounds` makes of it. */
  function AnswerBounds(answer: Option<map<string, Value>>): (r: Option<Result<(string, string)>>)
    ensures r.None? <==> answer.None?
    ensures r.Some? ==> r.value == RangeBounds(Get(answer.value, "range"))
  {
    if answer.None? then None else Some(RangeBounds(Get(answer.value, "range")))
  }

  /** The registry answer's range, once split and trimmed, is fit for the range setters. */
  predicate AnswerHasUsableRange(answer: Option<map<string, Value>>)
  {
    match AnswerBounds(answer)
    case Some(Ok((lo, hi))) => IsBoundText(lo) && IsBoundText(hi)
    case _ => true
  }

  /** `source` as the action receives it: `'whois'` when the caller passes none. */
  function SourceParam(source: Option<string>): (s: string)
    ensures source.None? ==> s == DefaultSource
    ensures source.Some? ==> s == source.value
  {
    if source.Some? then source.value else DefaultSource
  }

  /** The record `createEntity` stores for a registry answer, its range setters applied. */
  function NewNetwork(id: nat, res: Resolved, source: string, lo: string, hi: string): (n: Network)
    requires IsBoundText(lo) && IsBoundText(hi)
    ensures n.id == id && n.source == source && n.name == res.name && n.description == res.description
    ensures n.rangeLowIP == lo && n.rangeHighIP == hi
    ensures n.rangeLow == RangeBound(lo) && n.rangeHigh == RangeBound(hi)
  {
    Network(id, res.name, res.description, source, lo, hi, RangeBound(lo), RangeBound(hi))
  }

  /** A stored record's integer bounds are what the setters compute from its address texts. */
  predicate SettersApplied(n: Network)
  {
    IsBoundText(n.rangeLowIP) && IsBoundText(n.rangeHighIP)
    && n.rangeLow == RangeBound(n.rangeLowIP) && n.rangeHigh == RangeBound(n.rangeHighIP)
  }

  /**
   * End to end for a registry range `"A - B"`: the created record keeps the
   * trimmed texts and their integer values as its bounds, and the requested
   * source (default `'whois'`).
   */
  lemma CreatedFromRegistryRange(id: nat, ip: string, answer: map<string, Value>, source: Option<string>, a: string, b: string)
    requires Get(answer, "range") == Some(Text(a + " - " + b))
    requires '-' !in a && '-' !in b
    requires Codec.IsDottedQuad(Trim(a)) && Codec.IsDottedQuad(Trim(b))
    ensures ResolveNetwork(ip, Some(answer)).Some?
    ensures var res := ResolveNetwork(ip, Some(answer)).value;
      var n := NewNetwork(id, res, SourceParam(source), Trim(a), Trim(b));
      && RangeBounds(res.range) == Ok((Trim(a), Trim(b)))
      && n.rangeLowIP == Trim(a) && n.rangeHighIP == Trim(b)
      && n.rangeLow == Some(Codec.Ip2Int(Trim(a))) && n.rangeHigh == Some(Codec.Ip2Int(Trim(b)))
      && n.source == (if source.Some? then source.value else "whois")
  {
    RangeBoundsOfRegistryText(a, b);
  }

  /**
   * The key the `noc.http` event locks while it looks an address up. The
   * address can be read back from the key, so lookups of two different
   * addresses never wait for each other.
   */
  function LookupKey(ip: string): (key: string)
    ensures |key| == 20 + |ip| && key[20..] == ip
  {
    "noc.networks.lookup." + ip
  }

  // ---------------------------------------------------------------------------
  // The lookup action, on the store's contents

  /**
   * What the store holds after any sequence of lookups: identities below the
   * next one and distinct, and every record's bounds as the setters compute them.
   */
  ghost predicate WellFormed(records: seq<Network>, nextId: nat)
  {
    && (forall k :: 0 <= k < |records| ==> records[k].id < nextId && SettersApplied(records[k]))
    && (forall j, k :: 0 <= j < k < |records| ==> records[j].id != records[k].id)
  }

  /**
   * The `lookup(ip)` method: the first stored network whose inclusive range
   * holds the address, or nothing when none does.
   */
  function Containing(records: seq<Network>, ip: string): (r: Option<Network>)
    requires Codec.IsDottedQuad(ip)
    ensures r.Some? ==> r.value in records && Contains(r.value, Codec.Ip2Int(ip))
    ensures r.None? <==> forall n :: n in records ==> !Contains(n, Codec.Ip2Int(ip))
  {
    match FirstContaining(records, Codec.Ip2Int(ip))
    case None => None
    case Some(k) => Some(records[k])
  }

  /**
   * The store after the `lookup` action and the network it finds or creates:
   * the containing network when there is one; otherwise nothing when the
   * registry has no answer, the rejection when its range cannot be split, and
   * else the record created from the answer, under the next identity.
   */
  function AfterLookup(records: seq<Network>, nextId: nat, ip: string, source: Option<string>,
                       answer: Option<map<string, Value>>): (out: (seq<Network>, nat, Result<Option<Network>>))
    requires Codec.IsDottedQuad(ip) && AnswerHasUsableRange(answer)
    ensures (out.0 == records && out.1 == nextId) || (out.2.Ok? && out.2.value.Some? && out.2.value.value.id == nextId
      && out.0 == records + [out.2.value.value] && out.1 == nextId + 1)
    ensures Containing(records, ip).Some? ==> out == (records, nextId, Ok(Containing(records, ip)))
  {
    if Containing(records, ip).Some? then (records, nextId, Ok(Containing(records, ip)))
    else match AnswerBounds(answer)
      case None => (records, nextId, Ok(None))
      case Some(Threw(e)) => (records, nextId, Threw(e))
      case Some(Ok((lo, hi))) =>
        var n := NewNetwork(nextId, ResolveNetwork(ip, answer).value, SourceParam(source), lo, hi);
        (records + [n], nextId + 1, Ok(Some(n)))
  }

  /** The step of the lookup that creates a record. */
  lemma LookupCreates(records: seq<Network>, nextId: nat, ip: string, source: Option<string>,
                      answer: Option<map<string, Value>>, n: Network)
    requires Codec.IsDottedQuad(ip) && AnswerHasUsableRange(answer) && Containing(records, ip).None?
    requires AnswerBounds(answer).Some? && AnswerBounds(answer).value.Ok?
    requires n == NewNetwork(nextId, ResolveNetwork(ip, answer).value, SourceParam(source),
                             AnswerBounds(answer).value.value.0, AnswerBounds(answer).value.value.1)
    ensures AfterLookup(records, nextId, ip, source, answer) == (records + [n], nextId + 1, Ok(Some(n)))
  {
  }

  /** The registry is asked only when no stored network contains the address. */
  function LookupQueries(records: seq<Network>, ip: string): (q: seq<string>)
    requires Codec.IsDottedQuad(ip)
    ensures q == [] <==> Containing(records, ip).Some?
  {
    if Containing(records, ip).Some? then [] else [ip]
  }

  /** What a caller of the action as written receives: `undefined`, or the rejection. */
  function Undefined(found: Result<Option<Network>>): (r: Result<()>)
    ensures r.Threw? <==> found.Threw?
    ensures r.Threw? ==> r.error == found.error
  {
    match found
    case Threw(e) => Threw(e)
    case Ok(_) => Ok(())
  }

  /** With no answer from the registry and no containing network, the store is unchanged and nothing is returned. */
  lemma LookupWithoutAnswer(records: seq<Network>, nextId: nat, ip: string, source: Option<string>)
    requires Codec.IsDottedQuad(ip)
    requires Containing(records, ip).None?
    ensures AfterLookup(records, nextId, ip, source, None) == (records, nextId, Ok(None))
    ensures LookupQueries(records, ip) == [ip]
  {
  }

  /**
   * A miss answered with the registry range `"A - B"` creates exactly one
   * record, with the trimmed texts and their integer values as its bounds and
   * the requested source.
   */
  lemma LookupCreatesFromRegistryRange(records: seq<Network>, nextId: nat, ip: string, source: Option<string>,
                                       answer: map<string, Value>, a: string, b: string)
    requires Codec.IsDottedQuad(ip)
    requires Containing(records, ip).None?
    requires Get(answer, "range") == Some(Text(a + " - " + b))
    requires '-' !in a && '-' !in b
    requires Codec.IsDottedQuad(Trim(a)) && Codec.IsDottedQuad(Trim(b))
    ensures AnswerHasUsableRange(Some(answer))
    ensures var (records', nextId', r) := AfterLookup(records, nextId, ip, source, Some(answer));
      && r.Ok? && r.value.Some? && records' == records + [r.value.value] && nextId' == nextId + 1
      && r.value.value.id == nextId
      && r.value.value.rangeLowIP == Trim(a) && r.value.value.rangeHighIP == Trim(b)
      && r.value.value.rangeLow == Some(Codec.Ip2Int(Trim(a)))
      && r.value.value.rangeHigh == Some(Codec.Ip2Int(Trim(b)))
      && r.value.value.source == SourceParam(source)
  {
    CreatedFromRegistryRange(nextId, ip, answer, source, a, b);
  }

  /** Appending a record whose setters were applied, under the next identity, keeps the store well formed. */
  lemma AppendKeepsWellFormed(records: seq<Network>, nextId: nat, n: Network)
    requires WellFormed(records, nextId) && SettersApplied(n) && n.id == nextId
    ensures WellFormed(records + [n], nextId + 1)
  {
    var records' := records + [n];
    assert forall k :: 0 <= k < |records| ==> records'[k] == records[k];
  }

  /** Lookups keep the store well formed. */
  lemma LookupKeepsWellFormed(records: seq<Network>, nextId: nat, ip: string, source: Option<string>,
                              answer: Option<map<string, Value>>)
    requires Codec.IsDottedQuad(ip) && AnswerHasUsableRange(answer)
    requires WellFormed(records, nextId)
    ensures var (records', nextId', _) := AfterLookup(records, nextId, ip, source, answer);
      WellFormed(records', nextId')
  {
    if Containing(records, ip).None? && AnswerBounds(answer).Some? && AnswerBounds(answer).value.Ok? {
      var (lo, hi) := AnswerBounds(answer).value.value;
      var res := ResolveNetwork(ip, answer).value;
      AppendKeepsWellFormed(records, nextId, NewNetwork(nextId, res, SourceParam(source), lo, hi));
    }
  }

  // ---------------------------------------------------------------------------
  // The store

  class NetworkStore {
    var records: seq<Network>
    /** The identity the store gives the next record it creates. */
    var nextId: nat
    /** Addresses sent to the registry (`v1.utils.network.ip`), in order. */
    ghost var registryQueries: seq<string>

    ghost predicate Valid()
      reads this
    {
      WellFormed(records, nextId)
    }

    constructor ()
      ensures Valid() && records == [] && registryQueries == []
    {
      records := [];
      nextId := 0;
      registryQueries := [];
    }

    /** The `lookup(ip)` method on this store. */
    function LookupIp(ip: string): (r: Option<Network>)
      requires Codec.IsDottedQuad(ip)
      reads this
      ensures r.Some? ==> r.value in records && Contains(r.value, Codec.Ip2Int(ip))
      ensures r.None? <==> forall n :: n in records ==> !Contains(n, Codec.Ip2Int(ip))
    {
      Containing(records, ip)
    }

    /**
     * The `lookup` action with the network it found or created handed back,
     * as its documentation promises.
     */
    method Lookup(ip: string, source: Option<string>, answer: Option<map<string, Value>>)
      returns (r: Result<Option<Network>>)
      requires Valid() && Codec.IsDottedQuad(ip) && AnswerHasUsableRange(answer)
      modifies this
      ensures Valid()
      ensures (records, nextId, r) == AfterLookup(old(records), old(nextId), ip, source, answer)
      ensures registryQueries == old(registryQueries) + LookupQueries(old(records), ip)
    {
      var network := LookupIp(ip);
      if network.Some? {
        assert AfterLookup(records, nextId, ip, source, answer) == (records, nextId, Ok(network));
        return Ok(network);
      }
      r := AskRegistry(ip, source, answer);
    }

    /**
     * The part of `lookup` that runs when no stored network contains the
     * address: ask the registry and create a record from its range.
     */
    method AskRegistry(ip: string, source: Option<string>, answer: Option<map<string, Value>>)
      returns (r: Result<Option<Network>>)
      requires Valid() && Codec.IsDottedQuad(ip) && AnswerHasUsableRange(answer)
      requires Containing(records, ip).None?
      modifies this
      ensures Valid()
      ensures (records, nextId, r) == AfterLookup(old(records), old(nextId), ip, source, answer)
      ensures registryQueries == old(registryQueries) + [ip]
    {
      registryQueries := registryQueries + [ip];
      var result := ResolveNetwork(ip, answer);
      if result.None? {
        assert AfterLookup(records, nextId, ip, source, answer) == (records, nextId, Ok(None));
        return Ok(None);
      }
      var bounds := RangeBounds(result.value.range);
      assert AnswerBounds(answer) == Some(bounds);
      if bounds.Threw? {
        assert AfterLookup(records, nextId, ip, source, answer) == (records, nextId, Threw(bounds.error));
        return Threw(bounds.error);
      }
      var (lo, hi) := bounds.value;
      var n := NewNetwork(nextId, result.value, SourceParam(source), lo, hi);
      LookupCreates(records, nextId, ip, source, answer, n);
      CreateEntity(n);
      r := Ok(Some(n));
    }

    /** `createEntity`: store a record under the next identity. */
    method CreateEntity(n: Network)
      requires Valid() && SettersApplied(n) && n.id == nextId
      modifies this
      ensures Valid()
      ensures records == old(records) + [n] && nextId == old(nextId) + 1
      ensures registryQueries == old(registryQueries)
    {
      AppendKeepsWellFormed(records, nextId, n);
      records := records + [n];
      nextId := nextId + 1;
    }

    /**
     * The `lookup` action as written: the same find-or-create, but the handler
     * ends with a bare `return` or by falling off its end, so a caller only ever
     * receives `undefined` (or the rejection).
     */
    method LookupAction(ip: string, source: Option<string>, answer: Option<map<string, Value>>)
      returns (r: Result<()>)
      requires Valid() && Codec.IsDottedQuad(ip) && AnswerHasUsableRange(answer)
      modifies this
      ensures Valid()
      ensures var (records', nextId', found) := AfterLookup(old(records), old(nextId), ip, source, answer);
        records == records' && nextId == nextId' && r == Undefined(found)
      ensures registryQueries == old(registryQueries) + LookupQueries(old(records), ip)
    {
      var found := Lookup(ip, source, answer);
      r := Undefined(found);
    }

    /**
     * The `noc.http` event: lock the address's key, run the `lookup` action with
     * the default source, turn a rejection into null, and release the key, so the
     * key is released whether the lookup succeeded or failed.
     */
    method NocHttp(ip: string, lock: Locks.Lock, answer: Option<map<string, Value>>)
      requires Valid() && Codec.IsDottedQuad(ip) && AnswerHasUsableRange(answer)
      requires LookupKey(ip) !in lock.held
      modifies this, lock
      ensures Valid()
      ensures lock.held == old(lock.held)
      ensures var (records', nextId', _) := AfterLookup(old(records), old(nextId), ip, None, answer);
        records == records' && nextId == nextId'
      ensures registryQueries == old(registryQueries) + LookupQueries(old(records), ip)
    {
      lock.Acquire(LookupKey(ip));
      var _ := LookupAction(ip, None, answer);
      lock.Release(LookupKey(ip));
    }
  }
}
