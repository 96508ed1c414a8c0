/**
 * The `noc.asns` service: autonomous-system records keyed by `asn`. The
 * `lookup` method asks the IANA whois server and falls back to RIPE's route
 * whois server when the first answer is too thin; the `lookup` action is a
 * find-or-create over the store; `range` lists the records whose address range
 * contains an address.
 *
 * The two whois answers are inputs, as the objects the queries resolve to.
 * `created` and `updated` hold the value handed to `new Date`; the date itself
 * is opaque.
 */
module NocAsns {
  import opened Js
  import opened Text
  import Codec

  /** What the `lookup` method returns: the entity's fields, or `{}` when RIPE answered with a single key. */
  datatype Fields =
    | Empty
    | Fields(asn: int, source: string, name: Option<Value>, description: Option<Value>,
             created: Option<Value>, updated: Option<Value>)

  /** The whois queries the `lookup` method makes. */
  datatype Query = Iana(asn: int) | Ripe(asn: int)

  /**
   * `v && v.split(' ').shift()`: a falsy value is kept as it is, a text gives
   * its part before the first space, and anything else has no `split`.
   */
  function FirstWord(v: Option<Value>): (r: Result<Option<Value>>)
    ensures !Truthy(v) ==> r == Ok(v)
    ensures r.Threw? <==> Truthy(v) && !v.value.Text?
    ensures Truthy(v) && v.value.Text? ==> r.Ok? && r.value.Some? && r.value.value.Text?
  {
    if !Truthy(v) then Ok(v)
    else match v.value
      case Text(s) => Ok(Some(Text(Split(s, " ")[0])))
      case _ => Threw(TypeError("split is not a function"))
  }

  /** On a RIPE time stamp "date time", `FirstWord` keeps the date. */
  lemma FirstWordOfStamp(date: string, time: string)
    requires ' ' !in date
    ensures FirstWord(Some(Text(date + " " + time))) == Ok(Some(Text(date)))
  {
    CharAbsent(date, " ", ' ');
    SplitAtFirstMatch(date, " ", time);
  }

  /** A text without a space is kept whole. */
  lemma FirstWordOfWord(word: string)
    requires word != "" && ' ' !in word
    ensures FirstWord(Some(Text(word))) == Ok(Some(Text(word)))
  {
    CharAbsent(word, "", ' ');
    assert word + "" == word;
    SplitWithoutMatch(word, " ");
  }

  /** The IANA path: name from `ASName`, description from `organisation.OrgName`, dates from `RegDate` and `Updated`. */
  function IanaFields(asn: int, iana: map<string, Value>): (r: Result<Fields>)
    ensures r.Threw? <==> "organisation" !in iana
    ensures r.Ok? ==> r.value.Fields? && r.value.asn == asn && r.value.source == "iana"
  {
    match Member(Get(iana, "organisation"), "OrgName")
    case Threw(e) => Threw(e)
    case Ok(orgName) =>
      Ok(Fields(asn, "iana", Get(iana, "ASName"), orgName, Get(iana, "RegDate"), Get(iana, "Updated")))
  }

  /** The RIPE path: name from `descr`, an empty description, and the date part of the two `lastupd` stamps. */
  function RipeFields(asn: int, ripe: map<string, Value>): (r: Result<Fields>)
    ensures r.Threw? <==> FirstWord(Get(ripe, "lastupd-frst")).Threw? || FirstWord(Get(ripe, "lastupd-last")).Threw?
    ensures r.Ok? ==> r.value.Fields? && r.value.asn == asn && r.value.source == "ripe"
  {
    match FirstWord(Get(ripe, "lastupd-frst"))
    case Threw(e) => Threw(e)
    case Ok(created) =>
      match FirstWord(Get(ripe, "lastupd-last"))
      case Threw(e) => Threw(e)
      case Ok(updated) => Ok(Fields(asn, "ripe", Get(ripe, "descr"), Some(Text("")), created, updated))
  }

  /**
   * The `lookup` method: the IANA answer when it has at least three keys,
   * otherwise the RIPE answer, and `{}` when that one has a single key.
   */
  function LookupFields(asn: int, iana: map<string, Value>, ripe: map<string, Value>): (r: Result<Fields>)
    ensures r.Ok? && r.value.Fields? ==> r.value.asn == asn
    ensures r == Ok(Empty) <==> |iana| < 3 && |ripe| == 1
    ensures r.Ok? && r.value.Fields? ==> (r.value.source == "iana" <==> |iana| >= 3)
    ensures r.Ok? && r.value.Fields? ==> (r.value.source == "ripe" <==> |iana| < 3)
  {
    if |iana| >= 3 then IanaFields(asn, iana)
    else if |ripe| == 1 then Ok(Empty)
    else RipeFields(asn, ripe)
  }

  /** The queries the `lookup` method makes: IANA, then RIPE when the IANA answer has fewer than three keys. */
  function LookupQueries(asn: int, iana: map<string, Value>): (q: seq<Query>)
    ensures |q| >= 1 && q[0] == Iana(asn)
    ensures |q| == 2 <==> |iana| < 3
  {
    [Iana(asn)] + (if |iana| < 3 then [Ripe(asn)] else [])
  }

  /** A full IANA answer decides the result alone, and its fields are the ones listed. */
  lemma IanaAnswerDecides(asn: int, iana: map<string, Value>, ripe1: map<string, Value>, ripe2: map<string, Value>)
    requires |iana| >= 3 && "organisation" in iana && iana["organisation"].Object?
    ensures LookupFields(asn, iana, ripe1) == LookupFields(asn, iana, ripe2)
    ensures LookupFields(asn, iana, ripe1) == Ok(Fields(asn, "iana", Get(iana, "ASName"),
      Get(iana["organisation"].fields, "OrgName"), Get(iana, "RegDate"), Get(iana, "Updated")))
  {
  }

  /** A RIPE answer with stamps "date time" gives name `descr`, an empty description and the two dates. */
  lemma RipeAnswerFields(asn: int, iana: map<string, Value>, ripe: map<string, Value>,
                         first: string, firstTime: string, last: string, lastTime: string)
    requires |iana| < 3 && |ripe| != 1
    requires ' ' !in first && ' ' !in last
    requires Get(ripe, "lastupd-frst") == Some(Text(first + " " + firstTime))
    requires Get(ripe, "lastupd-last") == Some(Text(last + " " + lastTime))
    ensures LookupFields(asn, iana, ripe) ==
      Ok(Fields(asn, "ripe", Get(ripe, "descr"), Some(Text("")), Some(Text(first)), Some(Text(last))))
  {
    FirstWordOfStamp(first, firstTime);
    FirstWordOfStamp(last, lastTime);
  }

  // ---------------------------------------------------------------------------
  // Records and the range filter

  datatype AsnRecord = AsnRecord(
    id: nat,
    asn: Option<int>,
    source: Option<string>,
    name: Option<Value>,
    description: Option<Value>,
    created: Option<Value>,
    updated: Option<Value>,
    rangeLow: Option<int>,
    rangeHigh: Option<int>)

  /** The record `createEntity({ ...res })` stores: the returned fields, and no range, which `lookup` never supplies. */
  function FromFields(id: nat, f: Fields): (a: AsnRecord)
    ensures a.id == id && a.rangeLow == None && a.rangeHigh == None
    ensures f.Fields? ==>
      && a.asn == Some(f.asn) && a.source == Some(f.source) && a.name == f.name
      && a.description == f.description && a.created == f.created && a.updated == f.updated
    ensures f.Empty? ==> a == AsnRecord(id, None, None, None, None, None, None, None, None)
  {
    match f
    case Empty => AsnRecord(id, None, None, None, None, None, None, None, None)
    case Fields(asn, source, name, description, created, updated) =>
      AsnRecord(id, Some(asn), Some(source), name, description, created, updated, None, None)
  }

  /** The query `rangeHigh >= x` and `rangeLow <= x`; a record without a bound matches neither comparison. */
  predicate Covers(a: AsnRecord, x: int)
  {
    a.rangeLow.Some? && a.rangeHigh.Some? && a.rangeLow.value <= x <= a.rangeHigh.value
  }

  /** The records covering `x`, in store order. */
  function InRange(records: seq<AsnRecord>, x: int): (r: seq<AsnRecord>)
    ensures |r| <= |records|
    ensures forall a :: a in r <==> a in records && Covers(a, x)
  {
    if records == [] then []
    else
      var rest := InRange(records[1..], x);
      assert forall a :: a in records <==> a == records[0] || a in records[1..];
      if Covers(records[0], x) then [records[0]] + rest else rest
  }

  /** Records that carry no range, such as every record `lookup` creates, are never listed. */
  lemma {:induction false} InRangeWithoutBounds(records: seq<AsnRecord>, x: int)
    requires forall k :: 0 <= k < |records| ==> records[k].rangeLow.None?
    ensures InRange(records, x) == []
  {
    if records != [] {
      InRangeWithoutBounds(records[1..], x);
    }
  }

  // ---------------------------------------------------------------------------
  // The store

  /** `findEntity({ query: { asn } })`: the first record with that number. */
  function FindByAsn(records: seq<AsnRecord>, asn: int): (r: Option<nat>)
    ensures r.Some? ==> r.value < |records| && records[r.value].asn == Some(asn)
    ensures r.Some? ==> forall j :: 0 <= j < r.value ==> records[j].asn != Some(asn)
    ensures r.None? <==> forall j :: 0 <= j < |records| ==> records[j].asn != Some(asn)
  {
    if records == [] then None
    else if records[0].asn == Some(asn) then Some(0)
    else match FindByAsn(records[1..], asn)
      case None => None
      case Some(k) => Some(k + 1)
  }

  /** The `create` parameter after validation: `true` when absent. */
  function CreateFlag(create: Option<bool>): (c: bool)
    ensures !c <==> create == Some(false)
  {
    if create.Some? then create.value else true
  }

  class AsnStore {
    var records: seq<AsnRecord>
    /** The identity the store gives the next record it creates. */
    var nextId: nat
    /** The whois queries made by lookups, in order. */
    ghost var whoisQueries: seq<Query>

    ghost predicate Valid()
      reads this
    {
      && (forall k :: 0 <= k < |records| ==> records[k].id < nextId)
      && (forall j, k :: 0 <= j < k < |records| ==> records[j].id != records[k].id)
    }

    constructor ()
      ensures Valid() && records == [] && whoisQueries == []
    {
      records := [];
      nextId := 0;
      whoisQueries := [];
    }

    /**
     * The `lookup` action: the stored record for `asn`; on a miss with `create`
     * (true by default), the record made from the whois answers.
     */
    method Lookup(asn: int, create: Option<bool>, iana: map<string, Value>, ripe: map<string, Value>)
      returns (r: Result<Option<AsnRecord>>)
      requires Valid()
      modifies this
      ensures Valid()
      ensures FindByAsn(old(records), asn).Some? ==>
        && r == Ok(Some(old(records)[FindByAsn(old(records), asn).value]))
        && records == old(records) && nextId == old(nextId) && whoisQueries == old(whoisQueries)
      ensures FindByAsn(old(records), asn).None? && !CreateFlag(create) ==>
        r == Ok(None) && records == old(records) && nextId == old(nextId) && whoisQueries == old(whoisQueries)
      ensures FindByAsn(old(records), asn).None? && CreateFlag(create) ==>
        && whoisQueries == old(whoisQueries) + LookupQueries(asn, iana)
        && match LookupFields(asn, iana, ripe)
           case Threw(e) => r == Threw(e) && records == old(records) && nextId == old(nextId)
           case Ok(f) =>
             && r == Ok(Some(FromFields(old(nextId), f)))
             && records == old(records) + [FromFields(old(nextId), f)] && nextId == old(nextId) + 1
    {
      var found := FindByAsn(records, asn);
      if found.Some? {
        return Ok(Some(records[found.value]));
      }
      if !CreateFlag(create) {
        return Ok(None);
      }
      whoisQueries := whoisQueries + LookupQueries(asn, iana);
      var res := LookupFields(asn, iana, ripe);
      if res.Threw? {
        return Threw(res.error);
      }
      var a := FromFields(nextId, res.value);
      records := records + [a];
      nextId := nextId + 1;
      r := Ok(Some(a));
    }

    /** The `range` action: the records whose range contains the address. */
    function Range(ip: string): (r: seq<AsnRecord>)
      requires Codec.IsDottedQuad(ip)
      reads this
      ensures forall a :: a in r <==> a in records && Covers(a, Codec.Ip2Int(ip))
    {
      InRange(records, Codec.Ip2Int(ip))
    }
  }
}
