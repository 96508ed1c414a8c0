/**
 * The `asns` service: autonomous-system records keyed by `number`. `lookup`
 * returns the stored record, or asks whois and creates one from its
 * `ASNumber`, `ASName` and `organisation.OrgName`.
 *
 * The whois answer is an input, as the object the query resolves to.
 */
module Asns {
  import opened Js

  datatype Asn = Asn(
    id: nat,
    number: Value,
    name: Option<Value>,
    description: Option<Value>,
    organization: Option<Value>)

  /** `findEntity({ query: { number } })`: the first record with that number. */
  function FindByNumber(records: seq<Asn>, number: int): (r: Option<nat>)
    ensures r.Some? ==> r.value < |records| && records[r.value].number == Num(number)
    ensures r.Some? ==> forall j :: 0 <= j < r.value ==> records[j].number != Num(number)
    ensures r.None? <==> forall j :: 0 <= j < |records| ==> records[j].number != Num(number)
  {
    if records == [] then None
    else if records[0].number == Num(number) then Some(0)
    else match FindByNumber(records[1..], number)
      case None => None
      case Some(k) => Some(k + 1)
  }

  /**
   * The record a whois answer yields: none when `ASNumber` is missing or falsy,
   * a TypeError when `organisation` is missing, and otherwise the record with
   * `ASName` as both name and description.
   */
  function FromAnswer(id: nat, answer: map<string, Value>): (r: Result<Option<Asn>>)
    ensures r == Ok(None) <==> !Truthy(Get(answer, "ASNumber"))
    ensures r.Threw? <==> Truthy(Get(answer, "ASNumber")) && "organisation" !in answer
    ensures r.Ok? && r.value.Some? ==>
      && r.value.value.id == id
      && Some(r.value.value.number) == Get(answer, "ASNumber")
      && r.value.value.name == Get(answer, "ASName")
      && r.value.value.description == r.value.value.name
      && (answer["organisation"].Object? ==> r.value.value.organization == Get(answer["organisation"].fields, "OrgName"))
  {
    var number := Get(answer, "ASNumber");
    if !Truthy(number) then Ok(None)
    else match Member(Get(answer, "organisation"), "OrgName")
      case Threw(e) => Threw(e)
      case Ok(orgName) =>
        var name := Get(answer, "ASName");
        Ok(Some(Asn(id, number.value, name, name, orgName)))
  }

  class AsnStore {
    var records: seq<Asn>
    /** The identity the store gives the next record it creates. */
    var nextId: nat
    /** The numbers asked of whois, in order. */
    ghost var whoisQueries: seq<int>

    ghost predicate Valid()
      reads this
    {
      && (forall k :: 0 <= k < |records| ==> records[k].id < nextId)
      && (forall j, k :: 0 <= j < k < |records| ==> records[j].id != records[k].id)
    }

    constructor ()
      ensures Valid() && records == [] && whoisQueries == []
    {
      records := [];
      nextId := 0;
      whoisQueries := [];
    }

    /** `getASN(number)`: a stored record with that number, or nothing when none has it. */
    function GetAsn(number: int): (r: Option<Asn>)
      reads this
      ensures r.Some? ==> r.value in records && r.value.number == Num(number)
      ensures r.None? <==> forall a :: a in records ==> a.number != Num(number)
    {
      match FindByNumber(records, number)
      case None => None
      case Some(k) => Some(records[k])
    }

    /**
     * The `lookup` method: a stored record is returned without asking whois;
     * otherwise whois is asked and the record it yields, if any, is created.
     */
    method Lookup(number: int, answer: map<string, Value>) returns (r: Result<Option<Asn>>)
      requires Valid()
      modifies this
      ensures Valid()
      ensures old(GetAsn(number)).Some? ==>
        r == Ok(old(GetAsn(number))) && records == old(records) && nextId == old(nextId)
        && whoisQueries == old(whoisQueries)
      ensures old(GetAsn(number)).None? ==>
        && whoisQueries == old(whoisQueries) + [number]
        && r == FromAnswer(old(nextId), answer)
        && (r.Ok? && r.value.Some? ==> records == old(records) + [r.value.value] && nextId == old(nextId) + 1)
        && (r.Threw? || r.value.None? ==> records == old(records) && nextId == old(nextId))
    {
      var found := GetAsn(number);
      if found.Some? {
        return Ok(found);
      }
      whoisQueries := whoisQueries + [number];
      r := FromAnswer(nextId, answer);
      if r.Ok? && r.value.Some? {
        records := records + [r.value.value];
        nextId := nextId + 1;
      }
    }

    /** The `lookup` action: whatever the `lookup` method returns. */
    method LookupAction(number: int, answer: map<string, Value>) returns (r: Result<Option<Asn>>)
      requires Valid()
      modifies this
      ensures Valid()
      ensures old(GetAsn(number)).Some? ==>
        r == Ok(old(GetAsn(number))) && records == old(records) && nextId == old(nextId)
        && whoisQueries == old(whoisQueries)
      ensures old(GetAsn(number)).None? ==>
        && whoisQueries == old(whoisQueries) + [number]
        && r == FromAnswer(old(nextId), answer)
        && (r.Ok? && r.value.Some? ==> records == old(records) + [r.value.value] && nextId == old(nextId) + 1)
        && (r.Threw? || r.value.None? ==> records == old(records) && nextId == old(nextId))
    {
      r := Lookup(number, answer);
    }
  }

  /** A number that is stored is found again by `getASN`, with no whois query: a second lookup of a created record is a hit. */
  lemma {:induction false} CreatedRecordIsFound(records: seq<Asn>, a: Asn, number: int)
    requires forall j :: 0 <= j < |records| ==> records[j].number != Num(number)
    requires a.number == Num(number)
    ensures FindByNumber(records + [a], number) == Some(|records|)
  {
    var all := records + [a];
    if records != [] {
      assert all[1..] == records[1..] + [a];
      CreatedRecordIsFound(records[1..], a, number);
    }
  }
}
