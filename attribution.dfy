/**
 * Attribution of a client address: the `noc.hosts` lookup of an address it has
 * not seen asks the `noc.networks` lookup (twice when the first answer is
 * empty) for the network to link the new host to. The hosts lookup takes the
 * networks answers as inputs; here they are produced by the networks store
 * itself, once as the two services are written and once as corrected.
 *
 * The networks calls are made before the hosts lookup runs rather than in the
 * middle of it: the hosts lookup does not touch the networks store, so the
 * resulting states are the same.
 */
module Attribution {
  import opened Js
  import opened Text
  import Codec
  import NocNetworks
  import NocHosts

  /** What the hosts service sees of a networks lookup: the network's identity, nothing, or the rejection. */
  function NetworkAnswer(r: Result<Option<NocNetworks.Network>>): (a: Result<Option<nat>>)
    ensures r.Threw? <==> a.Threw?
    ensures r.Ok? && r.value.None? <==> a == Ok(None)
    ensures r.Ok? && r.value.Some? ==> a == Ok(Some(r.value.value.id))
  {
    match r
    case Threw(e) => Threw(e)
    case Ok(None) => Ok(None)
    case Ok(Some(n)) => Ok(Some(n.id))
  }

  /** What the hosts service sees of the `lookup` action as written: `undefined`, or the rejection. */
  function ActionAnswer(r: Result<()>): (a: Result<Option<nat>>)
    ensures r.Threw? <==> a.Threw?
    ensures r.Ok? ==> a == Ok(None)
  {
    match r
    case Threw(e) => Threw(e)
    case Ok(_) => Ok(None)
  }

  /**
   * The two services as written. The networks action never hands back the
   * network, so a new address never gets a host, even when a stored network
   * contains it; and when the networks action rejects, the hosts lookup
   * rejects with its lock still held.
   */
  method ResolveHostAsWritten(ip: string, hosts: NocHosts.HostStore, networks: NocNetworks.NetworkStore,
                              registry1: Option<map<string, Value>>, registry2: Option<map<string, Value>>,
                              reverse: Result<seq<string>>, now: int) returns (r: Result<Option<NocHosts.Host>>)
    requires hosts.Valid() && networks.Valid() && Codec.IsDottedQuad(ip)
    requires NocNetworks.AnswerHasUsableRange(registry1) && NocNetworks.AnswerHasUsableRange(registry2)
    requires NocHosts.LookupKey !in hosts.lock.held
    modifies hosts, hosts.lock, networks
    ensures hosts.Valid() && networks.Valid()
    ensures NocHosts.FindByIp(old(hosts.records), ip).None? ==>
      && hosts.records == old(hosts.records) && hosts.nextId == old(hosts.nextId)
      && (r.Ok? ==> r == Ok(None))
      && (r.Threw? ==> hosts.lock.held == old(hosts.lock.held) + {NocHosts.LookupKey})
    ensures NocHosts.FindByIp(old(hosts.records), ip).None? && old(networks.LookupIp(ip)).Some? ==>
      r == Ok(None) && hosts.records == old(hosts.records)
    ensures NocHosts.FindByIp(old(hosts.records), ip).None? && old(networks.LookupIp(ip)).None?
            && registry1.Some? && NocNetworks.RangeBounds(Get(registry1.value, "range")).Threw? ==>
      r.Threw? && hosts.lock.held == old(hosts.lock.held) + {NocHosts.LookupKey}
  {
    if NocHosts.FindByIp(hosts.records, ip).Some? {
      r := hosts.LookupAction(ip, Ok(None), Ok(None), reverse, now);
      return;
    }
    var answer1, answer2 := AskNetworksAsWritten(ip, networks, registry1, registry2);
    r := hosts.LookupAction(ip, answer1, answer2, reverse, now);
  }

  /** The networks calls of the hosts lookup, to the `lookup` action as written: never a network identity. */
  method AskNetworksAsWritten(ip: string, networks: NocNetworks.NetworkStore,
                              registry1: Option<map<string, Value>>, registry2: Option<map<string, Value>>)
    returns (answer1: Result<Option<nat>>, answer2: Result<Option<nat>>)
    requires networks.Valid() && Codec.IsDottedQuad(ip)
    requires NocNetworks.AnswerHasUsableRange(registry1) && NocNetworks.AnswerHasUsableRange(registry2)
    modifies networks
    ensures networks.Valid()
    ensures NocHosts.ChosenNetwork(answer1, answer2) == Ok(None) || NocHosts.ChosenNetwork(answer1, answer2).Threw?
    ensures answer1.Ok? ==> answer1 == Ok(None)
    ensures old(networks.LookupIp(ip)).Some? ==> answer1 == Ok(None) && answer2 == Ok(None)
    ensures old(networks.LookupIp(ip)).None? && registry1.Some?
            && NocNetworks.RangeBounds(Get(registry1.value, "range")).Threw? ==>
      answer1.Threw?
  {
    var first := networks.LookupAction(ip, None, registry1);
    answer1 := ActionAnswer(first);
    answer2 := Ok(None);
    if answer1 == Ok(None) {
      var second := networks.LookupAction(ip, None, registry2);
      answer2 := ActionAnswer(second);
    }
  }

  /**
   * The two services as corrected: the networks lookup returns the network it
   * found or created, and the hosts lookup releases its lock on every path. A
   * new address inside a stored network gets a host linked to that network; a
   * new address the registry places in a new network gets a host linked to it.
   */
  method ResolveHost(ip: string, hosts: NocHosts.HostStore, networks: NocNetworks.NetworkStore,
                     registry1: Option<map<string, Value>>, registry2: Option<map<string, Value>>,
                     reverse: Result<seq<string>>, now: int) returns (r: Result<Option<NocHosts.Host>>)
    requires hosts.Valid() && networks.Valid() && Codec.IsDottedQuad(ip)
    requires NocNetworks.AnswerHasUsableRange(registry1) && NocNetworks.AnswerHasUsableRange(registry2)
    requires NocHosts.LookupKey !in hosts.lock.held
    modifies hosts, hosts.lock, networks
    ensures hosts.Valid() && networks.Valid()
    ensures hosts.lock.held == old(hosts.lock.held)
    ensures NocHosts.FindByIp(old(hosts.records), ip).None? && old(networks.LookupIp(ip)).Some? ==>
      && r.Ok? && r.value.Some?
      && r.value.value.network == old(networks.LookupIp(ip)).value.id
      && r.value.value.ip == ip && r.value.value.hits == 1
      && hosts.records == old(hosts.records) + [r.value.value]
    ensures NocHosts.FindByIp(old(hosts.records), ip).None? && old(networks.LookupIp(ip)).None?
            && registry1.Some? && NocNetworks.RangeBounds(Get(registry1.value, "range")).Ok? ==>
      && r.Ok? && r.value.Some?
      && r.value.value.network == old(networks.nextId)
      && |networks.records| > |old(networks.records)|
      && networks.records[|old(networks.records)|].id == old(networks.nextId)
      && hosts.records == old(hosts.records) + [r.value.value]
  {
    if NocHosts.FindByIp(hosts.records, ip).Some? {
      r := hosts.Lookup(ip, Ok(None), Ok(None), reverse, now);
      return;
    }
    var answer1, answer2 := AskNetworks(ip, networks, registry1, registry2);
    r := hosts.Lookup(ip, answer1, answer2, reverse, now);
  }

  /**
   * The networks calls of the hosts lookup, to the corrected lookup: the stored
   * network containing the address, or the one created from the registry.
   */
  method AskNetworks(ip: string, networks: NocNetworks.NetworkStore,
                     registry1: Option<map<string, Value>>, registry2: Option<map<string, Value>>)
    returns (answer1: Result<Option<nat>>, answer2: Result<Option<nat>>)
    requires networks.Valid() && Codec.IsDottedQuad(ip)
    requires NocNetworks.AnswerHasUsableRange(registry1) && NocNetworks.AnswerHasUsableRange(registry2)
    modifies networks
    ensures networks.Valid()
    ensures old(networks.LookupIp(ip)).Some? ==>
      NocHosts.ChosenNetwork(answer1, answer2) == Ok(Some(old(networks.LookupIp(ip)).value.id))
    ensures old(networks.LookupIp(ip)).None? && registry1.Some?
            && NocNetworks.RangeBounds(Get(registry1.value, "range")).Ok? ==>
      && NocHosts.ChosenNetwork(answer1, answer2) == Ok(Some(old(networks.nextId)))
      && |networks.records| > |old(networks.records)|
      && networks.records[|old(networks.records)|].id == old(networks.nextId)
  {
    var first := networks.Lookup(ip, None, registry1);
    answer1 := NetworkAnswer(first);
    answer2 := Ok(None);
    if answer1 == Ok(None) {
      var second := networks.Lookup(ip, None, registry2);
      answer2 := NetworkAnswer(second);
    }
  }

  /** A registry range given in CIDR form has no '-', so the networks lookup rejects it. */
  lemma CidrRangeIsRejected()
    ensures NocNetworks.RangeBounds(Some(Text("10.0.0.0/8"))).Threw?
  {
    var s := "10.0.0.0/8";
    CharAbsent(s, "", '-');
    assert s + "" == s;
    SplitWithoutMatch(s, "-");
  }
}
