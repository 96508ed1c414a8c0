# NOC attribution bookkeeping, in Dafny

This project models the IPv4 attribution bookkeeping of the PaaS-Shack `noc`
services: how a client address is turned into a host record, linked to the
network block that contains it, scored, and reported.

- **Codec** (`codec.dfy`). `ip2int` and `int2ip` appear three times in the
  services, character for character identical. They are modelled once. The
  JavaScript operators (`<<` on int32, `>>>`, `>>`, `&`) are written out on
  unbounded integers. The proofs show that the int32 wrap-around in the
  `reduce` fold never loses an octet of a dotted quad, and that the two
  functions are inverse.
- **Networks** (`noc_networks.dfy`, service `noc.networks`). A store of
  network blocks with:
  - the inclusive range query (`lookup(ip)`);
  - the find-or-create `lookup` action, which asks the registry on a miss;
  - `resolveNetwork`'s field mapping;
  - the `rangeLow`/`rangeHigh` setters;
  - the `noc.http` event, which wraps a lookup in a per-address lock key.
- **Hosts** (`noc_hosts.dfy`, service `noc.hosts`). The `lookup` action runs
  under the service lock. It counts a hit on a known address. On a new address
  it asks the networks service (twice if the first answer is empty) and reverse
  DNS, then creates the host. The `score` action adds a delta.
- **Two ASN services.**
  - `noc_asns.dfy` (`noc.asns.service.js`) is keyed by `asn`. It asks IANA,
    falls back to RIPE when the first answer is thin, and its `range` action
    filters by address range.
  - `asns.dfy` (`asns.service.js`) is keyed by `number`.

  Both files register the same service name; they are kept as separate models.
- **The `noc` service** (`noc.dfy`).
  - `noc.http` caches one verdict per virtual host (score 0 with a route, -1
    without), penalises the client's host by a negative verdict, and reports an
    incident while the host's score is between -10 and 0.
  - The `ip` action parses the whois `range` text (split on `' - '`) and the
    `asn` list (split on `','`, trimmed, `'AS'` removed, read as a number).
- **Attribution** (`attribution.dfy`) runs a hosts lookup against the networks
  store. It does this once with the services as written and once as corrected
  (see Findings).

Support modules model the JavaScript semantics the services rely on:

- `js.dfy`: values, `undefined`, truthiness, `a || b`, and property reads that
  throw a TypeError;
- `text.dfy`: `split` with a non-empty separator, `join`, `trim` with the
  ECMAScript white-space set, and `replace` with a string pattern;
- `decimal.dfy`: decimal digit strings, as `parseInt`/`Number` read them and as
  number-to-string concatenation prints them;
- `locks.dfy`: a keyed lock that records which keys are held.

Stores are classes holding a `seq` of records in insertion order and the next
identity to hand out. `findEntity` is the first record that matches. Each
state-changing method is specified by a function of the old state
(`AfterLookup`, `AfterScore`). The lemmas beside that function state what the
source promises.

External answers are inputs to the methods and are never fetched:

- the registry answer (`v1.utils.network.ip`);
- the whois answers;
- the route resolver's answer;
- reverse DNS;
- the outcome of `ctx.call`.

A rejected call is the `Threw` case of `Result`. Ghost logs record which
external queries a method makes, so that "asks nobody" can be stated.

## Model

| member | source | states |
|---|---|---|
| Codec.Ip2Int | services/noc.hosts.service.js:379-381 | `ip2int` of a dotted quad ends in [0, 2^32), because of the final `>>> 0` |
| Codec.Ip2IntIsBigEndian | services/noc.hosts.service.js:379-381 | `ip2int(o0.o1.o2.o3)` is exactly o0·2^24 + o1·2^16 + o2·2^8 + o3: the int32 wrap-around of `<<` loses nothing |
| Codec.Fold | services/noc.networks.service.js:274-276 | the `reduce` of `ip2int`: each step shifts the signed 32-bit accumulator left by 8 and adds the octet; Codec.FoldCongruent and Codec.FoldOfFour state what it computes |
| Codec.FoldCongruent | services/noc.networks.service.js:274-276 | for any octets, the fold `(ipInt << 8) + octet` from 0 differs from their big-endian value by a multiple of 2^32 |
| Codec.FoldModulo | services/noc.networks.service.js:274-276 | hence `>>> 0` of the fold is the big-endian value modulo 2^32 |
| Codec.FoldOfFour | services/noc.asns.service.js:277-279 | for four octets in [0, 255], `>>> 0` of the fold is their big-endian value |
| Codec.BigEndianFour | services/noc.hosts.service.js:379-381 | four octets make o0·2^24 + o1·2^16 + o2·2^8 + o3, a value in [0, 2^32) |
| Codec.Octets | services/noc.hosts.service.js:380 | `parseInt(part, 10)` of the four parts of a dotted quad, each in [0, 255] |
| Codec.ToInt32Congruent | services/noc.hosts.service.js:380 | the int32 conversion behind `<<` changes its operand by a multiple of 2^32 |
| Codec.ShiftsExtractBytes | services/noc.hosts.service.js:382-384 | `x >>> 24`, `x >> 16 & 255`, `x >> 8 & 255` and `x & 255` are the four bytes of x for every x in [0, 2^32) |
| Codec.Shift16LowByte | services/noc.networks.service.js:285-287 | `x >> 16 & 255` is the second byte, also when x reads as a negative int32 |
| Codec.Shift8LowByte | services/noc.networks.service.js:285-287 | `x >> 8 & 255` is the third byte, also when x reads as a negative int32 |
| Codec.UnshiftedLowByte | services/noc.networks.service.js:285-287 | `x & 255` is the low byte, also when x reads as a negative int32 |
| Codec.BytesRecombine | services/noc.asns.service.js:280-282 | the four bytes of x are each below 256 and recombine to x |
| Codec.BytesOfOctets | services/noc.asns.service.js:277-282 | the bytes of the big-endian value of four octets are those octets |
| Codec.Int2Ip | services/noc.hosts.service.js:382-384 | `int2ip(x)` is a dotted quad without leading zeros whose octets are the bytes of x |
| Codec.PrintedQuad | services/noc.hosts.service.js:383 | four octets printed and joined with '.' form a canonical quad that reads back as those octets |
| Codec.Ip2IntOfInt2Ip | services/noc.hosts.service.js:379-384 | round trip: `ip2int(int2ip(x)) == x` for every x in [0, 2^32) |
| Codec.Int2IpOfIp2Int | services/noc.networks.service.js:274-287 | round trip: `int2ip(ip2int(s)) == s` for every dotted quad written without leading zeros |
| Codec.Int2IpKeepsOctets | services/noc.asns.service.js:277-282 | for any dotted quad, `int2ip(ip2int(s))` has the same four octets (leading zeros dropped) |
| Codec.Ip2IntInjective | services/noc.hosts.service.js:379-381 | two canonical quads with the same `ip2int` are the same text |
| Decimal.Show | services/noc.hosts.service.js:383 | a number concatenated into a string prints as digits without a leading zero |
| Decimal.ValueOf | services/noc.hosts.service.js:380 | `parseInt(octet, 10)` of a digit string, most significant digit first; Decimal.ValueOfShow and Decimal.ShowValueOf are its inverse laws |
| Decimal.ValueOfZero | services/noc.hosts.service.js:380 | a digit string is worth 0 exactly when every digit is `0` |
| Decimal.ValueOfShow | services/noc.hosts.service.js:383 | reading a printed octet back gives the number |
| Decimal.ShowValueOf | services/noc.hosts.service.js:380 | printing the value of a canonical digit string gives the string back |
| Decimal.CanonicalUnique | services/noc.hosts.service.js:380 | two canonical digit strings with the same value are equal |
| Decimal.ValueOfLeadingDigit | services/noc.hosts.service.js:380 | a digit string without a leading zero is worth at least 1, and at least 10 when it has two digits |
| Text.Split | services/noc.service.js:63-64 | `String.prototype.split` with a non-empty separator always yields at least one part (Text.JoinSplit, Text.SplitAtFirstMatch and Text.SplitWithoutMatch give the parts) |
| Text.JoinSplit | services/noc.hosts.service.js:380 | joining the parts of `s.split(sep)` with `sep` gives `s` back |
| Text.SplitWithoutMatch | services/noc.networks.service.js:172-173 | a text in which the separator never occurs splits into itself alone, so `[1]` is `undefined` |
| Text.SplitAtFirstMatch | services/noc.service.js:63-64 | `a + sep + b` with no match inside `a` splits into `a` followed by the parts of `b` |
| Text.SplitJoin | services/noc.service.js:66 | parts free of a one-character separator, joined with it and split again, come back unchanged |
| Text.Trim | services/noc.networks.service.js:172-173 | `trim()` leaves no white space at either end and never lengthens the text |
| Text.TrimIsSlice | services/noc.networks.service.js:172-173 | what `trim()` keeps is a contiguous slice of the text, and every character it removes is white space |
| Text.TrimPaddedStart | services/noc.networks.service.js:173 | a white-space character before a text is trimmed away with the rest |
| Text.TrimPaddedEnd | services/noc.networks.service.js:172 | a white-space character after a text is trimmed away with the rest |
| Text.TrimNoOp | services/noc.service.js:66 | trimming a text that neither starts nor ends with white space changes nothing |
| Text.RemoveFirst | services/noc.service.js:71 | `replace('AS', '')` changes nothing when the pattern does not occur |
| Text.RemoveFirstMatch | services/noc.service.js:71 | `replace('AS', '')` removes exactly the leftmost occurrence and keeps the text before and after it |
| Js.Member | services/asns.service.js:239 | reading a property of `undefined` throws a TypeError; reading one of an object gives its field |
| NocNetworks.RangeBound | services/noc.networks.service.js:85-98 | the `rangeLow`/`rangeHigh` setter yields a value exactly when the address text is non-empty, and that value is a 32-bit integer |
| NocNetworks.RangeBoundPrintsBack | services/noc.networks.service.js:85-98 | a stored bound prints back as the octets of the text it was set from |
| NocNetworks.FirstContaining | services/noc.networks.service.js:256-266 | the first stored record whose inclusive range holds x; nothing exactly when no record holds it |
| NocNetworks.Containing | services/noc.networks.service.js:256-266 | `lookup(ip)` returns a stored record with `rangeLow <= ip2int(ip) <= rangeHigh`, or nothing exactly when none has one |
| NocNetworks.NetworkStore.LookupIp | services/noc.networks.service.js:256-266 | the same query on the store's current records |
| NocNetworks.Contains | services/noc.networks.service.js:155-161 | the containment query: a record with both bounds set whose inclusive range holds the address (as a Codec value); NocNetworks.ContainsIsClosed states the inclusive ends |
| NocNetworks.ContainsIsClosed | services/noc.networks.service.js:158-159 | both bounds are inclusive: a record contains its own low and high address and nothing just outside them |
| NocNetworks.ResolveNetwork | services/noc.networks.service.js:232-248 | null exactly when the registry answers nothing; otherwise the address, the range, `netname` falling back to `NetName` when `netname` is falsy, and `descr`, `org`, `status`, `route` and `asn` as description, organisation, status, route and asn |
| NocNetworks.RangeBounds | services/noc.networks.service.js:172-173 | the trimmed parts before and after the first '-'; a missing or non-text range, or one without '-', throws |
| NocNetworks.RangeBoundsOfRegistryText | services/noc.networks.service.js:172-173 | a registry range `"A - B"` yields `(trim(A), trim(B))` |
| NocNetworks.AnswerBounds | services/noc.networks.service.js:165-173 | nothing without a registry answer, else what `RangeBounds` makes of its range |
| NocNetworks.SourceParam | services/noc.networks.service.js:149 | the `source` parameter defaults to `'whois'` |
| NocNetworks.NewNetwork | services/noc.networks.service.js:174-180 | the created record carries the resolved name and description, the source, both address texts, and the setters' values |
| NocNetworks.CreatedFromRegistryRange | services/noc.networks.service.js:149-180 | for `"A - B"` the new record has `rangeLowIP = trim(A)`, `rangeHighIP = trim(B)`, both `ip2int`s as bounds and the requested source |
| NocNetworks.AfterLookup | services/noc.networks.service.js:151-185 | the action either leaves the store alone or appends exactly the returned record under the next identity; a containing network is returned with the store unchanged |
| NocNetworks.LookupQueries | services/noc.networks.service.js:155-165 | the registry is asked exactly when no stored network contains the address |
| NocNetworks.LookupWithoutAnswer | services/noc.networks.service.js:165-169 | with no containing network and no registry answer, the store is unchanged and nothing is returned |
| NocNetworks.LookupCreatesFromRegistryRange | services/noc.networks.service.js:164-181 | a miss answered with `"A - B"` creates exactly one record, with the trimmed texts, their integer values, the source and the next identity |
| NocNetworks.AppendKeepsWellFormed | services/noc.networks.service.js:174-180 | appending a record whose setters were applied, under the next identity, keeps identities distinct and bounds consistent |
| NocNetworks.LookupKeepsWellFormed | services/noc.networks.service.js:151-185 | every lookup keeps the store well formed |
| NocNetworks.Undefined | services/noc.networks.service.js:167-185 | a caller of the action receives `undefined`, or the rejection |
| NocNetworks.NetworkStore.Lookup | services/noc.networks.service.js:151-182 | find-or-create, with the network it found or created handed back; new state, result and registry queries as `AfterLookup`/`LookupQueries` say |
| NocNetworks.NetworkStore.LookupAction | services/noc.networks.service.js:151-185 | the action as written: the same store change, but the caller only ever receives `undefined` or the rejection |
| NocNetworks.NetworkStore.AskRegistry | services/noc.networks.service.js:163-181 | when no stored network contains the address: the registry is asked once, and the store and result are those of `AfterLookup` (nothing without an answer, the rejection of an unusable range, otherwise a new record under the next identity); the store stays well formed |
| NocNetworks.NetworkStore.CreateEntity | services/noc.networks.service.js:174-180 | `createEntity` appends the record under the next identity and keeps the store well formed |
| NocNetworks.LookupKey | services/noc.networks.service.js:209-215 | the lock key `noc.networks.lookup.<ip>`; the address is its suffix after the 20-character prefix, so two different addresses never share a key |
| NocNetworks.NetworkStore.NocHttp | services/noc.networks.service.js:206-217 | the per-address key, free beforehand, is acquired before the lookup and released after it whether the lookup succeeded or was rejected; the store changes as the lookup says |
| NocHosts.FindByIp | services/noc.hosts.service.js:190-194 | the first host stored under the address, and nothing exactly when none is |
| NocHosts.FindById | services/noc.hosts.service.js:253-255 | the position of the first host with that identity, and nothing exactly when none has it |
| NocHosts.Hostname | services/noc.hosts.service.js:210-219 | the first reverse-DNS name, `''` when the reverse lookup rejected, and `undefined` when it answered an empty list |
| NocHosts.NewHost | services/noc.hosts.service.js:71-238 | a new host has the address, the network, the hostname, one hit, score 0, and `ipInt = ip2int(ip)` |
| NocHosts.NewHostPrintsBack | services/noc.hosts.service.js:71-77 | a new host's `ipInt` is a 32-bit value that `int2ip` prints back as the host's octets |
| NocHosts.Hit | services/noc.hosts.service.js:196-200 | a hit adds exactly one to `hits`, stamps `updatedAt`, and changes nothing else |
| NocHosts.ChosenNetwork | services/noc.hosts.service.js:206-225 | the network `lookup` settles on: the first answer wins when present; a rejection of the first call escapes, and so does one of the second call, which is consulted only when the first found nothing, and nothing is found only when both found nothing |
| NocHosts.LookupCalls | services/noc.hosts.service.js:185-242 | the service calls `lookup` makes: none for a known address, otherwise the networks lookup first, the reverse lookup exactly when the first networks call resolves, and three calls exactly when that first call found nothing |
| NocHosts.AfterLookup | services/noc.hosts.service.js:185-242 | the store after `lookup`: a new host (and identity) is appended exactly when the address is unknown and a network is found, and then it is the returned host; otherwise the number of records and the next identity stay; the call throws exactly when the address is unknown and the networks lookup rejects |
| NocHosts.LookupOfKnownHost | services/noc.hosts.service.js:190-203 | a lookup on a stored address returns that host with exactly one more hit and the same score, changes no other record, and calls nobody |
| NocHosts.LookupOfNewHost | services/noc.hosts.service.js:206-238 | a lookup on a new address with a resolved network creates exactly one host, with the address, `ip2int(ip)`, the network, one hit and score 0 |
| NocHosts.LookupWithoutNetwork | services/noc.hosts.service.js:221-230 | when both networks answers are empty, no host is created and nothing is returned |
| NocHosts.LookupKeepsWellFormed | services/noc.hosts.service.js:185-242 | lookups keep identities distinct, one host per address, and every `ipInt` equal to `ip2int(ip)` |
| NocHosts.LookupResultIsStored | services/noc.hosts.service.js:185-242 | the host a lookup returns is the one stored under its identity afterwards |
| NocHosts.ReplaceKeepsWellFormed | services/noc.hosts.service.js:196-200 | replacing a host by one with the same identity and address keeps the store well formed |
| NocHosts.AppendKeepsWellFormed | services/noc.hosts.service.js:233-238 | appending a host under a fresh identity and a new address keeps the store well formed |
| NocHosts.AfterScore | services/noc.hosts.service.js:249-264 | `score` adds exactly the delta to that host's score and changes nothing else; an unknown identity changes nothing and returns nothing |
| NocHosts.ScoreKeepsWellFormed | services/noc.hosts.service.js:249-264 | scoring keeps the store well formed |
| NocHosts.HostStore.FindOrCreate | services/noc.hosts.service.js:190-238 | the handler between acquire and release: new state and result as `AfterLookup`, and the calls in the order made |
| NocHosts.HostStore.RecordHit | services/noc.hosts.service.js:196-200 | `updateEntity` with `$inc hits` on the found host |
| NocHosts.HostStore.CreateHost | services/noc.hosts.service.js:233-238 | `createEntity` appends the host under the next identity |
| NocHosts.HostStore.LookupAction | services/noc.hosts.service.js:185-242 | as written: every explicit return releases the lock taken at line 189, but a rejected networks call leaves it held |
| NocHosts.HostStore.Lookup | services/noc.hosts.service.js:185-242 | as corrected: the same store change, and the lock released on every path |
| NocHosts.HostStore.Score | services/noc.hosts.service.js:249-264 | the `score` action changes the store as `AfterScore` says |
| NocAsns.FirstWord | services/noc.asns.service.js:225-226 | `v && v.split(' ').shift()`: a falsy value is kept, a text gives its first word, and anything else throws |
| NocAsns.FirstWordOfStamp | services/noc.asns.service.js:225-226 | on a stamp `"date time"` the date is kept |
| NocAsns.FirstWordOfWord | services/noc.asns.service.js:225-226 | a text without a space is kept whole |
| NocAsns.IanaFields | services/noc.asns.service.js:229-236 | the IANA path, with source `'iana'` and the requested `asn`; a missing `organisation` throws |
| NocAsns.RipeFields | services/noc.asns.service.js:215-228 | the RIPE path, with source `'ripe'` and the requested `asn`; a non-text stamp throws |
| NocAsns.LookupFields | services/noc.asns.service.js:202-239 | `{}` exactly when IANA gave fewer than 3 keys and RIPE exactly 1; otherwise the source is `'iana'` iff IANA gave at least 3 keys, and `asn` is the requested number |
| NocAsns.LookupQueries | services/noc.asns.service.js:209-218 | IANA is always asked; RIPE is asked second exactly when the IANA answer has fewer than 3 keys |
| NocAsns.IanaAnswerDecides | services/noc.asns.service.js:214-234 | a full IANA answer decides the result alone: name `ASName`, description `organisation.OrgName` |
| NocAsns.RipeAnswerFields | services/noc.asns.service.js:214-228 | on the RIPE path: name `descr`, description `''`, and the dates before the first space of the two stamps |
| NocAsns.FromFields | services/noc.asns.service.js:156-158 | the record `createEntity({...res})` stores holds the returned fields and no range |
| NocAsns.InRange | services/noc.asns.service.js:165-180 | the records listed are exactly the stored ones whose `[rangeLow, rangeHigh]` contains the value |
| NocAsns.InRangeWithoutBounds | services/noc.asns.service.js:165-180 | records without a range, such as every record `lookup` creates, are never listed |
| NocAsns.CreateFlag | services/noc.asns.service.js:146-147 | the `create` parameter defaults to true: creation is off only when `false` is passed |
| NocAsns.FindByAsn | services/noc.asns.service.js:152 | the first record with that `asn`, and nothing exactly when none has it |
| NocAsns.AsnStore.Lookup | services/noc.asns.service.js:144-163 | a stored record is returned unchanged, with no whois query; with `create` false nothing happens; otherwise the queries are made and exactly one record is created from the fields (`create` defaults to true) |
| NocAsns.AsnStore.Range | services/noc.asns.service.js:165-181 | the `range` action lists exactly the stored records containing `ip2int(ip)` |
| Asns.FindByNumber | services/asns.service.js:197-207 | the first record whose `number` is n, and nothing exactly when none is |
| Asns.AsnStore.GetAsn | services/asns.service.js:197-207 | `getASN(n)` returns a stored record with number n, or nothing exactly when none has it |
| Asns.FromAnswer | services/asns.service.js:227-240 | null exactly when `ASNumber` is falsy; a TypeError exactly when `ASNumber` is set but `organisation` is missing; otherwise number `ASNumber`, name and description `ASName`, organization `OrgName` |
| Asns.AsnStore.Lookup | services/asns.service.js:217-244 | a stored record is returned with no whois query; otherwise one query, and at most one record created, as `FromAnswer` says |
| Asns.AsnStore.LookupAction | services/asns.service.js:169-175 | the action returns exactly what the `lookup` method returns |
| Asns.CreatedRecordIsFound | services/asns.service.js:219-240 | a created record is found by the next `getASN` of its number, so a second lookup is a hit |
| Noc.NewEntry | services/noc.service.js:128-132 | a cache miss inserts score 0 when the route is truthy and -1 otherwise, with the route and the virtual host |
| Noc.Penalised | services/noc.service.js:141-144 | a host is scored only when the virtual host's cached score is negative and the hosts lookup answered with a host; Noc.PenaltyIsOnePoint states what that penalty takes |
| Noc.PenaltyIsOnePoint | services/noc.service.js:144-148 | every cached score is 0 or -1, so a penalty happens only for a virtual host without a route and always takes one point |
| Noc.InsertKeepsCacheOk | services/noc.service.js:123-133 | inserting the entry for a new virtual host keeps every cached entry consistent |
| Noc.IncidentsFor | services/noc.service.js:149-157 | one incident report, for the host, the request metadata and source `'http'`, exactly when the new score is strictly between -10 and 0 |
| Noc.Penalties | services/noc.service.js:144-148 | `p` successive one-point penalties through `score` neither add nor remove hosts |
| Noc.PenaltyStep | services/noc.service.js:144-148 | one penalty takes exactly one point from the host found under the identity, which is still found at the same place |
| Noc.NextPenalty | services/noc.service.js:144-148 | the first of q + 1 one-point penalties leaves the host at the same place with one point fewer, and the remaining q penalties act on that store |
| Noc.PenaltiesKeepPlace | services/noc.service.js:144-148 | after p one-point penalties the host is still found at its place |
| Noc.PenaltiesScore | services/noc.service.js:144-148 | after p one-point penalties the host has exactly p points fewer |
| Noc.IncidentsForFirstNinePenalties | services/noc.service.js:144-157 | a stored host starting at score 0 has score -p after p one-point penalties, stays at its place, and the p-th penalty is reported exactly when p <= 9 |
| Noc.Noc.Http | services/noc.service.js:118-160 | cache entries are only added; a cache hit calls no resolver; a miss is resolved once under its key; the host is penalised and reported as `PenaliseHost` says; a rejected hosts lookup leaves the hosts lock held |
| Noc.Noc.CachedEntry | services/noc.service.js:123-139 | the verdict for a virtual host: the cached one, or the new one, resolved under its lock key and released on the normal path |
| Noc.Noc.PenaliseHost | services/noc.service.js:139-159 | the host lookup, then a penalty by the verdict's score exactly when it is negative and a host was found, with an incident while the new score is in the window; the hosts lookup is the action as written, so its rejection rejects `noc.http` with the hosts lock held |
| Noc.WhoisRange | services/noc.service.js:63-64 | `range.split(' - ')`: the low bound and the high bound; a missing or non-text range throws |
| Noc.WhoisRangeAtFirstSeparator | services/noc.service.js:63-64 | for any range whose first `" - "` ends the text A, the low bound is A and the high bound is the rest up to its next `" - "` |
| Noc.WhoisRangeOfRegistryText | services/noc.service.js:63-64 | a range `"A - B"` whose bounds hold no `-` gives low A and high B |
| Noc.WhoisRangeWithoutSeparator | services/noc.service.js:63-64 | a range without `' - '` gives the whole text as low bound and no high bound |
| Noc.AsnEntries | services/noc.service.js:66 | one entry per part of the `,`-split list, each that part trimmed, so no entry starts or ends with white space |
| Noc.AsnNumber | services/noc.service.js:71 | `Number(entry.replace('AS', ''))`: when what remains after removing the first `AS` is a canonical decimal, printing the number gives it back |
| Noc.AsnNumberOfLabel | services/noc.service.js:71 | `Number(entry.replace('AS', ''))` of a label `AS<n>` is n |
| Noc.LabelIsPlain | services/noc.service.js:66 | a label `AS<n>` has no ',' and nothing for `trim` to remove |
| Noc.AsnLookups | services/noc.service.js:66-75 | one `noc.asns` lookup per entry, in list order, each for that entry's number; a missing `asn` field throws |
| Noc.AsnListOfLabels | services/noc.service.js:66-75 | a list of labels joined by ',' yields exactly one lookup per label, for its number, in order |
| Attribution.NetworkAnswer | services/noc.hosts.service.js:206-235 | what the hosts service reads from a networks answer: the network's identity, nothing, or the rejection |
| Attribution.ActionAnswer | services/noc.networks.service.js:167-185 | what the hosts service reads from the action as written: never a network |
| Attribution.ResolveHostAsWritten | services/noc.hosts.service.js:185-242 | as written, a new address never gets a host, even inside a stored network; a rejected networks call leaves the hosts lock held |
| Attribution.AskNetworksAsWritten | services/noc.hosts.service.js:206-225 | the networks calls to the action as written never produce a network identity |
| Attribution.ResolveHost | services/noc.hosts.service.js:185-242 | as corrected, a new address inside a stored network, or one the registry places in a new network, gets exactly one host linked to that network; the lock is released |
| Attribution.AskNetworks | services/noc.hosts.service.js:206-225 | the networks calls to the corrected lookup produce the containing network, or the one created from the registry |
| Attribution.CidrRangeIsRejected | services/noc.networks.service.js:172-173 | a registry range in CIDR form (`10.0.0.0/8`) has no '-', so the networks lookup rejects |

## Left out

- Waiting, fairness and races on the locks are not modelled; an acquire is
  only made on a key nobody holds. The `Lock` library is not part of this
  model.
- Time values (`Date.now()`, `new Date(...)`) are not modelled. `now` is an
  input, and `created`/`updated` hold the value handed to `new Date`.
- Store schema handling is not modelled: coercion, `trim`, required-field
  validation and the archived/deleted scopes. This includes rejecting a
  `createEntity({})` of the empty ASN fields, and `hostname: undefined`
  failing `required`.
- `parseInt` and `Number` on malformed text are not modelled. The codec
  requires four decimal octets in [0, 255], and the ASN entries must read as
  decimal numbers.
- Codec.Ip2Int: defined for dotted quads only; `ip2int` of other text (NaN
  octets, prefixes) is not modelled.
- `mtr`, `aggLocations`, `clean` and the `reverse` action's resolver are
  not modelled: they are shell-outs, geoip lookups and bulk deletes. Reverse
  DNS is an input.
- The `domain` and `asn` whois pass-throughs of the `noc` service are not
  modelled.
- The rest of the `ip` action is not modelled. It calls the networks lookup
  without an address and returns an undefined variable, so it cannot
  complete. Only its parsing of `range` and `asn` is modelled, each on its
  own.
- Failures of the whois client itself are not modelled; its answers are
  inputs.
- NocNetworks.ResolveNetwork: a rejection of the registry call
  `v1.utils.network.ip` (services/noc.networks.service.js:234) is not
  modelled. The answer is an input that is either present or falsy, so the
  lookup never rejects for that reason; in the source such a rejection would
  escape the `lookup` action.
- Logging and `console.log` are not modelled. The incident "report" is
  recorded in `Noc.Noc.incidents`.
- NocHosts.HostStore.Score: the `score` parameter's default (`false`) and how
  the store handles `$inc: {score: false}` are not modelled; the delta is an
  integer.
- Asns.CreatedRecordIsFound: the model stores `ASNumber` as the registry
  answer gives it; the schema's coercion of a text `ASNumber` to a number is
  not modelled, so the lemma is stated for a numeric `ASNumber`.
- Noc.Noc.Http: the route resolver's rejection leaves the virtual host's key
  held, because nothing releases it; the model states this rather than
  correcting it. It also calls the hosts `lookup` action as written, so a
  rejected networks call inside it leaves the hosts lock held as well.
- NocAsns.AsnStore.Range: `rangeLow`/`rangeHigh` are not in the `noc.asns`
  schema. The model gives records optional bounds, which `lookup` never sets.

## Findings

| source | as written | input that shows it | evidently intended | confidence | as-written member | corrected member |
|---|---|---|---|---|---|---|
| services/noc.networks.service.js:167-185 | the `lookup` action ends with a bare `return` or falls off its end, so every caller receives `undefined`; `noc.hosts` `lookup` (lines 206-230) therefore sees no network and never creates a host for a new address | a new address 10.1.2.3 while a stored network covers 10.0.0.0 - 10.255.255.255 | return the network found or created, as the action's documentation (line 140) says | high; not executed | NocNetworks.NetworkStore.LookupAction, Attribution.ResolveHostAsWritten | NocNetworks.NetworkStore.Lookup, Attribution.ResolveHost |
| services/noc.hosts.service.js:189-239 | `lookup` acquires the service lock at line 189 and releases it only at its explicit returns (lines 201, 227, 239); a rejected `v1.noc.networks.lookup` call escapes in between and leaves the lock held, blocking every later lookup | a new address whose registry range is in CIDR form, e.g. `10.0.0.0/8` (no '-'), so the networks lookup rejects (Attribution.CidrRangeIsRejected) | release the lock on every path | high; not executed | NocHosts.HostStore.LookupAction, Attribution.ResolveHostAsWritten, Noc.Noc.PenaliseHost | NocHosts.HostStore.Lookup, Attribution.ResolveHost |
