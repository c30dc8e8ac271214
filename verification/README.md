# redins, modelled and proved in Dafny

redins is an authoritative DNS server that keeps its zones in Redis. This project models the
decision logic of its `handler/` package and proves what that logic guarantees, for every zone
layout, every request and every run. `dafny verify dfyconfig.toml` checks the whole project.

What is modelled, file by file:

- **Names.dfy, ZoneIndex.dfy, Locations.dfy**: names as dot-separated text; `FindZone` as a prefix
  lookup over reversed names; `FindLocation` and the wildcard rule of section 3.3.1 of RFC 4592.
- **World.dfy, Walks.dfy, Flattening.dfy, Resolver.dfy, Aname.dfy, Caa.dfy**: the resolution loop of
  `HandleRequest` with CNAME chains, flattening, delegation, ANAME and CAA, and the signing stage.
- **Responses.dfy**: every response read off the stored data: the names a request passes, then what is stored at the last.
- **Departures.dfy**: one concrete world in which flattening changes the meaning in two ways.
- **Selection.dfy, AddressFilter.dfy**: the address pipeline `Filter`: health, geography, order.
- **AnswerAddresses.dfy**: the loop, the ANAME walk, glue and `Filter` together: where the addresses of a response come from.
- **RecordCache.dfy**: records read through a cache that may drop entries, from a store that may fail.
- **HealthCheck.dfy**: the status machine and its shared store under interleaved workers.
- **Limiter.dfy, Upstream.dfy**: the leaky bucket with expiring entries; TTL caching of upstream answers.
- **DnsSec.dfy**: rrset splitting and signing, zone keys, and the NSEC record.

Each looping or mutating routine is a method proved against a function; the properties are lemmas
about those functions. Where a promise does not hold of the code for all inputs, the lemma states
exactly when it does, and another shows an input of the failing kind, or that every such input fails:

- `FindLocation` departs from RFC 4592 on empty non-terminals, and when a location ends in the text
  of an ancestor off a label boundary while a wildcard further up should answer.
- Flattening departs from the unflattened meaning when a CNAME host is stored without its trailing
  dot, and when the eleventh alias is the one that leaves the zone.
- `FindCAA` misses an answer above an ancestor that matches nothing.
- "asn+country" brings back addresses turned down by the ASN stage when the client's country is unknown.
- The distance filter stops with an index out of range when a usable address follows an unusable one.
- The limiter forgets visibly when a full bucket needs more than a minute to drain.
- A Transfer pass keeps rewriting items with a positive down count, a ':' in the host, or two
  configurations for one host and address; it resets an unchanged item whose read fails; and a check
  queued before a change can undo the change.
- An upstream answer with TTL 0 is cached for the default of 600 seconds.
- An upstream resolver that answers in place of the first one overwrites it in the list.

The documentation describes `down_count` as a number of failed checks while its examples use
negative values (lines 505 and 561 of redins' own README.md); the code negates a positive value on load only, and
the model follows the code.

## Model

| member | source | states |
|---|---|---|
| `ZoneIndex.FindZone` | handler/handler.go:575-581 | The zone found is the unique longest zone name that ends the query on a label boundary, and "" iff no non-empty zone name does |
| `ZoneIndex.FindZoneUnique` | handler/handler.go:575-581 | Membership, label alignment and maximal length determine the answer |
| `ZoneIndex.ReversedPrefix` | handler/handler.go:380-386 | A reversed dotted name is a prefix of another exactly when it is a label-aligned suffix of it |
| `ZoneIndex.ReverseRunes` | handler/handler.go:380-386 | The in-place swap loop reverses "." + zone |
| `ZoneIndex.ZoneTable.LoadZones` | handler/handler.go:388-400 | The tree indexes exactly the listed zones; a failed read keeps the old tree |
| `ZoneIndex.ZoneTable.Lookup` | handler/handler.go:575-581 | One longest-prefix lookup in the reversed index refines the longest-suffix search |
| `Locations.ScanKeys` | handler/zone.go:116-123 | The scan finds a location iff one ends in the key's text |
| `Locations.Find` | handler/zone.go:76-109 | The loop over closest encloser and source of synthesis computes FindLocation |
| `Locations.SearchMeaning` | handler/zone.go:94-108 | The search synthesises from the closest encloser unless some ancestor matches only as text, and then denies |
| `Locations.FindRelativeIffRfc4592` | handler/zone.go:88-109 | Agreement with section 3.3.1 of RFC 4592 iff the name is stored, or is no empty non-terminal and no textual match hides a wildcard |
| `Locations.FindLocationIffRfc4592` | handler/zone.go:76-109 | The same iff for a whole query, with the apex always an exact match |
| `Locations.DepartureOffBoundary` | handler/zone.go:116-123 | A concrete zone where a textual match off a label boundary hides a wildcard |
| `Locations.DepartureEmptyNonTerminal` | handler/zone.go:90-108 | A concrete zone where an empty non-terminal is answered from a wildcard |
| `Locations.MatchIsStored` | handler/zone.go:76-109 | With no hypothesis, every match names the apex or a stored location, and every miss is "" |
| `Chasing.Loop` | handler/handler.go:870-875 | The counted loop runs eleven rounds and then gives up |
| `Chasing.ChaseEnds` | handler/handler.go:870-941 | The result is that of the first round that does not jump, if it is among the rounds run |
| `Chasing.EndlessChase` | handler/handler.go:870-875 | A walk that still jumps after all rounds gives up |
| `Chasing.CycleNeverEnds` | handler/handler.go:920-938 | Two equal names in one walk make it jump for ever |
| `Aname.ChaseANAME` | handler/handler.go:865-942 | FindANAME's loop over zones, upstream, CNAME, addresses and ANAME |
| `Aname.FirstAddressesWin` | handler/handler.go:920-938 | On a walk of at most ten jumps the first name with addresses of the asked type and no CNAME decides: its selected addresses and TTL are the result, ANAME or not |
| `Aname.FailureIsEmpty` | handler/handler.go:871-919 | Any result but success is SERVFAIL with no addresses and TTL 0 |
| `Aname.CycleFails` | handler/handler.go:870-938 | Every cycle of CNAMEs and ANAMEs ends in that failure |
| `Aname.ShortChainAnswers` | handler/handler.go:870-941 | A chain that reaches a result within ten jumps returns exactly that result |
| `Aname.RouteResult` | handler/handler.go:865-942 | From the stored records alone: the walk goes to the CNAME host, else to the ANAME of a record without addresses; at its end, outside all zones, it relays the upstream addresses of the asked type in order with the first TTL iff upstream succeeds, else the selected addresses, the empty success or the failure; eleven jumps fail |
| `Aname.RouteExists` | handler/handler.go:870-941 | Every walk has such a route |
| `Caa.LocationDots` | handler/handler.go:841-846 | A match never has more dots than the name looked for, so the climb terminates even through wildcards |
| `Caa.ClimbCAA` | handler/handler.go:832-863 | The climbing loop computes FindCAA |
| `Caa.WildcardClimb` | handler/handler.go:845-854 | Climbing from the wildcard record equals climbing from the name it answered |
| `Caa.FindCAAIff` | handler/handler.go:832-863 | The answer is that of section 3 of RFC 8659 iff no unmatched ancestor stands between the name and an answer above it |
| `Caa.DenseHasNoHole` | handler/handler.go:845-849 | If all ancestors are stored there is no such gap |
| `Caa.HoleHidesApex` | handler/handler.go:847-849 | A zone where the climb returns nothing although the apex holds the CAA set that section 3 of RFC 8659 asks for |
| `Caa.ApexCAA` | handler/handler.go:835-863 | Started at the apex the loop returns the apex record or nothing |
| `Caa.FailedLoadsOnlyLose` | handler/handler.go:850-860 | Loads that fail make the climb return nothing or the same record, never another one |
| `Walks.RequestContext.Resolve` | handler/handler.go:191-323 | The loop that appends to the three sections computes Walk from whatever the sections held |
| `Walks.ChainTooLong` | handler/handler.go:197-202 | A chain that fills all rounds gives SERVFAIL with an empty answer |
| `Walks.ChainEnds` | handler/handler.go:229-239 | Any shorter chain is listed in full and its last name alone decides the outcome |
| `Walks.AnswerIsLinked` | handler/handler.go:229-316 | An unflattened answer reads as one chain: at most ten CNAMEs from the query, each owned in the zone by the previous target, then only records of the asked type, owned by the last target (SOA and DNSKEY have their own owners) |
| `Walks.CycleFillsRounds` | handler/handler.go:197-203 | A chain that runs into a cycle after any lead fills every number of rounds |
| `Walks.FlatChainTooLong` | handler/handler.go:231-239 | A flattened walk along such a chain gives up iff every stored host looks in-zone |
| `Walks.FlatChainEnds` | handler/handler.go:231-262 | A flattened walk along a shorter chain ends at its last name in silence if every stored host looks in-zone, and else in success with a single record |
| `Walks.NegativeAnswers` | handler/handler.go:195-323 | NXDOMAIN carries exactly the SOA; a success is without answer, SOA and NS iff it ends at a delegation without hosts |
| `Flattening.SameMeaningIff` | handler/handler.go:195-323 | From any point of a chain the two modes agree iff the rest of the chain is judged right |
| `Flattening.FlatteningIff` | handler/handler.go:231-262 | Same rcode, authority and additional, and the renamed answer or the single exit CNAME, iff the first ten aliases are judged right and an eleventh looks in-zone |
| `Flattening.FqdnHostsFlatten` | handler/handler.go:231-262 | Hosts that are followed as stored and at most ten aliases are enough |
| `Flattening.MisjudgedAliasShows` | handler/handler.go:233-236 | A first alias that is misjudged always changes the response |
| `Resolver.GlueLoop` | handler/handler.go:243-255 | The loop collects, in order, address records only, each owned by one of the delegation's hosts |
| `Resolver.GlueContents` | handler/handler.go:243-255 | Each of them is an address that this zone selects, for that type, from one stored record |
| `Resolver.LeafRenamed` | handler/handler.go:260-316 | Every final answer depends on its owner name only through the owner field, has the queried type, and is empty when it fails |
| `Resolver.ViewIsLawful` | handler/handler.go:205-316 | What a request sees of its zone satisfies the laws used by the chain and flattening theorems |
| `Resolver.HandleRequest` | handler/handler.go:167-342 | The whole request: not authoritative, zone not loadable, plain result, or NSEC added, NXDOMAIN turned into success and all sections signed |
| `Resolver.FlatteningPreservesMeaning` | handler/handler.go:195-323 | The flattening theorem for every world, zone and query |
| `Resolver.QualifiedChainsFlatten` | handler/handler.go:229-262 | With fully qualified hosts and at most ten aliases flattening preserves meaning |
| `Resolver.UnqualifiedHostDeparts` | handler/handler.go:233-236 | Every in-zone host stored without its trailing dot at the queried name changes the response |
| `Departures.UnqualifiedHostExits` | handler/handler.go:231-239 | A world where such a host gives CNAME and text unflattened, and only a CNAME into the zone itself flattened |
| `Departures.EleventhAliasExits` | handler/handler.go:197-239 | A world where the eleventh alias leaves the zone: SERVFAIL unflattened, one CNAME flattened |
| `Resolver.ResponsesAreProper` | handler/handler.go:195-323 | Negative answers as in sections 2.1 and 2.2 of RFC 2308 in both modes, with the exact silent case |
| `Resolver.ChainOutcome` | handler/handler.go:195-239 | At most ten aliases never give up; more than ten always do, with an empty answer |
| `Resolver.NxdomainIff` | handler/handler.go:205-239 | In either mode NXDOMAIN iff the name at the end of at most ten aliases is in the zone and matches nothing and, with flattening, every host on the way looks in-zone |
| `AnswerAddresses.AnswersListFilter` | handler/handler.go:265-284 | An address answer lists exactly the addresses that Filter chooses for the stored set, in order, with the clamped TTL |
| `AnswerAddresses.AnswersAreHealthy` | handler/handler.go:195-323 | In every response of either mode each address in the answer is stored in a loaded zone and passed its health threshold, or came from upstream |
| `AnswerAddresses.AnameIsAccounted` | handler/handler.go:865-942 | The same for every address an ANAME walk returns, however long the walk |
| `AnswerAddresses.GlueIsReferred` | handler/handler.go:240-257 | In every response each additional record is a healthy address of this zone, owned by a host that an NS record of the authority names |
| `Resolver.CyclesFail` | handler/handler.go:195-239 | Every cyclic chain ends in SERVFAIL with an empty answer; with flattening, iff all hosts on the way look in-zone |
| `Resolver.AnswersAreLinked` | handler/handler.go:195-321 | The same for every unflattened response of every world, with as many CNAMEs as there are aliases (none after SERVFAIL for a long chain or NOTIMP) |
| `Responses.PlainResponse` | handler/handler.go:195-323 | Unflattened, from the stored data alone: the CNAMEs along the path with their stored hosts and clamped TTLs, then exactly what stands at its end (outside, no match, no load, delegation, unknown type, final answer); SERVFAIL alone after eleven aliases |
| `Responses.FlatResponse` | handler/handler.go:195-323 | Flattened, while the stored hosts look in-zone: the same end without CNAMEs, answers owned by the queried name |
| `Responses.FlatExit` | handler/handler.go:233-236 | Flattened, at the first stored host that looks out of the zone: that CNAME alone, under the queried name |
| `Responses.PathExists` | handler/handler.go:195-239 | Every request has such a path: to a name without a followed CNAME, or through all rounds |
| `Responses.AliasesAreStored` | handler/handler.go:229-239 | The aliases of the chain theorems are the stored CNAMEs, host and TTL included, and the chain ends only where there is none |
| `Responses.ReferralIsGiven` | handler/handler.go:240-257 | At every stored delegation below the apex, one NS entry or more: success, one NS record per non-empty host in order, its glue, and only the chain in the answer |
| `Responses.NsOnlyInReferrals` | handler/handler.go:240-257 | NS records stand in the authority only when the request ends at such a delegation |
| `Responses.LeafShows` | handler/handler.go:263-316 | For every implemented type, and no other, the final answer shows the stored entries, selected addresses, ANAME result or CAA set in order, with rendered hosts and clamped TTL |
| `Responses.GlueIsComplete` | handler/handler.go:243-255 | Glue is, host by host, the selected A and then AAAA addresses of the matching record with their own TTLs; nothing is missing or added |
| `Responses.DenialIsProved` | handler/handler.go:325-336 | A signed denial holds exactly one NSEC for the queried name, other signed responses none, and all other sets of the authority are kept |
| `Selection.OrderIps` | handler/handler.go:763-830 | The counting, choosing and rotating loops compute the chosen positions |
| `Selection.WeightedInterval` | handler/handler.go:778-789 | Each white address owns exactly the remainders between its two prefix sums |
| `Selection.LeadComesFirst` | handler/handler.go:810-829 | For every count value the answer starts with the chosen address, and a "single" answer is that address alone |
| `Selection.WeightedShare` | handler/handler.go:778-829 | In "weighted" order, for every count value, white address i comes first for exactly Weight[i] of any sum of weights consecutive readings |
| `Selection.RoundRobinShare` | handler/handler.go:790-829 | In "rr" order, and "weighted" with no weight, each white address comes first for exactly one of any count consecutive readings |
| `Selection.FirstLeadsOtherwise` | handler/handler.go:801-829 | In any other order, and in "weighted" with a negative sum, the first white address comes first |
| `Selection.LeadExists` | handler/handler.go:777-812 | For all integer weights a lead is found iff some address is white, so the -1 branch is dead |
| `Selection.NonEmptyIffWhite` | handler/handler.go:773-829 | The answer is non-empty iff some address is white |
| `Selection.MultiIsRotation` | handler/handler.go:817-829 | Any answer but a "single" one is a rotation of the white addresses |
| `GeoFilter.GetSame` | handler/geoip.go:42-140 | The in-place passes of the country and ASN filters compute SameStage |
| `GeoFilter.SameRuleSpec` | handler/geoip.go:42-140 | From a white and black mask: the matching entries if any, else the entries open to everyone |
| `GeoFilter.SameStageBlack` | handler/geoip.go:64-78 | Black is absorbing through both filters from any mask |
| `GeoFilter.AsnCountryIff` | handler/handler.go:358-360 | "asn+country" is the country rule on the ASN rule's output, iff the country is known or no grey entry is open |
| `GeoFilter.AsnCountryRevival` | handler/geoip.go:73-87 | A concrete mask where a grey address comes back |
| `GeoFilter.GetMinimumDistance` | handler/geoip.go:143-191 | The distance filter, and that it indexes out of range iff a white entry follows a non-white one |
| `GeoFilter.NearestRuleSpec` | handler/geoip.go:147-191 | It keeps the nearest white entries, or all when every one is beyond the cut-off |
| `HealthFilter.FilterHealthcheck` | handler/healthcheck.go:351-380 | The two in-place loops compute HealthRule |
| `HealthFilter.HealthRuleSpec` | handler/healthcheck.go:355-378 | Exactly which addresses survive, and that one does iff some white address is not below the down count |
| `AddressFilter.Filter` | handler/handler.go:350-367 | The pipeline over one mask array, with the failing distance case |
| `AddressFilter.HealthMeaning` | handler/healthcheck.go:351-380 | Which addresses the health stage leaves, by their statuses and the configured counts; all of them while it is off |
| `AddressFilter.OneFilterMeaning` | handler/handler.go:350-357 | "country" and "asn" keep the healthy addresses that list the client's own country or ASN if any do, else those open to all |
| `AddressFilter.TwoFiltersMeaning` | handler/handler.go:358-360 | "asn+country" applies the country filter to what the ASN filter leaves, and for a client of unknown country to all healthy addresses once an ASN matched |
| `AddressFilter.DistanceMeaning` | handler/handler.go:361-363 | "location" keeps the nearest healthy addresses, or all beyond the cut-off, and fails iff a usable address follows an unusable one |
| `AddressFilter.GeoKeepsBlack` | handler/handler.go:350-367 | No geo mode lets back an address that the health stage took out |
| `AddressFilter.SelectionIsHealthy` | handler/handler.go:350-367 | Every returned address belongs to the set, passed the health threshold and is not below the floor |
| `AddressFilter.EmptyOnlyWhenAllDown` | handler/handler.go:350-367 | With any geo filter value the switch does not name, an answer is empty iff every address is below the floor |
| `AddressFilter.DistanceOverrun` | handler/geoip.go:170-172 | A concrete set of two addresses on which the distance filter indexes out of range |
| `RecordCache.KeyInjective` | handler/handler.go:678 | Distinct location and zone pairs that requests resolve to never share a cache key |
| `RecordCache.ResolvedHasLabel` | handler/handler.go:712-721 | The "not exists" error cannot be reached from a match |
| `RecordCache.FetchMeaning` | handler/handler.go:688-738 | A fetch gives what the store holds under the zone and label, the implicit apex, or an error, and exactly when each |
| `RecordCache.RecordStore.LoadLocation` | handler/handler.go:677-744 | Fresh hit, refetch, implicit apex and stale fallback compute Load |
| `RecordCache.CacheExplained` | handler/handler.go:677-744 | In every run each cache entry was fetched by an earlier load of the location its key stands for |
| `RecordCache.LoadIsCoherent` | handler/handler.go:677-744 | In every run a returned record is what the store held at a fetch, within its lifetime unless just refetched in vain, up to the TTL of empty address sets |
| `RecordCache.LoadFetches` | handler/handler.go:677-744 | Without a fresh entry: the stored record under its full name kept for the lifetime, the blank record for an empty field or an apex without label, else the stale entry or nothing |
| `RecordCache.FreshIsServed` | handler/handler.go:679-686 | In every run an entry that is not evicted is served until its lifetime is over, whatever the store holds and whether or not it replies |
| `RecordCache.ClimbLoadsResolved` | handler/handler.go:832-863 | Every location that the CAA climb loads is one that a query of the same zone resolves to, so these loads are covered |
| `HealthCheck.HealthCheckItem.StatusUp` | handler/healthcheck.go:340-349 | The new status, capped at the up count |
| `HealthCheck.HealthCheckItem.StatusDown` | handler/healthcheck.go:329-338 | The new status, floored at the down count |
| `HealthCheck.StatusClosedForm` | handler/healthcheck.go:329-349 | After any history the status is the trailing run of equal results, signed and capped |
| `HealthCheck.RangeIff` | handler/healthcheck.go:329-349 | The status stays between the counts for every history iff both are non-zero with the right sign, or both are zero |
| `HealthCheck.StatusServer.HandleHealthCheck` | handler/healthcheck.go:73-79 | A finished check stores the item with its new status and time and nothing else; up makes the status positive, down negative, within the counts |
| `HealthCheck.StatusServer.TransferPass` | handler/healthcheck.go:439-463 | The pass over all targets, each read answered or not, computes Pass |
| `HealthCheck.OneCheck` | handler/healthcheck.go:55-82 | Queueing a stored item and finishing its check moves the status one step towards the result, from zero when it turns, within the counts, and touches nothing else |
| `HealthCheck.AlwaysInRange` | handler/healthcheck.go:55-82 | Over every interleaving of queueing, checks, Transfer, expiry and failed writes all items stay within their own counts |
| `HealthCheck.StatusIsHistory` | handler/healthcheck.go:55-82 | From a new item, over every interleaving in which the checks of its key do not overlap or get lost and Transfer and expiry leave it alone, the stored status is the trailing run of its results, signed by the last and capped by its counts |
| `HealthCheck.KeySplits` | handler/healthcheck.go:228-237 | A key splits back at its first ':' into host and address, IPv6 included, iff the host has none |
| `HealthCheck.NoRewriteIff` | handler/healthcheck.go:443-461 | A pass writes nothing iff every target is settled and every read of an enabled target answers |
| `HealthCheck.UnstableRewrites` | handler/healthcheck.go:382-463 | A host with ':', a positive down count, or two configurations for one key make every pass write, from every store |
| `HealthCheck.SecondPassIff` | handler/healthcheck.go:382-463 | A second pass over unchanged targets writes nothing iff there is none of these and every read of an enabled target answers, whatever the first pass could read |
| `HealthCheck.FailedReadResets` | handler/healthcheck.go:457-459 | A failed read replaces the item of an unchanged configuration by a new one with status 0 |
| `HealthCheck.QuietForever` | handler/healthcheck.go:443-461 | From a settled state, with checks, expiry of other keys, failed reads and failed writes interleaved in any way, a Transfer step changes the state iff its read fails, its write succeeds and the item is not new; then it resets that item and nothing else |
| `HealthCheck.StaleCheckUndoesTransfer` | handler/healthcheck.go:73-79 | A check queued before a configuration change and finished after it undoes the change |
| `Limiter.RateLimiter.constructor` | handler/limiter.go:27-43 | Step, maximum and the two lists from the configuration |
| `Limiter.RateLimiter.CanHandle` | handler/limiter.go:51-95 | Lists first, then one call on the key's bucket; no other key changes |
| `Limiter.RateLimiter.DeleteExpired` | handler/limiter.go:31 | The cache's cleanup cannot be noticed by any later call |
| `Limiter.SizeInvariant` | handler/limiter.go:71-82 | In every run the level stays within 0 and MaxTime + TimeStep |
| `Limiter.StepIsShare` | handler/limiter.go:40-41 | The step is a minute divided by the rate in whole milliseconds, the maximum Burst steps |
| `Limiter.AcceptedIff` | handler/limiter.go:71-82 | A request passes iff for every earlier request the accepted cost from there on exceeds the time since by at most MaxTime |
| `Limiter.AcceptedIffWithinMinute` | handler/limiter.go:66-93 | The same for the expiring limiter when a full bucket drains within a minute |
| `Limiter.CachedIsKept` | handler/limiter.go:66-93 | With such a bucket the expiring limiter refines the one that never forgets, decision by decision |
| `Limiter.ForgettingIff` | handler/limiter.go:40-41 | Expiry changes no decision in any run iff Burst + 1 steps fit in a minute (or the step is zero) |
| `Limiter.BurstBelowRate` | handler/limiter.go:40-41 | Burst below Rate is inside that bound |
| `Limiter.BurstIsExact` | handler/limiter.go:74-82 | On a new key exactly Burst + 1 simultaneous requests pass |
| `Limiter.WindowBound` | handler/limiter.go:71-82 | In every window the accepted requests cost at most its length plus one full bucket |
| `Limiter.PacedIsAccepted` | handler/limiter.go:71-82 | For all parameters a request a full step after the previous one is always accepted |
| `Upstream.MinTtl` | handler/upstream.go:80-85 | The loop finds the smallest TTL |
| `Upstream.Resolvers.Query` | handler/upstream.go:54-99 | Live entry with its remaining seconds, else the first resolver that replies, cached only on a non-empty success; the connection list afterwards |
| `Upstream.HitHasSource` | handler/upstream.go:56-86 | In every run every hit traces to the last earlier store of the same key and returns its records with the seconds left |
| `Upstream.LivesForItsTtl` | handler/upstream.go:56-86 | In every run a stored answer is served exactly for its smallest TTL (600 seconds for zero), each record with the whole seconds left |
| `Upstream.MissRelays` | handler/upstream.go:64-98 | On a miss the first resolver that replies is relayed, SERVFAIL if none does, and only a non-empty success changes the cache |
| `Upstream.HonestIff` | handler/upstream.go:56-86 | Over all runs with an advancing clock hits on an answer report at most its smallest TTL iff that TTL is not zero |
| `Upstream.ZeroTtlLives` | handler/upstream.go:79-86 | An answer with a zero TTL is served again with 600 seconds |
| `Upstream.HitsNeverGrow` | handler/upstream.go:56-61 | In every run later hits on one stored answer never report more |
| `Upstream.FirstConnectionLost` | handler/upstream.go:87 | After an answer from connection k of a distinct list, the first connection is still listed iff k is 0 |
| `DnsSec.SplitSets` | handler/dnssec.go:21-44 | The map holds exactly the occurring sets, each in input order, without RRSIG and OPT |
| `DnsSec.Sign` | handler/dnssec.go:46-63 | For any map iteration order the result is an assembly of the sets with their signatures |
| `DnsSec.SignKeepsSets` | handler/dnssec.go:46-63 | Every set comes out whole and in its original order |
| `DnsSec.SignConserves` | handler/dnssec.go:46-63 | Without signatures the output is a permutation of the input without RRSIG and OPT |
| `DnsSec.SignIsContiguous` | handler/dnssec.go:49-60 | Each set stands in one piece, directly followed by the prepared signature for DNSKEY, else by its own signature iff signing succeeds |
| `DnsSec.SignatureCount` | handler/dnssec.go:46-63 | The output holds exactly one RRSIG per DNSKEY set and per set whose signing succeeds |
| `DnsSec.ZoneKeys.LoadZoneKeys` | handler/handler.go:648-675 | Signing stays on iff both keys load and the key set signs, and then keys, flags, TTL and signature are all set |
| `Nsec.NothingBetween` | handler/dnssec.go:94-102 | No name lies strictly between a name and its child "\000" |
| `Nsec.NSecCoversOnlyItsName` | handler/dnssec.go:94-102 | The NSEC text written for a denied name covers no other name |

## Left out

- Redis, ristretto, go-cache, singleflight, the radix tree and the worker pool: modelled as failing or lossy maps, a longest-prefix lookup and a set of in-flight jobs.
- Configuration loading, JSON decoding, listeners, TLS, logging: input and output only; stored values appear decoded or as undecodable.
- HTTP and ICMP probes: each check is an arbitrary up or down result.
- Real signatures, key parsing and record classes: signing is an arbitrary function that may fail; the class field carries no logic.
- Great-circle distances and the address databases: distances are arbitrary reals and lookups may be off or fail; floating-point rounding and NaN are not modelled.
- Integer widths: weights, counts and times are unbounded, so overflow of Go's int is not modelled; residual TTLs and durations are exact.
- Escaped characters in names: a dot is always a label boundary; upper case is already folded as RawName does.
- LoadZone and the zone cache: a request sees one loaded zone; the cache is the same pattern as the record cache without keys to collide.
- getStatus and its status cache: the health filter takes the status of each address as stable within one call.
- split255: text records keep their text whole.
- HealthCheck.SecondPassIff: the writes of the first pass succeed; failed writes are covered by HealthCheck.QuietForever and HealthCheck.AlwaysInRange.
- Walks.RequestContext.Resolve: address selection, upstream answers and loads are the same within one request, so that two modes can be compared; their variation over time is not modelled here.
- RecordCache.LoadIsCoherent: covers locations that a query of the owning zone resolves to; glue lookups, which skip the zone test, and the root zone are outside.
- Limiter.RateLimiter.CanHandle: concurrent first requests for one key are modelled one after the other.
- Shared pointers: a cached record that a request still holds is a copy here, except for the TTL write that the cache model keeps.
