# Verified models of a DNS proxy

Dafny models of the parts of the proxy whose correctness spans several functions or several goroutines, with proofs of what they promise. Each component is one module.

| module | models |
|---|---|
| `UpstreamRules`, `ConfigParser`, `Routing`, `ConfigLines` | upstream configuration lines, the tables they are folded into, the lookup of the upstreams of a name, and what lines say as they are written |
| `IpNet`, `CacheKey`, `SubnetCache`, `EcsSafety` | the response cache with client subnets (RFC 7871): keys, storing by scope, longest-prefix lookup, whole runs |
| `CacheItem`, `CacheHit` | lifetimes, the packed item, DNSSEC filtering, and what a client gets from the cache at any later time |
| `CacheService` | the two together: what a client gets at any time after any run of the cache |
| `Receipt`, `ResponseReader` | the one-shot decision of an upstream exchange and the readers that drive it |
| `Pending` | single-flight merging of identical requests |
| `DohClients`, `HttpWork` | HTTP client generations and the retry loop of DNS-over-HTTPS; sealing and joining of connection work |
| `ServerLifecycle` | start, accept, shutdown and restart of the DNSCrypt server |
| `Padding`, `SecretBox`, `DnsCryptCodec` | DNSCrypt v2 padding (ISO/IEC 7816-4), the XChaCha secret box, query and response framing, the exchange |
| `TxtString`, `Certificate` | the TXT form of certificates, their wire form, and the choice among several |
| `Dns64` | AAAA synthesis and NAT64 exclusion (RFC 6147) |
| `Bytes`, `Slices`, `Strings`, `Runs`, `DnsConstants` | bytes and bit operations, slices with spare capacity, strings, runs of step systems, protocol numbers |

How the models are built:

- Objects that change are classes. A method that changes one is proved equal to a step, or to the part of a step that its lock section is, of a pure state (`View`), and the theorems are about all sequences of steps. Goroutines interleave at lock sections and channel operations; a step that is not enabled changes nothing.
- Loops are loops, proved against a function or a predicate that does not mention them.
- Foreign code enters as function values with their laws as preconditions: message packing is an inverse pair, the XSalsa box opens exactly what it sealed, key agreement is symmetric, domain validation ignores letter case. The XChaCha box is not foreign: its law is proved over any key stream and any authenticator.
- Time, random bytes, I/O results and goroutine scheduling are parameters or events.
- `byte` is an integer below 256; bit operations are defined bit by bit. Other integers are unbounded, with wrap-around written out where the program depends on it (tickets, three-digit escapes, TTL conversion).

Properties that do not hold as one might expect, each with its exact condition and a lemma at a failing input:

| what fails | exactly when | an input |
|---|---|---|
| different questions have different subnet cache keys | `CacheKey.SubnetKeyEqualIff`; only if a name starts with twelve NUL bytes, which a name in presentation form cannot | `CacheKey.CollisionExample` |
| a cached item carries the seconds left, or the optimistic TTL | `CacheHit.HitAtExpiry`, `CacheHit.HitAfterExpiry`: not at the instant of expiry, nor with an optimistic TTL below a second | `CacheHit.ExpiryExample`, `CacheHit.OptimisticExample` |
| a granted ticket can be released | `ResponseReader.TicketReleasedIff`: unless its number has wrapped around to zero | `ResponseReader.WrappedTicketExample`, at the end of a run |
| a configuration line never makes the parser panic | `Routing.LacksUpstreamExactly`: accepted domains and an upstream part of only white space | `Routing.LacksUpstreamExample` |
| a packet that is encrypted can be decrypted | `DnsCryptCodec.QueryRoundTrip`, `DnsCryptCodec.ResponseRoundTrip`: from 17 bytes on | `DnsCryptCodec.ShortPacketExample` |
| a synthesized AAAA record is excluded by the prefixes it was made with | `Dns64.SynthesizedExcludedIff`, `Dns64.MappedOnlyIf96` | `Dns64.MappedPrefixExample`, `Dns64.InvalidPrefixExample` |
| `done` finds the request it was queued for | `Pending.DonePanicsIff`, `Pending.ClosePanicsIff`: over all runs, also those in which requests change their keys | `Pending.ChangedKeyExample`, `Pending.DoubleCloseExample` |
| only names of one label depend on the lines for unqualified names | `Routing.UnqualifiedMattersIff`: also names without a final separator that end in the reserved key; names from the wire end in a separator (`Routing.QualifiedReadsIff`), so these come only with a request made by hand | `Routing.UnqualifiedRead`, a default line without and with a line for unqualified names |

## Model

| member | source | states |
|---|---|---|
| UpstreamRules.FailedLinesExact | proxy/upstreams.go:175-193 | the reported errors name exactly the failing lines, in order |
| UpstreamRules.TablesFollowRules | proxy/upstreams.go:295-325 | while rules are folded, the four tables say of every domain what the rules alone say, whatever their order |
| UpstreamRules.ConfigMeansRules | proxy/upstreams.go:175-193 | the finished configuration gives every domain the fold of its wildcard rules if it has any, else of its plain rules; an exclusion resets |
| UpstreamRules.MeaningDetermines | proxy/upstreams.go:175-193 | a configuration is determined by the meaning of its rules |
| UpstreamRules.LineHosts | proxy/upstreams.go:196-222 | a line's rules name only that line's domains, and a line with domains adds no default upstream |
| UpstreamRules.ApexHasDot | proxy/upstreams.go:227-255 | every wildcard apex of a parsed configuration has a separator, so a parent can be cut off |
| ConfigParser.SplitDomains | proxy/upstreams.go:236-252 | the loop over the domains of a line gives a key for each, or refuses them if one is not accepted |
| ConfigParser.SplitConfLine | proxy/upstreams.go:227-255 | a line is parted into its addresses and keys, or is malformed |
| ConfigParser.Parser.ExcludeFromReserved | proxy/upstreams.go:295-307 | the loop applies one exclusion rule per domain, in order |
| ConfigParser.Parser.IncludeDomain | proxy/upstreams.go:310-325 | one round adds the upstream to the tables of a plain or wildcard domain |
| ConfigParser.Parser.IncludeToReserved | proxy/upstreams.go:310-325 | the loop applies one reservation rule per domain, in order |
| ConfigParser.Parser.SpecifyUpstream | proxy/upstreams.go:258-291 | an upstream is reused or made, never twice for an address, and applied to its domains or the defaults; a failure changes nothing |
| ConfigParser.Parser.SpecifyAll | proxy/upstreams.go:196-222 | the upstreams of a line apply in order up to the first that cannot be made |
| ConfigParser.Parser.ParseLine | proxy/upstreams.go:196-222 | a line applies exactly its rules, fails exactly when it is malformed or an upstream cannot be made, and panics exactly when it has no upstream field |
| ConfigParser.Parser.ParseLines | proxy/upstreams.go:175-193 | lines are applied in order up to the first that panics, failing ones included up to their failure, and reported |
| ConfigParser.Parser.Parse | proxy/upstreams.go:175-193 | the result means the rules of all lines; there is none exactly if some line panics |
| Routing.LookupUpstreams | proxy/upstreams.go:451-463 | found exactly for configured names; an empty list stands for the defaults |
| Routing.LookupSubdomainExclusion | proxy/upstreams.go:433-447 | an apex gets its plain list, else its immediate parent's, else the defaults |
| Routing.GetUpstreamsForDomain | proxy/upstreams.go:382-411 | the label-stripping loop terminates on every name and returns the list of the most specific configured domain |
| Routing.StripLabels | proxy/upstreams.go:402-410 | the loop stops at the most specific configured domain above the name, or at the defaults |
| Routing.GetUpstreamsForDS | proxy/upstreams.go:422-429 | DS queries are routed as the parent of the name, or to the defaults |
| Routing.MostSpecificUnique | proxy/upstreams.go:382-411 | a name has at most one most specific configured domain |
| Routing.MostSpecificExists | proxy/upstreams.go:382-411 | a name below some configured domain has a most specific one |
| Routing.RouteIsLocal | proxy/upstreams.go:382-447 | the upstreams of a name depend only on the defaults, the name, the domains above it and, for a single label, the unqualified names |
| Routing.NonInterference | proxy/upstreams.go:227-325 | a domain line added at any position changes no name that has none of its domains as a label suffix |
| Routing.CaseDoesNotMatter | proxy/upstreams.go:227-255 | neither the letter case of the rules' domains nor of the query changes the route |
| Routing.UnqualifiedLineInserted | proxy/upstreams.go:227-325 | a line for unqualified names inserted anywhere changes at most what is said about them |
| Routing.UnqualifiedMattersIff | proxy/upstreams.go:382-411 | exactly which names such a line can send elsewhere |
| Routing.UnqualifiedRead | proxy/upstreams.go:382-411 | for each such name, lines that show it |
| Routing.QualifiedReadsIff | proxy/upstreams.go:382-411 | among fully qualified names these are exactly those of one label |
| Routing.ParsedConfigUsable | proxy/upstreams.go:175-193 | every parsed configuration meets what the lookup asks of it |
| Routing.RouteReadsRules | proxy/upstreams.go:382-447 | a configuration that means some rules routes every name as the rules alone say |
| Routing.ParseAndLookup | proxy/upstreams.go:175-193 | parsing any lines and looking up any name gives what the rules of the lines say, or a panic exactly for a line without upstreams |
| Strings.SameFoldMeans | proxy/upstreams.go:251 | names are the same up to case exactly if they differ at most in the case of ASCII letters, character by character |
| Strings.SplitConcat | proxy/upstreams.go:237 | a slash parts the domains on its two sides |
| Strings.FieldsConcat | proxy/upstreams.go:254 | white space parts the addresses on its two sides |
| ConfigLines.SplitsAsWritten | proxy/upstreams.go:227-255 | domains between slashes and addresses between white space are split into exactly these |
| ConfigLines.MalformedIff | proxy/upstreams.go:227-255 | a domain line is malformed exactly if nothing follows the domains or one is not allowed |
| ConfigLines.UnclosedIsMalformed | proxy/upstreams.go:232-235 | so is one whose domains do not end |
| ConfigLines.LineAppends | proxy/upstreams.go:196-325 | exactly what a domain line changes after any lines: the lists of the domains it names, in lower case with a final separator, plain or for subdomains only; `#` empties them |
| ConfigLines.PlainLineAppends | proxy/upstreams.go:196-222 | an address adds a default upstream, a comment nothing |
| ConfigLines.DomainLineFailsIff | proxy/upstreams.go:196-222 | a well-formed line fails exactly if it does not exclude and an upstream of it cannot be made |
| ConfigLines.FailedLineSays | proxy/upstreams.go:213-219 | it then says what it would say if it ended before that upstream |
| ConfigLines.NamedGoesToLine | proxy/upstreams.go:382-411 | with a default and a domain line, a domain that the line names goes to the line's upstreams, in any letter case |
| ConfigLines.BelowGoesToLine | proxy/upstreams.go:382-411 | so does every name below it, also below one with the wildcard mark |
| ConfigLines.ApexGoesToParent | proxy/upstreams.go:433-447 | a domain named only with the wildcard mark goes where its parent goes, else to the default |
| ConfigLines.LabelGoesToLineIff | proxy/upstreams.go:397-400 | a single label goes to the line's upstreams exactly if the line has an empty domain |
| ConfigLines.OthersGoToDefault | proxy/upstreams.go:382-411 | any other name goes to the default |
| ConfigLines.MoreSpecificWins | proxy/upstreams.go:382-411 | of two domain lines for a name the one of the longer domain decides, by its upstreams or by excluding |
| ConfigLines.LessSpecificServes | proxy/upstreams.go:382-411 | the other names at or below the shorter domain go to its upstreams |
| Routing.LacksUpstreamExactly | proxy/upstreams.go:196-222 | exactly which lines make the parser index an empty field list |
| Routing.LacksUpstreamExample | proxy/upstreams.go:207 | such a line |
| IpNet.SizeSound | proxy/cache.go:593-616 | a mask whose size is recognised is the mask of that length |
| IpNet.SizeComplete | proxy/cache.go:593-616 | every mask of a prefix length is recognised with that length |
| IpNet.MaskedStep | proxy/cache.go:295-316 | going from /m+1 to /m clears exactly one bit |
| IpNet.CacheSubnetMasks | proxy/cache.go:593-616 | an accepted subnet is the client's address masked to its own prefix length, in canonical form |
| IpNet.CacheSubnetFits | proxy/cache.go:593-616 | an accepted subnet has a prefix of at most 128 bits and nothing after it |
| IpNet.MaskedBit | proxy/cache.go:593-616 | masking keeps the first bits and clears the others, bit by bit |
| IpNet.MaskedSameIff | proxy/cache.go:593-616 | masked addresses are equal exactly if they agree in each bit kept |
| IpNet.To4Exactly | proxy/cache.go:601-610 | an IPv4 address has exactly two forms, of four and of sixteen bytes |
| IpNet.CacheSubnetOf | proxy/cache.go:593-616 | the subnet kept for an address and a length, one for both forms of an IPv4 address |
| IpNet.CacheSubnetAccepts | proxy/cache.go:593-616 | exactly which addresses and masks make a subnet |
| CacheKey.SameNameIff | proxy/cache.go:575-578 | names have one key exactly if they differ at most in the case of ASCII letters |
| CacheKey.GeneralKeyInjective | proxy/cache.go:565-580 | general keys are equal exactly for the same question up to letter case and the same DO bit |
| CacheKey.SubnetKeyEqualIff | proxy/cache.go:621-652 | exactly when two subnet keys are equal, across both address families |
| CacheKey.SubnetKeyInjective | proxy/cache.go:621-652 | unless a name starts with twelve NUL bytes, equal subnet keys mean the same question and the same subnet |
| CacheKey.CollisionExample | proxy/cache.go:621-652 | two questions of different families under one key |
| SubnetCache.FindEcs | proxy/helpers.go:11-40 | the loop over the options stops at the first of a known family |
| SubnetCache.ShortenKeepsKey | proxy/cache.go:295-316 | the byte edit of one loop round turns the key for /m+1 into the key for /m, down to /0 where the address is dropped |
| SubnetCache.ShortenKey | proxy/cache.go:295-316 | one round of the loop yields the key for one bit less |
| SubnetCache.LongestPrefix | proxy/cache.go:283-316 | the loop finds the greatest stored prefix length that covers the client, or none when there is none |
| SubnetCache.Cache.Set | proxy/cache.go:347-364 | an item is stored under the key of its question; one that is not cacheable is not |
| SubnetCache.Cache.SetWithSubnet | proxy/cache.go:369-391 | an item is stored under the key of its question and canonical subnet; an invalid subnet stores nothing |
| SubnetCache.Cache.StoreResponse | proxy/proxycache.go:81-133 | an answer goes to the general cache, under its scoped subnet, under /0, or nowhere |
| SubnetCache.Cache.Get | proxy/cache.go:248-267 | a usable item is returned, an unusable one deleted |
| SubnetCache.Cache.GetWithSubnet | proxy/cache.go:275-323 | the longest covering entry is returned if usable and deleted if not; nothing else changes |
| SubnetCache.Cache.ClearItems | proxy/cache.go:394-399 | the step that empties the general cache |
| SubnetCache.Cache.ClearItemsWithSubnet | proxy/cache.go:402-412 | the step that empties the subnet cache |
| EcsSafety.SubnetEntryHasOrigin | proxy/proxycache.go:81-133 | after any run every subnet entry was stored by some earlier answer, under that answer's key and subnet, and not cleared or removed since |
| EcsSafety.GeneralEntryHasOrigin | proxy/proxycache.go:81-133 | after any run every general entry was stored by an earlier answer meant for the general cache, and not cleared or removed since |
| EcsSafety.EcsIsFirstKnown | proxy/helpers.go:11-40 | the subnet of a message is that of its first option of a known family; both forms of an IPv4 address give that address |
| EcsSafety.StoredScope | proxy/proxycache.go:90-129 | an answer with a matching option is stored under min(scope, source) bits of its address, one without under /0 |
| EcsSafety.EcsMatchesIff | proxy/proxycache.go:99-107 | an answer matches exactly if it repeats the request's source prefix length and so many bits of its address |
| EcsSafety.AnswerStoredIff | proxy/proxycache.go:81-133 | exactly what becomes of an answer with an option: stored for min(scope, source) bits if it matches, else not at all |
| EcsSafety.OtherAnswersStored | proxy/proxycache.go:81-133 | the others go to the general cache, or to every client |
| EcsSafety.ServedSubnetItemCovers | proxy/cache.go:275-323 | after any run whatever a subnet lookup finds answers the same question, its prefix covers the client, and it was not cleared since; names that start with twelve NUL bytes excepted |
| EcsSafety.ServedGeneralItemMatches | proxy/cache.go:248-267 | after any run a general hit answers the same question and was not given for a client subnet |
| EcsSafety.StoredIsFound | proxy/proxycache.go:81-133 | an answer just stored is found by every client of its subnet asking the same question, unless a longer prefix is |
| EcsSafety.GeneralStoredIsFound | proxy/cache.go:248-267 | an answer just stored in the general cache is found by everyone who asks the same question |
| CacheService.StoredReplies | proxy/cache.go:63-184 | the bytes stored for an answer give back, at any time, the fresh reply with that content and the TTL due, under the request's ID and question and never truncated |
| CacheService.SubnetHitServed | proxy/proxycache.go:19-65 | after any run a subnet hit at any time is the fresh reply of an earlier answer that covers the client, with the TTL due |
| CacheService.GeneralHitServed | proxy/proxycache.go:19-65 | the same for the general cache, with an answer not given for a client subnet |
| CacheItem.SectionTTL | proxy/cache.go:514-536 | the loop over a section gives the least TTL of its records that are not OPT, with its early exit |
| CacheItem.CalculateTTL | proxy/cache.go:514-536 | the least TTL of all sections, 30 at most for a server failure, zero when no record counts |
| CacheItem.LeastIsLeast | proxy/cache.go:539-548 | the fold is a lower bound of all TTLs that count and is one of them |
| CacheItem.HasIPAns | proxy/cache.go:465-473 | whether the answer section has an address record |
| CacheItem.IsCacheableNegative | proxy/cache.go:489-502 | whether the authority section has an SOA and no NS record |
| CacheItem.CacheTTL | proxy/cache.go:420-461 | the lifetime of an answer by code and content; zero when it must not be cached |
| CacheItem.LifetimeBounded | proxy/cache.go:420-461 | a cached answer outlives none of its records, a server failure 30 seconds |
| CacheItem.CachedIff | proxy/cache.go:420-548 | exactly which answers are cached, by code, question, records and TTLs |
| CacheItem.CachedForLeast | proxy/cache.go:514-548 | a cached answer is kept for its least TTL, a server failure for 30 seconds if that is less |
| CacheItem.FilterRRSlice | proxy/cache.go:674-695 | copies of exactly the records asked for are returned, in order, with their TTL overwritten; the TTL of the originals is overwritten for every holder, records not asked for stay |
| CacheItem.FilteredConcat | proxy/cache.go:674-695 | filtering goes record by record |
| CacheItem.FilteredOne | proxy/cache.go:654-695 | by record type, what a client gets with and without DO, and that a type asked for by name stays |
| CacheItem.FilterTwice | proxy/cache.go:674-695 | filtering with a raised DO bit and then with the client's is one filtering with the client's |
| CacheItem.FilterThenRetime | proxy/cache.go:674-695 | setting TTLs while filtering is setting them afterwards |
| CacheHit.SignedRoundTrip | proxy/cache.go:94-120 | the stored expiry is read back for every signed 64-bit value |
| CacheHit.LayoutRoundTrip | proxy/cache.go:94-184 | the bytes of an item give back its expiry, message and upstream |
| CacheHit.UnpackPacked | proxy/cache.go:94-184 | reading back gives the stored message filtered for the request, its upstream, and the TTL due at that time |
| CacheHit.StoredBytes | proxy/cache.go:94-184 | reading the stored bytes is reading these parts |
| CacheHit.HitIsTransparent | proxy/cache.go:700-714 | a hit has the records of a fresh reply in the same order in all sections, and its AD bit; only TTLs differ |
| CacheHit.HitMeans | proxy/proxy.go:936-964 | packing, reading back and filtering twice amount to the fresh reply with other TTLs, and to the stored records that the client is to get, under the request's ID and question |
| CacheHit.HitBeforeExpiry | proxy/cache.go:126-184 | before expiry every TTL is the whole seconds left, at least 1 and at most every stored TTL |
| CacheHit.HitAtExpiry | proxy/cache.go:126-184 | at the instant of expiry records keep their stored TTLs, so they show the seconds left only if there are none |
| CacheHit.HitAfterExpiry | proxy/cache.go:126-184 | after expiry an answer is served exactly by an optimistic cache within the maximum age, and carries the optimistic TTL exactly if that is at least a second |
| CacheHit.ExpiryExample | proxy/cache.go:144-153 | a record of a minute served with its minute when no second is left |
| CacheHit.OptimisticExample | proxy/cache.go:142 | the same long after expiry, with an optimistic TTL of half a second |
| Receipt.ExchangeState.constructor | upstream/receipt.go:46-48 | a new exchange is undecided, with its cutoff |
| Receipt.ExchangeState.CompleteLocked | upstream/receipt.go:169-174 | the first decision is recorded and `done` closed; later ones change nothing |
| Receipt.ExchangeState.DoStart | upstream/receipt.go:80-91 | only the first start takes the request ID |
| Receipt.ExchangeState.DoReserve | upstream/receipt.go:97-103 | a ticket is granted only for a frame that may be a final response |
| Receipt.CandidateIff | upstream/receipt.go:97-103 | such a frame has the ID, the response bit set and, over datagrams, the truncation bit clear |
| Receipt.CandidateFields | upstream/receipt.go:97-103 | the same over the header fields of section 4.1.1 of RFC 1035 |
| Receipt.GrantedIff | upstream/receipt.go:97-125 | exactly when a call is granted a ticket |
| Receipt.ExchangeState.DoReserveCandidate | upstream/receipt.go:108-125 | a ticket is granted to one holder at a time, before seal and cutoff; a late frame decides the exchange |
| Receipt.ExchangeState.DoReject | upstream/receipt.go:127-140 | only the held ticket is released, and a sealed or late exchange is then decided |
| Receipt.ExchangeState.DoAccept | upstream/receipt.go:142-155 | only the held ticket can make a success, under the original ID |
| Receipt.ExchangeState.DoFinish | upstream/receipt.go:157-167 | the transport's end decides an undecided exchange |
| Receipt.ExchangeState.DoExpire | upstream/receipt.go:63-70 | expiry seals, and decides unless a frame is being judged |
| Receipt.ExchangeState.DoAbandon | upstream/receipt.go:74-78 | abandoning decides an undecided exchange |
| Receipt.InvHolds | upstream/receipt.go:63-174 | in every interleaving `done` closes once, exactly with the decision; finished excludes reserved; sealed and not reserved implies finished |
| Receipt.DecisionIsFinal | upstream/receipt.go:63-174 | a decision never changes in any continuation |
| Receipt.ReservationOrigin | upstream/receipt.go:97-125 | a held reservation was granted by one call, before any expiry, abandoning or finish |
| Receipt.OriginalIsFirstStart | upstream/receipt.go:80-91 | the ID kept is that of the first start |
| Receipt.SuccessProvenance | upstream/receipt.go:97-155 | any success came from accepting the held ticket, observed before expiry and no later than the cutoff, under the ID of the first start |
| Receipt.FailsIff | upstream/receipt.go:63-174 | with which error each call fails an undecided exchange, and when it does not |
| Receipt.FailureProvenance | upstream/receipt.go:63-174 | any failure was decided by one call, with the error of that call |
| Receipt.ExpiryDecides | upstream/receipt.go:63-140 | after expiry the exchange is decided or one frame is being judged, and judging it decides |
| ResponseReader.TicketReleasedIff | upstream/receipt.go:108-155 | a granted ticket can be rejected and accepted exactly if its number has not wrapped to zero |
| ResponseReader.WrappedTicketExample | upstream/receipt.go:108-155 | a run that ends in a reservation that stays whatever its holder does |
| ResponseReader.Observe | upstream/response.go:27-62 | a reservation is held after observing a frame only if the frame may be final and nothing decided in between |
| ResponseReader.JudgeFrame | upstream/response.go:27-62 | each frame's reservation is accepted or rejected, only an acceptable frame becomes the decision whatever happens in between, and exactly a datagram of another ID is read past |
| ResponseReader.Connection.Next | upstream/response.go:29 | a read is made only when nothing is reserved that could be released, and is recorded |
| ResponseReader.ReadRound | upstream/response.go:28-61 | one read and the judgement of its frame, with anything happening before and between |
| ResponseReader.ReadDNSResponse | upstream/response.go:27-62 | for any frames and any interference no reservation is held at any read made or at return, and the last frame read determines what is returned |
| ResponseReader.DnsCryptReceipt.Received | upstream/dnscrypt.go:135 | the adapter holds the ticket of the frame just received, if one was granted |
| ResponseReader.DnsCryptReceipt.DoDecoded | upstream/dnscrypt.go:137-155 | nothing stays reserved, exactly a fitting response is accepted, and a truncated datagram is no error |
| ResponseReader.ExchangeOnce | dnscrypt/client.go:189-233 | one query and one read: reserved after the read, accepted or rejected whatever happens meanwhile; left alone, a fitting response is the decision |
| ResponseReader.ExchangeDnsCrypt | upstream/dnscrypt.go:50-73 | with the fallback to TCP no reservation is held at any read, the exchange ends decided by the response returned or by a failure, and, left alone, by the response |
| Pending.DefaultPendingRequests.Enqueue | proxy/pending.go:63-101 | the first request of a key is stored as leader, later ones get that leader's object |
| Pending.DefaultPendingRequests.Done | proxy/pending.go:104-136 | the leader's result is written before its key is removed and its channel closed; a missing key panics |
| Pending.RunIsSound | proxy/pending.go:63-136 | in every run, whatever keys requests compute, objects stay with the key they were made for, and a channel closes once and over a written clone |
| Pending.WakeNeverPanics | proxy/pending.go:87-100 | in every run a follower past a closed channel gets a reply and never a nil clone |
| Pending.StorageByHistory | proxy/pending.go:82-134 | in every run the map holds a key exactly if a request was queued under it and none has removed it since |
| Pending.DonePanicsIff | proxy/pending.go:116-119 | in every run `done` panics on loading exactly if no request was queued under its key since the last removal |
| Pending.ClosePanicsIff | proxy/pending.go:135 | in every run `done` panics on closing exactly if another `done` has closed the object it loaded |
| Pending.ChangedKeyExample | proxy/pending.go:104-136 | a request that changed its key makes another panic that kept its own and still leads it |
| Pending.ClosesTwice | proxy/pending.go:104-136 | of two that have loaded one object the one that closes last panics |
| Pending.DoubleCloseExample | proxy/pending.go:104-136 | a run that comes to this |
| Pending.ReleasedByItsKey | proxy/pending.go:63-136 | in every run a released follower has the error of one `done`, and the upstream, statistics and record sections of one, that computed the follower's key |
| Pending.ForeignStep | proxy/pending.go:63-136 | a step of a request queued under another key touches nothing that belongs to a key no request moves to or from |
| Pending.StepKeepsInv | proxy/pending.go:63-136 | every step keeps what ties the map, the request objects, leaders and followers of such a key together |
| Pending.StorageIsRunningLeaders | proxy/pending.go:63-136 | the map holds such a key exactly while a leader of it runs, one leader |
| Pending.StableNeverPanics | proxy/pending.go:63-136 | no request of such a key panics |
| Pending.ClosedOnce | proxy/pending.go:104-136 | each channel of such a key is closed once, exactly when its leader has finished |
| Pending.FollowerHasLeader | proxy/pending.go:63-101 | every waiting follower of such a key waits on a leader of that key, and can wake exactly when it has finished |
| Pending.ReleasedWithLeadersResult | proxy/pending.go:63-101 | a released follower of such a key has its leader's error, upstream, statistics and record sections under its own ID |
| Pending.StableRunPanicsIff | proxy/pending.go:104-136 | if no request changes its key nothing panics, and `done` would panic exactly for a key without a running leader |
| DohClients.DohUpstream.CreateClient | upstream/doh.go:538-557 | a created client becomes current; a failure leaves none |
| DohClients.DohUpstream.GetClient | upstream/doh.go:508-532 | the current client is shared, a missing one created; never after close |
| DohClients.DohUpstream.ResetClient | upstream/doh.go:452-485 | a client already replaced is left alone; else the failed one is replaced and handed over |
| DohClients.DohUpstream.BeginClose | upstream/doh.go:211-231 | the first close takes the client away; later ones find it closed |
| DohClients.DohUpstream.EndClose | upstream/doh.go:211-231 | the error of closing that client is published |
| DohClients.RetryLoop | upstream/doh.go:167-208 | the retry loop is the step-by-step exchange, for any results of sends and resets |
| DohClients.StepKeepsInv | upstream/doh.go:167-231 | every step of exchanges and closers keeps the invariant |
| DohClients.EveryClientAccounted | upstream/doh.go:452-557 | in every interleaving each created client is in exactly one place: in use, handed over, held by close, or closed once |
| DohClients.OutOfUseForCause | upstream/doh.go:452-485 | a client out of use was failed on by an exchange that gave it up, unless close took it |
| DohClients.LateFailureHarmless | upstream/doh.go:458-464 | a failure on an older client leaves its successor in use |
| DohClients.AttemptsBounded | upstream/doh.go:187-194 | at most three sends, one with a new client, never two with the same client |
| DohClients.RetriedIff | upstream/doh.go:187-194 | a send is retried exactly if the client had been in use, the error allows it and fewer than three were made |
| DohClients.BeginsWith | upstream/doh.go:508-532 | which client an exchange begins with, and when a new one is made |
| DohClients.FailedClientGone | upstream/doh.go:196-205 | no client of an exchange that ended in an error is given to a later one |
| DohClients.OpenUpstreamProvides | upstream/doh.go:167-194 | while open, an exchange that begins or retries goes on with the client in use, not one it failed with |
| DohClients.NothingAfterClose | upstream/doh.go:211-231 | after close no client is in use or created, and an exchange makes at most the send it was about to make |
| DohClients.ClosersAgree | upstream/doh.go:211-231 | all closers return one error, after the client taken has been closed once |
| DohClients.CloseErrorOrigin | upstream/doh.go:211-231 | the error published is that of closing the client taken, none without a client |
| HttpWork.WorkGroup.BeginDial | upstream/http_work.go:18-26 | a dial is admitted exactly while not sealed |
| HttpWork.WorkGroup.AddProbes | upstream/doh.go:812-816 | both probes are counted before either starts |
| HttpWork.WorkGroup.Done | upstream/http_work.go:52 | the step that ends an outstanding item gives its reference back; the counter stays non-negative |
| HttpWork.WorkGroup.SealAdmission | upstream/http_work.go:28-33 | joining seals admission first |
| HttpWork.CountIsOutstanding | upstream/http_work.go:18-58 | in every interleaving the count is the number of unfinished items, never negative, and each item finishes once |
| HttpWork.NothingAfterSeal | upstream/http_work.go:18-33 | nothing is admitted after sealing, and once join has returned the count is zero for good |
| HttpWork.Admission | upstream/http_work.go:18-26 | until sealed a dial is admitted, before join both probes are, each with its reference |
| HttpWork.HeldUntilEnd | upstream/http_work.go:18-58 | admitted work keeps its reference until it ends, and join does not return before |
| HttpWork.DialHoldsUntilHandshake | upstream/doh.go:717-753 | a QUIC dial that is not settled keeps its reference, and join waiting, until its handshake ends; other dials end at once |
| HttpWork.JoinCanReturn | upstream/doh.go:718-753 | join can return from every state in which it waits |
| ServerLifecycle.DnsCryptServer.DoStart | dnscrypt/server.go:167-218 | a start succeeds exactly when not started, the previous run is done, and the sockets bind |
| ServerLifecycle.DnsCryptServer.DoAdopt | dnscrypt/servertcp.go:128-136 | an accepted connection is adopted only while started, and closed otherwise |
| ServerLifecycle.DnsCryptServer.DoShutdown | dnscrypt/server.go:255-277 | the loop closes every tracked connection; a server never started is refused |
| ServerLifecycle.DnsCryptServer.DoRelease | dnscrypt/servertcp.go:138-149 | a handler closes its connection, removes it, then leaves |
| ServerLifecycle.StepKeepsInv | dnscrypt/servertcp.go:79-152 | every step keeps what ties runs, connections, handlers and callers of shutdown together |
| ServerLifecycle.OneGenerationServes | dnscrypt/server.go:167-218 | at most one run serves at any time, and it is the latest |
| ServerLifecycle.ShutdownIsComplete | dnscrypt/server.go:255-277 | shutdown returns nil only when the loop and all handlers of its run have ended and all its connections are closed and untracked |
| ServerLifecycle.StartAfterOver | dnscrypt/server.go:167-218 | a start succeeds only when everything of every earlier run is over |
| ServerLifecycle.NoAdoptionAfterShutdown | dnscrypt/servertcp.go:109-152 | once shutdown has begun no connection of that run is adopted and those still handled are closed |
| ServerLifecycle.StillAccepting | dnscrypt/servertcp.go:79-126 | whatever happens, also timeouts, the loop of a started server goes on unless the listener fails otherwise |
| ServerLifecycle.ConnectionServed | dnscrypt/servertcp.go:109-152 | and the next connection it gets is tracked, open and handled |
| ServerLifecycle.StartsIff | dnscrypt/server.go:167-218 | exactly when a start starts a run |
| ServerLifecycle.RestartAfterShutdown | dnscrypt/server.go:167-277 | a server whose shutdown returned nil can be started again |
| ServerLifecycle.ShutdownCanFinish | dnscrypt/server.go:255-277 | from every reachable state a begun shutdown can still return nil |
| Padding.PaddedSize | dnscrypt/encryption.go:37-46 | the least multiple of 64 that is at least 256 and beyond the marker |
| Padding.AppendZeros | dnscrypt/encryption.go:47-49 | the loop appends zeros up to a size, in place while there is capacity |
| Padding.Pad | dnscrypt/encryption.go:37-52 | the marker and zeros up to that size are appended; only spare capacity of the caller's array is written |
| Padding.Unpad | dnscrypt/encryption.go:55-72 | the backward scan accepts exactly a packet of at least 17 bytes, 0x80 and zeros |
| Padding.UnpaddedUnique | dnscrypt/encryption.go:55-72 | a padding determines its packet |
| Padding.PadThenUnpad | dnscrypt/encryption.go:37-72 | padding is undone exactly for packets of at least 17 bytes |
| SecretBox.Cipher.XORKeyStream | dnscrypt/internal/xsecretbox/xsecretbox.go:45-67 | the cipher combines its input with the key stream from its position on and touches nothing else |
| SecretBox.FirstBlock | dnscrypt/internal/xsecretbox/xsecretbox.go:39-47 | encrypting zeros yields the first key stream block |
| SecretBox.Combine | dnscrypt/internal/xsecretbox/xsecretbox.go:50-67 | the split after 32 bytes and the counter reset amount to one key stream from byte 32 on |
| Slices.SliceForAppend | dnscrypt/internal/xsecretbox/xsecretbox.go:137-148 | room for more bytes, in place exactly if the capacity allows it |
| SecretBox.Seal | dnscrypt/internal/xsecretbox/xsecretbox.go:30-76 | appends tag and ciphertext, in place exactly if they fit the capacity; nothing else is written |
| SecretBox.Open | dnscrypt/internal/xsecretbox/xsecretbox.go:81-133 | short boxes and wrong tags give no slice and nothing is written, otherwise the message is appended, in place exactly if it fits the capacity |
| SecretBox.OpensExactlyItsBox | dnscrypt/internal/xsecretbox/xsecretbox.go:30-133 | opening gives a message exactly on the box of that message |
| SecretBox.BoxTag | dnscrypt/internal/xsecretbox/xsecretbox.go:30-76 | a box is the tag, under the first 32 key stream bytes, of what follows |
| SecretBox.BoxBits | dnscrypt/internal/xsecretbox/xsecretbox.go:30-76 | which is the message with the key stream from byte 32 on added bit by bit |
| DnsCryptCodec.UnsealedExactly | dnscrypt/encryptedquery.go:119-142 | for both constructions opening gives a message exactly on its sealed form |
| DnsCryptCodec.RecoveredExactly | dnscrypt/encryptedresp.go:82-106 | exactly the sealed paddings of a packet of at least 17 bytes recover it |
| DnsCryptCodec.EncryptedQuery.Encrypt | dnscrypt/encryptedquery.go:44-70 | nonce of clock, random bytes and kept tail; magic, key, half nonce and sealed padding on the wire |
| DnsCryptCodec.EncryptedQuery.Decrypt | dnscrypt/encryptedquery.go:74-142 | the packet or the first error in order, and the fields taken from the query |
| DnsCryptCodec.EncryptedResponse.Encrypt | dnscrypt/encryptedresp.go:29-54 | the client's half of the nonce is kept, random bytes and clock fill the rest |
| DnsCryptCodec.EncryptedResponse.Decrypt | dnscrypt/encryptedresp.go:57-106 | the packet or the first error in order, and the nonce taken from the response |
| DnsCryptCodec.QueryRoundTrip | dnscrypt/encryptedquery.go:44-142 | the server recovers the client's packet exactly when it has at least 17 bytes |
| DnsCryptCodec.ResponseRoundTrip | dnscrypt/encryptedresp.go:29-106 | the client recovers the server's packet exactly when it has at least 17 bytes |
| DnsCryptCodec.ShortPacketExample | dnscrypt/encryption.go:55-72 | the empty packet is sealed and then refused |
| DnsCryptCodec.AcceptedResponseExactly | dnscrypt/encryptedresp.go:57-106 | exactly which byte strings the client accepts as the response with a packet: the sealed padding under a nonce that starts like its own |
| DnsCryptCodec.AcceptedQueryExactly | dnscrypt/encryptedquery.go:74-142 | exactly which byte strings the server accepts as a query for a packet |
| DnsCryptCodec.QueryRefused | dnscrypt/encryptedquery.go:74-100 | why a query is refused before it is opened |
| DnsCryptCodec.ResponseRefused | dnscrypt/encryptedresp.go:57-80 | why a response is |
| DnsCryptCodec.RunExchange | dnscrypt/server.go:314-350 | client and server objects together deliver question and answer, or refuse the short one |
| TxtString.EscapeByte | dnscrypt/string.go:55-64 | the table slice is the backslash and three decimal digits of the byte |
| TxtString.PackTxtString | dnscrypt/string.go:34-51 | the loop escapes every byte in order |
| TxtString.IsDigitSequence | dnscrypt/string.go:96-104 | whether all bytes are digits |
| TxtString.UnpackEscape | dnscrypt/string.go:77-89 | one escape: three digits with wrap-around, a named one, the byte itself, or nothing at the end |
| TxtString.UnpackTxtString | dnscrypt/string.go:67-93 | the loop undoes escapes from left to right |
| TxtString.TextRoundTrip | dnscrypt/string.go:34-124 | packing and unpacking is the identity on every byte string |
| TxtString.PackedPrintable | dnscrypt/string.go:34-51 | the text is printable ASCII with every quote escaped |
| TxtString.PackedByte | dnscrypt/string.go:34-64 | the text of each byte, by section 5.1 of RFC 1035 |
| TxtString.UnpackedDigits | dnscrypt/string.go:77-124 | three digits behind a backslash are a number, of which a byte is kept |
| TxtString.UnpackedEscape | dnscrypt/string.go:77-124 | what another byte behind a backslash stands for |
| TxtString.UnpackedPlain | dnscrypt/string.go:67-93 | other bytes are as they are, a last backslash is dropped |
| Certificate.Holder.WriteSigned | dnscrypt/certificate.go:185-191 | writes the 52 signed bytes |
| Certificate.Holder.MarshalBinary | dnscrypt/certificate.go:72-81 | writes the 124 bytes of the wire form |
| Certificate.Holder.UnmarshalBinary | dnscrypt/certificate.go:106-133 | reads all fields, or reports the first error and changes nothing; the secret key is never touched |
| Certificate.Holder.VerifyDate | dnscrypt/certificate.go:140-150 | in date exactly within a period that is not empty |
| Certificate.Holder.VerifySignature | dnscrypt/certificate.go:154-159 | what is verified is bytes 72 to 124 of the wire form |
| Certificate.Holder.Sign | dnscrypt/certificate.go:162-167 | only the signature changes, to that of the signed part |
| Certificate.WireParts | dnscrypt/certificate.go:72-81 | where each field lies; the signed part is bytes 72 to 124 |
| Bytes.BE32Bytes | dnscrypt/certificate.go:185-191 | numbers are written most significant byte first |
| Certificate.WireRoundTrip | dnscrypt/certificate.go:72-133 | marshalling and parsing restores every field, exactly for supported constructions |
| Certificate.AcceptedWire | dnscrypt/certificate.go:106-133 | an accepted wire form is what its certificate marshals to, except for the minor version and trailing bytes |
| Certificate.TextTransparent | dnscrypt/client.go:422-425 | through the TXT text the fields and the verdict on the signature stay the same |
| Certificate.CertHasHigherPriority | dnscrypt/client.go:460-500 | a higher serial wins, then a higher construction |
| Certificate.ReadRecord | dnscrypt/client.go:416-447 | the usable certificate of one record: parsed, in date and signed |
| Certificate.OfferExactly | dnscrypt/client.go:416-447 | exactly which bytes offer which certificate: magic, construction, fields at their places, a date within the period, and a signature of bytes 72 to 124 |
| Certificate.ParseAnswer | dnscrypt/client.go:410-455 | the first of the most preferred usable certificates, in date, with no usable one of a higher serial number or, for the same, construction; none only if there is none |
| Dns64.Proxy.SetupDNS64 | proxy/dns64.go:43-67 | the well-known prefix by default, else all prefixes masked; the first unusable one is reported and ends the list |
| Dns64.Proxy.FilterNAT64Answers | proxy/dns64.go:117-141 | in place, exactly the malformed and excluded AAAA records are removed and the freed slots cleared; whether another AAAA remains |
| Dns64.Proxy.CheckDNS64 | proxy/dns64.go:75-112 | exactly when an A query is made, and what happens to the answer |
| Dns64.ContainsIff | proxy/dns64.go:117-141 | an address lies in a prefix exactly if it agrees with it in each of its first bits |
| Dns64.ExcludedIff | proxy/dns64.go:117-141 | an AAAA record stays exactly if its address lies outside every prefix, a long form of an IPv4 address counting as IPv4 |
| Dns64.OutsideStays | proxy/dns64.go:75-141 | such a record stays in its place and counts as an answer |
| Dns64.InsideGoes | proxy/dns64.go:117-141 | one inside a prefix goes |
| Dns64.OthersStay | proxy/dns64.go:117-141 | records of other types stay, malformed AAAA records go |
| Dns64.Proxy.MapDNS64 | proxy/dns64.go:234-245 | twelve bytes of the first prefix and the four of the address |
| Dns64.Proxy.SynthRecord | proxy/dns64.go:251-275 | an A record becomes AAAA, others pass, an invalid A fails |
| Dns64.SOATTL | proxy/dns64.go:158-165 | the TTL of the first SOA of the queried name, or 600 |
| Dns64.SOATTLMeans | proxy/dns64.go:158-165 | that TTL, by the records before and after |
| Dns64.Proxy.SynthAll | proxy/dns64.go:167-176 | the records synthesized in order, or failure exactly on an invalid A record |
| Dns64.Proxy.SynthDNS64 | proxy/dns64.go:146-183 | succeeds exactly on a non-empty answer with valid addresses, and otherwise leaves the response alone |
| Dns64.SynthesisMeans | proxy/dns64.go:146-183 | order kept, other records untouched, addresses inside the first prefix and readable back, the smaller TTL |
| Dns64.SynthesizedExcludedIff | proxy/dns64.go:117-275 | exactly when a synthesized address is itself excluded |
| Dns64.MappedOnlyIf96 | proxy/dns64.go:43-67 | only ::ffff:0:0/96 is stored as the IPv4-mapped prefix |
| Dns64.MappedPrefixExample | proxy/dns64.go:117-275 | with that prefix a synthesized record is not excluded |
| Dns64.InvalidPrefixExample | proxy/dns64.go:43-67 | an invalid prefix is accepted, and what it synthesizes is not excluded |
| Dns64.SynthesizedAgain | proxy/dns64.go:75-183 | a synthesized answer counts as one without AAAA records for the same prefixes |

## Left out

- Sockets, TLS, QUIC, HTTP transports, dialing and deadlines; of the listeners only the TCP admission logic is modelled, not the UDP server.
- Wire packing of DNS messages, truncation and copying: an inverse pair of functions stands for packing.
- Ciphers, authenticators, signatures and key agreement themselves: function values with laws.
- The single refresher of DNSCrypt certificates in upstream/dnscrypt.go: a slot and two checks, easier than what is modelled.
- Upstream ordering, parallel exchange, ping cache, bootstrap resolvers, load balancing weights, rate limiting, hosts files, command line, logging and statistics.
- TTL overrides by configuration (proxy/cache.go:552-562) and the ratio of stale hits.
- The size margin of encrypted messages over UDP.
- Letter case and white space beyond ASCII in names and configuration lines.
- Internationalised domain validation: any validator that ignores letter case and refuses a lone asterisk.
- Receipt.ExchangeState.DoStart: the nil receiver, for which all calls are no-ops, is not modelled.
- Pending.ReleasedWithLeadersResult: says nothing about a follower's response code, which the reply header rewrites; and for keys that no request moves to or from, else error and clone may come from two requests (Pending.ReleasedByItsKey holds in every run).
- Pending.StorageIsRunningLeaders: for keys that no request moves to or from, because a request that does can take the key of another out of the map (Pending.ChangedKeyExample); Pending.StorageByHistory holds in every run.
- Pending.StableNeverPanics: for the same keys; Pending.DonePanicsIff, Pending.ClosePanicsIff and Pending.WakeNeverPanics hold in every run.
- Pending.ClosedOnce: for the same keys; Pending.RunIsSound, at most once, holds in every run.
- Pending.FollowerHasLeader: for the same keys, because a leader that changed its key may never close its object.
- SecretBox.Seal: the message is a value, so a message that shares memory with the output is not captured.
- DohClients.RetryLoop: takes the results of sends and resets as given; their interleaving with other exchanges is in the step system.
- Stripping of DNS64 prefixes from reverse lookups (proxy/dns64.go:199-227).
