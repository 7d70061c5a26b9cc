# A Dafny model of the family-filtering router agent

This project models the dense cores of the router agent and its relay, and proves what their
documentation promises, or exactly when the promise is kept. It has one module per component.

| Component | Module (file) |
|---|---|
| Driving the live WireGuard interface to a peer list | `WgSync` |
| The peer table and its reconciliation with the policy bundle | `TunnelTable`, `Addresses` |
| Stripping the EDNS client subnet | `EcsStrip`, `NameEnds` (EcsStrip.dfy), `EcsLayout` |
| DNS names, questions and synthesised replies | `DnsNames`, `DnsMessages`, `DnsLayout` |
| Internet checksums | `Checksum` |
| Filtering and answering DNS inside the fallback tunnel | `BlockedReply`, `TunnelFilter`, `PacketLayout` |
| The bounded cache of leaf certificates | `LeafCache` |
| Bloom filter, blocklist, newly registered domains | `Bloom`, `DomainNames`, `Blocklist`, `Nrd` (Blocklist.dfy) |
| The decisions of DNS resolver and SNI proxy | `Decisions` |
| The command ledger and its executor | `CommandLedger` |
| The deduplicated fetch of family configuration | `FamilyConfig` |
| The relay's node registry | `Registry` |
| Degraded-mode routing | `Fallback` |
| Endpoint ownership in the relay's terminator | `Endpoints` |
| Compiling policy to iptables | `Firewall` |
| The fail-safe state machine | `Failsafe` |
| Runs of a state machine, shared by the four protocols | `Runs` |

Code that updates objects step by step is written as classes and loops, each proved against a function
or predicate whose own properties are the lemmas beside it. Code whose point is interleaving (command
ledger, configuration fetch, endpoints, bridge and janitor) is a state machine whose steps are the
critical sections, and its theorems range over all runs. The `Layout` modules restate the results about DNS bytes for
messages and packets put together field by field, without the functions the model itself reads them with.

Run `dafny verify dfyconfig.toml --resource-limit 2000000 --verification-time-limit 0`.

## Where the code and its comments disagree

The model follows the code.

- A wg0 peer shown as `(none)` is invisible to the diff, so an unwanted one is never removed
  (internal/tunnel/wgconf.go:281-305; `WgSync.Live`, `WgSync.PassResult`).
- One pass over the peers is not always enough: a peer whose old address is wanted by a later peer is
  set and then removed again, because the snapshot is not refreshed (`WgSync.OnePassExact`).
- `AddPeer` reports success, but the sync it triggers usually deletes the peer again
  (`TunnelTable.AddedSurvivesIff`); `RemovePeer` of a key in the bundle is undone the same way.
- The count of answer and authority records wraps at 16 bits (internal/dns/ecs_strip.go:80).
- `readName` follows pointers without a bound and may never return (internal/dns/wire.go:170-180).
- `buildNXDomain` ORs its RCODE into the query's (internal/dns/wire.go:133).
- The comment in `buildBlockedDNSReply` gives the sinkhole as 10.10.0.2; the constant is 10.10.0.254.
- The comment of `IsNRD` says a bare top-level domain is never matched; the code does look it up
  (internal/dns/nrd_blocklist.go:94-105).
- `isProtective` lacks "fake_banking", which the priority table ranks as protective
  (internal/sniproxy/sniproxy.go:54-66, internal/dns/blocklist.go:81-86).
- A child's selected categories cannot change what the resolver blocks: its global step already covers
  the union of all categories (internal/dns/resolver.go:75-132).
- A command whose final "done" write is lost is reported to the cloud as failed, for good; one whose first
  acknowledgement is lost is reported as failed and then executed (`CommandLedger.FalseFailureIff`).
- After a failed fetch of a family's configuration, all its waiters can fetch at once.
- A call underway when `Stop` is called can install its endpoint afterwards, and then only another `Stop`
  closes it (`Endpoints.StopIsFinalIff`).
- Fallback notifications are sent best effort by independent goroutines, so one can be lost or overtake another,
  and a recovery first seen by the bridge is never reported (`Fallback.EndsRightIff`, `Fallback.CloudToldIff`).
- The fail-safe always reports "bundle_expired_cloud_unreachable", also when no bundle was ever
  received (internal/enforcer/failsafe_enforcer.go:126).
- rules.go says established connections are accepted before the per-child chain; inserting each missing
  rule at position 1 puts the jump first on a clean FORWARD chain, and after the conntrack rule when
  only that rule was missing.
- `PauseDevice` is given a hardware address (internal/commands/handlers.go:71-83), which iptables refuses as a source
  or destination: nothing is appended, and the command is still reported as enforced.

## Model

| member | source | states |
|---|---|---|
| WgSync.Interface.SyncPeersDiff | internal/tunnel/wgconf.go:198-277 | A successful pass leaves exactly the desired peers, minus each peer whose old address is the desired address of a later one; a peer already right gets no command, also when the pass fails half way |
| WgSync.Interface.AddOrUpdate | internal/tunnel/wgconf.go:223-257 | One loop iteration takes the exact state after n peers to the exact state after n + 1, with the stale snapshot's own history |
| WgSync.Interface.RemoveOrphans | internal/tunnel/wgconf.go:259-270 | The closing loop removes every key the snapshot still shows and nobody wants, and nothing else |
| WgSync.GoneIsEvicted | internal/tunnel/wgconf.go:236-248 | A peer the pass has set is missing at its end exactly when a later peer wanted its old address |
| WgSync.OnePassExact | internal/tunnel/wgconf.go:190-198 | One pass makes live equal desired exactly when it evicts nobody |
| WgSync.TwoPassesConverge | internal/tunnel/wgconf.go:190-198 | From any interface state two successful passes make live equal desired |
| WgSync.ConvergedIsQuiet | internal/tunnel/wgconf.go:197-229 | Once live equals desired, no command is ever warranted: handshakes survive |
| WgSync.SwapNeedsTwoPasses | internal/tunnel/wgconf.go:236-257 | Two peers exchanging addresses: after the first pass one of them is gone |
| WgSync.BarePeer | internal/tunnel/wgconf.go:223-257 | A peer wanted at a bare address is configured at that address with "/32", and one already live there is never touched |
| Addresses.NormalizesTo | internal/tunnel/manager.go:545-554 | White space around an address goes; what is left gets "/32" unless it is empty or has a slash |
| Addresses.AsciiSpace | internal/tunnel/manager.go:546-546 | Which ASCII characters count as white space |
| Addresses.NormalizeIdempotent | internal/tunnel/manager.go:545-554 | Normalising an address again changes nothing, so the layers that each do it agree |
| TunnelTable.Manager.UpsertPeer | internal/tunnel/manager.go:500-519 | Refuses invalid keys and addresses; otherwise replaces both conflicting rows and keeps both columns unique |
| TunnelTable.Manager.Reconcile | internal/tunnel/manager.go:252-300 | The exact table left for every bundle; only keys of the bundle are in it, and a consistent bundle is mirrored, whatever rows were there before |
| TunnelTable.ReconciledRow | internal/tunnel/manager.go:255-300 | That table row by row: a key that was written has its last row unless a later write takes the address; a key whose children were all refused keeps its old row unless a write takes the address; nothing else is left |
| TunnelTable.BareChildWrites | internal/tunnel/manager.go:253-280 | A child at a bare address writes one row, with "/32" and its own device and identifier, exactly when its key is 44 characters long and the parser takes the address |
| TunnelTable.MirroredFields | internal/tunnel/manager.go:253-280 | In a mirroring table such a child's row holds its address with "/32", its device and its identifier |
| TunnelTable.IncompleteChildIgnored | internal/tunnel/manager.go:254-256 | A child without a key or an address writes nothing |
| TunnelTable.ValidKeyIff | internal/tunnel/manager.go:597-603 | A key is valid exactly when it is 44 characters long without the white space around it |
| TunnelTable.AddedSurvivesIff | internal/tunnel/manager.go:146-170 | Exactly when a peer just added is still in the table after the sync |
| TunnelTable.MirrorUnique | internal/tunnel/manager.go:224-226 | The reconciled table is determined by the bundle, so reconciling again changes nothing |
| TunnelTable.Manager.LoadPeers | internal/tunnel/manager.go:482-498 | Lists each row once, with distinct keys and distinct normalised addresses |
| TunnelTable.Manager.Sync | internal/tunnel/manager.go:226-321 | No bundle changes nothing, a bootstrap bundle never touches the table, any other bundle leaves exactly the reconciled table; then one pass drives wg0 to the table |
| TunnelTable.Manager.SyncTwice | internal/tunnel/manager.go:204-226 | Two successful rounds with a consistent bundle make the live peers equal the bundle |
| TunnelTable.TwoListingsConverge | internal/tunnel/manager.go:482-498 | Convergence does not depend on the two rounds listing the table in the same order |
| TunnelTable.Manager.AllocateIp | internal/tunnel/manager.go:451-480 | The lowest free host address, and failure exactly when 2 to 253 are all in use |
| TunnelTable.CandidateIs | internal/tunnel/manager.go:451-480 | The i-th host is written 10.10.0. and the decimal number i, so different hosts are different strings |
| TunnelTable.Manager.InsertPeer | internal/tunnel/manager.go:157-164 | A new key gets the lowest free address and no other row changes |
| TunnelTable.Manager.AddPeer | internal/tunnel/manager.go:146-170 | A known key is answered and nothing changes; a new one gets the lowest free address, and with an authoritative bundle the table is then the reconciled one |
| TunnelTable.Manager.RemovePeer | internal/tunnel/manager.go:172-182 | Without an authoritative bundle only the row goes; with one the remaining table is reconciled, which can bring the key back |
| EcsStrip.StripEcs | internal/dns/ecs_strip.go:49-120 | On every byte string: reports stripping exactly when the first OPT record parses to options with a client subnet, and returns the message with exactly those options cut out |
| EcsLayout.LayoutStrips | internal/dns/ecs_strip.go:49-120 | A message laid out as header, questions, records, an OPT record with options and a tail is stripped exactly when an option has code 8, and comes back as the same layout with those options left out |
| EcsLayout.KeptStep | internal/dns/ecs_strip.go:131-151 | One more option is left out if its code is 8 and kept in place otherwise |
| EcsLayout.OptionBytes | internal/dns/ecs_strip.go:131-151 | One more option is written as its code, its length and its data |
| EcsStrip.StrippedParses | internal/dns/ecs_strip.go:112-168 | The result's first OPT record parses to the old options without code 8, under the right RDLENGTH; all bytes outside it are kept |
| EcsStrip.StripIdempotent | internal/dns/ecs_strip.go:40-49 | The code run on its own output, counting records afresh, finds nothing to strip and returns it unchanged |
| EcsStrip.WithoutEcsExact | internal/dns/ecs_strip.go:141-144 | The filter drops exactly the options of code 8 |
| EcsStrip.EncodeInverts | internal/dns/ecs_strip.go:131-151 | An option list that parses is the encoding of what it parses to |
| EcsStrip.ParseInverts | internal/dns/ecs_strip.go:131-151 | Encoding and parsing an option list gives it back |
| EcsStrip.CountsExact | internal/dns/ecs_strip.go:80-80 | The code agrees with unbounded record counting on all messages with the given counters if and only if they add up to less than 65536 |
| EcsStrip.ScanOptions | internal/dns/ecs_strip.go:127-152 | The kept ranges spell the encoding of the filtered list, and the scan gives up exactly when the list does not parse |
| EcsStrip.StripOptOption | internal/dns/ecs_strip.go:127-170 | The in-place surgery equals replacing RDATA by the encoded filtered list and rewriting RDLENGTH |
| EcsStrip.SkipNameLoop | internal/dns/ecs_strip.go:176-196 | The cursor loop ends on every input and finds the end of the name |
| NameEnds.SkipNameAgrees | internal/dns/ecs_strip.go:176-196 | On names that can be read the skipper and the name parser agree on the end, and the skipper refuses exactly those with a length byte from 0x40 to 0xBF |
| DnsNames.TerminatesIff | internal/dns/wire.go:157-194 | Reading a name ends if and only if it ends within one step per byte of the message, plus one |
| DnsNames.DivergesForever | internal/dns/wire.go:170-180 | A name that runs longer than that has entered a cycle and is never read to its end |
| DnsNames.DivergesIff | internal/dns/wire.go:170-180 | A name is never read to its end exactly when the cursor returns to an offset it has left |
| DnsNames.DescendingReads | internal/dns/wire.go:170-180 | If every pointer goes below the start of its own run, reading ends |
| DnsNames.SelfPointerDiverges | internal/dns/wire.go:170-180 | Two bytes whose name is never read to the end |
| DnsNames.JoinSplit | internal/dns/wire.go:89-89 | Splitting a name at its dots and joining the pieces gives the name |
| DnsNames.RejoinIff | internal/dns/wire.go:89-95 | Dropping empty pieces keeps the name exactly when there are none or the name is the root |
| DnsMessages.ReadNameLoop | internal/dns/wire.go:157-194 | The cursor loop returns the joined labels and the bytes consumed up to the first pointer |
| DnsMessages.ParseQueryLoop | internal/dns/wire.go:26-54 | The loop reads the announced number of questions, or fails, as the recursive reader does |
| DnsLayout.MessageRead | internal/dns/wire.go:26-54 | A header, any number of questions with any types and classes, and anything behind them are read as exactly those questions |
| DnsLayout.CompressedRead | internal/dns/wire.go:164-180 | Labels closed by a pointer continue with the labels at the offset in its low fourteen bits; two bytes of it are consumed |
| DnsLayout.SameSpelling | internal/dns/wire.go:90-95 | The encoder writes labels as the client-subnet theorem lays them out |
| DnsMessages.EncodedReads | internal/dns/wire.go:157-194 | Labels written out with a root byte are read back as the same labels |
| DnsMessages.BuildSinkholeA | internal/dns/wire.go:80-122 | Yields the A reply for the first question, or the NXDOMAIN fallback when the query has none or cannot be read |
| DnsMessages.SinkholeRoundTrip | internal/dns/wire.go:80-122 | The reply has QR and RA set and RCODE 0 beside the query's other flag bits, and parses back to one A/IN question and an answer whose 0xC00C owner is the same name, consuming two bytes; it is the queried name exactly when that has no empty piece or is the root |
| DnsMessages.SinkholeBitsReply | internal/dns/wire.go:101-104 | Byte by byte: QR and RA set, RCODE 0, every other bit the query's |
| DnsMessages.ServFailBitsReply | internal/dns/wire.go:147-149 | Byte by byte: QR set, RCODE 2, every other bit the query's |
| DnsMessages.NxDomainBitsReply | internal/dns/wire.go:130-133 | Byte by byte: QR, RA and the two low bits of the RCODE set, every other bit the query's |
| DnsMessages.NxDomainRcodeIff | internal/dns/wire.go:130-133 | The reply says NXDOMAIN if and only if the query's own RCODE was below 4 |
| DnsMessages.NxDomainRcodeWrong | internal/dns/wire.go:133-133 | A query with RCODE 4 is answered with RCODE 7 |
| DnsMessages.NxDomainBytes | internal/dns/wire.go:124-139 | The whole NXDOMAIN reply: identifier, QDCOUNT and body kept, the three record counts zeroed, the flags ORed |
| DnsMessages.ServFailBytes | internal/dns/wire.go:141-155 | The whole SERVFAIL reply: identifier kept, RCODE 2, all counts zero, nothing behind the header |
| DnsMessages.BuildServFail | internal/dns/wire.go:141-155 | The loop yields a bare header under the query's identifier |
| DnsMessages.ServFailParses | internal/dns/wire.go:141-155 | The SERVFAIL reply parses to the query's identifier and no question |
| Checksum.FoldStep | internal/terminator/wg_device.go:349-351 | One fold keeps the value modulo 65535, and zero only comes from zero |
| Checksum.Fold | internal/terminator/wg_device.go:349-351 | The fold loop ends with the 16-bit one's-complement representative of the 32-bit sum |
| Checksum.OnesSumIsResidue | internal/terminator/wg_device.go:344-383 | A receiver adding with end-around carry word by word reaches that same representative |
| Checksum.AcceptsIff | internal/terminator/wg_device.go:344-383 | Exactly which byte strings a receiver accepts |
| Checksum.AcceptsWeighed | internal/terminator/wg_device.go:344-383 | Namely those whose bytes, the even offsets counted 256 times, add up to a positive multiple of 65535 |
| Checksum.ComplementAccepted | internal/terminator/wg_device.go:352-382 | Writing the complement, or all ones for zero, into the zeroed word makes the receiver accept |
| Checksum.CorruptionDetected | internal/terminator/wg_device.go:344-383 | Changing one word is noticed except when it exchanges the two forms of zero |
| Checksum.AddWords | internal/terminator/wg_device.go:346-348 | The 32-bit accumulator never overflows and holds the plain sum of the words |
| Checksum.IpChecksum | internal/terminator/wg_device.go:344-353 | Changes only the checksum word, and a receiver accepts the header |
| Checksum.UdpChecksum | internal/terminator/wg_device.go:358-383 | Changes only the checksum word, never to zero, and a receiver accepts pseudo-header and datagram, odd lengths included |
| BlockedReply.ExtractDnsQName | internal/terminator/wg_device.go:218-250 | The loop collects the labels up to a zero byte or the end, and fails on pointers, overruns and a 128th label |
| BlockedReply.FilterSeesTheName | internal/terminator/wg_device.go:218-250 | Whenever both succeed, the name that is filtered is the name the parser reads from the payload |
| BlockedReply.WellFormedExtracted | internal/terminator/wg_device.go:218-250 | Every uncompressed name of up to 127 labels of at most 63 bytes is extracted, and parsed, as itself |
| BlockedReply.ExtractFailsIff | internal/terminator/wg_device.go:231-247 | Of a query that can be read, the filter fails to extract the name exactly when it meets a pointer or a length above 63, or has more than 127 labels |
| BlockedReply.ReplyFits | internal/terminator/wg_device.go:286-303 | Once a name has been extracted, the reply fits the 16-bit length fields |
| BlockedReply.BuildBlockedDnsReply | internal/terminator/wg_device.go:265-339 | A reply exists exactly for well-formed UDP packets with a DNS header; addresses and ports are exchanged, both lengths right, both checksums accepted, the payload the DNS reply |
| BlockedReply.BlockedReplyNames | internal/terminator/wg_device.go:252-339 | End to end, the reply names the extracted name under the query's identifier |
| TunnelFilter.OnPlaintextOutbound | internal/terminator/wg_device.go:145-165 | A packet is held back exactly when it is a DNS query for a name covered by one of the family's categories, and the reply answers that very name from port 53 |
| TunnelFilter.FilteredIff | internal/terminator/wg_device.go:145-165 | Of the queries that can be read, exactly those for a covered name written without pointers, long or too many labels are held back; a covered name written otherwise is forwarded |
| TunnelFilter.LookedUpIs | internal/terminator/wg_device.go:149-152 | The name looked up: byte for character, capitals made small, up to two closing dots dropped |
| PacketLayout.HeldBackIff | internal/terminator/wg_device.go:145-165 | A packet put together from an IPv4 header of any length, a UDP header and a query for some labels is held back exactly when it goes to port 53 and the name of those labels is covered |
| PacketLayout.AnswerCarriedBack | internal/terminator/wg_device.go:252-339 | The answer to such a packet, byte by byte: addresses and ports exchanged, identifier and question repeated, one A record for 10.10.0.254, both checksums accepted |
| LeafCache.LeafCache.Get | internal/sinkhole/sinkhole_tls.go:217-226 | Finds exactly the cached hosts, with their own certificate; a hit is the most recent request, a miss changes nothing |
| LeafCache.LeafCache.Put | internal/sinkhole/sinkhole_tls.go:228-244 | The list and map again hold the most recent hosts, evicting at most the oldest |
| LeafCache.LeafMinter.GetCertificate | internal/sinkhole/sinkhole_tls.go:140-158 | The certificate is for the named server, or for safeswitch-block.local if none is named; the history grows by it exactly on success |
| LeafCache.RequestMovesToFront | internal/sinkhole/sinkhole_tls.go:217-244 | One more request, seen through the window of the most recent hosts: moved to the front, or pushed with the oldest dropped |
| LeafCache.RecentIsRecencyOrder | internal/sinkhole/sinkhole_tls.go:201-208 | The specification lists each host of the history once, later last requests first |
| LeafCache.CacheIsRecentWindow | internal/sinkhole/sinkhole_tls.go:201-244 | After any run of requests the cache holds the `max` most recently requested distinct hosts in that order, and the map has the same hosts |
| Bloom.BloomFilter.Add | internal/dns/blocklist.go:351-357 | The added name is present and nothing present is lost, in wrapping 64-bit arithmetic |
| Bloom.BloomFilter.MaybeContains | internal/dns/blocklist.go:359-368 | Answers yes exactly when every probe hits a set bit |
| Bloom.ProbeAdvances | internal/dns/blocklist.go:351-368 | The i-th probe is where adding the second hash i times to the first leads, modulo 2^64, reduced to the array |
| DomainNames.PriorityInjective | internal/dns/blocklist.go:48-86 | Two categories of the table never tie |
| DomainNames.PriorityIff | internal/dns/blocklist.go:56-86 | The table read backwards: each rank belongs to exactly one category |
| DomainNames.NormIff | internal/dns/blocklist.go:124-124 | Two names come to the same exactly when they spell the same letters, case and one closing dot aside |
| DomainNames.SuffixIff | internal/dns/blocklist.go:132-145 | A parent of a name is what follows one of its dots |
| DomainNames.ListedStep | internal/dns/blocklist.go:132-145 | A name is listed exactly when it is in the set or the part after its first dot is listed |
| Blocklist.Blocklist.Load | internal/dns/blocklist.go:236-287 | A successful load makes all indexes describe the usable rows, with no false negative in the filter; a failed one changes nothing |
| Blocklist.UsableIff | internal/dns/blocklist.go:248-258 | The rows that count are the readable ones with a name, name and category normalised |
| Blocklist.Blocklist.IsBlocked | internal/dns/blocklist.go:123-146 | Equals the plain test that some row lists the normalised name or a parent |
| Blocklist.Blocklist.IsBlockedForCategories | internal/dns/blocklist.go:155-192 | The same test restricted to rows of the given categories |
| Blocklist.SpellingIgnored | internal/dns/blocklist.go:123-192 | Names that differ in case or one closing dot get the same answers |
| Blocklist.LowerSetIff | internal/dns/blocklist.go:167-170 | The wanted categories are the given ones in the spelling without capitals |
| Blocklist.Blocklist.CategoryFor | internal/dns/blocklist.go:205-226 | The category of the earliest best-priority row of the longest listed suffix, or none when the name is not blocked |
| Blocklist.BestCategoryOrderFree | internal/dns/blocklist.go:267-273 | A reported category of the table does not depend on the order of the rows |
| Blocklist.ReportedUnique | internal/dns/blocklist.go:267-273 | One listing of the rows determines the reported category: the earliest best row of the longest listed suffix |
| Blocklist.CategoriesWithinList | internal/dns/blocklist.go:259-265 | Blocked for some categories implies blocked |
| Nrd.IsNrd | internal/dns/nrd_blocklist.go:80-109 | The early stop does not matter: the answer is the plain suffix test |
| Nrd.TopLevelIsBlocked | internal/dns/nrd_blocklist.go:99-105 | A bare top-level domain in the feed does block every name under it |
| Decisions.ResolverVerdict | internal/dns/resolver.go:75-132 | Blocks exactly paused sources and listed names; the per-child step never decides |
| Decisions.Resolve | internal/dns/resolver.go:63-141 | Which of the four answers a query gets, by its first question |
| Decisions.SniVerdict | internal/sniproxy/sniproxy.go:170-212 | Blocks exactly paused devices that name a server, and listed names that are not excused |
| Decisions.Compare | internal/sniproxy/sniproxy.go:177-212 | Whatever the proxy blocks the resolver blocks; they differ exactly for excused names and paused connections without a name |
| Decisions.SelectionIsIrrelevant | internal/dns/resolver.go:105-131 | Blocked by any category selection implies blocked already, and every blocked name is blocked by a single category |
| Decisions.FakeBankingIsExcused | internal/sniproxy/sniproxy.go:54-66 | "fake_banking" outranks a protective category but is not in the proxy's list |
| Decisions.ProtectiveIff | internal/sniproxy/sniproxy.go:54-66 | A category is protective for the proxy exactly when it ranks no lower than "newly_registered" and is not "fake_banking" |
| CommandLedger.Executor.Execute | internal/commands/executor.go:63-104 | One whole Execute is a stretch of a protocol run; the handler starts exactly when the row does not read as done, failed or expired, both earlier writes were acknowledged and it is registered; the row ends done, or failed, also without a handler; only this row changes |
| CommandLedger.Executor.Enqueue | internal/commands/executor.go:109-125 | An existing row is never overwritten |
| CommandLedger.StepKeepsRow | internal/commands/executor.go:63-104 | Every atomic step keeps the relation between a row, its worker and its history |
| CommandLedger.AtMostOnce | internal/commands/executor.go:63-104 | Over all runs with failing writes, crashes and restarts a handler starts at most once per command, and "done" is reported only after success |
| CommandLedger.TerminalForever | internal/commands/executor.go:158-169 | In every continuation of every reachable state a row never disappears and a terminal status never changes |
| CommandLedger.NeverResumed | internal/controlsync/commandpoll.go:157-199 | A command whose row has left "pending" with nobody working on it is frozen in every continuation: status, runs and success |
| CommandLedger.LaterSuccessIff | internal/commands/executor.go:71-82 | Over all runs: a report on a command that has not succeeded says failure, and the command can still succeed afterwards, with or without crashes, exactly when its row is still pending |
| CommandLedger.MisreportedIff | internal/controlsync/commandpoll.go:183-193 | Over all runs: the report on a command that has succeeded is wrong exactly when the write of its outcome was lost at some point of the run, or the row cannot be read back |
| CommandLedger.FalseFailureIff | internal/controlsync/commandpoll.go:183-193 | Over all runs: the cloud was told of a failure of a command that succeeded exactly if a report was sent while its row was pending, without reading the row, or after its outcome was lost |
| CommandLedger.SuccessReportedAsFailure | internal/controlsync/commandpoll.go:183-193 | A run in which a lost final write makes a success a reported failure for good |
| CommandLedger.FailureThenSuccess | internal/commands/executor.go:71-75 | A run without a crash in which a lost acknowledgement makes the cloud hear of a failure and later of a success |
| FamilyConfig.ChannelsSafe | internal/controlsync/family_config.go:130-158 | In every interleaving no channel is closed twice, and a waiter's channel is closed or owned by a call still on its way to closing it |
| FamilyConfig.WaitersProgress | internal/controlsync/family_config.go:130-158 | While a call is unfinished, some call of its family can take its own next step |
| FamilyConfig.AtMostOneFetch | internal/controlsync/family_config.go:128-152 | While no call of a family has missed the cache a second time, at most one fetch of it is in flight |
| FamilyConfig.SecondMissNeedsLoss | internal/controlsync/family_config.go:135-146 | A second miss takes a failed fetch, or an entry that expired before its waiters looked again |
| FamilyConfig.SecondMissBreaks | internal/controlsync/family_config.go:143-150 | A call that missed a second time can end up fetching beside another call of its family without any further failure or second miss |
| FamilyConfig.StaysSingleIff | internal/controlsync/family_config.go:128-158 | From every reachable state, at most one fetch of the family is in flight in all continuations without a new second miss exactly when no call of it is about to retry and every fetch of it is the registered one |
| FamilyConfig.FailureUndoesDeduplication | internal/controlsync/family_config.go:139-150 | From every reachable state, after one failed fetch any set of calls waiting for it can be fetching all at the same time |
| FamilyConfig.CachedFamilyReturns | internal/controlsync/family_config.go:124-126 | A call whose family is cached returns at its first step, without a fetch |
| FamilyConfig.BusyFamilyWaits | internal/controlsync/family_config.go:130-135 | A call that misses while its family is being fetched waits for that very fetch |
| FamilyConfig.WaiterServed | internal/controlsync/family_config.go:135-138 | A waiter that finds the entry returns it without fetching |
| Registry.NodeRegistry.Add | internal/relay/registry.go:75-88 | The index invariant survives exactly when a node already registered keeps its family |
| Registry.NodeRegistry.Remove | internal/relay/registry.go:93-104 | Removes the node and returns it, the index stays right |
| Registry.NodeRegistry.Touch | internal/relay/registry.go:113-119 | Only the node's last-seen time changes, the order stays right without a rebuild |
| Registry.NodeRegistry.SetPreference | internal/relay/registry.go:182-195 | Only the preference changes and the lists are sorted again |
| Registry.NodeRegistry.RebuildFamilyIndex | internal/relay/registry.go:223-241 | The family's list is exactly its members, each once, sorted; no other list changes |
| Registry.SortNodes | internal/relay/registry.go:234-239 | Sorted by preference and join time, with the same members |
| Registry.NodeRegistry.PickHealthyNode | internal/relay/registry.go:127-139 | A node of the family seen within the last 60 seconds, or none exactly when there is none; a primary one beats every secondary one, among equals the earlier join wins |
| Registry.NodeRegistry.FamilyStatus | internal/relay/registry.go:151-176 | The number of healthy and registered nodes, and the age of the most recent sign of life |
| Registry.NodeRegistry.SweepStale | internal/relay/registry.go:203-217 | Exactly the registered nodes not seen for more than 60 seconds |
| Fallback.FallbackResolver.EnterFallback | internal/relay/fallback.go:64-73 | True exactly on the transition; the first entry time is kept; the gauge stays the number of active families |
| Fallback.FallbackResolver.ExitFallback | internal/relay/fallback.go:78-88 | True exactly on the transition, and the family is gone |
| Fallback.FallbackResolver.RoutePacket | internal/relay/relay_udp_bridge.go:179-221 | The packet goes to a best healthy node; without one the family is in fallback and the packet is counted once; its effect is that of the protocol steps the run theorems speak of |
| Fallback.FallbackResolver.SweepFamily | internal/relay/broker.go:331-341 | A family with nodes is in fallback exactly if none is healthy; a notification exactly on a transition; its effect is that of one protocol step |
| Fallback.FallbackAccounts | internal/relay/broker.go:317-343 | Over all interleavings: the gauge counts the active families, transitions alternate, each entry issues one notify(true), notify(false) comes only from janitor exits, every packet is counted once |
| Fallback.EndsRightIff | internal/relay/broker.go:127-140 | Whichever outstanding notifications arrive and in whatever order, the cloud is sure to be right about a family, at every moment or only in the end, exactly when it is right now and nothing outstanding says otherwise |
| Fallback.CloudToldIff | internal/relay/relay_udp_bridge.go:183-185 | When no notification was lost or overtaken and none is outstanding, the cloud is right exactly when the last transition was not a recovery seen by the bridge |
| Fallback.OvertakenRecovery | internal/relay/broker.go:331-341 | Without that order a reported recovery can be overtaken by the earlier notification and leave the cloud wrong |
| Fallback.WrongUntilEntryIff | internal/relay/broker.go:336-341 | After a recovery seen by the bridge, every continuation without a new entry leaves the cloud wrong exactly when it believes the family to be in fallback and nothing outstanding says "recovered" |
| Fallback.UnreportedRecoveryStays | internal/relay/relay_udp_bridge.go:183-185 | If no notification was lost or overtaken and at most one is outstanding, an unreported recovery leaves the cloud wrong until a new entry exactly when it has been told of the entry |
| Endpoints.OneOwner | internal/terminator/service.go:118-179 | In every interleaving each open endpoint has exactly one owner, and none is torn down twice |
| Endpoints.StepKeepsEndpoint | internal/terminator/service.go:143-179 | Every atomic step keeps the ownership of every endpoint |
| Endpoints.NothingElseCloses | internal/terminator/service.go:283-304 | With the sweeper gone, an endpoint in the table stays open through every run without another Stop |
| Endpoints.StopCloses | internal/terminator/service.go:118-131 | From every reachable state Stop leaves the table empty, has torn down each endpoint that was in it exactly once, and no other endpoint |
| Endpoints.SweepCloses | internal/terminator/service.go:283-304 | From every reachable state a sweep does the same to exactly the entries of the idle families |
| Endpoints.KnownFamilyReturns | internal/terminator/service.go:143-150 | A call whose family has an endpoint returns at its first step, without launching another |
| Endpoints.StopIsFinalIff | internal/terminator/service.go:118-131 | With the table empty, as Stop leaves it, it stays empty in every continuation without a new request exactly when no call is looking, fetching or holding an endpoint |
| Endpoints.InstalledAfterStop | internal/terminator/service.go:143-179 | Whatever call is underway when Stop is called in any reachable state, it can still install its endpoint after the sweeper has gone |
| Firewall.RulesOfOneChild | internal/firewall/rules.go:66-96 | One child's rules decide exactly the packets it sends or receives: all pass with full access or tunnel, those to and from 10.10.0.1 with service only, none when paused |
| Firewall.AddressIs | internal/firewall/enforcer.go:83-98 | The child's own address counts if it begins with 10.10.0., otherwise the peer table is asked for its key |
| Firewall.PauseHolds | internal/firewall/enforcer.go:100-133 | A bundle pause is lifted only by a stored profile that says full_tunnel or service_only |
| Firewall.UnpausedState | internal/firewall/enforcer.go:100-133 | Which word decides for a child that is not paused: the profile by key, else by hardware address, else the route mode, which cannot block |
| Firewall.Enforcer.Sync | internal/firewall/enforcer.go:43-80 | The chain's first-match verdict on every packet is the policy's |
| Firewall.PolicyVerdictIs | internal/firewall/enforcer.go:62-77 | The policy's verdict is the one prescribed by the first listed child that is an endpoint of the packet |
| Firewall.PolicyVerdictNone | internal/firewall/enforcer.go:62-77 | There is none exactly when no listed child with an address is an endpoint |
| Firewall.JumpFirstIff | internal/firewall/rules.go:106-128 | One Sync puts the jump before both ACCEPT rules exactly when it was missing before, or everything already stood in that order |
| Firewall.EnsureIdempotent | internal/firewall/enforcer.go:50-57 | Later Syncs leave FORWARD as it is |
| Firewall.SyncedForward | internal/firewall/rules.go:106-128 | With the jump missing before, FORWARD gives every packet of a listed child its state's verdict, whatever other rules exist |
| Firewall.ReinsertedConntrackBypasses | internal/firewall/rules.go:120-128 | Whatever FORWARD held besides, with the jump there and the conntrack rule missing, a Sync accepts every established connection |
| Firewall.Enforcer.PauseDevice | internal/firewall/enforcer.go:187-206 | Always reports success; a hardware address, which is what the pause command passes, leaves the chain as it was, and an accepted address would change no verdict already given |
| Failsafe.FailsafeState.CheckAndEnterFailsafe | internal/enforcer/failsafe_enforcer.go:85-149 | Active afterwards exactly when there is no bundle or it is past its grace, and the cloud is away; keeps the relation between the fields and the history of checks; reports exactly the transitions |
| Failsafe.ActiveHistory | internal/enforcer/failsafe_enforcer.go:85-149 | Active exactly when the last check demanded it; then the offline time is known and not after the trigger, which is the check that started the present run |
| Failsafe.OfflineHistory | internal/enforcer/failsafe_enforcer.go:99-148 | Every check since a known offline time was unreachable, and the one before it broke the run |
| Failsafe.ReportsAlternate | internal/enforcer/failsafe_enforcer.go:104-141 | Entry and exit reports alternate and the last one tells the present state |
| Failsafe.DenyAllIff | internal/enforcer/failsafe_enforcer.go:64-68 | Deny-all exactly while a fail-safe lasts that was entered without any bundle |
| Failsafe.IsAllowedInFailsafe | internal/enforcer/failsafe_enforcer.go:151-165 | The emergency list matches the domain or a parent at a label boundary |

## Left out

- CommandLedger, FamilyConfig, Endpoints: the concurrent protocols are values advanced by atomic steps, because any
  other call may run between two critical sections; only the executor and the fallback resolver are classes as
  well, tied to those steps.
- WgSync.Interface.SyncPeersDiff: takes from the kernel that no two peers of wg0 hold one address, and from the
  table that the desired keys and addresses are distinct (`TunnelTable.Manager.LoadPeers` provides the latter).
- WgSync: the text parsing of `wg show dump`, peers with several allowed addresses and the syncconf
  fallback; which of the commands fail is arbitrary.
- TunnelTable: database errors, the `added_at` column, `RemovePeersByChildID`, loading the interface keys; CIDR
  parsing is a parameter, of which only address allocation assumes anything.
- EcsStrip: compression pointers of records after the OPT record, whose targets could move.
- DnsMessages.ReadNameLoop: requires that the name ends, because the code has no hop bound; `DnsNames.TerminatesIff`
  says when it does.
- DnsMessages.ParseQueryLoop: likewise.
- BlockedReply.BuildBlockedDnsReply: requires that the reply fits 65535 bytes; `BlockedReply.ReplyFits` shows that it
  does after a name has been extracted.
- Checksum.IpChecksum: for headers of even length, as every IPv4 header is.
- TunnelFilter.OnPlaintextOutbound: requires that the questions of a filtered query end, as the code would otherwise
  never return; the NAT path and encryption are not modelled.
- LeafCache: minting is a parameter that yields a certificate for the host or fails; keys and validity are not modelled.
- Blocklist: the FNV hash (the filter is right for every hash function), the estimated false-positive rate,
  and lower-casing beyond ASCII.
- Decisions: forwarding itself, block events, block pages, and extracting the server name from a handshake.
- CommandLedger: payloads, results and HTTP delivery; a report is what is sent, not what arrives.
- Registry: channels of the connections; the stable library sort is an insertion sort here.
- Fallback: overflow of 64-bit counters, a bridge without a configured family, and full send buffers, which drop a
  packet without touching the fallback state.
- Broker sessions, device registration and frame decoding: map bookkeeping without a harder property.
- Endpoints: idle times; a sweep may take any set of families.
- Firewall: commands that fail other than by refusing an address in `PauseDevice`, and detection of the upstream
  interface, which is fixed.
- Newly-registered-domain ingest, mirrors and reload: remote batching.
- HTTP, WebSocket, UDP, TLS, wireguard-go, iptables and SQLite themselves: only their effect on abstract state appears.
