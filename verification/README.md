# Middle Filter, modelled and proved in Dafny

Middle Filter decides, for each packet, whether to pass it, drop it, or answer it with DNS NXDOMAIN.
This project models the five parts of it that hold the most logic, and proves what they promise
together.

**The packet program** (`bpf/filter.bpf.c`, with its rule loader in `xdp.go`). `XdpContext` runs the
chain of tail-called programs over a packet buffer, a shared scratch key and a counter array, all
changed in place. `XdpPipeline` proves that this chain refines a one-pass classifier written
independently of it, that empty dispatch slots can only turn a verdict into PASS, and that `total`
differs from the other counters by exactly the runs that end uncounted in the DNS stage.
`OnesComplement` and `NxDomain` prove the incremental checksum arithmetic and, from it, that the IPv6
answer verifies exactly when the query did. `DnsName` proves the flattened label loop against a
recursive decoder and that decoder against an encoder; `DomainTable` adds the rule table, so that a
query is matched exactly when a rule for its name was loaded. `BpfTls` and `BpfHttp` hold the SNI and
Host checks, and `Dispatch` the loader's program array.

**The Go classifier** (`packet_classifier.go`). `ClientHello` proves `tlsSNI` against an encoder of TLS
ClientHello messages (section 4.1.2 of RFC 8446, section 3 of RFC 6066) in both directions, and
`BpfTls` uses the same encoder to prove that the two TLS parsers of the repository agree. `HttpHost`
does the same with a printer of HTTP requests. `Classifier` models the verdict logic over decoded
layers and proves it monotone in the configuration.

**The rule compiler** (`rules.go`). `DomainText` and `RuleSets` prove that compiled lookups mean "some
configured entry covers this", and `RuleEntries` and `Addresses` what single entries cover.

**The firewall managers** (`firewall_linux.go`). `RuleLists`, `Firewall` and `Netfilter` model the
kernel's rule lists and every command the managers send, each of which may fail. `Installation` says what
complete and partial installations leave, `AutoFirewall` what fallback across backends leaves,
`Lifecycle` what a whole run of the engine leaves, and `Capture` which packets the installed rules
select.

**The queue engine** (`nfqueue_engine_linux.go`). `Engine` proves counter conservation over runs of
messages; `Snapshot` proves the bounds on a statistics snapshot over every interleaving of handlers
and a reader.

`dafny verify dfyconfig.toml` checks the whole project.

## Where the code falls short of a simpler statement

Each of these is stated with the exact condition under which the simpler statement holds.

- The name a rule is stored under may end in zero bytes, which the key's padding hides: such a rule also
  matches the name without them (`DnsName.ZeroBytesCollide`). `DnsName.QueryMatchesIff` is exact for all rules,
  and `DnsName.SameNameIsEqual` shows that rules without zero bytes match only the equal name.
- The packet program looks up the first 63 bytes of a longer Host value, so a longer host can match a rule
  for its first 63 bytes (`BpfHttp.RequestHit` says exactly what is looked up).
- `normalizeDomain` is not idempotent: it removes one final dot, and blanks only at the outside
  (`DomainText.NormalizeNotIdempotent`, `DomainText.NormalizeFixedPoint`).
- A failing `iptablesFirewall.Install` that is not wrapped by the automatic manager leaves rules behind
  when its first command succeeds and a later one fails, and `Run` does not clean up
  (`Lifecycle.RunIptables`). The automatic manager always cleans up (`Lifecycle.RunAuto`).
- Installing twice equals installing once only up to twenty earlier copies of a rule
  (`RuleLists.InstalledIdempotentIff`), and installing and cleaning up leaves nothing only below forty
  (`RuleLists.InstalledThenCleanedIff`).
- Without `ip6tables` the iptables manager does not queue IPv6, and the nftables manager does
  (`Capture.ManagersAgreeIff`).

## Model

| member | source | states |
|---|---|---|
| `OnesComplement.OnesSumIsWordSum` | bpf/filter.bpf.c:198-211 | the one's-complement sum a receiver forms and the plain integer sum of the words differ by a multiple of 0xffff, and only all-zero data sums to zero |
| `OnesComplement.VerifiesIffDivisible` | bpf/filter.bpf.c:198-211 | data verifies exactly when its integer word sum is a non-zero multiple of 0xffff |
| `OnesComplement.TwoFoldsSuffice` | bpf/filter.bpf.c:200-205 | for every three-term accumulator two folds leave a 16-bit value congruent to it |
| `OnesComplement.CsumReplaceAdjusts` | bpf/filter.bpf.c:198-211 | one update changes the stored checksum by old minus new modulo 0xffff, and never stores 0 |
| `NxDomain.ChainedCheckAdjusts` | bpf/filter.bpf.c:653-656 | four chained updates change the checksum by the total change of the four DNS header words |
| `NxDomain.SwapRuns` | bpf/filter.bpf.c:186-196 | the byte loop exchanges two disjoint runs and touches nothing else |
| `NxDomain.UpdateCheck` | bpf/filter.bpf.c:653-656 | the four calls in order give the chained checksum, each starting from the last |
| `NxDomain.Rewrite6` | bpf/filter.bpf.c:624-660 | everything but the checksum field is answered in place, and the words the update depends on are the query's |
| `NxDomain.Poison6` | bpf/filter.bpf.c:624-660 | the packet becomes the reply to the query: MACs at 0 and 6, addresses at 22 and 38 and ports at 54 and 56 exchanged, flags 0x8183, record counts 0, ID, question count and every other byte kept, and the updated checksum at 60 |
| `NxDomain.Poison4` | bpf/filter.bpf.c:598-622 | the packet becomes the reply to the query: MACs at 0 and 6, addresses at 26 and 30 and ports at 34 and 36 exchanged, checksum at 40 zero, flags 0x8183, record counts 0, ID, question count and every other byte kept |
| `NxDomain.Answer4IsReply` | bpf/filter.bpf.c:598-622 | the fields of an IPv4 reply, each at its offset, hold of exactly one packet, and that is the answer |
| `NxDomain.Answer6IsReply` | bpf/filter.bpf.c:624-660 | the same for IPv6, given the checksum stored |
| `NxDomain.AnsweredSum` | bpf/filter.bpf.c:624-660 | the exact change of the covered sum (pseudo-header and datagram) that the rewrite makes, for any checksum stored |
| `NxDomain.Answer6KeepsChecksum` | bpf/filter.bpf.c:624-660 | the IPv6 answer verifies over pseudo-header and datagram exactly when the query did, keeps a sound length, and its checksum is never 0 |
| `NxDomain.Answer4KeepsHeaderChecksum` | bpf/filter.bpf.c:598-622 | the IPv4 header of the answer verifies exactly when the query's did |
| `ClientHello.TlsSni` | packet_classifier.go:233-295 | the index-based parser computes the structural reading of the payload; every index is in range and it terminates |
| `ClientHello.SkipFields` | packet_classifier.go:242-264 | the field-skipping half ends at the extension block's length field, or gives up exactly when there is none |
| `ClientHello.FindBlock` | packet_classifier.go:242-270 | a block is found exactly when the message has one inside it, and it is that block |
| `ClientHello.ScanExtensions` | packet_classifier.go:272-294 | the extension loop reaches the first server_name extension and reads its name |
| `ClientHello.ReadName` | packet_classifier.go:283-291 | a name is read exactly from a host_name entry that fits its extension |
| `ClientHello.SniOfEncoded` | packet_classifier.go:233-295 | round trip: for every ClientHello carrying a host_name, encoding and parsing give that name back |
| `ClientHello.SniDecomposes` | packet_classifier.go:233-295 | converse: a payload a name is read from is the encoding of such a ClientHello |
| `ClientHello.SniIff` | packet_classifier.go:233-295 | a non-empty name is returned exactly when the payload encodes a ClientHello with that name first |
| `ClientHello.WalkDecomposes` | packet_classifier.go:272-292 | a block in which the walk finds a name is skipped extensions, server_name and a rest |
| `BpfTls.FindBlock` | bpf/filter.bpf.c:377-450 | the bounded field skipping of the packet program finds the extension block its reference reading names, with no 32-bit sum wrapping |
| `BpfTls.ReadSpan` | bpf/filter.bpf.c:472-498 | the server_name branch yields the name's position exactly as the reference reading does |
| `BpfTls.FindSpan` | bpf/filter.bpf.c:452-503 | the sixteen-round extension loop finds the reference walk's name position |
| `BpfTls.CheckTlsSni` | bpf/filter.bpf.c:377-504 | the check drops exactly when the name reached is in the table, whatever the scratch key held |
| `BpfTls.SpanIffFits` | bpf/filter.bpf.c:377-504 | on any ClientHello with a name the bounded walk reaches exactly that name when the message fits its window and caps, and nothing otherwise |
| `BpfTls.HelloVerdict` | bpf/filter.bpf.c:377-504 | such a message is dropped exactly when it fits and its lowercase name carries the TLS bit |
| `BpfTls.ParsersAgree` | packet_classifier.go:233-295 | for every payload the Go parser reads a name from, the packet program looks up exactly that name's lowercase when the message fits |
| `BpfTls.ParsersNeverDisagree` | bpf/filter.bpf.c:377-504 | when both parsers produce a name for one payload, it is the same name |
| `DnsName.DecodeEncoded` | bpf/filter.bpf.c:544-588 | the recursive label decoder inverts the encoder of section 3.1 of RFC 1035 |
| `DnsName.DecodedIsEncoded` | bpf/filter.bpf.c:544-588 | a name that decodes is the encoding of its labels |
| `DnsName.BeginLabel` | bpf/filter.bpf.c:546-574 | a round on a length byte starts the next label and writes the dot, keeping the loop invariant |
| `DnsName.TakeByte` | bpf/filter.bpf.c:576-587 | a round on a label byte appends its lowercase to the key, keeping the loop invariant |
| `DnsName.ScanName` | bpf/filter.bpf.c:538-593 | the flattened loop completes exactly for uncompressed names of at most 64 wire bytes and 8 labels with 4 bytes behind, leaving the lowercase dotted name; the bounds on `out` never stop it |
| `DnsName.DnsDomainMatches` | bpf/filter.bpf.c:506-596 | a query matches exactly when it is in view and the name it decodes to carries the DNS bit, whatever the scratch key held |
| `DnsName.QuestionNameOfAsked` | bpf/filter.bpf.c:506-596 | the question asking for some labels leads to their lowercase dotted name exactly when it has at most 62 characters and 8 labels |
| `DnsName.QueryMatchesIff` | xdp.go:235-251 | after any successful rule calls in any order, the query for a name matches exactly when some call with the DNS bit had that lowercase name, up to zero bytes at the rule's end |
| `DnsName.SameNameIsEqual` | xdp.go:363-376 | for rules without zero bytes that is equality of names |
| `DnsName.ZeroBytesCollide` | xdp.go:363-376 | a rule ending in a zero byte matches a query for another name |
| `DomainTable.PaddedEqual` | xdp.go:363-376 | two names share a key exactly when one is the other with zero bytes appended |
| `Bytes.LowerLetters` | bpf/filter.bpf.c:153-158 | the capital letters become the small ones and nothing else changes |
| `DomainTable.DomainMatches` | bpf/filter.bpf.c:213-223 | a key of sound length hits exactly when the table holds it with the action's bit |
| `DomainTable.DomainFromPacketMatches` | bpf/filter.bpf.c:225-253 | packet bytes hit exactly when their lowercase is in the table; the scratch key's old contents never matter |
| `DomainTable.Loader.AddDomainRule` | xdp.go:235-251 | a call succeeds exactly for a normal name of 1 to 63 bytes when the map accepts it, adds its flags to those stored, and changes nothing otherwise |
| `DomainTable.LoadedMeaning` | xdp.go:235-251 | a key answers an action exactly when some call put it there, in whatever order |
| `BpfHttp.CheckHttpHost` | bpf/filter.bpf.c:309-375 | the check drops exactly when "host:" stands sixteen bytes into the payload in any case, at most two blanks follow, and the table holds for HTTP the lowercase of the 1 to 63 bytes up to CR, LF, blank, colon, packet end or scan limit; without that token it never drops; the scratch key never matters |
| `BpfHttp.CheckHttpHostAt` | bpf/filter.bpf.c:309-370 | the check at any relative offset up to 64 |
| `BpfHttp.HttpHitMeaning` | bpf/filter.bpf.c:309-375 | the probe's reading and that description of the host agree on every packet |
| `BpfHttp.OneHost` | bpf/filter.bpf.c:309-375 | a packet has at most one such host |
| `BpfHttp.RequestHit` | bpf/filter.bpf.c:309-375 | a printed request with a 14-byte first line, at most two blanks and any host is dropped exactly when the table holds its lowercase host, cut to 63 bytes and the scan limit |
| `BpfHttp.HostChecksAgree` | packet_classifier.go:201-231 | on such a request with a host of at most 63 bytes in view, `httpHost` returns the host and the packet program looks up its lowercase |
| `BpfHttp.CountHost` | bpf/filter.bpf.c:354-364 | the length loop counts the host bytes up to its end or the cap |
| `XdpContext.Context.ValidateHeader` | bpf/filter.bpf.c:850-927 | the header check ends or continues as its reference function says and adds to one counter only when it ends |
| `XdpContext.Context.ParseTcp` | bpf/filter.bpf.c:705-731 | the payload offset of a sound TCP header, or the malformed counter |
| `XdpContext.Context.ParseUdp` | bpf/filter.bpf.c:757-771 | the payload offset of a sound UDP header, or the malformed counter |
| `XdpContext.Context.FindPayload` | bpf/filter.bpf.c:929-1009 | the re-check of the HTTP and TLS stages: the payload offset for the port, or one counter and PASS |
| `XdpContext.Context.RunHttp` | bpf/filter.bpf.c:1146-1158 | verdict and counters of the HTTP stage |
| `XdpContext.Context.RunTls` | bpf/filter.bpf.c:1160-1172 | verdict and counters of the TLS stage |
| `XdpContext.Context.DecideDns` | bpf/filter.bpf.c:662-703 | a DNS packet is answered, dropped for IPv4 options, or passed; an answer implies the header is in view |
| `XdpContext.Context.RunDns` | bpf/filter.bpf.c:778-848 | verdict, counters and packet after the DNS stage; the packet changes only when it is sent back |
| `XdpContext.Context.RunTcp` | bpf/filter.bpf.c:1011-1054 | verdict and counters of the TCP stage and the stages behind it |
| `XdpContext.Context.RunUdp` | bpf/filter.bpf.c:1056-1099 | verdict, counters and packet after the UDP stage and the stage behind it |
| `XdpContext.Context.RunIp` | bpf/filter.bpf.c:1247-1301 | verdict, counters and packet after the IP stage and the stages behind it |
| `XdpContext.Context.Filter` | bpf/filter.bpf.c:1303-1331 | verdict, counters and packet after one packet through the whole chain, for any loaded slots and any scratch contents |
| `XdpPipeline.ValidateIsParse` | bpf/filter.bpf.c:850-927 | every stage's header check is the one-pass parse with the address rules in between, so re-validation agrees with the first |
| `XdpPipeline.PayloadRecheckContinues` | bpf/filter.bpf.c:929-1009 | the HTTP and TLS stages' re-check never ends them early once the TCP stage called them |
| `XdpPipeline.TcpStageRefines` | bpf/filter.bpf.c:1011-1054 | the TCP stage and those behind it decide the one-pass verdict or PASS, and exactly it when all slots are loaded |
| `XdpPipeline.UdpStageRefines` | bpf/filter.bpf.c:1056-1099 | the same for the UDP stage, which is also the only one that can end uncounted |
| `XdpPipeline.IpStageRefines` | bpf/filter.bpf.c:1247-1301 | from the IP stage on, the verdict is the one-pass verdict or PASS, and it is uncounted exactly when it ends in the DNS stage unanswered |
| `XdpPipeline.ChainIsOnePass` | xdp.go:195-212 | with all twelve slots loaded the chain decides what one pass decides: addresses, fragments pass, IP+port, application layer |
| `Dispatch.ProgramArray.Populate` | xdp.go:195-212 | success exactly when no program is missing and no update fails; the slots before the first failing update are filled in order and the others untouched |
| `Dispatch.FilledIsLoaded` | xdp.go:203-209 | the loader's order puts every program into the slot its callers mean |
| `XdpPipeline.MissingSlotsOnlyPass` | bpf/filter.bpf.c:1303-1331 | with any slots missing the verdict is the same or PASS |
| `XdpPipeline.HelloChain` | bpf/filter.bpf.c:1160-1200 | from rule table to verdict: a ClientHello that reaches the TLS rule is dropped exactly when it fits and the table holds its lowercase name for TLS |
| `XdpPipeline.RequestChain` | bpf/filter.bpf.c:1146-1187 | the same for a printed request and HTTP |
| `XdpPipeline.QueryChain` | bpf/filter.bpf.c:778-848 | the same for a query: answered, or dropped behind IPv4 options, exactly when some loaded rule with the DNS bit names it |
| `XdpPipeline.UncountedIff` | bpf/filter.bpf.c:662-703 | a packet adds to no counter behind `total` exactly when it ends in the DNS stage without an answer |
| `XdpPipeline.TotalAccounted` | bpf/filter.bpf.c:146-151 | over every run, `total` is the other counters plus the uncounted runs, up to 64-bit wraps |
| `XdpPipeline.CountedAtMostOnce` | bpf/filter.bpf.c:1303-1331 | over every run, the other counters and the uncounted runs together never exceed the packets |
| `XdpPipeline.TotalExact` | bpf/filter.bpf.c:1303-1331 | before any counter can wrap, `total` minus the other counters is exactly the number of uncounted runs |
| `XdpPipeline.ChainTallies` | bpf/filter.bpf.c:1303-1331 | with all slots loaded every packet goes to the counter its parse calls for: 1 passed, 2 HTTP, 3 TLS, 4 DNS, 5 address, 6 address and port, 7 malformed, or none |
| `XdpPipeline.CountersTell` | xdp.go:35-44 | over every run below 2^64 packets each counter is the number of packets it is named after |
| `XdpPipeline.AnsweredChecksum6` | bpf/filter.bpf.c:683-703 | end to end: a packet the chain sends back over IPv6 verifies exactly when the query did |
| `XdpPipeline.AnsweredChecksum4` | bpf/filter.bpf.c:662-681 | end to end: over IPv4 the header verifies exactly when the query's did and the UDP checksum is off |
| `XdpPipeline.AnsweredFields` | bpf/filter.bpf.c:598-660 | end to end: whatever the chain sends back is the reply to the packet it got, field by field, for both families |
| `XdpPipeline.AnyScratch` | bpf/filter.bpf.c:225-253 | two runs on the same packet and rules give the same verdict and packet whatever the scratch key held |
| `HttpHost.FindLine` | packet_classifier.go:202-213 | the first line beginning with "host:" in any case, or none |
| `HttpHost.ReadHost` | packet_classifier.go:215-230 | blanks are skipped and the host runs up to CR, LF, blank, colon or the end |
| `HttpHost.FindHost` | packet_classifier.go:201-231 | the result is the host of the first Host line, or empty when there is none |
| `HttpHost.FoundIsHostOf` | packet_classifier.go:201-231 | being the host of a payload determines the result uniquely |
| `HttpHost.PrintedHost` | packet_classifier.go:201-231 | round trip: printing a request with other lines, then a Host line with any blanks and optional port, and reading it gives the host back (section 7.2 of RFC 9110) |
| `DomainText.TrimSpaceMeaning` | rules.go:125-136 | trimming leaves no outer blanks, and changes nothing exactly when there were none |
| `DomainText.NormalizedShape` | rules.go:125-136 | normal names are lowercase, without slash or colon, and no longer than the input |
| `DomainText.TrimSpaceOf` | rules.go:126 | trimming gives back the text between the blanks it was put between |
| `DomainText.NormalizeParts` | rules.go:125-136 | an entry made of blanks, schemes, a name, at most one dot, a port or path and blanks, in any case, normalizes to the name |
| `DomainText.NormalizeSplits` | rules.go:125-136 | every entry is made of such parts, so they give the result for all inputs: behind the schemes, up to the first slash or colon, less one dot |
| `DomainText.NormalizeUrl` | rules.go:125-136 | a name inside any URL, with optional http or https scheme, numeric port, path and outer blanks, in any case, normalizes to itself |
| `DomainText.NormalizeIgnoresBlanks` | rules.go:125-136 | outer blanks never change the normal name |
| `DomainText.NormalizePlain` | rules.go:125-136 | a lowercase name without path and port only loses blanks and one final dot |
| `DomainText.NormalizeFixedPoint` | rules.go:125-136 | a normal name is a fixed point exactly when it has no outer blanks and no final dot |
| `DomainText.NormalizeNotIdempotent` | rules.go:125-136 | some name is not a fixed point |
| `RuleSets.DedupeStrings` | rules.go:138-155 | the loop computes the trimmed entries in order of first appearance |
| `RuleSets.DedupedMeaning` | rules.go:138-155 | no entry appears twice, and exactly the trimmed non-blank entries appear |
| `RuleSets.CompileNames` | rules.go:27-44 | a name is compiled exactly when some entry covers it directly or by its www form |
| `RuleSets.CompilePrefixes` | rules.go:46-52 | all non-blank entries parse or compilation fails, and exactly their prefixes are compiled |
| `RuleSets.CompileEndpoints` | rules.go:54-60 | all endpoints parse or compilation fails, and exactly those are compiled |
| `RuleSets.CompileRuleSet` | rules.go:27-63 | compilation succeeds exactly on well-formed configurations and the result means what is listed |
| `RuleSets.ScanPrefixes` | rules.go:96-104 | the scan answers whether some prefix contains the address |
| `RuleSets.LookupMeaning` | rules.go:86-110 | each lookup in a compiled rule set holds exactly when some configured entry covers its subject |
| `RuleEntries.UnmapMeaning` | packet_classifier.go:189-199 | an address of the form ::ffff:a.b.c.d stands for a.b.c.d and every other address for itself |
| `RuleEntries.AddressEntry` | config.go:166-199 | an entry without a slash covers exactly the address it spells, and is rejected when it spells none |
| `RuleEntries.PrefixEntry` | config.go:172-185 | an entry with a slash covers the prefix it spells, and prefixes of mapped addresses are rejected |
| `RuleEntries.ProtoMeaning` | config.go:201-210 | nothing or "tcp" in any case is protocol 6, "udp" is 17, and nothing else is accepted |
| `RuleEntries.EndpointEntry` | rules.go:65-84 | an endpoint entry stands for exactly its address, its non-zero port and its protocol |
| `Addresses.ContainsMeaning` | rules.go:96-104 | a prefix contains an address exactly when the families and whole bytes agree and so does the partial byte shifted right |
| `Addresses.FullPrefix` | config.go:191-197 | a prefix over all 32 or 128 bits contains one address only |
| `RuleSets.CompiledGrows` | rules.go:27-63 | a configuration that contains another list by list compiles to a rule set that contains the other's |
| `Classifier.KindMatchesReason` | packet_classifier.go:60-187 | accept goes with no reason or malformed only, and an answer with DNS poisoning only |
| `Classifier.AnswerIsForSender` | packet_classifier.go:154-187 | an answer goes back to the sender's address and port, from the queried ones, with the query's ID and questions and NXDOMAIN |
| `Classifier.ReasonMeaning` | packet_classifier.go:60-187 | malformed exactly when the payload is no IP packet with both addresses; the IP reason exactly when some configured entry contains the source or destination; the IP+port reason exactly when that is not so and some configured endpoint is the source's or the destination's |
| `Classifier.QueryDropped` | packet_classifier.go:154-187 | from configuration to verdict: a query is accepted unless its first question is on the poison list; then it is answered with NXDOMAIN exactly when the mode is not drop and the answer serializes, and dropped silently otherwise |
| `Classifier.NoQueryAccepted` | packet_classifier.go:164-167 | over UDP/53, what is no query with a question is accepted |
| `Classifier.OtherPortsAccepted` | packet_classifier.go:133-161 | packets to other ports that no address or endpoint rule stops are accepted |
| `Classifier.NoNameAccepted` | packet_classifier.go:138-151 | TCP payloads to 80 and 443 that carry no name are accepted |
| `Classifier.DropsGrow` | packet_classifier.go:60-187 | larger rules drop everything smaller rules drop, whatever the DNS modes |
| `Classifier.DropsGrowWithConfig` | rules.go:27-63 | adding configuration entries never lets a dropped packet through |
| `Classifier.SameListsSameDrops` | rules.go:27-63 | order and repetition of entries and the DNS mode never change what is dropped |
| `Classifier.HelloDropped` | packet_classifier.go:133-152 | from configuration to verdict: a ClientHello no address rule stops is dropped exactly when a configured domain covers the name it carries |
| `Classifier.RequestDropped` | packet_classifier.go:133-152 | the same for a printed HTTP request and its Host |
| `Engine.NfQueueEngine.RecordDecision` | nfqueue_engine_linux.go:165-186 | the reason's own counter, and `passed` for accepted packets; nothing else changes (which counter is whose is what `Engine.CountersTell` states) |
| `Engine.NfQueueEngine.HandlePacket` | nfqueue_engine_linux.go:133-163 | counters, verdicts and answers after one message, with its missing-ID and missing-payload cases |
| `Engine.RecordedAddsOne` | nfqueue_engine_linux.go:165-186 | a decision adds exactly one to `passed` and the six blocked counters together |
| `Engine.CountersConserved` | nfqueue_engine_linux.go:133-186 | over every run of messages `total` grows as `passed` and the blocked counters together, and `malformed` by the malformed messages, up to 64-bit wraps |
| `Engine.FreshCountersExact` | nfqueue_engine_linux.go:133-186 | from fresh counters and below 2^64 messages both equations are exact |
| `Engine.CountersTell` | nfqueue_engine_linux.go:133-186 | over every run from fresh counters below 2^64 messages, `total`, `passed`, each of the six blocked counters and `malformed` is the number of messages that `Classify` puts there |
| `Engine.OneRulingEach` | nfqueue_engine_linux.go:133-163 | over every run each message with an ID gets exactly one verdict, in order, and drop exactly when it is classified so |
| `Snapshot.StepKeeps` | nfqueue_engine_linux.go:133-186 | every atomic add and every load keeps the invariant tying `total`, the decided counters, the handlers in flight and what a reader has loaded |
| `Snapshot.ReachableKeeps` | nfqueue_engine_linux.go:119-186 | the invariant holds in every state of every interleaving |
| `Snapshot.SnapshotBounds` | nfqueue_engine_linux.go:119-131 | in every interleaving a snapshot's decided counters sum to at least its total less the handlers in flight when it was loaded, and at most the current total |
| `Snapshot.QuietStateBalances` | nfqueue_engine_linux.go:133-186 | with no handler in flight, total is the sum of the decided counters |
| `Snapshot.QuietCountersTell` | nfqueue_engine_linux.go:119-186 | in every interleaving, with no handler in flight each counter, in the order of loading, is the number of packets with its reason, or accepted ones |
| `Firewall.NormalizedChains` | firewall_linux.go:249-264 | the loop computes the normal chain names in order of first appearance |
| `Firewall.NormalChainsMeaning` | firewall_linux.go:249-264 | no chain twice, all lowercase, exactly the non-empty normal forms of the configured chains |
| `Firewall.ChoiceMeaning` | config.go:158-164 | a chain written in any case and between blanks is its lowercase name |
| `Firewall.UpperLetters` | firewall_linux.go:194 | chain names are spelled to the programs in capital letters |
| `Firewall.AppliedBin` | firewall_linux.go:192-207 | the insert commands of one program put the rules, last first, on top of each managed chain and of no other |
| `RuleLists.RemoveUpToCounts` | firewall_linux.go:241-247 | up to n deletions remove min(n, count) copies of the rule and no copy of another |
| `RuleLists.CleanedCounts` | firewall_linux.go:212-229 | cleaning removes min(20, count) copies of each managed rule and none of another |
| `RuleLists.CleanedKeepsOthers` | firewall_linux.go:212-229 | cleaning keeps all other rules in order |
| `RuleLists.CleanedIsWithout` | firewall_linux.go:212-229 | with at most twenty copies, cleaning leaves exactly the other rules in order |
| `RuleLists.InstalledCounts` | firewall_linux.go:178-210 | a completed installation leaves max(0, c - 20) + 1 copies of each managed rule |
| `RuleLists.InstalledKeepsOthers` | firewall_linux.go:178-210 | it keeps all other rules in order |
| `RuleLists.InstalledIdempotentIff` | firewall_linux.go:178-210 | installing again changes nothing exactly when every rule had at most twenty copies |
| `RuleLists.InstalledThenCleanedIff` | firewall_linux.go:178-229 | install then cleanup leaves exactly the other rules if and only if every rule had fewer than forty copies |
| `RuleLists.RetractedIsWithout` | firewall_linux.go:89-102 | clean, at most one insertion, clean again leaves exactly the other rules when there were fewer than forty copies |
| `Netfilter.Kernel.DeleteRule` | firewall_linux.go:241-247 | at most twenty deletions of the rule in its chain; all other chains untouched |
| `Netfilter.Kernel.CleanupIpt` | firewall_linux.go:212-229 | every chain of the installed programs is cleaned, every other list untouched |
| `Netfilter.Kernel.InstallIpt` | firewall_linux.go:178-210 | the lists are the cleaned ones plus the insertions sent, which are a prefix of the full list of commands and all of it exactly on success; commands stop at the first failure |
| `Netfilter.Kernel.InstallNft` | firewall_linux.go:131-158 | the table is the whole script on success and absent on failure |
| `Netfilter.Kernel.CleanupNft` | firewall_linux.go:160-162 | the table is absent |
| `Installation.CommandsInstall` | firewall_linux.go:178-210 | the full list of commands puts one copy of every rule on top of every managed chain after cleaning, and changes no other chain |
| `Installation.CompleteCounts` | firewall_linux.go:178-210 | from any lists, a successful installation leaves max(0, c - 20) + 1 copies of each managed rule and the old count of everything else |
| `Installation.PartialCounts` | firewall_linux.go:178-210 | wherever an installation stops, a managed rule has a new copy exactly where its command went through |
| `Installation.OthersKept` | firewall_linux.go:178-210 | wherever an installation stops, other rules keep content and order |
| `Installation.UnmanagedKept` | firewall_linux.go:178-210 | wherever an installation stops, unmanaged chains are as they were |
| `Installation.CleanupRetracts` | firewall_linux.go:93-96 | a cleanup after any installation, complete or not, takes it back |
| `Installation.LeftoverIffSent` | firewall_linux.go:178-210 | with at most twenty earlier copies, an installation leaves rules exactly when some insertion went through |
| `AutoFirewall.CandidatesSeparate` | firewall_linux.go:24-48 | the automatic manager's candidates work on separate rules, and each iptables one has its program |
| `AutoFirewall.CandidatesRanked` | firewall_linux.go:24-48 | exactly the managers whose program exists are candidates, nftables before iptables before its legacy variant |
| `AutoFirewall.AutoManager.Attempt` | firewall_linux.go:91-97 | one candidate ends installed with no command failing, or taken back because its program is missing or a command failed; all other chains untouched |
| `AutoFirewall.AutoManager.Install` | firewall_linux.go:89-102 | every candidate before the successful one was tried and failed, and is taken back; the successful one is installed without a failing command and recorded as active; later ones are untouched; on failure all are taken back |
| `AutoFirewall.FirstOneWorks` | firewall_linux.go:89-102 | when no command fails the first candidate is the one installed |
| `AutoFirewall.AutoManager.Cleanup` | firewall_linux.go:119-125 | every candidate's chains are cleaned, nothing else changes, none is active |
| `AutoFirewall.FailureClears` | firewall_linux.go:89-102 | with at most twenty earlier copies, a failed installation leaves no managed rule anywhere and every other rule in place |
| `AutoFirewall.SuccessMeans` | firewall_linux.go:89-102 | success at a candidate: no copies in earlier ones, one copy of each rule there, later ones untouched, all other rules in order |
| `AutoFirewall.CleanupClears` | firewall_linux.go:119-125 | a cleanup after success leaves no managed rule anywhere and every other rule in place |
| `Lifecycle.Serve` | nfqueue_engine_linux.go:73-109 | which step ends a run whose rules are in place |
| `Lifecycle.RunIptables` | nfqueue_engine_linux.go:61-110 | with at most twenty earlier copies, rules are left behind exactly when the program exists, its first command succeeds and a later one fails; all other exits leave none; other rules and chains are always kept |
| `Lifecycle.RunNftables` | nfqueue_engine_linux.go:61-110 | the table is gone however the run ends |
| `Lifecycle.RunAuto` | nfqueue_engine_linux.go:61-110 | however the run ends, no candidate's rules are left and every other rule is in place |
| `Capture.NftCaptures` | firewall_linux.go:138-152 | the script queues exactly the packets of configured chains that the capture mode covers, to the configured queue and bypass setting |
| `Capture.InstalledTarget` | firewall_linux.go:192-207 | in a freshly installed chain the program's rules decide first, whatever other rules are there |
| `Capture.IptCaptures` | firewall_linux.go:178-210 | the iptables rules queue exactly the same packets for the families whose program exists |
| `Capture.ManagersAgreeIff` | firewall_linux.go:131-210 | both managers send a packet to the same queue exactly when its iptables program exists or it is not captured |
| `Capture.CaptureModesRelate` | packet_classifier.go:75-187 | drops under l7 are the drops under all that are TCP/80, TCP/443 or UDP/53, and every other drop has the IP or IP+port reason |

## Left out

- HttpHost.FindHost: only for ASCII payloads, because `bytes.ToLower` can change the length of other input, after which the indices into the lowered and the original payload no longer line up.
- Engine.NfQueueEngine.HandlePacket: an answer is recorded as handed over; sending it (`sendDNSResponse`, raw sockets) and the result of `SetVerdict` are not modelled.
- Snapshot.SnapshotBounds: ignores the 64-bit wrap of the counters and the load of `malformed`, which no bound involves.
- BpfHttp.HostChecksAgree: compares the two Host checks on requests whose Host line is at the probed offset only; elsewhere the packet program never looks.
- Lowercasing outside ASCII: text is bytes, lowered bytewise.
- Packet decoding and DNS message serialization of gopacket: the classifier takes decoded layers, and whether a message serializes is a parameter.
- netip parsing: a parameter that maps text to an address or nothing; clearing host bits of prefixes is left out because containment never looks at them.
- The nfqueue, netlink and eBPF libraries: their outcomes (opening a queue, registering, updating a map) are parameters.
- Kernel longest-prefix lookup: only its meaning, some stored prefix contains the address; `AddCIDR` and `AddIPPort` would only add easy members, and the maps they fill are arbitrary sets.
- Byte order conversions of the packet program: words are the values their bytes spell in network order.
- The flag bits of a domain rule: a set of the three named bits rather than a 32-bit word.
- The IPv4 and IPv6 copies of each stage: one member with the family as a parameter, where the source has two functions.
- Process execution, `modprobe` and error texts: a command succeeds or fails as an arbitrary function of its number; `-D` fails only when no rule matches and deleting the table only when there is none.
- A cancelled context in the middle of an installation: it shows only as failing commands.
- Configuration loading and validation, `main`, logging, signals, display functions and the attachment of the packet program: plumbing.
