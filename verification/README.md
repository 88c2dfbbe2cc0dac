# Arqut Edge: a verified model

Arqut Edge is an agent that reaches devices behind a home router: it opens
WireGuard tunnels to clients, runs a reverse proxy for local services on every
tunnel, keeps a signaling websocket to the cloud, and, as a Home Assistant
add-on, makes Home Assistant trust it as a proxy. This project models the parts
of it whose correctness cannot be seen from one function, and proves what they
promise. `dafny verify dfyconfig.toml` checks everything.

**Trusting the proxy, through Home Assistant's store.** `Addresses` and
`Networks` are the text of addresses and networks as Go's `net` package reads and
prints them (the notations of section 3.1 of RFC 4632, section 2.2 of RFC 4291 and
section 4 of RFC 5952), and the canonical form in which the program compares
networks. `HttpConfig` is the merge that makes a stored configuration trust the
requested subnets: first as a function, which the loops of the source are proved
to compute, then the laws of that function. `CoreStore` is what Core may do with
its store, `TrustProtocol` the reconciliation as a state machine beside such a
Core, over any number of runs that may be cut off anywhere, and `Reconciler` the
program's own control flow, proved to be a stretch of such a history. `Calls` is
the layer below: replies matched by message id, and bounded retrying, whose
specification and decisions `Reconciler` shares.

**Trusting the proxy, through configuration.yaml.** `YamlTree` is the effect of a
patch on the value of a YAML tree, `YamlNodes` the edits of the nodes in place, each
proved against it, `BlankLines` the cosmetic pass over the encoded text, and
`ConfigFile` the file as a whole. `CodecLaws` shows that what `ConfigFile` assumes
of the YAML library can be met by one that treats documents as the real one does.
`Version` decides between the file and the store.

**The agent.** `Listeners` is the proxy's listeners as an index over the service
table and the tunnel interfaces, with the tunnel ports. `Paging` is the listing of
services. `SyncAcks` is the acknowledgement of service syncs. `PeerTable` is the
WireGuard manager's tables and its index allocator, and `Tunnels` what it reports as
the interfaces the listeners assume. `Signaling` is the websocket
client's goroutines as interleaved steps, with the client object that takes them, and
`Reconnection` follows a lost connection to its end.

## What turned out to hold only under a condition

- A nil error from `configureTrustedProxies` means the subnets are trusted for
  good if and only if Core did not, while the run was counting on it, revert the
  trial to a config without them (`TrustProtocol.SettledExactly`). A trial that is
  gone when `confirm` reads it (`RevertBeforeTheRead`), or when it reads it again
  after a failed promotion (`RevertDefeatsSuccess`), is reported as a success.
- The comment in `pkg/providers/proxy/routes.go:198-200` says that the protocol and
  the path of a service can be saved without restarting its listeners. The
  listeners keep the scheme and the path they were started with
  (`pkg/providers/proxy/proxy.go:693-745`), so such an update takes effect only with
  the next restart, unless it amounts to the same scheme and path prefix:
  `Listeners.RoutesAfterUpdate` says exactly when the listeners follow, and
  `HttpsWaitsForARestart` is an update they do not follow.
- `handleUpdateService` stops listeners before it validates the update.
  `Listeners.RejectedUpdate` says exactly which rejected updates leave the listeners
  alone; `RejectedUpdateStops` is one that does not.
- The prefix `id-` selects the listeners of one service as long as no id continues
  another one after a dash (`Listeners.PrefixSelects`). Generated ids have no dash
  (`pkg/utils/strings.go:14`).
- The 255 indices are handed out apart exactly as long as fewer than 255 peers are
  known (`PeerTable.FreeIndexExactly`); after that index 0 is given out twice.
- `Close` of the signaling client is final if and only if it did not overtake a
  connection attempt (`Signaling.CloseIsFinalExactly`, `LateDialStaysOpen`).
- A signaling connection that is lost can come back if and only if no earlier
  `reconnect` still holds the flag when the guard is passed
  (`Reconnection.GuardDecides`). One that breaks while the loop that made it is still
  returning is given up for good (`LossCanBeFinal`).
- The YAML patch is idempotent if and only if the next search finds what it
  appends, and `trusted_proxies`, where present, is a sequence
  (`YamlTree.PatchIdempotentExactly`); otherwise each patch appends another pair that
  no reader of the first key sees (`PatchTwiceAppendsTwice`). On a document that is a
  list of odd length ending in the word http the program reads past the end of the
  list and panics (`YamlNodes.PatchDocument`).
- The cosmetic pass is idempotent on a text if and only if no root key follows the
  section (`BlankLines.SpacedTwiceExactly`, `GrowsWithEveryPass`). Together with the
  patch it is harmless, since every run encodes the file anew
  (`ConfigFile.SecondRunWritesNothing`).
- The callback entry of a sync message stays for good if a consumer takes the message
  from the queue while disconnected, or fails to send it, or if its answer is lost;
  and no other entry stays (`SyncAcks.LeftBehindExactly`).
- `handleGetServices` documents that page sizes are clamped to 1 to 200; the code
  replaces any other size by 25, and so does `Paging.GetServices`.

## Model

| member | source | states |
|---|---|---|
| Addresses.ParseOfPrintV4 | pkg/haaddon/httpstore.go:266-270 | the dotted text of an IPv4 address reads back as that address |
| Addresses.PrintOfParseV4 | pkg/haaddon/httpstore.go:266-270 | only one spelling of an IPv4 address is accepted |
| Addresses.FourOctets | pkg/haaddon/httpstore.go:266-270 | the first octet of an IPv4 address is its most significant one |
| Addresses.DottedText | pkg/haaddon/httpstore.go:266-270 | an address is printed as its octets in decimal, separated by dots |
| Addresses.ParseOfPrintGroups | pkg/haaddon/httpstore.go:271 | eight IPv6 groups survive printing with the longest zero run shortened, and reading |
| Addresses.GapStandsForLongestRun | pkg/haaddon/httpstore.go:271 | the printed "::" stands for the first of the longest runs of two or more zero groups; without such a run all eight groups are written |
| Addresses.GapStandsForSomething | pkg/haaddon/httpstore.go:264 | text with "::" is an address if and only if fewer than eight groups stand around it |
| Addresses.EightGroups | pkg/haaddon/httpstore.go:264 | groups without "::" are an address if and only if they are eight |
| Addresses.ParseOfPrintAddr | pkg/haaddon/httpstore.go:266-273 | printing and reading an address of either family loses nothing |
| Addresses.DottedAtTheEnd | pkg/haaddon/httpstore.go:264 | within IPv6 text no colon follows a dot |
| Addresses.MappedText | pkg/haaddon/httpstore.go:264-270 | the dotted form within IPv6 names the same address as the dotted form alone |
| Networks.Block | pkg/haaddon/httpstore.go:274-281 | a network without host bits is the block of addresses that starts at its address |
| Networks.ReadBack | pkg/haaddon/httpstore.go:266-282 | canonical text is accepted, is its own canonical text, and denotes the network it was printed from |
| Networks.MappedStaysMapped | pkg/haaddon/httpstore.go:268-281 | an IPv4 network without host bits never comes with a prefix that reaches into the mapping, so its prefix can be shown in IPv4 terms |
| Networks.NormalizeIsIdempotent | pkg/haaddon/httpstore.go:262-282 | normalizing twice is normalizing once |
| Networks.TextDecidesEquality | pkg/haaddon/httpstore.go:262-282 | two accepted entries have equal canonical text if and only if they denote the same set of addresses |
| Networks.BareAddressStandsAlone | pkg/haaddon/httpstore.go:264-272 | a bare address is accepted as the network of that one address |
| Networks.PrefixAcceptedExactly | pkg/haaddon/httpstore.go:274-280 | a prefix is accepted exactly when its address is the first of the network, so when no bit is set past the prefix |
| Networks.PrefixLength | pkg/haaddon/httpstore.go:274-277 | text after a slash is a prefix if and only if it is a number of at most 32 or 128, as the address before it is written |
| Networks.WrittenWithinIPv6 | pkg/haaddon/httpstore.go:262-282 | an IPv4 network has one canonical text, whether it is written alone or within IPv6 |
| Networks.To24IsCanonical | pkg/haaddon/config.go:160-163 | the /24 of an IPv4 address is canonical text of the network of 256 addresses that contains it |
| Networks.To64IsCanonical | pkg/haaddon/config.go:145-158 | the /64 of an address is canonical text of the network of that prefix that contains it |
| Networks.SubnetsAreCanonical | pkg/haaddon/config.go:25-55 | every requested subnet is canonical text of the /24 or /64 around one of the local addresses |
| Networks.SubnetIsListed | pkg/haaddon/config.go:25-55 | every local address that has a subnet finds it among the requested ones |
| Networks.NoSubnetExactly | pkg/haaddon/config.go:34-51 | no subnet is requested exactly for text that is no address and for addresses from fe80:: up to fec0:: |
| Networks.NetworkSubnets | pkg/haaddon/config.go:25-55 | the loop returns the subnets of the local addresses in order, without unreadable and link-local ones |
| HttpConfig.CopyWithoutMeta | pkg/haaddon/httpstore.go:70-79 | the copy is the config without the keys Core maintains, all else verbatim |
| HttpConfig.KnownNetworks | pkg/haaddon/httpstore.go:213-223 | the loop collects the canonical forms of the readable entries |
| HttpConfig.AddMissing | pkg/haaddon/httpstore.go:225-236 | the loop keeps the list in front, appends what is missing once each, reports a change exactly when it grew, and fails on the first unreadable subnet |
| HttpConfig.WithTrustedProxies | pkg/haaddon/httpstore.go:202-260 | the source's merge computes the specification Merging, errors included; MergedConfig and MergeFailsExactly say on the stored JSON what that is |
| HttpConfig.MergeCoverage | pkg/haaddon/httpstore.go:198-260 | on success the merged list, as it is read, is the old list, unreadable entries included, with what was missing behind it, and no metadata key survives |
| HttpConfig.MergedConfig | pkg/haaddon/httpstore.go:198-260 | key by key: use_x_forwarded_for is true; trusted_proxies is left verbatim if it names every subnet, and else is an array of strings with the old entries in front that holds the canonical text of every subnet it lacked; created_at, error and error_message are gone, every other key is verbatim |
| HttpConfig.MergeFailsExactly | pkg/haaddon/httpstore.go:206-253 | which configs fail to merge and with what, on the stored JSON: an unreadable list before the first unreadable subnet, and that before an unreadable flag |
| HttpConfig.TrustsMeans | pkg/haaddon/httpstore.go:206-257 | trust, on the stored JSON: use_x_forwarded_for is true, the list can be read, and it names every subnet in some spelling |
| HttpConfig.MetaIsThreeKeys | pkg/haaddon/httpstore.go:31-34 | the metadata is created_at, error and error_message and nothing else |
| HttpConfig.MissingExactly | pkg/haaddon/httpstore.go:225-236 | what is appended is exactly the canonical subnets not known before, without duplicates |
| HttpConfig.AddedInOrder | pkg/haaddon/httpstore.go:225-236 | additions come in the order of the first occurrences of their subnets |
| HttpConfig.NewProxiesKnown | pkg/haaddon/httpstore.go:213-236 | after a merge the known networks are those known before and the requested ones |
| HttpConfig.MergeTrusts | pkg/haaddon/httpstore.go:198-260 | what a merge returns trusts every subnet it was asked for |
| HttpConfig.TrustsMeansUnchanged | pkg/haaddon/httpstore.go:198-204 | a config trusts the subnets if and only if merging them reports no change |
| HttpConfig.ChangedExactly | pkg/haaddon/httpstore.go:198-204 | a change is reported if and only if the result differs from the base without metadata |
| HttpConfig.MergeAgain | pkg/haaddon/httpstore.go:198-204 | a second merge of the same subnets returns its input unchanged |
| HttpConfig.MergeInTwoSteps | pkg/haaddon/httpstore.go:202-260 | merging two lists of subnets one after the other is merging both at once: same config, changes or-ed, an error exactly when either part fails |
| HttpConfig.MetaDoesNotMatter | pkg/haaddon/httpstore.go:31-34 | metadata that Core adds or drops changes neither a merge nor trust |
| HttpConfig.OnTrialUnlessError | pkg/haaddon/httpstore.go:52-68 | a pending config is on trial exactly when it has no error or a null one |
| HttpConfig.SubnetsToTrustIsValid | pkg/haaddon/httpstore.go:262-282 | the program's canonical form meets what the laws of the merge ask of it |
| HttpConfig.TrustedNetwork | pkg/haaddon/httpstore.go:213-236 | a trusted subnet has a string in the stored array, in whatever spelling, that denotes the same addresses |
| CoreStore.BenignKeepsTrust | pkg/haaddon/httpstore.go:51-53 | restarting, relabelling, dropping an equal config and promotion by others leave the settings in force and keep settled what is settled |
| CoreStore.PromotedSettles | pkg/haaddon/httpstore.go:318-326 | promoting a trial that trusts the subnets settles them |
| TrustProtocol.DecisionFollowsTrust | pkg/haaddon/httpstore.go:115-138 | a run configures only what does not trust the subnets yet, only confirms a trial that does, and is done at once exactly when they are settled; DecisionOnTheStore says which pending config is a trial |
| TrustProtocol.DecisionOnTheStore | pkg/haaddon/httpstore.go:52-138 | on the store as reported: a pending config without an error, or with a null one, is the base and is only confirmed if it trusts the subnets; beside any other the confirmed config is the base; what does not trust them is merged and configured, or refused |
| TrustProtocol.StepKeepsInv | pkg/haaddon/httpstore.go:98-186 | every step of a run and of Core keeps the invariant of the protocol |
| TrustProtocol.HistoryKeepsInv | pkg/haaddon/httpstore.go:98-186 | every state of every history meets the invariant |
| TrustProtocol.SuccessMeansSettled | pkg/haaddon/httpstore.go:115-186 | after every nil return the confirmed config has use_x_forwarded_for true and an array that names every subnet, and a pending config, if there is one, has an error; the lost race of confirm included |
| TrustProtocol.Resumable | pkg/haaddon/httpstore.go:89-154 | over any number of runs cut off anywhere Core accepts at most one configure command, later runs issue none, and a settled run reads once and writes nothing |
| TrustProtocol.AcceptedCounts | pkg/haaddon/httpstore.go:140-143 | the count of accepted commands is the number of accepting steps in the history |
| TrustProtocol.SettledExactly | pkg/haaddon/httpstore.go:98-186 | beside a Core that also reverts, a nil return means settled if and only if Core did not, between the decision and the end, revert to a config without the subnets |
| TrustProtocol.RevertBeforeTheRead | pkg/haaddon/httpstore.go:165-173 | a run for a real subnet in which the trial is reverted before confirm reads it, and confirm reports success |
| TrustProtocol.RevertDefeatsSuccess | pkg/haaddon/httpstore.go:175-182 | a run for a real subnet in which the trial is reverted between the read and the promotion, and the lost race reports success |
| TrustProtocol.OtherSettingsSurvive | pkg/haaddon/httpstore.go:198-202 | over every history the config in force keeps all other settings of the first one, and its proxies in front |
| TrustProtocol.EveryAddressIsTrusted | pkg/haaddon/config.go:69-96 | after a nil return for the machine's subnets, every local address that has one is in a network whose text is in the confirmed trusted_proxies, with use_x_forwarded_for true |
| TrustProtocol.AnsweredRunSucceeds | pkg/haaddon/httpstore.go:98-186 | beside a Core that answers, a run whose merge succeeds takes at most six steps, always has a next one until it returns, and returns nil |
| TrustProtocol.FirstRunSucceeds | pkg/haaddon/httpstore.go:89-154 | against any store the merge would change, a history in which the first run reads, configures, confirms, promotes and settles |
| TrustProtocol.LeftoverIsPromoted | pkg/haaddon/httpstore.go:89-138 | a pending config left over from an interrupted attempt, without an error or with a null one, that trusts the subnets: the next run reads, reads and promotes, and configures nothing |
| Reconciler.World.Configure | pkg/haaddon/httpstore.go:299-316 | a configure command stages the config, or fails, and the run goes on accordingly |
| Reconciler.World.PendingOnTrial | pkg/haaddon/httpstore.go:190-196 | what is on trial is a pending config without an error or with a null one, and reading it decides between promoting, giving up and being done |
| Reconciler.Close | pkg/haaddon/client.go:158-164 | closing closes an open connection once, and is harmless on a nil or closed client |
| Reconciler.DialHost | pkg/haaddon/client.go:72-90 | a failed authentication leaves no connection open, and the dial and its failure are reported as they were |
| Reconciler.Dial | pkg/haaddon/client.go:56-70 | supervisor is dialled, and 172.30.32.2 after it unless that worked or the token was rejected; the last outcome is returned and at most one connection is open, held by the client returned |
| Reconciler.Redial | pkg/haaddon/client.go:96-125 | at most 60 dials, no connection left open by the failed ones, giving up only when the time limit is near, and with the last failure |
| Reconciler.Confirm | pkg/haaddon/httpstore.go:165-186 | confirm follows the protocol and returns nil exactly when it says done |
| Reconciler.Apply | pkg/haaddon/httpstore.go:140-153 | configure, restart and redial follow the protocol and close the first connection before opening the next |
| Reconciler.RunConnected | pkg/haaddon/httpstore.go:110-153 | the run between dial and deferred close follows the protocol |
| Reconciler.ConfigureTrustedProxies | pkg/haaddon/httpstore.go:98-154 | a run extends the history of the protocol, holds one connection at a time, returns with all closed, a nil error means settled, and any other says what failed: no token, the merge, the last failure reported, or a redial out of time |
| Reconciler.RetriesExactly | pkg/haaddon/client.go:143-146 | a run is retried exactly when Core is unreachable or still starting, also if a redial gave up on that |
| Reconciler.ReconcileTrustedProxies | pkg/haaddon/httpstore.go:81-87 | held to the specification of whenReady, at most 61 runs extend one history, Core accepts one configure command at most, and nil means settled |
| Calls.Connection.Call | pkg/haaddon/client.go:228-255 | a call uses a fresh larger id, fails if it cannot be written, and else returns what the first result frame with that id says, its payload on success and its error otherwise, whatever precedes it; and fails if no such frame comes |
| Calls.SettlesOnce | pkg/haaddon/client.go:237-253 | the frames leave one reply possible, so a payload is returned if and only if the first result for the id is a success |
| Calls.CallTimes | pkg/haaddon/client.go:228-255 | calls one after the other return the replies the specification assigns them |
| Calls.EachCallItsOwnReply | pkg/haaddon/client.go:237-246 | however pushes and late replies are interleaved, every command gets the payload or the error of its own result |
| Calls.RetriedAtMost | pkg/haaddon/client.go:134-156 | attempts ten seconds apart within ten minutes are at most 61, whatever they take |
| Calls.RetriedEndsWith | pkg/haaddon/client.go:143-155 | only errors to retry are retried, nil or any other error is returned at once, and running out of time keeps the last error |
| Calls.AfterAttempt | pkg/haaddon/client.go:143-155 | what both retry loops decide after an attempt keeps, or concludes, the specification |
| Calls.WhenReady | pkg/haaddon/client.go:134-156 | each attempt but the last is retried, none starts past the limit, so at most 61 start, and the outcome is the last one's, kept in the timeout error |
| YamlTree.PatchTrusts | pkg/haaddon/config.go:185-225 | a patch switches forwarding on; with a usable list the subnet is present afterwards and the old proxies are a prefix |
| YamlTree.PatchedAsWritten | pkg/haaddon/config.go:185-225 | where a reader finds it in the patched tree: under the first http key a mapping, in it use_x_forwarded_for as a true bool, and trusted_proxies as a sequence with the subnet |
| YamlTree.EditedInPlace | pkg/haaddon/config.go:253-286 | a flag and a list that are there keep their comments and style, the list its tag and its elements, in front |
| YamlTree.FirstPatch | pkg/haaddon/config.go:196-225 | what an empty mapping becomes |
| YamlTree.UnchangedExactly | pkg/haaddon/config.go:185-225 | a patch changes nothing if and only if the http mapping forwards and lists the subnet already |
| YamlTree.PatchIdempotentExactly | pkg/haaddon/config.go:270-286 | patching twice is patching once if and only if the next search finds what is appended, and trusted_proxies, where present, is a sequence |
| YamlTree.AppendedOutOfReach | pkg/haaddon/config.go:196-210 | behind an odd number of elements each patch appends another http pair that is never found |
| YamlTree.PatchTwiceAppendsTwice | pkg/haaddon/config.go:270-286 | two documents that grow with every patch: proxies written as one address, and a root that is a list |
| YamlTree.PatchFrame | pkg/haaddon/config.go:196-225 | the http mapping keeps its own tag, comments and style, and every other pair of it and of the root stays, in place and in order |
| YamlTree.PatchKeepsSettled | pkg/haaddon/config.go:136-143 | patching for one subnet keeps every other subnet trusted |
| YamlTree.LoopTrustsAll | pkg/haaddon/config.go:136-143 | after the loop every subnet is trusted and the proxies that were there are a prefix |
| YamlTree.LoopIsIdempotent | pkg/haaddon/config.go:136-143 | a second loop over all subnets changes nothing |
| YamlNodes.OneTree | pkg/haaddon/config.go:185-226 | the nodes stand for one tree only |
| YamlNodes.FindKey | pkg/haaddon/config.go:198-205 | the loop finds the first matching key |
| YamlNodes.SetScalar | pkg/haaddon/config.go:253-267 | the nodes become the mapping with the scalar set, and stay a tree |
| YamlNodes.ReplaceValueNode | pkg/haaddon/config.go:243-250 | the value behind this very key node is replaced, and nothing else |
| YamlNodes.EnsureSequence | pkg/haaddon/config.go:270-286 | the sequence returned is the one under the key, or a new one behind everything else |
| YamlNodes.SequenceContains | pkg/haaddon/config.go:289-296 | true exactly when some scalar of the sequence has the value |
| YamlNodes.AddProxy | pkg/haaddon/config.go:221-225 | the proxy is appended in place unless it is there |
| YamlNodes.FindSection | pkg/haaddon/config.go:196-215 | the http mapping is found, created, or put in place of something else; a key without a value is a panic |
| YamlNodes.PatchRoot | pkg/haaddon/config.go:194-225 | the edits in place turn the nodes into the patched tree, unless the program panics |
| YamlNodes.PatchDocument | pkg/haaddon/config.go:185-226 | anything but a document with content is an error and left alone; else its root is patched, or the program panics on an http key without a value |
| BlankLines.AddBlankAroundSection | pkg/haaddon/config.go:303-341 | the source's two loops and two insertions compute the specification Spaced |
| BlankLines.HeaderLooks | pkg/haaddon/config.go:306-313 | a header is the name and a colon, white space around it at most, and no blank or tab in front |
| BlankLines.LooksLikeHeader | pkg/haaddon/config.go:306-313 | and every line like that is a header |
| BlankLines.BlankExactly | pkg/haaddon/config.go:319 | a blank line is one of white space only |
| BlankLines.ContinuesExactly | pkg/haaddon/config.go:326-331 | the lines that do not end a section: white space only, indented by a blank or a tab, or a comment |
| BlankLines.InsertsOnlyBlanks | pkg/haaddon/config.go:298-341 | without blank lines input and output are the same lines, and at most two lines are added |
| BlankLines.SectionIsSetOff | pkg/haaddon/config.go:318-338 | in what is written the header has a blank line before it and the block one after it |
| BlankLines.SpacedTwiceExactly | pkg/haaddon/config.go:324-338 | the pass is idempotent on a text if and only if no root key follows the section |
| BlankLines.GrowsWithEveryPass | pkg/haaddon/config.go:324-338 | a text that grows with every pass |
| BlankLines.StripAndRerun | pkg/haaddon/config.go:303-341 | deleting the blank lines of what was written for a text without any, and running again, writes the same |
| ConfigFile.File.EnsureTrustedProxySubnet | pkg/haaddon/config.go:165-182 | the file becomes the patched text, is written only when that differs, and is left alone on an error or a panic |
| ConfigFile.File.UpdateHAConfigYAML | pkg/haaddon/config.go:136-143 | the loop over the subnets; nothing is written to a file it would leave as it is |
| ConfigFile.SecondRunWritesNothing | pkg/haaddon/config.go:136-182 | after a run whose trees the library reads back, the file trusts every subnet and another run writes nothing |
| ConfigFile.EffectiveWhenRead | pkg/haaddon/config.go:165-182 | what a patch settled is in effect in every tree alike to it, quoted or not |
| ConfigFile.EffectiveAsWritten | pkg/haaddon/config.go:196-225 | where a reader finds what is in effect: the first http key, in it the flag with the value true, and a list with the subnet |
| ConfigFile.RootAgain | pkg/haaddon/config.go:217-225 | patching a tree that was read back gives the flag its tag back and does nothing else |
| ConfigFile.BlankLinesDoNoHarm | pkg/haaddon/config.go:171-181 | a library that reads back its own text and ignores blank lines reads back what the pass made of it |
| CodecLaws.LawsCanBeMet | pkg/haaddon/config.go:186-235 | the assumptions on decoding and encoding contradict neither each other nor a document and its root being encoded alike: an example meets them in every run |
| Version.LeadingInt | pkg/haaddon/version.go:97-106 | the loop reads exactly the digits at the start, and fails without any or on a value out of range |
| Version.ParseHAVersion | pkg/haaddon/version.go:66-82 | the source's parser computes the specification Parsed |
| Version.LeadingExactly | pkg/haaddon/version.go:97-106 | a part counts by its leading digits, and is refused without any or beyond the largest int |
| Version.ParsedExactly | pkg/haaddon/version.go:66-82 | a version is a number, a dot and a number, each with anything behind it up to the next dot |
| Version.NoDotNoVersion | pkg/haaddon/version.go:66-70 | without a dot there is no version |
| Version.ParseOfPrint | pkg/haaddon/version.go:51-82 | a printed version parses back, whatever follows that continues no number |
| Version.ParsedIsNormal | pkg/haaddon/version.go:51-82 | what was parsed, printed, parses to itself |
| Version.AtLeastIsTotal | pkg/haaddon/version.go:55-61 | versions are totally ordered |
| Version.ModeOfRelease | pkg/haaddon/version.go:33-42 | the text of a release selects the store exactly from 2026.8 on, so a later release never falls back to the file |
| Listeners.PrefixSelects | pkg/providers/proxy/proxy.go:865-876 | the prefix of an id selects the keys of that service and of ids that continue it after a dash, and no others |
| Listeners.NoDashesApart | pkg/utils/strings.go:14 | ids without a dash are apart |
| Listeners.KeysApart | pkg/providers/proxy/proxy.go:807-810 | a key determines the service and the address |
| Listeners.StopIsExact | pkg/providers/proxy/proxy.go:865-881 | stopping a service removes its listeners, out of date or not, and nobody else's |
| Listeners.StopLeavesOthers | pkg/providers/proxy/proxy.go:865-881 | stopping one service leaves all others complete |
| Listeners.UpdateOutdates | pkg/storage/repositories/service_repository.go:77-123 | an update of a row outdates at most that service's listeners, and never moves a tunnel port |
| Listeners.UpdatedRow | pkg/storage/repositories/service_repository.go:77-123 | an update gives each named field its new value and leaves every other field, the id and the tunnel port |
| Listeners.RefusedExactly | pkg/storage/repositories/service_repository.go:77-117 | an update is refused exactly for an empty name or host, a port outside 1 to 65535, an unknown protocol, or no field at all |
| Listeners.PortsKept | pkg/storage/repositories/service_repository.go:77-123 | no update of a row takes the distinctness of tunnel ports away |
| Listeners.AddListener | pkg/providers/proxy/proxy.go:775-810 | registering an enabled service on a current interface at its tunnel port keeps the index faithful |
| Listeners.ProxyProvider.AllocatePort | pkg/providers/proxy/proxy.go:320-345 | the least port of the range that no service has and that can be bound, and none exactly when there is no such port |
| Listeners.ProxyProvider.StartService | pkg/providers/proxy/proxy.go:666-690 | the service listens on every interface address that can be bound, and the result tells whether all could |
| Listeners.ProxyProvider.StopService | pkg/providers/proxy/proxy.go:865-881 | exactly the listeners whose key starts with the id and a dash are gone |
| Listeners.ProxyProvider.IsServiceRunning | pkg/providers/proxy/proxy.go:896-906 | true exactly when some key starts with the id and a dash |
| Listeners.ProxyProvider.Start | pkg/providers/proxy/proxy.go:348-394 | every enabled service listens wherever its address binds, the index stays faithful, and is complete when every address binds |
| Listeners.ProxyProvider.CreateRow | pkg/storage/repositories/service_repository.go:33-74 | the row has the fields asked for and is enabled, and is refused exactly for an unknown protocol, a port outside 1 to 65535, an empty host or name, or an id in use |
| Listeners.ProxyProvider.AddService | pkg/providers/proxy/proxy.go:545-573 | a row is created if and only if the inputs are valid, the id is new and some port is free; it has the fields asked for, is enabled, and gets the least free port; if the proxy is started its listeners, wherever they bind, are of this row; the index stays faithful and complete |
| Listeners.ProxyProvider.RestartService | pkg/providers/proxy/proxy.go:843-862 | listeners that are out of date are gone, and the row as it is now listens wherever it binds if it is enabled and the proxy is started |
| Listeners.ProxyProvider.ModifyService | pkg/providers/proxy/proxy.go:576-599 | a rejected update changes nothing; else the listeners are those of the updated row |
| Listeners.ProxyProvider.DeleteService | pkg/providers/proxy/proxy.go:614-635 | the default service cannot be deleted; else row and listeners go together |
| Listeners.ProxyProvider.UpdateInPlace | pkg/providers/proxy/routes.go:184-230 | listeners are restarted exactly when the target or the flag moves, and the index stays faithful |
| Listeners.ProxyProvider.HandleUpdate | pkg/providers/proxy/routes.go:160-234 | the error cases one by one, the table and listeners after each, and success exactly if the update is accepted and what it restarts can be bound |
| Listeners.ProxyProvider.StartOnInterface | pkg/providers/proxy/proxy.go:909-933 | every enabled service listens on the address if that binds, and no other listener goes |
| Listeners.ProxyProvider.AddInterface | pkg/providers/proxy/proxy.go:485-491 | a new interface keeps the index faithful, and complete when every address binds |
| Listeners.ProxyProvider.StopOnInterface | pkg/providers/proxy/proxy.go:936-955 | exactly the listeners on the address are gone |
| Listeners.ProxyProvider.RemoveInterface | pkg/providers/proxy/proxy.go:494-505 | removing an interface keeps the index faithful and complete for the others |
| Listeners.ProxyProvider.Serve | pkg/providers/proxy/proxy.go:485-635 | over any sequence of operations tunnel ports stay distinct, every listener is an enabled service on a current interface with its current target, and if all binds succeed the set is exactly services times interfaces |
| Listeners.RoutesAfterUpdate | pkg/providers/proxy/routes.go:198-205 | after an update running listeners send requests on with the row's scheme and path prefix if and only if they were restarted or neither changed |
| Listeners.HttpsWaitsForARestart | pkg/providers/proxy/routes.go:198-205 | an update from http to https that leaves a running listener on http |
| Listeners.UpgradesNeedNoRestart | pkg/providers/proxy/proxy.go:694-742 | from http to ws, or from no path to an empty one, the listener is what a restart would build |
| Listeners.RejectedUpdate | pkg/providers/proxy/routes.go:203-213 | a rejected update leaves the listeners as they were if and only if it moves neither target nor flag, or none ran |
| Listeners.RejectedUpdateStops | pkg/providers/proxy/routes.go:203-213 | an update to port 0 that stops the listener and is then rejected |
| Paging.GetServices | pkg/providers/proxy/routes.go:71-127 | the items, in order, of the page asked for, page 1 for any below, 25 to a page for any size outside 1 to 200; the exact number of pages, and an empty page exactly behind the last one |
| Paging.TotalPagesIsExact | pkg/providers/proxy/routes.go:117 | the number of pages is the least that holds all matches |
| Paging.PagesPartition | pkg/storage/repositories/service_repository.go:148-177 | all pages one after the other are the matches, each once and in order |
| Paging.MatchingPicks | pkg/storage/repositories/service_repository.go:152-161 | the matches are exactly the rows the filter keeps |
| SyncAcks.StepKeepsInv | pkg/providers/proxy/proxy.go:213-309 | every step of senders, consumers and acks keeps the entries in agreement with the messages |
| SyncAcks.MessagesAreTracked | pkg/providers/proxy/proxy.go:223-261 | over every run a message has its own entry while it is offered, queued, sent or answered, and none once forgotten or acknowledged |
| SyncAcks.OverForGood | pkg/providers/proxy/proxy.go:252-288 | a forgotten or acknowledged message never has an entry again |
| SyncAcks.AckRemovesItsOwn | pkg/providers/proxy/proxy.go:282-288 | in every run an ack finds the entry its message was registered with and removes it, and every other entry stays as registered |
| SyncAcks.LeftBehindExactly | pkg/signaling/client.go:289-298 | when all is settled the entries left are exactly those of messages dropped while disconnected, not sent, or never answered; so none is left if and only if nothing was lost |
| SyncAcks.LostForGood | pkg/signaling/client.go:295-302 | the entry of a message that is lost, or whose answer is, stays for good |
| SyncAcks.FailedSendLeavesEntry | pkg/signaling/client.go:300-302 | a run in which a connected consumer fails to send and the entry stays |
| SyncAcks.Provider.HandleServiceSyncAck | pkg/providers/proxy/proxy.go:272-309 | the ack reports with the callback its message was registered with, or with none for an unknown id |
| SyncAcks.Provider.SyncServiceOperation | pkg/providers/proxy/proxy.go:213-262 | whatever happens in between, it returns with the message queued under an entry with its operation and service, or refused and without one |
| PeerTable.AddressesApart | pkg/providers/wireguard/manager.go:542-547 | tunnel addresses differ as text exactly when the indices do, and never between the two ends |
| PeerTable.FreeIndexExactly | pkg/providers/wireguard/manager.go:529-540 | some index is free if and only if fewer than 255 peers are known |
| PeerTable.Manager.FindAvailableIndex | pkg/providers/wireguard/manager.go:529-540 | the least free index, or 0 when there is none |
| PeerTable.Manager.CloseConnection | pkg/providers/wireguard/manager.go:491-527 | closing forgets the connection and its peer together, and keeps the tables consistent |
| PeerTable.Manager.HandleConnectRequest | pkg/providers/wireguard/manager.go:276-315 | a known peer keeps its index and addresses; an unknown one gets the least free index, and the tables stay consistent if and only if fewer than 255 were known |
| PeerTable.Manager.HandleOffer | pkg/providers/wireguard/manager.go:317-368 | the outcomes of an offer one by one: the stale session that takes its peer entry down, and the session that stays though answering failed |
| PeerTable.Manager.HandleStateChange | pkg/providers/wireguard/peer.go:66-85 | the current session of a peer is up exactly when it says so, and one that is gone takes down whatever session its peer has by now |
| PeerTable.Manager.DisconnectPeer | pkg/providers/wireguard/manager.go:594-603 | an unknown peer is an error; else connection and peer are gone |
| PeerTable.Manager.InterfaceIPs | pkg/providers/wireguard/manager.go:211-230 | each tunnel device with the address of its peer, all addresses distinct |
| PeerTable.Manager.Handle | pkg/providers/wireguard/manager.go:276-410 | every event keeps the tables consistent, renumbers nobody who stays, and drops no peer but the one whose connection it closes |
| PeerTable.Manager.Serve | pkg/providers/wireguard/manager.go:276-410 | any events in any order leave consistent tables as long as each fits, and a peer keeps its number and addresses as long as none can close its connection |
| Tunnels.EdgeIPIsPlain | pkg/providers/wireguard/manager.go:542-547 | a tunnel address has neither the colon nor the dash that listener addresses and keys are split at |
| Tunnels.EndsOfTunnel | pkg/providers/wireguard/manager.go:542-547 | read as addresses, the edge is the first host of 10.0.n.0 and the client the second |
| Tunnels.ReportedInterfaces | pkg/providers/wireguard/manager.go:211-230 | the interfaces a consistent manager reports are what the listeners assume: plain addresses, no two alike |
| Tunnels.TunnelIsNewInterface | pkg/providers/wireguard/manager.go:357-361 | a device that comes up under a new name is a new interface to the listeners, under an address of its own |
| Signaling.StepKeepsInv | pkg/signaling/client.go:60-386 | every step of every goroutine keeps the invariant of single flight |
| Signaling.InsideStep | pkg/signaling/client.go:311-317 | only the guard lets a goroutine in, and only while nobody is inside |
| Signaling.SlotStep | pkg/signaling/client.go:325-330 | while an attempt is under way the slot is empty, and what is in the slot or was dialled is open |
| Signaling.SingleFlight | pkg/signaling/client.go:309-371 | over every interleaving at most one goroutine is past the guard of reconnect, at most one reader is alive, and at most one websocket is open |
| Signaling.WaitsOfRun | pkg/signaling/client.go:335-364 | over every run the waits between attempts are 1, 2, 4, 8, 16, 32 seconds and then a minute |
| Signaling.CloseIsFinalExactly | pkg/signaling/client.go:374-386 | after Close no websocket is open ever again if and only if no connection attempt was under way |
| Signaling.LateDialStaysOpen | pkg/signaling/client.go:374-386 | a run in which Close overtakes the dial, every goroutine ends, and the websocket stays open |
| Signaling.Client.Read | pkg/signaling/client.go:155-199 | a reader's next step: it ends on cancellation or an empty slot, and hands over to reconnect on an error, which LossIsRecovered and GuardDecides follow to the end |
| Signaling.Client.Reconnect | pkg/signaling/client.go:309-371 | the next step of reconnect outside of connectOnce |
| Signaling.Client.ConnectOnce | pkg/signaling/client.go:119-151 | the next step of a connection attempt, started by Connect or by reconnect |
| Signaling.Client.Close | pkg/signaling/client.go:374-386 | cancelling and dropping, with any schedule in between, leaves an empty slot |
| Signaling.Client.Run | pkg/signaling/client.go:60-386 | any schedule of the goroutines keeps the invariant |
| Reconnection.LossIsRecovered | pkg/signaling/client.go:171-178 | a failed read, or a failed first dial, is followed by a reconnect that can succeed, with the old websocket closed, the new one stored and a reader on it, unless the client is closed or an earlier reconnect is still about |
| Reconnection.FailedAttemptIsRetried | pkg/signaling/client.go:339-364 | a failed dial of the loop is followed, after the wait, by one that can work, with the wait doubled up to a minute |
| Reconnection.ReadsOn | pkg/signaling/client.go:155-199 | a connected reader reads message after message |
| Reconnection.GuardDecides | pkg/signaling/client.go:309-322 | a lost connection can come back if and only if no earlier reconnect still holds the flag when the guard is passed |
| Reconnection.LossCanBeFinal | pkg/signaling/client.go:309-371 | a run in which a connection breaks before the loop that made it has returned: every goroutine ends, the client is not closed, and nobody reconnects |
| Reconnection.WindsDown | pkg/signaling/client.go:155-386 | once the client is closed its goroutines take a bounded number of steps, however they interleave, and none of them is ever stuck |

## Left out

- The `ui/` tree, request routing, response helpers and logging: thin plumbing.
- Sockets, websockets, HTTP proxying, TUN devices, WebRTC and WireGuard: their
  outcomes (bound or not, dialled or not, a session's state) are parameters or
  choices of the environment. The three bind attempts with their waits
  (`pkg/providers/proxy/proxy.go:777-805`) are one outcome.
- JSON: values are trees, and what the merge does not look into is opaque. Whether a
  reply can be decoded is part of whether a command succeeds.
- YAML: `ConfigFile.ReadsPairs`, and `ConfigFile.RunReadsBack` for the trees one run
  writes, are all that is assumed of the library. It need not read back alike a file
  with a comment right above the http section or right above the root key that follows
  it: a blank line goes between that comment and its key. Nor one where a patch drops
  an anchor that is used elsewhere. Aliases are kept and never followed, and errors of
  the encoder are not modelled.
- CodecLaws.LawsCanBeMet: shows by an example that these assumptions are consistent; it
  says nothing of the YAML library, which is not part of this model.
- YamlNodes.PatchDocument: assumes that an http mapping comes in pairs, as every mapping
  the YAML library produces does.
- ConfigFile.SecondRunWritesNothing: for files whose root is a mapping and whose
  trusted_proxies, where present, is a sequence; for other files the patch itself is
  not idempotent, or is lost in encoding.
- TrustProtocol.SuccessMeansSettled: assumes that nobody reverts or fails the trial
  during the run; SettledExactly says what reverts change.
- TrustProtocol.SettledExactly: somebody replacing the trial by another config is not
  among Core's steps.
- TrustProtocol.Resumable: the same assumption, and the same subnets in every run.
- Reconciler.ConfigureTrustedProxies: commands are exchanges with Core, not frames;
  frames and message ids are in `Calls`.
- Calls.Connection.Call: the frames that come before the connection breaks or a read
  times out are a finite list; a Core that pushes forever keeps the source reading.
- The version that Core reports in its greeting, and the supervisor's token.
- IPv6 zones: Go's parser for these functions reads none.
- Database errors, and the search by name, whose wildcards pass through to SQL.
- Integer width: offsets and totals of the listing are unbounded here, and the number
  of pages is computed over the reals; `Version` has the platform's largest int.
- `Clear`, `Stop` and `SetInterfaceIPs`: they leave listeners registered, so they are
  no steps of the listener invariant.
- Listeners.ProxyProvider.Serve: assumes that ids are apart and that interfaces come
  under new names and addresses; the exact set needs every address to bind and no
  update that is rejected after its listeners were stopped.
- Tunnel ports: an add is one step; two adds at once can pick the same port.
- Races of handlers that touch the peer table without its lock: a handler is one step.
- SyncAcks.LeftBehindExactly: a message whose send was reported as failed counts as
  unsent, also if parts of it reached the cloud.
- PeerTable.Manager.Serve: an unknown peer that brings its own address, or comes as
  the 256th, is outside the events it covers; and any offer from a peer counts as one
  that can close its connection, while Handle tells stale offers from others.
- Setting up a WebRTC answer, candidates and TURN credentials.
- Signaling.SingleFlight: one Connect per client. Keepalives and outbound consumers
  touch neither slot nor flag and are left out, and so is their order.
- Reconnection.LossIsRecovered: that a scheduler runs every goroutine some time, and
  that some dial works, is up to the runtime and the network.
- The batch sync of all services (`pkg/providers/proxy/proxy.go:142-210`) registers,
  offers and forgets its message as a single operation does; it is the same steps
  under another callback.
- The retry count and the timestamp of sync callbacks, which nothing reads.
- Access control, analytics, integrations, the provider registry, configuration
  defaults, interface names and random ids, which are assumed to be new.
